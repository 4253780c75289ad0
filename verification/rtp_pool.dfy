/** The RTP port pool (internal/app/server/rtp_relay.go:15-64) and the port policy it draws from
    (internal/app/common/config/config.go:244-254). */
module RtpPool {
  import opened Text

  const RTP_MIN: int := 10000
  const RTP_DEFAULT_END: int := 20000

  datatype PortRange = PortRange(start: GoInt, end: GoInt)

  predicate Within(r: PortRange, port: int) { r.start <= port <= r.end }

  /** IsPortAllowed: everything when no range is configured. */
  predicate IsPortAllowed(allow: seq<PortRange>, port: int) {
    allow == [] || exists r :: r in allow && Within(r, port)
  }

  /** The parts of the allowed ranges at and above RTP_MIN. */
  function ClipRanges(allow: seq<PortRange>): seq<PortRange> {
    if allow == [] then []
    else
      var r := allow[0];
      (if r.end >= RTP_MIN then [PortRange(if r.start < RTP_MIN then RTP_MIN else r.start, r.end)] else [])
      + ClipRanges(allow[1..])
  }

  /** newRTPPortPool. */
  function PoolRanges(allow: seq<PortRange>): seq<PortRange> {
    var ranges := ClipRanges(allow);
    if ranges == [] then [PortRange(RTP_MIN, RTP_DEFAULT_END)] else ranges
  }

  predicate InRanges(ranges: seq<PortRange>, port: int) {
    exists r :: r in ranges && Within(r, port)
  }

  /** Every port of the pool is high, and allowed unless the configuration names only low ranges. */
  lemma PoolPolicy(allow: seq<PortRange>, port: int)
    requires InRanges(PoolRanges(allow), port)
    ensures port >= RTP_MIN
    ensures IsPortAllowed(allow, port) <==> allow == [] || exists r :: r in allow && r.end >= RTP_MIN
  {
    ClippedPorts(allow, port);
    NoneClipped(allow);
    if exists r :: r in allow && Within(r, port) {
      var r :| r in allow && Within(r, port);
      assert r.end >= RTP_MIN || ClipRanges(allow) == [];
    }
  }

  /** The pool's ports: those at and above 10000 of the allowed ranges, and 10000 to 20000 when no allowed
      range reaches that far. */
  lemma PoolPorts(allow: seq<PortRange>, port: int)
    ensures InRanges(PoolRanges(allow), port) <==>
      port >= 10000 &&
      if exists i :: 0 <= i < |allow| && allow[i].end >= 10000
      then exists i :: 0 <= i < |allow| && allow[i].start <= port <= allow[i].end
      else port <= 20000
  {
    ClippedPorts(allow, port);
    NoneClipped(allow);
    if ClipRanges(allow) == [] { assert PoolRanges(allow)[0] == PortRange(RTP_MIN, RTP_DEFAULT_END); }
    if i :| 0 <= i < |allow| && allow[i].end >= 10000 { assert allow[i] in allow; }
    if i :| 0 <= i < |allow| && allow[i].start <= port <= allow[i].end {
      assert allow[i] in allow && Within(allow[i], port);
    }
  }

  lemma {:induction false} ClippedPorts(allow: seq<PortRange>, port: int)
    ensures InRanges(ClipRanges(allow), port) <==>
      port >= RTP_MIN && exists r :: r in allow && Within(r, port)
  {
    if allow != [] {
      var rest := allow[1..];
      ClippedPorts(rest, port);
      var c := ClipRanges(allow);
      assert forall r :: r in allow <==> r == allow[0] || r in rest;
      if allow[0].end >= RTP_MIN {
        assert forall r :: r in c <==> r == c[0] || r in ClipRanges(rest);
        assert Within(c[0], port) <==> port >= RTP_MIN && Within(allow[0], port);
      } else {
        assert c == ClipRanges(rest);
      }
    }
  }

  lemma {:induction false} NoneClipped(allow: seq<PortRange>)
    ensures ClipRanges(allow) == [] <==> forall r :: r in allow ==> r.end < RTP_MIN
  {
    if allow != [] {
      NoneClipped(allow[1..]);
      assert forall r :: r in allow <==> r == allow[0] || r in allow[1..];
    }
  }

  // ---------------------------------------------------------------- allocation

  /** The first unused port from port on, up to end. */
  function FirstInRange(port: int, end: int, used: set<int>): (p: int)
    ensures p == 0 || (port <= p <= end && p !in used)
    decreases end - port
  {
    if port > end then 0 else if port !in used then port else FirstInRange(port + 1, end, used)
  }

  /** The first unused port in range order, 0 when there is none. */
  function FirstFree(ranges: seq<PortRange>, used: set<int>): int {
    if ranges == [] then 0
    else
      var p := FirstInRange(ranges[0].start, ranges[0].end, used);
      if p != 0 then p else FirstFree(ranges[1..], used)
  }

  lemma {:induction false} RangeExhausted(port: int, end: int, used: set<int>)
    requires port > 0
    ensures FirstInRange(port, end, used) == 0 <==> forall q :: port <= q <= end ==> q in used
    decreases end - port
  {
    if port <= end && port in used { RangeExhausted(port + 1, end, used); }
  }

  ghost predicate HighRanges(ranges: seq<PortRange>) {
    forall r :: r in ranges ==> r.start >= RTP_MIN
  }

  /** Allocation fails exactly when every port of the union of the ranges is used, however they
      overlap; otherwise it picks an unused port of a range. */
  lemma {:induction false} FirstFreeComplete(ranges: seq<PortRange>, used: set<int>)
    requires HighRanges(ranges)
    ensures FirstFree(ranges, used) == 0 <==> forall q :: InRanges(ranges, q) ==> q in used
    ensures var p := FirstFree(ranges, used); p != 0 ==> InRanges(ranges, p) && p !in used
  {
    if ranges != [] {
      var r := ranges[0];
      var rest := ranges[1..];
      assert r in ranges && forall x :: x in ranges <==> x == r || x in rest;
      FirstFreeComplete(rest, used);
      RangeExhausted(r.start, r.end, used);
      assert forall q :: InRanges(ranges, q) <==> Within(r, q) || InRanges(rest, q);
    }
  }

  /** The allocated port is the first unused one in the order of the ranges. */
  lemma {:induction false} FirstFreeFirst(ranges: seq<PortRange>, used: set<int>) returns (i: nat)
    requires HighRanges(ranges) && FirstFree(ranges, used) != 0
    ensures var p := FirstFree(ranges, used);
      && i < |ranges| && ranges[i].start <= p <= ranges[i].end && p !in used
      && (forall q :: ranges[i].start <= q < p ==> q in used)
      && (forall j, q :: 0 <= j < i && ranges[j].start <= q <= ranges[j].end ==> q in used)
  {
    var r := ranges[0];
    assert r in ranges;
    FirstOfRange(r.start, r.end, used);
    RangeExhausted(r.start, r.end, used);
    if FirstInRange(r.start, r.end, used) != 0 { return 0; }
    assert forall x :: x in ranges[1..] ==> x in ranges;
    i := FirstFreeFirst(ranges[1..], used);
    i := i + 1;
    assert forall j :: 0 < j < |ranges| ==> ranges[j] == ranges[1..][j - 1];
  }

  lemma {:induction false} FirstOfRange(port: int, end: int, used: set<int>)
    requires port > 0
    ensures var p := FirstInRange(port, end, used); p != 0 ==> forall q :: port <= q < p ==> q in used
    decreases end - port
  {
    if port <= end && port in used { FirstOfRange(port + 1, end, used); }
  }

  lemma PoolRangesHigh(allow: seq<PortRange>)
    ensures HighRanges(PoolRanges(allow))
  {
    ClippedHigh(allow);
  }

  lemma {:induction false} ClippedHigh(allow: seq<PortRange>)
    ensures HighRanges(ClipRanges(allow))
  {
    if allow != [] {
      ClippedHigh(allow[1..]);
      assert forall r :: r in ClipRanges(allow) ==> r == ClipRanges(allow)[0] || r in ClipRanges(allow[1..]);
    }
  }

  class PortPool {
    const ranges: seq<PortRange>
    var used: set<int>

    ghost predicate Valid() reads this { HighRanges(ranges) }

    constructor (allow: seq<PortRange>)
      ensures Valid() && ranges == PoolRanges(allow) && used == {}
    {
      PoolRangesHigh(allow);
      ranges := PoolRanges(allow);
      used := {};
    }

    /** Alloc. */
    method Alloc() returns (port: int)
      requires Valid()
      modifies this
      ensures Valid() && port == FirstFree(ranges, old(used))
      ensures port == 0 <==> forall q :: InRanges(ranges, q) ==> q in old(used)
      ensures port != 0 ==> InRanges(ranges, port) && RTP_MIN <= port <= MAX_INT && port !in old(used)
      ensures used == if port == 0 then old(used) else old(used) + {port}
    {
      FirstFreeComplete(ranges, used);
      var i := 0;
      assert ranges[0..] == ranges;
      while i < |ranges|
        invariant 0 <= i <= |ranges| && used == old(used)
        invariant FirstFree(ranges, used) == FirstFree(ranges[i..], used)
      {
        assert ranges[i..][1..] == ranges[i + 1..];
        var r := ranges[i];
        assert r in ranges;
        port := r.start;
        while port <= r.end
          invariant port >= RTP_MIN && used == old(used)
          invariant FirstInRange(r.start, r.end, used) == FirstInRange(port, r.end, used)
          decreases r.end - port
        {
          if port !in used {
            used := used + {port};
            return;
          }
          port := port + 1;
        }
        i := i + 1;
      }
      port := 0;
    }

    /** Free. */
    method Free(port: int)
      requires Valid()
      modifies this
      ensures Valid() && used == old(used) - {port}
    {
      used := used - {port};
    }
  }
}
