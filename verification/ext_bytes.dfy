/** Byte attribution conserves bytes (internal/app/server/extension.go:200-258). */
module ExtBytes {
  import opened ExtTracker

  function BytesOf(r: Record, inbound: bool): nat {
    if inbound then r.bytesIn else r.bytesOut
  }

  /** All bytes of one direction, over all records. */
  ghost function Bytes(m: Records, inbound: bool): nat
    decreases |m|
  {
    if m == map[] then 0
    else
      var k :| k in m;
      BytesOf(m[k], inbound) + Bytes(m - {k}, inbound)
  }

  /** Any record may be counted first. */
  lemma {:induction false} BytesPick(m: Records, k: string, inbound: bool)
    requires k in m
    ensures Bytes(m, inbound) == BytesOf(m[k], inbound) + Bytes(m - {k}, inbound)
    decreases |m|
  {
    hide BytesOf;
    var j :| j in m && Bytes(m, inbound) == BytesOf(m[j], inbound) + Bytes(m - {j}, inbound);
    if j != k {
      assert |m - {j}| < |m| && |m - {k}| < |m| by { Fewer(m, j); Fewer(m, k); }
      BytesPick(m - {j}, k, inbound);
      BytesPick(m - {k}, j, inbound);
      assert m - {j} - {k} == m - {k} - {j};
    }
  }

  lemma Fewer(m: Records, k: string)
    requires k in m
    ensures |m - {k}| < |m|
  {
    assert (m - {k}).Keys == m.Keys - {k};
  }

  lemma BytesChange(m: Records, k: string, r: Record, inbound: bool)
    ensures Bytes(m[k := r], inbound) + (if k in m then BytesOf(m[k], inbound) else 0)
      == Bytes(m, inbound) + BytesOf(r, inbound)
  {
    hide BytesOf, Bytes;
    var m' := m[k := r];
    BytesPick(m', k, inbound);
    assert m' - {k} == m - {k};
    if k in m { BytesPick(m, k, inbound); } else { assert m - {k} == m; }
  }

  /** The event credits the record of key k: its address is bound to it, or it takes part in its call. */
  ghost predicate Credited(s: State, e: Event, k: string) {
    match e
    case PeerBytes(peer, _, n) => n > 0 && peer != "" && peer in s.peers && s.peers[peer] == k
    case CallBytes(callID, _, n) => n > 0 && callID != "" && callID in s.calls && k in s.calls[callID].keys
    case _ => false
  }

  /** Bytes go to the records the event names, inbound ones to one counter and outbound ones to the other,
      and nothing else changes. */
  lemma BytesMeaning(s: State, e: Event)
    requires e.PeerBytes? || e.CallBytes?
    ensures var s' := Step(s, e);
      && s'.calls == s.calls && s'.peers == s.peers && s'.exts.Keys == s.exts.Keys
      && forall k :: k in s.exts ==>
           var r, more := s.exts[k], if Credited(s, e, k) then e.n else 0;
           s'.exts[k] == if e.inbound then r.(bytesIn := r.bytesIn + more) else r.(bytesOut := r.bytesOut + more)
  {
  }

  /** What one event credits in a direction: the bytes themselves for a known address, and the bytes
      once for every registered party for a known call. */
  function Credit(s: State, e: Event, inbound: bool): nat {
    match e
    case PeerBytes(peer, inb, n) => if inb == inbound && n > 0 && peer != "" && peer in s.peers then n else 0
    case CallBytes(k, inb, n) =>
      if inb == inbound && n > 0 && k != "" && k in s.calls then n * |s.calls[k].keys| else 0
    case _ => 0
  }

  function Credits(s: State, run: seq<Event>, inbound: bool): nat
    decreases |run|
  {
    if run == [] then 0 else Credit(s, run[0], inbound) + Credits(Step(s, run[0]), run[1..], inbound)
  }

  /** Records that differ in other counters only hold the same bytes. */
  ghost predicate SameBytes(m: Records, m': Records, inbound: bool) {
    m'.Keys == m.Keys && forall k :: k in m ==> BytesOf(m'[k], inbound) == BytesOf(m[k], inbound)
  }

  lemma {:induction false} SameTotal(m: Records, m': Records, inbound: bool)
    requires SameBytes(m, m', inbound)
    ensures Bytes(m', inbound) == Bytes(m, inbound)
    decreases |m|
  {
    hide BytesOf;
    if m != map[] {
      var k :| k in m;
      Fewer(m, k);
      SameTotal(m - {k}, m' - {k}, inbound);
      BytesPick(m, k, inbound);
      BytesPick(m', k, inbound);
    } else {
      assert m' == map[];
    }
  }

  lemma OneMore(m: Records, keys: seq<string>, change: Record -> Record, n: nat, inbound: bool)
    requires 1 <= |keys| <= 2 && (forall k :: k in keys ==> k in m) && (|keys| == 2 ==> keys[0] != keys[1])
    requires forall r :: BytesOf(change(r), inbound) == BytesOf(r, inbound) + n
    ensures Bytes(Update(m, keys, change), inbound) == Bytes(m, inbound) + n * |keys|
  {
    hide BytesOf, Bytes;
    var a := keys[0];
    assert a in keys;
    var m1 := m[a := change(m[a])];
    BytesChange(m, a, change(m[a]), inbound);
    if |keys| == 1 {
      assert keys == [a];
      assert Update(m, keys, change) == m1;
    } else {
      var b := keys[1];
      assert b in keys && keys == [a, b];
      BytesChange(m1, b, change(m[b]), inbound);
      assert Update(m, keys, change) == m1[b := change(m[b])];
    }
  }

  lemma CallStep(s: State, e: Event, inbound: bool)
    requires Shape(s) && e.CallBytes?
    ensures Bytes(Step(s, e).exts, inbound) == Bytes(s.exts, inbound) + Credit(s, e, inbound)
  {
    hide Bytes, RecordsShape, PeersShape;
    var n := e.n;
    if n > 0 && e.callID != "" && e.callID in s.calls {
      var change := MoreBytes(e.inbound, n);
      assert CallShape(s.calls[e.callID], s.exts.Keys);
      if e.inbound == inbound {
        OneMore(s.exts, s.calls[e.callID].keys, change, n, inbound);
      } else {
        SameTotal(s.exts, Update(s.exts, s.calls[e.callID].keys, change), inbound);
      }
    }
  }

  lemma PeerStep(s: State, e: Event, inbound: bool)
    requires Shape(s) && e.PeerBytes?
    ensures Bytes(Step(s, e).exts, inbound) == Bytes(s.exts, inbound) + Credit(s, e, inbound)
  {
    hide Bytes, RecordsShape, CallsShape;
    var n := e.n;
    if n > 0 && e.peer != "" && e.peer in s.peers {
      var change := MoreBytes(e.inbound, n);
      if e.inbound == inbound {
        OneMore(s.exts, [s.peers[e.peer]], change, n, inbound);
      } else {
        SameTotal(s.exts, Update(s.exts, [s.peers[e.peer]], change), inbound);
      }
    }
  }

  lemma RegisterStep(s: State, e: Event, inbound: bool)
    requires e.Register?
    ensures Bytes(Step(s, e).exts, inbound) == Bytes(s.exts, inbound)
  {
    hide Bytes, ExtKey, Bind;
    if e.number != "" {
      var key := ExtKey(e.protocol, e.number);
      var s' := Step(s, e);
      BytesChange(s.exts, key, s'.exts[key], inbound);
      assert s'.exts == s.exts[key := s'.exts[key]];
    }
  }

  lemma CreditStep(s: State, e: Event, inbound: bool)
    requires Shape(s)
    ensures Bytes(Step(s, e).exts, inbound) == Bytes(s.exts, inbound) + Credit(s, e, inbound)
  {
    hide Bytes, Shape;
    match e
    case Register(_, _, _, _) => RegisterStep(s, e, inbound);
    case Pend(_, _, _, _, _, _) =>
    case Answer(_, _) => SameTotal(s.exts, Step(s, e).exts, inbound);
    case End(_, _) => SameTotal(s.exts, Step(s, e).exts, inbound);
    case PeerBytes(_, _, _) => PeerStep(s, e, inbound);
    case CallBytes(_, _, _) => CallStep(s, e, inbound);
  }

  lemma {:induction false} CreditRun(s: State, run: seq<Event>, inbound: bool)
    requires Shape(s) && ValidRun(s, run)
    ensures Bytes(Run(s, run).exts, inbound) == Bytes(s.exts, inbound) + Credits(s, run, inbound)
    decreases |run|
  {
    hide Bytes, Shape, Step, Enabled, Credit;
    if run != [] {
      CreditStep(s, run[0], inbound);
      StepShape(s, run[0]);
      CreditRun(Step(s, run[0]), run[1..], inbound);
    }
  }

  /** Over every run and in each direction the bytes on the records are the bytes credited. */
  lemma BytesConserved(run: seq<Event>, inbound: bool)
    requires ValidRun(EMPTY, run)
    ensures Bytes(Run(EMPTY, run).exts, inbound) == Credits(EMPTY, run, inbound)
  {
    hide Run, ValidRun, Credits;
    assert Shape(EMPTY) && Bytes(EMPTY.exts, inbound) == 0;
    CreditRun(EMPTY, run, inbound);
  }
}
