/** The relay table of one client session as the program keeps it
    (internal/app/server/control.go:226-245, 276-299, 333-402, internal/app/server/rtp_relay.go:187-202),
    one call at a time; RtpLifecycle interleaves the same effects. */
module RtpSession {
  import opened Text
  import opened Sdp
  import opened RtpPool
  import opened RtpLifecycle

  /** One media entry of a call, for which a relay is wanted. */
  datatype Want = Want(callID: string, idx: nat, entry: MediaEntry) {
    function Id(): string { Key(callID, idx) }
  }

  /** What the client is told about a new relay: where it sends, and the public port it answers on. */
  datatype NewRTPRelay = NewRTPRelay(relayID: string, localIP: string, localPort: int, publicPort: int)

  class RTPRelay {
    const id: string
    const callID: string
    const mediaIdx: nat
    const localIP: string
    const localPort: int
    const publicPort: int
    const pool: PortPool
    var stopped: bool

    constructor (want: Want, publicPort: int, pool: PortPool)
      ensures id == want.Id() && callID == want.callID && mediaIdx == want.idx
      ensures localIP == want.entry.connAddr && localPort == want.entry.port
      ensures this.publicPort == publicPort && this.pool == pool && !stopped
    {
      id, callID, mediaIdx := want.Id(), want.callID, want.idx;
      localIP, localPort := want.entry.connAddr, want.entry.port;
      this.publicPort, this.pool, stopped := publicPort, pool, false;
    }

    /** Stop: closeOnce lets only the first call give the port back. */
    method Stop()
      requires pool.Valid()
      modifies this`stopped, pool
      ensures pool.Valid() && stopped
      ensures pool.used == if old(stopped) then old(pool.used) else old(pool.used) - {publicPort}
    {
      if !stopped {
        stopped := true;
        pool.Free(publicPort);
      }
    }
  }

  /** The entries of m whose key is not in gone. */
  ghost function Without(m: map<string, RTPRelay>, gone: set<string>): map<string, RTPRelay> {
    map k | k in m && k !in gone :: m[k]
  }

  ghost function OfCall(m: map<string, RTPRelay>, callID: string): set<string> {
    set k | k in m && m[k].callID == callID
  }

  /** A relay as it stands in the map: under its id, on a port of the session's pool. */
  ghost predicate Under(k: string, r: RTPRelay, pool: PortPool) {
    r.id == k && r.pool == pool && RTP_MIN <= r.publicPort <= MAX_INT
  }

  ghost function Values(m: map<string, RTPRelay>): set<RTPRelay> {
    set k | k in m :: m[k]
  }

  ghost function StoppedKeys(m: map<string, RTPRelay>): set<string>
    reads Values(m)
  {
    set k | k in m && m[k].stopped
  }

  ghost function PortsOf(m: map<string, RTPRelay>, keys: set<string>): set<int> {
    set k | k in m && k in keys :: m[k].publicPort
  }

  lemma GoneNext(m: map<string, RTPRelay>, was: set<string>, gone: set<string>, key: string)
    requires key in m && key !in gone
    ensures Without(m, gone) - {key} == Without(m, gone + {key})
    ensures PortsOf(m, gone - was) + PortsOf(m, {key} - (was + gone)) == PortsOf(m, gone + {key} - was)
  {
  }

  lemma NothingGone(m: map<string, RTPRelay>, was: set<string>, callID: string)
    ensures Without(m, {}) == m && PortsOf(m, {} - was) == {} && OfCall(m, callID) - m.Keys == {}
  {
  }

  lemma CallMember(m: map<string, RTPRelay>, callID: string, key: string)
    requires key in m
    ensures key in OfCall(m, callID) <==> m[key].callID == callID
  {
  }

  /** What one index of getOrCreateRTPRelays leaves, when opens says on which ports a socket can be
      opened: the mapped relay; or else one for the entry on the first free port; or nothing when no port
      is free or the socket of that one does not open. */
  ghost predicate CreatedOne(ranges: seq<PortRange>, opens: int -> bool, m: map<string, RTPRelay>, used: set<int>,
                             m': map<string, RTPRelay>, used': set<int>, want: Want, port: Option<int>) {
    var key, p := want.Id(), FirstFree(ranges, used);
    if key in m then m' == m && used' == used && port == Some(m[key].publicPort)
    else if p == 0 || !opens(p) then m' == m && used' == used && port == None
    else
      && key in m' && m' == m[key := m'[key]] && port == Some(p) && p !in used && used' == used + {p}
      && m'[key].publicPort == p && IsFor(m'[key], want)
  }

  /** The relay sends to the media entry's own address and port. */
  ghost predicate IsFor(r: RTPRelay, want: Want) {
    r.callID == want.callID && r.mediaIdx == want.idx
    && r.localIP == want.entry.connAddr && r.localPort == want.entry.port
  }

  /** Nothing mapped before changes; a new relay is for one of the call's first n entries, under its key. */
  ghost predicate Extended(m: map<string, RTPRelay>, m': map<string, RTPRelay>, callID: string,
                           entries: seq<MediaEntry>, n: nat)
    requires n <= |entries|
  {
    && (forall k :: k in m ==> k in m' && m'[k] == m[k])
    && (forall k :: k in m' && k !in m ==>
          exists i: nat :: i < n && k == Key(callID, i) && IsFor(m'[k], Want(callID, i, entries[i])))
  }

  /** New relays have ports that were free and are pairwise distinct, and those are what was taken. */
  ghost predicate Taken(m: map<string, RTPRelay>, used: set<int>, m': map<string, RTPRelay>, used': set<int>) {
    && (forall k :: k in m' && k !in m ==> m'[k].publicPort !in used && m'[k].publicPort in used')
    && (forall j, k :: j in m' && k in m' && j !in m && k !in m && j != k
          ==> m'[j].publicPort != m'[k].publicPort)
    && used <= used'
    && (forall p :: p in used' && p !in used ==> exists k :: k in m' && k !in m && m'[k].publicPort == p)
  }

  /** The result names the mapped port of every one of the first n indices that has one. */
  ghost predicate Named(m: map<string, RTPRelay>, callID: string, n: nat, result: map<nat, int>) {
    && (forall i: nat :: i in result <==> i < n && Key(callID, i) in m)
    && (forall i: nat :: i in result ==> result[i] == m[Key(callID, i)].publicPort)
  }

  /** An index that has no relay in the end was refused one: at some moment between no port was free, or
      the socket on the first free one did not open. */
  ghost predicate Tried(ranges: seq<PortRange>, opens: int -> bool, used: set<int>, m': map<string, RTPRelay>,
                        used': set<int>, callID: string, n: nat) {
    forall i: nat :: i < n && Key(callID, i) !in m' ==> Refused(ranges, opens, used, used')
  }

  ghost predicate Refused(ranges: seq<PortRange>, opens: int -> bool, used: set<int>, used': set<int>) {
    exists u :: used <= u <= used' && (FirstFree(ranges, u) == 0 || !opens(FirstFree(ranges, u)))
  }

  /** The ports of the ranges. */
  ghost function PortSet(ranges: seq<PortRange>): set<int> {
    if ranges == [] then {}
    else (set p: int | ranges[0].start <= p <= ranges[0].end && Within(ranges[0], p)) + PortSet(ranges[1..])
  }

  ghost predicate AllOpen(ranges: seq<PortRange>, opens: int -> bool) {
    forall p :: p in PortSet(ranges) ==> opens(p)
  }

  /** With sockets that open, every index takes one free port at most, and gets one while there are any. */
  ghost predicate Enough(ranges: seq<PortRange>, opens: int -> bool, used: set<int>, m': map<string, RTPRelay>,
                         used': set<int>, callID: string, n: nat) {
    AllOpen(ranges, opens) ==>
      && |PortSet(ranges) - used'| + n >= |PortSet(ranges) - used|
      && (|PortSet(ranges) - used| >= n ==> forall i: nat :: i < n ==> Key(callID, i) in m')
  }

  lemma {:induction false} PortsInRanges(ranges: seq<PortRange>, p: int)
    ensures p in PortSet(ranges) <==> InRanges(ranges, p)
  {
    if ranges != [] {
      PortsInRanges(ranges[1..], p);
      assert forall r :: r in ranges <==> r == ranges[0] || r in ranges[1..];
      assert InRanges(ranges, p) <==> Within(ranges[0], p) || InRanges(ranges[1..], p);
    }
  }

  lemma FreeExists(ranges: seq<PortRange>, used: set<int>)
    requires HighRanges(ranges)
    ensures var p := FirstFree(ranges, used);
      (p == 0 <==> PortSet(ranges) - used == {}) && (p != 0 ==> p in PortSet(ranges) - used)
  {
    FirstFreeComplete(ranges, used);
    hide FirstFree, PortSet, InRanges;
    forall p ensures p in PortSet(ranges) <==> InRanges(ranges, p) { PortsInRanges(ranges, p); }
    var p := FirstFree(ranges, used);
    if p == 0 {
      assert forall q :: q in PortSet(ranges) ==> InRanges(ranges, q) && q in used;
    } else {
      assert p in PortSet(ranges) - used;
    }
  }

  lemma OneTaken(ports: set<int>, used: set<int>, used': set<int>, p: int)
    requires used' == used || used' == used + {p}
    ensures |ports - used'| + 1 >= |ports - used|
  {
    assert ports - used <= (ports - used') + {p};
    Fits(ports - used, (ports - used') + {p});
  }

  lemma Fits(a: set<int>, b: set<int>)
    requires a <= b
    ensures |a| <= |b|
  {
    assert b == a + (b - a);
  }

  /** With sockets that open, an index has its relay afterwards when a port is free. */
  lemma OneServed(ranges: seq<PortRange>, opens: int -> bool, m1: map<string, RTPRelay>, used1: set<int>,
                  m2: map<string, RTPRelay>, used2: set<int>, want: Want, port: Option<int>)
    requires HighRanges(ranges) && AllOpen(ranges, opens)
    requires CreatedOne(ranges, opens, m1, used1, m2, used2, want, port)
    ensures used2 == used1 || used2 == used1 + {FirstFree(ranges, used1)}
    ensures m1.Keys <= m2.Keys && (|PortSet(ranges) - used1| > 0 ==> want.Id() in m2)
  {
    FreeExists(ranges, used1);
    hide Key, FirstFree, PortSet, IsFor;
  }

  lemma EnoughNext(ranges: seq<PortRange>, opens: int -> bool, used: set<int>, m1: map<string, RTPRelay>,
                   used1: set<int>, m2: map<string, RTPRelay>, used2: set<int>, want: Want, port: Option<int>)
    requires HighRanges(ranges) && Enough(ranges, opens, used, m1, used1, want.callID, want.idx)
    requires CreatedOne(ranges, opens, m1, used1, m2, used2, want, port)
    ensures Enough(ranges, opens, used, m2, used2, want.callID, want.idx + 1)
  {
    hide Key, FirstFree, PortSet, CreatedOne, AllOpen;
    if AllOpen(ranges, opens) {
      OneServed(ranges, opens, m1, used1, m2, used2, want, port);
      OneTaken(PortSet(ranges), used1, used2, FirstFree(ranges, used1));
    }
  }

  lemma TriedNext(ranges: seq<PortRange>, opens: int -> bool, used: set<int>, m1: map<string, RTPRelay>,
                  used1: set<int>, m2: map<string, RTPRelay>, used2: set<int>, want: Want, port: Option<int>)
    requires Tried(ranges, opens, used, m1, used1, want.callID, want.idx) && used <= used1
    requires CreatedOne(ranges, opens, m1, used1, m2, used2, want, port)
    ensures Tried(ranges, opens, used, m2, used2, want.callID, want.idx + 1)
  {
    hide Key, FirstFree, IsFor;
    assert used1 <= used2;
    forall i: nat | i < want.idx + 1 && Key(want.callID, i) !in m2 ensures Refused(ranges, opens, used, used2) {
      if i < want.idx {
        assert Key(want.callID, i) !in m1;
        var u :| used <= u <= used1 && (FirstFree(ranges, u) == 0 || !opens(FirstFree(ranges, u)));
        assert used <= u <= used2;
      } else {
        assert used <= used1 <= used2 && (FirstFree(ranges, used1) == 0 || !opens(FirstFree(ranges, used1)));
      }
    }
  }

  /** What the client is told for the first n entries: one request for every relay that is new. */
  ghost function Requests(m: map<string, RTPRelay>, m': map<string, RTPRelay>, callID: string,
                          entries: seq<MediaEntry>, n: nat): seq<NewRTPRelay>
    requires n <= |entries|
  {
    if n == 0 then []
    else
      var k, e := Key(callID, n - 1), entries[n - 1];
      Requests(m, m', callID, entries, n - 1)
      + (if k in m' && k !in m then [NewRTPRelay(k, e.connAddr, e.port, m'[k].publicPort)] else [])
  }

  lemma {:induction false} RequestsSame(m: map<string, RTPRelay>, m1: map<string, RTPRelay>,
                                        m2: map<string, RTPRelay>, callID: string, entries: seq<MediaEntry>, n: nat)
    requires n <= |entries|
    requires forall i: nat :: i < n && Key(callID, i) in m1 ==>
      Key(callID, i) in m2 && m1[Key(callID, i)] == m2[Key(callID, i)]
    requires forall i: nat :: i < n && Key(callID, i) in m2 ==> Key(callID, i) in m1
    ensures Requests(m, m1, callID, entries, n) == Requests(m, m2, callID, entries, n)
  {
    hide Key;
    if n > 0 { RequestsSame(m, m1, m2, callID, entries, n - 1); }
  }

  lemma RequestsNext(m: map<string, RTPRelay>, ranges: seq<PortRange>, opens: int -> bool, m1: map<string, RTPRelay>,
                     used1: set<int>, m2: map<string, RTPRelay>, used2: set<int>, entries: seq<MediaEntry>,
                     want: Want, port: Option<int>)
    requires want.idx < |entries| && want.entry == entries[want.idx]
    requires CreatedOne(ranges, opens, m1, used1, m2, used2, want, port)
    requires forall k :: k in m ==> k in m1
    requires forall i: nat :: i < want.idx ==> want.Id() != Key(want.callID, i)
    requires want.Id() in m1 ==> want.Id() in m
    ensures Requests(m, m2, want.callID, entries, want.idx + 1) == Requests(m, m1, want.callID, entries, want.idx)
      + (if want.Id() in m2 && want.Id() !in m1 then
           [NewRTPRelay(want.Id(), want.entry.connAddr, want.entry.port, m2[want.Id()].publicPort)]
         else [])
  {
    hide Key, FirstFree, IsFor;
    RequestsSame(m, m1, m2, want.callID, entries, want.idx);
  }

  lemma NothingYet(m: map<string, RTPRelay>, used: set<int>, callID: string, entries: seq<MediaEntry>)
    ensures Extended(m, m, callID, entries, 0) && Taken(m, used, m, used) && Named(m, callID, 0, map[])
  {
    hide Key;
  }

  /** The relays of m that m0 does not map are all in live. */
  ghost predicate Covered(m0: map<string, RTPRelay>, m: map<string, RTPRelay>, live: set<RTPRelay>) {
    forall k :: k in m && k !in m0 ==> m[k] in live
  }

  lemma ExtendedNext(m: map<string, RTPRelay>, ranges: seq<PortRange>, opens: int -> bool, m1: map<string, RTPRelay>,
                     used1: set<int>, m2: map<string, RTPRelay>, used2: set<int>, entries: seq<MediaEntry>,
                     want: Want, port: Option<int>)
    requires want.idx < |entries| && want.entry == entries[want.idx]
    requires Extended(m, m1, want.callID, entries, want.idx)
    requires CreatedOne(ranges, opens, m1, used1, m2, used2, want, port)
    ensures Extended(m, m2, want.callID, entries, want.idx + 1)
  {
    hide Key, FirstFree, IsFor;
    var n, callID := want.idx, want.callID;
    forall k | k in m2 && k !in m
      ensures exists i: nat :: i < n + 1 && k == Key(callID, i) && IsFor(m2[k], Want(callID, i, entries[i]))
    {
      if k in m1 {
        var i: nat :| i < n && k == Key(callID, i) && IsFor(m1[k], Want(callID, i, entries[i]));
        assert i < n + 1 && k == Key(callID, i) && IsFor(m2[k], Want(callID, i, entries[i]));
      } else {
        assert n < n + 1 && k == Key(callID, n) && IsFor(m2[k], Want(callID, n, entries[n]));
      }
    }
  }

  lemma TakenNext(m: map<string, RTPRelay>, used: set<int>, ranges: seq<PortRange>, opens: int -> bool,
                  m1: map<string, RTPRelay>, used1: set<int>, m2: map<string, RTPRelay>, used2: set<int>, want: Want,
                  port: Option<int>)
    requires (forall k :: k in m ==> k in m1) && Taken(m, used, m1, used1)
    requires CreatedOne(ranges, opens, m1, used1, m2, used2, want, port)
    ensures Taken(m, used, m2, used2)
  {
    hide Key, FirstFree, IsFor;
    var key := want.Id();
    forall p | p in used2 && p !in used ensures exists k :: k in m2 && k !in m && m2[k].publicPort == p {
      if p in used1 {
        var k :| k in m1 && k !in m && m1[k].publicPort == p;
        assert k in m2 && m2[k].publicPort == p;
      } else {
        assert m2[key].publicPort == p;
      }
    }
  }

  lemma NamedNext(ranges: seq<PortRange>, opens: int -> bool, m1: map<string, RTPRelay>, used1: set<int>,
                  m2: map<string, RTPRelay>, used2: set<int>, want: Want, result: map<nat, int>, port: Option<int>)
    requires Named(m1, want.callID, want.idx, result) && CreatedOne(ranges, opens, m1, used1, m2, used2, want, port)
    ensures Named(m2, want.callID, want.idx + 1, if port.Some? then result[want.idx := port.value] else result)
  {
    hide Key, FirstFree, IsFor;
    var n := want.idx;
    KeysApart(want.callID, n);
    forall i: nat ensures i < n ==> (Key(want.callID, i) in m1 <==> Key(want.callID, i) in m2) {
      if i < n { assert Key(want.callID, i) != Key(want.callID, n); }
    }
  }

  /** What the loop over the entries has done after n of them; live are the relays it created. */
  ghost predicate Created(ranges: seq<PortRange>, opens: int -> bool, m0: map<string, RTPRelay>, used0: set<int>,
                          m: map<string, RTPRelay>, used: set<int>, callID: string, entries: seq<MediaEntry>, n: nat,
                          result: map<nat, int>, live: set<RTPRelay>, told: seq<NewRTPRelay>)
    requires n <= |entries|
  {
    && Extended(m0, m, callID, entries, n) && Taken(m0, used0, m, used) && Named(m, callID, n, result)
    && Covered(m0, m, live) && Tried(ranges, opens, used0, m, used, callID, n)
    && Enough(ranges, opens, used0, m, used, callID, n) && told == Requests(m0, m, callID, entries, n)
  }

  ghost function WithNew(live: set<RTPRelay>, m1: map<string, RTPRelay>, m2: map<string, RTPRelay>, key: string)
    : set<RTPRelay>
  {
    if key in m2 && key !in m1 then live + {m2[key]} else live
  }

  /** The request that goes with a new relay. */
  ghost function Told(m1: map<string, RTPRelay>, m2: map<string, RTPRelay>, want: Want): seq<NewRTPRelay> {
    if want.Id() in m2 && want.Id() !in m1 then
      [NewRTPRelay(want.Id(), want.entry.connAddr, want.entry.port, m2[want.Id()].publicPort)]
    else []
  }

  lemma NothingCreated(ranges: seq<PortRange>, opens: int -> bool, m: map<string, RTPRelay>, used: set<int>,
                       callID: string, entries: seq<MediaEntry>)
    ensures Created(ranges, opens, m, used, m, used, callID, entries, 0, map[], {}, [])
  {
    NothingYet(m, used, callID, entries);
    hide Key, PortSet;
  }

  lemma CreatedNext(ranges: seq<PortRange>, opens: int -> bool, m0: map<string, RTPRelay>, used0: set<int>,
                    m1: map<string, RTPRelay>, used1: set<int>, m2: map<string, RTPRelay>, used2: set<int>,
                    entries: seq<MediaEntry>, result: map<nat, int>, live: set<RTPRelay>, told: seq<NewRTPRelay>,
                    want: Want, port: Option<int>)
    requires HighRanges(ranges) && want.idx < |entries| && want.entry == entries[want.idx]
    requires Created(ranges, opens, m0, used0, m1, used1, want.callID, entries, want.idx, result, live, told)
    requires CreatedOne(ranges, opens, m1, used1, m2, used2, want, port)
    ensures Created(ranges, opens, m0, used0, m2, used2, want.callID, entries, want.idx + 1,
                    if port.Some? then result[want.idx := port.value] else result,
                    WithNew(live, m1, m2, want.Id()), told + Told(m1, m2, want))
  {
    ExtendedNext(m0, ranges, opens, m1, used1, m2, used2, entries, want, port);
    TakenNext(m0, used0, ranges, opens, m1, used1, m2, used2, want, port);
    NamedNext(ranges, opens, m1, used1, m2, used2, want, result, port);
    TriedNext(ranges, opens, used0, m1, used1, m2, used2, want, port);
    EnoughNext(ranges, opens, used0, m1, used1, m2, used2, want, port);
    KeysApart(want.callID, want.idx);
    OldKey(m0, m1, want.callID, entries, want.idx);
    RequestsNext(m0, ranges, opens, m1, used1, m2, used2, entries, want, port);
    hide Key, Extended, Taken, Named, Tried, Enough, FirstFree, Requests, IsFor;
  }

  /** A key whose turn has not come is mapped only if it was before. */
  lemma OldKey(m: map<string, RTPRelay>, m1: map<string, RTPRelay>, callID: string, entries: seq<MediaEntry>, n: nat)
    requires n < |entries| && Extended(m, m1, callID, entries, n)
    ensures Key(callID, n) in m1 ==> Key(callID, n) in m
  {
    KeysApart(callID, n);
    hide Key, IsFor;
  }

  lemma HighPool(pool: PortPool)
    requires pool.Valid()
    ensures HighRanges(pool.ranges)
  {
  }

  lemma NewLive(live: set<RTPRelay>, m1: map<string, RTPRelay>, m2: map<string, RTPRelay>, key: string)
    requires forall r :: r in live ==> !r.stopped
    requires key in m2 && key !in m1 ==> !m2[key].stopped
    ensures forall r :: r in WithNew(live, m1, m2, key) ==>
      !r.stopped && (r in live || (key in m2 && key !in m1 && r == m2[key]))
  {
  }

  /** What getOrCreateRTPRelays leaves: nothing mapped before changes, new relays are for the call's own
      entries, on ports that were free and are distinct, the result names what is mapped, and an index
      without a relay was refused one. */
  ghost predicate Served(ranges: seq<PortRange>, opens: int -> bool, m0: map<string, RTPRelay>, used0: set<int>,
                         m: map<string, RTPRelay>, used: set<int>, callID: string, entries: seq<MediaEntry>,
                         result: map<nat, int>) {
    && Extended(m0, m, callID, entries, |entries|) && Taken(m0, used0, m, used) && Named(m, callID, |entries|, result)
    && Tried(ranges, opens, used0, m, used, callID, |entries|)
    && Enough(ranges, opens, used0, m, used, callID, |entries|)
  }

  /** With sockets that open and a free port for every entry, every index is in the result. */
  lemma EveryIndexServed(ranges: seq<PortRange>, opens: int -> bool, m0: map<string, RTPRelay>, used0: set<int>,
                         m: map<string, RTPRelay>, used: set<int>, callID: string, entries: seq<MediaEntry>,
                         result: map<nat, int>, i: nat)
    requires Served(ranges, opens, m0, used0, m, used, callID, entries, result) && i < |entries|
    requires (forall p :: InRanges(ranges, p) ==> opens(p)) && |PortSet(ranges) - used0| >= |entries|
    ensures i in result && Key(callID, i) in m && result[i] == m[Key(callID, i)].publicPort
  {
    hide PortSet, Key, InRanges, Extended, Taken, Tried;
    forall p | p in PortSet(ranges) ensures opens(p) { PortsInRanges(ranges, p); }
  }

  /** The relays of m that m0 does not map. */
  ghost function NewOnes(m0: map<string, RTPRelay>, m: map<string, RTPRelay>): set<RTPRelay> {
    set k | k in m && k !in m0 :: m[k]
  }

  lemma NothingServed(ranges: seq<PortRange>, opens: int -> bool, m: map<string, RTPRelay>, used: set<int>,
                      callID: string)
    ensures Served(ranges, opens, m, used, m, used, callID, [], map[]) && NewOnes(m, m) == {}
    ensures Requests(m, m, callID, [], 0) == []
  {
    hide Key, PortSet;
  }

  lemma CreatedMeans(ranges: seq<PortRange>, opens: int -> bool, m0: map<string, RTPRelay>, used0: set<int>,
                     m: map<string, RTPRelay>, used: set<int>, callID: string, entries: seq<MediaEntry>,
                     result: map<nat, int>, live: set<RTPRelay>, told: seq<NewRTPRelay>)
    requires Created(ranges, opens, m0, used0, m, used, callID, entries, |entries|, result, live, told)
    ensures Served(ranges, opens, m0, used0, m, used, callID, entries, result)
    ensures told == Requests(m0, m, callID, entries, |entries|)
    ensures NewOnes(m0, m) <= live
  {
    hide Extended, Taken, Tried, Enough, Named, Key, Requests;
  }

  class ClientSession {
    const pool: PortPool
    var rtpRelays: map<string, RTPRelay>
    var requests: seq<NewRTPRelay>

    /** Relays stand under their id and draw on the session's pool. */
    ghost predicate Valid()
      reads this, pool
    {
      pool.Valid() && forall k :: k in rtpRelays ==> Under(k, rtpRelays[k], pool)
    }

    constructor (pool: PortPool)
      requires pool.Valid()
      ensures Valid() && rtpRelays == map[] && requests == [] && this.pool == pool
    {
      this.pool, rtpRelays, requests := pool, map[], [];
    }

    /** The body of the loop of getOrCreateRTPRelays; opens says on which ports a socket can be opened. */
    method GetOrCreateOne(want: Want, opens: int -> bool) returns (port: Option<int>)
      requires Valid()
      modifies this`rtpRelays, this`requests, pool
      ensures Valid()
      ensures CreatedOne(pool.ranges, opens, old(rtpRelays), old(pool.used), rtpRelays, pool.used, want, port)
      ensures requests == old(requests) + Told(old(rtpRelays), rtpRelays, want)
      ensures want.Id() in rtpRelays && want.Id() !in old(rtpRelays) ==>
        !rtpRelays[want.Id()].stopped && fresh(rtpRelays[want.Id()])
    {
      hide FirstFree, Key;
      var key := want.Id();
      if key in rtpRelays {
        return Some(rtpRelays[key].publicPort);
      }
      var p := pool.Alloc();
      if p == 0 {
        return None;
      }
      var relay := new RTPRelay(want, p, pool);
      if !opens(p) {
        pool.Free(p);
        assert pool.used == old(pool.used);
        return None;
      }
      rtpRelays := rtpRelays[key := relay];
      requests := requests + [NewRTPRelay(relay.id, relay.localIP, relay.localPort, p)];
      port := Some(p);
    }

    /** getOrCreateRTPRelays; without a Call-ID or entries it does nothing. */
    method GetOrCreateRTPRelays(callID: string, entries: seq<MediaEntry>, opens: int -> bool)
      returns (result: map<nat, int>)
      requires Valid()
      modifies this`rtpRelays, this`requests, pool
      ensures Valid()
      ensures callID == "" || entries == [] ==> result == map[] && rtpRelays == old(rtpRelays)
      ensures callID == "" || entries == [] ==> requests == old(requests) && pool.used == old(pool.used)
      ensures callID != "" ==>
        Served(pool.ranges, opens, old(rtpRelays), old(pool.used), rtpRelays, pool.used, callID, entries, result)
      ensures callID != "" ==>
        requests == old(requests) + Requests(old(rtpRelays), rtpRelays, callID, entries, |entries|)
      ensures NewOnes(old(rtpRelays), rtpRelays) !! Values(old(rtpRelays)) && fresh(NewOnes(old(rtpRelays), rtpRelays))
      ensures forall r :: r in NewOnes(old(rtpRelays), rtpRelays) ==> !r.stopped
    {
      NothingServed(pool.ranges, opens, rtpRelays, pool.used, callID);
      hide *;
      result := map[];
      if callID == "" || |entries| == 0 {
        return;
      }
      result := ServeEntries(callID, entries, opens);
    }

    /** The loop over the entries. */
    method ServeEntries(callID: string, entries: seq<MediaEntry>, opens: int -> bool) returns (result: map<nat, int>)
      requires Valid()
      modifies this`rtpRelays, this`requests, pool
      ensures Valid()
      ensures Served(pool.ranges, opens, old(rtpRelays), old(pool.used), rtpRelays, pool.used, callID, entries, result)
      ensures requests == old(requests) + Requests(old(rtpRelays), rtpRelays, callID, entries, |entries|)
      ensures NewOnes(old(rtpRelays), rtpRelays) !! Values(old(rtpRelays)) && fresh(NewOnes(old(rtpRelays), rtpRelays))
      ensures forall r :: r in NewOnes(old(rtpRelays), rtpRelays) ==> !r.stopped
    {
      HighPool(pool);
      hide *;
      result := map[];
      NothingCreated(pool.ranges, opens, rtpRelays, pool.used, callID, entries);
      var idx: nat := 0;
      ghost var live: set<RTPRelay> := {};
      ghost var told: seq<NewRTPRelay> := [];
      while idx < |entries|
        invariant 0 <= idx <= |entries| && Valid() && fresh(live) && forall r :: r in live ==> !r.stopped
        invariant Created(pool.ranges, opens, old(rtpRelays), old(pool.used), rtpRelays, pool.used, callID, entries,
                          idx, result, live, told)
        invariant requests == old(requests) + told
      {
        ghost var m1, used1 := rtpRelays, pool.used;
        var want := Want(callID, idx, entries[idx]);
        var port := GetOrCreateOne(want, opens);
        CreatedNext(pool.ranges, opens, old(rtpRelays), old(pool.used), m1, used1, rtpRelays, pool.used, entries,
                    result, live, told, want, port);
        NewLive(live, m1, rtpRelays, want.Id());
        Regroup(old(requests), told, Told(m1, rtpRelays, want));
        told := told + Told(m1, rtpRelays, want);
        live := WithNew(live, m1, rtpRelays, want.Id());
        if port.Some? {
          result := result[idx := port.value];
        }
        idx := idx + 1;
      }
      CreatedMeans(pool.ranges, opens, old(rtpRelays), old(pool.used), rtpRelays, pool.used, callID, entries,
                   result, live, told);
    }

    /** Stops the relay m holds under key; no other relay of m is that object. */
    method StopOne(ghost m: map<string, RTPRelay>, key: string, relay: RTPRelay)
      requires Valid() && key in m && m[key] == relay && forall k :: k in m ==> Under(k, m[k], pool)
      modifies pool, relay`stopped
      ensures Valid() && StoppedKeys(m) == old(StoppedKeys(m)) + {key}
      ensures pool.used == old(pool.used) - PortsOf(m, {key} - old(StoppedKeys(m)))
    {
      assert forall k :: k in m && m[k] == relay ==> k == key;
      relay.Stop();
    }

    /** releaseRTPRelays: every relay of the call is unmapped and stopped, once each; a relay that had
        already stopped does not give its port back again. */
    method ReleaseRTPRelays(callID: string)
      requires Valid()
      modifies this`rtpRelays, pool, Values(rtpRelays)`stopped
      ensures Valid() && rtpRelays == Without(old(rtpRelays), OfCall(old(rtpRelays), callID))
      ensures var gone := OfCall(old(rtpRelays), callID);
        && StoppedKeys(old(rtpRelays)) == old(StoppedKeys(rtpRelays)) + gone
        && pool.used == old(pool.used) - PortsOf(old(rtpRelays), gone - old(StoppedKeys(rtpRelays)))
    {
      var keys := rtpRelays.Keys;
      ghost var gone: set<string> := {};
      ghost var m, was := rtpRelays, StoppedKeys(rtpRelays);
      NothingGone(m, was, callID);
      hide Without, PortsOf, StoppedKeys, Under, PortPool.Valid, OfCall;
      while keys != {}
        invariant Valid() && keys <= m.Keys && gone == OfCall(m, callID) - keys
        invariant rtpRelays == Without(m, gone) && (forall k :: k in keys ==> k in rtpRelays && rtpRelays[k] == m[k])
        invariant StoppedKeys(m) == was + gone
        invariant pool.used == old(pool.used) - PortsOf(m, gone - was)
        decreases keys
      {
        var key :| key in keys;
        keys := keys - {key};
        var relay := rtpRelays[key];
        assert relay == m[key];
        CallMember(m, callID, key);
        if relay.callID == callID {
          GoneNext(m, was, gone, key);
          StopOne(m, key, relay);
          rtpRelays := rtpRelays - {key};
          gone := gone + {key};
        }
      }
      assert gone == OfCall(m, callID);
    }

    /** handleNewRTPRelayResp with a failure: the named relay, if mapped, is stopped and unmapped. */
    method HandleRelayFailure(relayID: string)
      requires Valid()
      modifies this`rtpRelays, pool, Values(rtpRelays)`stopped
      ensures Valid() && rtpRelays == Without(old(rtpRelays), {relayID})
      ensures var gone := {relayID} * old(rtpRelays).Keys;
        && StoppedKeys(old(rtpRelays)) == old(StoppedKeys(rtpRelays)) + gone
        && pool.used == old(pool.used) - PortsOf(old(rtpRelays), gone - old(StoppedKeys(rtpRelays)))
    {
      if relayID in rtpRelays {
        StopOne(rtpRelays, relayID, rtpRelays[relayID]);
        rtpRelays := rtpRelays - {relayID};
      }
    }

    /** Close, for the relays: all are stopped, none stays mapped. */
    method CloseRelays()
      requires Valid()
      modifies this`rtpRelays, pool, Values(rtpRelays)`stopped
      ensures Valid() && rtpRelays == map[]
      ensures StoppedKeys(old(rtpRelays)) == old(rtpRelays).Keys
      ensures pool.used ==
        old(pool.used) - PortsOf(old(rtpRelays), old(rtpRelays).Keys - old(StoppedKeys(rtpRelays)))
    {
      var keys := rtpRelays.Keys;
      ghost var m, was := rtpRelays, StoppedKeys(rtpRelays);
      while keys != {}
        invariant Valid() && rtpRelays == m && keys <= m.Keys
        invariant StoppedKeys(m) == was + (m.Keys - keys)
        invariant pool.used == old(pool.used) - PortsOf(m, m.Keys - keys - was)
        decreases keys
      {
        var key :| key in keys;
        StopOne(m, key, rtpRelays[key]);
        keys := keys - {key};
      }
      rtpRelays := map[];
    }
  }

  /** The keys of one call are all different. */
  lemma KeysApart(callID: string, n: nat)
    ensures forall i: nat :: i != n ==> Key(callID, i) != Key(callID, n)
  {
    forall i: nat | i != n ensures Key(callID, i) != Key(callID, n) {
      if Key(callID, i) == Key(callID, n) { KeyInjective(callID, i, callID, n); }
    }
  }
}
