/** RTP relays over every interleaving of the goroutines that touch them
    (internal/app/server/control.go:226-402, internal/app/server/rtp_relay.go:147-202).
    One `Action` is one critical section or one effect of the program. */
module RtpLifecycle {
  import opened Text
  import opened RtpPool

  /** Reserved: the port is taken, the socket not yet open. Live: serving. Stopping: closeOnce has
      fired, the port is not given back yet. Done: the port was given back. */
  datatype Phase = Reserved | Live | Stopping | Done

  datatype Relay = Relay(session: nat, callID: string, idx: nat, port: int, phase: Phase)

  /** Where a getOrCreateRTPRelays call is, for the one media index it is working on. */
  datatype Pc =
    | Missed(session: nat, callID: string, idx: nat)
    | Holding(id: nat)
    | Started(id: nat)

  datatype State = State(
    ranges: seq<PortRange>,
    used: set<int>,
    relays: seq<Relay>,
    threads: map<nat, Pc>,
    mapped: map<(nat, string), nat>,
    freed: seq<nat>,
    idled: set<nat>,
    overwritten: set<nat>)

  datatype Action =
    | Lookup(tid: nat, session: nat, callID: string, idx: nat)
    | Alloc(tid: nat)
    | StartOk(tid: nat)
    | StartFail(tid: nat)
    | Publish(tid: nat)
    | ClientFail(session: nat, key: string)
    | Release(session: nat, callID: string)
    | CloseSession(session: nat)
    | Idle(id: nat)
    | Finish(id: nat)

  /** fmt.Sprintf("%s#%d", callID, idx) */
  function Key(callID: string, idx: nat): string {
    callID + "#" + Itoa(idx)
  }

  /** Keys never collide, even when a Call-ID contains '#': the last '#' is the one written here. */
  lemma KeyInjective(c1: string, i1: nat, c2: string, i2: nat)
    requires Key(c1, i1) == Key(c2, i2)
    ensures c1 == c2 && i1 == i2
  {
    hide Digits, DecValue, AllDigits;
    var d1, d2 := Digits(i1), Digits(i2);
    LastHash(c1, d1, c2, d2);
    LastHash(c2, d2, c1, d1);
    var k := Key(c1, i1);
    assert c1 == k[..|c1|] && c2 == k[..|c2|] && d1 == k[|c1| + 1..] && d2 == k[|c2| + 1..];
    assert DecValue(d1) == i1 && DecValue(d2) == i2;
  }

  lemma LastHash(c1: string, d1: string, c2: string, d2: string)
    requires c1 + "#" + d1 == c2 + "#" + d2 && AllDigits(d1)
    ensures |c2| <= |c1|
  {
    var k := c1 + "#" + d1;
    assert k[|c2|] == '#' by { assert (c2 + "#" + d2)[|c2|] == '#'; }
    assert forall j :: |c1| < j < |k| ==> k[j] == d1[j - |c1| - 1];
  }

  function KeyOf(r: Relay): (nat, string) {
    (r.session, Key(r.callID, r.idx))
  }

  function Init(ranges: seq<PortRange>): State {
    State(ranges, {}, [], map[], map[], [], {}, {})
  }

  // ---------------------------------------------------------------- steps

  predicate Enabled(s: State, a: Action) {
    match a
    case Lookup(tid, _, _, _) => tid !in s.threads
    case Alloc(tid) => tid in s.threads && s.threads[tid].Missed?
    case StartOk(tid) => Reserving(s, tid)
    case StartFail(tid) => Reserving(s, tid)
    case Publish(tid) => tid in s.threads && s.threads[tid].Started? && s.threads[tid].id < |s.relays|
    case ClientFail(_, _) => true
    case Release(_, _) => true
    case CloseSession(_) => true
    case Idle(id) => id < |s.relays| && s.relays[id].phase == Live
    case Finish(id) => id < |s.relays| && s.relays[id].phase == Stopping
  }

  predicate Reserving(s: State, tid: nat) {
    tid in s.threads && s.threads[tid].Holding? && s.threads[tid].id < |s.relays|
  }

  /** Stop on the relays of ids: only a live one still has its closeOnce to fire. */
  function StopAll(relays: seq<Relay>, ids: set<nat>): (r: seq<Relay>)
    ensures |r| == |relays|
  {
    seq(|relays|, i requires 0 <= i < |relays| =>
      if i in ids && relays[i].phase == Live then relays[i].(phase := Stopping) else relays[i])
  }

  /** The mapped relays a locked sweep stops and unmaps. */
  predicate Swept(s: State, a: Action, k: (nat, string)) {
    k in s.mapped &&
    match a
    case ClientFail(session, key) => k == (session, key)
    case Release(session, callID) =>
      k.0 == session && s.mapped[k] < |s.relays| && s.relays[s.mapped[k]].callID == callID
    case CloseSession(session) => k.0 == session
    case _ => false
  }

  function Sweep(s: State, a: Action): State {
    s.(relays := StopAll(s.relays, set k | k in s.mapped && Swept(s, a, k) :: s.mapped[k]),
       mapped := map k | k in s.mapped && !Swept(s, a, k) :: s.mapped[k])
  }

  /** The port of relay id goes back to the pool. */
  function FreePort(s: State, id: nat): State
    requires id < |s.relays|
  {
    s.(used := s.used - {s.relays[id].port},
       relays := s.relays[id := s.relays[id].(phase := Done)],
       freed := s.freed + [id])
  }

  function Step(s: State, a: Action): State
    requires Enabled(s, a)
  {
    match a
    case Lookup(tid, session, callID, idx) =>
      if (session, Key(callID, idx)) in s.mapped then s
      else s.(threads := s.threads[tid := Missed(session, callID, idx)])
    case Alloc(tid) =>
      var pc := s.threads[tid];
      var port := FirstFree(s.ranges, s.used);
      if port == 0 then s.(threads := s.threads - {tid})
      else s.(used := s.used + {port},
              relays := s.relays + [Relay(pc.session, pc.callID, pc.idx, port, Reserved)],
              threads := s.threads[tid := Holding(|s.relays|)])
    case StartOk(tid) =>
      var id := s.threads[tid].id;
      s.(relays := s.relays[id := s.relays[id].(phase := Live)], threads := s.threads[tid := Started(id)])
    case StartFail(tid) =>
      FreePort(s.(threads := s.threads - {tid}), s.threads[tid].id)
    case Publish(tid) =>
      var id := s.threads[tid].id;
      var k := KeyOf(s.relays[id]);
      s.(mapped := s.mapped[k := id], threads := s.threads - {tid},
         overwritten := if k in s.mapped then s.overwritten + {s.mapped[k]} else s.overwritten)
    case ClientFail(_, _) => Sweep(s, a)
    case Release(_, _) => Sweep(s, a)
    case CloseSession(_) => Sweep(s, a)
    case Idle(id) =>
      s.(relays := s.relays[id := s.relays[id].(phase := Stopping)], idled := s.idled + {id})
    case Finish(id) => FreePort(s, id)
  }

  /** A run from s: every action is enabled where it happens. */
  predicate ValidRun(s: State, run: seq<Action>)
    decreases |run|
  {
    run == [] || (Enabled(s, run[0]) && ValidRun(Step(s, run[0]), run[1..]))
  }

  function Run(s: State, run: seq<Action>): State
    requires ValidRun(s, run)
    decreases |run|
  {
    if run == [] then s else Run(Step(s, run[0]), run[1..])
  }

  // ---------------------------------------------------------------- the invariant

  predicate Owns(r: Relay) { r.phase != Done }

  /** The ports of relays that are reserved, live or stopping are distinct and are the used ports. */
  ghost predicate PoolInv(s: State) {
    && HighRanges(s.ranges)
    && (forall i :: 0 <= i < |s.relays| && Owns(s.relays[i]) ==> s.relays[i].port in s.used)
    && (forall i, j :: 0 <= i < j < |s.relays| && Owns(s.relays[i]) && Owns(s.relays[j])
          ==> s.relays[i].port != s.relays[j].port)
    && (forall p :: p in s.used ==> exists i :: 0 <= i < |s.relays| && Owns(s.relays[i]) && s.relays[i].port == p)
  }

  /** The free log names exactly the relays that are done, once each. */
  ghost predicate FreedInv(s: State) {
    && (forall i, j :: 0 <= i < j < |s.freed| ==> s.freed[i] != s.freed[j])
    && (forall i :: i in s.freed <==> 0 <= i < |s.relays| && s.relays[i].phase == Done)
  }

  ghost predicate ThreadId(s: State, t: nat, id: nat) {
    t in s.threads && !s.threads[t].Missed? && s.threads[t].id == id
  }

  /** Every relay in flight belongs to one goroutine; a reserved relay is held, the others are not. */
  ghost predicate ThreadInv(s: State) {
    && (forall t :: t in s.threads && s.threads[t].Holding? ==>
          s.threads[t].id < |s.relays| && s.relays[s.threads[t].id].phase == Reserved)
    && (forall t :: t in s.threads && s.threads[t].Started? ==>
          s.threads[t].id < |s.relays| && s.relays[s.threads[t].id].phase != Reserved)
    && (forall t, u, id :: ThreadId(s, t, id) && ThreadId(s, u, id) ==> t == u)
    && (forall i :: 0 <= i < |s.relays| && s.relays[i].phase == Reserved ==>
          exists t :: t in s.threads && s.threads[t] == Holding(i))
  }

  /** Mapped relays stand under their own key, were started, and are no longer in flight. */
  ghost predicate MapInv(s: State) {
    forall k :: k in s.mapped ==>
      && s.mapped[k] < |s.relays| && KeyOf(s.relays[s.mapped[k]]) == k
      && s.relays[s.mapped[k]].phase != Reserved
      && (forall t :: !ThreadId(s, t, s.mapped[k]))
  }

  ghost predicate LiveOrIdled(s: State, id: nat) {
    id < |s.relays| && (s.relays[id].phase == Live || id in s.idled)
  }

  /** A mapped relay that is no longer live was stopped by its idle timeout. */
  ghost predicate IdleInv(s: State) {
    && (forall k :: k in s.mapped ==> LiveOrIdled(s, s.mapped[k]))
    && (forall t :: t in s.threads && s.threads[t].Started? ==> LiveOrIdled(s, s.threads[t].id))
  }

  /** A live relay is mapped under its key, or about to be, or was overwritten there. */
  ghost predicate ReachInv(s: State) {
    forall i :: 0 <= i < |s.relays| && s.relays[i].phase == Live ==> Reachable(s, i) || i in s.overwritten
  }

  ghost predicate Reachable(s: State, i: nat)
    requires i < |s.relays|
  {
    (KeyOf(s.relays[i]) in s.mapped && s.mapped[KeyOf(s.relays[i])] == i)
    || exists t :: t in s.threads && s.threads[t] == Started(i)
  }

  /** Every allocation is accounted for: its port is used or has been given back. */
  ghost predicate Balanced(s: State) {
    |s.used| + |s.freed| == |s.relays|
  }

  ghost predicate Inv(s: State) {
    PoolInv(s) && Balanced(s) && FreedInv(s) && ThreadInv(s) && MapInv(s) && IdleInv(s) && ReachInv(s)
  }

  lemma InitInv(ranges: seq<PortRange>)
    requires HighRanges(ranges)
    ensures Inv(Init(ranges))
  {
  }

  // ---------------------------------------------------------------- one step keeps it

  /** The pool invariant only sees which relays own which port. */
  lemma SameOwners(s: State, s': State)
    requires PoolInv(s) && s'.ranges == s.ranges && s'.used == s.used && |s'.relays| == |s.relays|
    requires forall i :: 0 <= i < |s.relays| ==>
      Owns(s'.relays[i]) == Owns(s.relays[i]) && s'.relays[i].port == s.relays[i].port
    ensures PoolInv(s')
  {
    forall p | p in s'.used
      ensures exists i :: 0 <= i < |s'.relays| && Owns(s'.relays[i]) && s'.relays[i].port == p
    {
      var i :| 0 <= i < |s.relays| && Owns(s.relays[i]) && s.relays[i].port == p;
      assert Owns(s'.relays[i]) && s'.relays[i].port == p;
    }
  }

  lemma SweepPool(s: State, a: Action)
    requires PoolInv(s)
    ensures PoolInv(Sweep(s, a))
  {
    SameOwners(s, Sweep(s, a));
  }

  /** What a sweep does to relay i: nothing, or it starts stopping a live one. */
  lemma SweptRelay(s: State, a: Action, i: nat)
    requires i < |s.relays|
    ensures var r' := Sweep(s, a).relays[i];
      r' == s.relays[i] || (s.relays[i].phase == Live && r' == s.relays[i].(phase := Stopping))
    ensures (forall k :: k in s.mapped && s.mapped[k] == i ==> !Swept(s, a, k))
      ==> Sweep(s, a).relays[i] == s.relays[i]
  {
  }

  lemma SweepThreads(s: State, a: Action)
    requires FreedInv(s) && ThreadInv(s)
    ensures FreedInv(Sweep(s, a)) && ThreadInv(Sweep(s, a)) && (Balanced(s) ==> Balanced(Sweep(s, a)))
  {
    hide Swept;
    var s' := Sweep(s, a);
    forall i | 0 <= i < |s.relays|
      ensures s'.relays[i].phase == s.relays[i].phase || (s.relays[i].phase == Live && s'.relays[i].phase == Stopping)
    {
      SweptRelay(s, a, i);
    }
    assert forall t, id :: ThreadId(s', t, id) <==> ThreadId(s, t, id);
  }

  lemma SweepMapped(s: State, a: Action)
    requires ThreadInv(s) && MapInv(s)
    ensures MapInv(Sweep(s, a))
    ensures forall k :: k in Sweep(s, a).mapped ==> Sweep(s, a).relays[s.mapped[k]] == s.relays[s.mapped[k]]
  {
    hide Swept, KeyOf;
    var s' := Sweep(s, a);
    assert forall t, id :: ThreadId(s', t, id) <==> ThreadId(s, t, id);
    forall k | k in s'.mapped ensures s'.relays[s.mapped[k]] == s.relays[s.mapped[k]] {
      var i := s.mapped[k];
      assert forall k' :: k' in s.mapped && s.mapped[k'] == i ==> k' == k;
      SweptRelay(s, a, i);
    }
    hide StopAll, ThreadInv, ThreadId;
  }

  lemma SweepIdle(s: State, a: Action)
    requires ThreadInv(s) && MapInv(s) && IdleInv(s)
    ensures IdleInv(Sweep(s, a))
  {
    SweepMapped(s, a);
    hide Swept, KeyOf, StopAll;
    var s' := Sweep(s, a);
    forall k | k in s'.mapped ensures LiveOrIdled(s', s'.mapped[k]) {
      assert LiveOrIdled(s, s.mapped[k]);
    }
    forall t | t in s'.threads && s'.threads[t].Started? ensures LiveOrIdled(s', s'.threads[t].id) {
      assert ThreadId(s, t, s.threads[t].id);
      SweptRelay(s, a, s.threads[t].id);
    }
    hide MapInv, ThreadInv, ThreadId, LiveOrIdled;
  }

  lemma SweepReach(s: State, a: Action)
    requires ThreadInv(s) && MapInv(s) && ReachInv(s)
    ensures ReachInv(Sweep(s, a))
  {
    hide Swept, Key;
    var s' := Sweep(s, a);
    forall i | 0 <= i < |s'.relays| && s'.relays[i].phase == Live
      ensures Reachable(s', i) || i in s'.overwritten
    {
      SweptRelay(s, a, i);
      assert s'.relays[i] == s.relays[i];
      var k := KeyOf(s.relays[i]);
      if k in s.mapped && s.mapped[k] == i {
        if Swept(s, a, k) { SweptStops(s, a, k); }
        assert k in s'.mapped && s'.mapped[k] == i;
      } else if Reachable(s, i) {
        var t :| t in s.threads && s.threads[t] == Started(i);
        assert s'.threads[t] == Started(i);
      }
    }
  }

  /** A swept relay does not stay live. */
  lemma SweptStops(s: State, a: Action, k: (nat, string))
    requires k in s.mapped && s.mapped[k] < |s.relays| && Swept(s, a, k)
    ensures Sweep(s, a).relays[s.mapped[k]].phase != Live
  {
  }

  /** No other relay that still owns a port owns the port of relay id. */
  ghost predicate SoleOwner(s: State, id: nat)
    requires id < |s.relays|
  {
    forall j :: 0 <= j < |s.relays| && j != id && Owns(s.relays[j]) ==> s.relays[j].port != s.relays[id].port
  }

  /** Giving a port back: its relay was the only owner, so nobody else loses a port. */
  lemma FreePool(s: State, id: nat)
    requires PoolInv(s) && id < |s.relays| && Owns(s.relays[id])
    ensures PoolInv(FreePort(s, id))
    ensures SoleOwner(s, id)
  {
    var s' := FreePort(s, id);
    forall p | p in s'.used
      ensures exists i :: 0 <= i < |s'.relays| && Owns(s'.relays[i]) && s'.relays[i].port == p
    {
      var i :| 0 <= i < |s.relays| && Owns(s.relays[i]) && s.relays[i].port == p;
      assert s'.relays[i] == s.relays[i];
    }
  }

  lemma FreeOthers(s: State, id: nat)
    requires Inv(s) && id < |s.relays| && s.relays[id].phase == Stopping
    ensures Inv(FreePort(s, id))
  {
    hide KeyOf, PoolInv, SoleOwner, ThreadInv, MapInv, IdleInv, ReachInv;
    var s' := FreePort(s, id);
    assert s.relays[id].port in s.used by { OwnedUsed(s, id); }
    FreePool(s, id);
    SameKeyOf(s.relays[id], Done);
    StoppingThreads(s, s', id);
    StoppingMapped(s, s', id);
    assert s'.freed[..|s.freed|] == s.freed;
  }

  lemma FreeReserved(s: State, tid: nat)
    requires Inv(s) && Enabled(s, StartFail(tid))
    ensures Inv(Step(s, StartFail(tid)))
  {
    hide KeyOf, PoolInv, SoleOwner, ReachInv, MapInv, IdleInv;
    var id := s.threads[tid].id;
    var s' := Step(s, StartFail(tid));
    assert s.relays[id].port in s.used && Owns(s.relays[id]) by { OwnedUsed(s, id); }
    FreePool(s, id);
    SameOwners(FreePort(s, id), s');
    SameKeyOf(s.relays[id], Done);
    assert forall i :: 0 <= i < |s.relays| && i != id ==> s'.relays[i] == s.relays[i];
    ThreadGone(s, s', tid, id);
    GoneMapped(s, s', tid, id);
    assert s'.freed[..|s.freed|] == s.freed;
    assert FreedInv(s');
  }

  lemma GoneMapped(s: State, s': State, tid: nat, id: nat)
    requires ThreadInv(s) && MapInv(s) && IdleInv(s) && ReachInv(s)
    requires tid in s.threads && s.threads[tid] == Holding(id) && id < |s.relays|
    requires s'.threads == s.threads - {tid} && s'.mapped == s.mapped && |s'.relays| == |s.relays|
    requires s'.overwritten == s.overwritten && s'.idled == s.idled && s'.relays[id].phase == Done
    requires forall i :: 0 <= i < |s.relays| && i != id ==> s'.relays[i] == s.relays[i]
    ensures MapInv(s') && IdleInv(s') && ReachInv(s')
  {
    hide KeyOf;
    assert ThreadId(s, tid, id);
    assert forall t, i :: ThreadId(s', t, i) ==> ThreadId(s, t, i);
    forall t | t in s'.threads && s'.threads[t].Started? ensures LiveOrIdled(s', s'.threads[t].id) {
      assert ThreadId(s, t, s.threads[t].id) && LiveOrIdled(s, s.threads[t].id);
    }
    forall i | 0 <= i < |s'.relays| && s'.relays[i].phase == Live ensures Reachable(s', i) || i in s'.overwritten {
      assert s'.relays[i] == s.relays[i];
      if t :| t in s.threads && s.threads[t] == Started(i) { assert t != tid && s'.threads[t] == Started(i); }
    }
  }

  lemma OwnedUsed(s: State, id: nat)
    requires PoolInv(s) && id < |s.relays| && Owns(s.relays[id])
    ensures s.relays[id].port in s.used
  {
  }

  /** A goroutine that leaves with its relay leaves the others as they were. */
  lemma ThreadGone(s: State, s': State, tid: nat, id: nat)
    requires ThreadInv(s) && ThreadId(s, tid, id) && id < |s.relays|
    requires s'.threads == s.threads - {tid} && |s'.relays| == |s.relays|
    requires s'.relays[id].phase != Reserved
    requires forall i :: 0 <= i < |s.relays| && i != id ==> s'.relays[i] == s.relays[i]
    ensures ThreadInv(s') && forall t, i :: ThreadId(s', t, i) <==> t != tid && ThreadId(s, t, i)
  {
    assert forall t, i :: ThreadId(s', t, i) <==> t != tid && ThreadId(s, t, i);
    forall t | t in s'.threads && !s'.threads[t].Missed? ensures s'.threads[t].id != id {
      assert ThreadId(s, t, s.threads[t].id) && t != tid;
    }
    forall i | 0 <= i < |s'.relays| && s'.relays[i].phase == Reserved
      ensures exists t :: t in s'.threads && s'.threads[t] == Holding(i)
    {
      var t :| t in s.threads && s.threads[t] == Holding(i);
      assert t != tid && s'.threads[t] == Holding(i);
    }
  }

  lemma LookupInv(s: State, a: Action)
    requires Inv(s) && Enabled(s, a) && a.Lookup?
    ensures Inv(Step(s, a))
  {
    hide Inv, Key;
    var s' := Step(s, a);
    if s' != s { NewThread(s, s', a.tid); }
  }

  /** s' is s with a goroutine that has no relay yet. */
  ghost predicate NowMissed(s: State, s': State, tid: nat) {
    && tid !in s.threads && tid in s'.threads && s'.threads[tid].Missed?
    && s' == s.(threads := s.threads[tid := s'.threads[tid]])
  }

  /** Nobody notices it. */
  lemma NewThread(s: State, s': State, tid: nat)
    requires Inv(s) && NowMissed(s, s', tid)
    ensures Inv(s')
  {
    NewThreads(s, s', tid);
    NewMapped(s, s', tid);
    NewReach(s, s', tid);
    SameOwners(s, s');
    hide KeyOf, ThreadInv, MapInv, IdleInv, ReachInv, PoolInv;
  }

  lemma NewIds(s: State, s': State, tid: nat)
    requires NowMissed(s, s', tid)
    ensures forall t, i :: ThreadId(s', t, i) <==> ThreadId(s, t, i)
  {
  }

  lemma NewThreads(s: State, s': State, tid: nat)
    requires ThreadInv(s) && NowMissed(s, s', tid)
    ensures ThreadInv(s')
  {
    NewIds(s, s', tid);
    hide ThreadId;
    forall i | 0 <= i < |s'.relays| && s'.relays[i].phase == Reserved
      ensures exists t :: t in s'.threads && s'.threads[t] == Holding(i)
    {
      var t :| t in s.threads && s.threads[t] == Holding(i);
      assert s'.threads[t] == Holding(i);
    }
  }

  lemma NewMapped(s: State, s': State, tid: nat)
    requires MapInv(s) && IdleInv(s) && NowMissed(s, s', tid)
    ensures MapInv(s') && IdleInv(s')
  {
    NewIds(s, s', tid);
    hide ThreadId, KeyOf;
    assert MapInv(s') by { hide IdleInv; }
    assert forall i: nat :: LiveOrIdled(s', i) <==> LiveOrIdled(s, i);
    hide MapInv, LiveOrIdled;
  }

  lemma NewReach(s: State, s': State, tid: nat)
    requires ReachInv(s) && NowMissed(s, s', tid)
    ensures ReachInv(s')
  {
    hide Key;
    forall i | 0 <= i < |s'.relays| && s'.relays[i].phase == Live ensures Reachable(s', i) || i in s'.overwritten {
      if t :| t in s.threads && s.threads[t] == Started(i) { assert s'.threads[t] == Started(i); }
    }
  }

  lemma AllocPool(s: State, tid: nat)
    requires PoolInv(s) && Enabled(s, Alloc(tid))
    ensures PoolInv(Step(s, Alloc(tid)))
    ensures FirstFree(s.ranges, s.used) != 0 ==> FirstFree(s.ranges, s.used) !in s.used
  {
    hide FirstFree, InRanges;
    FirstFreeComplete(s.ranges, s.used);
    var s' := Step(s, Alloc(tid));
    var n := |s.relays|;
    if FirstFree(s.ranges, s.used) != 0 {
      assert forall i :: 0 <= i < n ==> s'.relays[i] == s.relays[i];
      assert s'.relays[n].port == FirstFree(s.ranges, s.used);
      forall p | p in s'.used
        ensures exists i :: 0 <= i < |s'.relays| && Owns(s'.relays[i]) && s'.relays[i].port == p
      {
        if p in s.used {
          var i :| 0 <= i < n && Owns(s.relays[i]) && s.relays[i].port == p;
          assert s'.relays[i].port == p;
        }
      }
    }
  }

  lemma AllocThreads(s: State, tid: nat)
    requires FreedInv(s) && ThreadInv(s) && Enabled(s, Alloc(tid))
    ensures var s' := Step(s, Alloc(tid)); FreedInv(s') && ThreadInv(s')
    ensures var s' := Step(s, Alloc(tid));
      forall t, i :: ThreadId(s', t, i) ==> ThreadId(s, t, i) || i == |s.relays|
  {
    hide FirstFree;
    var s' := Step(s, Alloc(tid));
    var n := |s.relays|;
    if FirstFree(s.ranges, s.used) == 0 {
      assert forall t, i :: ThreadId(s', t, i) <==> ThreadId(s, t, i);
    } else {
      assert s'.threads[tid] == Holding(n);
      assert forall t, i :: ThreadId(s', t, i) <==> ThreadId(s, t, i) || (t == tid && i == n);
    }
    forall i | 0 <= i < |s'.relays| && s'.relays[i].phase == Reserved
      ensures exists t :: t in s'.threads && s'.threads[t] == Holding(i)
    {
      if i < n {
        var t :| t in s.threads && s.threads[t] == Holding(i);
        assert s'.threads[t] == Holding(i);
      }
    }
  }

  lemma AllocInv(s: State, tid: nat)
    requires Inv(s) && Enabled(s, Alloc(tid))
    ensures Inv(Step(s, Alloc(tid)))
  {
    hide Key, FirstFree, PoolInv, ThreadInv, FreedInv;
    AllocPool(s, tid);
    AllocThreads(s, tid);
    var s' := Step(s, Alloc(tid));
    forall i | 0 <= i < |s'.relays| && s'.relays[i].phase == Live ensures Reachable(s', i) || i in s'.overwritten {
      assert s'.relays[i] == s.relays[i];
      if t :| t in s.threads && s.threads[t] == Started(i) { assert s'.threads[t] == Started(i); }
    }
  }

  lemma StartOkReach(s: State, tid: nat)
    requires ReachInv(s) && Enabled(s, StartOk(tid))
    ensures ReachInv(Step(s, StartOk(tid)))
  {
    hide KeyOf;
    var s' := Step(s, StartOk(tid));
    var id := s.threads[tid].id;
    SameKeyOf(s.relays[id], Live);
    forall i | 0 <= i < |s'.relays| && s'.relays[i].phase == Live ensures Reachable(s', i) || i in s'.overwritten {
      if i == id {
        assert s'.threads[tid] == Started(i);
      } else {
        if t :| t in s.threads && s.threads[t] == Started(i) { assert s'.threads[t] == Started(i); }
      }
    }
  }

  /** s' is s once the socket of relay id is open. */
  ghost predicate NowStarted(s: State, s': State, tid: nat, id: nat) {
    && tid in s.threads && s.threads[tid] == Holding(id) && id < |s.relays|
    && s' == s.(relays := s.relays[id := s.relays[id].(phase := Live)], threads := s.threads[tid := Started(id)])
  }

  lemma StartOkMapped(s: State, s': State, tid: nat, id: nat)
    requires MapInv(s) && NowStarted(s, s', tid, id)
    requires forall t, i :: ThreadId(s', t, i) <==> ThreadId(s, t, i)
    ensures MapInv(s')
  {
    SameKeyOf(s.relays[id], Live);
    assert ThreadId(s, tid, id);
    hide KeyOf, ThreadId;
  }

  lemma StartOkIdle(s: State, s': State, tid: nat, id: nat)
    requires ThreadInv(s) && MapInv(s) && IdleInv(s) && NowStarted(s, s', tid, id)
    ensures IdleInv(s')
  {
    assert ThreadId(s, tid, id);
    assert forall i :: 0 <= i < |s.relays| && LiveOrIdled(s, i) ==> LiveOrIdled(s', i);
    hide ThreadId, ThreadInv, MapInv, KeyOf;
  }

  lemma StartOkInv(s: State, tid: nat)
    requires Inv(s) && Enabled(s, StartOk(tid))
    ensures Inv(Step(s, StartOk(tid)))
  {
    hide KeyOf, PoolInv, ThreadInv, MapInv, IdleInv, ReachInv;
    var s' := Step(s, StartOk(tid));
    var id := s.threads[tid].id;
    assert s.relays[id].phase == Reserved by { HeldReserved(s, tid); }
    SameOwners(s, s');
    StartOkThreads(s, tid);
    StartOkMapped(s, s', tid, id);
    StartOkIdle(s, s', tid, id);
    StartOkReach(s, tid);
    assert FreedInv(s');
  }

  lemma HeldReserved(s: State, tid: nat)
    requires ThreadInv(s) && Enabled(s, StartOk(tid))
    ensures s.relays[s.threads[tid].id].phase == Reserved
  {
  }

  lemma StartOkThreads(s: State, tid: nat)
    requires ThreadInv(s) && Enabled(s, StartOk(tid))
    ensures ThreadInv(Step(s, StartOk(tid)))
    ensures forall t, i :: ThreadId(Step(s, StartOk(tid)), t, i) <==> ThreadId(s, t, i)
  {
    var s' := Step(s, StartOk(tid));
    var id := s.threads[tid].id;
    assert ThreadId(s, tid, id);
    assert forall t, i :: ThreadId(s', t, i) <==> ThreadId(s, t, i);
    forall t | t in s'.threads && t != tid && !s'.threads[t].Missed? ensures s'.threads[t].id != id {
      assert ThreadId(s, t, s.threads[t].id);
    }
    forall i | 0 <= i < |s'.relays| && s'.relays[i].phase == Reserved
      ensures exists t :: t in s'.threads && s'.threads[t] == Holding(i)
    {
      var t :| t in s.threads && s.threads[t] == Holding(i);
      assert s'.threads[t] == Holding(i);
    }
  }

  lemma PublishThreads(s: State, tid: nat)
    requires ThreadInv(s) && Enabled(s, Publish(tid))
    ensures ThreadInv(Step(s, Publish(tid)))
    ensures forall t, i :: ThreadId(Step(s, Publish(tid)), t, i) <==> t != tid && ThreadId(s, t, i)
  {
    hide KeyOf;
    var s' := Step(s, Publish(tid));
    assert forall t, i :: ThreadId(s', t, i) <==> t != tid && ThreadId(s, t, i);
    forall i | 0 <= i < |s'.relays| && s'.relays[i].phase == Reserved
      ensures exists t :: t in s'.threads && s'.threads[t] == Holding(i)
    {
      var t :| t in s.threads && s.threads[t] == Holding(i);
      assert s'.threads[t] == Holding(i);
    }
  }

  lemma PublishReach(s: State, tid: nat)
    requires ReachInv(s) && Enabled(s, Publish(tid))
    ensures ReachInv(Step(s, Publish(tid)))
  {
    hide Key;
    var s' := Step(s, Publish(tid));
    var id := s.threads[tid].id;
    forall i | 0 <= i < |s'.relays| && s'.relays[i].phase == Live ensures Reachable(s', i) || i in s'.overwritten {
      if i == id {
        assert s'.mapped[KeyOf(s.relays[id])] == id;
      } else if t :| t in s.threads && s.threads[t] == Started(i) {
        assert t != tid && s'.threads[t] == Started(i);
      }
    }
  }

  lemma PublishMapped(s: State, tid: nat)
    requires ThreadInv(s) && MapInv(s) && IdleInv(s) && Enabled(s, Publish(tid))
    ensures MapInv(Step(s, Publish(tid))) && IdleInv(Step(s, Publish(tid)))
  {
    hide Key;
    var s' := Step(s, Publish(tid));
    var id := s.threads[tid].id;
    assert ThreadId(s, tid, id);
    assert forall t, i :: ThreadId(s', t, i) <==> t != tid && ThreadId(s, t, i);
  }

  lemma PublishInv(s: State, tid: nat)
    requires Inv(s) && Enabled(s, Publish(tid))
    ensures Inv(Step(s, Publish(tid)))
  {
    hide KeyOf, ThreadInv, MapInv, IdleInv, ReachInv;
    PublishThreads(s, tid);
    PublishReach(s, tid);
    PublishMapped(s, tid);
    SameOwners(s, Step(s, Publish(tid)));
  }

  lemma IdleStepInv(s: State, id: nat)
    requires Inv(s) && Enabled(s, Idle(id))
    ensures Inv(Step(s, Idle(id)))
  {
    hide KeyOf, PoolInv;
    var s' := Step(s, Idle(id));
    SameOwners(s, s');
    SameKeyOf(s.relays[id], Stopping);
    StoppingThreads(s, s', id);
    StoppingMapped(s, s', id);
  }

  /** Goroutines do not notice that a started relay begins to stop, or is done stopping. */
  lemma StoppingThreads(s: State, s': State, id: nat)
    requires ThreadInv(s) && id < |s.relays| && s.relays[id].phase != Reserved
    requires s'.threads == s.threads && |s'.relays| == |s.relays| && s'.relays[id].phase != Reserved
    requires forall i :: 0 <= i < |s.relays| && i != id ==> s'.relays[i] == s.relays[i]
    ensures ThreadInv(s') && forall t, i :: ThreadId(s', t, i) <==> ThreadId(s, t, i)
  {
    assert forall t, i :: ThreadId(s', t, i) <==> ThreadId(s, t, i);
    forall i | 0 <= i < |s'.relays| && s'.relays[i].phase == Reserved
      ensures exists t :: t in s'.threads && s'.threads[t] == Holding(i)
    {
      var t :| t in s.threads && s.threads[t] == Holding(i);
      assert s'.threads[t] == Holding(i);
    }
  }

  lemma StoppingMapped(s: State, s': State, id: nat)
    requires ThreadInv(s) && MapInv(s) && IdleInv(s) && ReachInv(s)
    requires id < |s.relays| && s.relays[id].phase != Reserved
    requires s'.threads == s.threads && s'.mapped == s.mapped && |s'.relays| == |s.relays|
    requires s'.overwritten == s.overwritten && s.idled <= s'.idled
    requires s.relays[id].phase == Live ==> id in s'.idled
    requires s'.relays[id].phase != Reserved && s'.relays[id].phase != Live
    requires KeyOf(s'.relays[id]) == KeyOf(s.relays[id])
    requires forall i :: 0 <= i < |s.relays| && i != id ==> s'.relays[i] == s.relays[i]
    ensures MapInv(s') && IdleInv(s') && ReachInv(s')
  {
    hide KeyOf;
    assert forall t, i :: ThreadId(s', t, i) <==> ThreadId(s, t, i);
    forall i | 0 <= i < |s'.relays| && s'.relays[i].phase == Live ensures Reachable(s', i) || i in s'.overwritten {
      assert s'.relays[i] == s.relays[i];
      if t :| t in s.threads && s.threads[t] == Started(i) { assert s'.threads[t] == Started(i); }
    }
  }

  lemma SameKeyOf(r: Relay, phase: Phase)
    ensures KeyOf(r.(phase := phase)) == KeyOf(r)
  {
  }

  lemma StepInv(s: State, a: Action)
    requires Inv(s) && Enabled(s, a)
    ensures Inv(Step(s, a))
  {
    hide Inv, PoolInv, ThreadInv, MapInv, IdleInv, ReachInv, FreedInv, Balanced;
    match a
    case Lookup(_, _, _, _) => LookupInv(s, a);
    case Alloc(tid) => AllocInv(s, tid);
    case StartOk(tid) => StartOkInv(s, tid);
    case StartFail(tid) => FreeReserved(s, tid);
    case Publish(tid) => PublishInv(s, tid);
    case ClientFail(_, _) => SweepInv(s, a);
    case Release(_, _) => SweepInv(s, a);
    case CloseSession(_) => SweepInv(s, a);
    case Idle(id) => IdleStepInv(s, id);
    case Finish(id) => FinishInv(s, id);
  }

  lemma SweepInv(s: State, a: Action)
    requires Inv(s)
    ensures Inv(Sweep(s, a))
  {
    hide PoolInv, ThreadInv, MapInv, IdleInv, ReachInv, FreedInv, Balanced, Sweep;
    SweepPool(s, a);
    SweepThreads(s, a);
    SweepMapped(s, a);
    SweepIdle(s, a);
    SweepReach(s, a);
  }

  lemma FinishInv(s: State, id: nat)
    requires Inv(s) && Enabled(s, Finish(id))
    ensures Inv(Step(s, Finish(id)))
  {
    hide Inv, FreePort;
    FreeOthers(s, id);
  }

  // ---------------------------------------------------------------- whole runs

  /** Every run of every interleaving keeps the invariant. */
  lemma {:induction false} RunKeeps(s: State, run: seq<Action>)
    requires Inv(s) && ValidRun(s, run)
    ensures Inv(Run(s, run))
    decreases |run|
  {
    hide Inv, Step, Enabled;
    if run != [] {
      StepInv(s, run[0]);
      RunKeeps(Step(s, run[0]), run[1..]);
    }
  }

  /** The used set is exactly the ports of the relays that are live or on their way in or out, those
      ports are pairwise distinct, and every allocation was freed at most once, namely when done. */
  lemma PortsAccounted(allow: seq<PortRange>, run: seq<Action>)
    requires ValidRun(Init(PoolRanges(allow)), run)
    ensures var s := Run(Init(PoolRanges(allow)), run);
      && s.used == (set i | 0 <= i < |s.relays| && Owns(s.relays[i]) :: s.relays[i].port)
      && (forall i, j :: 0 <= i < j < |s.relays| && Owns(s.relays[i]) && Owns(s.relays[j])
            ==> s.relays[i].port != s.relays[j].port)
      && FreedInv(s) && |s.used| + |s.freed| == |s.relays|
  {
    hide Step, Enabled, Run, ValidRun;
    PoolRangesHigh(allow);
    InitInv(PoolRanges(allow));
    RunKeeps(Init(PoolRanges(allow)), run);
    var s := Run(Init(PoolRanges(allow)), run);
    var owned := set i | 0 <= i < |s.relays| && Owns(s.relays[i]) :: s.relays[i].port;
    forall p | p in s.used ensures p in owned {
      var i :| 0 <= i < |s.relays| && Owns(s.relays[i]) && s.relays[i].port == p;
    }
  }

  /** Whenever a run gives a port back, no other relay owns it, and the relay that gives it back
      never did before. */
  lemma FreesAreOwn(allow: seq<PortRange>, run: seq<Action>, a: Action)
    requires ValidRun(Init(PoolRanges(allow)), run)
    requires var s := Run(Init(PoolRanges(allow)), run);
      Enabled(s, a) && (a.Finish? || a.StartFail?)
    ensures var s := Run(Init(PoolRanges(allow)), run);
      var id := if a.Finish? then a.id else s.threads[a.tid].id;
      && SoleOwner(s, id) && id !in s.freed && s.relays[id].port in s.used
      && Step(s, a).used == s.used - {s.relays[id].port}
  {
    hide Run, ValidRun;
    PoolRangesHigh(allow);
    InitInv(PoolRanges(allow));
    RunKeeps(Init(PoolRanges(allow)), run);
    var s := Run(Init(PoolRanges(allow)), run);
    FreePool(s, if a.Finish? then a.id else s.threads[a.tid].id);
  }
}
