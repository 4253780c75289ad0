/** What getOrCreateRTPRelays may rely on: stable ports within a call, distinct ports in one result,
    and where the check and the insert being separate critical sections shows. */
module RtpCalls {
  import opened RtpPool
  import opened RtpLifecycle

  /** Goroutine t is working on the relay of key k. */
  ghost predicate InFlight(s: State, t: nat, k: (nat, string)) {
    t in s.threads &&
    match s.threads[t]
    case Missed(session, callID, idx) => k == (session, Key(callID, idx))
    case Holding(id) => id < |s.relays| && KeyOf(s.relays[id]) == k
    case Started(id) => id < |s.relays| && KeyOf(s.relays[id]) == k
  }

  /** No two goroutines work on one key at the same time. */
  ghost predicate NoOverlap(s: State) {
    forall t, u, k :: InFlight(s, t, k) && InFlight(s, u, k) ==> t == u
  }

  ghost predicate Disciplined(s: State, run: seq<Action>)
    decreases |run|
  {
    NoOverlap(s) && (run == [] || (Enabled(s, run[0]) && Disciplined(Step(s, run[0]), run[1..])))
  }

  /** Nobody works on a key that is mapped, and no entry was ever overwritten. */
  ghost predicate FlightInv(s: State) {
    (forall t, k :: InFlight(s, t, k) ==> k !in s.mapped) && s.overwritten == {}
  }

  /** Relays keep all but their phase. */
  ghost predicate SameButPhase(s: State, s': State) {
    && |s.relays| <= |s'.relays|
    && forall i :: 0 <= i < |s.relays| ==> s'.relays[i] == s.relays[i].(phase := s'.relays[i].phase)
  }

  lemma RelaysStay(s: State, a: Action)
    requires Enabled(s, a)
    ensures SameButPhase(s, Step(s, a))
  {
    hide Key, FirstFree, Swept;
  }

  /** What goroutine t was doing before a step. */
  lemma ThreadBefore(s: State, a: Action, t: nat)
    requires Enabled(s, a) && t in Step(s, a).threads
    ensures var s', pc := Step(s, a), Step(s, a).threads[t];
      || (t in s.threads && s.threads[t] == pc)
      || (a.Lookup? && t == a.tid && pc.Missed? && (pc.session, Key(pc.callID, pc.idx)) !in s.mapped)
      || (a.Alloc? && t == a.tid && t in s.threads && pc == Holding(|s.relays|) && |s'.relays| == |s.relays| + 1
          && s.threads[t].Missed?
          && KeyOf(s'.relays[|s.relays|]) == (s.threads[t].session, Key(s.threads[t].callID, s.threads[t].idx)))
      || (a.StartOk? && t == a.tid && t in s.threads && s.threads[t].Holding? && pc == Started(s.threads[t].id))
    ensures a.Publish? ==> t != a.tid
  {
    hide Key, FirstFree, Swept, StopAll;
  }

  lemma KeyKept(s: State, s': State, id: nat)
    requires id < |s.relays| && id < |s'.relays| && s'.relays[id] == s.relays[id].(phase := s'.relays[id].phase)
    ensures KeyOf(s'.relays[id]) == KeyOf(s.relays[id])
  {
  }

  lemma ThreadsBelow(s: State, t: nat)
    requires ThreadInv(s) && t in s.threads && !s.threads[t].Missed?
    ensures s.threads[t].id < |s.relays|
  {
  }

  /** Whoever works on a key after a step did so before, or has just looked it up in vain. */
  lemma FlightBefore(s: State, a: Action, t: nat, k: (nat, string))
    requires ThreadInv(s) && Enabled(s, a) && InFlight(Step(s, a), t, k)
    ensures InFlight(s, t, k) || (a.Lookup? && t == a.tid && k !in s.mapped)
    ensures a.Publish? ==> t != a.tid
  {
    var s' := Step(s, a);
    ThreadBefore(s, a, t);
    RelaysStay(s, a);
    if t in s.threads && !s.threads[t].Missed? {
      ThreadsBelow(s, t);
      KeyKept(s, s', s.threads[t].id);
    }
    hide Step, Key, ThreadInv, Enabled;
  }

  /** A step maps no new key but the one it publishes. */
  lemma MappedAfter(s: State, a: Action, k: (nat, string))
    requires Enabled(s, a) && k in Step(s, a).mapped
    ensures k in s.mapped || (a.Publish? && k == KeyOf(s.relays[s.threads[a.tid].id]))
  {
    hide Key, FirstFree, Swept, StopAll;
  }

  lemma PublishNew(s: State, tid: nat)
    requires Enabled(s, Publish(tid))
    ensures InFlight(s, tid, KeyOf(s.relays[s.threads[tid].id]))
  {
    hide Key;
  }

  lemma SameOverwritten(s: State, a: Action)
    requires Enabled(s, a)
    ensures Step(s, a).overwritten == s.overwritten
      || (a.Publish? && KeyOf(s.relays[s.threads[a.tid].id]) in s.mapped)
  {
    hide Key, FirstFree, Swept, StopAll;
  }

  lemma FlightStep(s: State, a: Action)
    requires Inv(s) && FlightInv(s) && NoOverlap(s) && Enabled(s, a)
    ensures FlightInv(Step(s, a))
  {
    var s' := Step(s, a);
    assert ThreadInv(s);
    hide Inv, ThreadInv, Step, InFlight, Enabled, KeyOf;
    SameOverwritten(s, a);
    if a.Publish? { PublishNew(s, a.tid); }
    forall t, k | InFlight(s', t, k) ensures k !in s'.mapped {
      FlightBefore(s, a, t, k);
      if k in s'.mapped { MappedAfter(s, a, k); }
    }
  }

  lemma {:induction false} DisciplinedRun(s: State, run: seq<Action>)
    requires Inv(s) && FlightInv(s) && Disciplined(s, run)
    ensures ValidRun(s, run) && Inv(Run(s, run)) && FlightInv(Run(s, run))
    decreases |run|
  {
    hide Inv, FlightInv, NoOverlap, Step, Enabled;
    if run != [] {
      StepInv(s, run[0]);
      assert FlightInv(Step(s, run[0])) by { FlightStep(s, run[0]); }
      DisciplinedRun(Step(s, run[0]), run[1..]);
    }
  }

  /** Without overlapping calls for one key no relay is orphaned: every live relay is mapped under
      its key or about to be. */
  lemma NoOrphans(allow: seq<PortRange>, run: seq<Action>)
    requires Disciplined(Init(PoolRanges(allow)), run)
    ensures ValidRun(Init(PoolRanges(allow)), run)
    ensures var s := Run(Init(PoolRanges(allow)), run);
      forall i :: 0 <= i < |s.relays| && s.relays[i].phase == Live ==> Reachable(s, i)
  {
    hide Run, ValidRun, Step, Disciplined;
    PoolRangesHigh(allow);
    InitInv(PoolRanges(allow));
    DisciplinedRun(Init(PoolRanges(allow)), run);
  }

  /** No step of the run stops and unmaps key k. */
  predicate Unswept(s: State, run: seq<Action>, k: (nat, string))
    decreases |run|
  {
    run == [] || (Enabled(s, run[0]) && !Swept(s, run[0], k) && Unswept(Step(s, run[0]), run[1..], k))
  }

  /** The port a lookup of key k returns. */
  function PortOf(s: State, k: (nat, string)): int
    requires k in s.mapped && s.mapped[k] < |s.relays|
  {
    s.relays[s.mapped[k]].port
  }

  /** A step that does not sweep k keeps it mapped, to the same relay or with the old one overwritten. */
  lemma StableStep(s: State, a: Action, k: (nat, string))
    requires Enabled(s, a) && k in s.mapped && !Swept(s, a, k)
    ensures k in Step(s, a).mapped && s.overwritten <= Step(s, a).overwritten
    ensures Step(s, a).mapped[k] == s.mapped[k] || s.mapped[k] in Step(s, a).overwritten
  {
    hide Key, FirstFree, Swept, StopAll;
  }

  lemma OverwrittenGrows(s: State, a: Action)
    requires Enabled(s, a)
    ensures s.overwritten <= Step(s, a).overwritten
  {
    hide Key, FirstFree, Swept, StopAll;
  }

  lemma {:induction false} OverwrittenStays(s: State, run: seq<Action>)
    requires ValidRun(s, run)
    ensures s.overwritten <= Run(s, run).overwritten
    decreases |run|
  {
    hide Step, Enabled;
    if run != [] {
      OverwrittenGrows(s, run[0]);
      OverwrittenStays(Step(s, run[0]), run[1..]);
    }
  }

  /** A key that is not swept stays mapped; it changes its relay only by an overwriting. */
  lemma {:induction false} ChangedIsOverwritten(s: State, run: seq<Action>, k: (nat, string))
    requires k in s.mapped && Unswept(s, run, k)
    ensures ValidRun(s, run)
    ensures k in Run(s, run).mapped
    ensures Run(s, run).mapped[k] == s.mapped[k] || s.mapped[k] in Run(s, run).overwritten
    decreases |run|
  {
    hide Step, Enabled, Swept;
    if run != [] {
      StableStep(s, run[0], k);
      ChangedIsOverwritten(Step(s, run[0]), run[1..], k);
      OverwrittenStays(Step(s, run[0]), run[1..]);
    }
  }

  /** The port of relay i was given back and is in use again. */
  ghost predicate TakenAgain(s: State, i: nat) {
    i < |s.relays| && i in s.freed && s.relays[i].port in s.used
  }

  /** Another relay owns the port of relay i. */
  ghost predicate OwnedByAnother(s: State, i: nat)
    requires i < |s.relays|
  {
    exists j: nat :: j < |s.relays| && j != i && Owns(s.relays[j]) && s.relays[j].port == s.relays[i].port
  }

  /** A relay's port is another relay's too if and only if it was given back and is in use again. */
  lemma OwnedIffTaken(s: State, i: nat)
    requires PoolInv(s) && FreedInv(s) && i < |s.relays|
    ensures OwnedByAnother(s, i) <==> TakenAgain(s, i)
  {
    if TakenAgain(s, i) {
      var j :| 0 <= j < |s.relays| && Owns(s.relays[j]) && s.relays[j].port == s.relays[i].port;
      assert j != i;
    }
  }

  lemma MappedIds(s: State, k: (nat, string))
    requires Inv(s) && k in s.mapped
    ensures s.mapped[k] < |s.relays| && KeyOf(s.relays[s.mapped[k]]) == k
  {
  }

  /** Two keys return different ports when one of the relays still owns its port and the port of the
      other is not in use again; that is so as long as no idle timeout stopped one of them. */
  lemma DistinctPorts(s: State, k1: (nat, string), k2: (nat, string))
    requires Inv(s) && k1 in s.mapped && k2 in s.mapped && k1 != k2
    requires s.mapped[k2] !in s.freed && !TakenAgain(s, s.mapped[k1])
    ensures s.mapped[k1] < |s.relays| && s.mapped[k2] < |s.relays| && PortOf(s, k1) != PortOf(s, k2)
  {
    MappedIds(s, k1);
    MappedIds(s, k2);
    OwnedIffTaken(s, s.mapped[k1]);
    hide PoolInv, ThreadInv, MapInv, IdleInv, ReachInv, TakenAgain, KeyOf;
    var j := s.mapped[k2];
    assert Owns(s.relays[j]) && j != s.mapped[k1];
  }

  // ---------------------------------------------------------------- runs where less holds

  lemma RunOne(s: State, a: Action, rest: seq<Action>)
    ensures ValidRun(s, [a] + rest) <==> Enabled(s, a) && ValidRun(Step(s, a), rest)
    ensures ValidRun(s, [a] + rest) ==> Run(s, [a] + rest) == Run(Step(s, a), rest)
  {
    hide Step, Enabled;
    assert ([a] + rest)[1..] == rest;
  }

  lemma FirstPorts(ranges: seq<PortRange>)
    requires ranges == [PortRange(10000, 20000)]
    ensures FirstFree(ranges, {}) == 10000 && FirstFree(ranges, {10000}) == 10001
  {
  }

  /** The actions by which goroutine tid creates and publishes the relay of one index. */
  function Create(tid: nat): seq<Action> {
    [Alloc(tid)] + ([StartOk(tid)] + [Publish(tid)])
  }

  lemma Created(s: State, tid: nat, callID: string, idx: nat, port: int)
    requires tid in s.threads && s.threads[tid] == Missed(0, callID, idx)
    requires FirstFree(s.ranges, s.used) == port != 0
    ensures ValidRun(s, Create(tid))
    ensures var k := (0, Key(callID, idx)); var n := |s.relays|;
      Run(s, Create(tid)) == s.(used := s.used + {port},
        relays := s.relays + [Relay(0, callID, idx, port, Live)], threads := s.threads - {tid},
        mapped := s.mapped[k := n],
        overwritten := if k in s.mapped then s.overwritten + {s.mapped[k]} else s.overwritten)
  {
    hide Key, FirstFree;
    var n := |s.relays|;
    var s1 := Step(s, Alloc(tid));
    var s2 := Step(s1, StartOk(tid));
    var s3 := Step(s2, Publish(tid));
    assert s2.relays == s.relays + [Relay(0, callID, idx, port, Live)];
    assert s3.threads == s.threads - {tid};
    assert ValidRun(s3, []) && Run(s3, []) == s3;
    RunOne(s2, Publish(tid), []);
    assert [Publish(tid)] + [] == [Publish(tid)];
    RunOne(s1, StartOk(tid), [Publish(tid)]);
    RunOne(s, Alloc(tid), [StartOk(tid)] + [Publish(tid)]);
  }

  lemma {:induction false} RunAppend(s: State, a: seq<Action>, b: seq<Action>)
    requires ValidRun(s, a) && ValidRun(Run(s, a), b)
    ensures ValidRun(s, a + b) && Run(s, a + b) == Run(Run(s, a), b)
    decreases |a|
  {
    hide Step, Enabled;
    if a == [] {
      assert a + b == b;
    } else {
      RunAppend(Step(s, a[0]), a[1..], b);
      assert (a + b)[1..] == a[1..] + b;
    }
  }

  /** Two overlapping calls for one key leave a live relay that no map entry and no goroutine names:
      its port is taken until its idle timeout. */
  lemma OverlapOrphans() returns (run: seq<Action>)
    ensures ValidRun(Init(PoolRanges([])), run)
    ensures var s := Run(Init(PoolRanges([])), run);
      |s.relays| == 2 && s.relays[0].phase == Live && !Reachable(s, 0)
  {
    hide Key, FirstFree;
    var s0 := Init(PoolRanges([]));
    var l0, l1 := Lookup(0, 0, "c", 0), Lookup(1, 0, "c", 0);
    var s1 := Step(s0, l0);
    var s2 := Step(s1, l1);
    FirstPorts(s0.ranges);
    Created(s2, 0, "c", 0, 10000);
    var s3 := Run(s2, Create(0));
    assert s3.used == {10000};
    Created(s3, 1, "c", 0, 10001);
    RunAppend(s2, Create(0), Create(1));
    RunOne(s1, l1, Create(0) + Create(1));
    RunOne(s0, l0, [l1] + (Create(0) + Create(1)));
    run := [l0] + ([l1] + (Create(0) + Create(1)));
  }

  lemma LookedUp(s: State, tid: nat, callID: string, idx: nat)
    requires tid !in s.threads && (0, Key(callID, idx)) !in s.mapped
    ensures ValidRun(s, [Lookup(tid, 0, callID, idx)])
    ensures Run(s, [Lookup(tid, 0, callID, idx)]) == s.(threads := s.threads[tid := Missed(0, callID, idx)])
  {
    hide Key;
    RunOne(s, Lookup(tid, 0, callID, idx), []);
    assert [Lookup(tid, 0, callID, idx)] + [] == [Lookup(tid, 0, callID, idx)];
  }

  /** An idle timeout from start to end leaves the map as it was. */
  lemma IdledOut(s: State, id: nat)
    requires id < |s.relays| && s.relays[id].phase == Live
    ensures ValidRun(s, [Idle(id)] + [Finish(id)])
    ensures Run(s, [Idle(id)] + [Finish(id)]) == FreePort(s.(idled := s.idled + {id}), id)
  {
    var s1 := Step(s, Idle(id));
    var s2 := Step(s1, Finish(id));
    assert s2.relays == s.relays[id := s.relays[id].(phase := Done)];
    assert ValidRun(s2, []) && Run(s2, []) == s2;
    RunOne(s1, Finish(id), []);
    assert [Finish(id)] + [] == [Finish(id)];
    RunOne(s, Idle(id), [Finish(id)]);
  }

  /** After an idle timeout the map still holds the dead relay, and its port is handed to another
      index of the same call: one result can then name one port twice. */
  lemma IdleReuse() returns (run: seq<Action>)
    ensures ValidRun(Init(PoolRanges([])), run)
    ensures var s := Run(Init(PoolRanges([])), run);
      var k0, k1 := (0, Key("c", 0)), (0, Key("c", 1));
      && k0 in s.mapped && k1 in s.mapped && k0 != k1 && |s.relays| == 2
      && s.mapped[k0] == 0 && s.mapped[k1] == 1
      && s.relays[0].phase == Done && s.relays[1].phase == Live && PortOf(s, k0) == PortOf(s, k1)
  {
    if Key("c", 0) == Key("c", 1) { KeyInjective("c", 0, "c", 1); }
    hide Key, FirstFree, Step, Enabled, Run, ValidRun;
    var s0 := Init(PoolRanges([]));
    var r1, r2, r3, r4 := [Lookup(0, 0, "c", 0)], Create(0), [Idle(0)] + [Finish(0)], [Lookup(0, 0, "c", 1)];
    FirstPorts(s0.ranges);
    LookedUp(s0, 0, "c", 0);
    var s1 := Run(s0, r1);
    Created(s1, 0, "c", 0, 10000);
    var s2 := Run(s1, r2);
    IdledOut(s2, 0);
    var s3 := Run(s2, r3);
    assert s3.used == {};
    LookedUp(s3, 0, "c", 1);
    var s4 := Run(s3, r4);
    Created(s4, 0, "c", 1, 10000);
    RunAppend(s3, r4, r2);
    RunAppend(s2, r3, r4 + r2);
    RunAppend(s1, r2, r3 + (r4 + r2));
    RunAppend(s0, r1, r2 + (r3 + (r4 + r2)));
    run := r1 + (r2 + (r3 + (r4 + r2)));
  }
}
