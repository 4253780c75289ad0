/** Exactly which live relays are orphaned, which mapped relays are dead, and when two indices of a call
    share a port (internal/app/server/control.go:333-402, internal/app/server/rtp_relay.go:45-64, 148-202). */
module RtpOrphans {
  import opened RtpPool
  import opened RtpLifecycle
  import opened RtpCalls

  ghost predicate Lost(s: State, i: nat) {
    i < |s.relays| && s.relays[i].phase != Reserved && !Reachable(s, i)
  }

  /** A relay whose map entry was overwritten is reachable no more. */
  ghost predicate LostInv(s: State) {
    forall i :: i in s.overwritten ==> Lost(s, i)
  }

  /** A relay whose idle timeout fired is stopping or done. */
  ghost predicate GoneInv(s: State) {
    forall i :: i in s.idled ==> i < |s.relays| && (s.relays[i].phase == Stopping || s.relays[i].phase == Done)
  }

  /** A port is handed out again only when its relay is done. */
  ghost predicate ReuseInv(s: State) {
    forall i, j :: 0 <= i < j < |s.relays| && s.relays[i].port == s.relays[j].port ==> s.relays[i].phase == Done
  }

  ghost predicate MoreInv(s: State) { LostInv(s) && GoneInv(s) && ReuseInv(s) }

  lemma InitMore(ranges: seq<PortRange>)
    ensures MoreInv(Init(ranges))
  {
  }

  /** A step only appends relays and moves phases forward. */
  ghost predicate Onward(s: State, s': State) {
    && |s.relays| <= |s'.relays|
    && forall i :: 0 <= i < |s.relays| ==>
      && s'.relays[i] == s.relays[i].(phase := s'.relays[i].phase)
      && (s.relays[i].phase == Done ==> s'.relays[i].phase == Done)
      && (s.relays[i].phase == Stopping ==> s'.relays[i].phase == Stopping || s'.relays[i].phase == Done)
      && (s.relays[i].phase != Reserved ==> s'.relays[i].phase != Reserved)
  }

  lemma StepOnward(s: State, a: Action)
    requires Inv(s) && Enabled(s, a)
    ensures Onward(s, Step(s, a))
  {
    hide Key, FirstFree, PoolInv, MapInv, IdleInv, ReachInv, FreedInv, Swept;
  }

  lemma StepGone(s: State, a: Action)
    requires Inv(s) && GoneInv(s) && Enabled(s, a)
    ensures GoneInv(Step(s, a))
  {
    hide Inv, Key, FirstFree, Swept;
    StepOnward(s, a);
  }

  lemma StepReuse(s: State, a: Action)
    requires Inv(s) && ReuseInv(s) && Enabled(s, a)
    ensures ReuseInv(Step(s, a))
  {
    var s' := Step(s, a);
    if a.Alloc? {
      AllocPool(s, a.tid);
      NewPort(s, a.tid);
    }
    hide Inv, Key, FirstFree, Swept;
    StepOnward(s, a);
  }

  /** A new relay is appended on a port that no earlier relay still owns. */
  lemma NewPort(s: State, tid: nat)
    requires PoolInv(s) && Enabled(s, Alloc(tid))
    ensures var s' := Step(s, Alloc(tid));
      |s'.relays| <= |s.relays| + 1 && (|s'.relays| > |s.relays| ==>
        forall i :: 0 <= i < |s.relays| && s.relays[i].port == s'.relays[|s.relays|].port ==> s.relays[i].phase == Done)
  {
    AllocPool(s, tid);
    hide FirstFree;
  }

  /** A goroutine about to publish a relay that was started before the step was about to already. */
  lemma StartedBefore(s: State, a: Action, t: nat, i: nat)
    requires ThreadInv(s) && Enabled(s, a) && i < |s.relays| && s.relays[i].phase != Reserved
    requires t in Step(s, a).threads && Step(s, a).threads[t] == Started(i)
    ensures t in s.threads && s.threads[t] == Started(i)
  {
    hide Key, FirstFree, Swept, StopAll;
  }

  /** A relay that stands in the map after a step stood there before or was about to. */
  lemma MappedBefore(s: State, a: Action, k: (nat, string))
    requires Enabled(s, a) && k in Step(s, a).mapped
    ensures (k in s.mapped && s.mapped[k] == Step(s, a).mapped[k])
      || exists t :: t in s.threads && s.threads[t] == Started(Step(s, a).mapped[k])
  {
    hide Key, FirstFree, Swept, StopAll;
    if a.Publish? { assert s.threads[a.tid] == Started(s.threads[a.tid].id); }
  }

  /** Who is reachable after a step was reachable before, if it had been started. */
  lemma StepReach(s: State, a: Action, i: nat)
    requires Inv(s) && Enabled(s, a) && i < |s.relays| && s.relays[i].phase != Reserved
    ensures Onward(s, Step(s, a)) && (Reachable(Step(s, a), i) ==> Reachable(s, i))
  {
    StepOnward(s, a);
    var s' := Step(s, a);
    hide Step, Enabled, Key, Inv;
    assert ThreadInv(s) by { ThreadsOf(s); }
    var k := KeyOf(s.relays[i]);
    assert KeyOf(s'.relays[i]) == k;
    if k in s'.mapped && s'.mapped[k] == i {
      MappedBefore(s, a, k);
    } else if t :| t in s'.threads && s'.threads[t] == Started(i) {
      StartedBefore(s, a, t, i);
    }
  }

  lemma ThreadsOf(s: State)
    requires Inv(s)
    ensures ThreadInv(s)
  {
  }

  /** What a publication overwrites is not reachable afterwards. */
  lemma Overwrites(s: State, tid: nat)
    requires Inv(s) && Enabled(s, Publish(tid))
    ensures var k := KeyOf(s.relays[s.threads[tid].id]); k in s.mapped ==> Lost(Step(s, Publish(tid)), s.mapped[k])
  {
    hide Key, PoolInv, IdleInv, ReachInv, FreedInv;
    var id := s.threads[tid].id;
    var k := KeyOf(s.relays[id]);
    if k in s.mapped {
      assert ThreadId(s, tid, id);
      assert forall t :: t in s.threads && s.threads[t] == Started(s.mapped[k]) ==> ThreadId(s, t, s.mapped[k]);
    }
  }

  lemma StepLost(s: State, a: Action)
    requires Inv(s) && LostInv(s) && Enabled(s, a)
    ensures LostInv(Step(s, a))
  {
    var s' := Step(s, a);
    forall i | i in s'.overwritten ensures Lost(s', i) {
      if i in s.overwritten { StepReach(s, a, i); } else { Overwrites(s, a.tid); }
    }
  }

  lemma StepMore(s: State, a: Action)
    requires Inv(s) && MoreInv(s) && Enabled(s, a)
    ensures MoreInv(Step(s, a))
  {
    hide Inv, Step, Enabled, LostInv, GoneInv, ReuseInv;
    StepLost(s, a);
    StepGone(s, a);
    StepReuse(s, a);
  }

  lemma {:induction false} RunMore(s: State, run: seq<Action>)
    requires Inv(s) && MoreInv(s) && ValidRun(s, run)
    ensures Inv(Run(s, run)) && MoreInv(Run(s, run))
    decreases |run|
  {
    hide Inv, MoreInv, Step, Enabled;
    if run != [] {
      StepInv(s, run[0]);
      StepMore(s, run[0]);
      RunMore(Step(s, run[0]), run[1..]);
    }
  }

  lemma Reached(allow: seq<PortRange>, run: seq<Action>)
    requires ValidRun(Init(PoolRanges(allow)), run)
    ensures var s := Run(Init(PoolRanges(allow)), run); Inv(s) && MoreInv(s)
  {
    hide Run, ValidRun, Inv, MoreInv;
    PoolRangesHigh(allow);
    InitInv(PoolRanges(allow));
    InitMore(PoolRanges(allow));
    RunMore(Init(PoolRanges(allow)), run);
  }

  // ---------------------------------------------------------------- the exact conditions

  /** A live relay is mapped under its key or about to be if and only if no publication has overwritten
      its entry: the orphans are exactly the relays that an overlapping call pushed out. */
  lemma OrphansAreOverwritten(allow: seq<PortRange>, run: seq<Action>, i: nat)
    requires ValidRun(Init(PoolRanges(allow)), run)
    requires var s := Run(Init(PoolRanges(allow)), run); i < |s.relays| && s.relays[i].phase == Live
    ensures var s := Run(Init(PoolRanges(allow)), run); Reachable(s, i) <==> i !in s.overwritten
  {
    hide Run, ValidRun;
    Reached(allow, run);
  }

  /** A mapped relay is live if and only if its idle timeout has not fired. */
  lemma MappedLiveIffNotIdled(allow: seq<PortRange>, run: seq<Action>, k: (nat, string))
    requires ValidRun(Init(PoolRanges(allow)), run)
    requires k in Run(Init(PoolRanges(allow)), run).mapped
    ensures var s := Run(Init(PoolRanges(allow)), run);
      s.mapped[k] < |s.relays| && (s.relays[s.mapped[k]].phase == Live <==> s.mapped[k] !in s.idled)
  {
    hide Run, ValidRun;
    Reached(allow, run);
    assert LiveOrIdled(Run(Init(PoolRanges(allow)), run), Run(Init(PoolRanges(allow)), run).mapped[k]);
  }

  /** A relay's port is another relay's too if and only if it was given back and is in use again, which
      the pool shows before the call. */
  lemma PortTakenAgain(allow: seq<PortRange>, run: seq<Action>, i: nat)
    requires ValidRun(Init(PoolRanges(allow)), run)
    requires i < |Run(Init(PoolRanges(allow)), run).relays|
    ensures var s := Run(Init(PoolRanges(allow)), run); OwnedByAnother(s, i) <==> TakenAgain(s, i)
  {
    hide Run, ValidRun;
    Reached(allow, run);
    OwnedIffTaken(Run(Init(PoolRanges(allow)), run), i);
  }

  /** What a call is told for its mapped indices is nobody else's if and only if none of those ports was
      given back and is in use again; that takes an idle timeout. */
  lemma ResultPortsOwn(allow: seq<PortRange>, run: seq<Action>, session: nat, callID: string)
    requires ValidRun(Init(PoolRanges(allow)), run)
    ensures var s := Run(Init(PoolRanges(allow)), run);
      && (forall k :: OfCall(s, session, callID, k) ==>
            s.mapped[k] < |s.relays| && (TakenAgain(s, s.mapped[k]) ==> s.mapped[k] in s.idled))
      && ((forall k :: OfCall(s, session, callID, k) ==> !OwnedByAnother(s, s.mapped[k])) <==>
          (forall k :: OfCall(s, session, callID, k) ==> !TakenAgain(s, s.mapped[k])))
  {
    hide Run, ValidRun, OfCall, OwnedByAnother, TakenAgain;
    Reached(allow, run);
    var s := Run(Init(PoolRanges(allow)), run);
    forall k | OfCall(s, session, callID, k)
      ensures k in s.mapped && s.mapped[k] < |s.relays|
      ensures OwnedByAnother(s, s.mapped[k]) <==> TakenAgain(s, s.mapped[k])
      ensures TakenAgain(s, s.mapped[k]) ==> s.mapped[k] in s.idled
    {
      CallMapped(s, session, callID, k);
      MappedIds(s, k);
      OwnedIffTaken(s, s.mapped[k]);
      TakenIdled(s, k);
    }
  }

  /** k is mapped for an index of the call. */
  ghost predicate OfCall(s: State, session: nat, callID: string, k: (nat, string)) {
    k in s.mapped && exists idx: nat :: k == (session, Key(callID, idx))
  }

  lemma CallMapped(s: State, session: nat, callID: string, k: (nat, string))
    requires OfCall(s, session, callID, k)
    ensures k in s.mapped
  {
  }

  lemma TakenIdled(s: State, k: (nat, string))
    requires Inv(s) && k in s.mapped
    ensures TakenAgain(s, s.mapped[k]) ==> s.mapped[k] in s.idled
  {
    assert LiveOrIdled(s, s.mapped[k]);
  }

  function Ordered(i: nat, j: nat): (nat, nat) {
    if i < j then (i, j) else (j, i)
  }

  /** Two mapped keys share a port only when the older relay's idle timeout fired and its port was given
      back, and taken again unless the newer one's was given back too. */
  lemma SharedPortWasGivenBack(allow: seq<PortRange>, run: seq<Action>, k1: (nat, string), k2: (nat, string))
    requires ValidRun(Init(PoolRanges(allow)), run)
    requires var s := Run(Init(PoolRanges(allow)), run); k1 in s.mapped && k2 in s.mapped && k1 != k2
    ensures var s := Run(Init(PoolRanges(allow)), run);
      && s.mapped[k1] < |s.relays| && s.mapped[k2] < |s.relays| && s.mapped[k1] != s.mapped[k2]
      && (PortOf(s, k1) == PortOf(s, k2) ==>
            var (older, newer) := Ordered(s.mapped[k1], s.mapped[k2]);
            older in s.idled && older in s.freed && (newer !in s.freed ==> TakenAgain(s, older)))
  {
    hide Run, ValidRun, Key;
    Reached(allow, run);
    var s := Run(Init(PoolRanges(allow)), run);
    var i, j := s.mapped[k1], s.mapped[k2];
    assert LiveOrIdled(s, i) && LiveOrIdled(s, j);
    if PortOf(s, k1) == PortOf(s, k2) {
      if j !in s.freed { OwnedIffTaken(s, i); }
      if i !in s.freed { OwnedIffTaken(s, j); }
    }
  }

  // ---------------------------------------------------------------- stable ports

  /** Over any run without a release, failure or close of k: its relay, and with it the port that a
      lookup returns, stays the same if and only if no publication has overwritten it. */
  lemma StableExactly(s: State, run: seq<Action>, k: (nat, string))
    requires Inv(s) && MoreInv(s) && k in s.mapped && Unswept(s, run, k)
    ensures ValidRun(s, run)
    ensures var s' := Run(s, run);
      && k in s'.mapped && s.mapped[k] < |s.relays| && s'.mapped[k] < |s'.relays|
      && (s'.mapped[k] == s.mapped[k] <==> s.mapped[k] !in s'.overwritten)
      && (s'.mapped[k] == s.mapped[k] ==> PortOf(s', k) == PortOf(s, k))
  {
    hide Run, ValidRun, Unswept, Inv, Step, Key;
    ChangedIsOverwritten(s, run, k);
    RunMore(s, run);
    var s' := Run(s, run);
    MappedIds(s, k);
    MappedIds(s', k);
    assert s'.mapped[k] in s'.overwritten ==> Lost(s', s'.mapped[k]);
    if s'.mapped[k] == s.mapped[k] { PortKept(s, run, s.mapped[k]); }
  }

  lemma {:induction false} PortKept(s: State, run: seq<Action>, i: nat)
    requires ValidRun(s, run) && i < |s.relays|
    ensures i < |Run(s, run).relays| && Run(s, run).relays[i].port == s.relays[i].port
    decreases |run|
  {
    hide Step, Enabled;
    if run != [] {
      RelaysStay(s, run[0]);
      PortKept(Step(s, run[0]), run[1..], i);
    }
  }

  /** Ports are stable within a call: between two lookups of a key with no release, client failure
      or close of it in between, and no overlapping calls, the port does not change. */
  lemma StablePorts(s: State, run: seq<Action>, k: (nat, string))
    requires Inv(s) && FlightInv(s) && Disciplined(s, run)
    requires k in s.mapped && Unswept(s, run, k)
    ensures ValidRun(s, run)
    ensures var s' := Run(s, run);
      k in s'.mapped && s'.mapped[k] == s.mapped[k] < |s'.relays| && PortOf(s', k) == PortOf(s, k)
  {
    hide Run, ValidRun, Unswept, Inv, Disciplined, Key, KeyOf;
    DisciplinedRun(s, run);
    ChangedIsOverwritten(s, run, k);
    MappedIds(s, k);
    PortKept(s, run, s.mapped[k]);
  }
}
