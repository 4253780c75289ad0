/** What single operations on the relays come to when nobody interrupts them, in any reachable state
    (internal/app/server/control.go:226-244, 296-303, 345-402). */
module RtpSteps {
  import opened Text
  import opened RtpPool
  import opened RtpLifecycle
  import C = RtpCalls

  /** The keys a sweep is for: the one the client names, those of a call, or all of the session. */
  ghost predicate Hits(a: Action, k: (nat, string)) {
    match a
    case ClientFail(session, key) => k == (session, key)
    case Release(session, callID) => k.0 == session && exists idx: nat :: k.1 == callID + "#" + Itoa(idx)
    case CloseSession(session) => k.0 == session
    case _ => false
  }

  lemma HitsCall(r: Relay, k: (nat, string), callID: string, session: nat)
    requires KeyOf(r) == k
    ensures Hits(Release(session, callID), k) <==> k.0 == session && r.callID == callID
  {
    if idx: nat :| k.1 == callID + "#" + Itoa(idx) {
      assert k.1 == Key(callID, idx);
      KeyInjective(callID, idx, r.callID, r.idx);
    }
    hide Itoa;
    if r.callID == callID { assert k.1 == callID + "#" + Itoa(r.idx); }
  }

  lemma SweptMeans(s: State, a: Action, k: (nat, string))
    requires MapInv(s) && k in s.mapped && (a.ClientFail? || a.Release? || a.CloseSession?)
    ensures Swept(s, a, k) <==> Hits(a, k)
  {
    if a.Release? { HitsCall(s.relays[s.mapped[k]], k, a.callID, a.session); }
    hide Itoa, KeyOf;
  }

  /** In every reachable state a failure reported by the client, the end of a call and the end of a session
      unmap exactly the relays they are for and leave none of those live; every other mapped relay stays. */
  lemma SweepMeaning(allow: seq<PortRange>, run: seq<Action>, a: Action, k: (nat, string))
    requires ValidRun(Init(PoolRanges(allow)), run) && (a.ClientFail? || a.Release? || a.CloseSession?)
    requires k in Run(Init(PoolRanges(allow)), run).mapped
    ensures var s := Run(Init(PoolRanges(allow)), run); var s' := Step(s, a); var id := s.mapped[k];
      && id < |s.relays| == |s'.relays| && s'.used == s.used
      && if Hits(a, k) then k !in s'.mapped && s'.relays[id].phase != Live
         else k in s'.mapped && s'.mapped[k] == id && s'.relays[id] == s.relays[id]
  {
    var s := Run(Init(PoolRanges(allow)), run);
    assert Inv(s) by {
      hide Run, ValidRun;
      PoolRangesHigh(allow);
      InitInv(PoolRanges(allow));
      RunKeeps(Init(PoolRanges(allow)), run);
    }
    hide Run, ValidRun, KeyOf, Hits, PoolInv, IdleInv, ReachInv, FreedInv, Balanced;
    SweptMeans(s, a, k);
    SweepMapped(s, a);
    if Swept(s, a, k) { SweptStops(s, a, k); }
    hide Swept, StopAll, ThreadInv, MapInv, ThreadId;
  }

  lemma Nothing(s: State)
    ensures ValidRun(s, []) && Run(s, []) == s
  {
  }

  /** A relay that is mapped under the key stays and nothing is allocated. */
  ghost predicate Found(s: State, key: (nat, string), s': State) {
    key in s.mapped && s' == s
  }

  /** A new live relay is mapped under the key, on the first free port, which is taken. */
  ghost predicate Made(s: State, session: nat, callID: string, idx: nat, s': State) {
    var key := (session, callID + "#" + Itoa(idx));
    && s'.mapped == s.mapped[key := |s.relays|]
    && s'.relays == s.relays + [Relay(session, callID, idx, FirstFree(s.ranges, s.used), Live)]
    && s'.used == s.used + {FirstFree(s.ranges, s.used)} && s'.threads == s.threads && s'.freed == s.freed
  }

  /** What a goroutine does behind a lookup that found nothing, when a port is free. */
  function Taking(tid: nat, opens: bool): seq<Action> {
    [Alloc(tid)] + if opens then [StartOk(tid)] + ([Publish(tid)] + []) else [StartFail(tid)] + []
  }

  lemma OpenedRun(s: State, tid: nat, session: nat, callID: string, idx: nat)
    requires tid in s.threads && s.threads[tid] == Missed(session, callID, idx) && FirstFree(s.ranges, s.used) != 0
    ensures ValidRun(s, Taking(tid, true))
    ensures Made(s.(threads := s.threads - {tid}), session, callID, idx, Run(s, Taking(tid, true)))
  {
    assert Key(callID, idx) == callID + "#" + Itoa(idx);
    hide Key, Itoa, FirstFree;
    var s2 := Step(s, Alloc(tid));
    var s3 := Step(s2, StartOk(tid));
    var s4 := Step(s3, Publish(tid));
    assert Made(s.(threads := s.threads - {tid}), session, callID, idx, s4);
    hide Made;
    Nothing(s4);
    C.RunOne(s3, Publish(tid), []);
    C.RunOne(s2, StartOk(tid), [Publish(tid)] + []);
    C.RunOne(s, Alloc(tid), [StartOk(tid)] + ([Publish(tid)] + []));
  }

  ghost predicate Unmade(s: State, s': State) {
    s'.mapped == s.mapped && s'.used == s.used && s'.threads == s.threads
  }

  lemma FailedRun(s: State, tid: nat)
    requires HighRanges(s.ranges) && tid in s.threads && s.threads[tid].Missed? && FirstFree(s.ranges, s.used) != 0
    ensures ValidRun(s, Taking(tid, false))
    ensures Unmade(s.(threads := s.threads - {tid}), Run(s, Taking(tid, false)))
  {
    FirstFreeComplete(s.ranges, s.used);
    hide Key, FirstFree, InRanges, HighRanges;
    var s2 := Step(s, Alloc(tid));
    var s3 := Step(s2, StartFail(tid));
    assert Unmade(s.(threads := s.threads - {tid}), s3);
    hide Unmade;
    Nothing(s3);
    C.RunOne(s2, StartFail(tid), []);
    C.RunOne(s, Alloc(tid), [StartFail(tid)] + []);
  }

  /** getOrCreateRTPRelays for one index when nobody interrupts it: the mapped relay is found; or a new one
      is live and mapped; or, when no port is free or its socket fails, no key is mapped that was not and
      no port is taken that was not. */
  lemma OneIndexRun(s: State, tid: nat, session: nat, callID: string, idx: nat, opens: bool)
      returns (run: seq<Action>)
    requires HighRanges(s.ranges) && tid !in s.threads
    ensures ValidRun(s, run)
    ensures var s' := Run(s, run); var key := (session, callID + "#" + Itoa(idx));
      if key in s.mapped then Found(s, key, s')
      else if FirstFree(s.ranges, s.used) != 0 && opens then Made(s, session, callID, idx, s')
      else Unmade(s, s')
  {
    assert Key(callID, idx) == callID + "#" + Itoa(idx);
    hide Key, Itoa, FirstFree, HighRanges, Made, Unmade, Taking;
    var lookup := Lookup(tid, session, callID, idx);
    var s1 := Step(s, lookup);
    var more: seq<Action> := [];
    if (session, Key(callID, idx)) in s.mapped {
      Nothing(s1);
    } else {
      assert s1 == s.(threads := s.threads[tid := Missed(session, callID, idx)]);
      assert s1.(threads := s1.threads - {tid}) == s by { assert s1.threads - {tid} == s.threads; }
      if FirstFree(s.ranges, s.used) == 0 {
        more := [Alloc(tid)] + [];
        Exhausted(s1, tid);
      } else {
        more := Taking(tid, opens);
        if opens { OpenedRun(s1, tid, session, callID, idx); } else { FailedRun(s1, tid); }
      }
    }
    hide Step;
    C.RunOne(s, lookup, more);
    run := [lookup] + more;
  }

  lemma Exhausted(s: State, tid: nat)
    requires tid in s.threads && s.threads[tid].Missed? && FirstFree(s.ranges, s.used) == 0
    ensures ValidRun(s, [Alloc(tid)] + [])
    ensures Unmade(s.(threads := s.threads - {tid}), Run(s, [Alloc(tid)] + []))
  {
    hide FirstFree;
    var s2 := Step(s, Alloc(tid));
    Nothing(s2);
    C.RunOne(s, Alloc(tid), []);
  }
}
