/** Talk time through one call key, with a clock that does not run backwards
    (internal/app/server/extension.go:158-198, 369-384). */
module ExtTalk {
  import opened Text
  import opened ExtTracker
  import opened ExtHistory

  function TimeOf(e: Event): Option<int> {
    match e
    case Register(_, _, _, now) => Some(now)
    case Pend(_, _, _, _, now, _) => Some(now)
    case Answer(_, now) => Some(now)
    case End(_, now) => Some(now)
    case _ => None
  }

  /** The clock reads at least t throughout the run and never runs backwards. */
  predicate Clocked(t: int, run: seq<Event>)
    decreases |run|
  {
    run == [] ||
    (match TimeOf(run[0])
     case None => Clocked(t, run[1..])
     case Some(now) => t <= now && Clocked(now, run[1..]))
  }

  function Latest(t: int, run: seq<Event>): int
    decreases |run|
  {
    if run == [] then t
    else
      match TimeOf(run[0])
      case None => Latest(t, run[1..])
      case Some(now) => Latest(now, run[1..])
  }

  /** The seconds record key gets through call key c. */
  function TalkThrough(c: string, key: string): Instance -> nat {
    (x: Instance) => if x.callKey == c && key in x.keys then Talk(x) else 0
  }

  /** No call of call key c was answered before t0. */
  ghost predicate NotBefore(list: seq<Instance>, c: string, t0: int) {
    forall x :: x in list && x.callKey == c && x.answered.Some? ==> t0 <= x.answered.value
  }

  ghost predicate AnyAnswered(list: seq<Instance>, c: string) {
    exists x :: x in list && x.callKey == c && x.answered.Some?
  }

  /** Up to when talk through c may have been credited: an answered call that is still open has not
      been credited at all. */
  function CreditedUntil(l: Log, c: string, clock: int): int {
    if OpenIn(l, c) && l.list[l.open[c]].answered.Some? then l.list[l.open[c]].answered.value else clock
  }

  /** Without an answered call nothing was credited; otherwise at most the time from the first answer. */
  ghost predicate Bound(list: seq<Instance>, c: string, key: string, until: int) {
    if AnyAnswered(list, c) then
      forall t0 :: NotBefore(list, c, t0) ==> Total(list, TalkThrough(c, key)) * SECOND <= until - t0
    else Total(list, TalkThrough(c, key)) == 0
  }

  ghost predicate OpenOrder(l: Log, clock: int) {
    && (forall k :: k in l.open ==> OpenIn(l, k) && l.list[l.open[k]].callKey == k && l.list[l.open[k]].ended.None?)
    && (forall x :: x in l.list && x.answered.Some? ==> x.answered.value <= clock)
  }

  lemma BoundLater(list: seq<Instance>, c: string, key: string, until: int, later: int)
    requires Bound(list, c, key, until) && until <= later
    ensures Bound(list, c, key, later)
  {
    hide Total, TalkThrough, NotBefore, AnyAnswered;
  }

  lemma BoundOpened(list: seq<Instance>, x: Instance, c: string, key: string, until: int)
    requires Bound(list, c, key, until) && x.answered.None?
    ensures Bound(list + [x], c, key, until)
  {
    hide Total;
    var l' := list + [x];
    TotalSnoc(list, x, TalkThrough(c, key));
    assert forall y :: y in l' <==> y in list || y == x;
    assert AnyAnswered(l', c) <==> AnyAnswered(list, c);
    assert forall t0 :: NotBefore(l', c, t0) <==> NotBefore(list, c, t0);
  }

  /** The instances of a list with one changed. */
  lemma ChangedMembers(list: seq<Instance>, i: nat, x: Instance)
    requires i < |list|
    ensures x in list[i := x]
    ensures forall y :: y in list ==> y == list[i] || y in list[i := x]
    ensures forall y :: y in list[i := x] ==> y == x || y in list
  {
    var l' := list[i := x];
    assert l'[i] == x;
    forall y | y in list ensures y == list[i] || y in l' {
      var j :| 0 <= j < |list| && list[j] == y;
      assert l'[j] == if j == i then x else y;
    }
  }

  lemma BoundAnswered(list: seq<Instance>, i: nat, c: string, key: string, until: int, now: int)
    requires Bound(list, c, key, until) && until <= now
    requires i < |list| && list[i].answered.None? && list[i].ended.None?
    ensures Bound(list[i := list[i].(answered := Some(now))], c, key, if list[i].callKey == c then now else until)
  {
    hide Total;
    var x := list[i].(answered := Some(now));
    var l' := list[i := x];
    TotalUpdate(list, i, x, TalkThrough(c, key));
    ChangedMembers(list, i, x);
    assert forall t0 :: NotBefore(l', c, t0) ==> NotBefore(list, c, t0);
    if list[i].callKey == c {
      assert AnyAnswered(l', c);
      assert forall t0 :: NotBefore(l', c, t0) ==> t0 <= now;
    } else {
      assert AnyAnswered(l', c) <==> AnyAnswered(list, c);
    }
  }

  lemma SecondsFit(ns: int)
    requires ns >= 0
    ensures Seconds(ns) * SECOND <= ns
  {
  }

  lemma BoundEnded(list: seq<Instance>, i: nat, c: string, key: string, until: int, now: int)
    requires Bound(list, c, key, until) && until <= now && i < |list| && list[i].ended.None?
    requires list[i].callKey == c && list[i].answered.Some? ==> until == list[i].answered.value
    ensures Bound(list[i := list[i].(ended := Some(now))], c, key, now)
  {
    hide Total, Seconds;
    var x := list[i].(ended := Some(now));
    var l' := list[i := x];
    TotalUpdate(list, i, x, TalkThrough(c, key));
    ChangedMembers(list, i, x);
    assert forall t0 :: NotBefore(l', c, t0) ==> NotBefore(list, c, t0);
    assert AnyAnswered(l', c) ==> AnyAnswered(list, c);
    if list[i].callKey == c && list[i].answered.Some? {
      SecondsFit(now - until);
      assert AnyAnswered(l', c);
    } else {
      assert AnyAnswered(list, c) ==> AnyAnswered(l', c);
    }
  }

  ghost predicate TalkInv(l: Log, c: string, key: string, clock: int) {
    OpenOrder(l, clock) && Bound(l.list, c, key, CreditedUntil(l, c, clock))
  }

  lemma TalkPend(registered: set<string>, l: Log, e: Event, c: string, key: string, clock: int)
    requires TalkInv(l, c, key, clock) && e.Pend? && clock <= e.now
    ensures TalkInv(LogStep(registered, l, e), c, key, e.now)
  {
    hide PartiesOf, Bound;
    var l' := LogStep(registered, l, e);
    if Opens(registered, l.open.Keys, e) {
      var x := l'.list[|l.list|];
      BoundOpened(l.list, x, c, key, CreditedUntil(l, c, clock));
    }
    BoundLater(l'.list, c, key, CreditedUntil(l, c, clock), CreditedUntil(l', c, e.now));
  }

  lemma TalkAnswer(registered: set<string>, l: Log, e: Event, c: string, key: string, clock: int)
    requires TalkInv(l, c, key, clock) && e.Answer? && clock <= e.now
    ensures TalkInv(LogStep(registered, l, e), c, key, e.now)
  {
    hide Bound;
    var k := e.callKey;
    var l' := LogStep(registered, l, e);
    if k in l.open && l.list[l.open[k]].answered.None? {
      var i := l.open[k];
      ChangedMembers(l.list, i, l.list[i].(answered := Some(e.now)));
      BoundAnswered(l.list, i, c, key, CreditedUntil(l, c, clock), e.now);
      assert forall j :: j in l.open && j != k ==> l.open[j] != i;
      if k != c { BoundLater(l'.list, c, key, CreditedUntil(l, c, clock), CreditedUntil(l', c, e.now)); }
    } else {
      BoundLater(l'.list, c, key, CreditedUntil(l, c, clock), CreditedUntil(l', c, e.now));
    }
  }

  lemma TalkEnd(registered: set<string>, l: Log, e: Event, c: string, key: string, clock: int)
    requires TalkInv(l, c, key, clock) && e.End? && clock <= e.now
    ensures TalkInv(LogStep(registered, l, e), c, key, e.now)
  {
    hide Bound;
    var k := e.callKey;
    var l' := LogStep(registered, l, e);
    if k in l.open {
      var i := l.open[k];
      ChangedMembers(l.list, i, l.list[i].(ended := Some(e.now)));
      assert forall j :: j in l.open && j != k ==> l.open[j] != i;
      if k == c {
        BoundEnded(l.list, i, c, key, CreditedUntil(l, c, clock), e.now);
      } else {
        BoundOtherEnded(l.list, i, c, key, CreditedUntil(l, c, clock), e.now);
        BoundLater(l'.list, c, key, CreditedUntil(l, c, clock), CreditedUntil(l', c, e.now));
      }
    } else {
      BoundLater(l'.list, c, key, CreditedUntil(l, c, clock), CreditedUntil(l', c, e.now));
    }
  }

  lemma BoundOtherEnded(list: seq<Instance>, i: nat, c: string, key: string, until: int, now: int)
    requires Bound(list, c, key, until) && i < |list| && list[i].callKey != c
    ensures Bound(list[i := list[i].(ended := Some(now))], c, key, until)
  {
    hide Total;
    var x := list[i].(ended := Some(now));
    var l' := list[i := x];
    TotalUpdate(list, i, x, TalkThrough(c, key));
    ChangedMembers(list, i, x);
    assert forall t0 :: NotBefore(l', c, t0) ==> NotBefore(list, c, t0);
    assert AnyAnswered(l', c) <==> AnyAnswered(list, c);
  }

  lemma {:induction false} TalkRun(registered: set<string>, l: Log, run: seq<Event>, c: string, key: string, clock: int)
    requires TalkInv(l, c, key, clock) && Clocked(clock, run)
    ensures TalkInv(History(registered, l, run), c, key, Latest(clock, run))
    decreases |run|
  {
    hide TalkInv, LogStep, RegisterStep;
    if run != [] {
      var e := run[0];
      var l' := LogStep(registered, l, e);
      var now := if TimeOf(e).Some? then TimeOf(e).value else clock;
      assert TalkInv(l', c, key, now) by {
        match e
        case Register(_, _, _, _) => TalkIdle(registered, l, e, c, key, clock, now);
        case Pend(_, _, _, _, _, _) => TalkPend(registered, l, e, c, key, clock);
        case Answer(_, _) => TalkAnswer(registered, l, e, c, key, clock);
        case End(_, _) => TalkEnd(registered, l, e, c, key, clock);
        case PeerBytes(_, _, _) => TalkIdle(registered, l, e, c, key, clock, now);
        case CallBytes(_, _, _) => TalkIdle(registered, l, e, c, key, clock, now);
      }
      TalkRun(RegisterStep(registered, e), l', run[1..], c, key, now);
    }
  }

  lemma TalkIdle(registered: set<string>, l: Log, e: Event, c: string, key: string, clock: int, now: int)
    requires TalkInv(l, c, key, clock) && clock <= now && (e.Register? || e.PeerBytes? || e.CallBytes?)
    ensures TalkInv(LogStep(registered, l, e), c, key, now)
  {
    hide Bound;
    BoundLater(l.list, c, key, CreditedUntil(l, c, clock), CreditedUntil(l, c, now));
  }

  /** Whatever runs through one call key, also when one address serves call after call: the seconds it
      ever gave a record are at most the time since its first answer. */
  lemma TalkBounded(run: seq<Event>, start: int, c: string, key: string)
    requires Clocked(start, run)
    ensures var list := History({}, NO_CALLS, run).list; var total := Total(list, TalkThrough(c, key));
      if AnyAnswered(list, c) then
        forall t0 :: NotBefore(list, c, t0) ==> total * SECOND <= Latest(start, run) - t0
      else total == 0
  {
    hide History, Total, TalkThrough, Latest;
    TalkNothing(c, key, start);
    TalkRun({}, NO_CALLS, run, c, key, start);
    var l := History({}, NO_CALLS, run);
    BoundLater(l.list, c, key, CreditedUntil(l, c, Latest(start, run)), Latest(start, run));
  }

  lemma TalkNothing(c: string, key: string, start: int)
    ensures TalkInv(NO_CALLS, c, key, start)
  {
  }
}
