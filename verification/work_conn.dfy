/** Matching work connections with the connections that wait for one
    (internal/app/server/workconn.go:11-49). */
module WorkConn {

  /** Waiters are numbered in the order they queue up; a channel holds at most one connection. */
  datatype State = State(waiters: map<string, seq<nat>>, chans: map<nat, seq<int>>, next: nat)

  datatype Event =
    | Wait(name: string)
    | Deliver(name: string, conn: int)
    | Receive(waiter: nat)

  const EMPTY: State := State(map[], map[], 0)

  function Queue(s: State, name: string): seq<nat> {
    if name in s.waiters then s.waiters[name] else []
  }

  function Chan(s: State, w: nat): seq<int> {
    if w in s.chans then s.chans[w] else []
  }

  function Step(s: State, e: Event): State {
    match e
    case Wait(name) => s.(waiters := s.waiters[name := Queue(s, name) + [s.next]], next := s.next + 1)
    case Deliver(name, conn) =>
      var q := Queue(s, name);
      if q == [] then s
      else s.(waiters := s.waiters[name := q[1..]], chans := s.chans[q[0] := Chan(s, q[0]) + [conn]])
    case Receive(w) => if Chan(s, w) == [] then s else s.(chans := s.chans[w := Chan(s, w)[1..]])
  }

  function Run(s: State, run: seq<Event>): State
    decreases |run|
  {
    if run == [] then s else Run(Step(s, run[0]), run[1..])
  }

  // ---------------------------------------------------------------- the order of waits and deliveries

  function StepWaits(next: nat, e: Event, name: string): seq<nat> {
    if e.Wait? && e.name == name then [next] else []
  }

  /** The waiters for a name, in the order they called, when the next one is numbered next. */
  function Waits(run: seq<Event>, next: nat, name: string): seq<nat> {
    if run == [] then []
    else StepWaits(next, run[0], name) + Waits(run[1..], if run[0].Wait? then next + 1 else next, name)
  }

  datatype Match = Match(waiter: nat, conn: int)

  function StepMatches(s: State, e: Event, name: string): seq<Match> {
    if e.Deliver? && e.name == name && Queue(s, name) != [] then [Match(Queue(s, name)[0], e.conn)] else []
  }

  /** The successful deliveries for a name, in order. */
  function Matches(s: State, run: seq<Event>, name: string): seq<Match>
    decreases |run|
  {
    if run == [] then [] else StepMatches(s, run[0], name) + Matches(Step(s, run[0]), run[1..], name)
  }

  function WaitersOf(ms: seq<Match>): (r: seq<nat>)
    ensures |r| == |ms|
  {
    if ms == [] then [] else [ms[0].waiter] + WaitersOf(ms[1..])
  }

  lemma Regroup3(a: seq<nat>, b: seq<nat>, c: seq<nat>)
    ensures a + (b + c) == a + b + c
  {
  }

  lemma {:induction false} WaitersAppend(a: seq<Match>, b: seq<Match>)
    ensures WaitersOf(a + b) == WaitersOf(a) + WaitersOf(b)
  {
    if a == [] {
      assert a + b == b;
    } else {
      WaitersAppend(a[1..], b);
      assert (a + b)[1..] == a[1..] + b && (a + b)[0] == a[0];
      Regroup3([a[0].waiter], WaitersOf(a[1..]), WaitersOf(b));
    }
  }

  lemma StepBalance(s: State, e: Event, name: string)
    ensures Queue(s, name) + StepWaits(s.next, e, name)
      == WaitersOf(StepMatches(s, e, name)) + Queue(Step(s, e), name)
    ensures Step(s, e).next == if e.Wait? then s.next + 1 else s.next
  {
    var q := Queue(s, name);
    assert q + [] == q == [] + q;
    if e.Deliver? {
      assert StepWaits(s.next, e, name) == [];
      hide Chan;
      if e.name == name && q != [] {
        assert q == [q[0]] + q[1..];
        OneWaiter(Match(q[0], e.conn));
        assert Queue(Step(s, e), name) == q[1..];
      } else {
        assert Queue(Step(s, e), name) == q && StepMatches(s, e, name) == [];
      }
    } else {
      assert StepMatches(s, e, name) == [];
    }
  }

  lemma OneWaiter(m: Match)
    ensures WaitersOf([m]) == [m.waiter] && WaitersOf([]) == []
  {
  }

  lemma Regroup(q: seq<nat>, w: seq<nat>, ws: seq<nat>, m: seq<nat>, q': seq<nat>, ms: seq<nat>, end: seq<nat>)
    requires q + w == m + q' && q' + ws == ms + end
    ensures q + (w + ws) == (m + ms) + end
  {
    assert q + (w + ws) == (m + q') + ws == m + (q' + ws) == (m + ms) + end;
  }

  /** Queueing and matching together lose, add and reorder nothing. */
  lemma {:induction false} FifoFrom(s: State, run: seq<Event>, name: string)
    ensures Queue(s, name) + Waits(run, s.next, name)
      == WaitersOf(Matches(s, run, name)) + Queue(Run(s, run), name)
    decreases |run|
  {
    hide Step, Queue, StepWaits, StepMatches;
    if run == [] {
      assert Queue(s, name) + [] == [] + Queue(s, name);
    } else {
      var e := run[0];
      var s1 := Step(s, e);
      StepBalance(s, e, name);
      FifoFrom(s1, run[1..], name);
      WaitersAppend(StepMatches(s, e, name), Matches(s1, run[1..], name));
      Regroup(Queue(s, name), StepWaits(s.next, e, name), Waits(run[1..], s1.next, name),
              WaitersOf(StepMatches(s, e, name)), Queue(s1, name),
              WaitersOf(Matches(s1, run[1..], name)), Queue(Run(s, run), name));
    }
  }

  /** The i-th successful delivery for a name goes to the i-th waiter for it, and who still waits are
      the waiters behind them: as many as there were waits less deliveries. */
  lemma Fifo(run: seq<Event>, name: string)
    ensures var waits := Waits(run, 0, name); var ms := Matches(EMPTY, run, name);
      && |ms| <= |waits| && (forall i :: 0 <= i < |ms| ==> ms[i].waiter == waits[i])
      && Queue(Run(EMPTY, run), name) == waits[|ms|..]
  {
    hide Run, Waits, Matches;
    FifoFrom(EMPTY, run, name);
    var waits, ms := Waits(run, 0, name), Matches(EMPTY, run, name);
    assert Queue(EMPTY, name) + waits == waits;
    forall i | 0 <= i < |ms| ensures ms[i].waiter == waits[i] {
      WaiterAt(ms, i);
      assert waits[i] == WaitersOf(ms)[i];
    }
  }

  lemma {:induction false} WaiterAt(ms: seq<Match>, i: nat)
    requires i < |ms|
    ensures WaitersOf(ms)[i] == ms[i].waiter
  {
    if i > 0 { WaiterAt(ms[1..], i - 1); }
  }

  // ---------------------------------------------------------------- one connection per waiter

  /** Waiter w stands at place i of the queue for n. */
  ghost predicate Stands(s: State, w: nat, n: string, i: int) {
    n in s.waiters && 0 <= i < |s.waiters[n]| && s.waiters[n][i] == w
  }

  /** Who waits has a number already given out and an empty channel, and stands in one place. */
  ghost predicate Inv(s: State) {
    && (forall w: nat, n, i :: Stands(s, w, n, i) ==> w < s.next && Chan(s, w) == [])
    && (forall w: nat, m, n, i, j :: Stands(s, w, m, i) && Stands(s, w, n, j) ==> m == n && i == j)
    && (forall w :: w in s.chans ==> w < s.next && |s.chans[w]| <= 1)
  }

  lemma WaitStands(s: State, name: string, w: nat, n: string, i: int)
    ensures Stands(Step(s, Wait(name)), w, n, i) <==>
      Stands(s, w, n, i) || (w == s.next && n == name && i == |Queue(s, name)|)
  {
  }

  lemma DeliverStands(s: State, e: Event, w: nat, n: string, i: int)
    requires e.Deliver? && Queue(s, e.name) != []
    ensures Stands(Step(s, e), w, n, i) <==> i >= 0 && Stands(s, w, n, if n == e.name then i + 1 else i)
    ensures Stands(s, Queue(s, e.name)[0], e.name, 0)
  {
  }

  lemma StepInv(s: State, e: Event)
    requires Inv(s)
    ensures Inv(Step(s, e))
  {
    hide Stands;
    match e
    case Wait(name) =>
      forall w: nat, n, i { WaitStands(s, name, w, n, i); }
      assert s.next !in s.chans;
    case Deliver(name, conn) =>
      if Queue(s, name) != [] {
        forall w: nat, n, i { DeliverStands(s, e, w, n, i); }
        DeliverStands(s, e, Queue(s, name)[0], name, 0);
      }
    case Receive(w) =>
      assert forall v: nat, n, i :: Stands(Step(s, e), v, n, i) <==> Stands(s, v, n, i) by {
        SameQueues(s, Step(s, e));
      }
  }

  lemma SameQueues(s: State, s': State)
    requires s'.waiters == s.waiters
    ensures forall v: nat, n, i :: Stands(s', v, n, i) <==> Stands(s, v, n, i)
  {
  }

  lemma {:induction false} RunInv(s: State, run: seq<Event>)
    requires Inv(s)
    ensures Inv(Run(s, run))
    decreases |run|
  {
    hide Inv, Step;
    if run != [] {
      StepInv(s, run[0]);
      RunInv(Step(s, run[0]), run[1..]);
    }
  }

  /** The connections a waiter was sent in a run. */
  function Sent(s: State, run: seq<Event>, w: nat): seq<int>
    decreases |run|
  {
    if run == [] then []
    else
      var e := run[0];
      (if e.Deliver? && Queue(s, e.name) != [] && Queue(s, e.name)[0] == w then [e.conn] else [])
      + Sent(Step(s, e), run[1..], w)
  }

  /** The connections a waiter received in a run. */
  function Received(s: State, run: seq<Event>, w: nat): seq<int>
    decreases |run|
  {
    if run == [] then []
    else
      var e := run[0];
      (if e == Receive(w) && Chan(s, w) != [] then [Chan(s, w)[0]] else []) + Received(Step(s, e), run[1..], w)
  }

  lemma StepArrives(s: State, e: Event, w: nat)
    ensures var sent := if e.Deliver? && Queue(s, e.name) != [] && Queue(s, e.name)[0] == w then [e.conn] else [];
      var got := if e == Receive(w) && Chan(s, w) != [] then [Chan(s, w)[0]] else [];
      Chan(s, w) + sent == got + Chan(Step(s, e), w)
  {
    if e.Receive? && Chan(s, e.waiter) != [] {
      var c := Chan(s, e.waiter);
      assert c + [] == c == [c[0]] + c[1..];
    }
    assert Chan(s, w) + [] == Chan(s, w) == [] + Chan(s, w);
  }

  lemma RegroupConns(c: seq<int>, now: seq<int>, more: seq<int>, got: seq<int>, c': seq<int>, rest: seq<int>,
                     end: seq<int>)
    requires c + now == got + c' && c' + more == rest + end
    ensures c + (now + more) == (got + rest) + end
  {
    assert c + (now + more) == (got + c') + more == got + (c' + more) == (got + rest) + end;
  }

  lemma {:induction false} ArrivesFrom(s: State, run: seq<Event>, w: nat)
    ensures Chan(s, w) + Sent(s, run, w) == Received(s, run, w) + Chan(Run(s, run), w)
    decreases |run|
  {
    if run == [] {
      assert Chan(s, w) + [] == [] + Chan(s, w);
    } else {
      hide Step, Queue, Chan;
      var e := run[0];
      var s1 := Step(s, e);
      StepArrives(s, e, w);
      ArrivesFrom(s1, run[1..], w);
      RegroupConns(Chan(s, w),
                   if e.Deliver? && Queue(s, e.name) != [] && Queue(s, e.name)[0] == w then [e.conn] else [],
                   Sent(s1, run[1..], w),
                   if e == Receive(w) && Chan(s, w) != [] then [Chan(s, w)[0]] else [],
                   Chan(s1, w), Received(s1, run[1..], w), Chan(Run(s, run), w));
    }
  }

  /** In every run what was sent to a waiter is what it received, in order, and what its channel holds. */
  lemma SentArrives(run: seq<Event>, w: nat)
    ensures Sent(EMPTY, run, w) == Received(EMPTY, run, w) + Chan(Run(EMPTY, run), w)
  {
    hide Run, Sent, Received;
    ArrivesFrom(EMPTY, run, w);
    assert Chan(EMPTY, w) + Sent(EMPTY, run, w) == Sent(EMPTY, run, w);
  }

  /** No queue holds w, nor will one. */
  ghost predicate Served(s: State, w: nat) {
    w < s.next && forall n, i :: !Stands(s, w, n, i)
  }

  lemma ServedStep(s: State, e: Event, w: nat)
    requires Served(s, w)
    ensures Served(Step(s, e), w)
  {
    hide Stands;
    match e
    case Wait(name) => forall n, i { WaitStands(s, name, w, n, i); }
    case Deliver(name, conn) =>
      if Queue(s, name) != [] { forall n, i { DeliverStands(s, e, w, n, i); } }
    case Receive(v) => SameQueues(s, Step(s, e));
  }

  lemma {:induction false} ServedSentNothing(s: State, run: seq<Event>, w: nat)
    requires Served(s, w)
    ensures Sent(s, run, w) == []
    decreases |run|
  {
    hide Step;
    if run != [] {
      var e := run[0];
      ServedStep(s, e, w);
      ServedSentNothing(Step(s, e), run[1..], w);
      if e.Deliver? && Queue(s, e.name) != [] { assert Stands(s, Queue(s, e.name)[0], e.name, 0); }
    }
  }

  lemma DeliveredServed(s: State, e: Event)
    requires Inv(s) && e.Deliver? && Queue(s, e.name) != []
    ensures Served(Step(s, e), Queue(s, e.name)[0])
  {
    hide Stands;
    var w := Queue(s, e.name)[0];
    forall n, i { DeliverStands(s, e, w, n, i); }
    DeliverStands(s, e, w, e.name, 0);
  }

  lemma {:induction false} SentAtMostOne(s: State, run: seq<Event>, w: nat)
    requires Inv(s)
    ensures |Sent(s, run, w)| <= 1
    decreases |run|
  {
    hide Inv, Step, Served;
    if run != [] {
      var e := run[0];
      StepInv(s, e);
      SentAtMostOne(Step(s, e), run[1..], w);
      if e.Deliver? && Queue(s, e.name) != [] && Queue(s, e.name)[0] == w {
        DeliveredServed(s, e);
        ServedSentNothing(Step(s, e), run[1..], w);
      }
    }
  }

  /** In every run each waiter is sent at most one connection, and the next delivery for any name finds
      its channel empty, so the send under the lock does not block. */
  lemma OneConnectionEach(run: seq<Event>, w: nat, name: string)
    ensures |Sent(EMPTY, run, w)| <= 1
    ensures var s := Run(EMPTY, run); Queue(s, name) != [] ==> Chan(s, Queue(s, name)[0]) == []
  {
    hide Run, Sent;
    RunInv(EMPTY, run);
    SentAtMostOne(EMPTY, run, w);
    var s := Run(EMPTY, run);
    assert Queue(s, name) != [] ==> Stands(s, Queue(s, name)[0], name, 0);
  }

  // ---------------------------------------------------------------- the program

  class Manager {
    var waiters: map<string, seq<nat>>
    var chans: map<nat, seq<int>>
    var next: nat

    ghost function Abstract(): State reads this { State(waiters, chans, next) }

    constructor ()
      ensures Abstract() == EMPTY
    {
      waiters, chans, next := map[], map[], 0;
    }

    /** waitWorkConn up to its receive. */
    method WaitWorkConn(name: string) returns (w: nat)
      modifies this
      ensures w == old(next) && Abstract() == Step(old(Abstract()), Wait(name))
    {
      w := next;
      next := next + 1;
      waiters := waiters[name := (if name in waiters then waiters[name] else []) + [w]];
    }

    /** deliverWorkConn. */
    method DeliverWorkConn(name: string, conn: int) returns (ok: bool)
      modifies this
      ensures ok == (Queue(old(Abstract()), name) != [])
      ensures Abstract() == Step(old(Abstract()), Deliver(name, conn))
    {
      if name !in waiters || |waiters[name]| == 0 {
        return false;
      }
      var w := waiters[name][0];
      waiters := waiters[name := waiters[name][1..]];
      chans := chans[w := (if w in chans then chans[w] else []) + [conn]];
      ok := true;
    }
  }
}
