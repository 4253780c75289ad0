/** The counters of the extension tracker against the whole event history
    (internal/app/server/extension.go:114-212, 369-384). */
module ExtHistory {
  import opened Text
  import opened ExtTracker

  /** One tracked call, from its first message to its end. One that was dropped from a full table, or
      is still going on, has no end. */
  datatype Instance = Instance(callKey: string, keys: seq<string>, answered: Option<int>, ended: Option<int>)

  /** All calls there ever were, in the order they were opened, and which of them can still change. */
  datatype Log = Log(open: map<string, nat>, list: seq<Instance>)

  predicate OpenIn(l: Log, k: string) {
    k in l.open && l.open[k] < |l.list|
  }

  function LogStep(registered: set<string>, l: Log, e: Event): Log {
    match e
    case Register(_, _, _, _) => l
    case PeerBytes(_, _, _) => l
    case CallBytes(_, _, _) => l
    case Pend(protocol, k, caller, callee, _, evict) =>
      if Opens(registered, l.open.Keys, e) then
        var open := l.open[k := |l.list|];
        Log(if |open| > MAX_CALLS then open - {evict} else open,
            l.list + [Instance(k, PartiesOf(registered, protocol, caller, callee).keys, None, None)])
      else l
    case Answer(k, now) =>
      if OpenIn(l, k) && l.list[l.open[k]].answered.None? then
        l.(list := l.list[l.open[k] := l.list[l.open[k]].(answered := Some(now))])
      else l
    case End(k, now) =>
      if OpenIn(l, k) then Log(l.open - {k}, l.list[l.open[k] := l.list[l.open[k]].(ended := Some(now))])
      else l
  }

  function RegisterStep(registered: set<string>, e: Event): set<string> {
    if e.Register? && e.number != "" then registered + {ExtKey(e.protocol, e.number)} else registered
  }

  /** The calls of a run, from the events alone. */
  function History(registered: set<string>, l: Log, run: seq<Event>): Log
    decreases |run|
  {
    if run == [] then l
    else History(RegisterStep(registered, run[0]), LogStep(registered, l, run[0]), run[1..])
  }

  const NO_CALLS: Log := Log(map[], [])

  // ---------------------------------------------------------------- totals over the history

  function Total(list: seq<Instance>, weight: Instance -> nat): nat {
    if list == [] then 0 else weight(list[0]) + Total(list[1..], weight)
  }

  lemma {:induction false} TotalAppend(a: seq<Instance>, b: seq<Instance>, weight: Instance -> nat)
    ensures Total(a + b, weight) == Total(a, weight) + Total(b, weight)
  {
    if a == [] {
      assert a + b == b;
    } else {
      TotalAppend(a[1..], b, weight);
      assert (a + b)[1..] == a[1..] + b;
    }
  }

  lemma TotalUpdate(list: seq<Instance>, i: nat, x: Instance, weight: Instance -> nat)
    requires i < |list|
    ensures Total(list[i := x], weight) + weight(list[i]) == Total(list, weight) + weight(x)
  {
    var a, b := list[..i], list[i + 1..];
    assert list == a + ([list[i]] + b) && list[i := x] == a + ([x] + b);
    TotalAppend(a, [list[i]] + b, weight);
    TotalAppend(a, [x] + b, weight);
    TotalAppend([list[i]], b, weight);
    TotalAppend([x], b, weight);
  }

  lemma TotalSnoc(list: seq<Instance>, x: Instance, weight: Instance -> nat)
    ensures Total(list + [x], weight) == Total(list, weight) + weight(x)
  {
    TotalAppend(list, [x], weight);
  }

  lemma {:induction false} TotalZero(list: seq<Instance>, weight: Instance -> nat)
    requires forall x :: x in list ==> weight(x) == 0
    ensures Total(list, weight) == 0
  {
    if list != [] { TotalZero(list[1..], weight); }
  }

  /** Calls that key took part in and that were answered. */
  function Answers(key: string): Instance -> nat {
    (x: Instance) => if key in x.keys && x.answered.Some? then 1 else 0
  }

  /** Whole seconds of talk of a call that was answered and ended. */
  function Talk(x: Instance): nat {
    if x.answered.Some? && x.ended.Some? then Seconds(x.ended.value - x.answered.value) else 0
  }

  function TalkOf(key: string): Instance -> nat {
    (x: Instance) => if key in x.keys then Talk(x) else 0
  }

  // ---------------------------------------------------------------- the tie

  predicate InstanceOf(x: Instance, k: string, c: Call) {
    x == Instance(k, c.keys, c.started, None)
  }

  /** The open calls of the history are the calls of the table. */
  ghost predicate Matches(open: map<string, nat>, list: seq<Instance>, calls: map<string, Call>) {
    open.Keys == calls.Keys && forall k :: k in open ==> open[k] < |list| && InstanceOf(list[open[k]], k, calls[k])
  }

  ghost predicate OpenTied(s: State, l: Log) {
    Matches(l.open, l.list, s.calls)
  }

  lemma MatchesAdd(open: map<string, nat>, list: seq<Instance>, calls: map<string, Call>, k: string, x: Instance,
                   c: Call)
    requires Matches(open, list, calls) && InstanceOf(x, k, c)
    ensures Matches(open[k := |list|], list + [x], calls[k := c])
  {
    hide InstanceOf;
  }

  lemma MatchesDrop(open: map<string, nat>, list: seq<Instance>, calls: map<string, Call>, k: string)
    requires Matches(open, list, calls)
    ensures Matches(open - {k}, list, calls - {k})
  {
    hide InstanceOf;
  }

  lemma MatchesUpdate(open: map<string, nat>, list: seq<Instance>, calls: map<string, Call>, k: string, x: Instance,
                      c: Call)
    requires Matches(open, list, calls) && k in open && InstanceOf(x, k, c)
    ensures Matches(open, list[open[k] := x], calls[k := c])
  {
    assert forall j :: j in open && j != k ==> open[j] != open[k];
  }

  lemma MatchesClose(open: map<string, nat>, list: seq<Instance>, calls: map<string, Call>, k: string, x: Instance)
    requires Matches(open, list, calls) && k in open
    ensures Matches(open - {k}, list[open[k] := x], calls - {k})
  {
    assert forall j :: j in open && j != k ==> open[j] != open[k];
  }

  ghost predicate PartiesKnown(s: State, l: Log) {
    forall x, key :: x in l.list && key in x.keys ==> key in s.exts
  }

  ghost predicate Counts(r: Record, list: seq<Instance>, key: string) {
    r.calls == Total(list, Answers(key)) && r.callSeconds == Total(list, TalkOf(key))
  }

  ghost predicate Counted(exts: Records, list: seq<Instance>) {
    forall key :: key in exts ==> Counts(exts[key], list, key)
  }

  ghost predicate Tied(s: State, l: Log) {
    OpenTied(s, l) && PartiesKnown(s, l) && Counted(s.exts, l.list)
  }

  lemma SameOpen(s: State, s': State, l: Log)
    requires OpenTied(s, l) && s'.calls == s.calls
    ensures OpenTied(s', l)
  {
  }

  /** What a registration does to the counters: nothing, or a new record with zeros. */
  lemma RegisterCounters(s: State, e: Event)
    requires e.Register?
    ensures var s' := Step(s, e);
      && s'.calls == s.calls && s.exts.Keys <= s'.exts.Keys
      && (forall k :: k in s.exts ==>
            s'.exts[k].calls == s.exts[k].calls && s'.exts[k].callSeconds == s.exts[k].callSeconds)
      && (forall k :: k in s'.exts && k !in s.exts ==> s'.exts[k].calls == 0 && s'.exts[k].callSeconds == 0)
  {
    hide ExtKey, Bind;
  }

  /** A number that never registered took part in nothing, so its new record may start at zero. */
  lemma RegisterTied(s: State, l: Log, e: Event)
    requires Tied(s, l) && e.Register?
    ensures Tied(Step(s, e), LogStep(s.exts.Keys, l, e))
  {
    hide Step, OpenTied, Answers, TalkOf, Total;
    var s' := Step(s, e);
    RegisterCounters(s, e);
    SameOpen(s, s', l);
    forall key | key in s'.exts && key !in s.exts
      ensures Total(l.list, Answers(key)) == 0 && Total(l.list, TalkOf(key)) == 0
    {
      Stranger(l.list, key);
    }
  }

  lemma Stranger(list: seq<Instance>, key: string)
    requires forall x :: x in list ==> key !in x.keys
    ensures Total(list, Answers(key)) == 0 && Total(list, TalkOf(key)) == 0
  {
    TotalZero(list, Answers(key));
    TotalZero(list, TalkOf(key));
  }

  lemma PartiesRegistered(registered: set<string>, protocol: string, caller: string, callee: string)
    ensures forall key :: key in PartiesOf(registered, protocol, caller, callee).keys ==> key in registered
  {
  }

  lemma PendOpen(s: State, l: Log, e: Event)
    requires OpenTied(s, l) && e.Pend?
    ensures OpenTied(Step(s, e), LogStep(s.exts.Keys, l, e))
  {
    hide PartiesOf, Matches, Opens;
    assert l.open.Keys == s.calls.Keys by { SameKeys(s, l); }
    if Opens(s.exts.Keys, s.calls.Keys, e) {
      var p := PartiesOf(s.exts.Keys, e.protocol, e.caller, e.callee);
      var x := Instance(e.callKey, p.keys, None, None);
      var c := Call(p.keys, p.peers, None, e.now);
      var open, o := l.open[e.callKey := |l.list|], s.calls[e.callKey := c];
      MatchesAdd(l.open, l.list, s.calls, e.callKey, x, c);
      assert |open| == |o| by { SameSize(open, o); }
      MatchesDrop(open, l.list + [x], o, e.evict);
    }
  }

  lemma SameKeys(s: State, l: Log)
    requires OpenTied(s, l)
    ensures l.open.Keys == s.calls.Keys
  {
  }

  lemma SameSize(open: map<string, nat>, calls: map<string, Call>)
    requires open.Keys - calls.Keys == {} && calls.Keys - open.Keys == {}
    ensures |open| == |calls|
  {
    assert open.Keys == calls.Keys;
  }

  lemma PendTied(s: State, l: Log, e: Event)
    requires Tied(s, l) && e.Pend?
    ensures Tied(Step(s, e), LogStep(s.exts.Keys, l, e))
  {
    hide PartiesOf, Total, Answers, TalkOf, OpenTied, Opens;
    PendOpen(s, l, e);
    SameKeys(s, l);
    if Opens(s.exts.Keys, l.open.Keys, e) {
      PartiesRegistered(s.exts.Keys, e.protocol, e.caller, e.callee);
      var x := Instance(e.callKey, PartiesOf(s.exts.Keys, e.protocol, e.caller, e.callee).keys, None, None);
      forall key ensures Total(l.list + [x], Answers(key)) == Total(l.list, Answers(key))
        && Total(l.list + [x], TalkOf(key)) == Total(l.list, TalkOf(key))
      {
        NoWeight(l.list, x, key);
      }
    }
  }

  lemma NoWeight(list: seq<Instance>, x: Instance, key: string)
    requires x.answered.None?
    ensures Total(list + [x], Answers(key)) == Total(list, Answers(key))
      && Total(list + [x], TalkOf(key)) == Total(list, TalkOf(key))
  {
    TotalSnoc(list, x, Answers(key));
    TotalSnoc(list, x, TalkOf(key));
  }

  /** Changing one call changes a record's totals by what that call weighs for it. */
  lemma ChangeOne(list: seq<Instance>, i: nat, x: Instance, key: string)
    requires i < |list| && x.keys == list[i].keys
    ensures key !in x.keys ==> Total(list[i := x], Answers(key)) == Total(list, Answers(key))
    ensures key !in x.keys ==> Total(list[i := x], TalkOf(key)) == Total(list, TalkOf(key))
    ensures key in x.keys && list[i].answered.None? && x.answered.Some? ==>
      Total(list[i := x], Answers(key)) == Total(list, Answers(key)) + 1
    ensures key in x.keys && list[i].answered == x.answered ==>
      Total(list[i := x], Answers(key)) == Total(list, Answers(key))
    ensures key in x.keys ==> Total(list[i := x], TalkOf(key)) + Talk(list[i]) == Total(list, TalkOf(key)) + Talk(x)
  {
    hide Talk;
    TotalUpdate(list, i, x, Answers(key));
    TotalUpdate(list, i, x, TalkOf(key));
  }

  lemma PartiesStay(s: State, l: Log, i: nat, x: Instance)
    requires PartiesKnown(s, l) && i < |l.list| && x.keys == l.list[i].keys
    ensures forall y, key :: y in l.list[i := x] && key in y.keys ==> key in s.exts
  {
    assert l.list[i] in l.list;
  }

  /** The first answer adds one call to every party's record. */
  lemma CountedAnswer(exts: Records, list: seq<Instance>, i: nat, c: Call, now: int)
    requires Counted(exts, list) && i < |list| && InstanceOf(list[i], list[i].callKey, c) && c.started.None?
    ensures Counted(Answered(exts, c, now), list[i := list[i].(answered := Some(now))])
  {
    hide Total, Answers, TalkOf;
    var x := list[i].(answered := Some(now));
    forall key | key in exts ensures Counts(Answered(exts, c, now)[key], list[i := x], key) {
      assert Counts(exts[key], list, key);
      ChangeOne(list, i, x, key);
    }
  }

  /** The end adds the talk time to every party's record. */
  lemma CountedEnd(exts: Records, list: seq<Instance>, i: nat, c: Call, now: int)
    requires Counted(exts, list) && i < |list| && InstanceOf(list[i], list[i].callKey, c)
    ensures var secs := if c.started.Some? then Seconds(now - c.started.value) else 0;
      Counted(Update(exts, c.keys, MoreTalk(secs)), list[i := list[i].(ended := Some(now))])
  {
    hide Total, Answers, TalkOf, Seconds;
    var secs := if c.started.Some? then Seconds(now - c.started.value) else 0;
    var x := list[i].(ended := Some(now));
    forall key | key in exts ensures Counts(Update(exts, c.keys, MoreTalk(secs))[key], list[i := x], key) {
      assert Counts(exts[key], list, key);
      ChangeOne(list, i, x, key);
    }
  }

  lemma AnswerTied(s: State, l: Log, e: Event)
    requires Tied(s, l) && e.Answer?
    ensures Tied(Step(s, e), LogStep(s.exts.Keys, l, e))
  {
    hide Counted, InstanceOf;
    var k := e.callKey;
    assert OpenIn(l, k) ==> InstanceOf(l.list[l.open[k]], k, s.calls[k]);
    if k in s.calls && s.calls[k].started.None? {
      var i := l.open[k];
      var x := l.list[i].(answered := Some(e.now));
      CallOf(l.list[i], k, s.calls[k]);
      CallOf(x, k, s.calls[k].(started := Some(e.now)));
      MatchesUpdate(l.open, l.list, s.calls, k, x, s.calls[k].(started := Some(e.now)));
      hide Matches;
      PartiesStay(s, l, i, x);
      CountedAnswer(s.exts, l.list, i, s.calls[k], e.now);
    } else if k in s.calls {
      CallOf(l.list[l.open[k]], k, s.calls[k]);
    }
  }

  lemma CallOf(x: Instance, k: string, c: Call)
    ensures InstanceOf(x, k, c) <==> x.callKey == k && x.keys == c.keys && x.answered == c.started && x.ended.None?
  {
  }

  lemma EndTied(s: State, l: Log, e: Event)
    requires Tied(s, l) && e.End?
    ensures Tied(Step(s, e), LogStep(s.exts.Keys, l, e))
  {
    hide Counted, InstanceOf, Update;
    var k := e.callKey;
    if k in s.calls {
      var i := l.open[k];
      var x := l.list[i].(ended := Some(e.now));
      assert InstanceOf(l.list[i], k, s.calls[k]);
      CallOf(l.list[i], k, s.calls[k]);
      MatchesClose(l.open, l.list, s.calls, k, x);
      hide Matches;
      PartiesStay(s, l, i, x);
      CountedEnd(s.exts, l.list, i, s.calls[k], e.now);
      SameRecords(s.exts, s.calls[k], e.now);
    }
  }

  lemma SameRecords(exts: Records, c: Call, now: int)
    ensures var secs := if c.started.Some? then Seconds(now - c.started.value) else 0;
      Update(exts, c.keys, MoreTalk(secs)).Keys == exts.Keys
  {
  }

  lemma BytesTied(s: State, l: Log, e: Event)
    requires Tied(s, l) && (e.PeerBytes? || e.CallBytes?)
    ensures Tied(Step(s, e), LogStep(s.exts.Keys, l, e))
  {
    hide Total, Answers, TalkOf, OpenTied;
    var s' := Step(s, e);
    assert s'.calls == s.calls;
    assert OpenTied(s', l) by { SameOpen(s, s', l); }
  }

  lemma StepTied(s: State, l: Log, e: Event)
    requires Tied(s, l)
    ensures Tied(Step(s, e), LogStep(s.exts.Keys, l, e))
  {
    hide Tied, Step, LogStep;
    match e
    case Register(_, _, _, _) => RegisterTied(s, l, e);
    case Pend(_, _, _, _, _, _) => PendTied(s, l, e);
    case Answer(_, _) => AnswerTied(s, l, e);
    case End(_, _) => EndTied(s, l, e);
    case PeerBytes(_, _, _) => BytesTied(s, l, e);
    case CallBytes(_, _, _) => BytesTied(s, l, e);
  }

  lemma {:induction false} RunTied(s: State, l: Log, run: seq<Event>)
    requires Tied(s, l)
    ensures Tied(Run(s, run), History(s.exts.Keys, l, run))
    decreases |run|
  {
    hide Tied, Step, LogStep, ExtKey;
    if run != [] {
      StepTied(s, l, run[0]);
      StepKeys(s, run[0]);
      assert RegisterStep(s.exts.Keys, run[0]) == Step(s, run[0]).exts.Keys;
      RunTied(Step(s, run[0]), LogStep(s.exts.Keys, l, run[0]), run[1..]);
    }
  }

  /** For every run: a record counts the calls it took part in that were answered, each once however
      often the messages are repeated, and its seconds are those of the answered calls that ended. */
  lemma CountersAreHistory(run: seq<Event>, key: string)
    requires key in Run(EMPTY, run).exts
    ensures var r := Run(EMPTY, run).exts[key]; var list := History({}, NO_CALLS, run).list;
      r.calls == Total(list, Answers(key)) && r.callSeconds == Total(list, TalkOf(key))
  {
    hide Run, History, Total, Answers, TalkOf;
    assert EMPTY.exts.Keys == {};
    RunTied(EMPTY, NO_CALLS, run);
  }
}
