/** Per-extension call statistics (internal/app/server/extension.go:28-258). Times are nanoseconds;
    counters are unbounded. */
module ExtTracker {
  import opened Text

  const MAX_PEERS: int := 4096
  const MAX_CALLS: int := 1024
  const SECOND: int := 1_000_000_000

  datatype Record = Record(
    number: string, protocol: string, peer: string,
    lastRegister: Option<int>, lastAnswer: Option<int>, lastPeer: string,
    calls: nat, callSeconds: nat, bytesIn: nat, bytesOut: nat)

  /** started is None until the call is answered. */
  datatype Call = Call(keys: seq<string>, peers: map<string, string>, started: Option<int>, seen: int)

  type Records = map<string, Record>

  datatype State = State(exts: Records, peers: map<string, string>, calls: map<string, Call>)

  /** The calls the signalling and media paths make on the tracker. evict names the entry the call
      table drops when it is over its limit; ties between equally old ones are the map's choice. */
  datatype Event =
    | Register(protocol: string, number: string, peer: string, now: int)
    | Pend(protocol: string, callKey: string, caller: string, callee: string, now: int, evict: string)
    | Answer(callKey: string, now: int)
    | End(callKey: string, now: int)
    | PeerBytes(peer: string, inbound: bool, n: int)
    | CallBytes(callID: string, inbound: bool, n: int)

  const EMPTY: State := State(map[], map[], map[])

  function ExtKey(protocol: string, number: string): string {
    protocol + "/" + number
  }

  // ---------------------------------------------------------------- registrations

  function Touch(exts: Records, key: string, protocol: string, number: string, peer: string): Records {
    var r := if key in exts then exts[key] else Record(number, protocol, "", None, None, "", 0, 0, 0, 0);
    exts[key := if peer != "" then r.(peer := peer) else r]
  }

  /** The address index starts over when it is full. */
  function Bind(peers: map<string, string>, peer: string, key: string): map<string, string> {
    if peer == "" then peers else (if |peers| >= MAX_PEERS then map[] else peers)[peer := key]
  }

  function Stamp(exts: Records, key: string, now: int): Records
    requires key in exts
  {
    exts[key := exts[key].(lastRegister := Some(now))]
  }

  function MarkRegister(s: State, protocol: string, number: string, peer: string, now: int): State {
    if number == "" then s
    else
      var key := ExtKey(protocol, number);
      s.(exts := Stamp(Touch(s.exts, key, protocol, number, peer), key, now), peers := Bind(s.peers, peer, key))
  }

  // ---------------------------------------------------------------- calls

  datatype Parties = Parties(keys: seq<string>, peers: map<string, string>)

  /** Only numbers that registered take part; one that calls itself takes part once. */
  function AddParty(registered: set<string>, protocol: string, self: string, other: string, p: Parties): Parties {
    var key := ExtKey(protocol, self);
    if self == "" || key !in registered || key in p.keys then p
    else Parties(p.keys + [key], p.peers[key := other])
  }

  function PartiesOf(registered: set<string>, protocol: string, caller: string, callee: string): Parties {
    var p := AddParty(registered, protocol, caller, callee, Parties([], map[]));
    AddParty(registered, protocol, callee, caller, p)
  }

  /** pendCall opens a call: a new key, and someone registered in it. */
  predicate Opens(registered: set<string>, calls: set<string>, e: Event) {
    e.Pend? && e.callKey != "" && (e.caller != "" || e.callee != "") && e.callKey !in calls
    && PartiesOf(registered, e.protocol, e.caller, e.callee).keys != []
  }

  function Opened(registered: set<string>, calls: map<string, Call>, e: Event): map<string, Call>
    requires e.Pend?
  {
    var p := PartiesOf(registered, e.protocol, e.caller, e.callee);
    calls[e.callKey := Call(p.keys, p.peers, None, e.now)]
  }

  predicate Oldest(calls: map<string, Call>, k: string) {
    k in calls && forall j :: j in calls ==> calls[k].seen <= calls[j].seen
  }

  function Prune(calls: map<string, Call>, evict: string): map<string, Call> {
    if |calls| > MAX_CALLS then calls - {evict} else calls
  }

  /** The event can happen: what it says was evicted is an oldest entry. */
  predicate Enabled(s: State, e: Event) {
    Opens(s.exts.Keys, s.calls.Keys, e) ==> EvictsOldest(Opened(s.exts.Keys, s.calls, e), e.evict)
  }

  predicate EvictsOldest(calls: map<string, Call>, evict: string) {
    |calls| > MAX_CALLS ==> Oldest(calls, evict)
  }

  /** The same change to the records of all the keys. */
  function Update(exts: Records, keys: seq<string>, change: Record -> Record): Records {
    map k | k in exts :: if k in keys then change(exts[k]) else exts[k]
  }

  function CountAnswer(c: Call, now: int, k: string, r: Record): Record {
    r.(calls := r.calls + 1, lastAnswer := Some(now), lastPeer := if k in c.peers then c.peers[k] else "")
  }

  function Answered(exts: Records, c: Call, now: int): Records {
    map k | k in exts :: if k in c.keys then CountAnswer(c, now, k, exts[k]) else exts[k]
  }

  /** Whole seconds, none for an interval that does not advance. */
  function Seconds(ns: int): (secs: nat)
    ensures ns > 0 ==> secs * 1_000_000_000 <= ns < (secs + 1) * 1_000_000_000
    ensures ns <= 0 ==> secs == 0
  {
    if ns <= 0 then 0 else ns / SECOND
  }

  function MoreTalk(secs: nat): Record -> Record {
    (r: Record) => r.(callSeconds := r.callSeconds + secs)
  }

  function MoreBytes(inbound: bool, n: nat): Record -> Record {
    (r: Record) => if inbound then r.(bytesIn := r.bytesIn + n) else r.(bytesOut := r.bytesOut + n)
  }

  function Step(s: State, e: Event): State {
    match e
    case Register(protocol, number, peer, now) => MarkRegister(s, protocol, number, peer, now)
    case Pend(_, _, _, _, _, evict) =>
      if Opens(s.exts.Keys, s.calls.Keys, e) then s.(calls := Prune(Opened(s.exts.Keys, s.calls, e), evict)) else s
    case Answer(k, now) =>
      if k !in s.calls || s.calls[k].started.Some? then s
      else s.(calls := s.calls[k := s.calls[k].(started := Some(now))], exts := Answered(s.exts, s.calls[k], now))
    case End(k, now) =>
      if k !in s.calls then s
      else
        var c := s.calls[k];
        var secs := if c.started.Some? then Seconds(now - c.started.value) else 0;
        s.(calls := s.calls - {k},
           exts := Update(s.exts, c.keys, MoreTalk(secs)))
    case PeerBytes(peer, inbound, n) =>
      if n <= 0 || peer == "" || peer !in s.peers then s
      else s.(exts := Update(s.exts, [s.peers[peer]], MoreBytes(inbound, n)))
    case CallBytes(k, inbound, n) =>
      if n <= 0 || k == "" || k !in s.calls then s
      else s.(exts := Update(s.exts, s.calls[k].keys, MoreBytes(inbound, n)))
  }

  predicate ValidRun(s: State, run: seq<Event>)
    decreases |run|
  {
    run == [] || (Enabled(s, run[0]) && ValidRun(Step(s, run[0]), run[1..]))
  }

  function Run(s: State, run: seq<Event>): State
    decreases |run|
  {
    if run == [] then s else Run(Step(s, run[0]), run[1..])
  }

  // ---------------------------------------------------------------- the shape of every reachable state

  /** One or two different registered parties, and the other side's number for exactly those. */
  predicate CallShape(c: Call, registered: set<string>) {
    && 1 <= |c.keys| <= 2
    && (forall k :: k in c.keys ==> k in registered)
    && (|c.keys| == 2 ==> c.keys[0] != c.keys[1])
    && c.peers.Keys == (set k | k in c.keys)
  }

  predicate RecordsShape(exts: Records) {
    forall k :: k in exts ==> k == ExtKey(exts[k].protocol, exts[k].number) && exts[k].number != ""
  }

  predicate PeersShape(peers: map<string, string>, registered: set<string>) {
    |peers| <= MAX_PEERS && forall p :: p in peers ==> p != "" && peers[p] in registered
  }

  predicate CallsShape(calls: map<string, Call>, registered: set<string>) {
    |calls| <= MAX_CALLS && forall k :: k in calls ==> k != "" && CallShape(calls[k], registered)
  }

  predicate Shape(s: State) {
    RecordsShape(s.exts) && PeersShape(s.peers, s.exts.Keys) && CallsShape(s.calls, s.exts.Keys)
  }

  lemma PartiesShape(registered: set<string>, protocol: string, caller: string, callee: string)
    ensures var p := PartiesOf(registered, protocol, caller, callee);
      p.keys != [] ==> forall now :: CallShape(Call(p.keys, p.peers, None, now), registered)
  {
  }

  lemma PruneShape(calls: map<string, Call>, evict: string, registered: set<string>)
    requires |calls| <= MAX_CALLS + 1 && (|calls| > MAX_CALLS ==> evict in calls)
    requires forall k :: k in calls ==> k != "" && CallShape(calls[k], registered)
    ensures CallsShape(Prune(calls, evict), registered)
  {
    hide CallShape;
    if |calls| > MAX_CALLS { assert (calls - {evict}).Keys == calls.Keys - {evict}; }
  }

  lemma ExtKeyInjective(protocol: string, m: string, n: string)
    requires ExtKey(protocol, m) == ExtKey(protocol, n)
    ensures m == n
  {
    var k := ExtKey(protocol, m);
    assert m == k[|protocol| + 1..] && n == k[|protocol| + 1..];
  }

  /** Who takes part in a call: the registered ones of caller and callee, each with the other's number,
      registered or not. */
  lemma PartiesMeaning(registered: set<string>, protocol: string, caller: string, callee: string)
    ensures var p := PartiesOf(registered, protocol, caller, callee);
      var a, b := ExtKey(protocol, caller), ExtKey(protocol, callee);
      && (forall k :: k in p.keys <==>
            k in registered && ((k == a && caller != "") || (k == b && callee != "")))
      && (a in p.keys && caller != "" ==> a in p.peers && p.peers[a] == callee)
      && (b in p.keys && callee != "" && callee != caller ==> b in p.peers && p.peers[b] == caller)
  {
    hide ExtKey;
    if ExtKey(protocol, caller) == ExtKey(protocol, callee) { ExtKeyInjective(protocol, caller, callee); }
  }

  /** What a registration leaves: its record stamped, with its counters as they were or at zero, its
      address bound, and every other record as it was; the other addresses stay bound while fewer than
      4096 are, and are forgotten when the index is full. Without a number nothing happens. */
  lemma RegisterMeaning(s: State, e: Event)
    requires e.Register?
    ensures e.number == "" ==> Step(s, e) == s
    ensures e.number != "" ==> var s' := Step(s, e); var key := ExtKey(e.protocol, e.number);
      && key in s'.exts && s'.calls == s.calls
      && s'.exts[key] ==
           (if key in s.exts
            then s.exts[key].(lastRegister := Some(e.now), peer := if e.peer != "" then e.peer else s.exts[key].peer)
            else Record(e.number, e.protocol, e.peer, Some(e.now), None, "", 0, 0, 0, 0))
      && (forall k :: k != key ==> (k in s'.exts <==> k in s.exts))
      && (forall k :: k in s.exts && k != key ==> s'.exts[k] == s.exts[k])
      && BindMeans(s.peers, s'.peers, e.peer, key)
  {
    hide ExtKey, BindMeans;
    if e.number != "" { BindIs(s.peers, e.peer, ExtKey(e.protocol, e.number)); }
    hide Bind;
  }

  lemma BindIs(peers: map<string, string>, peer: string, key: string)
    ensures BindMeans(peers, Bind(peers, peer, key), peer, key)
  {
  }

  ghost predicate BindMeans(peers: map<string, string>, peers': map<string, string>, peer: string, key: string) {
    if peer == "" then peers' == peers
    else
      && peer in peers' && peers'[peer] == key
      && forall p :: p != peer ==>
           (p in peers' <==> p in peers && |peers| < 4096) && (p in peers' ==> peers'[p] == peers[p])
  }

  /** Someone registered takes part under a number. */
  predicate TakesPart(registered: set<string>, protocol: string, number: string) {
    number != "" && ExtKey(protocol, number) in registered
  }

  /** A call is opened when its key is new and its caller or callee is registered. */
  lemma OpensExactly(registered: set<string>, calls: set<string>, e: Event)
    requires e.Pend?
    ensures Opens(registered, calls, e) <==>
      && e.callKey != "" && e.callKey !in calls
      && (TakesPart(registered, e.protocol, e.caller) || TakesPart(registered, e.protocol, e.callee))
  {
    hide ExtKey;
    PartiesMeaning(registered, e.protocol, e.caller, e.callee);
    var keys := PartiesOf(registered, e.protocol, e.caller, e.callee).keys;
    hide PartiesOf;
    if keys != [] { assert keys[0] in keys; }
  }

  /** Someone registered, and only they, are in the call; nobody has answered it. */
  ghost predicate IsRinging(c: Call, registered: set<string>, e: Event)
    requires e.Pend?
  {
    && c.started == None && c.seen == e.now
    && forall k :: k in c.keys <==>
         (TakesPart(registered, e.protocol, e.caller) && k == ExtKey(e.protocol, e.caller))
         || (TakesPart(registered, e.protocol, e.callee) && k == ExtKey(e.protocol, e.callee))
  }

  lemma OpenedRings(registered: set<string>, calls: map<string, Call>, e: Event)
    requires e.Pend?
    ensures IsRinging(Opened(registered, calls, e)[e.callKey], registered, e)
  {
    hide ExtKey;
    PartiesMeaning(registered, e.protocol, e.caller, e.callee);
    hide PartiesOf;
  }

  /** The call is there with its registered parties; every other call is as it was, but for an oldest one
      that goes when the table is full. */
  ghost predicate OneMore(calls: map<string, Call>, calls': map<string, Call>, registered: set<string>, e: Event,
                          full: bool)
    requires e.Pend?
  {
    && (forall k :: k in calls' <==> (k in calls || k == e.callKey) && (full ==> k != e.evict))
    && (forall k :: k in calls' && k in calls ==> calls'[k] == calls[k])
    && (e.callKey in calls' ==> IsRinging(calls'[e.callKey], registered, e))
    && (full ==> e.evict == e.callKey || IsOldest(calls, e.evict))
  }

  ghost predicate IsOldest(calls: map<string, Call>, key: string) {
    key in calls && forall k :: k in calls ==> calls[key].seen <= calls[k].seen
  }

  lemma OneLarger(calls: map<string, Call>, o: map<string, Call>, key: string)
    requires key !in calls && o.Keys == calls.Keys + {key}
    ensures |o| == |calls| + 1
  {
    assert |o| == |o.Keys| && |calls| == |calls.Keys|;
  }

  lemma OldestOf(calls: map<string, Call>, o: map<string, Call>, key: string, evict: string)
    requires Oldest(o, evict) && o.Keys == calls.Keys + {key} && forall k :: k in calls ==> o[k] == calls[k]
    ensures evict == key || IsOldest(calls, evict)
  {
    if evict != key {
      forall k | k in calls ensures calls[evict].seen <= calls[k].seen { assert k in o; }
    }
  }

  lemma PrunedOpened(calls: map<string, Call>, o: map<string, Call>, registered: set<string>, e: Event, full: bool)
    requires e.Pend? && e.callKey !in calls && (full ==> Oldest(o, e.evict))
    requires o.Keys == calls.Keys + {e.callKey} && forall k :: k in calls ==> o[k] == calls[k]
    requires IsRinging(o[e.callKey], registered, e)
    ensures OneMore(calls, if full then o - {e.evict} else o, registered, e, full)
  {
    hide IsRinging, IsOldest, Oldest;
    if full { OldestOf(calls, o, e.callKey, e.evict); }
  }

  lemma PendStep(s: State, e: Event)
    requires e.Pend? && Enabled(s, e) && Opens(s.exts.Keys, s.calls.Keys, e)
    ensures var o := Opened(s.exts.Keys, s.calls, e);
      && Step(s, e) == s.(calls := Prune(o, e.evict)) && EvictsOldest(o, e.evict) && e.callKey !in s.calls
      && o.Keys == s.calls.Keys + {e.callKey} && forall k :: k in s.calls ==> o[k] == s.calls[k]
  {
    hide PartiesOf, Prune, EvictsOldest;
  }

  /** What opening leaves; a table of 1024 calls is full. */
  lemma PendMeaning(s: State, e: Event)
    requires e.Pend? && Shape(s) && Enabled(s, e) && Opens(s.exts.Keys, s.calls.Keys, e)
    ensures var s' := Step(s, e);
      && s'.exts == s.exts && s'.peers == s.peers
      && OneMore(s.calls, s'.calls, s.exts.Keys, e, |s.calls| == 1024)
  {
    hide IsRinging, PartiesOf, RecordsShape, PeersShape, CallShape, OneMore, Oldest, Step, Opened, Opens, Enabled;
    var o := Opened(s.exts.Keys, s.calls, e);
    PendStep(s, e);
    OpenedRings(s.exts.Keys, s.calls, e);
    OneLarger(s.calls, o, e.callKey);
    PrunedOpened(s.calls, o, s.exts.Keys, e, |s.calls| == 1024);
  }

  lemma PendShape(calls: map<string, Call>, e: Event, registered: set<string>)
    requires CallsShape(calls, registered) && e.Pend? && Opens(registered, calls.Keys, e)
    requires EvictsOldest(Opened(registered, calls, e), e.evict)
    ensures CallsShape(Prune(Opened(registered, calls, e), e.evict), registered)
  {
    hide PartiesOf, CallShape, Prune;
    var o := Opened(registered, calls, e);
    PartiesShape(registered, e.protocol, e.caller, e.callee);
    assert o.Keys == calls.Keys + {e.callKey};
    PruneShape(o, e.evict, registered);
  }

  lemma BindShape(peers: map<string, string>, peer: string, key: string, registered: set<string>)
    requires PeersShape(peers, registered)
    ensures PeersShape(Bind(peers, peer, key), registered + {key})
  {
    if peer != "" {
      var base := if |peers| >= MAX_PEERS then map[] else peers;
      assert base[peer := key].Keys == base.Keys + {peer};
    }
  }

  lemma TouchShape(exts: Records, protocol: string, number: string, peer: string, now: int)
    requires RecordsShape(exts) && number != ""
    ensures var key := ExtKey(protocol, number); var exts' := Stamp(Touch(exts, key, protocol, number, peer), key, now);
      RecordsShape(exts') && exts'.Keys == exts.Keys + {key}
  {
    hide ExtKey;
  }

  lemma RegisterShape(s: State, e: Event)
    requires Shape(s) && e.Register?
    ensures Shape(Step(s, e))
  {
    hide CallShape, Bind, ExtKey, Touch, Stamp, PeersShape, RecordsShape;
    var key := ExtKey(e.protocol, e.number);
    if e.number != "" {
      var s' := Step(s, e);
      TouchShape(s.exts, e.protocol, e.number, e.peer, e.now);
      BindShape(s.peers, e.peer, key, s.exts.Keys);
      ShapeGrows(s.calls, s.exts.Keys, s'.exts.Keys);
    }
  }

  /** Updating records moves nothing between numbers. */
  lemma UpdateShape(exts: Records, exts': Records)
    requires RecordsShape(exts) && exts'.Keys == exts.Keys
    requires forall k :: k in exts ==>
      exts'[k].protocol == exts[k].protocol && exts'[k].number == exts[k].number
    ensures RecordsShape(exts')
  {
    hide ExtKey;
  }

  lemma AnswerShape(s: State, e: Event)
    requires Shape(s) && e.Answer?
    ensures Shape(Step(s, e))
  {
    hide CallShape, ExtKey, PeersShape, RecordsShape;
    var s' := Step(s, e);
    UpdateShape(s.exts, s'.exts);
    assert s'.exts.Keys == s.exts.Keys;
    if e.callKey in s.calls {
      ShapeStarted(s.calls[e.callKey], e.now, s.exts.Keys);
      assert s'.calls.Keys == s.calls.Keys;
    }
  }

  lemma DropShape(calls: map<string, Call>, k: string, registered: set<string>)
    requires CallsShape(calls, registered)
    ensures CallsShape(calls - {k}, registered)
  {
    hide CallShape;
    assert (calls - {k}).Keys == calls.Keys - {k};
  }

  lemma OtherShape(s: State, e: Event)
    requires Shape(s) && (e.End? || e.PeerBytes? || e.CallBytes?)
    ensures Shape(Step(s, e))
  {
    hide CallsShape, PeersShape, RecordsShape, Seconds;
    var s' := Step(s, e);
    assert s'.exts.Keys == s.exts.Keys;
    UpdateShape(s.exts, s'.exts);
    if e.End? { DropShape(s.calls, e.callKey, s.exts.Keys); }
  }

  lemma StepShape(s: State, e: Event)
    requires Shape(s) && Enabled(s, e)
    ensures Shape(Step(s, e))
  {
    hide RecordsShape, PeersShape, CallsShape, Prune, Opened, EvictsOldest, Opens, MarkRegister;
    match e
    case Register(_, _, _, _) => RegisterShape(s, e);
    case Pend(_, _, _, _, _, _) =>
      if Opens(s.exts.Keys, s.calls.Keys, e) { PendShape(s.calls, e, s.exts.Keys); }
    case Answer(_, _) => AnswerShape(s, e);
    case End(_, _) => OtherShape(s, e);
    case PeerBytes(_, _, _) => OtherShape(s, e);
    case CallBytes(_, _, _) => OtherShape(s, e);
  }

  lemma ShapeStarted(c: Call, now: int, registered: set<string>)
    requires CallShape(c, registered)
    ensures CallShape(c.(started := Some(now)), registered)
  {
  }

  lemma ShapeGrows(calls: map<string, Call>, a: set<string>, b: set<string>)
    requires a <= b
    ensures forall k :: k in calls && CallShape(calls[k], a) ==> CallShape(calls[k], b)
  {
  }

  /** The numbers a run registers. */
  function RegisteredIn(run: seq<Event>): set<string> {
    if run == [] then {}
    else (if run[0].Register? && run[0].number != "" then {ExtKey(run[0].protocol, run[0].number)} else {})
         + RegisteredIn(run[1..])
  }

  lemma StepKeys(s: State, e: Event)
    ensures Step(s, e).exts.Keys ==
      s.exts.Keys + (if e.Register? && e.number != "" then {ExtKey(e.protocol, e.number)} else {})
  {
    hide Opens, Enabled, Oldest;
  }

  /** In every reachable state the shape holds and the records are exactly those of the numbers that
      ever registered. */
  lemma {:induction false} RunShape(s: State, run: seq<Event>)
    requires Shape(s) && ValidRun(s, run)
    ensures Shape(Run(s, run)) && Run(s, run).exts.Keys == s.exts.Keys + RegisteredIn(run)
    decreases |run|
  {
    hide Shape, Step, Enabled, ExtKey;
    if run != [] {
      StepShape(s, run[0]);
      StepKeys(s, run[0]);
      RunShape(Step(s, run[0]), run[1..]);
    }
  }
}
