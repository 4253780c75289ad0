/** From SIP messages to tracker events, and what one whole call adds to the counters however its
    messages are repeated (internal/app/server/extension.go:260-335). */
module ExtObserve {
  import opened Text
  import opened SipMessage
  import opened ExtTracker

  const MAX_DIGITS: int := 8

  predicate ExtensionChar(c: char) {
    '0' <= c <= '9' || c == '*' || c == '#'
  }

  /** extensionNumber. */
  function ExtensionNumber(user: string): (r: string)
    ensures r == "" || r == user
    ensures user != "" ==> (r == user <==> |user| <= 8 && forall c :: c in user ==> c in "0123456789*#")
  {
    assert forall c :: ExtensionChar(c) <==> c in "0123456789*#";
    assert forall c :: c in user <==> exists k :: 0 <= k < |user| && user[k] == c;
    if |user| <= MAX_DIGITS && forall k :: 0 <= k < |user| ==> ExtensionChar(user[k]) then user else ""
  }

  /** What the tracker reads of a message: its first line and four headers. */
  datatype Signal = Signal(start: StartLine, callID: string, from: string, to: string, cseq: string)

  /** sipNumber; user stands for the URI pattern and is empty when it does not match. */
  function SipNumber(user: string -> string, header: string): string {
    if header == "" then "" else ExtensionNumber(user(header))
  }

  function FirstNumber(user: string -> string, a: string, b: string): string {
    if SipNumber(user, a) != "" then SipNumber(user, a) else SipNumber(user, b)
  }

  function UpperChar(c: char): char {
    if 'a' <= c <= 'z' then (c as int - 32) as char else c
  }

  function Upper(s: string): string {
    seq(|s|, k requires 0 <= k < |s| => UpperChar(s[k]))
  }

  /** strconv.Atoi with its error dropped: 0 for what is no number, clamped for what is too long. */
  function StatusOf(code: string): int {
    var d := if code != "" && (code[0] == '-' || code[0] == '+') then code[1..] else code;
    if Atoi(code).Some? then Atoi(code).value
    else if d == "" || !AllDigits(d) then 0
    else if code[0] == '-' then MIN_INT
    else MAX_INT
  }

  /** A response whose CSeq names the method; INVITE is looked for first. */
  predicate ResponseTo(m: Signal, name: string) {
    m.start.Response? && Index(Upper(m.cseq), name) >= 0
  }

  /** observeSIP: the calls it makes on the tracker. A 200 reads the clock twice. */
  function Observe(user: string -> string, m: Signal, peer: string, now: int, later: int, evict: string): seq<Event> {
    var register := Register("sip", FirstNumber(user, m.to, m.from), peer, now);
    var pend := Pend("sip", m.callID, SipNumber(user, m.from), SipNumber(user, m.to), now, evict);
    if m.start.Request? then
      if m.start.verb == "REGISTER" then [register]
      else if m.start.verb == "INVITE" then [pend]
      else if m.start.verb == "ACK" then [Answer(m.callID, now)]
      else if m.start.verb == "BYE" || m.start.verb == "CANCEL" then [End(m.callID, now)]
      else []
    else if ResponseTo(m, "INVITE") then
      if StatusOf(m.start.status) == 200 then [pend, Answer(m.callID, later)]
      else if StatusOf(m.start.status) >= 300 then [End(m.callID, now)]
      else []
    else if ResponseTo(m, "REGISTER") then (if StatusOf(m.start.status) == 200 then [register] else [])
    else if ResponseTo(m, "BYE") then [End(m.callID, now)]
    else []
  }

  predicate Asks(m: Signal, verb: string) {
    m.start.Request? && m.start.verb == verb
  }

  /** A 200 response whose CSeq names the method. */
  predicate Accepted(m: Signal, name: string) {
    ResponseTo(m, name) && StatusOf(m.start.status) == 200
  }

  /** Which messages have which effect: REGISTER and its 200 register the number in To, or else in From;
      INVITE and its 200 open a call between the numbers in From and To; ACK and the 200 answer it; BYE,
      CANCEL, a response to BYE and a response from 300 to INVITE end it. */
  lemma ObserveMeaning(user: string -> string, m: Signal, peer: string, now: int, later: int, evict: string, e: Event)
    ensures e in Observe(user, m, peer, now, later, evict) <==>
      match e
      case Register(protocol, number, p, t) =>
        && (Asks(m, "REGISTER") || (Accepted(m, "REGISTER") && !ResponseTo(m, "INVITE")))
        && protocol == "sip" && p == peer && t == now
        && number == if SipNumber(user, m.to) != "" then SipNumber(user, m.to) else SipNumber(user, m.from)
      case Pend(protocol, k, caller, callee, t, x) =>
        && (Asks(m, "INVITE") || Accepted(m, "INVITE"))
        && protocol == "sip" && k == m.callID && t == now && x == evict
        && caller == SipNumber(user, m.from) && callee == SipNumber(user, m.to)
      case Answer(k, t) =>
        k == m.callID && ((Asks(m, "ACK") && t == now) || (Accepted(m, "INVITE") && t == later))
      case End(k, t) =>
        && k == m.callID && t == now
        && (|| Asks(m, "BYE")
            || Asks(m, "CANCEL")
            || (ResponseTo(m, "INVITE") && StatusOf(m.start.status) >= 300)
            || (ResponseTo(m, "BYE") && !ResponseTo(m, "INVITE") && !ResponseTo(m, "REGISTER")))
      case PeerBytes(_, _, _) => false
      case CallBytes(_, _, _) => false
  {
    hide StatusOf, SipNumber, Upper, Index;
    var o := Observe(user, m, peer, now, later, evict);
    assert |o| <= 2 && (e in o <==> (|o| > 0 && o[0] == e) || (|o| > 1 && o[1] == e));
  }

  // ---------------------------------------------------------------- one whole call

  /** Events of one call key before the call ends: openings and answers, however many. */
  predicate Setup(run: seq<Event>, k: string) {
    forall e :: e in run ==> (e.Pend? || e.Answer?) && e.callKey == k
  }

  function FirstAnswer(run: seq<Event>): Option<int> {
    if run == [] then None else if run[0].Answer? then Some(run[0].now) else FirstAnswer(run[1..])
  }

  lemma {:induction false} RunAppend(s: State, a: seq<Event>, b: seq<Event>)
    ensures Run(s, a + b) == Run(Run(s, a), b)
    decreases |a|
  {
    hide Step;
    if a == [] {
      assert a + b == b;
    } else {
      RunAppend(Step(s, a[0]), a[1..], b);
      assert (a + b)[1..] == a[1..] + b;
    }
  }

  /** Nothing more changes a call that is answered. */
  lemma {:induction false} Talking(s: State, run: seq<Event>, k: string)
    requires Setup(run, k) && k in s.calls && s.calls[k].started.Some?
    ensures Run(s, run) == s
    decreases |run|
  {
    if run != [] {
      assert run[0] in run;
      Talking(s, run[1..], k);
    }
  }

  /** A ringing call is answered once, by the first answer. */
  lemma {:induction false} Ringing(s: State, run: seq<Event>, k: string)
    requires Setup(run, k) && k in s.calls && s.calls[k].started.None?
    ensures Run(s, run) ==
      match FirstAnswer(run)
      case None => s
      case Some(t) =>
        s.(calls := s.calls[k := s.calls[k].(started := Some(t))], exts := Answered(s.exts, s.calls[k], t))
    decreases |run|
  {
    hide Answered;
    if run != [] {
      assert run[0] in run;
      if run[0].Answer? { Talking(Step(s, run[0]), run[1..], k); } else { Ringing(s, run[1..], k); }
    }
  }

  /** What an answered call adds to the record of a party. */
  function AfterCall(r: Record, p: Parties, key: string, answered: Option<int>, end: int): Record {
    if key !in p.keys || answered.None? then r
    else r.(calls := r.calls + 1, lastAnswer := answered, lastPeer := if key in p.peers then p.peers[key] else "",
            callSeconds := r.callSeconds + Seconds(end - answered.value))
  }

  /** What one whole call leaves: each registered party counts it once if it was answered, with the
      seconds from the first answer to the end, and nobody and nothing else changes. */
  ghost predicate CallCounted(s: State, s': State, p: Parties, answered: Option<int>, end: int) {
    s'.calls == s.calls && s'.peers == s.peers && s'.exts.Keys == s.exts.Keys
    && forall key :: key in s.exts ==> s'.exts[key] == AfterCall(s.exts[key], p, key, answered, end)
  }

  lemma CountedAfter(s: State, c: Call, p: Parties, answered: Option<int>, end: int, s': State)
    requires c.keys == p.keys && c.peers == p.peers
    requires s'.calls == s.calls && s'.peers == s.peers
    requires s'.exts == if answered.None? then Update(s.exts, c.keys, MoreTalk(0))
                        else
                          Update(Answered(s.exts, c, answered.value), c.keys,
                                 MoreTalk(Seconds(end - answered.value)))
    ensures CallCounted(s, s', p, answered, end)
  {
    hide Seconds;
  }

  function FirstCall(s: State, first: Event): Call
    requires first.Pend?
  {
    var p := PartiesOf(s.exts.Keys, first.protocol, first.caller, first.callee);
    Call(p.keys, p.peers, None, first.now)
  }

  /** The tracker once a full call table has dropped its oldest entry for a new one. */
  function Evicted(s: State, evict: string): State {
    if |s.calls| >= MAX_CALLS then s.(calls := s.calls - {evict}) else s
  }

  /** A full table drops another call than the one that is opened. */
  predicate Room(s: State, evict: string, k: string) {
    |s.calls| >= MAX_CALLS ==> evict != k
  }

  lemma FirstStep(s: State, first: Event)
    requires Shape(s) && first.Pend? && Opens(s.exts.Keys, s.calls.Keys, first) && Room(s, first.evict, first.callKey)
    ensures var base := Evicted(s, first.evict);
      Step(s, first) == base.(calls := base.calls[first.callKey := FirstCall(s, first)])
  {
    hide PartiesOf, RecordsShape, PeersShape, CallShape;
    var c := FirstCall(s, first);
    assert s.calls[first.callKey := c].Keys == s.calls.Keys + {first.callKey};
    assert s.calls[first.callKey := c] - {first.evict} == (s.calls - {first.evict})[first.callKey := c]
      || first.evict == first.callKey;
  }

  /** The end of a call that was opened from s and answered or not. */
  lemma LastStep(s: State, s2: State, k: string, c: Call, answered: Option<int>, end: int)
    requires k !in s.calls && c.started.None?
    requires s2.peers == s.peers && s2.calls == s.calls[k := c.(started := answered)]
    requires s2.exts == if answered.None? then s.exts else Answered(s.exts, c, answered.value)
    ensures CallCounted(s, Step(s2, End(k, end)), Parties(c.keys, c.peers), answered, end)
  {
    hide CallCounted, Seconds, Answered, Update, MoreTalk;
    var s3 := Step(s2, End(k, end));
    assert s3.calls == s.calls;
    CountedAfter(s, c, Parties(c.keys, c.peers), answered, end, s3);
  }

  lemma WholeCall(s: State, first: Event, run: seq<Event>, end: int)
    requires Shape(s) && first.Pend? && Opens(s.exts.Keys, s.calls.Keys, first) && Room(s, first.evict, first.callKey)
    requires Setup(run, first.callKey)
    ensures CallCounted(Evicted(s, first.evict), Run(s, [first] + run + [End(first.callKey, end)]),
                        PartiesOf(s.exts.Keys, first.protocol, first.caller, first.callee), FirstAnswer(run), end)
  {
    hide PartiesOf, FirstAnswer, Shape, Run, Answered, CallCounted, Setup, Step;
    var k := first.callKey;
    var base := Evicted(s, first.evict);
    var s1 := Step(s, first);
    FirstStep(s, first);
    Ringing(s1, run, k);
    var s2 := Run(s1, run);
    RunOne(s, first);
    RunOne(s2, End(k, end));
    RunAppend(s, [first], run);
    RunAppend(s, [first] + run, [End(k, end)]);
    LastStep(base, s2, k, FirstCall(s, first), FirstAnswer(run), end);
  }

  lemma RunOne(s: State, e: Event)
    ensures Run(s, [e]) == Step(s, e)
  {
    hide Step;
    assert [e][1..] == [];
  }

  // ---------------------------------------------------------------- the messages of a SIP call

  datatype Seen = Seen(m: Signal, now: int, later: int, evict: string)

  /** A message of a call before its BYE: INVITE, ACK, a provisional or 200 response to the INVITE, or
      a message the tracker does not look at, in any number and order. */
  predicate BeforeBye(m: Signal, callID: string) {
    m.callID == callID &&
    (if m.start.Request? then m.start.verb !in {"REGISTER", "BYE", "CANCEL"}
     else if ResponseTo(m, "INVITE") then StatusOf(m.start.status) < 300
     else !ResponseTo(m, "REGISTER") && !ResponseTo(m, "BYE"))
  }

  function ObserveAll(user: string -> string, peer: string, messages: seq<Seen>): seq<Event> {
    if messages == [] then []
    else
      var x := messages[0];
      Observe(user, x.m, peer, x.now, x.later, x.evict) + ObserveAll(user, peer, messages[1..])
  }

  lemma {:induction false} SetupOf(user: string -> string, peer: string, messages: seq<Seen>, callID: string)
    requires forall x :: x in messages ==> BeforeBye(x.m, callID)
    ensures Setup(ObserveAll(user, peer, messages), callID)
  {
    hide ResponseTo, StatusOf, SipNumber, FirstNumber;
    if messages != [] {
      assert messages[0] in messages;
      SetupOf(user, peer, messages[1..], callID);
    }
  }

  predicate FirstInvite(s: State, user: string -> string, x: Seen) {
    x.m.start.Request? && x.m.start.verb == "INVITE"
    && Opens(s.exts.Keys, s.calls.Keys,
             Pend("sip", x.m.callID, SipNumber(user, x.m.from), SipNumber(user, x.m.to), x.now, x.evict))
  }

  predicate Bye(m: Signal, callID: string) {
    m.start.Request? && m.start.verb == "BYE" && m.callID == callID
  }

  /** A SIP call with retransmissions in any order counts once for each registered party, whatever call a
      full table drops for it. */
  lemma SipCallCountsOnce(s: State, user: string -> string, peer: string, invite: Seen, more: seq<Seen>, bye: Seen)
    requires Shape(s) && FirstInvite(s, user, invite) && Room(s, invite.evict, invite.m.callID)
    requires forall x :: x in more ==> BeforeBye(x.m, invite.m.callID)
    requires Bye(bye.m, invite.m.callID)
    ensures CallCounted(Evicted(s, invite.evict), Run(s, ObserveAll(user, peer, [invite] + more + [bye])),
                        PartiesOf(s.exts.Keys, "sip", SipNumber(user, invite.m.from), SipNumber(user, invite.m.to)),
                        FirstAnswer(ObserveAll(user, peer, more)), bye.now)
  {
    hide PartiesOf, SipNumber, Shape, Setup, Opens, CallCounted, FirstAnswer, BeforeBye, Run;
    var caller, callee := SipNumber(user, invite.m.from), SipNumber(user, invite.m.to);
    var first := Pend("sip", invite.m.callID, caller, callee, invite.now, invite.evict);
    var run := ObserveAll(user, peer, more);
    SetupOf(user, peer, more, invite.m.callID);
    ObserveOne(user, peer, invite);
    ObserveOne(user, peer, bye);
    ObserveAppend(user, peer, [invite], more);
    ObserveAppend(user, peer, [invite] + more, [bye]);
    WholeCall(s, first, run, bye.now);
  }

  lemma ObserveOne(user: string -> string, peer: string, x: Seen)
    ensures ObserveAll(user, peer, [x]) == Observe(user, x.m, peer, x.now, x.later, x.evict)
  {
    hide Observe;
    assert [x][1..] == [];
  }

  lemma {:induction false} ObserveAppend(user: string -> string, peer: string, a: seq<Seen>, b: seq<Seen>)
    ensures ObserveAll(user, peer, a + b) == ObserveAll(user, peer, a) + ObserveAll(user, peer, b)
  {
    hide Observe;
    if a == [] {
      assert a + b == b;
    } else {
      ObserveAppend(user, peer, a[1..], b);
      assert (a + b)[1..] == a[1..] + b && (a + b)[0] == a[0];
      var x := a[0];
      Regroup(Observe(user, x.m, peer, x.now, x.later, x.evict), ObserveAll(user, peer, a[1..]),
              ObserveAll(user, peer, b));
    }
  }

  // ---------------------------------------------------------------- IAX

  datatype IaxCommand = RegReq | New | Accept | Hangup | Reject | OtherCommand

  /** observeIAX on a decoded control frame: the call key is the peer's address, and a NEW ends what was
      going on there. */
  function ObserveIax(command: IaxCommand, calling: string, called: string, peer: string,
                      now: int, later: int, evict: string): seq<Event> {
    match command
    case RegReq => [Register("iax", ExtensionNumber(called), peer, now)]
    case New =>
      [End(peer, now), Pend("iax", peer, ExtensionNumber(calling), ExtensionNumber(called), later, evict)]
    case Accept => [Answer(peer, now)]
    case Hangup => [End(peer, now)]
    case Reject => [End(peer, now)]
    case OtherCommand => []
  }

  function Accepts(peer: string, times: seq<int>): seq<Event> {
    if times == [] then [] else ObserveIax(Accept, "", "", peer, times[0], times[0], "") + Accepts(peer, times[1..])
  }

  lemma {:induction false} AcceptsSetup(peer: string, times: seq<int>)
    ensures Setup(Accepts(peer, times), peer)
    ensures FirstAnswer(Accepts(peer, times)) == if times == [] then None else Some(times[0])
  {
    if times != [] { AcceptsSetup(peer, times[1..]); }
  }

  /** An IAX call, accepted any number of times and ended by HANGUP, REJECT or the next NEW from the same
      address, counts once for each registered party, with the seconds from the first ACCEPT. */
  lemma IaxCallCountsOnce(s: State, calling: string, called: string, peer: string, now: int, later: int, evict: string,
                          accepts: seq<int>, last: IaxCommand, end: int)
    requires Shape(s) && Room(s, evict, peer) && (last == Hangup || last == Reject || last == New)
    requires Opens(s.exts.Keys, s.calls.Keys,
                   Pend("iax", peer, ExtensionNumber(calling), ExtensionNumber(called), later, evict))
    ensures ObserveIax(last, calling, called, peer, end, end, evict)[0] == End(peer, end)
    ensures CallCounted(Evicted(s, evict), Run(s, ObserveIax(New, calling, called, peer, now, later, evict)
                                  + Accepts(peer, accepts) + [End(peer, end)]),
                        PartiesOf(s.exts.Keys, "iax", ExtensionNumber(calling), ExtensionNumber(called)),
                        if accepts == [] then None else Some(accepts[0]), end)
  {
    hide PartiesOf, ExtensionNumber, Shape, Setup, CallCounted, FirstAnswer, Run, Accepts;
    var first := Pend("iax", peer, ExtensionNumber(calling), ExtensionNumber(called), later, evict);
    var run := Accepts(peer, accepts);
    AcceptsSetup(peer, accepts);
    assert Step(s, End(peer, now)) == s;
    RunOne(s, End(peer, now));
    RunAppend(s, [End(peer, now)], [first] + run + [End(peer, end)]);
    assert ObserveIax(New, calling, called, peer, now, later, evict) + run + [End(peer, end)]
      == [End(peer, now)] + ([first] + run + [End(peer, end)]);
    WholeCall(s, first, run, end);
  }
}
