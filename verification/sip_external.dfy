/** Rewriting an outgoing message with the relays of its session: what the peer is told is what the
    session relays (internal/app/server/proxy.go:292-318, internal/app/server/control.go:333-390). */
module SipExternal {
  import opened Text
  import opened SipMessage
  import opened Sdp
  import opened SdpAgreement
  import opened SdpMeaning
  import opened SipRewrite
  import opened SipFraming
  import opened SipObject
  import opened SipRelease
  import B = SipBridge
  import L = RtpLifecycle
  import R = RtpSession

  /** relays names the mapped port of every media index of the call that has one, and nothing else. */
  ghost predicate Allocated(m: map<string, R.RTPRelay>, callID: string, n: nat, relays: map<int, int>) {
    if callID == "" then relays == map[]
    else
      && (forall i: int :: i in relays <==> 0 <= i < n && L.Key(callID, i) in m)
      && (forall i: int :: i in relays ==> relays[i] == m[L.Key(callID, i)].publicPort)
  }

  /** A rewriting of data whose relays are those of the call. */
  ghost predicate RewritesWith(d: B.Direction, data: string, out: string, ch: Choices, callID: string,
                               m: map<string, R.RTPRelay>) {
    B.IsRewriting(d, data, out, ch) && Allocated(m, callID, |ExtractBody(Parse(data).body)|, ch.relays)
      && (ExtractBody(Parse(data).body) != [] ==> HeaderChoice(Parse(data).hdrs, "Call-ID", callID))
  }

  /** The relays that stay mapped when a BYE has released those of its call. */
  ghost function AfterBye(d: B.Direction, data: string, byeID: string, m: map<string, R.RTPRelay>)
    : map<string, R.RTPRelay>
  {
    R.Without(m, if IsBye(d.rewriteSDP, data) && byeID != "" then R.OfCall(m, byeID) else {})
  }

  /** The ports in use once it has. */
  ghost function UsedAfterBye(d: B.Direction, data: string, byeID: string, m: map<string, R.RTPRelay>,
                              was: set<string>, used: set<int>): set<int> {
    used - R.PortsOf(m, (if IsBye(d.rewriteSDP, data) && byeID != "" then R.OfCall(m, byeID) else {}) - was)
  }

  /** From m1 and used1 the entries of data got what relays there are for them; without a Call-ID or
      entries nothing changes. */
  ghost predicate RelaysGiven(data: string, opens: int -> bool, callID: string, ranges: seq<R.RtpPool.PortRange>,
                              m1: map<string, R.RTPRelay>, used1: set<int>, m2: map<string, R.RTPRelay>,
                              used2: set<int>) {
    var entries := ExtractBody(Parse(data).body);
    if callID == "" || entries == [] then m2 == m1 && used2 == used1
    else exists result :: R.Served(ranges, opens, m1, used1, m2, used2, callID, entries, result)
  }

  /** rewriteSIPForExternal: a BYE first gives the call's relays back; then every media entry gets its
      relay, and the message is rewritten with those. */
  method RewriteSIPForExternal(d: B.Direction, data: string, session: R.ClientSession, opens: int -> bool)
    returns (out: string, ghost byeID: string, ghost callID: string, ghost ch: Choices)
    requires d.fromInternal && session.Valid()
    modifies session`rtpRelays, session`requests, session.pool, R.Values(session.rtpRelays)`stopped
    ensures session.Valid() && B.Sent(d, data, out)
    ensures forall r :: r in R.Values(session.rtpRelays) && r !in R.Values(old(session.rtpRelays)) ==> fresh(r)
    ensures B.Rewrites(d, data) ==> RewritesWith(d, data, out, ch, callID, session.rtpRelays)
    ensures B.Rewrites(d, data) ==>
      RelaysGiven(data, opens, callID, session.pool.ranges, AfterBye(d, data, byeID, old(session.rtpRelays)),
                  UsedAfterBye(d, data, byeID, old(session.rtpRelays), old(R.StoppedKeys(session.rtpRelays)),
                               old(session.pool.used)),
                  session.rtpRelays, session.pool.used)
    ensures !B.Rewrites(d, data) ==>
      out == data && session.rtpRelays == old(session.rtpRelays) && session.pool.used == old(session.pool.used)
  {
    byeID, callID := "", "";
    ch := Choices(map[], "", "", "", "");
    if !d.rewriteSDP || !IsSIP(data) {
      return data, byeID, callID, ch;
    }
    hide IsSIP, Parse, L.Key, Allocated, B.IsRewriting, R.Served, RelaysGiven, R.OfCall, R.Without, R.PortsOf;
    hide R.StoppedKeys;
    ghost var m0 := session.rtpRelays;
    var released := ReleaseRelayOnBye(d.rewriteSDP, data, session);
    byeID := released;
    ghost var m1, used1 := session.rtpRelays, session.pool.used;
    FewerValues(m0, m1);
    var msg := new Message(data);
    var entries := msg.ExtractMediaEntries();
    var relays: map<int, int>;
    callID, relays := AllocateFor(msg, data, entries, session, opens);
    AllocatedInRange(session.rtpRelays, callID, |entries|, relays, session.pool);
    out, ch := B.RewriteMessage(d, data, msg, relays);
  }

  lemma FewerValues(m0: map<string, R.RTPRelay>, m1: map<string, R.RTPRelay>)
    requires exists gone :: m1 == R.Without(m0, gone)
    ensures R.Values(m1) <= R.Values(m0)
  {
  }

  /** The relays for a message's media entries; without entries none are asked for. */
  method AllocateFor(msg: Message, ghost data: string, entries: seq<MediaEntry>, session: R.ClientSession,
                     opens: int -> bool)
    returns (ghost callID: string, relays: map<int, int>)
    requires session.Valid() && msg.Value() == Parse(data) && entries == ExtractBody(Parse(data).body)
    modifies session`rtpRelays, session`requests, session.pool
    ensures session.Valid() && Allocated(session.rtpRelays, callID, |entries|, relays)
    ensures RelaysGiven(data, opens, callID, session.pool.ranges, old(session.rtpRelays), old(session.pool.used),
                        session.rtpRelays, session.pool.used)
    ensures forall r :: r in R.Values(session.rtpRelays) && r !in R.Values(old(session.rtpRelays)) ==> fresh(r)
    ensures entries != [] ==> HeaderChoice(msg.Value().hdrs, "Call-ID", callID)
  {
    hide HeaderChoice, L.Key, R.Served, Allocated, Parse;
    callID, relays := "", map[];
    ghost var m := session.rtpRelays;
    if |entries| == 0 {
      NoneAllocated(session.rtpRelays);
      return;
    }
    var id := msg.GetHeader("Call-ID");
    callID := id;
    var result := session.GetOrCreateRTPRelays(id, entries, opens);
    relays := result;
    NamedAllocated(session.pool.ranges, opens, m, old(session.pool.used), session.rtpRelays, session.pool.used, id,
                   entries, result);
    forall r | r in R.Values(session.rtpRelays) && r !in R.Values(m) ensures fresh(r) {
      assert r in R.NewOnes(m, session.rtpRelays);
    }
  }

  lemma NoneAllocated(m: map<string, R.RTPRelay>)
    ensures Allocated(m, "", 0, map[])
  {
  }

  lemma NamedAllocated(ranges: seq<R.RtpPool.PortRange>, opens: int -> bool, m0: map<string, R.RTPRelay>,
                       used0: set<int>, m: map<string, R.RTPRelay>, used: set<int>, callID: string,
                       entries: seq<MediaEntry>, result: map<nat, int>)
    requires callID == "" ==> result == map[] && m == m0
    requires callID != "" ==> R.Served(ranges, opens, m0, used0, m, used, callID, entries, result)
    ensures Allocated(m, callID, |entries|, result)
    ensures R.Values(m) - R.Values(m0) <= R.NewOnes(m0, m)
  {
    hide L.Key, R.Taken, R.Tried, R.Enough, R.IsFor;
  }

  lemma AllocatedInRange(m: map<string, R.RTPRelay>, callID: string, n: nat, relays: map<int, int>,
                         pool: R.RtpPool.PortPool)
    requires Allocated(m, callID, n, relays) && forall k :: k in m ==> R.Under(k, m[k], pool)
    ensures PortsInRange(relays)
    ensures forall i :: i in relays ==> relays[i] > 0
  {
    hide L.Key;
  }

  // ---------------------------------------------------------------- what the peer is told

  /** Lines that the rewriter does not touch stay as they are. */
  lemma {:induction false} UntouchedLines(lines: seq<string>, addr: string, relays: map<int, int>, idx: nat)
    requires !AnyTouched(lines, relays, idx)
    ensures RewriteLines(lines, addr, relays, idx) == lines
  {
    if lines != [] { UntouchedLines(lines[1..], addr, relays, if IsM(lines[0]) then idx + 1 else idx); }
  }

  /** The body that is sent is the rewritten one, touched or not. */
  lemma SentIsRewritten(m: Msg, addr: string, ch: Choices, routing: string -> string)
    requires IsSdp(ch.contentType) && m.body != ""
    ensures Rewrite(m, addr, ch, routing).body == RewriteBody(m.body, addr, ch.relays)
  {
    hide IsSdp;
    if !Modifies(m.body, ch.relays, ch.contentType) {
      UntouchedLines(Split(m.body, CRLF), addr, ch.relays, 0);
      JoinSplit(m.body, CRLF);
    }
  }

  /** Replacing hosts in a routing header breaks no line. */
  ghost predicate KeepsLines(routing: string -> string) {
    forall v :: Free(v, CRLF) ==> Free(routing(v), CRLF)
  }

  ghost predicate PrintableHeaders(h: Headers) {
    Consistent(h) && forall n :: n in h.vals ==> NameOk(n) && Free(h.vals[n], CRLF)
  }

  lemma PrintableSet(h: Headers, name: string, value: string)
    requires PrintableHeaders(h) && NameOk(name) && Free(value, CRLF)
    ensures PrintableHeaders(SetHeader(h, name, value))
  {
    hide NameOk, Free;
  }

  lemma RoutingNames()
    ensures NameOk("Contact") && NameOk("Record-Route") && NameOk(CANONICAL)
  {
    LengthSpelling();
    FreeCRLF("Contact");
    FreeCRLF("Record-Route");
    FreeCRLF(CANONICAL);
  }

  lemma ChosenFree(h: Headers, name: string, v: string)
    requires PrintableHeaders(h) && HeaderChoice(h, name, v)
    ensures Free(v, CRLF)
  {
    hide NameOk;
    if v == "" { FreeCRLF(v); }
  }

  lemma RoutingPrintable(h: Headers, name: string, value: string, routing: string -> string)
    requires PrintableHeaders(h) && KeepsLines(routing) && HeaderChoice(h, name, value) && NameOk(name)
    ensures PrintableHeaders(RewriteRouting(h, name, value, routing))
  {
    ChosenFree(h, name, value);
    hide NameOk, Free, PrintableHeaders;
    if value != "" && routing(value) != value { PrintableSet(h, name, routing(value)); }
  }

  /** A rewritten message reads back with the body it was given. */
  lemma RewrittenParses(m: Msg, addr: string, ch: Choices, routing: string -> string)
    requires Printable(m) && ValidChoices(m, addr, ch, routing) && KeepsLines(routing)
    ensures var r := Rewrite(m, addr, ch, routing); Printable(r) && Parse(Print(r)).body == r.body
  {
    hide NameOk, Free, HeaderChoice, KeepsLines, Modifies, RewriteBody, StartOk, PrintableHeaders, SetHeader;
    assert PrintableHeaders(m.hdrs) by { HeadersPrintable(m); }
    RoutingNames();
    var m1 := RewriteSDP(m, addr, ch.relays, ch.contentType, ch.contentLength);
    if m1.hdrs != m.hdrs {
      ItoaFree(|RewriteBody(m.body, addr, ch.relays)|, CRLF);
      PrintableSet(m.hdrs, CANONICAL, Itoa(|RewriteBody(m.body, addr, ch.relays)|));
    }
    var h := RewriteRouting(m1.hdrs, "Contact", ch.contact, routing);
    RoutingPrintable(m1.hdrs, "Contact", ch.contact, routing);
    RoutingPrintable(h, "Record-Route", ch.recordRoute, routing);
    var r := Rewrite(m, addr, ch, routing);
    assert Printable(r) by { HeadersPrintable(r); }
    Reparse(r);
  }

  lemma HeadersPrintable(m: Msg)
    ensures Printable(m) <==> StartOk(m.start) && PrintableHeaders(m.hdrs)
  {
    hide NameOk, Free, StartOk;
  }

  /** The port index i of a call is told: that of the relay mapped for it, or its own when it has none. */
  ghost function Advertised(m: map<string, R.RTPRelay>, callID: string, i: nat, own: int): int {
    if callID != "" && L.Key(callID, i) in m then m[L.Key(callID, i)].publicPort else own
  }

  /** What the other side reads in what was sent: an aligned SDP advertises at index i the port of the
      relay that the session maps under that index of the call, for the same media, and keeps the port of
      an entry that got no relay; a body of another type is untouched. */
  lemma RelaysAdvertised(d: B.Direction, data: string, out: string, ch: Choices, callID: string,
                         m: map<string, R.RTPRelay>, pool: R.RtpPool.PortPool)
    requires RewritesWith(d, data, out, ch, callID, m) && forall k :: k in m ==> R.Under(k, m[k], pool)
    requires Aligned(Kinds(Split(Parse(data).body, CRLF))) && Free(d.publicAddr, CRLF) && KeepsLines(d.routing)
    ensures var before, after := ExtractBody(Parse(data).body), ExtractBody(Parse(out).body);
      HeaderChoice(Parse(data).hdrs, "Content-Type", ch.contentType)
      && if !NamesSdp(ch.contentType) then after == before
      else |after| == |before| && forall i: nat :: i < |before| ==>
        after[i].port == Advertised(m, callID, i, before[i].port) && after[i].mediaType == before[i].mediaType
  {
    hide Parse, Rewrite, RewriteBody, L.Key, Kinds, Aligned, IsSdp, NamesSdp, Split, ValidChoices, KeepsLines;
    hide HeaderChoice;
    var body := Parse(data).body;
    var n := |ExtractBody(body)|;
    AllocatedInRange(m, callID, n, ch.relays, pool);
    assert RelaysFor(ch.relays, n);
    RewriteAgrees(body, d.publicAddr, ch.relays);
    ParsePrintable(data);
    RewrittenParses(Parse(data), d.publicAddr, ch, d.routing);
    SdpNamed(ch.contentType);
    ChosenType(Parse(data), d.publicAddr, ch, d.routing);
    if !IsSdp(ch.contentType) {
      OtherBodies(Parse(data), d.publicAddr, ch, d.routing);
      return;
    }
    SentBodyRead(Parse(data), d.publicAddr, ch, d.routing);
    var before, after := ExtractBody(body), ExtractBody(RewriteBody(body, d.publicAddr, ch.relays));
    forall i: nat | i < n
      ensures after[i].port == Advertised(m, callID, i, before[i].port) && after[i].mediaType == before[i].mediaType
    {
      assert EntryAgrees(NoEmptyC(Kinds(Split(body, CRLF))), d.publicAddr, Told(ch.relays, 0 + i, before[i]),
                         before[i], after[i]);
    }
  }

  lemma ChosenType(m: Msg, addr: string, ch: Choices, routing: string -> string)
    requires ValidChoices(m, addr, ch, routing)
    ensures HeaderChoice(m.hdrs, "Content-Type", ch.contentType)
  {
    hide HeaderChoice, RewriteSDP, RewriteRouting;
  }

  lemma OtherBodies(m: Msg, addr: string, ch: Choices, routing: string -> string)
    requires !IsSdp(ch.contentType)
    ensures Rewrite(m, addr, ch, routing).body == m.body
  {
    hide IsSdp;
  }

  /** The entries of the sent body are those of the rewritten one; an empty body has none either way. */
  lemma SentBodyRead(m: Msg, addr: string, ch: Choices, routing: string -> string)
    requires IsSdp(ch.contentType) && Free(addr, CRLF) && PortsInRange(ch.relays)
    ensures ExtractBody(Rewrite(m, addr, ch, routing).body) == ExtractBody(RewriteBody(m.body, addr, ch.relays))
  {
    hide RewriteBody, IsSdp, ExtractBody;
    if m.body != "" {
      SentIsRewritten(m, addr, ch, routing);
    } else {
      EmptyUnmodified(ch.relays, ch.contentType);
      NothingExtracted(addr, ch.relays);
    }
  }

  lemma NothingExtracted(addr: string, relays: map<int, int>)
    requires Free(addr, CRLF) && PortsInRange(relays)
    ensures ExtractBody(RewriteBody("", addr, relays)) == ExtractBody("")
  {
    hide RewriteBody, RewriteLine;
    ExtractRewrittenBody("", addr, relays);
  }
}
