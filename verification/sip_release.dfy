/** A BYE on its way through gives the call's relays back (internal/app/server/proxy.go:276-289). */
module SipRelease {
  import opened Text
  import opened SipMessage
  import opened SipHeaders
  import opened SipRewrite
  import opened SipObject
  import opened RtpSession

  /** The messages that end a call for the bridge. */
  predicate IsBye(rewriteSDP: bool, data: string) {
    rewriteSDP && IsSIP(data) && Parse(data).start.Request? && Parse(data).start.verb == "BYE"
  }

  /** A request ends a call for the bridge exactly when its method is BYE and the proxy rewrites SDP. */
  lemma ByeRequest(rewriteSDP: bool, verb: string, uri: string, version: string, lines: seq<string>, body: string)
    requires Free(verb, " ") && Free(uri, " ") && !(|verb| >= 4 && verb[..4] == "SIP/")
    requires HeadLine(verb + " " + uri + " " + version) && forall l :: l in lines ==> HeadLine(l)
    ensures IsBye(rewriteSDP, Render([verb + " " + uri + " " + version] + lines, body)) <==> rewriteSDP && verb == "BYE"
  {
    var start := verb + " " + uri + " " + version;
    var data := Render([start] + lines, body);
    ParseRendered([start] + lines, body);
    RequestLine(verb, uri, version);
    SipStarts(data);
    if verb == "BYE" { StartsWith(verb, uri + " " + version, lines, body); }
    hide Render, Parse, IsSIP, ParseStart, HasPrefix, HeadLine, Free, ParseHeaders;
  }

  lemma StartsWith(verb: string, rest: string, lines: seq<string>, body: string)
    ensures HasPrefix(Render([verb + " " + rest] + lines, body), verb + " ")
    ensures verb == "BYE" ==> verb + " " == "BYE "
    ensures forall uri, version :: rest == uri + " " + version ==> verb + " " + rest == verb + " " + uri + " " + version
  {
    var start := verb + " " + rest;
    var all := [start] + lines;
    assert all[0] == start;
    var tail := CRLF + Terminated(all[1..]) + CRLF + body;
    assert Render(all, body) == verb + " " + (rest + tail);
    Behind(verb + " ", rest + tail);
  }

  /** releaseRelayOnBye: a BYE with a Call-ID unmaps and stops exactly that call's relays; a port goes
      back only if its relay had not stopped before; any other message changes nothing. */
  method ReleaseRelayOnBye(rewriteSDP: bool, data: string, session: ClientSession) returns (callID: string)
    requires session.Valid()
    modifies session`rtpRelays, session.pool, Values(session.rtpRelays)`stopped
    ensures session.Valid()
    ensures IsBye(rewriteSDP, data) ==> HeaderChoice(Parse(data).hdrs, "Call-ID", callID)
    ensures var m := old(session.rtpRelays); var was := old(StoppedKeys(session.rtpRelays));
      var gone := if IsBye(rewriteSDP, data) && callID != "" then OfCall(m, callID) else {};
      && session.rtpRelays == Without(m, gone) && StoppedKeys(m) == was + gone
      && session.pool.used == old(session.pool.used) - PortsOf(m, gone - was)
  {
    hide IsSIP, Parse;
    callID := "";
    if !rewriteSDP || !IsSIP(data) {
      return;
    }
    var msg := new Message(data);
    if !msg.start.Request? || msg.start.verb != "BYE" {
      return;
    }
    callID := msg.GetHeader("Call-ID");
    if callID != "" {
      session.ReleaseRTPRelays(callID);
    }
  }
}
