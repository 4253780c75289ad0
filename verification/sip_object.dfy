/** The SIP message object and the methods that update it in place
    (internal/app/protocol/sip/sip.go), tied to the values of SipMessage, Sdp and SipRewrite. */
module SipObject {
  import opened Text
  import opened SipMessage
  import opened Sdp
  import opened SipRewrite

  class Message {
    var start: StartLine
    var headers: map<string, string>
    var headerOrder: seq<string>
    var body: string

    ghost function Value(): Msg
      reads this
    {
      Msg(start, Headers(headers, headerOrder), body)
    }

    /** Parse. */
    constructor (data: string)
      ensures Value() == Parse(data)
    {
      hide Parse, Index, Split, ParseStart, ParseHeaders, HeaderName, HeaderValue, AddPair;
      var idx := Index(data, BLANK);
      var head := if idx >= 0 then data[..idx] else data;
      var lines := Split(head, CRLF);
      start := ParseStart(lines[0]);
      headers := map[];
      headerOrder := [];
      body := if idx >= 0 then data[idx + 4..] else "";
      new;
      ghost var hl := lines[1..];
      var i := 1;
      NoPairs(hl);
      while i < |lines|
        invariant 1 <= i <= |lines|
        invariant Value() == Msg(ParseStart(lines[0]), ParseHeaders(hl[..i - 1]), BodyOf(data))
      {
        var line := lines[i];
        assert hl[i - 1] == line;
        var colon := Index(line, ":");
        PairsStep(hl, i);
        if line != "" && colon >= 0 {
          AddHeader(HeaderName(line), HeaderValue(line));
        }
        i := i + 1;
      }
      assert hl[..|lines| - 1] == hl;
      ParseParts(data);
    }

    /** The merging step of the header loop: a known name gains the value after a comma. */
    method AddHeader(name: string, value: string)
      modifies this
      ensures Value() == old(Value()).(hdrs := AddPair(old(Value()).hdrs, Pair(name, value)))
    {
      if name in headers {
        headers := headers[name := headers[name] + ", " + value];
      } else {
        headers := headers[name := value];
        headerOrder := headerOrder + [name];
      }
    }

    /** GetHeader: the exact spelling, or any that differs in case. */
    method GetHeader(name: string) returns (v: string)
      ensures HeaderChoice(Value().hdrs, name, v)
    {
      if name in headers {
        return headers[name];
      }
      var folded := set k | k in headers && Lower(k) == Lower(name);
      assert forall k :: k in headers && Lower(k) == Lower(name) ==> k in folded;
      if folded != {} {
        var k :| k in folded;
        assert k in Value().hdrs.vals && Lower(k) == Lower(name) && headers[k] == Value().hdrs.vals[k];
        return headers[k];
      }
      v := "";
    }

    method SetHeader(name: string, value: string)
      modifies this
      ensures Value() == old(Value()).(hdrs := SipRewrite.SetHeader(old(Value()).hdrs, name, value))
    {
      if name !in headers {
        headerOrder := headerOrder + [name];
      }
      headers := headers[name := value];
    }

    /** Bytes. */
    method Bytes() returns (s: string)
      requires forall n :: n in headerOrder ==> n in headers
      ensures s == Print(Value())
    {
      ghost var h := Headers(headers, headerOrder);
      s := StartText(start) + CRLF;
      var i := 0;
      while i < |headerOrder|
        invariant 0 <= i <= |headerOrder|
        invariant s == Terminated([StartText(start)] + HeaderLines(h)[..i])
      {
        var name := headerOrder[i];
        TerminatedAppend([StartText(start)] + HeaderLines(h)[..i], HeaderText(h, i));
        assert [StartText(start)] + HeaderLines(h)[..i + 1]
          == ([StartText(start)] + HeaderLines(h)[..i]) + [HeaderText(h, i)];
        s := s + (name + ": " + headers[name]) + CRLF;
        i := i + 1;
      }
      assert HeaderLines(h)[..i] == HeaderLines(h);
      s := s + CRLF + body;
    }

    /** ExtractMediaEntries. */
    method ExtractMediaEntries() returns (entries: seq<MediaEntry>)
      ensures entries == ExtractBody(body)
    {
      hide Split, Kinds;
      entries := [];
      if body == "" {
        return;
      }
      var lines := Split(body, CRLF);
      var topC, lastC := "", "";
      var i := 0;
      ExtractStarts(lines);
      while i < |lines|
        invariant 0 <= i <= |lines|
        invariant ExtractSofar(lines, i, entries, topC, lastC)
      {
        hide ExtractSofar, Classify;
        var kind := Classify(lines[i]);
        ExtractStep(lines, i, entries, topC, lastC);
        if kind.Connection? {
          if |entries| == 0 {
            topC := kind.addr;
          }
          lastC := kind.addr;
        } else if kind.Media? {
          var addr := if lastC == "" then topC else lastC;
          entries := entries + [MediaEntry(kind.mediaType, kind.port, addr)];
          lastC := "";
        }
        i := i + 1;
      }
    }

    /** RewriteSDPWithRelays; RewriteSDP with publicPort 0 is the call without relays. */
    method RewriteSDPWithRelays(publicAddr: string, relayPorts: map<int, int>)
      returns (modified: bool, contentType: string, contentLength: string)
      modifies this
      ensures HeaderChoice(old(Value()).hdrs, "Content-Type", contentType)
      ensures HeaderChoice(old(Value()).hdrs, "Content-Length", contentLength)
      ensures modified == Modifies(old(body), relayPorts, contentType)
      ensures Value() == RewriteSDP(old(Value()), publicAddr, relayPorts, contentType, contentLength)
    {
      contentType := GetHeader("Content-Type");
      contentLength := GetHeader("Content-Length");
      modified := false;
      if body == "" || !IsSdp(contentType) {
        return;
      }
      var lines;
      lines, modified := RewriteAll(Split(body, CRLF), publicAddr, relayPorts);
      if modified {
        body := Join(lines, CRLF);
        if contentLength != "" {
          SetHeader("Content-Length", Itoa(|body|));
        }
      }
    }

    /** RewriteRoutingHeaders, `routing` being the substitution of hosts inside a header value. */
    method RewriteRoutingHeaders(routing: string -> string)
      returns (contact: string, recordRoute: string)
      modifies this
      ensures HeaderChoice(old(Value()).hdrs, "Contact", contact)
      ensures var h := RewriteRouting(old(Value()).hdrs, "Contact", contact, routing);
        HeaderChoice(h, "Record-Route", recordRoute)
        && Value() == old(Value()).(hdrs := RewriteRouting(h, "Record-Route", recordRoute, routing))
    {
      contact := GetHeader("Contact");
      if contact != "" && routing(contact) != contact {
        SetHeader("Contact", routing(contact));
      }
      recordRoute := GetHeader("Record-Route");
      if recordRoute != "" && routing(recordRoute) != recordRoute {
        SetHeader("Record-Route", routing(recordRoute));
      }
    }
  }

  lemma NoPairs(hl: seq<string>)
    ensures ParseHeaders(hl[..0]) == Headers(map[], [])
  {
  }

  lemma ParseParts(data: string)
    ensures var lines := Split(HeadOf(data), CRLF);
      Parse(data) == Msg(ParseStart(lines[0]), ParseHeaders(lines[1..]), BodyOf(data))
  {
  }

  lemma PairsStep(hl: seq<string>, i: nat)
    requires 1 <= i <= |hl|
    ensures ParseHeaders(hl[..i]) == if IsHeader(hl[i - 1])
      then AddPair(ParseHeaders(hl[..i - 1]), Pair(HeaderName(hl[i - 1]), HeaderValue(hl[i - 1])))
      else ParseHeaders(hl[..i - 1])
    ensures IsHeader(hl[i - 1]) ==> hl[i - 1] != ""
  {
    hide HeaderName, HeaderValue, Index;
    assert !IsHeader("") by { NoHeader(); }
    assert hl[..i][..i - 1] == hl[..i - 1] && hl[..i][i - 1] == hl[i - 1];
    var ps := Pairs(hl[..i]);
    if IsHeader(hl[i - 1]) {
      var p := Pair(HeaderName(hl[i - 1]), HeaderValue(hl[i - 1]));
      assert ps == Pairs(hl[..i - 1]) + [p];
      assert ps[..|ps| - 1] == Pairs(hl[..i - 1]) && ps[|ps| - 1] == p;
      assert Merge(ps) == AddPair(Merge(ps[..|ps| - 1]), ps[|ps| - 1]);
    } else {
      assert ps == Pairs(hl[..i - 1]) + [] == Pairs(hl[..i - 1]);
    }
  }

  /** After i lines: the entries found and what the rest will add to them. */
  ghost predicate ExtractSofar(lines: seq<string>, i: nat, entries: seq<MediaEntry>, topC: string, lastC: string)
    requires i <= |lines|
  {
    Extract(Kinds(lines), 0, "", "") == entries + Extract(Kinds(lines)[i..], |entries|, topC, lastC)
  }

  lemma ExtractStarts(lines: seq<string>)
    ensures ExtractSofar(lines, 0, [], "", "")
  {
    hide Extract, Kinds;
    assert Kinds(lines)[0..] == Kinds(lines);
  }

  lemma ExtractStep(lines: seq<string>, i: nat, entries: seq<MediaEntry>, topC: string, lastC: string)
    requires i < |lines| && ExtractSofar(lines, i, entries, topC, lastC)
    ensures match Classify(lines[i])
      case Connection(a) => ExtractSofar(lines, i + 1, entries, if |entries| == 0 then a else topC, a)
      case Media(t, p) =>
        ExtractSofar(lines, i + 1, entries + [MediaEntry(t, p, if lastC == "" then topC else lastC)], topC, "")
      case NoPort(_, _) => ExtractSofar(lines, i + 1, entries, topC, lastC)
      case Other => ExtractSofar(lines, i + 1, entries, topC, lastC)
  {
    hide Classify, Kinds;
    var kinds := Kinds(lines);
    KindAt(lines, i);
    assert kinds[i..][0] == kinds[i] && kinds[i..][1..] == kinds[i + 1..];
    if Classify(lines[i]).Media? {
      var Media(t, p) := Classify(lines[i]);
      var e := MediaEntry(t, p, if lastC == "" then topC else lastC);
      var rest := Extract(kinds[i + 1..], |entries| + 1, topC, "");
      assert entries + ([e] + rest) == (entries + [e]) + rest;
    }
  }

  lemma NoHeader()
    ensures !IsHeader("")
  {
  }

  lemma {:induction false} KindAt(lines: seq<string>, i: nat)
    requires i < |lines|
    ensures Kinds(lines)[i] == Classify(lines[i])
  {
    hide Classify;
    if i > 0 { KindAt(lines[1..], i - 1); }
  }

  /** The loop over the SDP lines: each line is overwritten where it stands. */
  method RewriteAll(original: seq<string>, publicAddr: string, relayPorts: map<int, int>)
    returns (lines: seq<string>, modified: bool)
    ensures lines == RewriteLines(original, publicAddr, relayPorts, 0)
    ensures modified == AnyTouched(original, relayPorts, 0)
  {
    lines := original;
    modified := false;
    var mediaIdx := -1;
    var i := 0;
    assert original[0..] == original;
    while i < |lines|
      invariant 0 <= i <= |lines| == |original|
      invariant RewriteSofar(original, publicAddr, relayPorts, lines, i, mediaIdx, modified)
    {
      hide RewriteSofar, RewriteLine, Touched, IsM, PortFor;
      assert lines[i] == original[i] by {
        LineUntouched(original, publicAddr, relayPorts, lines, i, mediaIdx, modified);
      }
      var r, touched, idx := RewriteOne(lines[i], publicAddr, relayPorts, mediaIdx);
      RewriteStep(original, publicAddr, relayPorts, lines, i, mediaIdx, modified);
      lines := lines[i := r];
      modified := modified || touched;
      mediaIdx := idx;
      i := i + 1;
    }
    assert lines[..i] == lines;
  }

  /** After i lines: those are rewritten in place, the others still as they were. */
  ghost predicate RewriteSofar(original: seq<string>, addr: string, relays: map<int, int>,
      lines: seq<string>, i: nat, mediaIdx: int, modified: bool)
    requires i <= |lines| == |original|
  {
    && mediaIdx >= -1 && lines[i..] == original[i..]
    && RewriteLines(original, addr, relays, 0) == lines[..i] + RewriteLines(original[i..], addr, relays, mediaIdx + 1)
    && AnyTouched(original, relays, 0) == (modified || AnyTouched(original[i..], relays, mediaIdx + 1))
  }

  lemma LineUntouched(original: seq<string>, addr: string, relays: map<int, int>,
      lines: seq<string>, i: nat, mediaIdx: int, modified: bool)
    requires i < |lines| == |original| && RewriteSofar(original, addr, relays, lines, i, mediaIdx, modified)
    ensures lines[i] == original[i] && mediaIdx >= -1
  {
    hide RewriteLines, AnyTouched;
    assert lines[i..][0] == original[i..][0];
  }

  lemma RewriteStep(original: seq<string>, addr: string, relays: map<int, int>,
      lines: seq<string>, i: nat, mediaIdx: int, modified: bool)
    requires i < |lines| == |original| && RewriteSofar(original, addr, relays, lines, i, mediaIdx, modified)
    ensures var l := original[i]; var port := PortFor(relays, mediaIdx + 1);
      RewriteSofar(original, addr, relays, lines[i := RewriteLine(l, addr, port)], i + 1,
        if IsM(l) then mediaIdx + 1 else mediaIdx, modified || Touched(l, port))
  {
    hide RewriteLine, Touched, IsM, PortFor;
    var l := original[i];
    var r := RewriteLine(l, addr, PortFor(relays, mediaIdx + 1));
    var after := lines[i := r];
    assert original[i..][0] == l && original[i..][1..] == original[i + 1..];
    assert after[..i + 1] == lines[..i] + [r];
    assert after[i + 1..] == lines[i..][1..];
  }

  /** The three checks of the loop body on one line. */
  method RewriteOne(line: string, publicAddr: string, relayPorts: map<int, int>, mediaIdx: int)
    returns (r: string, touched: bool, idx: int)
    requires mediaIdx >= -1
    ensures r == RewriteLine(line, publicAddr, PortFor(relayPorts, mediaIdx + 1))
    ensures touched == Touched(line, PortFor(relayPorts, mediaIdx + 1))
    ensures idx == if IsM(line) then mediaIdx + 1 else mediaIdx
  {
    FirstChar(line);
    r, touched, idx := line, false, mediaIdx;
    if HasPrefix(line, C_LINE) {
      r := C_LINE + publicAddr;
      touched := true;
    }
    if HasPrefix(line, "o=") {
      var parts := Split(line, " ");
      if |parts| >= 6 {
        r := Join(parts[5 := publicAddr], " ");
        touched := true;
      }
    }
    if HasPrefix(line, "m=") {
      idx := mediaIdx + 1;
      if idx in relayPorts && relayPorts[idx] > 0 {
        var parts := Split(line, " ");
        if |parts| >= 2 {
          r := Join(parts[1 := Itoa(relayPorts[idx])], " ");
          touched := true;
        }
      }
    }
  }
}
