/** What a parsed, printed and rewritten message says, in terms of its text
    (internal/app/protocol/sip/sip.go:30-122, 139-146, 186-211, 385-399). */
module SipHeaders {
  import opened Text
  import opened SipMessage
  import opened SipStream
  import opened Sdp
  import opened SipRewrite

  // ---------------------------------------------------------------- repeated headers

  /** The values of the pairs with a name, in order. */
  function ValuesNamed(pairs: seq<Pair>, name: string): seq<string> {
    if pairs == [] then []
    else
      var p := pairs[|pairs| - 1];
      var values := ValuesNamed(pairs[..|pairs| - 1], name);
      if p.name == name then values + [p.value] else values
  }

  /** The names of the pairs, each where it first occurs. */
  function FirstNames(pairs: seq<Pair>): seq<string> {
    if pairs == [] then []
    else
      var names := FirstNames(pairs[..|pairs| - 1]);
      var n := pairs[|pairs| - 1].name;
      if n in names then names else names + [n]
  }

  lemma {:induction false} NamesHaveValues(pairs: seq<Pair>, name: string)
    ensures name in FirstNames(pairs) <==> ValuesNamed(pairs, name) != []
  {
    if pairs != [] { NamesHaveValues(pairs[..|pairs| - 1], name); }
  }

  lemma JoinOne(values: seq<string>, v: string)
    requires values != []
    ensures Join(values + [v], ", ") == Join(values, ", ") + ", " + v
  {
    JoinAppend(values, [v], ", ");
  }

  /** A header has all of its values, in order, with ", " between them, and stands where it first occurs. */
  lemma {:induction false} MergedHeaders(pairs: seq<Pair>)
    ensures var h := Merge(pairs);
      && h.order == FirstNames(pairs)
      && (forall n :: n in h.vals <==> ValuesNamed(pairs, n) != [])
      && (forall n :: n in h.vals ==> h.vals[n] == Join(ValuesNamed(pairs, n), ", "))
  {
    hide Join;
    if pairs == [] {
    } else {
      var init, p := pairs[..|pairs| - 1], pairs[|pairs| - 1];
      MergedHeaders(init);
      NamesHaveValues(init, p.name);
      if p.name in Merge(init).vals {
        JoinOne(ValuesNamed(init, p.name), p.value);
      } else {
        assert ValuesNamed(pairs, p.name) == [p.value];
        JoinSingle(p.value);
      }
    }
  }

  lemma JoinSingle(v: string)
    ensures Join([v], ", ") == v
  {
  }

  // ---------------------------------------------------------------- header lines

  lemma {:induction false} PairsAppend(a: seq<string>, b: seq<string>)
    ensures Pairs(a + b) == Pairs(a) + Pairs(b)
  {
    hide IsHeader, HeaderName, HeaderValue;
    if b == [] {
      assert a + b == a;
    } else {
      var last := b[|b| - 1];
      assert (a + b)[..|a + b| - 1] == a + b[..|b| - 1] && (a + b)[|a + b| - 1] == last;
      PairsAppend(a, b[..|b| - 1]);
      Regroup(Pairs(a), Pairs(b[..|b| - 1]),
              if IsHeader(last) then [Pair(HeaderName(last), HeaderValue(last))] else []);
    }
  }

  /** A line "name:value" is a header of that name and value, without the white space around them. */
  lemma FieldLine(name: string, value: string)
    requires Free(name, ":")
    ensures Pairs([name + ":" + value]) == [Pair(TrimSpace(name), TrimSpace(value))]
  {
    CommonSeparators();
    IndexOfSeparator(name, ":", value);
    hide Index, TrimSpace;
    CutAround(name, ":", value);
    var line := name + ":" + value;
    assert [line][..0] == [];
    assert Pairs([]) == [];
    assert HeaderName(line) == TrimSpace(name) && HeaderValue(line) == TrimSpace(value);
  }

  /** A line without a colon is no header. */
  lemma NoFieldLine(line: string)
    requires Free(line, ":")
    ensures Pairs([line]) == []
  {
    IndexFirst(line, ":");
    hide Index, Occurs;
    assert [line][..0] == [];
    assert Pairs([]) == [];
  }

  function FieldText(f: (string, string)): string { f.0 + ":" + f.1 }

  function FieldLines(fields: seq<(string, string)>): seq<string> {
    if fields == [] then [] else FieldLines(fields[..|fields| - 1]) + [FieldText(fields[|fields| - 1])]
  }

  function FieldPairs(fields: seq<(string, string)>): seq<Pair> {
    if fields == [] then []
    else
      var f := fields[|fields| - 1];
      FieldPairs(fields[..|fields| - 1]) + [Pair(TrimSpace(f.0), TrimSpace(f.1))]
  }

  lemma {:induction false} PairsOfFields(fields: seq<(string, string)>)
    requires forall f :: f in fields ==> Free(f.0, ":")
    ensures Pairs(FieldLines(fields)) == FieldPairs(fields)
  {
    hide TrimSpace, Free;
    if fields != [] {
      var f := fields[|fields| - 1];
      assert f in fields;
      PairsOfFields(fields[..|fields| - 1]);
      FieldLine(f.0, f.1);
      PairsAppend(FieldLines(fields[..|fields| - 1]), [FieldText(f)]);
    }
  }

  /** Parsing the text of a message: every header has all the values given under its name, in order. */
  lemma ParsedFields(start: string, fields: seq<(string, string)>, body: string, name: string)
    requires HeadLine(start) && forall f :: f in fields ==> Free(f.0, ":") && HeadLine(FieldText(f))
    ensures var m := Parse(Render([start] + FieldLines(fields), body));
      && m.start == ParseStart(start) && m.body == body && m.hdrs.order == FirstNames(FieldPairs(fields))
      && (name in m.hdrs.vals <==> ValuesNamed(FieldPairs(fields), name) != [])
      && (name in m.hdrs.vals ==> m.hdrs.vals[name] == Join(ValuesNamed(FieldPairs(fields), name), ", "))
  {
    hide Parse, Render, Join, Merge, Pairs, FirstNames, ValuesNamed, HeadLine, Free, ParseStart;
    var lines := FieldLines(fields);
    FieldsAreHeadLines(fields);
    ParseRendered([start] + lines, body);
    assert ([start] + lines)[1..] == lines;
    PairsOfFields(fields);
    MergedHeaders(FieldPairs(fields));
  }

  lemma {:induction false} FieldsAreHeadLines(fields: seq<(string, string)>)
    requires forall f :: f in fields ==> HeadLine(FieldText(f))
    ensures forall l :: l in FieldLines(fields) ==> HeadLine(l)
  {
    hide HeadLine, FieldText;
    if fields != [] {
      assert fields[|fields| - 1] in fields;
      FieldsAreHeadLines(fields[..|fields| - 1]);
    }
  }

  /** Without a blank line there is no body, and every line but the first may be a header. */
  lemma HeadOnly(data: string)
    requires Free(data, "\r\n\r\n")
    ensures var lines := Split(data, "\r\n");
      Parse(data) == Msg(ParseStart(lines[0]), Merge(Pairs(lines[1..])), "")
  {
    IndexFirst(data, "\r\n\r\n");
    hide Index, Occurs, Split, Merge, Pairs, ParseStart;
  }

  // ---------------------------------------------------------------- start lines

  lemma RequestLine(verb: string, uri: string, version: string)
    requires Free(verb, " ") && Free(uri, " ") && !(|verb| >= 4 && verb[..4] == "SIP/")
    ensures ParseStart(verb + " " + uri + " " + version) == Request(verb, uri, version)
  {
    hide SplitN3, Free;
    ThreeParts(verb, uri, version);
    PrefixBeforeSpace(verb, uri + " " + version);
    assert verb + " " + uri + " " + version == verb + " " + (uri + " " + version);
  }

  lemma StatusLine(version: string, status: string, reason: string)
    requires Free(version, " ") && Free(status, " ") && |version| >= 4 && version[..4] == "SIP/"
    ensures ParseStart(version + " " + status + " " + reason) == Response(version, status, reason)
  {
    hide SplitN3, Free;
    ThreeParts(version, status, reason);
    PrefixBeforeSpace(version, status + " " + reason);
    assert version + " " + status + " " + reason == version + " " + (status + " " + reason);
  }

  /** What IsSIP takes for a SIP message: the beginning of a request of one of 14 methods or of a response. */
  lemma SipStarts(data: string)
    ensures IsSIP(data) <==>
      exists p :: HasPrefix(data, p) && p in ["INVITE ", "ACK ", "BYE ", "CANCEL ", "REGISTER ", "OPTIONS ", "PRACK ",
        "SUBSCRIBE ", "NOTIFY ", "UPDATE ", "REFER ", "MESSAGE ", "INFO ", "PUBLISH ", "SIP/2.0 "]
  {
    assert forall i :: 0 <= i < |METHODS| ==> |METHODS[i]| >= 4;
    assert forall p :: HasPrefix(data, p) ==> |p| <= |data|;
    hide HasPrefix;
    assert METHODS == ["INVITE ", "ACK ", "BYE ", "CANCEL ", "REGISTER ", "OPTIONS ", "PRACK ",
      "SUBSCRIBE ", "NOTIFY ", "UPDATE ", "REFER ", "MESSAGE ", "INFO ", "PUBLISH ", "SIP/2.0 "];
  }

  // ---------------------------------------------------------------- the printed text

  /** A message prints as its start line, one line "name: value" per header in order, a blank line and
      the body. */
  lemma PrintedText(m: Msg)
    requires forall n :: n in m.hdrs.order ==> n in m.hdrs.vals
    ensures match m.start
      case Request(verb, uri, version) =>
        Print(m) == verb + " " + uri + " " + version + "\r\n" + HeaderBlock(m.hdrs, |m.hdrs.order|) + "\r\n" + m.body
      case Response(version, status, reason) =>
        Print(m) == version + " " + status + " " + reason + "\r\n" + HeaderBlock(m.hdrs, |m.hdrs.order|)
          + "\r\n" + m.body
  {
    var ls := HeaderLines(m.hdrs);
    HeaderBlocks(m.hdrs, |ls|);
    assert ls[..|ls|] == ls;
    assert HeadLines(m)[1..] == ls;
    hide HeaderBlock, HeaderLines;
  }

  function HeaderBlock(h: Headers, i: nat): string
    requires i <= |h.order| && forall n :: n in h.order ==> n in h.vals
  {
    if i == 0 then "" else HeaderBlock(h, i - 1) + h.order[i - 1] + ": " + h.vals[h.order[i - 1]] + "\r\n"
  }

  lemma {:induction false} HeaderBlocks(h: Headers, i: nat)
    requires i <= |h.order| && forall n :: n in h.order ==> n in h.vals
    ensures Terminated(HeaderLines(h)[..i]) == HeaderBlock(h, i)
  {
    if i > 0 {
      HeaderBlocks(h, i - 1);
      var ls := HeaderLines(h);
      assert ls[..i] == ls[..i - 1] + [ls[i - 1]];
      TerminatedAppend(ls[..i - 1], ls[i - 1]);
      var b, n, v := HeaderBlock(h, i - 1), h.order[i - 1], h.vals[h.order[i - 1]];
      assert ls[i - 1] == n + ": " + v;
      Regroup(b, n + ": ", v);
      Regroup(b, n, ": ");
    }
  }

  // ---------------------------------------------------------------- length headers

  /** The stream reader takes a line for a length header exactly when it is spelt, in some letter case,
      Content-Length directly followed by a colon; what counts is a positive number behind it. */
  lemma LengthLine(name: string, value: string)
    requires Free(name, ":")
    ensures DeclaredLength(name + ":" + value) ==
      if Lower(name) == "content-length" then
        (if Atoi(TrimSpace(value)).Some? && Atoi(TrimSpace(value)).value > 0 then Atoi(TrimSpace(value)).value else 0)
      else 0
  {
    var line := name + ":" + value;
    CommonSeparators();
    IndexOfSeparator(name, ":", value);
    Behind(name + ":", value);
    NameLowers(name, line);
    hide Index, Lower, TrimSpace, Atoi, Free;
    ContentLengthIs();
    if IsContentLength(line) { LengthColon(line); }
    if |name| == |LENGTH_NAME| { SameBefore(Lower(name), LENGTH_NAME); }
  }

  /** Line i declares a length and no line behind it does; or no line does, and i is -1. */
  ghost predicate DeclaresLast(lines: seq<string>, i: int) {
    && -1 <= i < |lines| && (i >= 0 ==> DeclaredLength(lines[i]) > 0)
    && forall j :: i < j < |lines| ==> DeclaredLength(lines[j]) == 0
  }

  lemma {:induction false} LastWins(lines: seq<string>, i: int, cl: nat)
    requires DeclaresLast(lines, i)
    ensures LastLength(lines, cl) == if i < 0 then cl else DeclaredLength(lines[i])
  {
    hide DeclaredLength;
    if lines != [] { LastWins(lines[1..], if i < 0 then -1 else i - 1, UpdateLength(cl, lines[0])); }
  }

  /** What the stream reader makes of a head and what follows it: a head of more than 64 KiB is an error; a
      message has as many bytes behind its head as the last length in it says, or the stream is too short. */
  lemma MessageRead(lines: seq<string>, i: int, tail: string)
    requires DeclaresLast(lines, i) && forall l :: l in lines ==> CleanLine(l)
    ensures var head := Terminated(lines) + "\r\n"; var n := if i < 0 then 0 else DeclaredLength(lines[i]);
      var r := ReadMessage(head + tail);
      if |head| > 65536 then r.Failed? && r.error == HeaderTooLong
      else r == if n <= |tail| then Chunk(head + tail[..n], tail[n..]) else Failed(UnexpectedEof, "")
  {
    hide Scan, DeclaredLength, CleanLine, Terminated;
    LastWins(lines, i, 0);
    ScanRendered("", lines, 0, tail);
    var head := Terminated(lines) + "\r\n";
    assert "" + Terminated(lines) + "\r\n" + tail == head + tail;
    var n := if i < 0 then 0 else DeclaredLength(lines[i]);
    if n <= |tail| {
      assert (head + tail)[..|head| + n] == head + tail[..n];
      assert (head + tail)[|head| + n..] == tail[n..];
    }
  }

  // ---------------------------------------------------------------- the rewritten headers

  /** What the value of a header becomes: Contact and Record-Route are substituted, Content-Length is
      set when the body was rewritten, and every other header stays. */
  function NewValue(m: Msg, addr: string, ch: Choices, routing: string -> string, name: string): string
    requires name in m.hdrs.vals
  {
    var v := m.hdrs.vals[name];
    if name == "Contact" || name == "Record-Route" then (if v == "" then v else routing(v))
    else if name == "Content-Length" && v != "" && Modifies(m.body, ch.relays, ch.contentType) then
      Itoa(|RewriteBody(m.body, addr, ch.relays)|)
    else v
  }

  lemma RoutedHeader(h: Headers, header: string, value: string, routing: string -> string, name: string)
    requires name in h.vals && (name == header ==> value == h.vals[name])
    ensures var r := RewriteRouting(h, header, value, routing);
      && h.order <= r.order && name in r.vals
      && r.vals[name] == if name == header && value != "" then routing(value) else h.vals[name]
  {
  }

  lemma SetByRewrite(m: Msg, addr: string, ch: Choices, name: string)
    requires name in m.hdrs.vals
    requires "Content-Length" in m.hdrs.vals ==> ch.contentLength == m.hdrs.vals["Content-Length"]
    ensures var r := RewriteSDP(m, addr, ch.relays, ch.contentType, ch.contentLength);
      && r.start == m.start && m.hdrs.order <= r.hdrs.order && name in r.hdrs.vals
      && r.hdrs.vals[name] ==
           if name == "Content-Length" && m.hdrs.vals[name] != "" && Modifies(m.body, ch.relays, ch.contentType)
           then Itoa(|RewriteBody(m.body, addr, ch.relays)|) else m.hdrs.vals[name]
  {
    hide Modifies, RewriteBody, Itoa;
  }

  lemma RewrittenHeaders(m: Msg, addr: string, ch: Choices, routing: string -> string, name: string)
    requires ValidChoices(m, addr, ch, routing) && name in m.hdrs.vals
    ensures var r := Rewrite(m, addr, ch, routing);
      && r.start == m.start && m.hdrs.order <= r.hdrs.order
      && name in r.hdrs.vals && r.hdrs.vals[name] == NewValue(m, addr, ch, routing, name)
  {
    hide Modifies, RewriteBody, Itoa, RewriteSDP, RewriteRouting;
    SetByRewrite(m, addr, ch, name);
    var h1 := RewriteSDP(m, addr, ch.relays, ch.contentType, ch.contentLength).hdrs;
    RoutedHeader(h1, "Contact", ch.contact, routing, name);
    RoutedHeader(RewriteRouting(h1, "Contact", ch.contact, routing), "Record-Route", ch.recordRoute, routing, name);
  }

  /** A Contact or Record-Route of another spelling stays, and the substituted one follows it. */
  lemma OtherSpelling(m: Msg, addr: string, ch: Choices, routing: string -> string)
    requires ValidChoices(m, addr, ch, routing)
    ensures var h := Rewrite(m, addr, ch, routing).hdrs;
      && ("Contact" !in m.hdrs.vals && ch.contact != "" && routing(ch.contact) != ch.contact ==>
            "Contact" in h.vals && h.vals["Contact"] == routing(ch.contact))
      && ("Record-Route" !in m.hdrs.vals && ch.recordRoute != "" && routing(ch.recordRoute) != ch.recordRoute ==>
            "Record-Route" in h.vals && h.vals["Record-Route"] == routing(ch.recordRoute))
  {
    hide Modifies, RewriteBody, Itoa;
  }
}
