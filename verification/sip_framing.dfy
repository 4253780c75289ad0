/** Exactly when a rewritten SIP message frames as one message
    (internal/app/protocol/sip/sip.go:127-211, 331-399, internal/app/server/proxy.go:292-318). */
module SipFraming {
  import opened Text
  import opened SipMessage
  import opened SipStream
  import opened Sdp
  import opened SipRewrite

  const CANONICAL: string := "Content-Length"

  // ---------------------------------------------------------------- the declared length, piece by piece

  /** The last positive length among headers lo to i - 1, 0 when there is none. */
  function LengthBetween(h: Headers, lo: nat, i: nat): nat
    requires i <= |h.order| && forall n :: n in h.order ==> n in h.vals
    decreases i
  {
    if i <= lo then 0
    else
      var n := h.order[i - 1];
      if IsLengthName(n) && PositiveValue(h.vals[n]) > 0 then PositiveValue(h.vals[n]) else LengthBetween(h, lo, i - 1)
  }

  lemma {:induction false} LengthSplit(h: Headers, lo: nat, i: nat)
    requires lo <= i <= |h.order| && forall n :: n in h.order ==> n in h.vals
    ensures HeaderLength(h, i) == if LengthBetween(h, lo, i) > 0 then LengthBetween(h, lo, i) else HeaderLength(h, lo)
    decreases i
  {
    hide IsLengthName, PositiveValue;
    if i > lo { LengthSplit(h, lo, i - 1); }
  }

  /** Where a name stands in the order. */
  function Position(order: seq<string>, n: string): (j: nat)
    requires n in order
    ensures j < |order| && order[j] == n
  {
    if order[0] == n then 0 else 1 + Position(order[1..], n)
  }

  /** Headers that agree between lo and i declare the same there. */
  lemma {:induction false} LengthSame(g: Headers, h: Headers, lo: nat, i: nat)
    requires CleanHeaders(g) && CleanHeaders(h) && i <= |g.order| && i <= |h.order|
    requires forall k :: lo <= k < i ==> g.order[k] == h.order[k] && g.vals[g.order[k]] == h.vals[h.order[k]]
    ensures LengthBetween(g, lo, i) == LengthBetween(h, lo, i)
    decreases i
  {
    hide IsLengthName, PositiveValue, CleanText;
    if i > lo { LengthSame(g, h, lo, i - 1); }
  }

  /** The length declared once Content-Length is set to len: headers of another spelling behind it win. */
  function RepairedLength(h: Headers, len: nat): nat
    requires CleanHeaders(h)
  {
    if CANONICAL !in h.order then len
    else
      var l := LengthBetween(h, Position(h.order, CANONICAL) + 1, |h.order|);
      if l > 0 then l else len
  }

  lemma SetLength(h: Headers, len: nat)
    requires CleanHeaders(h) && 0 < len <= MAX_INT
    ensures var g := SetHeader(h, CANONICAL, Itoa(len));
      CleanHeaders(g) && HeaderLength(g, |g.order|) == RepairedLength(h, len)
  {
    hide PositiveValue, CleanText, IsLengthName, CleanHeaders, LengthBetween, HeaderLength;
    LengthSpelling();
    PositiveItoa(len);
    CleanSet(h, CANONICAL, Itoa(len));
    if CANONICAL in h.order { SetThere(h, len); } else { SetNew(h, len); }
  }

  lemma SetThere(h: Headers, len: nat)
    requires CleanHeaders(h) && CANONICAL in h.order && 0 < len && PositiveValue(Itoa(len)) == len
    requires CleanHeaders(SetHeader(h, CANONICAL, Itoa(len)))
    ensures var g := SetHeader(h, CANONICAL, Itoa(len)); HeaderLength(g, |g.order|) == RepairedLength(h, len)
  {
    hide PositiveValue, CleanText, LengthBetween, IsLengthName;
    LengthSpelling();
    var g := SetHeader(h, CANONICAL, Itoa(len));
    var j := Position(h.order, CANONICAL);
    LengthSplit(g, j + 1, |g.order|);
    LengthSame(g, h, j + 1, |h.order|);
  }

  lemma SetNew(h: Headers, len: nat)
    requires CleanHeaders(h) && CANONICAL !in h.order && 0 < len && PositiveValue(Itoa(len)) == len
    requires CleanHeaders(SetHeader(h, CANONICAL, Itoa(len)))
    ensures var g := SetHeader(h, CANONICAL, Itoa(len)); HeaderLength(g, |g.order|) == RepairedLength(h, len)
  {
    hide PositiveValue, CleanText, IsLengthName;
    LengthSpelling();
  }

  /** Setting a header of another name declares the same length. */
  lemma SetOther(h: Headers, name: string, value: string)
    requires CleanHeaders(h) && CleanText(name) && Free(name, ":") && CleanText(value) && !IsLengthName(name)
    ensures var g := SetHeader(h, name, value);
      CleanHeaders(g) && HeaderLength(g, |g.order|) == HeaderLength(h, |h.order|)
  {
    CleanSet(h, name, value);
    var g := SetHeader(h, name, value);
    hide CleanText, PositiveValue, IsLengthName;
    SetOtherUpTo(h, g, name, value, |h.order|);
  }

  lemma {:induction false} SetOtherUpTo(h: Headers, g: Headers, name: string, value: string, i: nat)
    requires CleanHeaders(h) && CleanHeaders(g) && !IsLengthName(name) && g == SetHeader(h, name, value)
    requires i <= |h.order|
    ensures HeaderLength(g, i) == HeaderLength(h, i)
  {
    hide CleanText, PositiveValue, IsLengthName;
    if i > 0 { SetOtherUpTo(h, g, name, value, i - 1); }
  }

  lemma RoutingDeclares(h: Headers, name: string, value: string, routing: string -> string)
    requires CleanHeaders(h) && CleanRouting(routing) && HeaderChoice(h, name, value)
    requires name == "Contact" || name == "Record-Route"
    ensures var g := RewriteRouting(h, name, value, routing);
      CleanHeaders(g) && HeaderLength(g, |g.order|) == HeaderLength(h, |h.order|)
  {
    hide CleanText, IsLengthName, PositiveValue;
    LengthSpelling();
    if value != "" && routing(value) != value {
      assert CleanText(value);
      SetOther(h, name, routing(value));
    }
  }

  // ---------------------------------------------------------------- the exact condition

  /** The rewrite sets Content-Length. */
  predicate Repairs(m: Msg, ch: Choices) {
    Modifies(m.body, ch.relays, ch.contentType) && ch.contentLength != ""
  }

  /** The body that is sent. */
  function SentBody(m: Msg, addr: string, ch: Choices): string {
    if Modifies(m.body, ch.relays, ch.contentType) then RewriteBody(m.body, addr, ch.relays) else m.body
  }

  /** Read off the message before it is rewritten: where Content-Length is set, no header of another
      spelling behind it declares another length last; where it is not, the message declares the
      length of the body that is sent. */
  ghost predicate LengthRight(m: Msg, addr: string, ch: Choices)
    requires CleanMsg(m)
  {
    var h := m.hdrs; var len := |SentBody(m, addr, ch)|;
    if Repairs(m, ch) then
      CANONICAL in h.order ==>
        var l := LengthBetween(h, Position(h.order, CANONICAL) + 1, |h.order|); l == 0 || l == len
    else HeaderLength(h, |h.order|) == len
  }

  lemma SdpDeclares(m: Msg, addr: string, ch: Choices)
    requires CleanMsg(m) && PortsInRange(ch.relays) && |SentBody(m, addr, ch)| <= MAX_INT
    ensures var r := RewriteSDP(m, addr, ch.relays, ch.contentType, ch.contentLength);
      && CleanMsg(r) && r.body == SentBody(m, addr, ch)
      && (HeaderLength(r.hdrs, |r.hdrs.order|) == |r.body| <==> LengthRight(m, addr, ch))
  {
    hide PositiveValue, IsContentLength, CleanHeaders, CleanStart, Modifies, RewriteBody, HeaderLength, LengthBetween;
    hide StartText, SetHeader;
    if Repairs(m, ch) {
      ModifiedNotEmpty(m.body, addr, ch.relays, ch.contentType);
      SetLength(m.hdrs, |SentBody(m, addr, ch)|);
    }
  }

  /** For every clean message and whatever relays and header values are picked: the rewritten message
      frames as one message if and only if its head fits the reader's limit and the length is right. */
  lemma RewrittenFramedExactly(m: Msg, addr: string, ch: Choices, routing: string -> string)
    requires CleanMsg(m) && ValidChoices(m, addr, ch, routing) && CleanRouting(routing)
    requires |SentBody(m, addr, ch)| <= MAX_INT
    ensures var r := Rewrite(m, addr, ch, routing);
      && CleanMsg(r) && r.body == SentBody(m, addr, ch)
      && (HeaderLength(r.hdrs, |r.hdrs.order|) == |r.body| <==> LengthRight(m, addr, ch))
      && (Framed(Print(r)) <==> |HeadOf(Print(r))| + 4 <= MAX_HEADER_BYTES && LengthRight(m, addr, ch))
      && (ReadMessage(Print(r)) == Chunk(Print(r), "") ==> Framed(Print(r)))
  {
    hide ReadMessage, HeaderLength, IsContentLength, Framed, CleanHeaders, SetHeader, LengthRight, SentBody;
    var m1 := RewriteSDP(m, addr, ch.relays, ch.contentType, ch.contentLength);
    var h := RewriteRouting(m1.hdrs, "Contact", ch.contact, routing);
    SdpDeclares(m, addr, ch);
    RoutingDeclares(m1.hdrs, "Contact", ch.contact, routing);
    RoutingDeclares(h, "Record-Route", ch.recordRoute, routing);
    PrintedFramed(Rewrite(m, addr, ch, routing));
  }

  // ---------------------------------------------------------------- a single length header

  lemma {:induction false} NothingDeclared(h: Headers, lo: nat, i: nat)
    requires CleanHeaders(h) && i <= |h.order|
    requires forall k :: lo <= k < i ==> !IsLengthName(h.order[k]) || PositiveValue(h.vals[h.order[k]]) == 0
    ensures LengthBetween(h, lo, i) == 0
    decreases i
  {
    hide IsLengthName, PositiveValue, CleanText;
    if i > lo { NothingDeclared(h, lo, i - 1); }
  }

  lemma NothingBehind(h: Headers, name: string, v: string)
    requires CleanHeaders(h) && OnlyLength(h, name, v)
    ensures name in h.order && LengthBetween(h, Position(h.order, name) + 1, |h.order|) == 0
  {
    hide IsLengthName, PositiveValue, CleanText, LengthBetween, Free;
    var j := Position(h.order, name);
    assert forall k :: 0 <= k < |h.order| ==> h.order[k] in h.order;
    assert forall k :: j < k < |h.order| ==> h.order[k] != name;
    NothingDeclared(h, j + 1, |h.order|);
  }

  /** A single length header declares its own value. */
  lemma OnlyDeclares(h: Headers, name: string, v: string)
    requires CleanHeaders(h) && OnlyLength(h, name, v)
    ensures HeaderLength(h, |h.order|) == PositiveValue(v)
  {
    hide IsLengthName, PositiveValue, CleanText;
    NothingBehind(h, name, v);
    var j := Position(h.order, name);
    LengthSplit(h, j + 1, |h.order|);
    NothingBefore(h, name, v);
  }

  lemma NothingBefore(h: Headers, name: string, v: string)
    requires CleanHeaders(h) && OnlyLength(h, name, v)
    ensures name in h.order && HeaderLength(h, Position(h.order, name)) == 0
  {
    hide IsLengthName, PositiveValue, CleanText;
    var j := Position(h.order, name);
    assert forall k :: 0 <= k < |h.order| ==> h.order[k] in h.order;
    assert forall k :: 0 <= k < j ==> h.order[k] != name;
    NothingDeclared(h, 0, j);
    LengthSplit(h, 0, j);
  }

  lemma NothingAtAll(h: Headers)
    requires CleanHeaders(h) && NoLength(h)
    ensures HeaderLength(h, |h.order|) == 0
  {
    hide IsLengthName, PositiveValue, CleanText;
    assert forall k :: 0 <= k < |h.order| ==> h.order[k] in h.order;
    NothingDeclared(h, 0, |h.order|);
    LengthSplit(h, 0, |h.order|);
  }

  /** With a single length header, of whatever spelling, setting Content-Length repairs the length. */
  lemma SingleRepaired(h: Headers, name: string, v: string, len: nat)
    requires CleanHeaders(h) && OnlyLength(h, name, v) && 0 < len <= MAX_INT
    ensures var g := SetHeader(h, CANONICAL, Itoa(len)); CleanHeaders(g) && HeaderLength(g, |g.order|) == len
  {
    hide CleanText, PositiveValue, HeaderLength, LengthBetween;
    SetLength(h, len);
    if CANONICAL in h.order {
      LengthSpelling();
      assert name == CANONICAL;
      NothingBehind(h, name, v);
    }
  }

  /** A single length header with the value v. */
  lemma SingleLength(m: Msg, addr: string, ch: Choices, name: string, v: string)
    requires CleanMsg(m) && OnlyLength(m.hdrs, name, v) && HeaderChoice(m.hdrs, CANONICAL, ch.contentLength)
    ensures ch.contentLength == v
    ensures Repairs(m, ch) ==> LengthRight(m, addr, ch)
    ensures !Repairs(m, ch) ==> (LengthRight(m, addr, ch) <==> PositiveValue(v) == |SentBody(m, addr, ch)|)
  {
    hide PositiveValue, CleanText, Modifies, SentBody, IsContentLength;
    var h := m.hdrs;
    ChosenLength(h, name, v, ch.contentLength);
    OnlyDeclares(h, name, v);
    if CANONICAL in h.order {
      LengthSpelling();
      assert name == CANONICAL;
      NothingBehind(h, name, v);
    }
  }

  // ---------------------------------------------------------------- well-spelt messages

  /** The one length header of a message agrees with its body. */
  ghost predicate LengthFits(m: Msg) {
    if exists name, v :: OnlyLength(m.hdrs, name, v) then
      exists name, v :: OnlyLength(m.hdrs, name, v) && PositiveValue(v) == |m.body|
    else NoLength(m.hdrs) && m.body == ""
  }

  /** A message with one length header that agrees with its body meets the exact condition. */
  lemma FitsIsRight(m: Msg, addr: string, ch: Choices)
    requires CleanMsg(m) && LengthFits(m) && HeaderChoice(m.hdrs, CANONICAL, ch.contentLength)
    ensures LengthRight(m, addr, ch)
  {
    hide PositiveValue, IsContentLength, CleanText, Modifies, RewriteBody, HeaderLength;
    if exists name, v :: OnlyLength(m.hdrs, name, v) {
      var name, v :| OnlyLength(m.hdrs, name, v) && PositiveValue(v) == |m.body|;
      SingleLength(m, addr, ch, name, v);
      if Modifies(m.body, ch.relays, ch.contentType) { NonEmptyValue(m.body, ch.relays, ch.contentType, v); }
    } else {
      NothingAtAll(m.hdrs);
      EmptyUnmodified(ch.relays, ch.contentType);
    }
  }

  /** The SDP rewrite keeps such a message declaring the length of its body. */
  lemma SdpKeeps(m: Msg, addr: string, ch: Choices)
    requires CleanMsg(m) && LengthFits(m) && PortsInRange(ch.relays) && |SentBody(m, addr, ch)| <= MAX_INT
    requires HeaderChoice(m.hdrs, CANONICAL, ch.contentLength)
    ensures var r := RewriteSDP(m, addr, ch.relays, ch.contentType, ch.contentLength);
      CleanMsg(r) && HeaderLength(r.hdrs, |r.hdrs.order|) == |r.body|
  {
    hide LengthRight, LengthFits, HeaderLength, SentBody, CleanMsg;
    FitsIsRight(m, addr, ch);
    SdpDeclares(m, addr, ch);
  }

  /** The rewritten message frames as one message on the outgoing stream, whichever spelling of
      Content-Length the original used and whatever relays and header values were picked, exactly
      when its head still fits the reader's limit. */
  lemma RewrittenFramed(m: Msg, addr: string, ch: Choices, routing: string -> string)
    requires CleanMsg(m) && LengthFits(m)
    requires ValidChoices(m, addr, ch, routing) && CleanRouting(routing)
    requires |Rewrite(m, addr, ch, routing).body| <= MAX_INT
    ensures var r := Rewrite(m, addr, ch, routing);
      && CleanMsg(r) && HeaderLength(r.hdrs, |r.hdrs.order|) == |r.body|
      && (Framed(Print(r)) <==> |HeadOf(Print(r))| + 4 <= MAX_HEADER_BYTES)
  {
    hide LengthRight, LengthFits, HeaderLength, Framed, CleanMsg, RewriteBody, SetHeader;
    FitsIsRight(m, addr, ch);
    RewrittenFramedExactly(m, addr, ch, routing);
  }

  // ---------------------------------------------------------------- two classes of messages

  lemma CommaValue(v: string)
    requires ',' in v
    ensures PositiveValue(v) == 0
  {
    var i, j := TrimSlice(v);
    var t := TrimSpace(v);
    assert v == v[..i] + t + v[j..];
    assert ',' !in v[..i] && ',' !in v[j..];
    assert ',' in t;
    var d := if t[0] == '-' || t[0] == '+' then t[1..] else t;
    assert t == [t[0]] + t[1..];
    assert ',' in d;
  }

  lemma {:induction false} RepeatedHasComma(pairs: seq<Pair>, i: nat, j: nat)
    requires i < j < |pairs| && pairs[i].name == pairs[j].name
    ensures pairs[i].name in Merge(pairs).vals && ',' in Merge(pairs).vals[pairs[i].name]
  {
    var n := |pairs| - 1;
    var init := pairs[..n];
    if j < n {
      RepeatedHasComma(init, i, j);
    } else {
      MergedNames(init);
      assert init[i] in init;
      var v := Merge(pairs).vals[pairs[i].name];
      assert v == Merge(init).vals[pairs[i].name] + ", " + pairs[n].value;
      assert v[|Merge(init).vals[pairs[i].name]|] == ',';
    }
  }

  /** Two Content-Length headers of one spelling are merged into "a, b", which declares nothing: the
      length of a message with a body is then right if and only if its SDP is rewritten, which replaces
      or outranks the header. */
  lemma RepeatedLengthBreaks(m: Msg, pairs: seq<Pair>, i: nat, j: nat, addr: string, ch: Choices)
    requires CleanMsg(m) && m.body != "" && m.hdrs == Merge(pairs)
    requires i < j < |pairs| && pairs[i].name == pairs[j].name && IsLengthName(pairs[i].name)
    requires forall p :: p in pairs && IsLengthName(p.name) ==> p.name == pairs[i].name
    requires HeaderChoice(m.hdrs, CANONICAL, ch.contentLength)
    ensures LengthRight(m, addr, ch) <==> Modifies(m.body, ch.relays, ch.contentType)
    ensures !Framed(Print(m))
  {
    hide PositiveValue, LengthRight, Modifies, Merge, IsLengthName, IsContentLength, Framed, ReadMessage, HeaderLength;
    var name := pairs[i].name;
    RepeatedHasComma(pairs, i, j);
    var v := m.hdrs.vals[name];
    CommaValue(v);
    MergedNames(pairs);
    assert OnlyLength(m.hdrs, name, v);
    SingleLength(m, addr, ch, name, v);
    OnlyDeclares(m.hdrs, name, v);
    PrintedFramed(m);
  }

  /** Header lines of which line i, behind the first, is the only one to name a length, and a padded
      one: the stream reader sees no length in any of them. */
  ghost predicate PaddedOnly(lines: seq<string>, i: nat) {
    && 1 <= i < |lines| && !IsContentLength(lines[0])
    && NamesLength(lines[i]) && PositiveValue(HeaderValue(lines[i])) > 0
    && forall k :: 1 <= k < |lines| ==> !IsContentLength(lines[k]) && (NamesLength(lines[k]) ==> k == i)
  }

  lemma PaddedChunk(lines: seq<string>, i: nat)
    requires PaddedOnly(lines, i) && |Terminated(lines)| + 2 <= MAX_HEADER_BYTES
    requires forall l :: l in lines ==> CleanLine(l)
    ensures Framed(Render(lines, ""))
  {
    hide PositiveValue, NamesLength, IsContentLength, DeclaredLength, Framed, HeaderValue, CleanLine, ReadMessage;
    forall k | 0 <= k < |lines| ensures DeclaredLength(lines[k]) == 0 { NotDeclared(lines[k]); }
    LastLengthOnly(lines, -1);
    FramedRendered(lines, "");
  }

  lemma PaddedHeader(lines: seq<string>, i: nat) returns (name: string, v: string)
    requires PaddedOnly(lines, i)
    ensures OnlyLength(ParseHeaders(lines[1..]), name, v) && PositiveValue(v) > 0
  {
    hide PositiveValue, NamesLength, IsContentLength, HeaderValue, OnlyLength;
    var tail := lines[1..];
    var p := PairsLength(tail, i - 1);
    MergeLength(Pairs(tail), p);
    name, v := Pairs(tail)[p].name, Pairs(tail)[p].value;
  }

  /** White space before the colon hides Content-Length from the stream reader but not from the
      parser: the chunk without body frames, and the length of its message is wrong. */
  lemma PaddedLengthBreaks(lines: seq<string>, i: nat, addr: string, ch: Choices)
    requires CleanChunk(Render(lines, ""), lines, "") && IsSIP(Render(lines, ""))
    requires |Terminated(lines)| + 2 <= MAX_HEADER_BYTES && PaddedOnly(lines, i)
    requires HeaderChoice(Parse(Render(lines, "")).hdrs, CANONICAL, ch.contentLength)
    ensures Framed(Render(lines, "")) && CleanMsg(Parse(Render(lines, "")))
    ensures !LengthRight(Parse(Render(lines, "")), addr, ch) && !Framed(Print(Parse(Render(lines, ""))))
  {
    hide HeaderLength, ReadMessage, PositiveValue, Framed, LengthRight, PaddedOnly, Terminated, IsSIP, Parse;
    hide OnlyLength, IsContentLength, HeaderChoice, Print;
    PaddedChunk(lines, i);
    ParseClean(lines, "");
    var m := Parse(Render(lines, ""));
    EmptyUnmodified(ch.relays, ch.contentType);
    var name, v := PaddedHeader(lines, i);
    SingleLength(m, addr, ch, name, v);
    OnlyDeclares(m.hdrs, name, v);
    PrintedFramed(m);
  }
}
