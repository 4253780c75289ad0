/** What the tunnel does to one SIP message on its way out (internal/app/server/proxy.go:292-318),
    and why the result still frames as one message. */
module SipRewrite {
  import opened Text
  import opened SipMessage
  import opened SipStream
  import opened Sdp

  const LENGTH_NAME: string := "content-length"
  const METHODS: seq<string> := ["INVITE ", "ACK ", "BYE ", "CANCEL ", "REGISTER ", "OPTIONS ", "PRACK ",
    "SUBSCRIBE ", "NOTIFY ", "UPDATE ", "REFER ", "MESSAGE ", "INFO ", "PUBLISH ", "SIP/2.0 "]

  predicate IsSIP(data: string) {
    |data| >= 4 && exists p :: p in METHODS && HasPrefix(data, p)
  }

  // ---------------------------------------------------------------- header access

  /** The values GetHeader may return: the exact spelling wins, otherwise any spelling that differs
      in case only, in whatever order the map is walked. */
  ghost predicate HeaderChoice(h: Headers, name: string, v: string) {
    if name in h.vals then v == h.vals[name]
    else if exists k :: k in h.vals && Lower(k) == Lower(name) then
      exists k :: k in h.vals && Lower(k) == Lower(name) && v == h.vals[k]
    else v == ""
  }

  function SetHeader(h: Headers, name: string, value: string): Headers {
    Headers(h.vals[name := value], if name in h.vals then h.order else h.order + [name])
  }

  // ---------------------------------------------------------------- rewriting

  predicate Touched(l: string, port: int) {
    IsC(l) || (IsO(l) && |Parts(l)| >= 6) || (IsM(l) && port > 0 && |Parts(l)| >= 2)
  }

  predicate AnyTouched(lines: seq<string>, relays: map<int, int>, idx: nat) {
    lines != [] &&
    (Touched(lines[0], PortFor(relays, idx))
      || AnyTouched(lines[1..], relays, if IsM(lines[0]) then idx + 1 else idx))
  }

  predicate IsSdp(contentType: string) {
    contentType == "" || Index(Lower(contentType), "application/sdp") >= 0
  }

  predicate Modifies(body: string, relays: map<int, int>, contentType: string) {
    body != "" && IsSdp(contentType) && AnyTouched(Split(body, CRLF), relays, 0)
  }

  /** RewriteSDPWithRelays; with no relays it is RewriteSDP with publicPort 0. */
  function RewriteSDP(m: Msg, addr: string, relays: map<int, int>, contentType: string, contentLength: string): Msg {
    if !Modifies(m.body, relays, contentType) then m
    else
      var body := RewriteBody(m.body, addr, relays);
      m.(body := body,
         hdrs := if contentLength != "" then SetHeader(m.hdrs, "Content-Length", Itoa(|body|)) else m.hdrs)
  }

  /** One step of RewriteRoutingHeaders; `routing` stands for the substitution of hosts in SIP URIs. */
  function RewriteRouting(h: Headers, name: string, value: string, routing: string -> string): Headers {
    if value == "" || routing(value) == value then h else SetHeader(h, name, routing(value))
  }

  /** What the run contributes: the relays allocated and the header values GetHeader picked. */
  datatype Choices = Choices(relays: map<int, int>, contentType: string, contentLength: string,
                             contact: string, recordRoute: string)

  ghost predicate ValidChoices(m: Msg, addr: string, ch: Choices, routing: string -> string) {
    var m1 := RewriteSDP(m, addr, ch.relays, ch.contentType, ch.contentLength);
    && PortsInRange(ch.relays)
    && HeaderChoice(m.hdrs, "Content-Type", ch.contentType)
    && HeaderChoice(m.hdrs, "Content-Length", ch.contentLength)
    && HeaderChoice(m1.hdrs, "Contact", ch.contact)
    && HeaderChoice(RewriteRouting(m1.hdrs, "Contact", ch.contact, routing), "Record-Route", ch.recordRoute)
  }

  function Rewrite(m: Msg, addr: string, ch: Choices, routing: string -> string): Msg {
    var m1 := RewriteSDP(m, addr, ch.relays, ch.contentType, ch.contentLength);
    var h := RewriteRouting(m1.hdrs, "Contact", ch.contact, routing);
    m1.(hdrs := RewriteRouting(h, "Record-Route", ch.recordRoute, routing))
  }

  // ---------------------------------------------------------------- clean messages

  /** No bare carriage return or line feed. */
  ghost predicate CleanText(s: string) {
    forall k :: 0 <= k < |s| ==> s[k] != '\r' && s[k] != '\n'
  }

  ghost predicate CleanStart(s: StartLine) {
    match s
    case Request(v, u, ver) => CleanText(v) && CleanText(u) && CleanText(ver)
    case Response(ver, st, reason) => CleanText(ver) && CleanText(st) && CleanText(reason)
  }

  ghost predicate CleanHeaders(h: Headers) {
    && (forall n :: n in h.order <==> n in h.vals)
    && Distinct(h.order)
    && (forall n :: n in h.vals ==> Free(n, ":") && CleanText(n) && CleanText(h.vals[n]))
  }

  ghost predicate CleanMsg(m: Msg) {
    CleanStart(m.start) && CleanHeaders(m.hdrs) && !IsContentLength(StartText(m.start))
  }

  predicate IsLengthName(name: string) {
    Lower(name) == LENGTH_NAME
  }

  /** The positive number in a header value, or 0. */
  function PositiveValue(v: string): nat {
    match Atoi(TrimSpace(v))
    case None => 0
    case Some(n) => if n > 0 then n else 0
  }

  /** The body length a reader will use: the last positive value under any spelling of Content-Length. */
  function HeaderLength(h: Headers, i: nat): nat
    requires i <= |h.order| && forall n :: n in h.order ==> n in h.vals
  {
    if i == 0 then 0
    else
      var n := h.order[i - 1];
      if IsLengthName(n) && PositiveValue(h.vals[n]) > 0 then PositiveValue(h.vals[n]) else HeaderLength(h, i - 1)
  }

  // ---------------------------------------------------------------- a printed message, framed

  lemma NameLowers(n: string, line: string)
    requires HasPrefix(line, n + ":")
    ensures Lower(line)[..|n| + 1] == Lower(n) + ":"
  {
    var k := |n|;
    assert forall i :: 0 <= i < k ==> line[i] == (n + ":")[i] == n[i];
    assert line[k] == (n + ":")[k] == ':';
  }

  /** A printed header line, its name and the rest. */
  lemma PrintedName(n: string, v: string)
    requires Free(n, ":")
    ensures var line := n + ": " + v;
      |line| > |n| && Lower(line)[..|n| + 1] == Lower(n) + ":" && line[|n| + 1..] == " " + v && Index(line, ":") == |n|
  {
    var line := n + ": " + v;
    assert line == n + ":" + (" " + v);
    Behind(n + ":", " " + v);
    NameLowers(n, line);
    CommonSeparators();
    IndexOfSeparator(n, ":", " " + v);
  }

  lemma ContentLengthIs()
    ensures CONTENT_LENGTH == LENGTH_NAME + ":" && |CONTENT_LENGTH| == |LENGTH_NAME| + 1
  {
  }

  lemma PrintedIsLength(n: string, v: string)
    requires Free(n, ":")
    ensures IsContentLength(n + ": " + v) <==> IsLengthName(n)
  {
    hide *;
    PrintedName(n, v);
    ContentLengthIs();
    var line := n + ": " + v;
    if IsContentLength(line) { LengthColon(line); }
    assert IsContentLength(line) <==> HasPrefix(Lower(line), CONTENT_LENGTH) by { LengthMeans(line, n); }
    assert IsLengthName(n) <==> Lower(n) == LENGTH_NAME by { LengthMeans(line, n); }
    PrefixMeans(Lower(line), CONTENT_LENGTH);
    if |n| == |LENGTH_NAME| { SameBefore(Lower(n), LENGTH_NAME); }
  }

  lemma LengthMeans(line: string, n: string)
    ensures IsContentLength(line) <==> HasPrefix(Lower(line), CONTENT_LENGTH)
    ensures IsLengthName(n) <==> Lower(n) == LENGTH_NAME
  {
    hide Lower;
  }

  lemma PrefixMeans(s: string, p: string)
    ensures HasPrefix(s, p) <==> |s| >= |p| && s[..|p|] == p
  {
  }

  lemma SameBefore(a: string, b: string)
    requires |a| == |b|
    ensures a + ":" == b + ":" <==> a == b
  {
    Behind(a, ":");
    Behind(b, ":");
  }

  /** A printed header declares a length exactly when its name is some spelling of Content-Length. */
  lemma PrintedLength(n: string, v: string)
    requires Free(n, ":")
    ensures DeclaredLength(n + ": " + v) == if IsLengthName(n) then PositiveValue(v) else 0
  {
    PrintedName(n, v);
    PrintedIsLength(n, v);
    if IsLengthName(n) { TrimAfterSpace(v); }
    hide CONTENT_LENGTH, LENGTH_NAME, IsContentLength, Index, TrimSpace, Atoi, Free;
    ContentLengthIs();
  }

  lemma CleanPrinted(m: Msg)
    requires CleanMsg(m)
    ensures forall l :: l in HeadLines(m) ==> CleanLine(l)
  {
    var lines := HeaderLines(m.hdrs);
    forall i | 0 <= i < |lines| ensures CleanLine(lines[i]) {
      CleanGlue(m.hdrs.order[i], ": ", m.hdrs.vals[m.hdrs.order[i]]);
    }
    match m.start
    case Request(v, u, ver) =>
      CleanGlue(v, " ", u);
      CleanGlue(v + " " + u, " ", ver);
    case Response(ver, st, reason) =>
      CleanGlue(ver, " ", st);
      CleanGlue(ver + " " + st, " ", reason);
  }

  lemma CleanGlue(a: string, g: string, b: string)
    requires CleanText(a) && CleanText(g) && CleanText(b) && g != ""
    ensures CleanLine(a + g + b) && CleanText(a + g + b)
  {
  }

  lemma {:induction false} LastLengthAppend(lines: seq<string>, l: string, cl: nat)
    ensures LastLength(lines + [l], cl) == UpdateLength(LastLength(lines, cl), l)
  {
    hide DeclaredLength, UpdateLength;
    if lines == [] {
      assert [l][1..] == [];
    } else {
      LastLengthAppend(lines[1..], l, UpdateLength(cl, lines[0]));
      assert (lines + [l])[1..] == lines[1..] + [l];
    }
  }

  lemma {:induction false} HeaderLengthPrinted(h: Headers, i: nat)
    requires CleanHeaders(h) && i <= |h.order|
    ensures LastLength(HeaderLines(h)[..i], 0) == HeaderLength(h, i)
  {
    hide DeclaredLength, PositiveValue, IsLengthName;
    if i > 0 {
      HeaderLengthPrinted(h, i - 1);
      var n := h.order[i - 1];
      assert HeaderLines(h)[..i] == HeaderLines(h)[..i - 1] + [HeaderText(h, i - 1)];
      LastLengthAppend(HeaderLines(h)[..i - 1], HeaderText(h, i - 1), 0);
      PrintedLength(n, h.vals[n]);
    }
  }

  /** A clean message prints as one framed message exactly when its head fits the reader's limit and
      the last positive Content-Length it carries is the length of its body. */
  lemma PrintedFramed(m: Msg)
    requires CleanMsg(m)
    ensures Framed(Print(m)) <==>
      |HeadOf(Print(m))| + 4 <= MAX_HEADER_BYTES && HeaderLength(m.hdrs, |m.hdrs.order|) == |m.body|
    ensures ReadMessage(Print(m)) == Chunk(Print(m), "") ==> Framed(Print(m))
  {
    hide HeaderLength, DeclaredLength, Framed, ReadMessage;
    var lines := HeadLines(m);
    var hl := HeaderLines(m.hdrs);
    CleanPrinted(m);
    FramedRendered(lines, m.body);
    HeaderLengthPrinted(m.hdrs, |hl|);
    assert hl[..|hl|] == hl && lines[1..] == hl;
    assert DeclaredLength(lines[0]) == 0 by { NotDeclared(lines[0]); }
    assert LastLength(lines, 0) == LastLength(hl, 0);
    HeadLength(lines, m.body);
  }

  lemma NotDeclared(l: string)
    requires !IsContentLength(l)
    ensures DeclaredLength(l) == 0
  {
  }

  lemma CleanIsHeadLine(l: string)
    requires CleanLine(l)
    ensures HeadLine(l)
  {
    FreeCRLF(l);
  }

  lemma HeadLength(lines: seq<string>, body: string)
    requires lines != [] && forall l :: l in lines ==> CleanLine(l)
    ensures |HeadOf(Render(lines, body))| + 4 == |Terminated(lines)| + 2
  {
    forall l | l in lines ensures HeadLine(l) { CleanIsHeadLine(l); }
    HeadEnds(lines, body);
    TerminatedJoin(lines);
  }

  // ---------------------------------------------------------------- from a clean chunk to a clean message

  /** A header line whose name is some spelling of Content-Length, as the parser reads names. */
  predicate NamesLength(l: string) {
    IsHeader(l) && IsLengthName(HeaderName(l))
  }

  /** At most one header names the length, and it stands at the start of its line with its colon
      right behind, as the stream reader wants it; letter case is free. */
  ghost predicate OneLength(lines: seq<string>) {
    && (forall i, j :: 0 <= i < j < |lines| ==> !(NamesLength(lines[i]) && NamesLength(lines[j])))
    && (forall l :: l in lines && NamesLength(l) ==> IsContentLength(l))
  }

  /** A chunk whose head consists of CRLF-terminated lines without bare CR or LF. */
  ghost predicate CleanChunk(c: string, lines: seq<string>, body: string) {
    lines != [] && (forall l :: l in lines ==> CleanLine(l)) && c == Render(lines, body)
  }

  lemma CleanSlice(s: string, i: nat, j: nat)
    requires CleanText(s) && i <= j <= |s|
    ensures CleanText(s[i..j])
  {
  }

  lemma CleanTrim(s: string)
    requires CleanText(s)
    ensures CleanText(TrimSpace(s))
  {
    var i, j := TrimSlice(s);
    CleanSlice(s, i, j);
  }

  lemma CleanHeader(l: string)
    requires CleanLine(l) && IsHeader(l)
    ensures CleanText(HeaderName(l)) && CleanText(HeaderValue(l)) && Free(HeaderName(l), ":")
  {
    CleanIsHeadLine(l);
    HeaderParts(l);
    var i := Index(l, ":");
    CleanTrim(l[..i]);
    CleanTrim(l[i + 1..]);
  }

  /** A line the stream reader takes for Content-Length is one for the parser too, with that value. */
  lemma LengthHeader(l: string)
    requires IsContentLength(l)
    ensures NamesLength(l) && DeclaredLength(l) == PositiveValue(HeaderValue(l))
  {
    hide Index, Atoi;
    LengthColon(l);
    var k := |LENGTH_NAME|;
    var name := l[..k];
    PrefixChars(Lower(l), CONTENT_LENGTH);
    assert Lower(name) == LENGTH_NAME;
    assert LENGTH_NAME[0] == 'c' && LENGTH_NAME[k - 1] == 'h';
    TrimIdempotent(name);
    TrimIdempotent(l[k + 1..]);
    TrimIdempotent(TrimSpace(l[k + 1..]));
  }

  /** The colon of a line that starts with "content-length:" is its sixteenth character. */
  lemma LengthColon(l: string)
    requires IsContentLength(l)
    ensures Index(l, ":") == |LENGTH_NAME|
  {
    var k := |LENGTH_NAME|;
    PrefixChars(Lower(l), CONTENT_LENGTH);
    assert Lower(l)[k] == ':' && l[k..k + 1] == [l[k]];
    forall i | 0 <= i < k ensures !Occurs(l, ":", i) {
      assert l[i..i + 1] == [l[i]] && Lower(l)[i] != ':';
    }
    IndexIs(l, ":", k);
  }

  lemma {:induction false} CleanPairs(lines: seq<string>)
    requires forall l :: l in lines ==> CleanLine(l)
    ensures forall p :: p in Pairs(lines) ==> CleanText(p.name) && CleanText(p.value) && Free(p.name, ":")
  {
    hide HeaderName, HeaderValue, IsHeader;
    if lines != [] {
      CleanPairs(lines[..|lines| - 1]);
      var l := lines[|lines| - 1];
      assert l in lines;
      if IsHeader(l) { CleanHeader(l); }
    }
  }

  lemma {:induction false} CleanMerge(pairs: seq<Pair>)
    requires forall p :: p in pairs ==> CleanText(p.name) && CleanText(p.value) && Free(p.name, ":")
    ensures CleanHeaders(Merge(pairs))
  {
    if pairs != [] {
      var init := pairs[..|pairs| - 1];
      CleanMerge(init);
      var p := pairs[|pairs| - 1];
      if p.name in Merge(init).vals { CleanGlue(Merge(init).vals[p.name], ", ", p.value); }
    }
  }

  lemma CutClean(s: string)
    requires Index(s, " ") >= 0
    ensures var i := Index(s, " "); s == s[..i] + " " + s[i + 1..]
    ensures var i := Index(s, " "); CleanText(s) ==> CleanText(s[..i]) && CleanText(s[i + 1..])
  {
    hide Index;
    IndexFirst(s, " ");
    var i := Index(s, " ");
    assert s[i..i + 1] == " ";
  }

  lemma Glued(l: string, a: string, b: string, c: string)
    requires l == a + " " + (b + " " + c) || (c == "" && l == a + " " + b) || (c == b == "" && l == a)
    ensures HasPrefix(a + " " + b + " " + c, l)
  {
    var s := a + " " + b + " " + c;
    assert s == a + " " + (b + " " + c);
    if l == a + " " + b { assert s == l + (" " + c); }
    if l == a && b == "" { assert s == l + (" " + b + " " + c); }
  }

  /** Joining the three parts again gives back the line, or the line and the missing spaces. */
  lemma PartsRejoin(l: string)
    ensures var (a, b, c) := SplitN3(l); HasPrefix(a + " " + b + " " + c, l)
  {
    hide Index, CleanText, HasPrefix;
    var (a, b, c) := SplitN3(l);
    if Index(l, " ") >= 0 {
      CutClean(l);
      var rest := l[Index(l, " ") + 1..];
      if Index(rest, " ") >= 0 { CutClean(rest); }
    }
    Glued(l, a, b, c);
  }

  lemma PartsClean(l: string)
    requires CleanText(l)
    ensures var (a, b, c) := SplitN3(l); CleanText(a) && CleanText(b) && CleanText(c)
  {
    hide Index;
    if Index(l, " ") >= 0 {
      CutClean(l);
      var rest := l[Index(l, " ") + 1..];
      if Index(rest, " ") >= 0 { CutClean(rest); }
    }
  }

  /** The request or status line as printed starts with the line it was parsed from. */
  lemma StartKept(l: string)
    ensures HasPrefix(StartText(ParseStart(l)), l)
    ensures CleanText(l) ==> CleanStart(ParseStart(l))
  {
    hide SplitN3, CleanText;
    PartsRejoin(l);
    if CleanText(l) { PartsClean(l); }
  }

  lemma PrefixChars(s: string, p: string)
    requires HasPrefix(s, p)
    ensures forall k :: 0 <= k < |p| ==> s[k] == p[k]
  {
    assert forall k :: 0 <= k < |p| ==> s[..|p|][k] == s[k];
  }

  lemma RenderStart(lines: seq<string>, body: string)
    requires lines != []
    ensures var c := Render(lines, body); var n := |lines[0]|;
      n < |c| && c[n] == '\r' && forall k :: 0 <= k < n ==> c[k] == lines[0][k]
  {
    assert Render(lines, body) == lines[0] + CRLF + (Terminated(lines[1..]) + CRLF + body);
  }

  lemma MethodOf(c: string) returns (p: string)
    requires IsSIP(c)
    ensures |p| >= 4 && |c| >= 4 && (LowerChar(p[0]) != 'c' || LowerChar(p[1]) != 'o')
    ensures c[0] == p[0] && c[1] == p[1] && p[0] != '\r' && p[1] != '\r'
  {
    p :| p in METHODS && HasPrefix(c, p);
    MethodStart(p);
    PrefixChars(c, p);
  }

  /** No SIP method, and no status line, starts like a Content-Length header. */
  lemma SipIsNotLength(lines: seq<string>, body: string)
    requires lines != [] && CleanLine(lines[0]) && IsSIP(Render(lines, body))
    ensures !IsContentLength(StartText(ParseStart(lines[0])))
  {
    hide ParseStart, StartText, IsContentLength, Render, IsSIP;
    var l := lines[0];
    var s := StartText(ParseStart(l));
    StartKept(l);
    var p := MethodOf(Render(lines, body));
    RenderStart(lines, body);
    PrefixChars(s, l);
    assert s[0] == p[0] && s[1] == p[1];
    NotLength(s);
  }

  lemma NotLength(s: string)
    requires |s| >= 2 && (LowerChar(s[0]) != 'c' || LowerChar(s[1]) != 'o')
    ensures !IsContentLength(s)
  {
    if IsContentLength(s) {
      PrefixChars(Lower(s), CONTENT_LENGTH);
    }
  }

  lemma MethodStart(p: string)
    requires p in METHODS
    ensures |p| >= 4 && p[0] != '\r' && p[1] != '\r' && (LowerChar(p[0]) != 'c' || LowerChar(p[1]) != 'o')
  {
  }

  lemma ParseClean(lines: seq<string>, body: string)
    requires CleanChunk(Render(lines, body), lines, body) && IsSIP(Render(lines, body))
    ensures var m := Parse(Render(lines, body));
      CleanMsg(m) && m.body == body && m.hdrs == ParseHeaders(lines[1..])
  {
    assert lines[0] in lines;
    forall l | l in lines ensures HeadLine(l) { CleanIsHeadLine(l); }
    ParseRendered(lines, body);
    StartKept(lines[0]);
    SipIsNotLength(lines, body);
    CleanPairs(lines[1..]);
    CleanMerge(Pairs(lines[1..]));
  }

  // ---------------------------------------------------------------- one header carries the length

  /** Everything before line n of a run of lines that declare nothing, or only line j declares. */
  lemma {:induction false} LastLengthOnly(lines: seq<string>, j: int)
    requires -1 <= j < |lines|
    requires forall k :: 0 <= k < |lines| && k != j ==> DeclaredLength(lines[k]) == 0
    ensures LastLength(lines, 0) == if j < 0 then 0 else DeclaredLength(lines[j])
  {
    hide DeclaredLength;
    if lines != [] {
      var n := |lines| - 1;
      assert lines == lines[..n] + [lines[n]];
      LastLengthOnly(lines[..n], if j == n then -1 else j);
      LastLengthAppend(lines[..n], lines[n], 0);
    }
  }

  /** The only name in h that is a spelling of Content-Length is n0, and its value is v. */
  ghost predicate OnlyLength(h: Headers, n0: string, v: string) {
    && n0 in h.vals && h.vals[n0] == v && IsLengthName(n0)
    && forall n :: n in h.vals && IsLengthName(n) ==> n == n0
  }

  ghost predicate NoLength(h: Headers) {
    forall n :: n in h.vals ==> !IsLengthName(n)
  }

  lemma {:induction false} MergeLength(pairs: seq<Pair>, j: int)
    requires -1 <= j < |pairs|
    requires forall k :: 0 <= k < |pairs| ==> (IsLengthName(pairs[k].name) <==> k == j)
    ensures if j < 0 then NoLength(Merge(pairs)) else OnlyLength(Merge(pairs), pairs[j].name, pairs[j].value)
  {
    hide IsLengthName;
    if pairs != [] {
      var n := |pairs| - 1;
      MergeLength(pairs[..n], if j == n then -1 else j);
    }
  }

  /** Where the length stands among the pairs, when it stands among the lines. */
  lemma {:induction false} PairsLength(lines: seq<string>, j: int) returns (p: int)
    requires -1 <= j < |lines|
    requires forall k :: 0 <= k < |lines| ==> (NamesLength(lines[k]) <==> k == j)
    ensures -1 <= p < |Pairs(lines)| && (j >= 0 <==> p >= 0)
    ensures forall k :: 0 <= k < |Pairs(lines)| ==> (IsLengthName(Pairs(lines)[k].name) <==> k == p)
    ensures j >= 0 ==> IsHeader(lines[j]) && Pairs(lines)[p].value == HeaderValue(lines[j])
  {
    hide IsLengthName, IsHeader, HeaderName, HeaderValue;
    p := -1;
    if lines != [] {
      var n := |lines| - 1;
      p := PairsLength(lines[..n], if j == n then -1 else j);
      if j == n { p := |Pairs(lines)| - 1; }
    }
  }

  /** With one well-placed length header, the length the stream reader finds in the lines and the
      length header of the parsed message are the same. */
  lemma ParsedLength(lines: seq<string>)
    requires forall l :: l in lines ==> CleanLine(l)
    requires OneLength(lines)
    ensures var h := ParseHeaders(lines); var n := LastLength(lines, 0);
      if exists l :: l in lines && NamesLength(l)
      then exists n0, v :: OnlyLength(h, n0, v) && PositiveValue(v) == n
      else NoLength(h) && n == 0
  {
    hide NamesLength, DeclaredLength, PositiveValue, HeaderValue, IsContentLength;
    var j := -1;
    if exists l :: l in lines && NamesLength(l) {
      j :| 0 <= j < |lines| && NamesLength(lines[j]);
    }
    forall k | 0 <= k < |lines| ensures NamesLength(lines[k]) <==> k == j {
      assert lines[k] in lines;
    }
    forall k | 0 <= k < |lines| && k != j ensures DeclaredLength(lines[k]) == 0 {
      if IsContentLength(lines[k]) { LengthHeader(lines[k]); }
      if !IsContentLength(lines[k]) { NotDeclared(lines[k]); }
    }
    LastLengthOnly(lines, j);
    var p := PairsLength(lines, j);
    MergeLength(Pairs(lines), p);
    if j >= 0 {
      LengthHeader(lines[j]);
    }
  }

  // ---------------------------------------------------------------- what the rewriting sets

  lemma LengthSpelling()
    ensures IsLengthName("Content-Length") && CleanText("Content-Length") && Free("Content-Length", ":")
    ensures !IsLengthName("Contact") && !IsLengthName("Record-Route")
    ensures CleanText("Contact") && Free("Contact", ":") && CleanText("Record-Route") && Free("Record-Route", ":")
  {
    assert Lower("Content-Length") == LENGTH_NAME;
    assert |"Contact"| != |LENGTH_NAME| && |"Record-Route"| != |LENGTH_NAME|;
    NoColonFree("Content-Length");
    NoColonFree("Contact");
    NoColonFree("Record-Route");
  }

  lemma NoColonFree(s: string)
    requires forall c :: c in s ==> c != ':'
    ensures Free(s, ":")
  {
    forall k ensures !Occurs(s, ":", k) {
      if 0 <= k < |s| { assert s[k..k + 1] == [s[k]] && s[k] in s; }
    }
  }

  lemma PositiveItoa(len: nat)
    requires 0 < len <= MAX_INT
    ensures PositiveValue(Itoa(len)) == len && CleanText(Itoa(len))
  {
    AtoiItoa(len);
    TrimIdempotent(Itoa(len));
  }

  lemma CleanSet(h: Headers, name: string, value: string)
    requires CleanHeaders(h) && CleanText(name) && Free(name, ":") && CleanText(value)
    ensures CleanHeaders(SetHeader(h, name, value))
  {
  }

  /** The substitution of hosts in routing headers adds no line break. */
  ghost predicate CleanRouting(routing: string -> string) {
    forall v :: CleanText(v) ==> CleanText(routing(v))
  }

  /** A touched SDP body never becomes empty. */
  lemma ModifiedNotEmpty(body: string, addr: string, relays: map<int, int>, contentType: string)
    requires Modifies(body, relays, contentType) && PortsInRange(relays)
    ensures RewriteBody(body, addr, relays) != ""
  {
    hide RewriteLine;
    var lines := Split(body, CRLF);
    var after := RewriteLines(lines, addr, relays, 0);
    NonEmptyBody(after);
    if RewriteBody(body, addr, relays) == "" {
      assert after == [""] && |lines| == 1;
      SameKind(lines[0], addr, PortFor(relays, 0));
      FirstChar("");
    }
  }

  lemma NonEmptyValue(body: string, relays: map<int, int>, contentType: string, v: string)
    requires Modifies(body, relays, contentType) && PositiveValue(v) == |body|
    ensures v != ""
  {
  }

  lemma EmptyUnmodified(relays: map<int, int>, contentType: string)
    ensures !Modifies("", relays, contentType)
  {
  }

  lemma ChosenLength(h: Headers, n0: string, v: string, contentLength: string)
    requires OnlyLength(h, n0, v) && HeaderChoice(h, "Content-Length", contentLength)
    ensures contentLength == v
  {
    LengthSpelling();
    assert Lower(n0) == Lower("Content-Length");
  }
}
