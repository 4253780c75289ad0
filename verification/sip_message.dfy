/** SIP messages: parsing, printing and header access (internal/app/protocol/sip/sip.go).
    `Msg` is the value of a message, `Message` the object whose fields the program updates. */
module SipMessage {
  import opened Text

  const BLANK: string := "\r\n\r\n"

  datatype StartLine =
    | Request(verb: string, uri: string, version: string)
    | Response(version: string, status: string, reason: string)

  datatype Headers = Headers(vals: map<string, string>, order: seq<string>)

  datatype Msg = Msg(start: StartLine, hdrs: Headers, body: string)

  // ---------------------------------------------------------------- parsing

  /** strings.SplitN(line, " ", 3), missing parts read as empty. */
  function SplitN3(line: string): (string, string, string) {
    var i := Index(line, " ");
    if i < 0 then (line, "", "")
    else
      var rest := line[i + 1..];
      var j := Index(rest, " ");
      if j < 0 then (line[..i], rest, "") else (line[..i], rest[..j], rest[j + 1..])
  }

  function ParseStart(line: string): StartLine {
    var (a, b, c) := SplitN3(line);
    if HasPrefix(line, "SIP/") then Response(a, b, c) else Request(a, b, c)
  }

  predicate IsHeader(line: string) {
    Index(line, ":") >= 0
  }

  function HeaderName(line: string): string
    requires IsHeader(line)
  {
    TrimSpace(line[..Index(line, ":")])
  }

  function HeaderValue(line: string): string
    requires IsHeader(line)
  {
    TrimSpace(line[Index(line, ":") + 1..])
  }

  datatype Pair = Pair(name: string, value: string)

  /** The name and value of every line that has a colon; the others are skipped. */
  function Pairs(lines: seq<string>): seq<Pair> {
    if lines == [] then []
    else
      var line := lines[|lines| - 1];
      Pairs(lines[..|lines| - 1])
      + (if IsHeader(line) then [Pair(HeaderName(line), HeaderValue(line))] else [])
  }

  /** A known name keeps its place and gains the value after a comma. */
  function AddPair(h: Headers, p: Pair): Headers {
    if p.name in h.vals then h.(vals := h.vals[p.name := h.vals[p.name] + ", " + p.value])
    else Headers(h.vals[p.name := p.value], h.order + [p.name])
  }

  function Merge(pairs: seq<Pair>): Headers {
    if pairs == [] then Headers(map[], [])
    else AddPair(Merge(pairs[..|pairs| - 1]), pairs[|pairs| - 1])
  }

  function ParseHeaders(lines: seq<string>): Headers {
    Merge(Pairs(lines))
  }

  /** The lines before the first empty line, or all of them. */
  function HeadOf(data: string): string {
    var idx := Index(data, BLANK);
    if idx >= 0 then data[..idx] else data
  }

  function BodyOf(data: string): string {
    var idx := Index(data, BLANK);
    if idx >= 0 then data[idx + 4..] else ""
  }

  function Parse(data: string): Msg {
    var lines := Split(HeadOf(data), CRLF);
    Msg(ParseStart(lines[0]), ParseHeaders(lines[1..]), BodyOf(data))
  }

  // ---------------------------------------------------------------- printing

  ghost predicate Distinct(order: seq<string>) {
    forall i, j :: 0 <= i < j < |order| ==> order[i] != order[j]
  }

  /** HeaderOrder lists every key of Headers exactly once. */
  ghost predicate Consistent(h: Headers) {
    && Distinct(h.order)
    && (forall n :: n in h.order <==> n in h.vals)
  }

  function StartText(s: StartLine): string {
    match s
    case Request(verb, uri, version) => verb + " " + uri + " " + version
    case Response(version, status, reason) => version + " " + status + " " + reason
  }

  function HeaderText(h: Headers, i: nat): string
    requires i < |h.order| && h.order[i] in h.vals
  {
    h.order[i] + ": " + h.vals[h.order[i]]
  }

  function HeaderLines(h: Headers): (r: seq<string>)
    requires forall n :: n in h.order ==> n in h.vals
    ensures |r| == |h.order|
  {
    seq(|h.order|, i requires 0 <= i < |h.order| => HeaderText(h, i))
  }

  function HeadLines(m: Msg): seq<string>
    requires forall n :: n in m.hdrs.order ==> n in m.hdrs.vals
  {
    [StartText(m.start)] + HeaderLines(m.hdrs)
  }

  /** Every line followed by CRLF. */
  function Terminated(lines: seq<string>): string {
    if lines == [] then "" else lines[0] + CRLF + Terminated(lines[1..])
  }

  function Render(lines: seq<string>, body: string): string {
    Terminated(lines) + CRLF + body
  }

  function Print(m: Msg): string
    requires forall n :: n in m.hdrs.order ==> n in m.hdrs.vals
  {
    Render(HeadLines(m), m.body)
  }

  lemma {:induction false} TerminatedAppend(lines: seq<string>, l: string)
    ensures Terminated(lines + [l]) == Terminated(lines) + l + CRLF
  {
    if lines == [] {
      assert lines + [l] == [l];
    } else {
      TerminatedAppend(lines[1..], l);
      assert (lines + [l])[1..] == lines[1..] + [l] && (lines + [l])[0] == lines[0];
      var first, rest := lines[0] + CRLF, Terminated(lines[1..]);
      Regroup(first, rest + l, CRLF);
      Regroup(first, rest, l);
    }
  }

  lemma {:induction false} TerminatedJoin(lines: seq<string>)
    requires lines != []
    ensures Terminated(lines) == Join(lines, CRLF) + CRLF
  {
    if |lines| > 1 {
      TerminatedJoin(lines[1..]);
    }
  }

  // ---------------------------------------------------------------- the head ends where it was written

  /** A head line that survives printing: not empty and without a CRLF. */
  ghost predicate HeadLine(l: string) {
    l != "" && Free(l, CRLF)
  }

  lemma BlankNeedsCRLF(s: string, k: int)
    requires Occurs(s, BLANK, k)
    ensures Occurs(s, CRLF, k) && Occurs(s, CRLF, k + 2)
  {
    SliceSlice(s, k, k + 4, 0, 2);
    SliceSlice(s, k, k + 4, 2, 4);
    assert BLANK[0..2] == CRLF && BLANK[2..4] == CRLF;
  }

  lemma BlankFirst(body: string)
    ensures Occurs(CRLF + (CRLF + body), BLANK, 0)
  {
    assert (CRLF + (CRLF + body))[0..4] == BLANK;
  }

  lemma OneLineEnds(l: string, body: string)
    requires HeadLine(l)
    ensures Index(l + CRLF + (CRLF + body), BLANK) == |l|
  {
    hide Index, Free, Occurs;
    var rest := CRLF + body;
    var s := l + CRLF + rest;
    BlankFirst(body);
    OccursBehind(l, CRLF + rest, BLANK, 0);
    Regroup(l, CRLF, rest);
    CommonSeparators();
    forall k | 0 <= k < |l| ensures !Occurs(s, BLANK, k) {
      NoEarlierOccurrence(l, CRLF, rest, k);
      if Occurs(s, BLANK, k) { BlankNeedsCRLF(s, k); }
    }
    IndexIs(s, BLANK, |l|);
  }

  lemma NextLineEnds(l: string, rest: string)
    requires HeadLine(l) && !Occurs(rest, CRLF, 0) && Index(rest, BLANK) >= 0
    ensures Index(l + CRLF + rest, BLANK) == |l| + 2 + Index(rest, BLANK)
  {
    hide Index, Free, Occurs;
    var s, n, r := l + CRLF + rest, |l + CRLF|, Index(rest, BLANK);
    IndexFirst(rest, BLANK);
    OccursBehind(l + CRLF, rest, BLANK, r);
    forall k | 0 <= k < n + r ensures !Occurs(s, BLANK, k) {
      if k >= n { assert !Occurs(rest, BLANK, k - n); }
      ShiftedBlank(l, rest, k);
    }
    IndexIs(s, BLANK, n + r);
  }

  lemma {:induction false} HeadEnds(lines: seq<string>, body: string)
    requires lines != [] && forall l :: l in lines ==> HeadLine(l)
    ensures Index(Render(lines, body), BLANK) == |Join(lines, CRLF)|
  {
    hide Index, Occurs, HeadLine;
    var l := lines[0];
    assert l in lines;
    if |lines| == 1 {
      assert Terminated(lines) == l + CRLF;
      assert Render(lines, body) == l + CRLF + (CRLF + body);
      OneLineEnds(l, body);
    } else {
      var rest := Render(lines[1..], body);
      HeadEnds(lines[1..], body);
      assert Render(lines, body) == l + CRLF + rest;
      assert lines[1] in lines;
      NextLineNoCRLF(lines[1..], body);
      NextLineEnds(l, rest);
    }
  }

  lemma NextLineNoCRLF(lines: seq<string>, body: string)
    requires lines != [] && HeadLine(lines[0])
    ensures !Occurs(Render(lines, body), CRLF, 0)
  {
    CommonSeparators();
    NoEarlierOccurrence(lines[0], CRLF, Terminated(lines[1..]) + CRLF + body, 0);
    assert Render(lines, body) == lines[0] + CRLF + (Terminated(lines[1..]) + CRLF + body);
  }

  lemma NotSecond(l: string, rest: string)
    ensures !Occurs(l + CRLF + rest, CRLF, |l| + 1)
  {
    var s, k := l + CRLF + rest, |l| + 1;
    if k < |s| - 1 {
      assert s[k] == '\n';
      OccursCRLF(s, k);
    }
  }

  lemma ShiftedBlank(l: string, rest: string, k: nat)
    requires Free(l, CRLF) && !Occurs(rest, CRLF, 0)
    requires k >= |l| + 2 ==> !Occurs(rest, BLANK, k - |l| - 2)
    ensures !Occurs(l + CRLF + rest, BLANK, k)
  {
    hide Occurs, Free;
    var s := l + CRLF + rest;
    if Occurs(s, BLANK, k) {
      BlankNeedsCRLF(s, k);
    }
    if k < |l| {
      CommonSeparators();
      NoEarlierOccurrence(l, CRLF, rest, k);
    } else if k == |l| {
      OccursBehind(l + CRLF, rest, CRLF, 0);
    } else if k == |l| + 1 {
      NotSecond(l, rest);
    } else {
      OccursBehind(l + CRLF, rest, BLANK, k - |l| - 2);
    }
  }

  /** Parsing rendered head lines sees exactly those lines and that body. */
  lemma ParseRendered(lines: seq<string>, body: string)
    requires lines != [] && forall l :: l in lines ==> HeadLine(l)
    ensures Parse(Render(lines, body)) == Msg(ParseStart(lines[0]), ParseHeaders(lines[1..]), body)
  {
    HeadEnds(lines, body);
    TerminatedJoin(lines);
    var s := Render(lines, body);
    var j := Join(lines, CRLF);
    assert s == j + BLANK + body;
    assert s[..|j|] == j && s[|j| + 4..] == body;
    CommonSeparators();
    SplitJoin(lines, CRLF);
  }

  // ---------------------------------------------------------------- what parsing can produce

  ghost predicate StartOk(s: StartLine) {
    match s
    case Request(verb, uri, version) =>
      Free(verb, " ") && Free(uri, " ") && !HasPrefix(verb, "SIP/")
      && Free(verb, CRLF) && Free(uri, CRLF) && Free(version, CRLF)
    case Response(version, status, reason) =>
      Free(version, " ") && Free(status, " ") && HasPrefix(version, "SIP/")
      && Free(version, CRLF) && Free(status, CRLF) && Free(reason, CRLF)
  }

  ghost predicate NameOk(n: string) {
    Free(n, ":") && Free(n, CRLF) && Trimmed(n)
  }

  ghost predicate Printable(m: Msg) {
    && StartOk(m.start)
    && Consistent(m.hdrs)
    && (forall n :: n in m.hdrs.vals ==> NameOk(n) && Free(m.hdrs.vals[n], CRLF))
  }

  ghost predicate TrimmedValues(h: Headers) {
    forall n :: n in h.vals ==> Trimmed(h.vals[n])
  }

  lemma OccursCRLF(s: string, k: nat)
    requires k < |s| - 1
    ensures Occurs(s, CRLF, k) <==> s[k] == '\r' && s[k + 1] == '\n'
  {
    assert s[k..k + 2] == [s[k], s[k + 1]];
  }

  ghost predicate NoPair(s: string) {
    forall k :: 0 <= k < |s| - 1 ==> s[k] == '\r' ==> s[k + 1] != '\n'
  }

  lemma FreeCRLF(s: string)
    ensures Free(s, CRLF) <==> NoPair(s)
  {
    if Free(s, CRLF) {
      forall k | 0 <= k < |s| - 1 && s[k] == '\r' ensures s[k + 1] != '\n' { OccursCRLF(s, k); }
    }
    if NoPair(s) {
      forall k ensures !Occurs(s, CRLF, k) {
        if 0 <= k < |s| - 1 { OccursCRLF(s, k); }
      }
    }
  }

  /** Gluing CRLF-free text with plain characters stays CRLF-free. */
  lemma FreeGlue(a: string, g: string, b: string)
    requires Free(a, CRLF) && Free(b, CRLF) && g != ""
    requires forall c :: c in g ==> c != '\r' && c != '\n'
    ensures Free(a + g + b, CRLF)
  {
    FreeCRLF(a);
    FreeCRLF(b);
    var s := a + g + b;
    var ag := |a| + |g|;
    forall k | 0 <= k < |s| - 1 ensures s[k] == '\r' ==> s[k + 1] != '\n' {
      if |a| <= k < ag { assert s[k] == g[k - |a|] && g[k - |a|] in g; }
      if |a| <= k + 1 < ag { assert s[k + 1] == g[k + 1 - |a|] && g[k + 1 - |a|] in g; }
      if k + 1 < |a| { assert s[k] == a[k] && s[k + 1] == a[k + 1]; }
      if k >= ag { assert s[k] == b[k - ag] && s[k + 1] == b[k - ag + 1]; }
    }
    FreeCRLF(s);
  }

  /** Everything before, and everything after, the first space of a CRLF-free text. */
  lemma CutAtSpace(s: string)
    requires Free(s, CRLF) && Index(s, " ") >= 0
    ensures var i := Index(s, " ");
      Free(s[..i], " ") && Free(s[..i], CRLF) && Free(s[i + 1..], CRLF) && s[i] == ' '
  {
    var i := Index(s, " ");
    FirstPart(s, " ");
    IndexFirst(s, " ");
    assert s[i..i + 1][0] == s[i];
    FreeSlice(s, CRLF, 0, i);
    FreeSlice(s, CRLF, i + 1, |s|);
    assert s[0..i] == s[..i] && s[i + 1..|s|] == s[i + 1..];
  }

  lemma PrefixOfFirstPart(line: string, i: nat)
    requires i < |line| && line[i] == ' '
    requires Free(line[..i], " ")
    ensures HasPrefix(line, "SIP/") <==> HasPrefix(line[..i], "SIP/")
  {
    assert line == line[..i] + " " + line[i + 1..];
    PrefixBeforeSpace(line[..i], line[i + 1..]);
  }

  lemma ParseStartOk(line: string)
    requires Free(line, CRLF)
    ensures StartOk(ParseStart(line))
  {
    var i := Index(line, " ");
    if i < 0 {
      IndexFirst(line, " ");
    } else {
      var rest := line[i + 1..];
      CutAtSpace(line);
      PrefixOfFirstPart(line, i);
      if Index(rest, " ") < 0 {
        IndexFirst(rest, " ");
      } else {
        CutAtSpace(rest);
      }
    }
  }

  lemma HeaderParts(line: string)
    requires IsHeader(line) && Free(line, CRLF)
    ensures NameOk(HeaderName(line)) && Free(HeaderValue(line), CRLF) && Trimmed(HeaderValue(line))
  {
    var i := Index(line, ":");
    FirstPart(line, ":");
    FreeSlice(line, CRLF, 0, i);
    FreeSlice(line, CRLF, i + 1, |line|);
    assert line[0..i] == line[..i] && line[i + 1..|line|] == line[i + 1..];
    TrimFree(line[..i], ":");
    TrimFree(line[..i], CRLF);
    TrimFree(line[i + 1..], CRLF);
    TrimIdempotent(line[..i]);
    TrimIdempotent(line[i + 1..]);
  }

  lemma {:induction false} PairsOk(lines: seq<string>)
    requires forall l :: l in lines ==> Free(l, CRLF)
    ensures forall p :: p in Pairs(lines) ==> NameOk(p.name) && Free(p.value, CRLF) && Trimmed(p.value)
  {
    if lines != [] {
      PairsOk(lines[..|lines| - 1]);
      var line := lines[|lines| - 1];
      if IsHeader(line) { HeaderParts(line); }
    }
  }

  lemma {:induction false} MergeOk(pairs: seq<Pair>)
    requires forall p :: p in pairs ==> NameOk(p.name) && Free(p.value, CRLF)
    ensures var h := Merge(pairs);
      Consistent(h) && forall n :: n in h.vals ==> NameOk(n) && Free(h.vals[n], CRLF)
  {
    if pairs != [] {
      MergeOk(pairs[..|pairs| - 1]);
      var h := Merge(pairs[..|pairs| - 1]);
      var p := pairs[|pairs| - 1];
      if p.name in h.vals { FreeGlue(h.vals[p.name], ", ", p.value); }
    }
  }

  lemma ParsePrintable(data: string)
    ensures Printable(Parse(data))
  {
    var lines := Split(HeadOf(data), CRLF);
    SplitFree(HeadOf(data), CRLF);
    ParseStartOk(lines[0]);
    PairsOk(lines[1..]);
    MergeOk(Pairs(lines[1..]));
  }

  // ---------------------------------------------------------------- printing then parsing

  lemma ThreeParts(a: string, b: string, c: string)
    requires Free(a, " ") && Free(b, " ")
    ensures SplitN3(a + " " + b + " " + c) == (a, b, c)
  {
    CommonSeparators();
    hide Index, Free, Unbordered;
    var rest := b + " " + c;
    assert a + " " + b + " " + c == a + " " + rest;
    IndexOfSeparator(a, " ", rest);
    IndexOfSeparator(b, " ", c);
    CutAround(a, " ", rest);
    CutAround(b, " ", c);
  }

  lemma StartReparsed(s: StartLine)
    requires StartOk(s)
    ensures ParseStart(StartText(s)) == s
    ensures HeadLine(StartText(s))
  {
    hide SplitN3, Free, HasPrefix;
    var (a, b, c) := if s.Request? then (s.verb, s.uri, s.version) else (s.version, s.status, s.reason);
    var rest := b + " " + c;
    assert StartText(s) == a + " " + rest;
    ThreeParts(a, b, c);
    PrefixBeforeSpace(a, rest);
    FreeGlue(b, " ", c);
    FreeGlue(a, " ", rest);
  }

  lemma PrefixBeforeSpace(a: string, rest: string)
    ensures HasPrefix(a + " " + rest, "SIP/") <==> HasPrefix(a, "SIP/")
  {
    var line := a + " " + rest;
    if |a| >= 4 {
      assert line[..4] == a[..4];
    } else if |line| >= 4 {
      assert line[..4][|a|] == ' ';
      assert forall c :: c in "SIP/" ==> c != ' ';
      assert line[..4] != "SIP/";
    }
  }

  lemma HeaderReparsed(n: string, v: string)
    requires NameOk(n) && Free(v, CRLF)
    ensures var line := n + ": " + v;
      HeadLine(line) && IsHeader(line) && HeaderName(line) == n && HeaderValue(line) == TrimSpace(v)
  {
    CommonSeparators();
    var line := n + ": " + v;
    assert line == n + ":" + (" " + v);
    IndexOfSeparator(n, ":", " " + v);
    assert line[..|n|] == n && line[|n| + 1..] == " " + v;
    TrimAfterSpace(v);
    FreeGlue(n, ": ", v);
  }

  function TrimValues(h: Headers): Headers {
    Headers(map n | n in h.vals :: TrimSpace(h.vals[n]), h.order)
  }

  /** What reading the printed header lines back yields, pair by pair. */
  function PrintedPairs(h: Headers): (r: seq<Pair>)
    requires forall n :: n in h.order ==> n in h.vals
    ensures |r| == |h.order|
  {
    seq(|h.order|, i requires 0 <= i < |h.order| => Pair(h.order[i], TrimSpace(h.vals[h.order[i]])))
  }

  lemma {:induction false} PairsReparsed(h: Headers, i: nat)
    requires i <= |h.order| && Consistent(h)
    requires forall n :: n in h.vals ==> NameOk(n) && Free(h.vals[n], CRLF)
    ensures Pairs(HeaderLines(h)[..i]) == PrintedPairs(h)[..i]
  {
    hide IsHeader, HeaderName, HeaderValue, HeadLine, NameOk, Free, TrimSpace, Distinct;
    if i > 0 {
      PairsReparsed(h, i - 1);
      var n := h.order[i - 1];
      HeaderReparsed(n, h.vals[n]);
      assert HeaderLines(h)[..i][..i - 1] == HeaderLines(h)[..i - 1];
    }
  }

  /** g holds the first i headers of h, with trimmed values. */
  ghost predicate FirstOf(g: Headers, h: Headers, i: nat)
    requires i <= |h.order| && forall n :: n in h.order ==> n in h.vals
  {
    && g.order == h.order[..i]
    && (forall n :: n in g.vals <==> n in h.order[..i])
    && (forall n :: n in g.vals ==> n in h.vals && g.vals[n] == TrimSpace(h.vals[n]))
  }

  lemma FirstNext(g: Headers, h: Headers, i: nat)
    requires Consistent(h) && i < |h.order| && FirstOf(g, h, i)
    ensures FirstOf(AddPair(g, Pair(h.order[i], TrimSpace(h.vals[h.order[i]]))), h, i + 1)
  {
    hide TrimSpace;
    assert h.order[..i + 1] == h.order[..i] + [h.order[i]];
    assert h.order[i] !in h.order[..i];
  }

  lemma MergeLast(pairs: seq<Pair>, i: nat)
    requires 0 < i <= |pairs|
    ensures Merge(pairs[..i]) == AddPair(Merge(pairs[..i - 1]), pairs[i - 1])
  {
    assert pairs[..i][..i - 1] == pairs[..i - 1] && pairs[..i][i - 1] == pairs[i - 1];
  }

  lemma FirstNone(h: Headers)
    requires Consistent(h)
    ensures FirstOf(Merge([]), h, 0)
  {
  }

  lemma {:induction false} MergeReparsed(h: Headers, i: nat)
    requires i <= |h.order| && Consistent(h)
    ensures FirstOf(Merge(PrintedPairs(h)[..i]), h, i)
  {
    hide TrimSpace, AddPair, Merge, FirstOf, Distinct;
    if i == 0 {
      FirstNone(h);
    } else {
      MergeReparsed(h, i - 1);
      FirstNext(Merge(PrintedPairs(h)[..i - 1]), h, i - 1);
      MergeLast(PrintedPairs(h), i);
    }
  }

  lemma FirstAll(g: Headers, h: Headers)
    requires Consistent(h) && FirstOf(g, h, |h.order|)
    ensures g == TrimValues(h)
  {
    hide TrimSpace;
    assert h.order[..|h.order|] == h.order;
    assert g.vals == TrimValues(h).vals;
  }

  lemma HeadersReparsed(h: Headers)
    requires Consistent(h)
    requires forall n :: n in h.vals ==> NameOk(n) && Free(h.vals[n], CRLF)
    ensures ParseHeaders(HeaderLines(h)) == TrimValues(h)
  {
    hide FirstOf, TrimValues, Distinct, NameOk, Free, TrimSpace, Merge, Pairs;
    var n := |h.order|;
    PairsReparsed(h, n);
    MergeReparsed(h, n);
    FirstAll(Merge(PrintedPairs(h)[..n]), h);
    assert HeaderLines(h) == HeaderLines(h)[..n];
  }

  lemma HeadLinesOk(m: Msg)
    requires Printable(m)
    ensures forall l :: l in HeadLines(m) ==> HeadLine(l)
  {
    StartReparsed(m.start);
    var lines := HeaderLines(m.hdrs);
    forall i | 0 <= i < |lines| ensures HeadLine(lines[i]) {
      HeaderReparsed(m.hdrs.order[i], m.hdrs.vals[m.hdrs.order[i]]);
    }
  }

  /** Reparsing what was printed trims the header values and changes nothing else. */
  lemma Reparse(m: Msg)
    requires Printable(m)
    ensures Parse(Print(m)) == m.(hdrs := TrimValues(m.hdrs))
  {
    HeadLinesOk(m);
    ParseRendered(HeadLines(m), m.body);
    StartReparsed(m.start);
    HeadersReparsed(m.hdrs);
    assert HeadLines(m)[1..] == HeaderLines(m.hdrs);
  }

  /** Print is inverted by Parse exactly on messages whose header values carry no outer white space. */
  lemma PrintRoundTrip(m: Msg)
    requires Printable(m)
    ensures Parse(Print(m)) == m <==> TrimmedValues(m.hdrs)
  {
    Reparse(m);
    forall n | n in m.hdrs.vals
      ensures Trimmed(m.hdrs.vals[n]) <==> TrimValues(m.hdrs).vals[n] == m.hdrs.vals[n]
    {
      TrimIdempotent(m.hdrs.vals[n]);
    }
    if TrimmedValues(m.hdrs) {
      assert TrimValues(m.hdrs).vals == m.hdrs.vals;
    }
  }

  /** The last pair with this name carries no value and is not the first one. */
  ghost predicate EndsInEmptyRepeat(pairs: seq<Pair>, name: string) {
    pairs != [] &&
    var n := |pairs| - 1;
    if pairs[n].name == name then pairs[n].value == "" && name in Names(pairs[..n])
    else EndsInEmptyRepeat(pairs[..n], name)
  }

  ghost predicate NoEmptyRepeat(pairs: seq<Pair>) {
    forall name :: !EndsInEmptyRepeat(pairs, name)
  }

  ghost function Names(pairs: seq<Pair>): set<string> {
    set p | p in pairs :: p.name
  }

  lemma {:induction false} MergedNames(pairs: seq<Pair>)
    ensures forall n :: n in Merge(pairs).vals <==> n in Names(pairs)
  {
    if pairs != [] {
      MergedNames(pairs[..|pairs| - 1]);
      assert pairs == pairs[..|pairs| - 1] + [pairs[|pairs| - 1]];
    }
  }

  lemma {:induction false} MergedValueTrimmed(pairs: seq<Pair>, name: string)
    requires forall p :: p in pairs ==> Trimmed(p.value)
    requires name in Merge(pairs).vals
    ensures var v := Merge(pairs).vals[name];
      (v == "" || !IsSpace(v[0])) && (Trimmed(v) <==> !EndsInEmptyRepeat(pairs, name))
  {
    var n := |pairs| - 1;
    var init := pairs[..n];
    var p := pairs[n];
    MergedNames(init);
    if name in Merge(init).vals {
      MergedValueTrimmed(init, name);
      var v := Merge(pairs).vals[name];
      if p.name == name {
        assert v == Merge(init).vals[name] + ", " + p.value;
        assert v[|v| - 1] == if p.value == "" then ' ' else p.value[|p.value| - 1];
      }
    } else {
      assert name !in Names(init);
      assert p in pairs;
    }
  }

  lemma {:induction false} RepeatedName(pairs: seq<Pair>, name: string)
    ensures EndsInEmptyRepeat(pairs, name) ==> name in Names(pairs)
  {
    if pairs != [] {
      var n := |pairs| - 1;
      assert pairs[n] in pairs;
      RepeatedName(pairs[..n], name);
    }
  }

  lemma MergeTrimmed(pairs: seq<Pair>)
    requires forall p :: p in pairs ==> Trimmed(p.value)
    ensures TrimmedValues(Merge(pairs)) <==> NoEmptyRepeat(pairs)
  {
    var h := Merge(pairs);
    MergedNames(pairs);
    if TrimmedValues(h) {
      forall name ensures !EndsInEmptyRepeat(pairs, name) {
        RepeatedName(pairs, name);
        if name in h.vals { MergedValueTrimmed(pairs, name); }
      }
    }
    if NoEmptyRepeat(pairs) {
      forall name | name in h.vals ensures Trimmed(h.vals[name]) {
        MergedValueTrimmed(pairs, name);
        assert !EndsInEmptyRepeat(pairs, name);
      }
    }
  }

  function HeaderPairs(data: string): seq<Pair> {
    Pairs(Split(HeadOf(data), CRLF)[1..])
  }

  lemma ParseTrimmed(data: string)
    ensures TrimmedValues(Parse(data).hdrs) <==> NoEmptyRepeat(HeaderPairs(data))
  {
    SplitFree(HeadOf(data), CRLF);
    PairsOk(Split(HeadOf(data), CRLF)[1..]);
    MergeTrimmed(HeaderPairs(data));
  }

  /** Parsing is a normal form, for every byte string, exactly when no repeated header ends in an
      empty occurrence: that merge leaves "v, ", whose trailing space the next parse removes. */
  lemma ParseNormalForm(data: string)
    ensures Printable(Parse(data))
    ensures Parse(Print(Parse(data))) == Parse(data) <==> NoEmptyRepeat(HeaderPairs(data))
  {
    ParsePrintable(data);
    PrintRoundTrip(Parse(data));
    ParseTrimmed(data);
  }
}
