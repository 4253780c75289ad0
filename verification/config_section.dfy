/** The in-place editor of the configuration file's ipFilter section
    (internal/app/common/config/config.go:152-241). */
module ConfigSection {
  import opened Text

  const HEADER: string := "ipFilter:"

  datatype IPFilterConfig = IPFilterConfig(enable: bool, allowList: seq<string>, denyList: seq<string>)

  // ---------------------------------------------------------------- lines

  datatype Kind = Enable | Allow | Deny | Item | Other

  /** What the rewriting loop takes a line of the section for. */
  function KindOf(ln: string): Kind {
    var t := TrimSpace(ln);
    if HasPrefix(t, "enable:") then Enable
    else if HasPrefix(t, "allowList:") then Allow
    else if HasPrefix(t, "denyList:") then Deny
    else if HasPrefix(t, "-") then Item
    else Other
  }

  /** A line that starts at column 0 and is not empty; a lone carriage return is one. */
  predicate TopLevel(ln: string) {
    ln != "" && ln[0] != ' ' && ln[0] != '\t'
  }

  /** A line the section gives up at its end. */
  predicate Trailing(ln: string) {
    TrimSpace(ln) == "" || HasPrefix(ln, "#")
  }

  /** inlineComment. */
  function InlineComment(ln: string): string {
    var i := Index(ln, "#");
    if i < 0 then "" else " " + TrimSpace(ln[i..])
  }

  function FormatBool(b: bool): string { if b then "true" else "false" }

  function HexDigit(n: int): char
    requires 0 <= n < 16
  {
    "0123456789abcdef"[n]
  }

  /** One character of strconv.Quote; bytes above ASCII stand for themselves. */
  function QuoteChar(c: char): string {
    if c == '"' then "\\\"" else if c == '\\' then "\\\\"
    else if c == '\U{07}' then "\\a" else if c == '\U{08}' then "\\b" else if c == '\U{0C}' then "\\f"
    else if c == '\n' then "\\n" else if c == '\r' then "\\r" else if c == '\t' then "\\t"
    else if c == '\U{0B}' then "\\v"
    else if c < ' ' || c == '\U{7F}' then ['\\', 'x', HexDigit(c as int / 16), HexDigit(c as int % 16)]
    else [c]
  }

  function QuoteBody(s: string): string {
    if s == "" then "" else QuoteChar(s[0]) + QuoteBody(s[1..])
  }

  /** strconv.Quote. */
  function Quote(s: string): string {
    "\"" + QuoteBody(s) + "\""
  }

  function ItemLines(items: seq<string>): seq<string> {
    if items == [] then [] else ["    - " + Quote(items[0])] + ItemLines(items[1..])
  }

  /** renderList. */
  function RenderList(key: string, items: seq<string>, comment: string): seq<string> {
    if items == [] then [key + " []" + comment] else [key + comment] + ItemLines(items)
  }

  // ---------------------------------------------------------------- the section

  /** The position of the first header line, |lines| when there is none. */
  function HeaderAt(lines: seq<string>): (i: nat)
    ensures i <= |lines|
  {
    if lines == [] || HasPrefix(lines[0], HEADER) then 0 else 1 + HeaderAt(lines[1..])
  }

  /** The number of leading lines that are not top-level. */
  function Indented(lines: seq<string>): (n: nat)
    ensures n <= |lines|
  {
    if lines == [] || TopLevel(lines[0]) then 0 else 1 + Indented(lines[1..])
  }

  /** Without the trailing lines a section gives up. */
  function Shorten(lines: seq<string>): (r: seq<string>)
    ensures |r| <= |lines|
  {
    if lines != [] && Trailing(lines[|lines| - 1]) then Shorten(lines[..|lines| - 1]) else lines
  }

  /** The length of the section that begins where lines begins. */
  function SectionLength(lines: seq<string>): (n: nat)
    ensures n <= |lines|
  {
    |Shorten(lines[..Indented(lines)])|
  }

  function RewriteLine(ln: string, f: IPFilterConfig): seq<string> {
    match KindOf(ln)
    case Enable => ["  enable: " + FormatBool(f.enable) + InlineComment(ln)]
    case Allow => RenderList("  allowList:", f.allowList, InlineComment(ln))
    case Deny => RenderList("  denyList:", f.denyList, InlineComment(ln))
    case Item => []
    case Other => [ln]
  }

  function RewriteLines(lines: seq<string>, f: IPFilterConfig): seq<string> {
    if lines == [] then [] else RewriteLine(lines[0], f) + RewriteLines(lines[1..], f)
  }

  predicate Seen(lines: seq<string>, k: Kind) {
    exists ln :: ln in lines && KindOf(ln) == k
  }

  /** The keys the section does not have. */
  function Missing(lines: seq<string>, f: IPFilterConfig): seq<string> {
    (if Seen(lines, Enable) then [] else ["  enable: " + FormatBool(f.enable)])
    + (if Seen(lines, Allow) then [] else RenderList("  allowList:", f.allowList, ""))
    + (if Seen(lines, Deny) then [] else RenderList("  denyList:", f.denyList, ""))
  }

  function Body(section: seq<string>, f: IPFilterConfig): seq<string> {
    RewriteLines(section, f) + Missing(section, f)
  }

  /** The file in its four parts: before the header, the header, the section, the rest. */
  datatype Parts = Parts(before: seq<string>, header: string, section: seq<string>, rest: seq<string>)

  function Whole(p: Parts): seq<string> {
    p.before + [p.header] + p.section + p.rest
  }

  function PartsOf(lines: seq<string>): Parts
    requires HeaderAt(lines) < |lines|
  {
    var i := HeaderAt(lines);
    var tail := lines[i + 1..];
    var n := SectionLength(tail);
    Parts(lines[..i], lines[i], tail[..n], tail[n..])
  }

  /** The line-level edit. */
  function Replace(lines: seq<string>, f: IPFilterConfig): Option<seq<string>> {
    if HeaderAt(lines) == |lines| then None
    else
      var p := PartsOf(lines);
      Some(p.before + [p.header] + Body(p.section, f) + p.rest)
  }

  /** replaceIPFilterSection on whole files; None is the error of a file without the section. */
  function ReplaceSection(src: string, f: IPFilterConfig): Option<string> {
    match Replace(Split(src, "\n"), f)
    case None => None
    case Some(lines) => Some(Join(lines, "\n"))
  }

  // ---------------------------------------------------------------- generated lines

  lemma {:induction false} TrimLeftPad(pad: string, w: string)
    requires AllSpace(pad) && w != "" && !IsSpace(w[0])
    ensures TrimLeft(pad + w) == w
  {
    if pad == "" {
      assert pad + w == w;
    } else {
      assert (pad + w)[1..] == pad[1..] + w;
      TrimLeftPad(pad[1..], w);
    }
  }

  lemma {:induction false} TrimRightPast(l: string, k: nat)
    requires k < |l| && !IsSpace(l[k])
    ensures |TrimRight(l)| > k
  {
    if IsSpace(l[|l| - 1]) { TrimRightPast(l[..|l| - 1], k); }
  }

  lemma TrimsTo(pad: string, p: string, rest: string)
    requires AllSpace(pad) && p != "" && !IsSpace(p[0]) && !IsSpace(p[|p| - 1])
    ensures HasPrefix(TrimSpace(pad + p + rest), p)
  {
    var l := p + rest;
    assert pad + p + rest == pad + l;
    TrimLeftPad(pad, l);
    TrimRightSlice(l);
    var n := |TrimRight(l)|;
    TrimRightPast(l, |p| - 1);
    assert l[..n][..|p|] == p;
  }

  /** A line the editor writes: indented, neither blank nor at column 0, and of the kind it is meant for. */
  ghost predicate Generated(ln: string, k: Kind) {
    KindOf(ln) == k && !TopLevel(ln) && !Trailing(ln)
  }

  lemma KindAt(pad: string, p: string, rest: string)
    requires AllSpace(pad) && p in ["enable:", "allowList:", "denyList:", "-"]
    ensures KindOf(pad + p + rest) ==
      if p == "enable:" then Enable else if p == "allowList:" then Allow else if p == "denyList:" then Deny else Item
  {
    TrimsTo(pad, p, rest);
    var t := TrimSpace(pad + p + rest);
    hide TrimSpace;
    assert t[0] == p[0] by { assert t[..|p|][0] == p[0]; }
    assert HasPrefix(t, "enable:") ==> t[0] == 'e' by { if HasPrefix(t, "enable:") { assert t[..7][0] == 'e'; } }
    assert HasPrefix(t, "allowList:") ==> t[0] == 'a' by { if HasPrefix(t, "allowList:") { assert t[..10][0] == 'a'; } }
    assert HasPrefix(t, "denyList:") ==> t[0] == 'd' by { if HasPrefix(t, "denyList:") { assert t[..9][0] == 'd'; } }
  }

  lemma GeneratedLine(pad: string, p: string, rest: string, k: Kind)
    requires pad == "  " || pad == "    "
    requires (p == "enable:" && k == Enable) || (p == "allowList:" && k == Allow)
      || (p == "denyList:" && k == Deny) || (p == "-" && k == Item)
    ensures Generated(pad + p + rest, k)
  {
    TrimsTo(pad, p, rest);
    KindAt(pad, p, rest);
    hide TrimSpace, KindOf;
  }

  lemma CommentOf(head: string, c: string)
    requires Free(head, "#") && c != "" && c[0] == '#' && TrimSpace(c) == c
    ensures InlineComment(head + " " + c) == " " + c
  {
    hide Index, TrimSpace, Free;
    var w := head + " ";
    var s := w + "#" + c[1..];
    assert Free(w, "#") by { FreeSnoc(head, ' '); }
    OneChar();
    IndexOfSeparator(w, "#", c[1..]);
    assert c == "#" + c[1..];
    assert s == head + " " + c;
    assert s[|w|..] == c;
  }

  lemma OneChar()
    ensures Unbordered("#")
  {
  }

  /** A key line keeps its comment when it is read again. */
  lemma CommentKept(head: string, ln: string)
    requires Free(head, "#")
    ensures InlineComment(head + InlineComment(ln)) == InlineComment(ln)
  {
    hide Index, TrimSpace, Free;
    var i := Index(ln, "#");
    HashAt(ln);
    if i < 0 {
      assert head + InlineComment(ln) == head;
      NotThere(head);
    } else {
      var c := TrimSpace(ln[i..]);
      TrimIdempotent(ln[i..]);
      TrimIdempotent(c);
      HashStays(ln[i..]);
      assert head + InlineComment(ln) == head + " " + c;
      CommentOf(head, c);
    }
  }

  lemma HashAt(ln: string)
    ensures var i := Index(ln, "#"); i >= 0 ==> i < |ln| && ln[i] == '#'
  {
    IndexFirst(ln, "#");
    var i := Index(ln, "#");
    if i >= 0 { assert ln[i..i + 1][0] == '#'; }
  }

  lemma NotThere(s: string)
    requires Free(s, "#")
    ensures Index(s, "#") < 0
  {
    IndexFirst(s, "#");
  }

  lemma HashStays(s: string)
    requires s != "" && s[0] == '#'
    ensures var c := TrimSpace(s); c != "" && c[0] == '#' && c == "#" + c[1..]
  {
    assert s == "" + "#" + s[1..];
    TrimsTo("", "#", s[1..]);
  }

  lemma FreeSnoc(head: string, c: char)
    requires Free(head, "#") && c != '#'
    ensures Free(head + [c], "#")
  {
    var s := head + [c];
    forall k ensures !Occurs(s, "#", k) {
      if 0 <= k < |head| {
        assert !Occurs(head, "#", k);
        assert s[k..k + 1] == head[k..k + 1];
      } else if k == |head| {
        assert s[k..k + 1] == [c];
      }
    }
  }

  lemma NoHash(s: string)
    requires forall k :: 0 <= k < |s| ==> s[k] != '#'
    ensures Free(s, "#")
  {
    forall k ensures !Occurs(s, "#", k) {
      if 0 <= k < |s| { assert s[k..k + 1][0] == s[k]; }
    }
  }

  // ---------------------------------------------------------------- rewriting twice

  lemma {:induction false} RewriteAppend(a: seq<string>, b: seq<string>, f: IPFilterConfig)
    ensures RewriteLines(a + b, f) == RewriteLines(a, f) + RewriteLines(b, f)
  {
    hide RewriteLine;
    if a == [] {
      assert a + b == b;
    } else {
      RewriteAppend(a[1..], b, f);
      assert (a + b)[1..] == a[1..] + b;
    }
  }

  lemma RewriteOne(ln: string, f: IPFilterConfig)
    ensures RewriteLines([ln], f) == RewriteLine(ln, f)
  {
    hide RewriteLine;
  }

  lemma {:induction false} ItemsVanish(items: seq<string>, g: IPFilterConfig)
    ensures RewriteLines(ItemLines(items), g) == []
    ensures forall ln :: ln in ItemLines(items) ==> Generated(ln, Item)
  {
    hide KindOf, Quote, TopLevel, Trailing, RenderList;
    if items != [] {
      var ln := "    - " + Quote(items[0]);
      assert ln == "    " + "-" + (" " + Quote(items[0]));
      GeneratedLine("    ", "-", " " + Quote(items[0]), Item);
      ItemsVanish(items[1..], g);
      assert ItemLines(items)[1..] == ItemLines(items[1..]);
    }
  }

  /** Lines the editor writes for key k: one line of that kind, none of another key, all indented. */
  ghost predicate Written(out: seq<string>, k: Kind) {
    (forall j :: j != Item ==> (Seen(out, j) <==> j == k)) && Inner(out)
  }

  ghost predicate Inner(lines: seq<string>) {
    forall x :: x in lines ==> !TopLevel(x) && !Trailing(x)
  }

  lemma WrittenKey(first: string, items: seq<string>, k: Kind)
    requires Generated(first, k) && k != Item
    ensures Written([first] + ItemLines(items), k)
  {
    hide KindOf, TopLevel, Trailing, ItemLines;
    var out := [first] + ItemLines(items);
    ItemsVanish(items, IPFilterConfig(false, [], []));
    assert first in out;
    assert forall x :: x in out ==> x == first || x in ItemLines(items);
  }

  /** A key line, its comment taken from ln, read again. */
  lemma KeyLineAgain(p: string, mid: string, k: Kind, ln: string)
    requires (p == "enable:" && k == Enable) || (p == "allowList:" && k == Allow) || (p == "denyList:" && k == Deny)
    requires mid == "" || mid == " []" || mid == " true" || mid == " false"
    ensures var first := "  " + p + mid + InlineComment(ln);
      Generated(first, k) && InlineComment(first) == InlineComment(ln)
  {
    hide KindOf, InlineComment, TopLevel, Trailing;
    var c := InlineComment(ln);
    var head := "  " + p + mid;
    assert head + c == "  " + p + (mid + c);
    GeneratedLine("  ", p, mid + c, k);
    NoHash(head);
    CommentKept(head, ln);
  }

  /** A rendered list read as a key line and rewritten: the same key with the new items. */
  lemma RenderedAgain(k: Kind, key: string, items: seq<string>, ln: string, g: IPFilterConfig)
    requires (k == Allow && key == "  allowList:") || (k == Deny && key == "  denyList:")
    ensures RewriteLines(RenderList(key, items, InlineComment(ln)), g)
      == RenderList(key, if k == Allow then g.allowList else g.denyList, InlineComment(ln))
    ensures Written(RenderList(key, items, InlineComment(ln)), k)
  {
    hide KindOf, InlineComment, TopLevel, Trailing, Written, ItemLines, Seen;
    var c := InlineComment(ln);
    var p := if k == Allow then "allowList:" else "denyList:";
    var mid := if items == [] then " []" else "";
    var first := "  " + p + mid + c;
    assert key == "  " + p;
    assert RenderList(key, items, c) == [first] + ItemLines(items) by {
      assert ItemLines([]) == [] by { NoItems(); }
      assert key + "" == key;
    }
    KeyLineAgain(p, mid, k, ln);
    WrittenKey(first, items, k);
    ItemsVanish(items, g);
    RewriteAppend([first], ItemLines(items), g);
    RewriteOne(first, g);
  }

  lemma NoItems()
    ensures ItemLines([]) == []
  {
  }

  lemma EnableAgain(b: bool, ln: string, g: IPFilterConfig)
    ensures var out := ["  enable: " + FormatBool(b) + InlineComment(ln)];
      Written(out, Enable) && RewriteLines(out, g) == ["  enable: " + FormatBool(g.enable) + InlineComment(ln)]
  {
    hide KindOf, InlineComment, TopLevel, Trailing, Written, Seen;
    var mid := if b then " true" else " false";
    var first := "  enable: " + FormatBool(b) + InlineComment(ln);
    assert first == "  " + "enable:" + mid + InlineComment(ln);
    KeyLineAgain("enable:", mid, Enable, ln);
    WrittenKey(first, [], Enable);
    NoItems();
    assert [first] + [] == [first];
    RewriteOne(first, g);
  }

  /** Rewriting a rewritten line with other values forgets the first values. */
  lemma RewriteLineTwice(ln: string, f: IPFilterConfig, g: IPFilterConfig)
    ensures RewriteLines(RewriteLine(ln, f), g) == RewriteLine(ln, g)
    ensures forall k :: k != Item && k != Other ==> (Seen(RewriteLine(ln, f), k) <==> KindOf(ln) == k)
    ensures forall x :: x in RewriteLine(ln, f) ==> x == ln || (!TopLevel(x) && !Trailing(x))
  {
    hide InlineComment, RenderList, TopLevel, Trailing, KindOf, FormatBool;
    match KindOf(ln)
    case Enable => EnableAgain(f.enable, ln, g);
    case Allow => RenderedAgain(Allow, "  allowList:", f.allowList, ln, g);
    case Deny => RenderedAgain(Deny, "  denyList:", f.denyList, ln, g);
    case Item =>
    case Other =>
      RewriteOne(ln, g);
      assert ln in RewriteLine(ln, f);
  }

  lemma {:induction false} RewriteLinesTwice(lines: seq<string>, f: IPFilterConfig, g: IPFilterConfig)
    ensures RewriteLines(RewriteLines(lines, f), g) == RewriteLines(lines, g)
    ensures forall k :: k != Item && k != Other ==> (Seen(RewriteLines(lines, f), k) <==> Seen(lines, k))
    ensures forall x :: x in RewriteLines(lines, f) ==> x in lines || (!TopLevel(x) && !Trailing(x))
  {
    hide RewriteLine, KindOf, TopLevel, Trailing;
    if lines != [] {
      var a, b := RewriteLine(lines[0], f), RewriteLines(lines[1..], f);
      RewriteLineTwice(lines[0], f, g);
      RewriteLinesTwice(lines[1..], f, g);
      RewriteAppend(a, b, g);
      SeenAppend(a, b);
      SeenAppend([lines[0]], lines[1..]);
      assert [lines[0]] + lines[1..] == lines;
    }
  }

  lemma SeenAppend(a: seq<string>, b: seq<string>)
    ensures forall k :: Seen(a + b, k) <==> Seen(a, k) || Seen(b, k)
  {
    hide KindOf;
    forall k ensures Seen(a + b, k) <==> Seen(a, k) || Seen(b, k) {
      if Seen(a, k) { var x :| x in a && KindOf(x) == k; assert x in a + b; }
      if Seen(b, k) { var x :| x in b && KindOf(x) == k; assert x in a + b; }
    }
  }

  /** A key's lines, or nothing when the section has the key already. */
  lemma Unless(seen: bool, out: seq<string>, again: seq<string>, k: Kind, g: IPFilterConfig)
    requires Written(out, k) && RewriteLines(out, g) == again
    ensures var e := if seen then [] else out;
      && RewriteLines(e, g) == (if seen then [] else again) && Inner(e)
      && forall j :: j != Item ==> (Seen(e, j) <==> !seen && j == k)
  {
    hide KindOf, TopLevel, Trailing;
  }

  /** The appended keys behave like key lines without a comment. */
  lemma MissingTwice(lines: seq<string>, f: IPFilterConfig, g: IPFilterConfig)
    ensures RewriteLines(Missing(lines, f), g) == Missing(lines, g)
    ensures forall k :: k != Item && k != Other ==> (Seen(Missing(lines, f), k) <==> !Seen(lines, k))
    ensures Inner(Missing(lines, f))
  {
    hide KindOf, InlineComment, RenderList, TopLevel, Trailing, FormatBool, Seen, RewriteLines, Written, Inner;
    var en := "  enable: " + FormatBool(f.enable);
    var al := RenderList("  allowList:", f.allowList, "");
    var dl := RenderList("  denyList:", f.denyList, "");
    BareComment();
    Bare(FormatBool(f.enable));
    Bare(FormatBool(g.enable));
    EnableAgain(f.enable, "", g);
    RenderedAgain(Allow, "  allowList:", f.allowList, "", g);
    RenderedAgain(Deny, "  denyList:", f.denyList, "", g);
    Unless(Seen(lines, Enable), [en], ["  enable: " + FormatBool(g.enable)], Enable, g);
    Unless(Seen(lines, Allow), al, RenderList("  allowList:", g.allowList, ""), Allow, g);
    Unless(Seen(lines, Deny), dl, RenderList("  denyList:", g.denyList, ""), Deny, g);
    var e, a, d := if Seen(lines, Enable) then [] else [en],
      if Seen(lines, Allow) then [] else al, if Seen(lines, Deny) then [] else dl;
    RewriteAppend(e, a, g);
    RewriteAppend(e + a, d, g);
    SeenAppend(e, a);
    SeenAppend(e + a, d);
    InnerAppend(e, a);
    InnerAppend(e + a, d);
  }

  lemma InnerAppend(a: seq<string>, b: seq<string>)
    ensures Inner(a + b) <==> Inner(a) && Inner(b)
  {
    hide TopLevel, Trailing;
    assert forall x :: x in a ==> x in a + b;
    assert forall x :: x in b ==> x in a + b;
  }

  lemma BareComment()
    ensures InlineComment("") == ""
  {
  }

  lemma Bare(s: string)
    ensures "  enable: " + s + "" == "  enable: " + s
  {
  }

  // ---------------------------------------------------------------- where the section is

  lemma {:induction false} HeaderFirst(lines: seq<string>)
    ensures var i := HeaderAt(lines);
      (forall k :: 0 <= k < i ==> !HasPrefix(lines[k], HEADER)) && (i < |lines| ==> HasPrefix(lines[i], HEADER))
  {
    hide HasPrefix;
    if lines != [] && !HasPrefix(lines[0], HEADER) {
      HeaderFirst(lines[1..]);
      assert forall k :: 1 <= k < |lines| ==> lines[k] == lines[1..][k - 1];
    }
  }

  lemma {:induction false} HeaderOf(before: seq<string>, header: string, tail: seq<string>)
    requires HasPrefix(header, HEADER) && forall x :: x in before ==> !HasPrefix(x, HEADER)
    ensures HeaderAt(before + [header] + tail) == |before|
  {
    hide HasPrefix;
    var lines := before + [header] + tail;
    if before != [] {
      assert lines[1..] == before[1..] + [header] + tail;
      assert lines[0] in before;
      HeaderOf(before[1..], header, tail);
    }
  }

  lemma {:induction false} IndentedSplit(lines: seq<string>)
    ensures var n := Indented(lines);
      (forall x :: x in lines[..n] ==> !TopLevel(x)) && (n < |lines| ==> TopLevel(lines[n]))
  {
    hide TopLevel;
    if lines != [] && !TopLevel(lines[0]) {
      IndentedSplit(lines[1..]);
      var n := Indented(lines);
      assert lines[..n] == [lines[0]] + lines[1..][..n - 1];
    }
  }

  lemma {:induction false} IndentedAppend(a: seq<string>, b: seq<string>)
    requires forall x :: x in a ==> !TopLevel(x)
    ensures Indented(a + b) == |a| + Indented(b)
  {
    hide TopLevel;
    if a == [] {
      assert a + b == b;
    } else {
      assert (a + b)[1..] == a[1..] + b && a[0] in a;
      IndentedAppend(a[1..], b);
    }
  }

  lemma {:induction false} ShortenSplit(lines: seq<string>)
    ensures var n := |Shorten(lines)|;
      lines == Shorten(lines) + lines[n..] && forall x :: x in lines[n..] ==> Trailing(x)
  {
    hide Trailing;
    if lines != [] && Trailing(lines[|lines| - 1]) {
      var init := lines[..|lines| - 1];
      ShortenSplit(init);
      var n := |Shorten(lines)|;
      assert lines[n..] == init[n..] + [lines[|lines| - 1]];
    }
  }

  lemma {:induction false} ShortenAppend(a: seq<string>, b: seq<string>)
    requires forall x :: x in b ==> Trailing(x)
    ensures Shorten(a + b) == Shorten(a)
  {
    hide Trailing;
    if b == [] {
      assert a + b == a;
    } else {
      var last := b[|b| - 1];
      assert last in b;
      assert (a + b)[..|a + b| - 1] == a + b[..|b| - 1];
      ShortenAppend(a, b[..|b| - 1]);
    }
  }

  /** The part of the file after a section: lines it gives up, then the end or a top-level line. */
  ghost predicate AfterSection(rest: seq<string>) {
    forall x :: x in rest[..Indented(rest)] ==> Trailing(x)
  }

  lemma SectionSplit(tail: seq<string>)
    ensures var n := SectionLength(tail);
      && (forall x :: x in tail[..n] ==> !TopLevel(x)) && AfterSection(tail[n..])
      && tail == tail[..n] + tail[n..]
  {
    hide TopLevel, Trailing, Indented, Shorten;
    var m := Indented(tail);
    var n := SectionLength(tail);
    IndentedSplit(tail);
    ShortenSplit(tail[..m]);
    assert tail[..n] == tail[..m][..n];
    assert tail == tail[..n] + tail[n..];
    assert forall x :: x in tail[..n] ==> x in tail[..m];
    IndentedAppend(tail[..n], tail[n..]);
    assert tail[n..][..m - n] == tail[..m][n..];
  }

  lemma SectionOf(inner: seq<string>, rest: seq<string>)
    requires (forall x :: x in inner ==> !TopLevel(x)) && AfterSection(rest)
    ensures SectionLength(inner + rest) == |Shorten(inner)|
  {
    hide TopLevel, Trailing, Indented, Shorten;
    IndentedAppend(inner, rest);
    var m := Indented(rest);
    assert (inner + rest)[..|inner| + m] == inner + rest[..m];
    ShortenAppend(inner, rest[..m]);
  }

  /** The parts of a file put together from parts that fit. */
  lemma PartsAgain(before: seq<string>, header: string, inner: seq<string>, rest: seq<string>)
    requires HasPrefix(header, HEADER) && forall x :: x in before ==> !HasPrefix(x, HEADER)
    requires (forall x :: x in inner ==> !TopLevel(x)) && AfterSection(rest)
    ensures var lines := before + [header] + inner + rest; var n := |Shorten(inner)|;
      HeaderAt(lines) == |before| && PartsOf(lines) == Parts(before, header, inner[..n], inner[n..] + rest)
  {
    hide TopLevel, Trailing, Indented, Shorten, HasPrefix, HeaderAt, SectionLength, AfterSection;
    var lines := before + [header] + inner + rest;
    var n := |Shorten(inner)|;
    assert lines == before + [header] + (inner + rest);
    HeaderOf(before, header, inner + rest);
    var tail := lines[|before| + 1..];
    assert tail == inner + rest;
    SectionOf(inner, rest);
    assert tail[..n] == inner[..n] && tail[n..] == inner[n..] + rest;
    assert lines[..|before|] == before;
  }

  lemma FourParts(lines: seq<string>, i: nat, n: nat)
    requires i < |lines| && n <= |lines| - i - 1
    ensures var tail := lines[i + 1..]; lines[..i] + [lines[i]] + tail[..n] + tail[n..] == lines
  {
    var tail := lines[i + 1..];
    assert lines == lines[..i] + [lines[i]] + tail;
    assert tail == tail[..n] + tail[n..];
    Regroup(lines[..i] + [lines[i]], tail[..n], tail[n..]);
  }

  lemma PartsFit(lines: seq<string>)
    requires HeaderAt(lines) < |lines|
    ensures var p := PartsOf(lines);
      && Whole(p) == lines && HasPrefix(p.header, HEADER) && (forall x :: x in p.before ==> !HasPrefix(x, HEADER))
      && (forall x :: x in p.section ==> !TopLevel(x)) && AfterSection(p.rest)
  {
    hide TopLevel, HasPrefix, HeaderAt, SectionLength, AfterSection, Indented, Trailing, Shorten;
    var i := HeaderAt(lines);
    var tail := lines[i + 1..];
    var n := SectionLength(tail);
    assert PartsOf(lines) == Parts(lines[..i], lines[i], tail[..n], tail[n..]);
    hide PartsOf;
    HeaderFirst(lines);
    SectionSplit(tail);
    FourParts(lines, i, n);
  }

  // ---------------------------------------------------------------- the last edit wins

  lemma BlankKept(x: string)
    requires Trailing(x) && !TopLevel(x)
    ensures KindOf(x) == Other
  {
    assert TrimSpace(x) == "" by { if HasPrefix(x, "#") { assert x[..1][0] == '#'; } }
  }

  lemma {:induction false} OthersKept(lines: seq<string>, f: IPFilterConfig)
    requires forall x :: x in lines ==> KindOf(x) == Other
    ensures RewriteLines(lines, f) == lines && forall k :: k != Other ==> !Seen(lines, k)
  {
    hide KindOf;
    if lines != [] {
      assert lines[0] in lines;
      OthersKept(lines[1..], f);
      assert [lines[0]] + lines[1..] == lines;
    }
  }

  /** Editing a section that was edited before, shortened or not, gives what editing it once gives. */
  lemma BodyTwice(section: seq<string>, f: IPFilterConfig, g: IPFilterConfig)
    requires forall x :: x in section ==> !TopLevel(x)
    ensures var b := Body(section, f); var n := |Shorten(b)|;
      Body(b[..n], g) + b[n..] == Body(section, g) && forall x :: x in b ==> !TopLevel(x)
  {
    hide KindOf, TopLevel, Trailing, Shorten, RewriteLines, Missing, Seen;
    var r, m := RewriteLines(section, f), Missing(section, f);
    var b := r + m;
    var n := |Shorten(b)|;
    RewriteLinesTwice(section, f, g);
    MissingTwice(section, f, g);
    RewriteAppend(r, m, g);
    SeenAppend(r, m);
    ShortenSplit(b);
    var keep, blank := b[..n], b[n..];
    assert b == keep + blank;
    forall x | x in blank ensures KindOf(x) == Other {
      assert x in b;
      BlankKept(x);
    }
    OthersKept(blank, g);
    RewriteAppend(keep, blank, g);
    SeenAppend(keep, blank);
    assert Seen(keep, Enable) && Seen(keep, Allow) && Seen(keep, Deny);
    NoneMissing(keep, g);
  }

  lemma NoneMissing(lines: seq<string>, f: IPFilterConfig)
    requires Seen(lines, Enable) && Seen(lines, Allow) && Seen(lines, Deny)
    ensures Missing(lines, f) == []
  {
    hide Seen;
  }

  /** For every file with the section, the second edit alone decides what the file becomes. */
  lemma ReplaceTwice(lines: seq<string>, f: IPFilterConfig, g: IPFilterConfig)
    requires Replace(lines, f).Some?
    ensures Replace(Replace(lines, f).value, g) == Replace(lines, g)
  {
    hide TopLevel, Trailing, Shorten, HasPrefix, HeaderAt, PartsOf, AfterSection, Body, Whole;
    PartsFit(lines);
    var p := PartsOf(lines);
    var b := Body(p.section, f);
    BodyTwice(p.section, f, g);
    PartsAgain(p.before, p.header, b, p.rest);
    var n := |Shorten(b)|;
    assert p.before + [p.header] + Body(b[..n], g) + (b[n..] + p.rest)
      == p.before + [p.header] + (Body(b[..n], g) + b[n..]) + p.rest;
  }
}
