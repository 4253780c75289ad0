/** The section editor as the program runs it, on file text, and over whole editing histories
    (internal/app/common/config/config.go:126-241). */
module ConfigEditor {
  import opened Text
  import opened ConfigSection

  const NL: string := "\n"

  // ---------------------------------------------------------------- lines and text

  ghost predicate NoNewline(s: string) {
    forall k :: 0 <= k < |s| ==> s[k] != '\n'
  }

  lemma NewlineFree(s: string)
    ensures Free(s, NL) <==> NoNewline(s)
  {
    forall k ensures Occurs(s, NL, k) <==> 0 <= k < |s| && s[k] == '\n' {
      if 0 <= k < |s| {
        assert s[k..k + 1] == [s[k]];
        assert NL == ['\n'];
      }
    }
    if !NoNewline(s) {
      var k :| 0 <= k < |s| && s[k] == '\n';
      assert Occurs(s, NL, k);
    }
  }

  lemma {:induction false} QuoteNoNewline(s: string)
    ensures NoNewline(QuoteBody(s))
  {
    if s != "" { QuoteNoNewline(s[1..]); }
  }

  lemma {:induction false} ItemsNoNewline(items: seq<string>)
    ensures forall x :: x in ItemLines(items) ==> NoNewline(x)
  {
    hide QuoteBody;
    if items != [] {
      QuoteNoNewline(items[0]);
      ItemsNoNewline(items[1..]);
    }
  }

  lemma CommentNoNewline(ln: string)
    requires NoNewline(ln)
    ensures NoNewline(InlineComment(ln))
  {
    hide Index, TrimSpace;
    var i := Index(ln, "#");
    if i >= 0 {
      var a, b := TrimSlice(ln[i..]);
      var c := ln[i..][a..b];
      assert forall k :: 0 <= k < |c| ==> c[k] == ln[i + a + k];
    }
  }

  lemma RenderNoNewline(key: string, items: seq<string>, comment: string)
    requires NoNewline(key) && NoNewline(comment)
    ensures forall x :: x in RenderList(key, items, comment) ==> NoNewline(x)
  {
    hide ItemLines;
    ItemsNoNewline(items);
  }

  lemma LineNoNewline(ln: string, f: IPFilterConfig)
    requires NoNewline(ln)
    ensures forall x :: x in RewriteLine(ln, f) ==> NoNewline(x)
  {
    hide KindOf, InlineComment, RenderList;
    var c := InlineComment(ln);
    CommentNoNewline(ln);
    RenderNoNewline("  allowList:", f.allowList, c);
    RenderNoNewline("  denyList:", f.denyList, c);
    assert NoNewline("  enable: " + FormatBool(f.enable) + c);
  }

  lemma {:induction false} LinesNoNewline(lines: seq<string>, f: IPFilterConfig)
    requires forall x :: x in lines ==> NoNewline(x)
    ensures forall x :: x in RewriteLines(lines, f) ==> NoNewline(x)
  {
    hide RewriteLine, NoNewline;
    if lines != [] {
      LineNoNewline(lines[0], f);
      LinesNoNewline(lines[1..], f);
    }
  }

  lemma MissingNoNewline(lines: seq<string>, f: IPFilterConfig)
    ensures forall x :: x in Missing(lines, f) ==> NoNewline(x)
  {
    hide RenderList, Seen;
    RenderNoNewline("  allowList:", f.allowList, "");
    RenderNoNewline("  denyList:", f.denyList, "");
    assert NoNewline("  enable: " + FormatBool(f.enable));
  }

  /** The edited file splits into the lines it was put together from. */
  lemma SplitEdited(src: string, f: IPFilterConfig)
    requires Replace(Split(src, NL), f).Some?
    ensures Split(Join(Replace(Split(src, NL), f).value, NL), NL) == Replace(Split(src, NL), f).value
  {
    hide Split, Join, HeaderAt, PartsOf, RewriteLines, Missing;
    hide NoNewline, Unbordered, TopLevel, AfterSection, HasPrefix;
    var lines := Split(src, NL);
    var p := PartsOf(lines);
    var out := Replace(lines, f).value;
    SplitFree(src, NL);
    forall x | x in lines ensures NoNewline(x) { NewlineFree(x); }
    PartsFit(lines);
    assert forall x :: x in p.section ==> x in Whole(p);
    LinesNoNewline(p.section, f);
    MissingNoNewline(p.section, f);
    forall x | x in out ensures Free(x, NL) {
      NewlineFree(x);
      assert x in Whole(p) || x in Body(p.section, f);
    }
    CommonSeparators();
    SplitJoin(out, NL);
  }

  // ---------------------------------------------------------------- editing histories

  /** For every file and any two settings, editing twice is editing once with the second. */
  lemma EditTwice(src: string, f: IPFilterConfig, g: IPFilterConfig)
    requires ReplaceSection(src, f).Some?
    ensures ReplaceSection(ReplaceSection(src, f).value, g) == ReplaceSection(src, g)
    ensures ReplaceSection(src, g).Some?
  {
    hide Split, Join, Replace;
    SplitEdited(src, f);
    ReplaceTwice(Split(src, NL), f, g);
    SomeForAll(Split(src, NL), f, g);
  }

  /** Whether an edit succeeds depends on the file only. */
  lemma SomeForAll(lines: seq<string>, f: IPFilterConfig, g: IPFilterConfig)
    ensures Replace(lines, f).Some? <==> Replace(lines, g).Some?
  {
  }

  /** The file after a run of edits. */
  function EditAll(src: string, edits: seq<IPFilterConfig>): Option<string>
    decreases |edits|
  {
    if edits == [] then Some(src)
    else
      match ReplaceSection(src, edits[0])
      case None => None
      case Some(next) => EditAll(next, edits[1..])
  }

  /** After any run of edits the file is one edit of the original with the last setting. */
  lemma {:induction false} LastEditWins(src: string, edits: seq<IPFilterConfig>)
    requires edits != []
    ensures EditAll(src, edits) == ReplaceSection(src, edits[|edits| - 1])
    decreases |edits|
  {
    hide ReplaceSection;
    var f := edits[0];
    SomeForAllText(src, f, edits[|edits| - 1]);
    if |edits| > 1 && ReplaceSection(src, f).Some? {
      LastEditWins(ReplaceSection(src, f).value, edits[1..]);
      EditTwice(src, f, edits[|edits| - 1]);
    }
  }

  lemma SomeForAllText(src: string, f: IPFilterConfig, g: IPFilterConfig)
    ensures ReplaceSection(src, f).Some? <==> ReplaceSection(src, g).Some?
  {
    hide Split, Join, Replace;
    SomeForAll(Split(src, NL), f, g);
  }

  // ---------------------------------------------------------------- what an edit leaves alone

  /** Every line with the line break in front of it. */
  function Below(lines: seq<string>): string {
    if lines == [] then "" else NL + lines[0] + Below(lines[1..])
  }

  lemma Chain(a: string, b: string, c: string)
    ensures a + b + c == a + (b + c)
  {
  }

  lemma {:induction false} BelowAppend(a: seq<string>, b: seq<string>)
    ensures Below(a + b) == Below(a) + Below(b)
  {
    if a == [] {
      assert a + b == b;
    } else {
      BelowAppend(a[1..], b);
      assert (a + b)[1..] == a[1..] + b && (a + b)[0] == a[0];
      Chain(NL + a[0], Below(a[1..]), Below(b));
    }
  }

  lemma {:induction false} JoinBelow(top: seq<string>, lines: seq<string>)
    requires top != []
    ensures Join(top + lines, NL) == Join(top, NL) + Below(lines)
    decreases |lines|
  {
    if lines == [] {
      assert top + lines == top;
    } else {
      var l := lines[0];
      assert Join([l], NL) == l;
      hide Join;
      assert top + [l] + lines[1..] == top + lines;
      JoinBelow(top + [l], lines[1..]);
      JoinAppend(top, [l], NL);
      Chain(Join(top, NL), NL, l);
      Chain(Join(top, NL), NL + l, Below(lines[1..]));
    }
  }

  function OtherLine(ln: string): seq<string> {
    if KindOf(ln) == Other then [ln] else []
  }

  /** The lines of a section that are no key of ours and no list item: comments, blanks, other keys. */
  function OtherLines(lines: seq<string>): seq<string> {
    if lines == [] then [] else OtherLine(lines[0]) + OtherLines(lines[1..])
  }

  lemma {:induction false} OtherAppend(a: seq<string>, b: seq<string>)
    ensures OtherLines(a + b) == OtherLines(a) + OtherLines(b)
  {
    hide OtherLine;
    if a == [] {
      assert a + b == b;
    } else {
      OtherAppend(a[1..], b);
      assert (a + b)[1..] == a[1..] + b && (a + b)[0] == a[0];
      Regroup(OtherLine(a[0]), OtherLines(a[1..]), OtherLines(b));
    }
  }

  lemma {:induction false} NoOthers(lines: seq<string>)
    requires !Seen(lines, Other)
    ensures OtherLines(lines) == []
  {
    hide KindOf;
    if lines != [] {
      assert lines[0] in lines;
      assert forall x :: x in lines[1..] ==> x in lines;
      NoOthers(lines[1..]);
    }
  }

  lemma OthersOfLine(ln: string, f: IPFilterConfig)
    ensures OtherLines(RewriteLine(ln, f)) == if KindOf(ln) == Other then [ln] else []
  {
    hide KindOf, RenderList, InlineComment, FormatBool, Written;
    RenderedAgain(Allow, "  allowList:", f.allowList, ln, f);
    RenderedAgain(Deny, "  denyList:", f.denyList, ln, f);
    EnableAgain(f.enable, ln, f);
    if KindOf(ln) != Other {
      WrittenNoOther(RewriteLine(ln, f), KindOf(ln));
      NoOthers(RewriteLine(ln, f));
    }
  }

  lemma WrittenNoOther(out: seq<string>, k: Kind)
    requires out == [] || Written(out, k)
    requires k != Other
    ensures !Seen(out, Other)
  {
    hide KindOf, TopLevel, Trailing;
  }

  lemma {:induction false} OthersOfLines(lines: seq<string>, f: IPFilterConfig)
    ensures OtherLines(RewriteLines(lines, f)) == OtherLines(lines)
  {
    hide RewriteLine, KindOf;
    if lines != [] {
      OthersOfLine(lines[0], f);
      OthersOfLines(lines[1..], f);
      OtherAppend(RewriteLine(lines[0], f), RewriteLines(lines[1..], f));
    }
  }

  lemma OthersOfMissing(lines: seq<string>, f: IPFilterConfig)
    ensures OtherLines(Missing(lines, f)) == []
  {
    hide KindOf, RenderList, InlineComment, FormatBool, Written, Seen, OtherLines;
    BareComment();
    Bare(FormatBool(f.enable));
    var e := ["  enable: " + FormatBool(f.enable)];
    var al := RenderList("  allowList:", f.allowList, "");
    var dl := RenderList("  denyList:", f.denyList, "");
    RenderedAgain(Allow, "  allowList:", f.allowList, "", f);
    RenderedAgain(Deny, "  denyList:", f.denyList, "", f);
    EnableAgain(f.enable, "", f);
    WrittenNoOther(e, Enable);
    WrittenNoOther(al, Allow);
    WrittenNoOther(dl, Deny);
    NothingSeen(f);
    var a, b, c := if Seen(lines, Enable) then [] else e,
      if Seen(lines, Allow) then [] else al, if Seen(lines, Deny) then [] else dl;
    NoOthers(a);
    NoOthers(b);
    NoOthers(c);
    OtherAppend(a, b);
    OtherAppend(a + b, c);
  }

  lemma NothingSeen(f: IPFilterConfig)
    ensures RewriteLines([], f) == [] && forall k :: !Seen([], k)
  {
  }

  /** Everything before and after the section is byte-identical, and the section's comments, blank
      lines and foreign keys stay, in their order. */
  lemma EditIsLocal(src: string, f: IPFilterConfig) returns (p: Parts, inner: seq<string>)
    requires ReplaceSection(src, f).Some?
    ensures HasPrefix(p.header, HEADER) && forall x :: x in p.before ==> !HasPrefix(x, HEADER)
    ensures src == Join(p.before + [p.header], NL) + Below(p.section) + Below(p.rest)
    ensures ReplaceSection(src, f).value == Join(p.before + [p.header], NL) + Below(inner) + Below(p.rest)
    ensures OtherLines(inner) == OtherLines(p.section)
    ensures forall x :: x in p.section ==> !TopLevel(x)
  {
    hide Split, Join, HasPrefix, PartsOf, HeaderAt, RewriteLines, Missing, Below, OtherLines, TopLevel, AfterSection;
    var lines := Split(src, NL);
    p := PartsOf(lines);
    inner := Body(p.section, f);
    PartsFit(lines);
    JoinSplit(src, NL);
    var top := p.before + [p.header];
    assert Whole(p) == top + (p.section + p.rest);
    assert top + inner + p.rest == top + (inner + p.rest);
    JoinBelow(top, p.section + p.rest);
    JoinBelow(top, inner + p.rest);
    BelowAppend(p.section, p.rest);
    BelowAppend(inner, p.rest);
    OthersOfLines(p.section, f);
    OthersOfMissing(p.section, f);
    OtherAppend(RewriteLines(p.section, f), Missing(p.section, f));
  }

  // ---------------------------------------------------------------- the program

  /** renderList. */
  method RenderListLoop(key: string, items: seq<string>, comment: string) returns (out: seq<string>)
    ensures out == RenderList(key, items, comment)
  {
    if |items| == 0 {
      return [key + " []" + comment];
    }
    out := [key + comment];
    var i := 0;
    assert items[0..] == items;
    while i < |items|
      invariant 0 <= i <= |items| && RenderList(key, items, comment) == out + ItemLines(items[i..])
    {
      assert items[i..][1..] == items[i + 1..];
      out := out + ["    - " + Quote(items[i])];
      i := i + 1;
    }
  }

  lemma {:induction false} RewriteSnoc(lines: seq<string>, ln: string, f: IPFilterConfig)
    ensures RewriteLines(lines + [ln], f) == RewriteLines(lines, f) + RewriteLine(ln, f)
    ensures forall k :: Seen(lines + [ln], k) <==> Seen(lines, k) || KindOf(ln) == k
  {
    hide KindOf, RewriteLine;
    RewriteAppend(lines, [ln], f);
    RewriteOne(ln, f);
    SeenAppend(lines, [ln]);
    forall k ensures Seen([ln], k) <==> KindOf(ln) == k {
      if KindOf(ln) == k { assert ln in [ln]; }
    }
  }

  /** The lines one line of the section becomes, and the key it shows. */
  method RewriteLineSwitch(ln: string, f: IPFilterConfig) returns (lines: seq<string>, key: set<Kind>)
    ensures lines == RewriteLine(ln, f)
    ensures key == if KindOf(ln) == Item || KindOf(ln) == Other then {} else {KindOf(ln)}
  {
    hide KindOf, InlineComment, RenderList;
    match KindOf(ln)
    case Enable =>
      return ["  enable: " + FormatBool(f.enable) + InlineComment(ln)], {Enable};
    case Allow =>
      lines := RenderListLoop("  allowList:", f.allowList, InlineComment(ln));
      key := {Allow};
    case Deny =>
      lines := RenderListLoop("  denyList:", f.denyList, InlineComment(ln));
      key := {Deny};
    case Item =>
      return [], {};
    case Other =>
      return [ln], {};
  }

  /** The rewriting loop over the section, and the keys it did not meet. */
  method RewriteBody(section: seq<string>, f: IPFilterConfig) returns (body: seq<string>)
    ensures body == Body(section, f)
  {
    hide KindOf, RewriteLine, RewriteLines, Seen, InlineComment, RenderList;
    NothingSeen(f);
    body := [];
    var seen: set<Kind> := {};
    var i := 0;
    while i < |section|
      invariant 0 <= i <= |section| && body == RewriteLines(section[..i], f)
      invariant forall k :: k != Item && k != Other ==> (k in seen <==> Seen(section[..i], k))
    {
      RewriteSnoc(section[..i], section[i], f);
      assert section[..i] + [section[i]] == section[..i + 1];
      var lines, key := RewriteLineSwitch(section[i], f);
      body := body + lines;
      seen := seen + key;
      i := i + 1;
    }
    assert section[..i] == section;
    if Enable !in seen {
      body := body + ["  enable: " + FormatBool(f.enable)];
    }
    if Allow !in seen {
      var list := RenderListLoop("  allowList:", f.allowList, "");
      body := body + list;
    }
    if Deny !in seen {
      var list := RenderListLoop("  denyList:", f.denyList, "");
      body := body + list;
    }
  }

  /** The header line, or the number of lines. */
  method FindHeader(lines: seq<string>) returns (start: nat)
    ensures start == HeaderAt(lines)
  {
    hide HasPrefix;
    start := 0;
    assert lines[0..] == lines;
    while start < |lines| && !HasPrefix(lines[start], HEADER)
      invariant 0 <= start <= |lines| && HeaderAt(lines) == start + HeaderAt(lines[start..])
    {
      assert lines[start..][1..] == lines[start + 1..];
      start := start + 1;
    }
  }

  /** One past the section's last line: up to the next top-level line, then back over trailing lines. */
  method FindEnd(lines: seq<string>, start: nat) returns (end: nat)
    requires start < |lines|
    ensures start < end <= |lines| && end - start - 1 == SectionLength(lines[start + 1..])
  {
    hide TopLevel, Trailing, Indented, Shorten;
    ghost var tail := lines[start + 1..];
    end := start + 1;
    while end < |lines| && !TopLevel(lines[end])
      invariant start < end <= |lines| && Indented(tail) == end - start - 1 + Indented(lines[end..])
    {
      IndentedNext(lines, end);
      end := end + 1;
    }
    IndentedStops(lines, end);
    assert tail[..Indented(tail)] == lines[start + 1..end];
    while end > start + 1 && Trailing(lines[end - 1])
      invariant start < end <= |lines| && Shorten(tail[..Indented(tail)]) == Shorten(lines[start + 1..end])
    {
      ShortenNext(lines, start + 1, end);
      end := end - 1;
    }
    ShortenStops(lines, start + 1, end);
  }

  lemma IndentedNext(lines: seq<string>, end: nat)
    requires end < |lines| && !TopLevel(lines[end])
    ensures Indented(lines[end..]) == 1 + Indented(lines[end + 1..])
  {
    hide TopLevel;
    assert lines[end..][1..] == lines[end + 1..];
  }

  lemma IndentedStops(lines: seq<string>, end: nat)
    requires end == |lines| || (end < |lines| && TopLevel(lines[end]))
    ensures Indented(lines[end..]) == 0
  {
  }

  lemma ShortenNext(lines: seq<string>, lo: nat, end: nat)
    requires lo < end <= |lines| && Trailing(lines[end - 1])
    ensures Shorten(lines[lo..end]) == Shorten(lines[lo..end - 1])
  {
    hide Trailing;
    assert lines[lo..end][..end - lo - 1] == lines[lo..end - 1];
  }

  lemma ShortenStops(lines: seq<string>, lo: nat, end: nat)
    requires lo <= end <= |lines| && (end == lo || !Trailing(lines[end - 1]))
    ensures Shorten(lines[lo..end]) == lines[lo..end]
  {
  }

  /** replaceIPFilterSection. */
  method ReplaceIPFilterSection(src: string, f: IPFilterConfig) returns (result: Option<string>)
    ensures result == ReplaceSection(src, f)
  {
    hide Split, Join, SectionLength, HeaderAt, Body;
    var lines := Split(src, NL);
    var start := FindHeader(lines);
    if start == |lines| {
      return None;
    }
    var end := FindEnd(lines, start);
    ghost var p := PartsOf(lines);
    assert p.section == lines[start + 1..end] && p.rest == lines[end..];
    var body := RewriteBody(lines[start + 1..end], f);
    assert lines[..start + 1] == p.before + [p.header];
    result := Some(Join(lines[..start + 1] + body + lines[end..], NL));
  }
}
