/** What the section editor makes of a file, line by line, in the file's own words
    (internal/app/common/config/config.go:152-241). */
module ConfigMeaning {
  import opened Text
  import opened ConfigSection

  /** The line begins in the first column. */
  ghost predicate AtLeft(ln: string) {
    ln != "" && ln[0] != ' ' && ln[0] != '\t'
  }

  /** An edit fails when no line begins with ipFilter:, and else works on the first that does. */
  lemma HeaderMeans(lines: seq<string>, f: IPFilterConfig)
    ensures Replace(lines, f).None? <==> forall x :: x in lines ==> !("ipFilter:" <= x)
    ensures Replace(lines, f).Some? ==> var p := PartsOf(lines);
      "ipFilter:" <= p.header && forall x :: x in p.before ==> !("ipFilter:" <= x)
  {
    HeaderFirst(lines);
    assert forall x :: HasPrefix(x, HEADER) <==> "ipFilter:" <= x;
    hide HasPrefix, SectionLength, Body;
    if HeaderAt(lines) < |lines| { assert lines[HeaderAt(lines)] in lines; }
  }

  /** The section is what follows the header, up to the next line that begins in the first column, without
      the blank lines in front of that. */
  lemma SectionMeans(lines: seq<string>) returns (gap: nat)
    requires HeaderAt(lines) < |lines|
    ensures var p := PartsOf(lines);
      && Whole(p) == lines && gap <= |p.rest|
      && (forall x :: x in p.section ==> !AtLeft(x))
      && (p.section != [] ==> TrimSpace(p.section[|p.section| - 1]) != "")
      && (forall x :: x in p.rest[..gap] ==> !AtLeft(x) && TrimSpace(x) == "")
      && (gap < |p.rest| ==> AtLeft(p.rest[gap]))
  {
    var p := PartsOf(lines);
    PartsFit(lines);
    gap := Indented(p.rest);
    GapMeans(p.rest);
    SectionEnd(lines);
    hide PartsOf, Whole, AfterSection, Indented, TrimSpace;
  }

  lemma GapMeans(rest: seq<string>)
    requires AfterSection(rest)
    ensures var gap := Indented(rest);
      && (forall x :: x in rest[..gap] ==> !AtLeft(x) && TrimSpace(x) == "")
      && (gap < |rest| ==> AtLeft(rest[gap]))
  {
    IndentedSplit(rest);
    hide Indented, TrimSpace, Trailing;
    forall x | x in rest[..Indented(rest)] ensures TrimSpace(x) == "" { BlankLine(x); }
  }

  lemma SectionEnd(lines: seq<string>)
    requires HeaderAt(lines) < |lines|
    ensures var p := PartsOf(lines); p.section != [] ==> TrimSpace(p.section[|p.section| - 1]) != ""
  {
    hide Indented, Shorten, HeaderAt, TrimSpace;
    var tail := lines[HeaderAt(lines) + 1..];
    var inner := tail[..Indented(tail)];
    ShortenSplit(inner);
    ShortenEnd(inner);
    var n := |Shorten(inner)|;
    assert inner[..n] == Shorten(inner) && tail[..n] == inner[..n];
  }

  lemma BlankLine(x: string)
    requires Trailing(x) && !TopLevel(x)
    ensures TrimSpace(x) == ""
  {
    if HasPrefix(x, "#") { assert x[..1][0] == x[0]; }
  }

  lemma {:induction false} ShortenEnd(lines: seq<string>)
    ensures var r := Shorten(lines); r != [] ==> TrimSpace(r[|r| - 1]) != ""
  {
    hide TrimSpace;
    if lines != [] && Trailing(lines[|lines| - 1]) { ShortenEnd(lines[..|lines| - 1]); }
  }

  /** How the keys and the items are rewritten, whatever stands before and behind them on their lines. */
  lemma LineEdited(pad: string, rest: string, f: IPFilterConfig)
    requires AllSpace(pad)
    ensures var ln := pad + "enable:" + rest;
      RewriteLine(ln, f) == ["  enable: " + (if f.enable then "true" else "false") + InlineComment(ln)]
    ensures var ln := pad + "allowList:" + rest;
      RewriteLine(ln, f) == RenderList("  allowList:", f.allowList, InlineComment(ln))
    ensures var ln := pad + "denyList:" + rest;
      RewriteLine(ln, f) == RenderList("  denyList:", f.denyList, InlineComment(ln))
    ensures RewriteLine(pad + "-" + rest, f) == []
  {
    KindAt(pad, "enable:", rest);
    KindAt(pad, "allowList:", rest);
    KindAt(pad, "denyList:", rest);
    KindAt(pad, "-", rest);
    hide InlineComment, KindOf, RenderList;
  }

  /** A list is its key and one quoted entry a line, in order; an empty one stands on the key's line. */
  lemma ListRendered(key: string, items: seq<string>, comment: string, i: nat)
    ensures items == [] ==> RenderList(key, items, comment) == [key + " []" + comment]
    ensures items != [] ==> var lines := RenderList(key, items, comment);
      |lines| == 1 + |items| && lines[0] == key + comment
      && (i < |items| ==> lines[1 + i] == "    - " + Quote(items[i]))
  {
    ItemAt(items, i);
    hide ItemLines, Quote;
  }

  lemma {:induction false} ItemAt(items: seq<string>, i: nat)
    ensures |ItemLines(items)| == |items| && (i < |items| ==> ItemLines(items)[i] == "    - " + Quote(items[i]))
  {
    hide Quote;
    if items != [] { ItemAt(items[1..], if i > 0 then i - 1 else 0); }
  }

  /** Printable characters but the quote and the backslash stand for themselves in a quoted entry. */
  lemma QuotePlain(s: string)
    requires forall c :: c in s ==> ' ' <= c && c != '\U{7F}' && c != '"' && c != '\\'
    ensures Quote(s) == "\"" + s + "\""
  {
    BodyPlain(s);
  }

  lemma {:induction false} BodyPlain(s: string)
    requires forall c :: c in s ==> ' ' <= c && c != '\U{7F}' && c != '"' && c != '\\'
    ensures QuoteBody(s) == s
  {
    if s != "" {
      assert s[0] in s && forall c :: c in s[1..] ==> c in s;
      BodyPlain(s[1..]);
      assert QuoteChar(s[0]) == [s[0]] by { hide QuoteBody; }
      hide QuoteChar;
      assert s == [s[0]] + s[1..];
    }
  }
}
