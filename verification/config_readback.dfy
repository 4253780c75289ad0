/** Edited files read back: exactly when the reader of ConfigReader gets out what the editor wrote
    (internal/app/common/config/config.go:156-241). */
module ConfigReadback {
  import opened Text
  import opened ConfigSection
  import opened ConfigReader

  // ---------------------------------------------------------------- quoting

  lemma HexBack(n: nat)
    requires n < 16
    ensures HexValue(HexDigit(n)) == Some(n)
  {
  }

  lemma HexChar(c: char, rest: string)
    requires (c as int) < 256
    ensures UnquoteBody(['\\', 'x', HexDigit(c as int / 16), HexDigit(c as int % 16)] + rest)
      == Prepend(c, UnquoteBody(rest))
  {
    hide HexValue, HexDigit;
    HexBack(c as int / 16);
    HexBack(c as int % 16);
    var s := ['\\', 'x', HexDigit(c as int / 16), HexDigit(c as int % 16)] + rest;
    assert s[4..] == rest;
  }

  lemma QuotedChar(c: char, rest: string)
    ensures UnquoteBody(QuoteChar(c) + rest) == Prepend(c, UnquoteBody(rest))
  {
    hide HexValue, HexDigit;
    var q := QuoteChar(c);
    if |q| == 4 {
      HexChar(c, rest);
    } else if |q| == 2 {
      assert (q + rest)[2..] == rest;
    } else {
      assert (q + rest)[1..] == rest;
    }
  }

  lemma {:induction false} UnquoteQuoteBody(s: string)
    ensures UnquoteBody(QuoteBody(s) + "\"") == Some(s)
  {
    hide QuoteChar, Unescape, HexValue;
    if s == "" {
      assert QuoteBody(s) + "\"" == "\"";
    } else {
      var rest := QuoteBody(s[1..]) + "\"";
      UnquoteQuoteBody(s[1..]);
      assert QuoteBody(s) + "\"" == QuoteChar(s[0]) + rest;
      QuotedChar(s[0], rest);
      assert [s[0]] + s[1..] == s;
    }
  }

  /** A quoted entry reads back as itself. */
  lemma UnquoteQuote(s: string)
    ensures Unquote(Quote(s)) == Some(s)
  {
    hide QuoteBody, UnquoteBody;
    UnquoteQuoteBody(s);
    assert Quote(s)[1..] == QuoteBody(s) + "\"";
  }

  // ---------------------------------------------------------------- reading written lines

  lemma TrimRightKeeps(w: string)
    requires w == "" || !IsSpace(w[|w| - 1])
    ensures TrimRight(w) == w
  {
  }

  lemma TrimInner(pad: string, w: string)
    requires AllSpace(pad) && w != "" && !IsSpace(w[0]) && !IsSpace(w[|w| - 1])
    ensures TrimSpace(pad + w) == w
  {
    TrimLeftPad(pad, w);
    TrimRightKeeps(w);
  }

  /** A comment the editor carries over: empty, or a blank and a trimmed text from its '#' on. */
  predicate CommentShaped(c: string) {
    c == "" || (|c| >= 2 && c[0] == ' ' && c[1] == '#' && !IsSpace(c[|c| - 1]))
  }

  lemma CommentShape(ln: string)
    ensures CommentShaped(InlineComment(ln))
  {
    hide Index, TrimSpace;
    HashAt(ln);
    var i := Index(ln, "#");
    if i >= 0 {
      HashStays(ln[i..]);
      TrimIdempotent(ln[i..]);
    }
  }

  // ---------------------------------------------------------------- the lines the editor writes

  lemma {:induction false} SpacesOf(pad: string, t: string)
    requires (forall k :: 0 <= k < |pad| ==> pad[k] == ' ') && (t == "" || t[0] != ' ')
    ensures Spaces(pad + t) == |pad| && (pad + t)[|pad|..] == t
  {
    if pad == "" {
      assert pad + t == t;
    } else {
      assert (pad + t)[1..] == pad[1..] + t;
      SpacesOf(pad[1..], t);
    }
  }

  lemma {:induction false} KeyLengthOf(k: string, rest: string)
    requires (forall i :: 0 <= i < |k| ==> KeyChar(k[i])) && rest != "" && !KeyChar(rest[0])
    ensures KeyLength(k + rest) == |k|
  {
    if k == "" {
      assert k + rest == rest;
    } else {
      assert (k + rest)[1..] == k[1..] + rest;
      KeyLengthOf(k[1..], rest);
    }
  }

  predicate KnownValue(v: string) { v == "[]" || v == "true" || v == "false" }

  lemma NoMark(s: string, sep: string)
    requires sep != "" && forall k :: 0 <= k < |s| ==> s[k] != sep[0]
    ensures Index(s, sep) < 0 && Free(s, sep)
  {
    IndexFirst(s, sep);
    forall k ensures !Occurs(s, sep, k) {
      if 0 <= k && k + |sep| <= |s| { assert s[k..k + |sep|][0] == s[k]; }
    }
  }

  lemma KnownChars(v: string)
    requires KnownValue(v)
    ensures v[0] != '"' && v[0] != '\'' && v[0] != '#' && !IsSpace(v[0]) && !IsSpace(v[|v| - 1])
    ensures v != "[]" ==> !Indicator(v[0]) && v[|v| - 1] != ':'
    ensures forall k :: 0 <= k < |v| ==> v[k] != ' ' && v[k] != ':' && v[k] != '\t'
  {
  }

  lemma KnownScalar(v: string)
    requires KnownValue(v)
    ensures PlainScalar(v) && TrimSpace(v) == v && Index(v, " #") < 0 && Free(v, " #")
    ensures v[0] != '"' && v[0] != '\'' && v[0] != '#' && !IsSpace(v[0]) && !IsSpace(v[|v| - 1])
  {
    KnownChars(v);
    hide KnownValue, TrimSpace, Index, Indicator;
    NoMark(v, " #");
    NoMark(v, ": ");
    TrimIdempotent(v);
    assert v != "";
  }

  /** A written value, whatever comment follows it. */
  lemma ValueBefore(v: string, c: string)
    requires KnownValue(v) && CommentShaped(c)
    ensures Value(TrimSpace(" " + v + c)) == Some(v)
  {
    hide TrimSpace, Index, PlainScalar;
    KnownScalar(v);
    assert " " + v + c == " " + (v + c);
    TrimInner(" ", v + c);
    if c == "" {
      assert v + c == v;
    } else {
      assert Unbordered(" #") by { assert " #"[1..] == "#" && " #"[..1] == " "; }
      assert v + c == v + " #" + c[2..];
      IndexOfSeparator(v, " #", c[2..]);
      assert (v + c)[..|v|] == v;
    }
  }

  lemma NoValueBefore(c: string)
    requires CommentShaped(c)
    ensures Value(TrimSpace(c)) == Some("")
  {
    if c != "" {
      assert c == " " + c[1..];
      TrimInner(" ", c[1..]);
    }
  }

  predicate OwnName(k: string) { k == "enable" || k == "allowList" || k == "denyList" }

  lemma OwnChars(k: string)
    requires OwnName(k)
    ensures PlainKey(k) && k[0] != '-' && k[0] != '#' && k[0] != ' '
  {
  }

  predicate PlainKey(k: string) {
    0 < |k| <= MAX_KEY && k[0] != '-' && forall i :: 0 <= i < |k| ==> KeyChar(k[i])
  }

  /** A key at the start of t with a value behind it. */
  lemma KeyOfKey(c: nat, k: string, rest: string, v: string)
    requires PlainKey(k) && (rest == "" || rest[0] == ' ') && Value(TrimSpace(rest)) == Some(v)
    ensures KeyOf(c, k + ":" + rest) == KeyLine(c, k, v)
  {
    hide TrimSpace, Value, KeyChar;
    var t := k + ":" + rest;
    assert t == k + (":" + rest);
    ColonEndsKey();
    KeyLengthOf(k, ":" + rest);
    assert t[|k| + 1..] == rest && t[..|k|] == k;
  }

  lemma ColonEndsKey()
    ensures !KeyChar(':')
  {
  }

  lemma LineOfKey(pad: string, t: string)
    requires (forall k :: 0 <= k < |pad| ==> pad[k] == ' ') && t != ""
    requires t[0] != ' ' && t[0] != '#' && t[0] != '-' && t[|t| - 1] != '\r'
    ensures LineOf(pad + t) == if Printable(pad + t) then KeyOf(|pad|, t) else Refused
  {
    hide KeyOf, Spaces, Printable;
    SpacesOf(pad, t);
    assert Chop(pad + t) == pad + t;
  }

  /** What stands between a written key and its comment. */
  predicate Between(mid: string, v: string) {
    if v == "" then mid == "" else KnownValue(v) && mid == " " + v
  }

  lemma EndsInText(k: string, mid: string, v: string, c: string)
    requires OwnName(k) && Between(mid, v) && CommentShaped(c)
    ensures var t := k + ":" + (mid + c); t[|t| - 1] != '\r' && t[0] == k[0]
  {
    if v != "" { KnownChars(v); }
  }

  lemma RestReads(mid: string, v: string, c: string)
    requires Between(mid, v) && CommentShaped(c)
    ensures Value(TrimSpace(mid + c)) == Some(v) && (mid + c == "" || (mid + c)[0] == ' ')
  {
    hide Value, TrimSpace, KnownValue;
    if v == "" {
      assert mid + c == c;
      NoValueBefore(c);
    } else {
      ValueBefore(v, c);
    }
  }

  /** A written key line reads as its key and value, unless its comment is not text. */
  lemma KeyLineReads(k: string, mid: string, v: string, c: string)
    requires OwnName(k) && Between(mid, v) && CommentShaped(c)
    ensures LineOf("  " + k + ":" + mid + c) == if Printable(c) then KeyLine(2, k, v) else Refused
  {
    hide *;
    var t := k + ":" + (mid + c);
    assert "  " + k + ":" + mid + c == "  " + t;
    PrintableKey(k, mid, v, c);
    OwnChars(k);
    EndsInText(k, mid, v, c);
    RestReads(mid, v, c);
    KeyOfKey(2, k, mid + c, v);
    LineOfKey("  ", t);
  }

  lemma PrintableKey(k: string, mid: string, v: string, c: string)
    requires OwnName(k) && Between(mid, v)
    ensures Printable("  " + k + ":" + mid + c) <==> Printable(c)
  {
    PrintableAppend("  " + k + ":", mid);
    assert Printable(mid) by { if v != "" { PrintableAppend(" ", v); } }
    hide Printable, Between;
    PrintableAppend("  " + k + ":" + mid, c);
  }

  lemma PrintableAppend(a: string, b: string)
    ensures Printable(a + b) <==> Printable(a) && Printable(b)
  {
    assert forall k :: 0 <= k < |a| ==> (a + b)[k] == a[k];
    assert forall k :: 0 <= k < |b| ==> (a + b)[|a| + k] == b[k];
  }

  lemma {:induction false} QuotePrintable(s: string)
    ensures Printable(QuoteBody(s))
  {
    hide Printable, QuoteChar;
    if s == "" {
      assert Printable("") by { NothingPrintable(); }
    } else {
      QuotePrintable(s[1..]);
      CharPrintable(s[0]);
      PrintableAppend(QuoteChar(s[0]), QuoteBody(s[1..]));
    }
  }

  lemma NothingPrintable()
    ensures Printable("") && Printable("\"") && Printable("    - ")
  {
  }

  lemma CharPrintable(c: char)
    ensures Printable(QuoteChar(c))
  {
  }

  /** A written item reads as its quoted text. */
  lemma ItemLineReads(item: string)
    ensures LineOf("    - " + Quote(item)) == ItemLine(4, Quote(item))
  {
    hide TrimSpace, QuoteBody, Value, KeyOf;
    var q := Quote(item);
    var t := "- " + q;
    var out := "    - " + q;
    assert out == "    " + t;
    SpacesOf("    ", t);
    assert Chop(out) == out;
    assert Printable(out) by {
      hide Printable;
      NothingPrintable();
      QuotePrintable(item);
      PrintableAppend("\"", QuoteBody(item));
      PrintableAppend("\"" + QuoteBody(item), "\"");
      PrintableAppend("    - ", q);
    }
    hide Printable;
    assert t[..2] == "- " && t[1..] == " " + q;
    TrimInner(" ", q);
  }

  // ---------------------------------------------------------------- frames

  ghost predicate Rising(levels: seq<nat>) {
    forall i, j :: 0 <= i < j < |levels| ==> levels[i] < levels[j]
  }

  /** The frames a readable section goes through: nothing read yet, or its keys at column 2. */
  ghost predicate RightFrame(fr: Frame) {
    && (fr.below.Shut? || fr.below.owner == Foreign)
    && if fr.levels == [] then fr == FIRST else fr.levels[0] == 2 && Rising(fr.levels)
  }

  lemma {:induction false} PopPrefix(levels: seq<nat>, c: nat)
    ensures var ls := Pop(levels, c); ls == levels[..|ls|] && (ls != [] ==> Last(ls) <= c)
    ensures levels != [] && levels[0] <= c && Rising(levels) ==> Pop(levels, c) != []
    decreases |levels|
  {
    if levels != [] && Last(levels) > c {
      var init := levels[..|levels| - 1];
      PopPrefix(init, c);
      assert init[..|Pop(levels, c)|] == levels[..|Pop(levels, c)|];
      if init != [] { assert init[0] == levels[0]; }
    }
  }

  /** A key leaves the section's own column where it is. */
  lemma EnterKeeps(fr: Frame, c: nat)
    requires fr.levels != [] && Enter(fr, c) != []
    ensures Enter(fr, c)[0] == fr.levels[0] && (Rising(fr.levels) ==> Rising(Enter(fr, c)))
  {
    PopPrefix(fr.levels, c);
  }

  lemma EnterTwo(fr: Frame)
    requires RightFrame(fr)
    ensures Enter(fr, 2) == [2]
  {
    if fr.levels != [] {
      PopPrefix(fr.levels, 2);
      var ls := Pop(fr.levels, 2);
      assert ls != [] && ls[0] == fr.levels[0];
      assert ls[|ls| - 1] == fr.levels[|ls| - 1];
    }
  }

  lemma KeptRight(fr: Frame, ln: string)
    requires RightFrame(fr) && KeptLine(fr, ln).Some?
    ensures RightFrame(KeptLine(fr, ln).value) && fr.names <= KeptLine(fr, ln).value.names
  {
    hide LineOf, Value;
    var l := LineOf(ln);
    if l.KeyLine? && fr.levels != [] { EnterKeeps(fr, l.col); }
  }

  // ---------------------------------------------------------------- readings and frames

  function Flip(f: IPFilterConfig): IPFilterConfig { f.(enable := !f.enable) }

  predicate Has(r: Reading, k: Kind) {
    r.Good? &&
    match k
    case Enable => r.enable.Some?
    case Allow => r.allowList.Some?
    case Deny => r.denyList.Some?
    case _ => true
  }

  /** What has been read so far is what was written. */
  predicate Fits(r: Reading, f: IPFilterConfig) {
    r.Good?
    && (r.enable.Some? ==> r.enable.value == f.enable)
    && (r.allowList.Some? ==> r.allowList.value == f.allowList)
    && (r.denyList.Some? ==> r.denyList.value == f.denyList)
  }

  /** A reader's frame, but for the items of our lists below the last key. */
  predicate Like(a: Frame, fr: Frame) {
    a.levels == fr.levels && a.names == fr.names
    && (a.below == fr.below || (fr.below == Shut && a.below.Items? && a.below.owner != Foreign))
  }

  ghost predicate Rel(r: Reading, fr: Frame, f: IPFilterConfig) {
    Fits(r, f) && RightFrame(fr) && Like(r.frame, fr) && (fr.levels == [] ==> r == START)
  }

  /** The lines for one of our keys, with comment c. */
  function KeyLines(k: Kind, f: IPFilterConfig, c: string): seq<string> {
    match k
    case Enable => ["  enable: " + FormatBool(f.enable) + c]
    case Allow => RenderList("  allowList:", f.allowList, c)
    case Deny => RenderList("  denyList:", f.denyList, c)
    case _ => []
  }

  lemma {:induction false} ReadBad(lines: seq<string>)
    ensures ReadAll(Bad, lines) == Bad
  {
    if lines != [] { ReadBad(lines[1..]); }
  }

  lemma {:induction false} ReadAppend(r: Reading, a: seq<string>, b: seq<string>)
    ensures ReadAll(r, a + b) == ReadAll(ReadAll(r, a), b)
    decreases |a|
  {
    hide ReadLine;
    if a == [] {
      assert a + b == b;
    } else {
      ReadAppend(ReadLine(r, a[0]), a[1..], b);
      assert (a + b)[1..] == a[1..] + b;
    }
  }

  lemma ReadOne(r: Reading, ln: string)
    ensures ReadAll(r, [ln]) == ReadLine(r, ln)
  {
    hide ReadLine;
    assert [ln][1..] == [];
  }

  // ---------------------------------------------------------------- reading one of our keys

  /** The reading after our key k with its value, and after its items when there are some. */
  function WithKey(r: Reading, k: Kind, f: IPFilterConfig): Reading
    requires r.Good?
  {
    var fr := Frame([2], r.frame.names + {NameOf(k)}, Shut);
    match k
    case Enable => r.(enable := Some(f.enable), frame := fr)
    case Allow =>
      r.(allowList := Some(f.allowList),
         frame := if f.allowList == [] then fr else fr.(below := Items(AllowItems, 4)))
    case Deny =>
      r.(denyList := Some(f.denyList),
         frame := if f.denyList == [] then fr else fr.(below := Items(DenyItems, 4)))
    case _ => r
  }

  lemma AddMore(r: Reading, owner: Owner, a: seq<string>, b: seq<string>)
    requires r.Good? && ((owner == AllowItems && r.allowList.Some?) || (owner == DenyItems && r.denyList.Some?))
    ensures var r' := AddItems(r, owner, a);
      r'.Good? && r'.frame == r.frame && (r'.allowList.Some? <==> r.allowList.Some?)
      && (r'.denyList.Some? <==> r.denyList.Some?)
      && AddItems(r', owner, b) == AddItems(r, owner, a + b)
  {
    var l := if owner == AllowItems then r.allowList.value else r.denyList.value;
    assert l + a + b == l + (a + b);
  }

  lemma ItemReads(r: Reading, owner: Owner, x: string)
    requires r.Good? && ((owner == AllowItems && r.allowList.Some?) || (owner == DenyItems && r.denyList.Some?))
    requires r.frame.below == Items(owner, 4) || (r.frame.below == Open(owner) && r.frame.levels == [2])
    ensures ReadLine(r, "    - " + Quote(x)) == AddItems(r.(frame := r.frame.(below := Items(owner, 4))), owner, [x])
  {
    ItemLineReads(x);
    UnquoteQuote(x);
    hide LineOf, Quote, Unquote, AddItems, Value;
  }

  lemma FirstItem(items: seq<string>)
    requires items != []
    ensures ItemLines(items) != [] && ItemLines(items)[0] == "    - " + Quote(items[0])
    ensures ItemLines(items)[1..] == ItemLines(items[1..]) && ItemLines([]) == []
  {
    hide Quote;
  }

  lemma {:induction false} ItemsRead(r: Reading, owner: Owner, items: seq<string>)
    requires r.Good? && ((owner == AllowItems && r.allowList.Some?) || (owner == DenyItems && r.denyList.Some?))
    requires items != []
    requires r.frame.below == Items(owner, 4) || (r.frame.below == Open(owner) && r.frame.levels == [2])
    ensures ReadAll(r, ItemLines(items)) ==
      AddItems(r.(frame := r.frame.(below := Items(owner, 4))), owner, items)
    decreases |items|
  {
    var x, rest := items[0], items[1..];
    var r0 := r.(frame := r.frame.(below := Items(owner, 4)));
    ItemReads(r, owner, x);
    FirstItem(items);
    hide ReadLine, Quote, AddItems, ItemLines;
    assert [x] + rest == items;
    AddMore(r0, owner, [x], rest);
    if rest == [] {
      assert [x] == items;
      ReadNothing(AddItems(r0, owner, [x]));
    } else {
      ItemsRead(AddItems(r0, owner, [x]), owner, rest);
      SameBelow(AddItems(r0, owner, [x]), owner);
    }
  }

  lemma SameBelow(r: Reading, owner: Owner)
    requires r.Good? && r.frame.below == Items(owner, 4)
    ensures r.(frame := r.frame.(below := Items(owner, 4))) == r
  {
  }

  lemma ReadNothing(r: Reading)
    ensures ReadAll(r, ItemLines([])) == r && ReadAll(r, []) == r
  {
  }

  /** Reading a key line of ours at column 2, in a section whose keys are there. */
  lemma KeyAtTwo(r: Reading, fr: Frame, f: IPFilterConfig, name: string, v: string)
    requires Rel(r, fr, f)
    ensures ReadKey(r, 2, name, v) ==
      if name in fr.names then Bad
      else
        var next := Frame([2], fr.names + {name}, if v == "" then Open(Foreign) else Shut);
        if name == "enable" then
          if ParseBool(v).None? then Bad else r.(enable := ParseBool(v), frame := next)
        else if name == "allowList" then
          if v == "[]" then r.(allowList := Some([]), frame := next)
          else if v == "" then r.(allowList := Some([]), frame := next.(below := Open(AllowItems)))
          else Bad
        else if name == "denyList" then
          if v == "[]" then r.(denyList := Some([]), frame := next)
          else if v == "" then r.(denyList := Some([]), frame := next.(below := Open(DenyItems)))
          else Bad
        else r.(frame := next)
  {
    hide ParseBool;
    EnterTwo(fr);
    SameEnter(r.frame, fr, 2);
  }

  lemma SameEnter(a: Frame, fr: Frame, c: nat)
    requires Like(a, fr)
    ensures Enter(a, c) == Enter(fr, c)
  {
  }

  lemma EnableReads(r: Reading, fr: Frame, f: IPFilterConfig, c: string)
    requires Rel(r, fr, f) && CommentShaped(c)
    ensures ReadAll(r, KeyLines(Enable, f, c)) ==
      if Printable(c) && "enable" !in fr.names then WithKey(r, Enable, f) else Bad
  {
    hide LineOf, Rel, Printable;
    var v := FormatBool(f.enable);
    var mid := " " + v;
    var ln := "  enable: " + v + c;
    assert ln == "  " + "enable" + ":" + mid + c;
    KeyLineReads("enable", mid, v, c);
    ReadOne(r, ln);
    KeyAtTwo(r, fr, f, "enable", v);
    RelNames(r, fr, f);
  }

  lemma RelNames(r: Reading, fr: Frame, f: IPFilterConfig)
    requires Rel(r, fr, f)
    ensures r.Good? && r.frame.names == fr.names
  {
  }

  lemma ListReads(r: Reading, fr: Frame, f: IPFilterConfig, k: Kind, c: string)
    requires Rel(r, fr, f) && CommentShaped(c) && (k == Allow || k == Deny)
    ensures ReadAll(r, KeyLines(k, f, c)) ==
      if Printable(c) && NameOf(k) !in fr.names then WithKey(r, k, f) else Bad
  {
    hide LineOf, Rel, Printable, ItemLines;
    var name := NameOf(k);
    var items := if k == Allow then f.allowList else f.denyList;
    var owner := if k == Allow then AllowItems else DenyItems;
    var v := if items == [] then "[]" else "";
    var mid := if items == [] then " []" else "";
    var ln := "  " + name + ":" + mid + c;
    RelNames(r, fr, f);
    ListLines(k, f, c);
    KeyLineReads(name, mid, v, c);
    ReadAppend(r, [ln], ItemLines(items));
    ReadOne(r, ln);
    KeyAtTwo(r, fr, f, name, v);
    var r1 := ReadLine(r, ln);
    if r1.Bad? {
      ReadBad(ItemLines(items));
    } else if items == [] {
      ReadNothing(r1);
    } else {
      ItemsRead(r1, owner, items);
      assert [] + items == items;
    }
  }

  lemma ListLines(k: Kind, f: IPFilterConfig, c: string)
    requires k == Allow || k == Deny
    ensures var items := if k == Allow then f.allowList else f.denyList;
      KeyLines(k, f, c) == ["  " + NameOf(k) + ":" + (if items == [] then " []" else "") + c] + ItemLines(items)
  {
    hide ItemLines;
    NoItems();
    var key := if k == Allow then "  allowList:" else "  denyList:";
    assert "  " + NameOf(k) + ":" == key && key + "" == key;
  }

  /** Reading one of our keys as written succeeds when its comment is text and the key is new. */
  lemma OwnReads(r: Reading, fr: Frame, f: IPFilterConfig, k: Kind, c: string)
    requires Rel(r, fr, f) && CommentShaped(c) && Key(k)
    ensures var r' := ReadAll(r, KeyLines(k, f, c));
      if Printable(c) && OwnKey(fr, NameOf(k)).Some? then
        Rel(r', OwnKey(fr, NameOf(k)).value, f) && Has(r', k) && forall j :: Has(r, j) ==> Has(r', j)
      else r' == Bad
  {
    hide KeyLines, ReadAll, Printable;
    if k == Enable { EnableReads(r, fr, f, c); } else { ListReads(r, fr, f, k, c); }
  }

  // ---------------------------------------------------------------- reading a kept line

  /** A reading of a section whose keys are not at column 2: ours, written there, are lost in it. */
  predicate Doomed(r: Reading) {
    r.Bad? || (r.frame.levels != [] && r.frame.levels[0] != 2)
  }

  lemma KeyStart(c: nat, t: string)
    requires KeyOf(c, t).KeyLine?
    ensures var k := KeyOf(c, t).key; k != "" && |k| < |t| && t[..|k| + 1] == k + ":" && k[0] == t[0] && KeyChar(k[0])
  {
    hide Value, TrimSpace;
    var n := KeyLength(t);
    assert t[..n + 1] == t[..n] + [t[n]];
  }

  lemma {:induction false} SpacesArePad(s: string)
    ensures var n := Spaces(s); forall k :: 0 <= k < n ==> s[k] == ' '
  {
    if s != "" && s[0] == ' ' { SpacesArePad(s[1..]); }
  }

  /** A line is its indentation, its text and the carriage return that may follow. */
  lemma Dissect(ln: string) returns (pad: string, t: string, tail: string)
    ensures ln == pad + t + tail && AllSpace(pad) && |pad| == Spaces(Chop(ln)) && t == Chop(ln)[|pad|..]
  {
    var s := Chop(ln);
    SpacesArePad(s);
    pad, t, tail := s[..Spaces(s)], s[Spaces(s)..], ln[|s|..];
    assert s == pad + t && ln == s + tail;
  }

  lemma StartsWith(pad: string, p: string, t: string, tail: string)
    requires AllSpace(pad) && p != "" && !IsSpace(p[0]) && !IsSpace(p[|p| - 1]) && |p| <= |t| && t[..|p|] == p
    ensures HasPrefix(TrimSpace(pad + t + tail), p)
  {
    hide TrimSpace;
    var rest := t[|p|..] + tail;
    assert t == p + t[|p|..];
    assert pad + t + tail == pad + p + rest;
    TrimsTo(pad, p, rest);
  }

  lemma ItemIsItem(ln: string)
    requires LineOf(ln).ItemLine?
    ensures HasPrefix(TrimSpace(ln), "-")
  {
    hide TrimSpace, Value, KeyOf, Printable, Chop, Spaces;
    var pad, t, tail := Dissect(ln);
    assert t[..1] == "-";
    StartsWith(pad, "-", t, tail);
  }

  lemma OwnKeyIsOwn(ln: string)
    requires LineOf(ln).KeyLine? && OwnName(LineOf(ln).key)
    ensures HasPrefix(TrimSpace(ln), LineOf(ln).key + ":")
  {
    hide TrimSpace, KeyOf, Printable, OwnName, Chop, Spaces;
    var pad, t, tail := Dissect(ln);
    var k := LineOf(ln).key;
    KeyStart(|pad|, t);
    KeyCharNoSpace(k[0]);
    StartsWith(pad, k + ":", t, tail);
  }

  lemma KeyCharNoSpace(c: char)
    requires KeyChar(c)
    ensures !IsSpace(c)
  {
  }

  /** A line the editor keeps is no list item and has none of our keys. */
  lemma KeptIsForeign(ln: string)
    requires KindOf(ln) == Other
    ensures !LineOf(ln).ItemLine? && (LineOf(ln).KeyLine? ==> !OwnName(LineOf(ln).key))
  {
    hide TrimSpace, LineOf, HasPrefix;
    if LineOf(ln).ItemLine? {
      ItemIsItem(ln);
    } else if LineOf(ln).KeyLine? {
      assert "enable" + ":" == "enable:" && "allowList" + ":" == "allowList:" && "denyList" + ":" == "denyList:";
      if OwnName(LineOf(ln).key) { OwnKeyIsOwn(ln); }
    }
  }

  /** Reading another key succeeds when it may stand where it does. */
  lemma KeptKeyReads(r: Reading, fr: Frame, f: IPFilterConfig, c: nat, k: string, v: string)
    requires Rel(r, fr, f) && !OwnName(k)
    ensures var r' := ReadKey(r, c, k, v); var ls := Enter(fr, c);
      if ls == [] || ls[0] != 2 || (|ls| == 1 && k in fr.names) then r'.Bad? || (Doomed(r') && r == START)
      else
        r'.Good? && r' == r.(frame := AfterKey(r.frame, ls, k, v)) && Like(r'.frame, AfterKey(fr, ls, k, v))
  {
    hide RightFrame, Enter;
    SameEnter(r.frame, fr, c);
    if fr.levels != [] && Enter(fr, c) != [] {
      EnterKeeps(fr, c);
      RightColumn(fr);
    }
  }

  lemma RightColumn(fr: Frame)
    requires RightFrame(fr) && fr.levels != []
    ensures fr.levels[0] == 2
  {
  }

  /** Reading a kept line succeeds when it may stand where it does. */
  lemma KeptReads(r: Reading, fr: Frame, f: IPFilterConfig, ln: string)
    requires Rel(r, fr, f) && KindOf(ln) == Other
    ensures var r' := ReadLine(r, ln);
      match KeptLine(fr, ln)
      case Some(fr') => Rel(r', fr', f) && forall j :: Has(r, j) ==> Has(r', j)
      case None => r'.Bad? || (Doomed(r') && r == START)
  {
    KeptIsForeign(ln);
    hide LineOf, KindOf, Value, Unquote, OwnName, Enter, RightFrame, AfterKey, ReadKey;
    if KeptLine(fr, ln).Some? { KeptRight(fr, ln); }
    var l := LineOf(ln);
    if l.KeyLine? {
      KeptKeyReads(r, fr, f, l.col, l.key, l.value);
      if Enter(fr, l.col) != [] { AfterLevels(fr, Enter(fr, l.col), l.key, l.value); }
    }
  }

  lemma AfterLevels(fr: Frame, ls: seq<nat>, k: string, v: string)
    ensures AfterKey(fr, ls, k, v).levels == ls
  {
  }

  // ---------------------------------------------------------------- readings that go wrong

  lemma DoomedLine(r: Reading, ln: string)
    requires Doomed(r)
    ensures Doomed(ReadLine(r, ln))
  {
    hide LineOf, Value, Unquote, ParseBool;
    if r.Good? {
      match LineOf(ln)
      case Refused =>
      case Blank =>
      case ItemLine(_, _) =>
      case KeyLine(c, k, v) => if Enter(r.frame, c) != [] { EnterKeeps(r.frame, c); }
    }
  }

  lemma {:induction false} DoomedLines(r: Reading, lines: seq<string>)
    requires Doomed(r)
    ensures Doomed(ReadAll(r, lines))
    decreases |lines|
  {
    hide ReadLine, Doomed;
    if lines != [] {
      DoomedLine(r, lines[0]);
      DoomedLines(ReadLine(r, lines[0]), lines[1..]);
    }
  }

  /** A doomed reading does not see which of two settings is written. */
  lemma DoomedEnable(r: Reading, f: IPFilterConfig, c: string)
    requires Doomed(r) && CommentShaped(c)
    ensures ReadAll(r, KeyLines(Enable, f, c)) == ReadAll(r, KeyLines(Enable, Flip(f), c))
  {
    hide LineOf, Printable;
    var v, w := FormatBool(f.enable), FormatBool(!f.enable);
    var a, b := "  enable: " + v + c, "  enable: " + w + c;
    assert a == "  " + "enable" + ":" + (" " + v) + c;
    assert b == "  " + "enable" + ":" + (" " + w) + c;
    KeyLineReads("enable", " " + v, v, c);
    KeyLineReads("enable", " " + w, w, c);
    ReadOne(r, a);
    ReadOne(r, b);
    if r.Good? && Enter(r.frame, 2) != [] {
      EnterKeeps(r.frame, 2);
      EnterLast(r.frame, 2);
    }
  }

  lemma EnterLast(fr: Frame, c: nat)
    requires Enter(fr, c) != []
    ensures Last(Enter(fr, c)) == c
  {
  }

  lemma DoomedKey(r: Reading, f: IPFilterConfig, k: Kind, c: string)
    requires Doomed(r) && CommentShaped(c)
    ensures ReadAll(r, KeyLines(k, f, c)) == ReadAll(r, KeyLines(k, Flip(f), c))
    ensures Doomed(ReadAll(r, KeyLines(k, f, c)))
  {
    hide Doomed, ReadAll, RenderList;
    DoomedLines(r, KeyLines(k, f, c));
    if k == Enable { DoomedEnable(r, f, c); }
  }

  lemma RewriteKey(ln: string, f: IPFilterConfig)
    ensures Key(KindOf(ln)) ==> RewriteLine(ln, f) == KeyLines(KindOf(ln), f, InlineComment(ln))
    ensures KindOf(ln) == Item ==> RewriteLine(ln, f) == []
    ensures KindOf(ln) == Other ==> RewriteLine(ln, f) == [ln]
  {
    hide KindOf, InlineComment, RenderList;
  }

  lemma {:induction false} DoomedTwins(r: Reading, lines: seq<string>, f: IPFilterConfig)
    requires Doomed(r)
    ensures ReadAll(r, RewriteLines(lines, f)) == ReadAll(r, RewriteLines(lines, Flip(f)))
    ensures Doomed(ReadAll(r, RewriteLines(lines, f)))
    decreases |lines|
  {
    hide Doomed, ReadAll, RewriteLine, KindOf, KeyLines, InlineComment, CommentShaped;
    DoomedLines(r, RewriteLines(lines, f));
    if lines != [] {
      var ln, rest := lines[0], lines[1..];
      RewriteKey(ln, f);
      RewriteKey(ln, Flip(f));
      CommentShape(ln);
      DoomedKey(r, f, KindOf(ln), InlineComment(ln));
      var r1 := ReadAll(r, RewriteLine(ln, f));
      DoomedLines(r, RewriteLine(ln, f));
      DoomedTwins(r1, rest, f);
      ReadAppend(r, RewriteLine(ln, f), RewriteLines(rest, f));
      ReadAppend(r, RewriteLine(ln, Flip(f)), RewriteLines(rest, Flip(f)));
    }
  }

  /** One line of the section, as written for f. */
  lemma LineReads(r: Reading, fr: Frame, f: IPFilterConfig, ln: string)
    requires Rel(r, fr, f)
    ensures var r' := ReadAll(r, RewriteLine(ln, f));
      match FrameLine(fr, ln)
      case Some(fr') =>
        Rel(r', fr', f) && (Key(KindOf(ln)) ==> Has(r', KindOf(ln))) && forall j :: Has(r, j) ==> Has(r', j)
      case None => r'.Bad? || (Doomed(r') && r == START && KindOf(ln) == Other)
  {
    hide Rel, ReadAll, KindOf, KeyLines, InlineComment, ReadLine, KeptLine, RewriteLine, Doomed, Printable, OwnKey,
      CommentShaped;
    RewriteKey(ln, f);
    CommentShape(ln);
    var k := KindOf(ln);
    if Key(k) {
      OwnReads(r, fr, f, k, InlineComment(ln));
    } else if k == Item {
      ReadNothing(r);
    } else {
      ReadOne(r, ln);
      KeptReads(r, fr, f, ln);
    }
  }

  lemma {:induction false} FramesRead(r: Reading, fr: Frame, f: IPFilterConfig, lines: seq<string>)
    requires Rel(r, fr, f) && Frames(fr, lines).Some?
    ensures var r' := ReadAll(r, RewriteLines(lines, f));
      && Rel(r', Frames(fr, lines).value, f)
      && (forall j :: Has(r, j) ==> Has(r', j)) && (forall j :: Key(j) && Seen(lines, j) ==> Has(r', j))
    decreases |lines|
  {
    hide Rel, Has, Key, KindOf, FrameLine, RewriteLine, ReadLine;
    if lines != [] {
      var ln, rest := lines[0], lines[1..];
      var r1 := ReadAll(r, RewriteLine(ln, f));
      LineReads(r, fr, f, ln);
      FramesRead(r1, FrameLine(fr, ln).value, f, rest);
      ReadAppend(r, RewriteLine(ln, f), RewriteLines(rest, f));
      assert forall x :: x in lines <==> x == ln || x in rest;
    }
  }

  /** Where the frames break, the readings for f and for f with the filter switched go wrong together. */
  lemma {:induction false} TwinsRead(r: Reading, q: Reading, fr: Frame, f: IPFilterConfig, lines: seq<string>)
    requires Rel(r, fr, f) && Rel(q, fr, Flip(f)) && Frames(fr, lines).None?
    ensures var r' := ReadAll(r, RewriteLines(lines, f));
      r' == ReadAll(q, RewriteLines(lines, Flip(f))) && Doomed(r')
    decreases |lines|
  {
    hide Rel, Has, KindOf, FrameLine, RewriteLine, ReadLine;
    var ln, rest := lines[0], lines[1..];
    var g := Flip(f);
    var r1, q1 := ReadAll(r, RewriteLine(ln, f)), ReadAll(q, RewriteLine(ln, g));
    ReadAppend(r, RewriteLine(ln, f), RewriteLines(rest, f));
    ReadAppend(q, RewriteLine(ln, g), RewriteLines(rest, g));
    if FrameLine(fr, ln).Some? {
      LineReads(r, fr, f, ln);
      LineReads(q, fr, g, ln);
      TwinsRead(r1, q1, FrameLine(fr, ln).value, f, rest);
    } else {
      BothWrong(r, q, fr, f, ln);
      DoomedTwins(r1, rest, f);
    }
  }

  lemma BothWrong(r: Reading, q: Reading, fr: Frame, f: IPFilterConfig, ln: string)
    requires Rel(r, fr, f) && Rel(q, fr, Flip(f)) && FrameLine(fr, ln).None?
    ensures var r' := ReadAll(r, RewriteLine(ln, f)); r' == ReadAll(q, RewriteLine(ln, Flip(f))) && Doomed(r')
  {
    hide FrameLine, RewriteLine, KindOf, KeyLines, ReadLine, Rel;
    LineReads(r, fr, f, ln);
    LineReads(q, fr, Flip(f), ln);
    StartTogether(r, q, fr, f);
    RewriteKey(ln, f);
    RewriteKey(ln, Flip(f));
  }

  lemma StartTogether(r: Reading, q: Reading, fr: Frame, f: IPFilterConfig)
    requires Rel(r, fr, f) && Rel(q, fr, Flip(f))
    ensures r == START <==> q == START
  {
  }

  // ---------------------------------------------------------------- a whole section

  function Added(r: Reading, seen: bool, k: Kind, f: IPFilterConfig): Reading {
    if seen then r else ReadAll(r, KeyLines(k, f, ""))
  }

  lemma NoCommentShape()
    ensures CommentShaped("")
  {
  }

  lemma MissingReads(r: Reading, lines: seq<string>, f: IPFilterConfig)
    ensures ReadAll(r, Missing(lines, f)) ==
      Added(Added(Added(r, Seen(lines, Enable), Enable, f), Seen(lines, Allow), Allow, f), Seen(lines, Deny), Deny, f)
  {
    hide ReadLine, FormatBool, Seen, RenderList;
    ConfigSection.Bare(FormatBool(f.enable));
    var e := if Seen(lines, Enable) then [] else KeyLines(Enable, f, "");
    var a := if Seen(lines, Allow) then [] else KeyLines(Allow, f, "");
    var d := if Seen(lines, Deny) then [] else KeyLines(Deny, f, "");
    assert Missing(lines, f) == e + a + d;
    hide KeyLines, ReadAll;
    ReadEmpty(r);
    ReadEmpty(ReadAll(r, e));
    ReadEmpty(ReadAll(ReadAll(r, e), a));
    ReadAppend(r, e, a);
    ReadAppend(r, e + a, d);
  }

  lemma ReadEmpty(r: Reading)
    ensures ReadAll(r, []) == r
  {
  }

  /** A key the section does not have, appended without a comment. */
  lemma AddedReads(r: Reading, fr: Frame, seen: bool, k: Kind, f: IPFilterConfig)
    requires Rel(r, fr, f) && Key(k)
    ensures var r' := Added(r, seen, k, f);
      match Unseen(Some(fr), seen, k)
      case Some(fr') => Rel(r', fr', f) && (!seen ==> Has(r', k)) && forall j :: Has(r, j) ==> Has(r', j)
      case None => r' == Bad
  {
    hide Rel, ReadAll, KeyLines;
    NoCommentShape();
    OwnReads(r, fr, f, k, "");
  }

  /** Everything is there, is what was written, and cannot be met again. */
  ghost predicate Complete(r: Reading, f: IPFilterConfig) {
    r.Good? && r.enable == Some(f.enable) && r.allowList == Some(f.allowList) && r.denyList == Some(f.denyList)
  }

  lemma AllThere(r: Reading, fr: Frame, f: IPFilterConfig)
    requires Rel(r, fr, f) && Has(r, Enable) && Has(r, Allow) && Has(r, Deny)
    ensures Complete(r, f)
  {
  }

  /** What an edit writes to a section that has a frame reads as exactly the settings. */
  lemma BodyReads(section: seq<string>, f: IPFilterConfig)
    requires SectionFrame(section).Some?
    ensures var r := ReadAll(START, Body(section, f));
      Rel(r, SectionFrame(section).value, f) && Complete(r, f)
  {
    hide Rel, Complete, Has, Frames, Unseen, Added, RewriteLines, Missing, ReadAll, Seen;
    var fr := Frames(FIRST, section);
    assert forall b, k :: Unseen(None, b, k) == None by { NoFrame(); }
    StartRel(f);
    FramesRead(START, FIRST, f, section);
    ReadAppend(START, RewriteLines(section, f), Missing(section, f));
    var r := ReadAll(START, RewriteLines(section, f));
    MissingReads(r, section, f);
    var e, fe := Added(r, Seen(section, Enable), Enable, f), Unseen(fr, Seen(section, Enable), Enable);
    AddedReads(r, fr.value, Seen(section, Enable), Enable, f);
    var a, fa := Added(e, Seen(section, Allow), Allow, f), Unseen(fe, Seen(section, Allow), Allow);
    AddedReads(e, fe.value, Seen(section, Allow), Allow, f);
    AddedReads(a, fa.value, Seen(section, Deny), Deny, f);
    AllThere(Added(a, Seen(section, Deny), Deny, f), SectionFrame(section).value, f);
  }

  lemma NoFrame()
    ensures forall b, k :: Unseen(None, b, k) == None
  {
  }

  lemma StartRel(f: IPFilterConfig)
    ensures Rel(START, FIRST, f)
  {
  }

  lemma DoomedAdded(r: Reading, seen: bool, k: Kind, f: IPFilterConfig)
    requires Doomed(r)
    ensures Added(r, seen, k, f) == Added(r, seen, k, Flip(f)) && Doomed(Added(r, seen, k, f))
  {
    hide Doomed, ReadAll, KeyLines;
    NoCommentShape();
    DoomedKey(r, f, k, "");
  }

  /** The readings of two settings at one point: both fit a frame, or they are the same and doomed. */
  ghost predicate Twins(r: Reading, q: Reading, fr: Option<Frame>, f: IPFilterConfig) {
    match fr
    case Some(fr) => Rel(r, fr, f) && Rel(q, fr, Flip(f))
    case None => r == q && Doomed(r)
  }

  lemma AddedTwins(r: Reading, q: Reading, fr: Option<Frame>, seen: bool, k: Kind, f: IPFilterConfig)
    requires Twins(r, q, fr, f) && Key(k)
    ensures Twins(Added(r, seen, k, f), Added(q, seen, k, Flip(f)), Unseen(fr, seen, k), f)
  {
    hide Rel, Added;
    if fr.Some? {
      AddedReads(r, fr.value, seen, k, f);
      AddedReads(q, fr.value, seen, k, Flip(f));
    } else {
      DoomedAdded(r, seen, k, f);
    }
  }

  /** Without a frame, what is read does not tell the two settings apart. */
  lemma BodyTwins(section: seq<string>, f: IPFilterConfig)
    requires SectionFrame(section).None?
    ensures ReadAll(START, Body(section, f)) == ReadAll(START, Body(section, Flip(f)))
  {
    hide Rel, Frames, Unseen, Added, RewriteLines, Missing, ReadAll, Seen, Twins;
    var g := Flip(f);
    var fr := Frames(FIRST, section);
    var r, q := ReadAll(START, RewriteLines(section, f)), ReadAll(START, RewriteLines(section, g));
    assert Twins(r, q, fr, f) by { SectionTwins(section, f); }
    ReadAppend(START, RewriteLines(section, f), Missing(section, f));
    ReadAppend(START, RewriteLines(section, g), Missing(section, g));
    MissingReads(r, section, f);
    MissingReads(q, section, g);
    var s1, s2, s3 := Seen(section, Enable), Seen(section, Allow), Seen(section, Deny);
    AddedTwins(r, q, fr, s1, Enable, f);
    AddedTwins(Added(r, s1, Enable, f), Added(q, s1, Enable, g), Unseen(fr, s1, Enable), s2, Allow, f);
    var r2, q2 := Added(Added(r, s1, Enable, f), s2, Allow, f), Added(Added(q, s1, Enable, g), s2, Allow, g);
    AddedTwins(r2, q2, Unseen(Unseen(fr, s1, Enable), s2, Allow), s3, Deny, f);
    assert Added(r2, s3, Deny, f) == Added(q2, s3, Deny, g) by {
      SameTwins(Added(r2, s3, Deny, f), Added(q2, s3, Deny, g), f);
    }
  }

  lemma SameTwins(r: Reading, q: Reading, f: IPFilterConfig)
    requires Twins(r, q, None, f)
    ensures r == q
  {
  }

  lemma SectionTwins(section: seq<string>, f: IPFilterConfig)
    ensures Twins(ReadAll(START, RewriteLines(section, f)), ReadAll(START, RewriteLines(section, Flip(f))),
                  Frames(FIRST, section), f)
  {
    hide Rel, Frames, RewriteLines, ReadAll, Doomed;
    StartRel(f);
    StartRel(Flip(f));
    if Frames(FIRST, section).Some? {
      FramesRead(START, FIRST, f, section);
      FramesRead(START, FIRST, Flip(f), section);
    } else {
      TwinsRead(START, START, FIRST, f, section);
    }
  }

  // ---------------------------------------------------------------- what follows the section

  /** A reading that can no longer give f. */
  predicate Spoiled(r: Reading, f: IPFilterConfig) {
    r.Bad? || (OwnMet(r.frame) && r.enable.Some? && r.allowList.Some? && r.denyList.Some?
      && (|r.allowList.value| > |f.allowList| || |r.denyList.value| > |f.denyList|))
  }

  /** Our keys have been met. */
  predicate OwnMet(fr: Frame) { "enable" in fr.names && "allowList" in fr.names && "denyList" in fr.names }

  lemma SpoiledLine(r: Reading, ln: string, f: IPFilterConfig)
    requires Spoiled(r, f)
    ensures Spoiled(ReadLine(r, ln), f)
  {
    hide LineOf, Value, Unquote, Enter, ParseBool;
  }

  lemma {:induction false} StaysSpoiled(r: Reading, lines: seq<string>, f: IPFilterConfig)
    requires Spoiled(r, f)
    ensures Settings(ReadRest(r, lines)) != Some(f)
    decreases |lines|
  {
    hide ReadLine, AtMargin, Ends;
    if lines != [] && !AtMargin(lines[0]) {
      SpoiledLine(r, lines[0], f);
      StaysSpoiled(ReadLine(r, lines[0]), lines[1..], f);
    }
  }

  /** One line below the section either may stand there and changes nothing of ours, or spoils it. */
  lemma RestLine(r: Reading, fr: Frame, f: IPFilterConfig, ln: string)
    requires Rel(r, fr, f) && Complete(r, f) && OwnMet(fr)
    ensures var r' := ReadLine(r, ln);
      match KeptLine(fr, ln)
      case Some(fr') => Rel(r', fr', f) && Complete(r', f) && OwnMet(fr')
      case None => Spoiled(r', f)
  {
    hide LineOf, Value, Unquote, ParseBool;
    if KeptLine(fr, ln).Some? { KeptRight(fr, ln); }
    match LineOf(ln)
    case Refused =>
    case Blank =>
    case ItemLine(_, _) =>
    case KeyLine(c, k, v) =>
      SameEnter(r.frame, fr, c);
      if fr.levels != [] && Enter(fr, c) != [] { EnterKeeps(fr, c); }
  }

  lemma {:induction false} RestReadsOn(r: Reading, fr: Frame, f: IPFilterConfig, lines: seq<string>)
    requires Rel(r, fr, f) && Complete(r, f) && OwnMet(fr)
    ensures Settings(ReadRest(r, lines)) == Some(f) <==> Harmless(fr, lines)
    decreases |lines|
  {
    hide ReadLine, AtMargin, Ends, Rel, KeptLine, OwnMet, Spoiled;
    if lines != [] && !AtMargin(lines[0]) {
      var r1 := ReadLine(r, lines[0]);
      RestLine(r, fr, f, lines[0]);
      if KeptLine(fr, lines[0]).Some? {
        RestReadsOn(r1, KeptLine(fr, lines[0]).value, f, lines[1..]);
      } else {
        StaysSpoiled(r1, lines[1..], f);
      }
    }
  }

  /** Our keys are in the frame of an edited section. */
  lemma {:induction false} FramesMet(fr: Frame, lines: seq<string>)
    requires RightFrame(fr) && Frames(fr, lines).Some?
    ensures var fr' := Frames(fr, lines).value;
      RightFrame(fr') && fr.names <= fr'.names && forall k :: Key(k) && Seen(lines, k) ==> NameOf(k) in fr'.names
    decreases |lines|
  {
    hide KindOf, KeptLine, RightFrame, InlineComment, Printable;
    if lines != [] {
      var ln, rest := lines[0], lines[1..];
      var fr1 := FrameLine(fr, ln).value;
      FrameMet(fr, ln);
      FramesMet(fr1, rest);
      assert forall x :: x in lines <==> x == ln || x in rest;
    }
  }

  lemma FrameMet(fr: Frame, ln: string)
    requires RightFrame(fr) && FrameLine(fr, ln).Some?
    ensures var fr' := FrameLine(fr, ln).value;
      RightFrame(fr') && fr.names <= fr'.names && (Key(KindOf(ln)) ==> NameOf(KindOf(ln)) in fr'.names)
  {
    hide KindOf, KeptLine, InlineComment, Printable;
    if !Key(KindOf(ln)) && KindOf(ln) != Item { KeptRight(fr, ln); }
  }

  lemma SectionMet(section: seq<string>)
    requires SectionFrame(section).Some?
    ensures OwnMet(SectionFrame(section).value)
  {
    hide Frames, Seen;
    NoFrame();
    FramesMet(FIRST, section);
  }

  // ---------------------------------------------------------------- the edited file

  lemma {:induction false} RestAppend(r: Reading, a: seq<string>, b: seq<string>)
    requires forall x :: x in a ==> !TopLevel(x)
    ensures ReadRest(r, a + b) == ReadRest(ReadAll(r, a), b)
    decreases |a|
  {
    hide TopLevel, ReadLine, Ends;
    if a == [] {
      assert a + b == b;
    } else {
      assert (a + b)[1..] == a[1..] + b && a[0] in a;
      RestAppend(ReadLine(r, a[0]), a[1..], b);
    }
  }

  lemma LoadParts(before: seq<string>, header: string, inner: seq<string>, rest: seq<string>)
    requires HasPrefix(header, HEADER) && forall x :: x in before ==> !HasPrefix(x, HEADER)
    requires (forall x :: x in inner ==> !TopLevel(x)) && AfterSection(rest)
    ensures Load(before + [header] + inner + rest) ==
      if PlainHeader(header) then Settings(ReadRest(ReadAll(START, inner), rest)) else None
  {
    hide HeaderAt, PartsOf, TopLevel, Shorten, AfterSection, PlainHeader, ReadRest, ReadAll, Settings, HasPrefix;
    PartsAgain(before, header, inner, rest);
    var lines := before + [header] + inner + rest;
    assert lines[|before| + 1..] == inner + rest && lines[|before|] == header;
    RestAppend(START, inner, rest);
  }

  lemma BodyInner(section: seq<string>, f: IPFilterConfig)
    requires forall x :: x in section ==> !TopLevel(x)
    ensures forall x :: x in Body(section, f) ==> !TopLevel(x)
  {
    hide TopLevel, Shorten;
    BodyTwice(section, f, f);
  }

  lemma EditedLoad(lines: seq<string>, f: IPFilterConfig)
    requires HeaderAt(lines) < |lines|
    ensures var p := PartsOf(lines);
      Replace(lines, f).Some? && Load(Replace(lines, f).value) ==
        if PlainHeader(p.header) then Settings(ReadRest(ReadAll(START, Body(p.section, f)), p.rest)) else None
  {
    hide HeaderAt, PartsOf, Body, TopLevel, Load, HasPrefix, AfterSection, PlainHeader, ReadRest, ReadAll, Settings;
    PartsFit(lines);
    var p := PartsOf(lines);
    BodyInner(p.section, f);
    LoadParts(p.before, p.header, Body(p.section, f), p.rest);
  }

  /** An edited file reads back as exactly what was written, whether that is f or f with the filter
      switched, if and only if the header stands alone, the section's keys stand at column 2 with
      others below the ones that have no value, each of them once, and what a reader still takes for
      the section is harmless. */
  lemma ReadBack(lines: seq<string>, f: IPFilterConfig)
    requires HeaderAt(lines) < |lines|
    ensures Replace(lines, f).Some? && Replace(lines, Flip(f)).Some?
    ensures Editable(PartsOf(lines)) <==>
      Load(Replace(lines, f).value) == Some(f) && Load(Replace(lines, Flip(f)).value) == Some(Flip(f))
  {
    hide HeaderAt, PartsOf, Body, Replace, Load, PlainHeader, ReadRest, ReadAll, SectionFrame, Harmless, Rel, OwnMet;
    var p := PartsOf(lines);
    EditedLoad(lines, f);
    EditedLoad(lines, Flip(f));
    if SectionFrame(p.section).Some? {
      SectionMet(p.section);
      BodyReads(p.section, f);
      BodyReads(p.section, Flip(f));
      RestReadsOn(ReadAll(START, Body(p.section, f)), SectionFrame(p.section).value, f, p.rest);
      RestReadsOn(ReadAll(START, Body(p.section, Flip(f))), SectionFrame(p.section).value, Flip(f), p.rest);
    } else {
      BodyTwins(p.section, f);
    }
  }

  // ---------------------------------------------------------------- a file that cannot be edited

  /** A section that stumbles after one of its keys is not read back, whatever is written. */
  lemma StumbleIsBad(section: seq<string>, i: nat, f: IPFilterConfig)
    requires i < |section| && Frames(FIRST, section[..i]).Some?
    requires var fr := Frames(FIRST, section[..i]).value; fr.levels != [] && FrameLine(fr, section[i]).None?
    ensures ReadAll(START, Body(section, f)) == Bad
  {
    hide Frames, FrameLine, RewriteLine, RewriteLines, Missing, ReadLine, Doomed;
    var a, ln, b := section[..i], section[i], section[i + 1..];
    var fr := Frames(FIRST, a).value;
    assert section == a + ([ln] + b);
    RewriteAppend(a, [ln] + b, f);
    RewriteAppend([ln], b, f);
    RewriteOne(ln, f);
    StartRel(f);
    FramesRead(START, FIRST, f, a);
    var r := ReadAll(START, RewriteLines(a, f));
    LineReads(r, fr, f, ln);
    var rest := RewriteLines(b, f);
    ReadAppend(START, RewriteLines(a, f), RewriteLine(ln, f) + rest);
    ReadAppend(r, RewriteLine(ln, f), rest);
    ReadBad(rest);
    ReadAppend(START, RewriteLines(section, f), Missing(section, f));
    ReadBad(Missing(section, f));
  }

  lemma BadSettings()
    ensures Settings(Bad) == None
  {
  }

  lemma {:induction false} BadStays(lines: seq<string>)
    ensures ReadRest(Bad, lines) == Bad
  {
    hide AtMargin, Ends;
    if lines != [] && !AtMargin(lines[0]) { BadStays(lines[1..]); }
  }

  /** A file whose section stumbles after one of its keys never loads after an edit. */
  lemma StumbleFails(lines: seq<string>, i: nat, f: IPFilterConfig)
    requires HeaderAt(lines) < |lines| && i < |PartsOf(lines).section|
    requires Frames(FIRST, PartsOf(lines).section[..i]).Some?
    requires var section := PartsOf(lines).section; var fr := Frames(FIRST, section[..i]).value;
      fr.levels != [] && FrameLine(fr, section[i]).None?
    ensures Replace(lines, f).Some? && Load(Replace(lines, f).value) == None
  {
    hide Frames, FrameLine, HeaderAt, PartsOf, Load, Replace, Body, Settings, PlainHeader, ReadRest, ReadAll;
    StumbleIsBad(PartsOf(lines).section, i, f);
    EditedLoad(lines, f);
    BadStays(PartsOf(lines).rest);
    BadSettings();
  }

  /** One of our keys, an item, a blank line or a comment. */
  predicate OwnOrBlank(ln: string) {
    KindOf(ln) != Other || LineOf(ln) == Blank
  }

  /** Lines of ours leave the section's column at 2 and nothing open below. */
  lemma {:induction false} OwnFrames(fr: Frame, lines: seq<string>)
    requires fr.below == Shut && (fr.levels == [] || fr.levels == [2])
    requires forall ln :: ln in lines ==> OwnOrBlank(ln)
    requires Frames(fr, lines).Some?
    ensures var fr' := Frames(fr, lines).value;
      && fr'.below == Shut && (fr'.levels == [] || fr'.levels == [2])
      && ((exists ln :: ln in lines && Key(KindOf(ln))) || fr.levels == [2] ==> fr'.levels == [2])
    decreases |lines|
  {
    hide KindOf, LineOf;
    if lines != [] {
      assert lines[0] in lines && forall ln :: ln in lines[1..] ==> ln in lines;
      OwnLine(fr, lines[0]);
      OwnFrames(FrameLine(fr, lines[0]).value, lines[1..]);
    }
  }

  lemma OwnLine(fr: Frame, ln: string)
    requires fr.below == Shut && (fr.levels == [] || fr.levels == [2])
    requires OwnOrBlank(ln) && FrameLine(fr, ln).Some?
    ensures var fr' := FrameLine(fr, ln).value;
      && fr'.below == Shut && (fr'.levels == [] || fr'.levels == [2])
      && (Key(KindOf(ln)) || fr.levels == [2] ==> fr'.levels == [2])
  {
    hide KindOf, LineOf, InlineComment;
  }

  /** A key that is not ours behind a value, at a column other than the editor's, has no place. */
  lemma MisplacedKey(fr: Frame, ln: string)
    requires fr.below == Shut && fr.levels == [2] && KindOf(ln) == Other && LineOf(ln).KeyLine? && LineOf(ln).col != 2
    ensures FrameLine(fr, ln).None?
  {
    hide KindOf, LineOf;
  }

  /** The first key of another name that a section indented otherwise than by two spaces holds behind
      one of ours. */
  ghost predicate IndentedAt(section: seq<string>, i: nat) {
    && i < |section| && (forall ln :: ln in section[..i] ==> OwnOrBlank(ln))
    && (exists ln :: ln in section[..i] && Key(KindOf(ln)))
    && KindOf(section[i]) == Other && LineOf(section[i]).KeyLine? && LineOf(section[i]).col != 2
  }

  /** The editor writes its keys at column 2 and the other key stays at its own column below a value: no
      setting reads back from such a file. */
  lemma IndentedFileFails(lines: seq<string>, i: nat, f: IPFilterConfig)
    requires HeaderAt(lines) < |lines| && IndentedAt(PartsOf(lines).section, i)
    requires Frames(FIRST, PartsOf(lines).section[..i]).Some?
    ensures !Editable(PartsOf(lines))
    ensures Replace(lines, f).Some? && Load(Replace(lines, f).value) == None
  {
    var section := PartsOf(lines).section;
    hide HeaderAt, PartsOf, KindOf, LineOf, Load, Replace, Editable, Frames, FrameLine;
    OwnFrames(FIRST, section[..i]);
    MisplacedKey(Frames(FIRST, section[..i]).value, section[i]);
    StumbleFails(lines, i, f);
    StumbleFails(lines, i, Flip(f));
    ReadBack(lines, f);
  }

  const OWN: string := "    enable: true"
  const NOTE: string := "    note: true"
  const INDENTED: seq<string> := [HEADER, OWN, NOTE]

  lemma NoteParts()
    ensures NOTE == "    " + ("note" + ":" + (" true" + "")) && PlainKey("note") && Printable(NOTE)
  {
  }

  lemma NoteReads()
    ensures LineOf(NOTE) == KeyLine(4, "note", "true")
  {
    NoteParts();
    hide Value, KeyOf, Printable, PlainKey, Spaces;
    RestReads(" true", "true", "");
    KeyOfKey(4, "note", " true" + "", "true");
    var t := "note" + ":" + (" true" + "");
    assert t[0] == 'n' && t[|t| - 1] == 'e';
    LineOfKey("    ", t);
  }

  lemma NoteKept()
    ensures KindOf(NOTE) == Other && !TopLevel(NOTE) && !Trailing(NOTE)
  {
    var t := "note: true";
    assert NOTE == "    " + t;
    TrimInner("    ", t);
    hide TrimSpace;
    PrefixFirst(t, "enable:");
    PrefixFirst(t, "allowList:");
    PrefixFirst(t, "denyList:");
    PrefixFirst(t, "-");
    PrefixFirst(NOTE, "#");
  }

  lemma PrefixFirst(t: string, p: string)
    requires p != ""
    ensures HasPrefix(t, p) ==> t != "" && t[0] == p[0]
  {
    if HasPrefix(t, p) { assert t[..|p|][0] == t[0]; }
  }

  lemma OwnWritten()
    ensures KindOf(OWN) == Enable && InlineComment(OWN) == "" && !TopLevel(OWN)
  {
    hide KindOf, TopLevel, Trailing, Index, TrimSpace;
    assert OWN == "    " + "enable:" + " true";
    GeneratedLine("    ", "enable:", " true", Enable);
    NoMark(OWN, "#");
  }

  lemma IndentedParts()
    ensures HeaderAt(INDENTED) == 0 && PartsOf(INDENTED) == Parts([], HEADER, [OWN, NOTE], [])
  {
    OwnWritten();
    NoteKept();
    hide KindOf, InlineComment, TopLevel, Trailing, PartsOf, HeaderAt;
    var section := [OWN, NOTE];
    assert Shorten(section) == section;
    assert HasPrefix(HEADER, HEADER);
    PartsAgain([], HEADER, section, []);
    assert [] + [HEADER] + section + [] == INDENTED;
    assert section[..2] == section && section[2..] + [] == [];
  }

  lemma OwnOnly()
    ensures Frames(FIRST, [OWN]).Some?
  {
    OwnWritten();
    hide KindOf, InlineComment;
    assert [OWN][1..] == [];
    assert FrameLine(FIRST, OWN).Some?;
  }

  lemma OwnParts()
    ensures OWN == "    " + ("enable" + ":" + (" true" + "")) && PlainKey("enable") && Printable(OWN)
  {
  }

  lemma OwnLineReads()
    ensures LineOf(OWN) == KeyLine(4, "enable", "true")
  {
    OwnParts();
    hide Value, KeyOf, Printable, PlainKey, Spaces;
    RestReads(" true", "true", "");
    KeyOfKey(4, "enable", " true" + "", "true");
    var t := "enable" + ":" + (" true" + "");
    assert t[0] == 'e' && t[|t| - 1] == 'e';
    LineOfKey("    ", t);
  }

  /** Loading a file of a header and two keys. */
  lemma LoadTwo(h: string, a: string, b: string, c: nat, k: string, v: string, k': string, v': string)
    requires HeaderAt([h, a, b]) == 0 && PlainHeader(h) && !AtMargin(a) && !AtMargin(b)
    requires LineOf(a) == KeyLine(c, k, v) && LineOf(b) == KeyLine(c, k', v')
    requires ReadKey(START, c, k, v).Good?
    ensures Load([h, a, b]) == Settings(ReadKey(ReadKey(START, c, k, v), c, k', v'))
  {
    hide LineOf, AtMargin, HeaderAt, PlainHeader, ReadKey, Ends, Settings;
    var r1 := ReadKey(START, c, k, v);
    assert ReadLine(START, a) == r1;
    RestOfTwo(START, r1, ReadKey(r1, c, k', v'), a, b);
    assert [h, a, b][1..] == [a, b];
  }

  lemma PlainAlone()
    ensures PlainHeader(HEADER)
  {
    assert HEADER[|HEADER|..] == "";
  }

  /** Before the edit the file loads. */
  lemma IndentedLoads()
    ensures Load(INDENTED) == Some(IPFilterConfig(true, [], []))
  {
    assert INDENTED == [HEADER, OWN, NOTE];
    hide *;
    IndentedParts();
    OwnWritten();
    NoteKept();
    NoteReads();
    OwnLineReads();
    PlainAlone();
    TwoKeys();
    NotAtMargin(OWN);
    NotAtMargin(NOTE);
    LoadTwo(HEADER, OWN, NOTE, 4, "enable", "true", "note", "true");
  }

  lemma NotAtMargin(ln: string)
    ensures !TopLevel(ln) ==> !AtMargin(ln)
  {
    hide TopLevel;
  }

  lemma RestOfTwo(r: Reading, r1: Reading, r2: Reading, a: string, b: string)
    requires ReadLine(r, a) == r1 && ReadLine(r1, b) == r2 && !AtMargin(a) && !AtMargin(b)
    ensures ReadRest(r, [a, b]) == r2
  {
    hide ReadLine, AtMargin;
    assert [a, b][1..] == [b] && [b][1..] == [];
    assert ReadRest(r1, [b]) == ReadRest(r2, []) == r2;
  }

  lemma TwoKeys()
    ensures var r1 := ReadKey(START, 4, "enable", "true");
      && r1 == Good(Some(true), None, None, Frame([4], {"enable"}, Shut))
      && Settings(ReadKey(r1, 4, "note", "true")) == Some(IPFilterConfig(true, [], []))
  {
    assert {} + {"enable"} == {"enable"};
    assert {"enable"} + {"note"} == {"enable", "note"};
  }

  /** Such a file: a section indented by four spaces, with a key of its own. */
  lemma IndentedExample(f: IPFilterConfig)
    ensures Load(INDENTED) == Some(IPFilterConfig(true, [], []))
    ensures HeaderAt(INDENTED) < |INDENTED| && !Editable(PartsOf(INDENTED))
    ensures Replace(INDENTED, f).Some? && Load(Replace(INDENTED, f).value) == None
  {
    IndentedParts();
    OwnWritten();
    NoteKept();
    NoteReads();
    OwnOnly();
    hide HeaderAt, PartsOf, KindOf, LineOf, Load, Replace, Editable, Frames, InlineComment, TopLevel, Trailing;
    var section := [OWN, NOTE];
    assert section[..1] == [OWN];
    assert OWN in section[..1];
    assert IndentedAt(section, 1);
    IndentedFileFails(INDENTED, 1, f);
    IndentedLoads();
  }
}
