/** Reading the settings back from an edited file. The reader is the specification: a line-level
    account of what a YAML loader sees in the section, columns included. It accepts a part of YAML and
    refuses the rest (internal/app/common/config/config.go:50-54, 102-113, 156-241). */
module ConfigReader {
  import opened Text
  import opened ConfigSection

  // ---------------------------------------------------------------- one line

  /** What a line says: nothing (blank or comment), a key with a value on the same line (empty for
      none), a list item, or something this reader refuses. */
  datatype Line =
    | Refused
    | Blank
    | KeyLine(col: nat, key: string, value: string)
    | ItemLine(col: nat, text: string)

  /** Without the carriage return of a CRLF line end. */
  function Chop(ln: string): string {
    if ln != "" && ln[|ln| - 1] == '\r' then ln[..|ln| - 1] else ln
  }

  /** No control characters but tabs. */
  predicate Printable(s: string) {
    forall k :: 0 <= k < |s| ==> s[k] == '\t' || (s[k] >= ' ' && s[k] != '\U{7F}')
  }

  function Spaces(s: string): (n: nat)
    ensures n <= |s|
  {
    if s != "" && s[0] == ' ' then 1 + Spaces(s[1..]) else 0
  }

  predicate KeyChar(c: char) {
    '0' <= c <= '9' || 'a' <= c <= 'z' || 'A' <= c <= 'Z' || c == '_' || c == '-' || c == '.' || c >= '\U{80}'
  }

  function KeyLength(t: string): (n: nat)
    ensures n <= |t|
  {
    if t != "" && KeyChar(t[0]) then 1 + KeyLength(t[1..]) else 0
  }

  /** A character no plain scalar starts with, '-' before a digit excepted. */
  predicate Indicator(c: char) {
    c == '-' || c == '?' || c == ':' || c == ',' || c == '[' || c == ']' || c == '{' || c == '}' || c == '#' || c == '&'
    || c == '*' || c == '!' || c == '|' || c == '>' || c == '\'' || c == '"' || c == '%' || c == '@' || c == '`'
  }

  /** A plain scalar that ends on its line, with no mapping and no tab inside. */
  predicate PlainScalar(p: string) {
    p == "[]" || p == "{}"
    || (p != "" && (!Indicator(p[0]) || (p[0] == '-' && |p| > 1 && '0' <= p[1] <= '9'))
        && '\t' !in p && Index(p, ": ") < 0 && p[|p| - 1] != ':')
  }

  /** A scalar on the rest of its line, without the comment behind it; empty for none. */
  function Value(v: string): Option<string> {
    if v == "" || v[0] == '#' then Some("")
    else if v[0] == '"' || v[0] == '\'' then
      var i := Index(v[1..], [v[0]]);
      if i < 0 || '\\' in v[..i + 1] then None
      else
        var rest := v[i + 2..];
        if rest == "" || (rest[0] == ' ' && HasPrefix(TrimSpace(rest), "#")) then Some(v[..i + 2]) else None
    else
      var j := Index(v, " #");
      var p := TrimSpace(if j < 0 then v else v[..j]);
      if PlainScalar(p) then Some(p) else None
  }

  /** The longest key YAML allows without an explicit marker is 1024 bytes. */
  const MAX_KEY: int := 1000

  /** A plain key, its colon, and a space or nothing behind it. */
  predicate StartsKey(t: string) {
    var n := KeyLength(t);
    0 < n <= MAX_KEY && n < |t| && t[0] != '-' && t[n] == ':' && (n + 1 == |t| || t[n + 1] == ' ')
  }

  function KeyOf(c: nat, t: string): (l: Line)
    ensures !l.ItemLine?
  {
    if !StartsKey(t) then Refused
    else
      var n := KeyLength(t);
      match Value(TrimSpace(t[n + 1..]))
      case None => Refused
      case Some(v) => KeyLine(c, t[..n], v)
  }

  function LineOf(ln: string): Line {
    var s := Chop(ln);
    var c := Spaces(s);
    var t := s[c..];
    if !Printable(s) then Refused
    else if t == "" || t[0] == '#' then Blank
    else if t[0] == '-' && (|t| == 1 || t[1] == ' ') then ItemLine(c, TrimSpace(t[1..]))
    else KeyOf(c, t)
  }

  // ---------------------------------------------------------------- values

  function ParseBool(v: string): Option<bool> {
    if v == "true" then Some(true) else if v == "false" then Some(false) else None
  }

  function HexValue(c: char): Option<int> {
    if '0' <= c <= '9' then Some(c as int - '0' as int)
    else if 'a' <= c <= 'f' then Some(c as int - 'a' as int + 10)
    else None
  }

  /** The character an escape letter stands for. */
  function Unescape(c: char): Option<char> {
    if c == '"' || c == '\\' then Some(c)
    else if c == 'a' then Some('\U{07}') else if c == 'b' then Some('\U{08}') else if c == 'f' then Some('\U{0C}')
    else if c == 'n' then Some('\n') else if c == 'r' then Some('\r') else if c == 't' then Some('\t')
    else if c == 'v' then Some('\U{0B}')
    else None
  }

  /** A double-quoted scalar after its opening quote. */
  function UnquoteBody(s: string): Option<string> {
    if s == "" then None
    else if s[0] == '"' then (if |s| == 1 then Some("") else None)
    else if s[0] != '\\' then Prepend(s[0], UnquoteBody(s[1..]))
    else if |s| < 2 then None
    else if s[1] == 'x' then
      if |s| < 4 || HexValue(s[2]).None? || HexValue(s[3]).None? then None
      else Prepend((HexValue(s[2]).value * 16 + HexValue(s[3]).value) as char, UnquoteBody(s[4..]))
    else if Unescape(s[1]).None? then None
    else Prepend(Unescape(s[1]).value, UnquoteBody(s[2..]))
  }

  function Prepend(c: char, s: Option<string>): Option<string> {
    match s
    case None => None
    case Some(t) => Some([c] + t)
  }

  function Unquote(s: string): Option<string> {
    if s != "" && s[0] == '"' then UnquoteBody(s[1..]) else None
  }

  // ---------------------------------------------------------------- the section, column by column

  /** Whose list an item would belong to. */
  datatype Owner = AllowItems | DenyItems | Foreign

  /** What may stand below the last key: nothing, its value, or more items of the list at a column. */
  datatype Below = Shut | Open(owner: Owner) | Items(owner: Owner, col: nat)

  /** The columns of the mappings that are open, outermost first, and the section's own keys so far. */
  datatype Frame = Frame(levels: seq<nat>, names: set<string>, below: Below)

  const FIRST: Frame := Frame([], {}, Shut)

  function Last(levels: seq<nat>): nat
    requires levels != []
  {
    levels[|levels| - 1]
  }

  function Pop(levels: seq<nat>, c: nat): (ls: seq<nat>)
    ensures |ls| <= |levels|
    decreases |levels|
  {
    if levels == [] || Last(levels) <= c then levels else Pop(levels[..|levels| - 1], c)
  }

  /** The open mappings once a key stands at column c; none when it cannot stand there. The first key
      sets the section's column, and only a key of ours or another without a value opens a mapping. */
  function Enter(fr: Frame, c: nat): seq<nat> {
    if fr.levels == [] then [c]
    else if c > Last(fr.levels) then (if fr.below == Open(Foreign) then fr.levels + [c] else [])
    else
      var ls := Pop(fr.levels, c);
      if ls != [] && Last(ls) == c then ls else []
  }

  /** The frame after a key whose value does not say whose items may follow. */
  function AfterKey(fr: Frame, ls: seq<nat>, k: string, v: string): Frame {
    Frame(ls, if |ls| == 1 then fr.names + {k} else fr.names, if v == "" then Open(Foreign) else Shut)
  }

  predicate ItemFits(fr: Frame, c: nat) {
    match fr.below
    case Shut => false
    case Open(_) => fr.levels != [] && c >= Last(fr.levels)
    case Items(_, col) => c == col
  }

  datatype Reading =
    | Bad
    | Good(enable: Option<bool>, allowList: Option<seq<string>>, denyList: Option<seq<string>>, frame: Frame)

  const START: Reading := Good(None, None, None, FIRST)

  /** A key of the section itself is met once; ours have values of their own form. */
  function ReadKey(r: Reading, c: nat, k: string, v: string): Reading
    requires r.Good?
  {
    var ls := Enter(r.frame, c);
    if ls == [] || (|ls| == 1 && k in r.frame.names) then Bad
    else
      var fr := AfterKey(r.frame, ls, k, v);
      if |ls| > 1 then r.(frame := fr)
      else if k == "enable" then
        if ParseBool(v).None? then Bad else r.(enable := ParseBool(v), frame := fr)
      else if k == "allowList" then
        if v == "[]" then r.(allowList := Some([]), frame := fr)
        else if v == "" then r.(allowList := Some([]), frame := fr.(below := Open(AllowItems)))
        else Bad
      else if k == "denyList" then
        if v == "[]" then r.(denyList := Some([]), frame := fr)
        else if v == "" then r.(denyList := Some([]), frame := fr.(below := Open(DenyItems)))
        else Bad
      else r.(frame := fr)
  }

  function ReadItem(r: Reading, c: nat, text: string): Reading
    requires r.Good?
  {
    if !ItemFits(r.frame, c) then Bad
    else
      var owner := r.frame.below.owner;
      var r' := r.(frame := r.frame.(below := Items(owner, c)));
      if owner == Foreign then (if Value(text).Some? then r' else Bad)
      else if Unquote(text).None? then Bad
      else AddItems(r', owner, [Unquote(text).value])
  }

  function AddItems(r: Reading, owner: Owner, items: seq<string>): Reading
    requires r.Good?
  {
    if owner == AllowItems && r.allowList.Some? then r.(allowList := Some(r.allowList.value + items))
    else if owner == DenyItems && r.denyList.Some? then r.(denyList := Some(r.denyList.value + items))
    else Bad
  }

  function ReadLine(r: Reading, ln: string): Reading {
    if r.Bad? then Bad
    else
      match LineOf(ln)
      case Refused => Bad
      case Blank => r
      case KeyLine(c, k, v) => ReadKey(r, c, k, v)
      case ItemLine(c, text) => ReadItem(r, c, text)
  }

  function ReadAll(r: Reading, lines: seq<string>): Reading
    decreases |lines|
  {
    if lines == [] then r else ReadAll(ReadLine(r, lines[0]), lines[1..])
  }

  /** A line at column 0 that says something. */
  predicate AtMargin(ln: string) {
    TopLevel(ln) && ln != "\r" && ln[0] != '#'
  }

  /** The next key of the file, whatever its value, or the end of the document. */
  predicate Ends(ln: string) {
    StartsKey(Chop(ln)) || HasPrefix(ln, "---") || HasPrefix(ln, "...")
  }

  /** The lines up to the next one at column 0. */
  function ReadRest(r: Reading, lines: seq<string>): Reading
    decreases |lines|
  {
    if lines == [] then r
    else if AtMargin(lines[0]) then (if Ends(lines[0]) then r else Bad)
    else ReadRest(ReadLine(r, lines[0]), lines[1..])
  }

  /** A header with nothing but a comment behind it. */
  predicate PlainHeader(header: string) {
    HasPrefix(header, HEADER) &&
    var rest := Chop(header[|HEADER|..]);
    Printable(rest) && (rest == "" || (rest[0] == ' ' && (TrimSpace(rest) == "" || TrimSpace(rest)[0] == '#')))
  }

  function Settings(r: Reading): Option<IPFilterConfig> {
    match r
    case Bad => None
    case Good(e, a, d, _) => Some(IPFilterConfig(e == Some(true), OrEmpty(a), OrEmpty(d)))
  }

  function OrEmpty(l: Option<seq<string>>): seq<string> {
    match l
    case None => []
    case Some(items) => items
  }

  /** The loader's view of the section's settings; a key that is not there has its default. */
  function Load(lines: seq<string>): Option<IPFilterConfig> {
    var i := HeaderAt(lines);
    if i == |lines| || !PlainHeader(lines[i]) then None
    else Settings(ReadRest(START, lines[i + 1..]))
  }

  // ---------------------------------------------------------------- when reading back works

  /** One of our keys, written at column 2. */
  function OwnKey(fr: Frame, name: string): Option<Frame> {
    if name in fr.names then None else Some(Frame([2], fr.names + {name}, Shut))
  }

  /** A line the editor keeps where it stands: the section's keys are at column 2, deeper ones below
      another key without a value, and items below such a key too. */
  function KeptLine(fr: Frame, ln: string): Option<Frame> {
    match LineOf(ln)
    case Refused => None
    case Blank => Some(fr)
    case KeyLine(c, k, v) =>
      var ls := Enter(fr, c);
      if ls == [] || ls[0] != 2 || (|ls| == 1 && k in fr.names) then None else Some(AfterKey(fr, ls, k, v))
    case ItemLine(c, text) =>
      if ItemFits(fr, c) && Value(text).Some? then Some(fr.(below := Items(Foreign, c))) else None
  }

  function NameOf(k: Kind): string {
    match k
    case Enable => "enable"
    case Allow => "allowList"
    case Deny => "denyList"
    case _ => ""
  }

  predicate Key(k: Kind) { k == Enable || k == Allow || k == Deny }

  function FrameLine(fr: Frame, ln: string): Option<Frame> {
    var k := KindOf(ln);
    if Key(k) then (if Printable(InlineComment(ln)) then OwnKey(fr, NameOf(k)) else None)
    else if k == Item then Some(fr)
    else KeptLine(fr, ln)
  }

  function Frames(fr: Frame, lines: seq<string>): Option<Frame>
    decreases |lines|
  {
    if lines == [] then Some(fr)
    else
      match FrameLine(fr, lines[0])
      case None => None
      case Some(fr') => Frames(fr', lines[1..])
  }

  function Unseen(fr: Option<Frame>, seen: bool, k: Kind): Option<Frame> {
    if fr.None? || seen then fr else OwnKey(fr.value, NameOf(k))
  }

  /** Where the section's keys stand after an edit; None when a reader stumbles. */
  function SectionFrame(section: seq<string>): Option<Frame> {
    var fr := Frames(FIRST, section);
    Unseen(Unseen(Unseen(fr, Seen(section, Enable), Enable), Seen(section, Allow), Allow), Seen(section, Deny), Deny)
  }

  /** What a reader still takes for the section although the editor does not. */
  predicate Harmless(fr: Frame, lines: seq<string>)
    decreases |lines|
  {
    if lines == [] then true
    else if AtMargin(lines[0]) then Ends(lines[0])
    else
      match KeptLine(fr, lines[0])
      case None => false
      case Some(fr') => Harmless(fr', lines[1..])
  }

  /** The file's parts let every setting be written and read back. */
  predicate Editable(p: Parts) {
    PlainHeader(p.header) && SectionFrame(p.section).Some? && Harmless(SectionFrame(p.section).value, p.rest)
  }
}
