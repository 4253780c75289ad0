/** The SDP rewriter and extractor of internal/app/protocol/sip/sip.go, over the lines of a body. */
module Sdp {
  import opened Text
  import opened SipMessage

  const C_LINE: string := "c=IN IP4 "

  datatype MediaEntry = MediaEntry(mediaType: string, port: int, connAddr: string)

  predicate IsC(l: string) { HasPrefix(l, C_LINE) }
  predicate IsO(l: string) { HasPrefix(l, "o=") }
  predicate IsM(l: string) { HasPrefix(l, "m=") }

  function Parts(l: string): seq<string> { Split(l, " ") }

  /** The port of an m= line, when its second part is an integer. */
  function MediaPort(l: string): Option<int> {
    if |Parts(l)| >= 2 then Atoi(Parts(l)[1]) else None
  }

  function MediaType(l: string): string {
    var p := Parts(l)[0];
    if HasPrefix(p, "m=") then p[2..] else p
  }

  /** What a line means to the extractor: a connection address, a media entry, an m= line without
      an integer port (`hasPart` when it has a second part), or nothing. */
  datatype Kind =
    | Connection(addr: string)
    | Media(mediaType: string, port: int)
    | NoPort(mediaType: string, hasPart: bool)
    | Other
  {
    predicate IsMLine() { Media? || NoPort? }
  }

  function Classify(l: string): Kind {
    if IsC(l) then Connection(l[|C_LINE|..])
    else if !IsM(l) then Other
    else match MediaPort(l)
      case Some(p) => Media(MediaType(l), p)
      case None => NoPort(MediaType(l), |Parts(l)| >= 2)
  }

  function Kinds(lines: seq<string>): (r: seq<Kind>)
    ensures |r| == |lines|
  {
    if lines == [] then [] else [Classify(lines[0])] + Kinds(lines[1..])
  }

  // ---------------------------------------------------------------- the two passes

  function RewriteLine(l: string, addr: string, port: int): string {
    if IsC(l) then C_LINE + addr
    else if IsO(l) then (if |Parts(l)| >= 6 then Join(Parts(l)[5 := addr], " ") else l)
    else if IsM(l) && port > 0 && |Parts(l)| >= 2 then Join(Parts(l)[1 := Itoa(port)], " ")
    else l
  }

  function PortFor(relays: map<int, int>, idx: int): int {
    if idx in relays then relays[idx] else 0
  }

  /** Rewrites lines that follow idx m= lines: the k-th m= line overall takes relay port k. */
  function RewriteLines(lines: seq<string>, addr: string, relays: map<int, int>, idx: nat): (r: seq<string>)
    ensures |r| == |lines|
  {
    if lines == [] then []
    else
      var next := if IsM(lines[0]) then idx + 1 else idx;
      [RewriteLine(lines[0], addr, PortFor(relays, idx))] + RewriteLines(lines[1..], addr, relays, next)
  }

  /** The entries of lines that follow n entries, topC and lastC being the addresses seen so far. */
  function Extract(kinds: seq<Kind>, n: nat, topC: string, lastC: string): seq<MediaEntry> {
    if kinds == [] then []
    else
      var rest := kinds[1..];
      match kinds[0]
      case Connection(a) => Extract(rest, n, if n == 0 then a else topC, a)
      case Media(t, p) =>
        [MediaEntry(t, p, if lastC == "" then topC else lastC)] + Extract(rest, n + 1, topC, "")
      case NoPort(_, _) => Extract(rest, n, topC, lastC)
      case Other => Extract(rest, n, topC, lastC)
  }

  function ExtractBody(body: string): seq<MediaEntry> {
    if body == "" then [] else Extract(Kinds(Split(body, CRLF)), 0, "", "")
  }

  function RewriteBody(body: string, addr: string, relays: map<int, int>): string {
    Join(RewriteLines(Split(body, CRLF), addr, relays, 0), CRLF)
  }

  // ---------------------------------------------------------------- one line

  lemma {:induction false} SplitPartsFree(s: string, sep: string, other: string)
    requires |sep| > 0 && Free(s, other)
    ensures forall p :: p in Split(s, sep) ==> Free(p, other)
    decreases |s|
  {
    var i := Index(s, sep);
    if i >= 0 {
      FreeSlice(s, other, 0, i);
      FreeSlice(s, other, i + |sep|, |s|);
      assert s[0..i] == s[..i] && s[i + |sep|..|s|] == s[i + |sep|..];
      SplitPartsFree(s[i + |sep|..], sep, other);
    }
  }

  lemma {:induction false} JoinFreeCRLF(parts: seq<string>)
    requires forall p :: p in parts ==> Free(p, CRLF)
    ensures Free(Join(parts, " "), CRLF)
  {
    if |parts| > 1 {
      JoinFreeCRLF(parts[1..]);
      assert parts[0] in parts;
      FreeGlue(parts[0], " ", Join(parts[1..], " "));
    } else if |parts| == 1 {
      assert parts[0] in parts;
    }
  }

  /** A two-letter prefix without a space lies inside the first part. */
  lemma PrefixInFirstPart(l: string, p: string)
    requires |p| == 2 && p[0] != ' ' && p[1] != ' '
    ensures HasPrefix(l, p) <==> HasPrefix(Parts(l)[0], p)
  {
    var i := Index(l, " ");
    if i >= 0 {
      IndexFirst(l, " ");
      assert l[i..i + 1][0] == l[i] == ' ';
      if i >= 2 { assert l[..i][..2] == l[..2]; }
      if |l| >= 2 { assert l[..2][0] == l[0] && l[..2][1] == l[1]; }
    }
  }

  /** Replacing one part of a line by space-free text replaces exactly that part. */
  lemma ReplacePart(l: string, i: nat, v: string)
    requires i < |Parts(l)| && Free(v, " ")
    ensures Parts(Join(Parts(l)[i := v], " ")) == Parts(l)[i := v]
  {
    CommonSeparators();
    SplitFree(l, " ");
    SplitJoin(Parts(l)[i := v], " ");
  }

  /** A rewritten m= line is an m= line of the same type that carries the relay port. */
  lemma RewrittenMedia(l: string, addr: string, port: int)
    requires IsM(l) && 0 < port <= MAX_INT && |Parts(l)| >= 2
    ensures var r := RewriteLine(l, addr, port);
      IsM(r) && MediaPort(r) == Some(port) && MediaType(r) == MediaType(l)
      && Parts(r) == Parts(l)[1 := Itoa(port)]
  {
    ItoaFree(port, " ");
    ReplacePart(l, 1, Itoa(port));
    AtoiItoa(port);
    PrefixInFirstPart(l, "m=");
    PrefixInFirstPart(RewriteLine(l, addr, port), "m=");
    assert !IsC(l) && !IsO(l) by { FirstChar(l); }
  }

  lemma FirstChar(l: string)
    ensures IsC(l) ==> l[0] == 'c'
    ensures IsO(l) ==> l[0] == 'o'
    ensures IsM(l) ==> l[0] == 'm'
  {
    if IsC(l) { assert l[..|C_LINE|][0] == l[0]; }
    if IsO(l) { assert l[..2][0] == l[0]; }
    if IsM(l) { assert l[..2][0] == l[0]; }
  }

  /** An o= line stays one when its address part is replaced. */
  lemma RewrittenOrigin(l: string, addr: string, port: int)
    requires IsO(l)
    ensures IsO(RewriteLine(l, addr, port)) && !IsC(l)
  {
    FirstChar(l);
    if |Parts(l)| >= 6 {
      var ps := Parts(l)[5 := addr];
      PrefixInFirstPart(l, "o=");
      var r := Join(ps, " ");
      assert r == ps[0] + " " + Join(ps[1..], " ");
      assert r[..2] == ps[0][..2];
    }
  }

  /** Rewriting moves no line to another kind. */
  lemma SameKind(l: string, addr: string, port: int)
    requires port <= MAX_INT
    ensures var r := RewriteLine(l, addr, port); IsC(r) == IsC(l) && IsO(r) == IsO(l) && IsM(r) == IsM(l)
    ensures IsC(l) ==> RewriteLine(l, addr, port)[|C_LINE|..] == addr
    ensures !IsC(l) && !IsO(l) && !IsM(l) ==> RewriteLine(l, addr, port) == l
  {
    var r := RewriteLine(l, addr, port);
    FirstChar(l);
    FirstChar(r);
    if IsC(l) {
      assert r[..|C_LINE|] == C_LINE;
    } else if IsO(l) {
      RewrittenOrigin(l, addr, port);
    } else if IsM(l) && port > 0 && |Parts(l)| >= 2 {
      RewrittenMedia(l, addr, port);
    }
  }

  lemma RewriteLineFree(l: string, addr: string, port: int)
    requires Free(l, CRLF) && Free(addr, CRLF)
    ensures Free(RewriteLine(l, addr, port), CRLF)
  {
    SplitPartsFree(l, " ", CRLF);
    if IsC(l) {
      FreeCRLF("c=IN");
      FreeGlue("c=IN", " IP4 ", addr);
      assert C_LINE + addr == "c=IN" + " IP4 " + addr;
    } else if IsO(l) && |Parts(l)| >= 6 {
      JoinFreeCRLF(Parts(l)[5 := addr]);
    } else if IsM(l) && port > 0 && |Parts(l)| >= 2 {
      ItoaFree(port, CRLF);
      JoinFreeCRLF(Parts(l)[1 := Itoa(port)]);
    }
  }

  lemma RewriteLineTwice(l: string, addr: string, port: int)
    requires Free(addr, " ") && port <= MAX_INT
    ensures RewriteLine(RewriteLine(l, addr, port), addr, port) == RewriteLine(l, addr, port)
  {
    SameKind(l, addr, port);
    var r := RewriteLine(l, addr, port);
    if IsC(l) {
    } else if IsO(l) && |Parts(l)| >= 6 {
      ReplacePart(l, 5, addr);
      assert Parts(l)[5 := addr][5 := addr] == Parts(l)[5 := addr];
    } else if IsM(l) && port > 0 && |Parts(l)| >= 2 {
      RewrittenMedia(l, addr, port);
      assert Parts(r)[1 := Itoa(port)] == Parts(r);
    }
  }

  // ---------------------------------------------------------------- rewriting a whole body

  ghost predicate PortsInRange(relays: map<int, int>) {
    forall k :: k in relays ==> relays[k] <= MAX_INT
  }

  lemma {:induction false} RewriteLinesFree(lines: seq<string>, addr: string, relays: map<int, int>, idx: nat)
    requires Free(addr, CRLF) && forall l :: l in lines ==> Free(l, CRLF)
    ensures forall l :: l in RewriteLines(lines, addr, relays, idx) ==> Free(l, CRLF)
  {
    if lines != [] {
      assert lines[0] in lines;
      RewriteLineFree(lines[0], addr, PortFor(relays, idx));
      RewriteLinesFree(lines[1..], addr, relays, if IsM(lines[0]) then idx + 1 else idx);
    }
  }

  lemma {:induction false} RewriteLinesTwice(lines: seq<string>, addr: string, relays: map<int, int>, idx: nat)
    requires Free(addr, " ") && PortsInRange(relays)
    ensures var once := RewriteLines(lines, addr, relays, idx);
      RewriteLines(once, addr, relays, idx) == once
  {
    if lines != [] {
      var p := PortFor(relays, idx);
      RewriteLineTwice(lines[0], addr, p);
      SameKind(lines[0], addr, p);
      RewriteLinesTwice(lines[1..], addr, relays, if IsM(lines[0]) then idx + 1 else idx);
      var once := RewriteLines(lines, addr, relays, idx);
      assert once[0] == RewriteLine(lines[0], addr, p);
    }
  }

  /** Lines other than c=, o= and m= lines stay where they are, unchanged, and no line changes kind. */
  lemma {:induction false} OtherLinesUntouched(lines: seq<string>, addr: string, relays: map<int, int>, idx: nat,
                                               i: nat)
    requires i < |lines| && PortsInRange(relays)
    ensures var r := RewriteLines(lines, addr, relays, idx)[i]; var l := lines[i];
      IsC(r) == IsC(l) && IsO(r) == IsO(l) && IsM(r) == IsM(l)
      && (IsC(l) ==> r == C_LINE + addr)
      && (!IsC(l) && !IsO(l) && !IsM(l) ==> r == l)
  {
    if i == 0 {
      SameKind(lines[0], addr, PortFor(relays, idx));
    } else {
      OtherLinesUntouched(lines[1..], addr, relays, if IsM(lines[0]) then idx + 1 else idx, i - 1);
    }
  }

  lemma RewrittenLines(body: string, addr: string, relays: map<int, int>)
    requires Free(addr, CRLF)
    ensures Split(RewriteBody(body, addr, relays), CRLF) == RewriteLines(Split(body, CRLF), addr, relays, 0)
  {
    CommonSeparators();
    SplitFree(body, CRLF);
    RewriteLinesFree(Split(body, CRLF), addr, relays, 0);
    SplitJoin(RewriteLines(Split(body, CRLF), addr, relays, 0), CRLF);
  }

  /** Rewriting a body twice is rewriting it once. */
  lemma RewriteBodyTwice(body: string, addr: string, relays: map<int, int>)
    requires Free(addr, " ") && Free(addr, CRLF) && PortsInRange(relays)
    ensures var once := RewriteBody(body, addr, relays); RewriteBody(once, addr, relays) == once
  {
    RewrittenLines(body, addr, relays);
    RewriteLinesTwice(Split(body, CRLF), addr, relays, 0);
  }

  // ---------------------------------------------------------------- rewriting seen as kinds

  function RewriteKind(k: Kind, addr: string, port: int): Kind {
    match k
    case Connection(_) => Connection(addr)
    case Media(t, p) => if port > 0 then Media(t, port) else k
    case NoPort(t, hasPart) => if port > 0 && hasPart then Media(t, port) else k
    case Other => Other
  }

  function RewriteKinds(kinds: seq<Kind>, addr: string, relays: map<int, int>, idx: nat): seq<Kind> {
    if kinds == [] then []
    else
      var next := if kinds[0].IsMLine() then idx + 1 else idx;
      [RewriteKind(kinds[0], addr, PortFor(relays, idx))] + RewriteKinds(kinds[1..], addr, relays, next)
  }

  lemma ClassifyRewritten(l: string, addr: string, port: int)
    requires port <= MAX_INT
    ensures Classify(RewriteLine(l, addr, port)) == RewriteKind(Classify(l), addr, port)
  {
    FirstChar(l);
    SameKind(l, addr, port);
    if IsM(l) && port > 0 && |Parts(l)| >= 2 {
      RewrittenMedia(l, addr, port);
    }
  }

  lemma {:induction false} KindsRewritten(lines: seq<string>, addr: string, relays: map<int, int>, idx: nat)
    requires PortsInRange(relays)
    ensures Kinds(RewriteLines(lines, addr, relays, idx)) == RewriteKinds(Kinds(lines), addr, relays, idx)
  {
    hide Classify, RewriteKind, RewriteLine;
    if lines != [] {
      var next := if IsM(lines[0]) then idx + 1 else idx;
      assert IsM(lines[0]) == Classify(lines[0]).IsMLine() by { MLineKind(lines[0]); }
      ClassifyRewritten(lines[0], addr, PortFor(relays, idx));
      KindsRewritten(lines[1..], addr, relays, next);
      assert RewriteLines(lines, addr, relays, idx)[1..] == RewriteLines(lines[1..], addr, relays, next);
      assert Kinds(lines)[1..] == Kinds(lines[1..]);
    }
  }

  lemma MLineKind(l: string)
    ensures IsM(l) == Classify(l).IsMLine()
  {
    FirstChar(l);
  }

  lemma NonEmptyBody(lines: seq<string>)
    requires |lines| >= 1
    ensures Join(lines, CRLF) == "" ==> lines == [""]
  {
    if |lines| > 1 { assert |Join(lines, CRLF)| == |lines[0]| + 2 + |Join(lines[1..], CRLF)|; }
  }

  lemma EmptyLine()
    ensures Split("", CRLF) == [""] && Kinds([""]) == [Other]
    ensures forall addr, relays :: RewriteBody("", addr, relays) == ""
  {
    IndexFirst("", CRLF);
    FirstChar("");
    assert Kinds([""][1..]) == [];
    forall addr, relays ensures RewriteBody("", addr, relays) == "" {
      assert RewriteLines([""], addr, relays, 0) == [""];
    }
  }

  /** What the extractor sees in a rewritten body. */
  lemma ExtractRewrittenBody(body: string, addr: string, relays: map<int, int>)
    requires Free(addr, CRLF) && PortsInRange(relays)
    ensures ExtractBody(RewriteBody(body, addr, relays)) == if body == "" then []
      else Extract(RewriteKinds(Kinds(Split(body, CRLF)), addr, relays, 0), 0, "", "")
  {
    RewrittenLines(body, addr, relays);
    KindsRewritten(Split(body, CRLF), addr, relays, 0);
    EmptyLine();
    var lines := RewriteLines(Split(body, CRLF), addr, relays, 0);
    NonEmptyBody(lines);
    if RewriteBody(body, addr, relays) == "" {
      assert Extract([Other], 0, "", "") == Extract([Other][1..], 0, "", "") == [];
    }
  }
}
