/** What the SDP rewriter and the SDP extractor do, in terms of the words of each line
    (internal/app/protocol/sip/sip.go:287-377). */
module SdpMeaning {
  import opened Text
  import opened SipMessage
  import opened Sdp
  import opened SipRewrite

  /** The words of a line, which are joined by single spaces. */
  ghost predicate Words(p: seq<string>) {
    p != [] && forall w :: w in p ==> Free(w, " ")
  }

  lemma WordsOf(p: seq<string>)
    requires Words(p)
    ensures Split(Join(p, " "), " ") == p
  {
    CommonSeparators();
    SplitJoin(p, " ");
  }

  // ---------------------------------------------------------------- one line rewritten

  /** The sixth word of an o= line is its address, the second of an m= line its port; a c= line is
      replaced; anything else stays. */
  lemma LineRewritten(p: seq<string>, addr: string, port: int)
    requires Words(p)
    ensures var l := Join(p, " ");
      RewriteLine(l, addr, port) ==
        if HasPrefix(l, "c=IN IP4 ") then "c=IN IP4 " + addr
        else if HasPrefix(l, "o=") && |p| >= 6 then Join(p[5 := addr], " ")
        else if HasPrefix(l, "m=") && port > 0 && |p| >= 2 then Join(p[1 := Itoa(port)], " ")
        else l
  {
    WordsOf(p);
    FirstChar(Join(p, " "));
    hide Join, Split, HasPrefix, Itoa;
  }

  /** How many m= lines stand before line i. */
  function MediaLines(lines: seq<string>, i: nat): nat
    requires i <= |lines|
  {
    if i == 0 then 0 else MediaLines(lines, i - 1) + (if HasPrefix(lines[i - 1], "m=") then 1 else 0)
  }

  lemma {:induction false} MediaLinesTail(lines: seq<string>, i: nat)
    requires lines != [] && 1 <= i <= |lines|
    ensures MediaLines(lines, i) == MediaLines(lines[1..], i - 1) + (if HasPrefix(lines[0], "m=") then 1 else 0)
  {
    hide HasPrefix;
    if i == 1 {
      assert MediaLines(lines, 1) == MediaLines(lines, 0) + (if HasPrefix(lines[0], "m=") then 1 else 0);
    } else {
      MediaLinesTail(lines, i - 1);
      assert lines[1..][i - 2] == lines[i - 1];
    }
  }

  /** Line i is rewritten with the relay port of as many m= lines as stand before it. */
  lemma {:induction false} LineAt(lines: seq<string>, addr: string, relays: map<int, int>, idx: nat, i: nat)
    requires i < |lines|
    ensures RewriteLines(lines, addr, relays, idx)[i]
      == RewriteLine(lines[i], addr, PortFor(relays, idx + MediaLines(lines, i)))
  {
    hide RewriteLine, HasPrefix;
    if i > 0 {
      MediaLinesTail(lines, i);
      var next := if IsM(lines[0]) then idx + 1 else idx;
      LineAt(lines[1..], addr, relays, next, i - 1);
    }
  }

  /** A line that gives the rewriter something to do. */
  predicate Concerns(lines: seq<string>, relays: map<int, int>, i: nat)
    requires i < |lines|
  {
    || HasPrefix(lines[i], "c=IN IP4 ")
    || (HasPrefix(lines[i], "o=") && |Split(lines[i], " ")| >= 6)
    || (HasPrefix(lines[i], "m=") && |Split(lines[i], " ")| >= 2
        && MediaLines(lines, i) in relays && relays[MediaLines(lines, i)] > 0)
  }

  predicate TouchedAt(lines: seq<string>, relays: map<int, int>, idx: nat, i: nat) {
    i < |lines| && Touched(lines[i], PortFor(relays, idx + MediaLines(lines, i)))
  }

  lemma TouchedShift(lines: seq<string>, relays: map<int, int>, idx: nat, i: nat)
    requires lines != []
    ensures TouchedAt(lines, relays, idx, i + 1)
      <==> TouchedAt(lines[1..], relays, if IsM(lines[0]) then idx + 1 else idx, i)
  {
    hide Touched, HasPrefix;
    if i + 1 < |lines| { MediaLinesTail(lines, i + 1); }
  }

  lemma {:induction false} TouchedSome(lines: seq<string>, relays: map<int, int>, idx: nat)
    ensures AnyTouched(lines, relays, idx) <==> exists i: nat :: TouchedAt(lines, relays, idx, i)
  {
    if lines != [] {
      var rest, next := lines[1..], if IsM(lines[0]) then idx + 1 else idx;
      TouchedSome(rest, relays, next);
      assert Touched(lines[0], PortFor(relays, idx)) <==> TouchedAt(lines, relays, idx, 0);
      hide TouchedAt, Touched, IsM;
      if AnyTouched(rest, relays, next) {
        var j: nat :| TouchedAt(rest, relays, next, j);
        TouchedShift(lines, relays, idx, j);
      }
      if i: nat :| TouchedAt(lines, relays, idx, i) {
        if i > 0 { TouchedShift(lines, relays, idx, i - 1); }
      }
    }
  }

  lemma TouchedConcerns(lines: seq<string>, relays: map<int, int>)
    ensures AnyTouched(lines, relays, 0) <==> exists i: nat :: i < |lines| && Concerns(lines, relays, i)
  {
    TouchedSome(lines, relays, 0);
    hide HasPrefix, Split, MediaLines, AnyTouched;
    forall i: nat ensures TouchedAt(lines, relays, 0, i) <==> i < |lines| && Concerns(lines, relays, i) {
    }
    hide TouchedAt, Concerns;
  }

  // ---------------------------------------------------------------- which messages are rewritten

  /** A content type that is empty or names application/sdp somewhere, in any letter case. */
  ghost predicate NamesSdp(contentType: string) {
    contentType == "" || exists a, t, b :: contentType == a + t + b && Lower(t) == "application/sdp"
  }

  lemma LowerSlice(s: string, i: nat, j: nat)
    requires i <= j <= |s|
    ensures Lower(s[i..j]) == Lower(s)[i..j]
  {
  }

  lemma LowerInside(a: string, t: string, b: string)
    ensures Occurs(Lower(a + t + b), Lower(t), |a|)
  {
    var s := a + t + b;
    assert s[|a|..|a| + |t|] == t;
    LowerSlice(s, |a|, |a| + |t|);
  }

  lemma SdpNamed(contentType: string)
    ensures IsSdp(contentType) <==> NamesSdp(contentType)
  {
    var t := "application/sdp";
    var low := Lower(contentType);
    IndexFirst(low, t);
    hide Index, Lower;
    if Index(low, t) >= 0 {
      var i := Index(low, t);
      var j := i + |t|;
      LowerSlice(contentType, i, j);
      assert contentType == contentType[..i] + contentType[i..j] + contentType[j..];
      assert Lower(contentType[i..j]) == t;
    }
    if a, w, b :| contentType == a + w + b && Lower(w) == t {
      LowerInside(a, w, b);
      assert Occurs(low, t, |a|);
    }
  }

  /** A message whose Content-Type names application/sdp somewhere and whose body has a line that concerns
      the rewriter gets the rewritten body. */
  lemma SdpBodyRewritten(m: Msg, addr: string, ch: Choices, routing: string -> string, a: string, t: string, b: string)
    requires ValidChoices(m, addr, ch, routing) && Lower(t) == "application/sdp"
    requires "Content-Type" in m.hdrs.vals && m.hdrs.vals["Content-Type"] == a + t + b
    requires m.body != "" && exists i: nat ::
      i < |Split(m.body, "\r\n")| && Concerns(Split(m.body, "\r\n"), ch.relays, i)
    ensures Rewrite(m, addr, ch, routing).body == Join(RewriteLines(Split(m.body, "\r\n"), addr, ch.relays, 0), "\r\n")
  {
    assert NamesSdp(a + t + b);
    SdpNamed(a + t + b);
    TouchedConcerns(Split(m.body, "\r\n"), ch.relays);
    hide Split, Join, RewriteLines, Concerns, AnyTouched, IsSdp, NamesSdp;
  }

  /** So does one without any Content-Type; one with another, or without such a line, keeps its body. */
  lemma TypesAndBodies(m: Msg, addr: string, ch: Choices, routing: string -> string)
    requires ValidChoices(m, addr, ch, routing) && m.body != ""
    ensures (forall n :: n in m.hdrs.vals ==> Lower(n) != "content-type")
      && (exists i: nat :: i < |Split(m.body, "\r\n")| && Concerns(Split(m.body, "\r\n"), ch.relays, i))
      ==> Rewrite(m, addr, ch, routing).body == RewriteBody(m.body, addr, ch.relays)
    ensures "Content-Type" in m.hdrs.vals && !NamesSdp(m.hdrs.vals["Content-Type"])
      ==> Rewrite(m, addr, ch, routing).body == m.body
    ensures (forall i: nat :: i < |Split(m.body, "\r\n")| ==> !Concerns(Split(m.body, "\r\n"), ch.relays, i))
      ==> Rewrite(m, addr, ch, routing).body == m.body
  {
    assert Lower("Content-Type") == "content-type";
    SdpNamed(ch.contentType);
    TouchedConcerns(Split(m.body, "\r\n"), ch.relays);
    assert "Content-Type" in m.hdrs.vals ==> Lower("Content-Type") == "content-type";
    hide Split, RewriteBody, Concerns, AnyTouched, IsSdp, NamesSdp, Lower;
  }

  // ---------------------------------------------------------------- what the extractor finds

  /** A line as the extractor sees it. */
  lemma LineSeen(p: seq<string>)
    requires Words(p)
    ensures var l := Join(p, " ");
      Classify(l) ==
        if HasPrefix(l, "c=IN IP4 ") then Connection(l[9..])
        else if !HasPrefix(p[0], "m=") then Other
        else if |p| < 2 then NoPort(p[0][2..], false)
        else if Atoi(p[1]).None? then NoPort(p[0][2..], true)
        else Media(p[0][2..], Atoi(p[1]).value)
  {
    WordsOf(p);
    var l := Join(p, " ");
    FirstChar(l);
    PrefixInFirstPart(l, "m=");
    assert |C_LINE| == 9;
    hide Join, Split, Atoi;
  }

  /** The address of the last c= line between lo and hi, empty for none. */
  function LastAddr(kinds: seq<Kind>, lo: nat, hi: nat): string
    requires hi <= |kinds|
    decreases hi
  {
    if hi <= lo then ""
    else if kinds[hi - 1].Connection? then kinds[hi - 1].addr
    else LastAddr(kinds, lo, hi - 1)
  }

  /** The position behind the last media line with a port before i, 0 for none. */
  function LastEntry(kinds: seq<Kind>, i: nat): (b: nat)
    requires i <= |kinds|
    ensures b <= i
  {
    if i == 0 then 0 else if kinds[i - 1].Media? then i else LastEntry(kinds, i - 1)
  }

  /** The first media line with a port, or the end. */
  function FirstMedia(kinds: seq<Kind>): (i: nat)
    ensures i <= |kinds|
  {
    if kinds == [] || kinds[0].Media? then 0 else 1 + FirstMedia(kinds[1..])
  }

  lemma {:induction false} FirstMediaAt(kinds: seq<Kind>, j: nat)
    requires j < |kinds|
    ensures j < FirstMedia(kinds) ==> !kinds[j].Media?
    ensures j == FirstMedia(kinds) ==> kinds[j].Media?
  {
    if j > 0 { FirstMediaAt(kinds[1..], j - 1); }
  }

  /** The entry of media line i: its own c= address, the last one between it and the entry before; or
      else that of the session, the last one before any entry. */
  function EntryAt(kinds: seq<Kind>, i: nat): MediaEntry
    requires i < |kinds| && kinds[i].Media?
  {
    var own := LastAddr(kinds, LastEntry(kinds, i), i);
    MediaEntry(kinds[i].mediaType, kinds[i].port, if own != "" then own else LastAddr(kinds, 0, FirstMedia(kinds)))
  }

  function EntriesFrom(kinds: seq<Kind>, i: nat): seq<MediaEntry>
    requires i <= |kinds|
    decreases |kinds| - i
  {
    if i == |kinds| then []
    else (if kinds[i].Media? then [EntryAt(kinds, i)] else []) + EntriesFrom(kinds, i + 1)
  }

  /** The session's address and the own one as they stand before line i. */
  function SessionAddr(kinds: seq<Kind>, i: nat): string
    requires i <= |kinds|
  {
    LastAddr(kinds, 0, if i <= FirstMedia(kinds) then i else FirstMedia(kinds))
  }

  function OwnAddr(kinds: seq<Kind>, i: nat): string
    requires i <= |kinds|
  {
    LastAddr(kinds, LastEntry(kinds, i), i)
  }

  lemma SessionNext(kinds: seq<Kind>, i: nat)
    requires i < |kinds|
    ensures var first, k := FirstMedia(kinds), kinds[i];
      && (i < first ==> !k.Media?) && (i == first ==> k.Media?)
      && (k.Media? ==> SessionAddr(kinds, i) == LastAddr(kinds, 0, first))
      && SessionAddr(kinds, i + 1) == if i < first && k.Connection? then k.addr else SessionAddr(kinds, i)
  {
    var first := FirstMedia(kinds);
    FirstMediaAt(kinds, i);
    if i < first { LastAddrNext(kinds, i); }
    hide FirstMedia, LastAddr;
  }

  lemma LastAddrNext(kinds: seq<Kind>, i: nat)
    requires i < |kinds|
    ensures LastAddr(kinds, 0, i + 1) == if kinds[i].Connection? then kinds[i].addr else LastAddr(kinds, 0, i)
  {
  }

  lemma OwnNext(kinds: seq<Kind>, i: nat)
    requires i < |kinds|
    ensures var k := kinds[i];
      OwnAddr(kinds, i + 1) == if k.Connection? then k.addr else if k.Media? then "" else OwnAddr(kinds, i)
  {
    var b := LastEntry(kinds, i);
    assert LastEntry(kinds, i + 1) == if kinds[i].Media? then i + 1 else b;
    hide LastEntry;
  }

  /** The entry of one line, if it has one. */
  function EntryOf(k: Kind, session: string, own: string): seq<MediaEntry> {
    if k.Media? then [MediaEntry(k.mediaType, k.port, if own == "" then session else own)] else []
  }

  lemma ExtractNext(kinds: seq<Kind>, i: nat, n: nat, topC: string, lastC: string)
    requires i < |kinds|
    ensures var k := kinds[i];
      Extract(kinds[i..], n, topC, lastC) ==
        EntryOf(k, topC, lastC)
        + Extract(kinds[i + 1..], if k.Media? then n + 1 else n, if n == 0 && k.Connection? then k.addr else topC,
                  if k.Connection? then k.addr else if k.Media? then "" else lastC)
  {
    assert kinds[i..][0] == kinds[i] && kinds[i..][1..] == kinds[i + 1..];
  }

  lemma EntriesNext(kinds: seq<Kind>, i: nat)
    requires i < |kinds|
    ensures EntriesFrom(kinds, i)
      == EntryOf(kinds[i], SessionAddr(kinds, i), OwnAddr(kinds, i)) + EntriesFrom(kinds, i + 1)
  {
    SessionNext(kinds, i);
    hide LastAddr, LastEntry, FirstMedia, SessionAddr;
  }

  lemma {:induction false} ExtractFrom(kinds: seq<Kind>, i: nat, n: nat)
    requires i <= |kinds| && (n == 0 <==> i <= FirstMedia(kinds))
    ensures Extract(kinds[i..], n, SessionAddr(kinds, i), OwnAddr(kinds, i)) == EntriesFrom(kinds, i)
    decreases |kinds| - i
  {
    hide FirstMedia, SessionAddr, OwnAddr;
    if i == |kinds| {
      assert kinds[i..] == [];
    } else {
      hide Extract, EntriesFrom, EntryOf;
      SessionNext(kinds, i);
      OwnNext(kinds, i);
      ExtractNext(kinds, i, n, SessionAddr(kinds, i), OwnAddr(kinds, i));
      EntriesNext(kinds, i);
      ExtractFrom(kinds, i + 1, if kinds[i].Media? then n + 1 else n);
    }
  }

  /** The extracted entries are those of the media lines with a port, in order. */
  lemma ExtractMeans(kinds: seq<Kind>)
    ensures Extract(kinds, 0, "", "") == EntriesFrom(kinds, 0)
  {
    ExtractFrom(kinds, 0, 0);
    assert kinds[0..] == kinds;
  }
}
