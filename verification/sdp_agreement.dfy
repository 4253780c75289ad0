/** When the SDP rewriter and the SDP extractor agree on which media entry is which. */
module SdpAgreement {
  import opened Text
  import opened Sdp

  /** How many media entries the lines hold. */
  function MediaCount(kinds: seq<Kind>): nat {
    if kinds == [] then 0 else (if kinds[0].Media? then 1 else 0) + MediaCount(kinds[1..])
  }

  /** No m= line without an integer port comes before one that has a port. */
  ghost predicate Aligned(kinds: seq<Kind>) {
    forall i, j :: 0 <= i < j < |kinds| && kinds[i].NoPort? ==> !kinds[j].Media?
  }

  /** Relays for some of the n entries and for nothing else. */
  ghost predicate RelaysFor(relays: map<int, int>, n: nat) {
    forall k :: k in relays ==> 0 <= k < n && 0 < relays[k] <= MAX_INT
  }

  /** A relay for every entry. */
  ghost predicate Covering(relays: map<int, int>, n: nat) {
    RelaysFor(relays, n) && forall k :: 0 <= k < n ==> k in relays
  }

  ghost predicate DistinctRelays(relays: map<int, int>) {
    forall j, k :: j in relays && k in relays && j != k ==> relays[j] != relays[k]
  }

  lemma {:induction false} ExtractCount(kinds: seq<Kind>, n: nat, topC: string, lastC: string)
    ensures |Extract(kinds, n, topC, lastC)| == MediaCount(kinds)
  {
    if kinds != [] {
      var k := kinds[0];
      if k.Connection? {
        ExtractCount(kinds[1..], n, if n == 0 then k.addr else topC, k.addr);
      } else if k.Media? {
        ExtractCount(kinds[1..], n + 1, topC, "");
      } else {
        ExtractCount(kinds[1..], n, topC, lastC);
      }
    }
  }

  /** c= lines of the rewritten body carry addr; `strict` rules out c= lines with an empty address. */
  ghost predicate AddrRewritten(strict: bool, addr: string, before: string, after: string) {
    if before != "" then after == addr else after == "" || (!strict && after == addr)
  }

  ghost predicate NoEmptyC(kinds: seq<Kind>) {
    forall k :: k in kinds ==> k != Connection("")
  }

  /** The port an entry is told: its relay's, or its own when it got no relay. */
  function Told(relays: map<int, int>, idx: int, before: MediaEntry): int {
    if idx in relays then relays[idx] else before.port
  }

  ghost predicate EntryAgrees(strict: bool, addr: string, port: int, before: MediaEntry, after: MediaEntry) {
    after.mediaType == before.mediaType && after.port == port
      && AddrRewritten(strict, addr, before.connAddr, after.connAddr)
  }

  /** Entry k of the rewritten lines: same type, told port, public address where there was one. */
  ghost predicate EntriesAgree(strict: bool, addr: string, relays: map<int, int>, idx: nat,
      before: seq<MediaEntry>, after: seq<MediaEntry>)
  {
    && |after| == |before|
    && forall k :: 0 <= k < |before| ==>
      EntryAgrees(strict, addr, Told(relays, idx + k, before[k]), before[k], after[k])
  }

  lemma EntriesCons(strict: bool, addr: string, relays: map<int, int>, idx: nat,
      e: MediaEntry, before: seq<MediaEntry>, e': MediaEntry, after: seq<MediaEntry>)
    requires EntryAgrees(strict, addr, Told(relays, idx, e), e, e')
    requires EntriesAgree(strict, addr, relays, idx + 1, before, after)
    ensures EntriesAgree(strict, addr, relays, idx, [e] + before, [e'] + after)
  {
    forall k | 0 <= k < |before| + 1
      ensures EntryAgrees(strict, addr, Told(relays, idx + k, ([e] + before)[k]), ([e] + before)[k], ([e'] + after)[k])
    {
      if k > 0 {
        assert idx + k == idx + 1 + (k - 1);
        assert ([e] + before)[k] == before[k - 1] && ([e'] + after)[k] == after[k - 1];
      }
    }
  }

  lemma {:induction false} ExtractRewritten(strict: bool, kinds: seq<Kind>, addr: string,
      relays: map<int, int>, n: nat, topC: string, lastC: string, topC': string, lastC': string)
    requires Aligned(kinds) && (strict ==> NoEmptyC(kinds))
    requires RelaysFor(relays, n + MediaCount(kinds))
    requires AddrRewritten(strict, addr, topC, topC') && AddrRewritten(strict, addr, lastC, lastC')
    ensures EntriesAgree(strict, addr, relays, n,
      Extract(kinds, n, topC, lastC), Extract(RewriteKinds(kinds, addr, relays, n), n, topC', lastC'))
  {
    if kinds != [] {
      var k := kinds[0];
      var rest := kinds[1..];
      assert k in kinds && forall x :: x in rest ==> x in kinds;
      match k
      case Connection(a) =>
        ExtractRewritten(strict, rest, addr, relays, n, if n == 0 then a else topC, a,
          if n == 0 then addr else topC', addr);
      case Media(mt, p) =>
        ExtractRewritten(strict, rest, addr, relays, n + 1, topC, "", topC', "");
        EntriesCons(strict, addr, relays, n,
          MediaEntry(mt, p, if lastC == "" then topC else lastC), Extract(rest, n + 1, topC, ""),
          MediaEntry(mt, if n in relays then relays[n] else p, if lastC' == "" then topC' else lastC'),
          Extract(RewriteKinds(rest, addr, relays, n + 1), n + 1, topC', ""));
      case NoPort(_, _) =>
        assert forall j :: 0 <= j < |kinds| ==> !kinds[j].Media?;
        NoMedia(kinds);
        NoNewMedia(kinds, addr, relays, n, n);
        ExtractCount(kinds, n, topC, lastC);
        ExtractCount(RewriteKinds(kinds, addr, relays, n), n, topC', lastC');
      case Other =>
        ExtractRewritten(strict, rest, addr, relays, n, topC, lastC, topC', lastC');
    }
  }

  lemma {:induction false} NoMedia(kinds: seq<Kind>)
    ensures MediaCount(kinds) == 0 <==> forall j :: 0 <= j < |kinds| ==> !kinds[j].Media?
  {
    if kinds != [] {
      NoMedia(kinds[1..]);
      assert forall j :: 0 < j < |kinds| ==> kinds[j] == kinds[1..][j - 1];
    }
  }

  /** Rewriting beyond the relays creates no entry. */
  lemma {:induction false} NoNewMedia(kinds: seq<Kind>, addr: string, relays: map<int, int>, n: nat, idx: nat)
    requires MediaCount(kinds) == 0 && RelaysFor(relays, n) && n <= idx
    ensures MediaCount(RewriteKinds(kinds, addr, relays, idx)) == 0
  {
    if kinds != [] {
      NoNewMedia(kinds[1..], addr, relays, n, if kinds[0].IsMLine() then idx + 1 else idx);
    }
  }

  /** On every aligned body the rewritten SDP advertises exactly the relays, in order, and the original
      port for an entry that got none. */
  lemma RewriteAgrees(body: string, addr: string, relays: map<int, int>)
    requires Free(addr, CRLF)
    requires Aligned(Kinds(Split(body, CRLF))) && RelaysFor(relays, |ExtractBody(body)|)
    ensures EntriesAgree(NoEmptyC(Kinds(Split(body, CRLF))), addr, relays, 0,
      ExtractBody(body), ExtractBody(RewriteBody(body, addr, relays)))
  {
    hide RewriteBody, RewriteKinds, Extract, Kinds;
    var kinds := Kinds(Split(body, CRLF));
    ExtractRewrittenBody(body, addr, relays);
    if body != "" {
      ExtractCount(kinds, 0, "", "");
      ExtractRewritten(NoEmptyC(kinds), kinds, addr, relays, 0, "", "", "", "");
    }
  }

  // ---------------------------------------------------------------- misaligned bodies

  function RelayPort(base: nat, k: int): int { base + k }

  /** Relay ports base, base + 1, ... for n entries. */
  function Ports(base: nat, n: nat): map<int, int> {
    map k: int | 0 <= k < n :: RelayPort(base, k)
  }

  /** The port of the first entry of the rewritten lines when no relay port reaches it. */
  function FirstRaw(kinds: seq<Kind>, idx: nat, n: nat): Option<int> {
    if kinds == [] then None
    else match kinds[0]
      case Media(_, p) => if idx < n then None else Some(p)
      case NoPort(_, hasPart) => if idx < n && hasPart then None else FirstRaw(kinds[1..], idx + 1, n)
      case Connection(_) => FirstRaw(kinds[1..], idx, n)
      case Other => FirstRaw(kinds[1..], idx, n)
  }

  lemma {:induction false} FirstEntryPort(kinds: seq<Kind>, addr: string, base: nat, n: nat, idx: nat,
      m: nat, topC: string, lastC: string)
    requires 0 < base && MediaCount(kinds) > 0
    ensures var r := Extract(RewriteKinds(kinds, addr, Ports(base, n), idx), m, topC, lastC);
      |r| > 0 && match FirstRaw(kinds, idx, n)
        case Some(p) => r[0].port == p
        case None => exists i :: idx <= i < n && r[0].port == RelayPort(base, i)
  {
    match kinds[0]
    case Connection(_) =>
      FirstEntryPort(kinds[1..], addr, base, n, idx, m, if m == 0 then addr else topC, addr);
    case Other =>
      FirstEntryPort(kinds[1..], addr, base, n, idx, m, topC, lastC);
    case Media(_, _) =>
      if idx < n { assert PortFor(Ports(base, n), idx) == RelayPort(base, idx); }
    case NoPort(_, hasPart) =>
      if idx < n && hasPart {
        assert PortFor(Ports(base, n), idx) == RelayPort(base, idx);
      } else {
        FirstEntryPort(kinds[1..], addr, base, n, idx + 1, m, topC, lastC);
      }
  }

  lemma {:induction false} CountGrows(kinds: seq<Kind>, addr: string, relays: map<int, int>, idx: nat)
    ensures MediaCount(RewriteKinds(kinds, addr, relays, idx)) >= MediaCount(kinds)
  {
    if kinds != [] {
      CountGrows(kinds[1..], addr, relays, if kinds[0].IsMLine() then idx + 1 else idx);
    }
  }

  /** The ports come out as relay ports idx, idx + 1, ... and there are as many as before. */
  ghost predicate PortsAgree(kinds: seq<Kind>, addr: string, relays: map<int, int>, idx: nat,
      m: nat, topC: string, lastC: string)
  {
    var r := Extract(RewriteKinds(kinds, addr, relays, idx), m, topC, lastC);
    |r| == MediaCount(kinds) && PortsFrom(r, relays, idx)
  }

  ghost predicate PortsFrom(r: seq<MediaEntry>, relays: map<int, int>, idx: nat) {
    forall k :: 0 <= k < |r| ==> r[k].port == PortFor(relays, idx + k)
  }

  /** A port-less m= line before an entry adds or shifts an entry under one of two relay maps. */
  lemma {:induction false} Misaligned(kinds: seq<Kind>, addr: string, idx: nat, n: nat, m: nat,
      topC: string, lastC: string)
    requires !Aligned(kinds) && n == idx + MediaCount(kinds)
    ensures !PortsAgree(kinds, addr, Ports(1, n), idx, m, topC, lastC)
      || !PortsAgree(kinds, addr, Ports(2, n), idx, m, topC, lastC)
  {
    var k := kinds[0];
    var rest := kinds[1..];
    if k.NoPort? && MediaCount(rest) > 0 {
      if k.hasPart {
        CountGrows(rest, addr, Ports(1, n), idx + 1);
        ExtractCount(RewriteKinds(kinds, addr, Ports(1, n), idx), m, topC, lastC);
        assert PortFor(Ports(1, n), idx) > 0;
      } else {
        SkippedEntry(kinds, addr, 1, n, idx, m, topC, lastC);
        SkippedEntry(kinds, addr, 2, n, idx, m, topC, lastC);
      }
    } else {
      TailMisaligned(kinds);
      if k.NoPort? {
        NoMedia(rest);
      } else {
        var (t, c) := NextState(k, addr, m, topC, lastC);
        Misaligned(rest, addr, if k.Media? then idx + 1 else idx, n, if k.Media? then m + 1 else m, t, c);
        TailAgrees(kinds, addr, Ports(1, n), idx, m, topC, lastC);
        TailAgrees(kinds, addr, Ports(2, n), idx, m, topC, lastC);
      }
    }
  }

  lemma TailMisaligned(kinds: seq<Kind>)
    requires !Aligned(kinds)
    ensures kinds != []
    ensures !Aligned(kinds[1..]) || (kinds[0].NoPort? && MediaCount(kinds[1..]) > 0)
  {
    var i, j :| 0 <= i < j < |kinds| && kinds[i].NoPort? && kinds[j].Media?;
    var rest := kinds[1..];
    assert rest[j - 1] == kinds[j];
    if i > 0 {
      assert rest[i - 1] == kinds[i];
    } else {
      NoMedia(rest);
    }
  }

  /** The addresses the extractor carries past a rewritten line. */
  function NextState(k: Kind, addr: string, m: nat, topC: string, lastC: string): (string, string) {
    match k
    case Connection(_) => (if m == 0 then addr else topC, addr)
    case Media(_, _) => (topC, "")
    case NoPort(_, _) => (topC, lastC)
    case Other => (topC, lastC)
  }

  lemma TailAgrees(kinds: seq<Kind>, addr: string, relays: map<int, int>, idx: nat, m: nat,
      topC: string, lastC: string)
    requires kinds != [] && !kinds[0].NoPort?
    ensures var k := kinds[0]; var (t, c) := NextState(k, addr, m, topC, lastC);
      PortsAgree(kinds, addr, relays, idx, m, topC, lastC) ==>
      PortsAgree(kinds[1..], addr, relays, if k.Media? then idx + 1 else idx, if k.Media? then m + 1 else m, t, c)
  {
    var k := kinds[0];
    if k.Media? && PortsAgree(kinds, addr, relays, idx, m, topC, lastC) {
      var r := Extract(RewriteKinds(kinds, addr, relays, idx), m, topC, lastC);
      var tail := Extract(RewriteKinds(kinds[1..], addr, relays, idx + 1), m + 1, topC, "");
      assert r == [r[0]] + tail;
      forall i | 0 <= i < |tail| ensures tail[i].port == PortFor(relays, idx + 1 + i) {
        assert tail[i] == r[i + 1] && idx + 1 + i == idx + (i + 1);
      }
      assert PortsFrom(tail, relays, idx + 1);
    }
  }

  lemma SkippedEntry(kinds: seq<Kind>, addr: string, base: nat, n: nat, idx: nat, m: nat,
      topC: string, lastC: string)
    requires kinds != [] && kinds[0].NoPort? && !kinds[0].hasPart
    requires MediaCount(kinds[1..]) > 0 && 0 < base && idx < n
    ensures PortsAgree(kinds, addr, Ports(base, n), idx, m, topC, lastC)
      ==> FirstRaw(kinds[1..], idx + 1, n) == Some(base + idx)
  {
    FirstEntryPort(kinds[1..], addr, base, n, idx + 1, m, topC, lastC);
    assert PortFor(Ports(base, n), idx) == RelayPort(base, idx);
  }

  // ---------------------------------------------------------------- the exact condition

  /** Extraction of the rewritten body finds the original media types, the relay ports and the
      public address wherever an entry had one. */
  ghost predicate Agrees(body: string, addr: string, relays: map<int, int>) {
    EntriesAgree(false, addr, relays, 0, ExtractBody(body), ExtractBody(RewriteBody(body, addr, relays)))
  }

  /** Even relay maps with a port of its own for every entry make a misaligned body disagree. */
  lemma BodyMisaligned(body: string, addr: string, n: nat)
    requires Free(addr, CRLF) && n + 2 <= MAX_INT && !Aligned(Kinds(Split(body, CRLF)))
    requires n == |ExtractBody(body)|
    ensures exists relays :: Covering(relays, n) && DistinctRelays(relays) && !Agrees(body, addr, relays)
  {
    hide RewriteBody, RewriteKinds, Extract, Kinds;
    var kinds := Kinds(Split(body, CRLF));
    EmptyLine();
    ExtractCount(kinds, 0, "", "");
    assert Covering(Ports(1, n), n) && Covering(Ports(2, n), n);
    assert DistinctRelays(Ports(1, n)) && DistinctRelays(Ports(2, n));
    Misaligned(kinds, addr, 0, n, 0, "", "");
    ExtractRewrittenBody(body, addr, Ports(1, n));
    ExtractRewrittenBody(body, addr, Ports(2, n));
    if Agrees(body, addr, Ports(1, n)) { ToldCovered(body, addr, Ports(1, n), n); }
    if Agrees(body, addr, Ports(2, n)) { ToldCovered(body, addr, Ports(2, n), n); }
    assert Agrees(body, addr, Ports(1, n)) ==> PortsAgree(kinds, addr, Ports(1, n), 0, 0, "", "");
    assert Agrees(body, addr, Ports(2, n)) ==> PortsAgree(kinds, addr, Ports(2, n), 0, 0, "", "");
  }

  lemma ToldCovered(body: string, addr: string, relays: map<int, int>, n: nat)
    requires Covering(relays, n) && n == |ExtractBody(body)| && Agrees(body, addr, relays)
    ensures PortsFrom(ExtractBody(RewriteBody(body, addr, relays)), relays, 0)
  {
    hide ExtractBody, RewriteBody;
  }

  /** Extraction and rewriting agree, for every relay map, exactly when no m= line without an integer
      port precedes one that has a port; whether all entries got a relay or only some. */
  lemma AgreesIffAligned(body: string, addr: string)
    requires Free(addr, CRLF) && |ExtractBody(body)| + 2 <= MAX_INT
    ensures Aligned(Kinds(Split(body, CRLF))) <==>
      forall relays :: RelaysFor(relays, |ExtractBody(body)|) ==> Agrees(body, addr, relays)
    ensures Aligned(Kinds(Split(body, CRLF))) <==>
      forall relays :: Covering(relays, |ExtractBody(body)|) ==> Agrees(body, addr, relays)
  {
    hide RewriteBody, Kinds, Aligned;
    var n := |ExtractBody(body)|;
    if Aligned(Kinds(Split(body, CRLF))) {
      forall relays | RelaysFor(relays, n) ensures Agrees(body, addr, relays) {
        RewriteAgrees(body, addr, relays);
      }
    } else {
      BodyMisaligned(body, addr, n);
    }
  }
}
