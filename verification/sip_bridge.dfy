/** pipeSIP: one direction of the bridge between an external SIP connection and the inside
    (internal/app/server/proxy.go:252-318), and what its output stream frames as. */
module SipBridge {
  import opened Text
  import opened SipMessage
  import opened SipStream
  import opened Sdp
  import opened SipRewrite
  import opened SipFraming
  import opened SipObject

  /** The destination connection, which may break once a number of bytes has gone through it: a write
      that does not get past that number leaves off there and fails, and so do all behind it. */
  class Writer {
    const breaksAt: Option<nat>
    var written: string

    ghost predicate Valid()
      reads this
    {
      breaksAt.Some? ==> |written| <= breaksAt.value
    }

    constructor (breaksAt: Option<nat>)
      ensures Valid() && written == "" && this.breaksAt == breaksAt
    {
      this.breaksAt, written := breaksAt, "";
    }

    method Write(data: string) returns (ok: bool)
      requires Valid()
      modifies `written
      ensures Valid() && ok == Takes(breaksAt, old(written), data)
      ensures written == old(written) + Passed(breaksAt, old(written), data)
    {
      ok := Takes(breaksAt, written, data);
      written := written + Passed(breaksAt, written, data);
    }
  }

  /** A connection that breaks at limit, with w behind it, takes all of data. */
  predicate Takes(limit: Option<nat>, w: string, data: string) {
    limit.None? || |w| + |data| < limit.value
  }

  /** What goes through of data. */
  function Passed(limit: Option<nat>, w: string, data: string): string {
    if Takes(limit, w, data) then data
    else if |w| <= limit.value then data[..limit.value - |w|]
    else ""
  }

  /** Keepalives and other white-space-only chunks are dropped. */
  function Keep(cs: seq<string>): seq<string> {
    if cs == [] then [] else (if TrimSpace(cs[0]) == "" then [] else [cs[0]]) + Keep(cs[1..])
  }

  /** A chunk is dropped exactly when it is white space only, whatever stands around it. */
  lemma {:induction false} KeptChunks(a: seq<string>, c: string, b: seq<string>)
    ensures Keep(a + [c] + b) == Keep(a) + (if TrimSpace(c) == "" then [] else [c]) + Keep(b)
  {
    hide TrimSpace;
    var one := if TrimSpace(c) == "" then [] else [c];
    if a == [] {
      assert a + [c] + b == [c] + b && ([c] + b)[1..] == b;
      assert Keep(a) + one == one;
    } else {
      var first := if TrimSpace(a[0]) == "" then [] else [a[0]];
      assert (a + [c] + b)[1..] == a[1..] + [c] + b;
      KeptChunks(a[1..], c, b);
      assert first + (Keep(a[1..]) + one + Keep(b)) == first + Keep(a[1..]) + one + Keep(b);
    }
  }

  /** The settings of one direction of one proxy. */
  datatype Direction = Direction(fromInternal: bool, rewriteSDP: bool, publicAddr: string, routing: string -> string)

  predicate Rewrites(d: Direction, data: string) {
    d.fromInternal && d.rewriteSDP && IsSIP(data)
  }

  ghost predicate KeysListed(h: Headers) {
    forall n :: n in h.order ==> n in h.vals
  }

  /** What may be written for one chunk. */
  ghost predicate Sent(d: Direction, data: string, out: string) {
    if Rewrites(d, data) then
      exists ch :: IsRewriting(d, data, out, ch)
    else out == data
  }

  ghost predicate IsRewriting(d: Direction, data: string, out: string, ch: Choices) {
    var r := Rewrite(Parse(data), d.publicAddr, ch, d.routing);
    ValidChoices(Parse(data), d.publicAddr, ch, d.routing) && KeysListed(r.hdrs) && out == Print(r)
  }

  /** A SIP message on its way out of a proxy that rewrites is written as the print of its rewriting, with
      some header values to choose from; everything else is written as it came. */
  lemma SentMeans(d: Direction, data: string, out: string)
    ensures Sent(d, data, out) <==>
      if d.fromInternal && d.rewriteSDP && IsSIP(data) then
        exists ch, r ::
          && ValidChoices(Parse(data), d.publicAddr, ch, d.routing)
          && r == Rewrite(Parse(data), d.publicAddr, ch, d.routing)
          && KeysListed(r.hdrs) && out == Print(r)
      else out == data
  {
    hide Parse, IsSIP, Print, Rewrite, ValidChoices;
    var m := Parse(data);
    forall ch, r | ValidChoices(m, d.publicAddr, ch, d.routing) && r == Rewrite(m, d.publicAddr, ch, d.routing)
      && KeysListed(r.hdrs) && out == Print(r)
      ensures IsRewriting(d, data, out, ch)
    {
    }
  }

  ghost predicate AllSent(d: Direction, kept: seq<string>, outs: seq<string>) {
    |outs| == |kept| && forall i :: 0 <= i < |kept| ==> Sent(d, kept[i], outs[i])
  }

  // ---------------------------------------------------------------- the program

  /** The message with its SDP and routing headers rewritten, serialised. */
  method RewriteMessage(d: Direction, ghost data: string, msg: Message, relays: map<int, int>)
    returns (out: string, ghost ch: Choices)
    requires msg.Value() == Parse(data) && PortsInRange(relays)
    modifies msg
    ensures IsRewriting(d, data, out, ch) && ch.relays == relays
  {
    ParsePrintable(data);
    hide Parse;
    ghost var m := msg.Value();
    var modified, contentType, contentLength := msg.RewriteSDPWithRelays(d.publicAddr, relays);
    var contact, recordRoute := msg.RewriteRoutingHeaders(d.routing);
    ch := Choices(relays, contentType, contentLength, contact, recordRoute);
    assert msg.Value() == Rewrite(m, d.publicAddr, ch, d.routing);
    ListedAfter(m, d.publicAddr, ch, d.routing);
    out := msg.Bytes();
  }

  lemma ListedAfter(m: Msg, addr: string, ch: Choices, routing: string -> string)
    requires KeysListed(m.hdrs)
    ensures KeysListed(Rewrite(m, addr, ch, routing).hdrs)
  {
  }

  datatype Step = Ended | Dropped | Forwarded(data: string, out: string) | WriteFailed(data: string, out: string)

  /** What one turn does to the source (rest, then rest') and to a destination that breaks at limit (w,
      then w'): a message is written in full and the turn says so exactly when the destination takes it. */
  ghost predicate StepOf(d: Direction, limit: Option<nat>, step: Step, rest: string, rest': string,
                         w: string, w': string) {
    match ReadMessage(rest)
    case Failed(_, left) => step.Ended? && rest' == left && w' == w
    case Chunk(msg, after) =>
      rest' == after &&
      if TrimSpace(msg) == "" then step.Dropped? && w' == w
      else
        && (step.Forwarded? || step.WriteFailed?)
        && step.data == msg && Sent(d, step.data, step.out)
        && (step.Forwarded? <==> Takes(limit, w, step.out))
        && w' == w + Passed(limit, w, step.out)
  }

  /** What a run of the loop leaves on the destination: the outputs for all kept chunks when the run ends
      because the source does, and else those for some, followed by as much of the next as goes through
      before the destination breaks. */
  ghost predicate PipeResult(d: Direction, limit: Option<nat>, kept: seq<string>, outs: seq<string>, cut: string,
      complete: bool, before: string, after: string)
  {
    && |outs| <= |kept| && AllSent(d, kept[..|outs|], outs)
    && (complete ==> |outs| == |kept| && cut == "" && after == before + Concat(outs))
    && (!complete ==> |outs| < |kept| && Sent(d, kept[|outs|], cut))
    && (!complete ==> limit.Some? && |before + Concat(outs)| <= limit.value <= |before + Concat(outs) + cut|)
    && (!complete ==> after == (before + Concat(outs) + cut)[..limit.value])
  }

  /** A destination that takes everything gets an output for every kept chunk, in order. */
  lemma HealthyRun(d: Direction, limit: Option<nat>, kept: seq<string>, outs: seq<string>, cut: string,
                   complete: bool, before: string, after: string)
    requires PipeResult(d, limit, kept, outs, cut, complete, before, after)
    ensures limit == None ==> complete && AllSent(d, kept, outs) && after == before + Concat(outs)
  {
    hide AllSent;
    assert kept[..|kept|] == kept;
  }

  ghost predicate Sofar(d: Direction, limit: Option<nat>, kept: seq<string>, done: seq<string>, outs: seq<string>,
      rest: string, before: string, now: string)
  {
    && kept == done + Keep(Chunks(rest)) && AllSent(d, done, outs) && now == before + Concat(outs)
    && (limit.Some? ==> |now| <= limit.value)
  }

  lemma PipeStep(d: Direction, limit: Option<nat>, step: Step, kept: seq<string>, done: seq<string>,
      outs: seq<string>, rest: string, rest': string, before: string, w: string, w': string)
    requires Sofar(d, limit, kept, done, outs, rest, before, w) && StepOf(d, limit, step, rest, rest', w, w')
    ensures step.Ended? ==> PipeResult(d, limit, kept, outs, "", true, before, w')
    ensures step.WriteFailed? ==> PipeResult(d, limit, kept, outs, step.out, false, before, w')
    ensures step.Dropped? ==> Sofar(d, limit, kept, done, outs, rest', before, w') && |rest'| < |rest|
    ensures step.Forwarded? ==>
      Sofar(d, limit, kept, done + [step.data], outs + [step.out], rest', before, w') && |rest'| < |rest|
  {
    hide ReadMessage, Sent, Chunks, Keep, TrimSpace, Concat, AllSent;
    match step
    case Ended =>
      ChunkEnd(rest);
      PipeEnds(d, limit, kept, done, outs, before, w');
    case WriteFailed(data, out) =>
      ChunkStep(rest);
      PipeCut(d, limit, kept, done, outs, data, out, before, w, w');
    case Dropped =>
      ChunkStep(rest);
    case Forwarded(data, out) =>
      ChunkStep(rest);
      ConcatAppend(outs, out);
      AllSentAppend(d, done, outs, data, out);
  }

  lemma AllSentAppend(d: Direction, kept: seq<string>, outs: seq<string>, data: string, out: string)
    requires AllSent(d, kept, outs) && Sent(d, data, out)
    ensures AllSent(d, kept + [data], outs + [out])
  {
    hide Sent;
  }

  lemma PipeEnds(d: Direction, limit: Option<nat>, kept: seq<string>, done: seq<string>, outs: seq<string>,
      before: string, after: string)
    requires AllSent(d, done, outs) && done == kept && after == before + Concat(outs)
    ensures PipeResult(d, limit, kept, outs, "", true, before, after)
  {
    hide Sent, Concat;
    assert |done| == |outs| && kept[..|outs|] == done;
  }

  lemma PipeCut(d: Direction, limit: Option<nat>, kept: seq<string>, done: seq<string>, outs: seq<string>,
      data: string, out: string, before: string, w: string, after: string)
    requires AllSent(d, done, outs) && Sent(d, data, out) && done + [data] <= kept
    requires w == before + Concat(outs) && limit.Some? && |w| <= limit.value && !Takes(limit, w, out)
    requires after == w + Passed(limit, w, out)
    ensures PipeResult(d, limit, kept, outs, out, false, before, after)
  {
    hide Sent, Concat;
    assert kept[..|outs|] == done && kept[|outs|] == (done + [data])[|outs|];
    assert (w + out)[..limit.value] == w + out[..limit.value - |w|];
  }

  lemma PassedOn(d: Direction, data: string)
    requires !d.fromInternal
    ensures Sent(d, data, data)
  {
  }

  lemma ChunkStep(s: string)
    requires ReadMessage(s).Chunk?
    ensures var r := ReadMessage(s);
      |r.rest| < |s| && Chunks(s) == [r.msg] + Chunks(r.rest)
      && Keep(Chunks(s)) == (if TrimSpace(r.msg) == "" then [] else [r.msg]) + Keep(Chunks(r.rest))
  {
    hide Scan, TrimSpace;
    assert |s| == |ReadMessage(s).msg| + |ReadMessage(s).rest|;
  }

  lemma ChunkEnd(s: string)
    requires ReadMessage(s).Failed?
    ensures Keep(Chunks(s)) == []
  {
    hide ReadMessage;
  }

  lemma {:induction false} ConcatAppend(cs: seq<string>, c: string)
    ensures Concat(cs + [c]) == Concat(cs) + c
  {
    if cs == [] {
      assert Concat([c]) == c + Concat([c][1..]);
    } else {
      ConcatAppend(cs[1..], c);
      assert (cs + [c])[1..] == cs[1..] + [c];
    }
  }

  // ---------------------------------------------------------------- what the other side reads

  lemma {:induction false} KeepReadable(cs: seq<string>)
    requires Readable(cs)
    ensures Readable(Keep(cs))
    ensures forall c :: c in Keep(cs) ==> c in cs
  {
    hide ReadMessage, TrimSpace, Framed;
    if cs != [] {
      var rest := cs[1..];
      assert Readable(rest);
      KeepReadable(rest);
      if Keep(rest) != [] {
        assert Keep(rest)[0] in rest;
      }
    }
  }

  /** Outside to inside, for every byte stream: what is written is what was consumed without the
      white-space-only chunks, and it frames as exactly the remaining chunks. */
  lemma ForwardedStream(d: Direction, s: string, outs: seq<string>)
    requires !d.fromInternal && AllSent(d, Keep(Chunks(s)), outs)
    ensures outs == Keep(Chunks(s)) && Chunks(Concat(outs)) == outs
  {
    hide ReadMessage, Keep;
    ChunksReadable(s);
    KeepReadable(Chunks(s));
    assert forall i :: 0 <= i < |outs| ==> Sent(d, Keep(Chunks(s))[i], outs[i]);
    ChunksOfConcat(outs);
  }

  /** A chunk with clean head lines and at most one, well-placed, Content-Length in any letter case. */
  ghost predicate WellSpelt(c: string) {
    exists lines, body :: CleanChunk(c, lines, body) && OneLength(lines[1..])
  }

  /** The first line of a clean SIP chunk is not a length, so the chunk's length is that of its headers. */
  lemma WellSpeltFits(c: string)
    requires WellSpelt(c) && IsSIP(c) && ReadMessage(c) == Chunk(c, "")
    ensures CleanMsg(Parse(c)) && LengthFits(Parse(c))
  {
    hide NamesLength, DeclaredLength, LengthFits, Scan, CleanMsg, IsSIP;
    var lines, body :| CleanChunk(c, lines, body) && OneLength(lines[1..]);
    ParseClean(lines, body);
    ParsedLength(lines[1..]);
    ReadLength(lines, body);
    FirstLineLength(lines, body);
    FitsFromHeaders(Parse(c), LastLength(lines[1..], 0));
  }

  lemma FitsFromHeaders(m: Msg, n: nat)
    requires n == |m.body|
    requires if exists name, v :: OnlyLength(m.hdrs, name, v) && PositiveValue(v) == n
      then exists name, v :: OnlyLength(m.hdrs, name, v) && PositiveValue(v) == n
      else NoLength(m.hdrs) && n == 0
    ensures LengthFits(m)
  {
    hide PositiveValue, IsLengthName;
  }

  lemma ReadLength(lines: seq<string>, body: string)
    requires lines != [] && forall l :: l in lines ==> CleanLine(l)
    requires ReadMessage(Render(lines, body)) == Chunk(Render(lines, body), "")
    ensures LastLength(lines, 0) == |body|
  {
    hide Scan, LastLength, Terminated, CleanLine;
    ScanRendered("", lines, 0, body);
    assert "" + Terminated(lines) == Terminated(lines);
  }

  lemma FirstLineLength(lines: seq<string>, body: string)
    requires lines != [] && CleanLine(lines[0]) && IsSIP(Render(lines, body))
    ensures LastLength(lines, 0) == LastLength(lines[1..], 0)
  {
    hide DeclaredLength, IsContentLength;
    var p := MethodOf(Render(lines, body));
    RenderStart(lines, body);
    NotLength(lines[0]);
    NotDeclared(lines[0]);
  }

  // ---------------------------------------------------------------- exactly when the outputs read back

  /** out is what is written for data when ch is picked. */
  ghost predicate Output(d: Direction, data: string, out: string, ch: Choices) {
    if Rewrites(d, data) then IsRewriting(d, data, out, ch) else out == data
  }

  ghost predicate Outputs(d: Direction, kept: seq<string>, outs: seq<string>, chs: seq<Choices>) {
    |outs| == |kept| == |chs| && forall i :: 0 <= i < |kept| ==> Output(d, kept[i], outs[i], chs[i])
  }

  /** Whatever was written was written for some choices. */
  lemma {:induction false} ChoicesMade(d: Direction, kept: seq<string>, outs: seq<string>) returns (chs: seq<Choices>)
    requires AllSent(d, kept, outs)
    ensures Outputs(d, kept, outs, chs)
  {
    hide Rewrites, IsRewriting;
    chs := [];
    if kept != [] {
      var n := |kept| - 1;
      assert Sent(d, kept[n], outs[n]);
      var last := Choices(map[], "", "", "", "");
      if Rewrites(d, kept[n]) { last :| IsRewriting(d, kept[n], outs[n], last); }
      chs := ChoicesMade(d, kept[..n], outs[..n]);
      chs := chs + [last];
    }
  }

  /** No bare CR or LF in the head. */
  ghost predicate Clean(c: string) {
    exists lines, body :: CleanChunk(c, lines, body)
  }

  lemma CleanParses(c: string)
    requires Clean(c) && IsSIP(c)
    ensures CleanMsg(Parse(c))
  {
    hide IsSIP, CleanMsg;
    var lines, body :| CleanChunk(c, lines, body);
    ParseClean(lines, body);
  }

  /** The head of a rewritten message fits and its length is right. */
  ghost predicate OutputFits(d: Direction, data: string, out: string, ch: Choices) {
    CleanMsg(Parse(data)) && |HeadOf(out)| + 4 <= MAX_HEADER_BYTES && LengthRight(Parse(data), d.publicAddr, ch)
  }

  /** A rewritten message reads back, alone or before anything else, exactly when it fits. */
  lemma RewritingReads(d: Direction, data: string, out: string, ch: Choices)
    requires Rewrites(d, data) && IsRewriting(d, data, out, ch) && CleanRouting(d.routing)
    requires Clean(data) && |out| <= MAX_INT
    ensures Framed(out) <==> OutputFits(d, data, out, ch)
    ensures ReadMessage(out) == Chunk(out, "") <==> OutputFits(d, data, out, ch)
  {
    hide ReadMessage, Framed, Clean, CleanMsg, LengthRight, HeadOf, ValidChoices;
    var m := Parse(data);
    CleanParses(data);
    BodyBound(m, d.publicAddr, ch, d.routing, out);
    RewrittenFramedExactly(m, d.publicAddr, ch, d.routing);
    if Framed(out) { FramedAlone(out); }
  }

  /** The chunks a direction rewrites have clean heads, and no output is longer than a Go slice. */
  ghost predicate Bridgeable(d: Direction, kept: seq<string>, outs: seq<string>) {
    CleanRouting(d.routing) && |outs| == |kept|
    && forall i :: 0 <= i < |kept| && Rewrites(d, kept[i]) ==> Clean(kept[i]) && |outs[i]| <= MAX_INT
  }

  ghost predicate AllFit(d: Direction, kept: seq<string>, outs: seq<string>, chs: seq<Choices>)
    requires |outs| == |kept| == |chs|
  {
    forall i :: 0 <= i < |kept| && Rewrites(d, kept[i]) ==> OutputFits(d, kept[i], outs[i], chs[i])
  }

  lemma OutputsReadable(d: Direction, kept: seq<string>, outs: seq<string>, chs: seq<Choices>)
    requires Readable(kept) && Outputs(d, kept, outs, chs) && Bridgeable(d, kept, outs)
    ensures Readable(outs) <==> AllFit(d, kept, outs, chs)
  {
    hide ReadMessage, Framed, Rewrites, Clean, OutputFits, IsRewriting, CleanRouting;
    forall i | 0 <= i < |kept| && Rewrites(d, kept[i])
      ensures (Framed(outs[i]) <==> OutputFits(d, kept[i], outs[i], chs[i]))
        && (ReadMessage(outs[i]) == Chunk(outs[i], "") <==> OutputFits(d, kept[i], outs[i], chs[i]))
    {
      assert Output(d, kept[i], outs[i], chs[i]);
      RewritingReads(d, kept[i], outs[i], chs[i]);
    }
    assert forall i :: 0 <= i < |kept| && !Rewrites(d, kept[i]) ==>
      Output(d, kept[i], outs[i], chs[i]) && outs[i] == kept[i];
  }

  /** What is written reads back as exactly the messages written, if and only if every rewritten message
      has a head within the reader's limit and the right length, for whatever relays and header values
      were picked. */
  lemma BridgedStream(d: Direction, s: string, outs: seq<string>, chs: seq<Choices>)
    requires Outputs(d, Keep(Chunks(s)), outs, chs) && Bridgeable(d, Keep(Chunks(s)), outs)
    ensures Chunks(Concat(outs)) == outs <==> AllFit(d, Keep(Chunks(s)), outs, chs)
  {
    hide ReadMessage, Keep, Chunks, Concat, Outputs, Bridgeable, AllFit, Readable;
    ChunksReadable(s);
    KeepReadable(Chunks(s));
    assert |outs| == |Keep(Chunks(s))| == |chs| by { OutputCount(d, Keep(Chunks(s)), outs, chs); }
    OutputsReadable(d, Keep(Chunks(s)), outs, chs);
    ConcatReads(outs);
  }

  lemma OutputCount(d: Direction, kept: seq<string>, outs: seq<string>, chs: seq<Choices>)
    requires Outputs(d, kept, outs, chs)
    ensures |outs| == |kept| == |chs|
  {
  }

  /** When a write fails, the messages written before it read back, followed by whatever the beginning
      of the next one reads as. */
  lemma CutStream(d: Direction, s: string, outs: seq<string>, chs: seq<Choices>, part: string)
    requires |outs| < |Keep(Chunks(s))|
    requires var done := Keep(Chunks(s))[..|outs|];
      Outputs(d, done, outs, chs) && Bridgeable(d, done, outs) && AllFit(d, done, outs, chs)
    ensures Chunks(Concat(outs) + part) == outs + Chunks(part)
  {
    hide ReadMessage, Keep, Chunks, Concat, Framed, Rewrites, Clean, OutputFits, IsRewriting, CleanRouting;
    var kept := Keep(Chunks(s));
    ChunksReadable(s);
    KeepReadable(Chunks(s));
    forall i | 0 <= i < |outs| ensures Framed(outs[i]) {
      assert kept[..|outs|][i] == kept[i];
      assert Output(d, kept[i], outs[i], chs[i]) && Framed(kept[i]);
      if Rewrites(d, kept[i]) { RewritingReads(d, kept[i], outs[i], chs[i]); }
    }
    ChunksOfPrefix(outs, part);
  }

  // ---------------------------------------------------------------- well-spelt lengths

  ghost predicate HeadFits(out: string) {
    |out| <= MAX_INT && |HeadOf(out)| + 4 <= MAX_HEADER_BYTES
  }

  /** out prints the rewriting of data, and its headers declare the length of its body. */
  ghost predicate LengthOfOutput(d: Direction, data: string, out: string, ch: Choices) {
    var r := Rewrite(Parse(data), d.publicAddr, ch, d.routing);
    IsRewriting(d, data, out, ch) && HeaderLength(r.hdrs, |r.hdrs.order|) == |r.body|
  }

  /** A well-spelt chunk meets the exact condition as soon as its rewritten head fits. */
  lemma WellSpeltOutput(d: Direction, data: string, out: string, ch: Choices)
    requires Rewrites(d, data) && IsRewriting(d, data, out, ch) && CleanRouting(d.routing)
    requires WellSpelt(data) && ReadMessage(data) == Chunk(data, "") && HeadFits(out)
    ensures Clean(data) && OutputFits(d, data, out, ch) && LengthOfOutput(d, data, out, ch)
  {
    hide ReadMessage, Framed, CleanMsg, LengthRight, LengthFits, HeadOf, HeaderLength;
    var m := Parse(data);
    WellSpeltFits(data);
    FitsIsRight(m, d.publicAddr, ch);
    BodyBound(m, d.publicAddr, ch, d.routing, out);
    RewrittenFramedExactly(m, d.publicAddr, ch, d.routing);
  }

  /** One rewritten message is framed and declares the length of its body. */
  lemma SentFramed(d: Direction, data: string, out: string)
    requires Rewrites(d, data) && Sent(d, data, out) && CleanRouting(d.routing)
    requires WellSpelt(data) && ReadMessage(data) == Chunk(data, "") && HeadFits(out)
    ensures Framed(out) && exists ch :: LengthOfOutput(d, data, out, ch)
  {
    hide Rewrites, IsRewriting, WellSpelt, ReadMessage, Framed, Clean, OutputFits, LengthOfOutput, HeadOf;
    var ch :| IsRewriting(d, data, out, ch);
    WellSpeltOutput(d, data, out, ch);
    RewritingReads(d, data, out, ch);
  }

  /** When every SIP chunk on the stream is well spelt and no rewritten head outgrows the reader's
      limit, what is written frames as exactly the rewritten messages, whatever relays and header
      values were picked, and each Content-Length is the length of its body. */
  lemma BridgedWellSpelt(d: Direction, s: string, outs: seq<string>)
    requires AllSent(d, Keep(Chunks(s)), outs)
    requires CleanRouting(d.routing)
    requires forall c :: c in Chunks(s) && Rewrites(d, c) ==> WellSpelt(c)
    requires forall i :: 0 <= i < |outs| && Rewrites(d, Keep(Chunks(s))[i]) ==> HeadFits(outs[i])
    ensures Chunks(Concat(outs)) == outs
    ensures forall i :: 0 <= i < |outs| && Rewrites(d, Keep(Chunks(s))[i]) ==>
      Framed(outs[i]) && exists ch :: LengthOfOutput(d, Keep(Chunks(s))[i], outs[i], ch)
  {
    hide ReadMessage, Keep, Framed, WellSpelt, Rewrites, HeadFits, LengthOfOutput, Sent, Concat, Chunks, Clean;
    hide OutputFits, IsRewriting;
    var kept := Keep(Chunks(s));
    ChunksReadable(s);
    KeepReadable(Chunks(s));
    var chs := ChoicesMade(d, kept, outs);
    forall i | 0 <= i < |outs| && Rewrites(d, kept[i])
      ensures Clean(kept[i]) && |outs[i]| <= MAX_INT && OutputFits(d, kept[i], outs[i], chs[i])
      ensures Framed(outs[i]) && exists ch :: LengthOfOutput(d, kept[i], outs[i], ch)
    {
      assert kept[i] in kept && Output(d, kept[i], outs[i], chs[i]);
      WellSpeltOutput(d, kept[i], outs[i], chs[i]);
      HeadBound(outs[i]);
      SentFramed(d, kept[i], outs[i]);
    }
    BridgedStream(d, s, outs, chs);
  }

  lemma HeadBound(out: string)
    requires HeadFits(out)
    ensures |out| <= MAX_INT
  {
  }

  lemma FramedAlone(c: string)
    requires Framed(c)
    ensures ReadMessage(c) == Chunk(c, "")
  {
    assert c + "" == c;
  }

  lemma BodyBound(m: Msg, addr: string, ch: Choices, routing: string -> string, out: string)
    requires KeysListed(Rewrite(m, addr, ch, routing).hdrs) && out == Print(Rewrite(m, addr, ch, routing))
    ensures |Rewrite(m, addr, ch, routing).body| <= |out|
  {
  }
}
