/** Framing SIP over TCP (internal/app/protocol/sip/sip.go, section 18.3 of RFC 3261):
    a message is its head, up to a blank line, and as many bytes as Content-Length declares. */
module SipStream {
  import opened Text
  import opened SipMessage

  const MAX_HEADER_BYTES: nat := 64 * 1024
  const CONTENT_LENGTH: string := "content-length:"

  datatype ReadError = HeaderTooLong | UnexpectedEof

  /** rest is what is left on the stream, also when no message could be read. */
  datatype ReadResult = Chunk(msg: string, rest: string) | Failed(error: ReadError, rest: string)

  predicate IsContentLength(line: string) {
    HasPrefix(Lower(line), CONTENT_LENGTH)
  }

  /** The positive length a line declares, 0 when it declares none. */
  function DeclaredLength(line: string): nat {
    if !IsContentLength(line) then 0
    else match Atoi(TrimSpace(line[|CONTENT_LENGTH|..]))
      case None => 0
      case Some(n) => if n > 0 then n else 0
  }

  function UpdateLength(cl: nat, line: string): nat {
    if DeclaredLength(line) > 0 then DeclaredLength(line) else cl
  }

  /** strings.TrimRight(line, "\r\n") == "" */
  predicate BlankLine(line: string) {
    forall k :: 0 <= k < |line| ==> line[k] == '\r' || line[k] == '\n'
  }

  /** Where the line that starts at pos ends, its '\n' included. */
  function LineEnd(s: string, pos: nat): (e: nat)
    requires pos < |s|
    ensures pos < e <= |s|
  {
    var i := Index(s[pos..], "\n");
    if i < 0 then |s| else pos + i + 1
  }

  datatype Scanned = Head(end: nat, length: nat) | NoHead(error: ReadError, end: nat)

  function Scan(s: string, pos: nat, cl: nat): (r: Scanned)
    requires pos <= |s|
    ensures r.end <= |s| && (r.Head? ==> pos < r.end)
    decreases |s| - pos
  {
    if pos == |s| then NoHead(UnexpectedEof, pos)
    else
      var e := LineEnd(s, pos);
      var line := s[pos..e];
      if e > MAX_HEADER_BYTES then NoHead(HeaderTooLong, e)
      else if BlankLine(line) then Head(e, UpdateLength(cl, line))
      else Scan(s, e, UpdateLength(cl, line))
  }

  function ReadMessage(s: string): (r: ReadResult)
    ensures r.Chunk? ==> r.msg + r.rest == s && r.msg != ""
  {
    match Scan(s, 0, 0)
    case NoHead(error, end) => Failed(error, s[end..])
    case Head(end, length) =>
      if end + length <= |s| then
        assert s[..end + length] + s[end + length..] == s;
        Chunk(s[..end + length], s[end + length..])
      else Failed(UnexpectedEof, "")
  }

  /** Every message read before the stream ends or fails. */
  function Chunks(s: string): seq<string>
    decreases |s|
  {
    match ReadMessage(s)
    case Failed(_, _) => []
    case Chunk(msg, rest) =>
      assert |s| == |msg| + |rest|;
      [msg] + Chunks(rest)
  }

  function Concat(cs: seq<string>): string {
    if cs == [] then "" else cs[0] + Concat(cs[1..])
  }

  // ---------------------------------------------------------------- the reader as the program runs it

  /** bufio.Reader over a stream that will deliver `data`. */
  class BufReader {
    const data: string
    var pos: nat

    ghost predicate Valid() reads this { pos <= |data| }

    ghost function Rest(): string
      requires Valid()
      reads this
    {
      data[pos..]
    }

    constructor (data: string)
      ensures Valid() && Rest() == data
    {
      this.data := data;
      pos := 0;
    }

    /** ReadString('\n'): the next line, or what is left when no newline follows. */
    method ReadLine() returns (line: string, eof: bool)
      requires Valid()
      modifies this
      ensures Valid() && old(pos) <= pos && line == data[old(pos)..pos]
      ensures eof ==> pos == |data|
      ensures !eof ==> line != ""
      ensures old(pos) < |data| ==> pos == LineEnd(data, old(pos))
    {
      var i := Index(data[pos..], "\n");
      eof := i < 0;
      var e := if eof then |data| else pos + i + 1;
      line := data[pos..e];
      pos := e;
    }

    /** io.ReadFull of n bytes. */
    method ReadFull(n: nat) returns (body: string, ok: bool)
      requires Valid()
      modifies this
      ensures Valid() && ok == (old(pos) + n <= |data|)
      ensures ok ==> pos == old(pos) + n && body == data[old(pos)..pos]
      ensures !ok ==> pos == |data|
    {
      ok := pos + n <= |data|;
      var e := if ok then pos + n else |data|;
      body := data[pos..e];
      pos := e;
    }
  }

  lemma LineEndShift(data: string, start: nat, n: nat)
    requires start + n < |data|
    ensures LineEnd(data, start + n) == start + LineEnd(data[start..], n)
    ensures data[start + n..LineEnd(data, start + n)] == data[start..][n..LineEnd(data[start..], n)]
  {
    assert data[start..][n..] == data[start + n..];
    var e := LineEnd(data[start..], n);
    assert data[start..] == data[start..|data|];
    SliceSlice(data, start, |data|, n, e);
  }

  /** What one line contributes to the scan. */
  lemma ScanLine(s: string, n: nat, cl: nat, line: string)
    requires n < |s| && line == s[n..LineEnd(s, n)]
    ensures line != "" && n + |line| == LineEnd(s, n)
    ensures Scan(s, n, cl) ==
      if n + |line| > MAX_HEADER_BYTES then NoHead(HeaderTooLong, n + |line|)
      else if BlankLine(line) then Head(n + |line|, UpdateLength(cl, line))
      else Scan(s, n + |line|, UpdateLength(cl, line))
  {
    hide LineEnd, BlankLine, UpdateLength;
  }

  /** Reads lines into buf until the blank line that ends the head. */
  method ReadHead(br: BufReader) returns (buf: string, head: Scanned)
    requires br.Valid()
    modifies br
    ensures br.Valid() && head == Scan(old(br.Rest()), 0, 0)
    ensures br.pos == old(br.pos) + head.end
    ensures head.Head? ==> buf == old(br.Rest())[..head.end]
  {
    hide DeclaredLength, UpdateLength, BlankLine, LineEnd;
    ghost var s := br.Rest();
    ghost var start := br.pos;
    buf := "";
    var contentLength: nat := 0;
    var headerBytes: nat := 0;
    while true
      invariant br.Valid() && start + headerBytes == br.pos
      invariant headerBytes <= |s| && buf == s[..headerBytes]
      invariant Scan(s, 0, 0) == Scan(s, headerBytes, contentLength)
      decreases |s| - headerBytes
    {
      var line, eof := br.ReadLine();
      if |line| > 0 {
        LineEndShift(br.data, start, headerBytes);
        ScanLine(s, headerBytes, contentLength, line);
        headerBytes := headerBytes + |line|;
        buf := buf + line;
        if headerBytes > MAX_HEADER_BYTES {
          return buf, NoHead(HeaderTooLong, headerBytes);
        }
        contentLength := UpdateLength(contentLength, line);
        if BlankLine(line) {
          return buf, Head(headerBytes, contentLength);
        }
      }
      if eof {
        return buf, NoHead(UnexpectedEof, headerBytes);
      }
    }
  }

  /** ReadMessageFromStream returns the next framed message and leaves the reader right behind it. */
  method ReadMessageFromStream(br: BufReader) returns (msg: Option<string>, error: ReadError)
    requires br.Valid()
    modifies br
    ensures br.Valid()
    ensures match ReadMessage(old(br.Rest()))
      case Chunk(m, rest) => msg == Some(m) && br.Rest() == rest
      case Failed(e, rest) => msg == None && error == e && br.Rest() == rest
  {
    hide Scan;
    ghost var s, start := br.Rest(), br.pos;
    var buf, head := ReadHead(br);
    error := UnexpectedEof;
    match head
    case NoHead(e, _) =>
      return None, e;
    case Head(end, contentLength) =>
      if contentLength > 0 {
        var body, ok := br.ReadFull(contentLength);
        if !ok {
          return None, UnexpectedEof;
        }
        SliceSlice(br.data, start, |br.data|, end, end + contentLength);
        assert br.data[start..|br.data|] == s;
        assert s[..end] + s[end..end + contentLength] == s[..end + contentLength];
        buf := buf + body;
      }
      msg := Some(buf);
  }

  // ---------------------------------------------------------------- framing

  /** Whatever follows c on the stream, the reader returns c and stops right behind it. */
  ghost predicate Framed(c: string) {
    forall t: string :: ReadMessage(c + t) == Chunk(c, t)
  }

  lemma OccursNewline(s: string, pos: nat, k: nat)
    requires pos + k < |s|
    ensures Occurs(s[pos..], "\n", k) <==> s[pos + k] == '\n'
  {
    assert s[pos..][k..k + 1] == [s[pos + k]];
  }

  /** A line ends at the first newline, or at the end of the stream. */
  lemma LineEndSpec(s: string, pos: nat)
    requires pos < |s|
    ensures var e := LineEnd(s, pos);
      (forall k :: pos <= k < e - 1 ==> s[k] != '\n') && (s[e - 1] == '\n' || e == |s|)
  {
    var t := s[pos..];
    var i := Index(t, "\n");
    IndexFirst(t, "\n");
    var e := LineEnd(s, pos);
    if i >= 0 { OccursNewline(s, pos, i); }
    forall k | pos <= k < e - 1 ensures s[k] != '\n' { OccursNewline(s, pos, k - pos); }
  }

  lemma LineEndLocal(s: string, u: string, pos: nat)
    requires pos < |s| && s[LineEnd(s, pos) - 1] == '\n'
    requires LineEnd(s, pos) <= |u| && u[..LineEnd(s, pos)] == s[..LineEnd(s, pos)]
    ensures LineEnd(u, pos) == LineEnd(s, pos)
  {
    var e := LineEnd(s, pos);
    LineEndSpec(s, pos);
    LineEndSpec(u, pos);
    assert forall k :: 0 <= k < e ==> u[k] == u[..e][k] == s[..e][k] == s[k];
  }

  lemma {:induction false} ScanLocal(s: string, u: string, pos: nat, cl: nat)
    requires pos <= |s| && Scan(s, pos, cl).Head?
    requires var e := Scan(s, pos, cl).end; s[e - 1] == '\n' && e <= |u| && u[..e] == s[..e]
    ensures pos <= |u| && Scan(u, pos, cl) == Scan(s, pos, cl)
    decreases |s| - pos
  {
    hide DeclaredLength, UpdateLength;
    var end := Scan(s, pos, cl).end;
    var e := LineEnd(s, pos);
    var line := s[pos..e];
    assert e <= end;
    assert u[..e] == u[..end][..e] == s[..end][..e] == s[..e];
    LineEndSpec(s, pos);
    LineEndLocal(s, u, pos);
    assert u[pos..e] == u[..e][pos..] == line;
    if !BlankLine(line) {
      ScanLocal(s, u, e, UpdateLength(cl, line));
    }
  }

  /** A head that is followed by anything at all ends in a newline. */
  lemma {:induction false} HeadTerminated(s: string, pos: nat, cl: nat)
    requires pos <= |s| && Scan(s, pos, cl).Head?
    ensures var e := Scan(s, pos, cl).end; e == |s| || s[e - 1] == '\n'
    decreases |s| - pos
  {
    hide DeclaredLength, UpdateLength;
    var e := LineEnd(s, pos);
    LineEndSpec(s, pos);
    if !BlankLine(s[pos..e]) {
      HeadTerminated(s, e, UpdateLength(cl, s[pos..e]));
    }
  }

  /** A message that was read out of a stream is framed, unless it is the very last one and its
      head was cut short at a bare carriage return. */
  lemma ReadIsFramed(s: string)
    requires ReadMessage(s).Chunk?
    ensures var c := ReadMessage(s).msg; var e := Scan(s, 0, 0).end;
      && ReadMessage(c) == Chunk(c, "")
      && (ReadMessage(s).rest != "" ==> Framed(c))
      && (s[e - 1] == '\n' ==> Framed(c))
  {
    hide Scan;
    var head := Scan(s, 0, 0);
    var c := ReadMessage(s).msg;
    HeadTerminated(s, 0, 0);
    if s[head.end - 1] == '\n' {
      forall t: string ensures ReadMessage(c + t) == Chunk(c, t) { ReadAgain(s, t); }
      hide ReadMessage;
      assert c + "" == c;
    } else {
      assert c == s;
    }
  }

  /** A message whose head ends in a newline is read again before any other bytes. */
  lemma ReadAgain(s: string, t: string)
    requires ReadMessage(s).Chunk? && s[Scan(s, 0, 0).end - 1] == '\n'
    ensures var c := ReadMessage(s).msg; ReadMessage(c + t) == Chunk(c, t)
  {
    hide Scan;
    var head := Scan(s, 0, 0);
    var n := head.end + head.length;
    Behind(s[..n], t);
    var u := s[..n] + t;
    assert u[..head.end] == s[..head.end];
    ScanLocal(s, u, 0, 0);
  }

  /** The chunks of a stream, in order, are exactly what was consumed: nothing is lost or invented. */
  lemma {:induction false} ChunksConserve(s: string)
    ensures exists rest :: s == Concat(Chunks(s)) + rest && ReadMessage(rest).Failed?
    decreases |s|
  {
    hide ReadMessage;
    match ReadMessage(s)
    case Failed(_, _) =>
      assert s == Concat(Chunks(s)) + s;
    case Chunk(msg, rest) =>
      assert |s| == |msg| + |rest|;
      ChunksConserve(rest);
      var tail :| rest == Concat(Chunks(rest)) + tail && ReadMessage(tail).Failed?;
      assert Chunks(s)[1..] == Chunks(rest);
      assert s == Concat(Chunks(s)) + tail;
  }

  /** Every chunk reads back as itself, and all but the last whatever follows. */
  ghost predicate Readable(cs: seq<string>) {
    && (forall i :: 0 <= i < |cs| ==> ReadMessage(cs[i]) == Chunk(cs[i], ""))
    && (forall i :: 0 <= i < |cs| - 1 ==> Framed(cs[i]))
  }

  lemma {:induction false} ChunksReadable(s: string)
    ensures Readable(Chunks(s))
    decreases |s|
  {
    hide Scan;
    match ReadMessage(s)
    case Failed(_, _) =>
    case Chunk(msg, rest) =>
      assert |s| == |msg| + |rest|;
      ChunksReadable(rest);
      ReadIsFramed(s);
      if rest == "" {
        assert Chunks(rest) == [] by { EmptyStream(); }
      }
  }

  lemma EmptyStream()
    ensures ReadMessage("") == Failed(UnexpectedEof, "") && Chunks("") == []
  {
  }

  /** Reading the concatenation of framed messages returns those messages. */
  lemma {:induction false} ChunksOfConcat(cs: seq<string>)
    requires Readable(cs)
    ensures Chunks(Concat(cs)) == cs
  {
    hide Scan;
    EmptyStream();
    if cs != [] {
      var t := Concat(cs[1..]);
      assert Readable(cs[1..]);
      ChunksOfConcat(cs[1..]);
      if |cs| == 1 {
        assert Concat(cs) == cs[0];
      } else {
        assert ReadMessage(cs[0] + t) == Chunk(cs[0], t);
      }
      assert cs == [cs[0]] + cs[1..];
    }
  }

  /** Messages read back from their concatenation exactly when each reads as itself and all but the
      last are framed. */
  lemma ConcatReads(cs: seq<string>)
    ensures Chunks(Concat(cs)) == cs <==> Readable(cs)
  {
    hide ReadMessage, Framed, Chunks, Concat;
    ChunksReadable(Concat(cs));
    if Readable(cs) { ChunksOfConcat(cs); }
  }

  lemma FramedBefore(c: string, t: string)
    requires Framed(c)
    ensures Chunks(c + t) == [c] + Chunks(t)
  {
    hide ReadMessage;
    assert ReadMessage(c + t) == Chunk(c, t);
  }

  /** Framed messages read back whatever follows them. */
  lemma {:induction false} ChunksOfPrefix(cs: seq<string>, tail: string)
    requires forall c :: c in cs ==> Framed(c)
    ensures Chunks(Concat(cs) + tail) == cs + Chunks(tail)
  {
    hide ReadMessage;
    if cs == [] {
      assert Concat(cs) + tail == tail && cs + Chunks(tail) == Chunks(tail);
    } else {
      var t := Concat(cs[1..]) + tail;
      Regroup(cs[0], Concat(cs[1..]), tail);
      FramedBefore(cs[0], t);
      ChunksOfPrefix(cs[1..], tail);
      hide Framed, Concat;
      Regroup([cs[0]], cs[1..], Chunks(tail));
      assert [cs[0]] + cs[1..] == cs;
    }
  }

  // ---------------------------------------------------------------- printed messages

  /** A head line without any bare carriage return or line feed. */
  ghost predicate CleanLine(l: string) {
    l != "" && forall k :: 0 <= k < |l| ==> l[k] != '\r' && l[k] != '\n'
  }

  /** The length the lines leave declared when reading starts from cl: the last positive one. */
  function LastLength(lines: seq<string>, cl: nat): nat {
    if lines == [] then cl else LastLength(lines[1..], UpdateLength(cl, lines[0]))
  }

  lemma TrimBeforeCRLF(v: string)
    ensures TrimSpace(v + CRLF) == TrimSpace(v)
  {
    TrimLeftAppend(v, CRLF);
    TrimRightCRLF(TrimLeft(v));
    assert CRLF[1..] == "\n" && TrimLeft("\n"[1..]) == "";
    assert TrimLeft(CRLF) == TrimLeft("\n") == "";
  }

  lemma TrimRightCRLF(v: string)
    ensures TrimRight(v + CRLF) == TrimRight(v)
  {
    var s := v + CRLF;
    assert s[..|s| - 1] == v + "\r";
    assert (v + "\r")[..|v|] == v;
  }

  lemma {:induction false} TrimLeftAppend(v: string, w: string)
    requires AllSpace(w)
    ensures TrimLeft(v + w) == (if TrimLeft(v) == "" then TrimLeft(w) else TrimLeft(v) + w)
    ensures AllSpace(v) ==> TrimLeft(v) == ""
  {
    if v == "" {
      assert v + w == w;
    } else if IsSpace(v[0]) {
      assert (v + w)[1..] == v[1..] + w;
      TrimLeftAppend(v[1..], w);
    }
  }

  /** The line terminator does not change what a line declares. */
  lemma DeclaredTerminated(l: string)
    ensures DeclaredLength(l + CRLF) == DeclaredLength(l)
  {
    var s := l + CRLF;
    var n := |CONTENT_LENGTH|;
    if |l| >= n {
      assert Lower(s)[..n] == Lower(l)[..n];
      assert s[n..] == l[n..] + CRLF;
      TrimBeforeCRLF(l[n..]);
    } else if |s| >= n {
      assert Lower(s)[|l|] == '\r';
      assert Lower(s)[..n][|l|] == '\r' != CONTENT_LENGTH[|l|];
    }
  }

  lemma CleanLineEnd(s: string, p: string, l: string, rest: string)
    requires s == p + l + CRLF + rest
    requires forall k :: 0 <= k < |l| ==> l[k] != '\r' && l[k] != '\n'
    ensures LineEnd(s, |p|) == |p| + |l| + 2
    ensures s[|p|..|p| + |l| + 2] == l + CRLF
  {
    var e := |p| + |l| + 2;
    LineEndSpec(s, |p|);
    assert forall k :: |p| <= k < e - 2 ==> s[k] == l[k - |p|];
    assert s[e - 2] == '\r' && s[e - 1] == '\n';
  }

  predicate TooLong(r: Scanned) { r.NoHead? && r.error == HeaderTooLong }

  /** One written line of the head: it ends the scan when it is empty, or the head is too long. */
  lemma ScanClean(s: string, n: nat, l: string, cl: nat)
    requires n < |s| && LineEnd(s, n) == n + |l| + 2 && s[n..LineEnd(s, n)] == l + CRLF
    requires l == "" || CleanLine(l)
    ensures var e := n + |l| + 2; var cl' := UpdateLength(cl, l);
      Scan(s, n, cl) ==
        if e > MAX_HEADER_BYTES then NoHead(HeaderTooLong, e) else if l == "" then Head(e, cl') else Scan(s, e, cl')
  {
    BlankTerminated(l);
    DeclaredTerminated(l);
    hide Scan, DeclaredLength, LineEnd, BlankLine, CleanLine;
    ScanLine(s, n, cl, l + CRLF);
  }

  lemma BlankTerminated(l: string)
    requires l == "" || CleanLine(l)
    ensures BlankLine(l + CRLF) <==> l == ""
  {
    if l != "" { assert (l + CRLF)[0] == l[0]; }
  }

  lemma LineOut(p: string, l: string, t: string, rest: string)
    ensures p + (l + CRLF + t) + CRLF + rest == p + l + CRLF + (t + CRLF + rest)
    ensures p + (l + CRLF + t) + CRLF + rest == (p + l + CRLF) + t + CRLF + rest
  {
    Regroup(p, l + CRLF, t);
    Regroup(p, l, CRLF);
    Regroup(p + l + CRLF, t + CRLF, rest);
    Regroup(p + l + CRLF, t, CRLF);
  }

  /** Scanning rendered lines reaches the end of the head with the last declared length. */
  lemma {:induction false} ScanRendered(p: string, lines: seq<string>, cl: nat, rest: string)
    requires forall l :: l in lines ==> CleanLine(l)
    ensures var s := p + Terminated(lines) + CRLF + rest; var e := |p| + |Terminated(lines)| + 2;
      if e > MAX_HEADER_BYTES then TooLong(Scan(s, |p|, cl)) else Scan(s, |p|, cl) == Head(e, LastLength(lines, cl))
    decreases |lines|
  {
    hide Scan, LineEnd;
    var s := p + Terminated(lines) + CRLF + rest;
    if lines == [] {
      assert s == p + "" + CRLF + rest;
      CleanLineEnd(s, p, "", rest);
      ScanClean(s, |p|, "", cl);
      EmptyDeclares();
      hide DeclaredLength;
    } else {
      var l := lines[0];
      assert l in lines;
      assert l != "";
      var q := p + l + CRLF;
      var after := Terminated(lines[1..]) + CRLF + rest;
      LineOut(p, l, Terminated(lines[1..]), rest);
      CleanLineEnd(s, p, l, after);
      hide DeclaredLength, UpdateLength, CleanLine, LineEnd;
      ScanClean(s, |p|, l, cl);
      ScanRendered(q, lines[1..], UpdateLength(cl, l), rest);
    }
  }

  lemma EmptyDeclares()
    ensures DeclaredLength("") == 0
  {
  }

  /** A rendered message is framed exactly when its head fits and the last positive Content-Length
      is the length of its body (0 when there is none). */
  lemma FramedRendered(lines: seq<string>, body: string)
    requires lines != [] && forall l :: l in lines ==> CleanLine(l)
    ensures Framed(Render(lines, body)) <==>
      |Terminated(lines)| + 2 <= MAX_HEADER_BYTES && LastLength(lines, 0) == |body|
    ensures ReadMessage(Render(lines, body)) == Chunk(Render(lines, body), "") ==> Framed(Render(lines, body))
  {
    hide Scan, LastLength;
    var c := Render(lines, body);
    var h := |Terminated(lines)| + 2;
    forall t: string
      ensures if h > MAX_HEADER_BYTES then TooLong(Scan(c + t, 0, 0))
        else Scan(c + t, 0, 0) == Head(h, LastLength(lines, 0))
    {
      ScanRendered("", lines, 0, body + t);
      assert c + t == "" + Terminated(lines) + CRLF + (body + t);
    }
    if h <= MAX_HEADER_BYTES && LastLength(lines, 0) == |body| {
      forall t: string ensures ReadMessage(c + t) == Chunk(c, t) {
        Behind(c, t);
      }
    }
    assert c + "" == c;
    if Framed(c) {
      assert ReadMessage(c + "") == Chunk(c, "");
    }
  }
}
