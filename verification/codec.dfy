/** The framing of control messages (internal/app/common/protocol/codec.go:13-64,
    internal/app/common/consts/consts.go:43). Message bodies are opaque bytes. */
module Codec {

  type byte = x: int | 0 <= x < 256

  const MAX_PACKET: int := 1024 * 1024
  const TWO_32: int := 0x1_0000_0000

  datatype Message = Message(kind: byte, body: seq<byte>)

  /** binary.BigEndian.PutUint32. */
  function PutUint32(n: int): (r: seq<byte>)
    requires 0 <= n < TWO_32
    ensures |r| == 4
    ensures n == r[0] as int * 16_777_216 + r[1] as int * 65_536 + r[2] as int * 256 + r[3] as int
  {
    assert n / 0x100_0000 == n / 0x1_0000 / 256 && n / 0x1_0000 == n / 256 / 256;
    [n / 0x100_0000, n / 0x1_0000 % 256, n / 256 % 256, n % 256]
  }

  function Uint32(b: seq<byte>): (n: int)
    requires |b| == 4
    ensures 0 <= n < TWO_32
  {
    b[0] as int * 0x100_0000 + b[1] as int * 0x1_0000 + b[2] as int * 256 + b[3] as int
  }

  /** The length field is a uint32 and wraps around. */
  function LengthField(m: Message): int {
    (1 + |m.body|) % TWO_32
  }

  /** What Encode writes. */
  function Frame(m: Message): seq<byte> {
    PutUint32(LengthField(m)) + [m.kind] + m.body
  }

  /** What ReadMsg finds at the front of a stream, and what it leaves there. */
  datatype Read =
    | Got(m: Message, rest: seq<byte>)
    | BadLength(rest: seq<byte>)
    | Short

  function ReadOne(s: seq<byte>): Read {
    if |s| < 4 then Short
    else
      var n := Uint32(s[..4]);
      if n < 1 || n > MAX_PACKET then BadLength(s[4..])
      else if |s| < 4 + n then Short
      else Got(Message(s[4], s[5..4 + n]), s[4 + n..])
  }

  lemma PutGet(n: int)
    requires 0 <= n < TWO_32
    ensures Uint32(PutUint32(n)) == n
  {
    var q := n / 256;
    var p := q / 256;
    assert n / 0x1_0000 == p && n / 0x100_0000 == p / 256;
  }

  lemma FrameParts(m: Message, rest: seq<byte>)
    ensures var s := Frame(m) + rest;
      |Frame(m)| == 5 + |m.body| && s[..4] == PutUint32(LengthField(m)) && s[4] == m.kind && s[5..] == m.body + rest
  {
    var s := Frame(m) + rest;
    assert s[..4] == PutUint32(LengthField(m));
    assert s[5..] == m.body + rest;
  }

  /** A message comes back from its frame, with the reader at the frame's end, exactly when it fits:
      one byte of type and the body in at most 1 MiB. */
  lemma FrameRoundTrip(m: Message, rest: seq<byte>)
    ensures ReadOne(Frame(m) + rest) == Got(m, rest) <==> 1 + |m.body| <= 1_048_576
  {
    hide PutUint32, Uint32;
    var s := Frame(m) + rest;
    var n := LengthField(m);
    FrameParts(m, rest);
    PutGet(n);
    if 1 + |m.body| <= MAX_PACKET {
      assert s[5..4 + n] == s[5..][..n - 1] == m.body;
      assert s[4 + n..] == s[5..][n - 1..] == rest;
    } else if ReadOne(s).Got? {
      assert |s[5..4 + n]| == n - 1 < |m.body|;
    }
  }

  /** A frame over the limit, its length not wrapped around, is rejected with only the length read. */
  lemma OversizeRejected(m: Message, rest: seq<byte>)
    requires MAX_PACKET < 1 + |m.body| < TWO_32
    ensures ReadOne(Frame(m) + rest) == BadLength([m.kind] + m.body + rest)
  {
    hide PutUint32, Uint32;
    FrameParts(m, rest);
    PutGet(LengthField(m));
    assert (Frame(m) + rest)[4..] == [m.kind] + m.body + rest;
  }

  /** What a length at the front of a stream leads to: 0 and more than 1 MiB are rejected, a frame whose end
      has not come yet is cut short, and any other is a message. */
  lemma LengthRead(n: int, rest: seq<byte>)
    requires 0 <= n < TWO_32
    ensures ReadOne(PutUint32(n) + rest) ==
      if n == 0 || n > 1_048_576 then BadLength(rest)
      else if |rest| < n then Short
      else Got(Message(rest[0], rest[1..n]), rest[n..])
  {
    hide PutUint32, Uint32;
    var s := PutUint32(n) + rest;
    PutGet(n);
    assert s[..4] == PutUint32(n) && s[4..] == rest;
    if 1 <= n <= |rest| {
      assert s[5..4 + n] == rest[1..n] && s[4 + n..] == rest[n..];
    }
  }

  function Frames(ms: seq<Message>): seq<byte> {
    if ms == [] then [] else Frame(ms[0]) + Frames(ms[1..])
  }

  /** The messages of a stream, up to the first that cannot be read. */
  function ReadAll(s: seq<byte>): seq<Message>
    decreases |s|
  {
    match ReadOne(s)
    case Got(m, rest) => [m] + ReadAll(rest)
    case _ => []
  }

  /** Reading what was written, message after message: the same list, whatever follows it that is
      not a frame yet. */
  lemma {:induction false} FramesRoundTrip(ms: seq<Message>, tail: seq<byte>)
    requires forall m :: m in ms ==> 1 + |m.body| <= MAX_PACKET
    ensures ReadAll(Frames(ms) + tail) == ms + ReadAll(tail)
  {
    hide Frame, ReadOne;
    if ms == [] {
      assert Frames(ms) + tail == tail && ms + ReadAll(tail) == ReadAll(tail);
    } else {
      var rest := Frames(ms[1..]) + tail;
      assert Frames(ms) + tail == Frame(ms[0]) + rest;
      FrameRoundTrip(ms[0], rest);
      FramesRoundTrip(ms[1..], tail);
      var more := ReadAll(tail);
      assert [ms[0]] + (ms[1..] + more) == [ms[0]] + ms[1..] + more && [ms[0]] + ms[1..] == ms;
    }
  }

  // ---------------------------------------------------------------- the program

  /** Encode: a buffer filled in place. */
  method Encode(kind: byte, body: seq<byte>) returns (buf: array<byte>)
    ensures fresh(buf) && buf[..] == Frame(Message(kind, body))
  {
    var total := (1 + |body|) % TWO_32;
    buf := new byte[4 + 1 + |body|];
    var head := PutUint32(total);
    buf[0], buf[1], buf[2], buf[3] := head[0], head[1], head[2], head[3];
    buf[4] := kind;
    var i := 0;
    while i < |body|
      invariant 0 <= i <= |body|
      invariant buf[..5 + i] == head + [kind] + body[..i]
    {
      buf[5 + i] := body[i];
      assert buf[..5 + (i + 1)] == buf[..5 + i] + [body[i]];
      i := i + 1;
    }
    assert body[..i] == body && buf[..] == buf[..5 + i];
  }

  class Reader {
    const data: seq<byte>
    var pos: nat

    ghost predicate Valid() reads this { pos <= |data| }

    constructor (data: seq<byte>)
      ensures Valid() && this.data == data && pos == 0
    {
      this.data, pos := data, 0;
    }

    /** io.ReadFull: a stream that ends early is used up. */
    method ReadFull(n: nat) returns (ok: bool, b: seq<byte>)
      requires Valid()
      modifies this
      ensures Valid() && ok == (old(pos) + n <= |data|)
      ensures ok ==> pos == old(pos) + n && b == data[old(pos)..pos]
      ensures !ok ==> pos == |data|
    {
      if pos + n > |data| {
        pos := |data|;
        return false, [];
      }
      b := data[pos..pos + n];
      pos := pos + n;
      ok := true;
    }

    /** ReadMsg. A bad length stops the reader right behind the length; nothing more is read. */
    method ReadMsg() returns (result: Read)
      requires Valid()
      modifies this
      ensures Valid() && result == ReadOne(data[old(pos)..])
      ensures !result.Short? ==> result.rest == data[pos..]
      ensures result.Short? ==> pos == |data|
    {
      ghost var s := data[pos..];
      var ok, head := ReadFull(4);
      if !ok {
        return Short;
      }
      assert head == s[..4] && data[pos..] == s[4..];
      var n := Uint32(head);
      if n < 1 || n > MAX_PACKET {
        return BadLength(data[pos..]);
      }
      var kind, body;
      ok, kind := ReadFull(1);
      if !ok {
        return Short;
      }
      body := [];
      if n - 1 > 0 {
        ok, body := ReadFull(n - 1);
        if !ok {
          return Short;
        }
      }
      assert kind[0] == s[4] && body == s[5..4 + n] && data[pos..] == s[4 + n..];
      result := Got(Message(kind[0], body), data[pos..]);
    }
  }
}
