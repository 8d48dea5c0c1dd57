/** Length-prefixed framing of messages on a byte stream. */
module Framing {
  import opened Prelude

  const MAX_FRAME_LEN: nat := 16 * 1024 * 1024
  const U32_LIMIT: nat := 0x1_0000_0000

  /** The message encoding (msgpack in the program) is a parameter. */
  datatype Codec<!M> = Codec(enc: M -> seq<byte>, dec: seq<byte> -> Option<M>)

  ghost predicate Faithful<M(!new)>(c: Codec<M>) {
    forall m :: c.dec(c.enc(m)) == Some(m)
  }

  datatype IoKind = UnexpectedEof | ConnectionReset | ConnectionAborted | BrokenPipe | OtherKind

  datatype FrameError = Closed | TooLarge(len: nat) | Decode | Io(kind: IoKind)

  /** `FrameError::is_disconnect`. */
  predicate IsDisconnect(e: FrameError) {
    e.Closed? || (e.Io? && !e.kind.OtherKind?)
  }

  function Be32(n: nat): (b: seq<byte>)
    requires n < U32_LIMIT
    ensures |b| == 4
  {
    [n / 0x100_0000, n / 0x1_0000 % 256, n / 256 % 256, n % 256]
  }

  function FromBe32(b: seq<byte>): nat
    requires |b| == 4
  {
    b[0] as int * 0x100_0000 + b[1] as int * 0x1_0000 + b[2] as int * 256 + b[3] as int
  }

  lemma Be32RoundTrip(n: nat)
    requires n < U32_LIMIT
    ensures FromBe32(Be32(n)) == n
  {
    var q1, q2, q3 := n / 256, n / 0x1_0000, n / 0x100_0000;
    assert q2 == q1 / 256 && q3 == q2 / 256;
    assert n == q1 * 256 + n % 256 && q1 == q2 * 256 + q1 % 256 && q2 == q3 * 256 + q2 % 256;
  }

  /** The length goes out and comes in with its most significant byte first. */
  lemma Be32IsBigEndian(n: nat, b: seq<byte>)
    requires n < 0x1_0000_0000 && |b| == 4
    ensures BigEndian(Be32(n)) == n && FromBe32(b) == BigEndian(b)
  {
    FourBytes(b);
    FourBytes(Be32(n));
    Be32RoundTrip(n);
  }

  lemma FourBytes(b: seq<byte>)
    requires |b| == 4
    ensures BigEndian(b) == FromBe32(b)
  {
    assert b[..3][..2][..1][..0] == [];
    assert BigEndian(b[..3][..2][..1]) == b[0];
    assert BigEndian(b[..3][..2]) == b[0] as int * 256 + b[1] as int;
    assert BigEndian(b[..3]) == (b[0] as int * 256 + b[1] as int) * 256 + b[2] as int;
  }

  /** Exactly these errors count as the peer going away. */
  lemma IsDisconnectExact(e: FrameError)
    ensures IsDisconnect(e) <==>
              e in [Closed, Io(UnexpectedEof), Io(ConnectionReset), Io(ConnectionAborted), Io(BrokenPipe)]
  {
  }

  /** `write_message` fails when the length does not fit 32 bits. */
  predicate Writable<M>(c: Codec<M>, m: M) {
    |c.enc(m)| < U32_LIMIT
  }

  function FrameOf<M>(c: Codec<M>, m: M): seq<byte>
    requires Writable(c, m)
  {
    Be32(|c.enc(m)|) + c.enc(m)
  }

  datatype ReadResult<M> = Got(msg: M, rest: seq<byte>) | Failed(error: FrameError)

  /** `read_message` on a stream that ends after `b`. */
  function ReadMessage<M>(c: Codec<M>, b: seq<byte>): (r: ReadResult<M>)
    ensures r.Got? ==> |r.rest| < |b|
  {
    if |b| < 4 then Failed(Closed)
    else
      var len := FromBe32(b[..4]);
      if len > MAX_FRAME_LEN then Failed(TooLarge(len))
      else if |b| - 4 < len then Failed(Io(UnexpectedEof))
      else
        match c.dec(b[4..4 + len])
        case None => Failed(Decode)
        case Some(m) => Got(m, b[4 + len..])
  }

  /** The reader task: messages until the first failure. */
  function ReadAll<M>(c: Codec<M>, b: seq<byte>): (seq<M>, FrameError)
    decreases |b|
  {
    match ReadMessage(c, b)
    case Failed(e) => ([], e)
    case Got(m, rest) =>
      var (ms, e) := ReadAll(c, rest);
      ([m] + ms, e)
  }

  predicate AllWritable<M>(c: Codec<M>, ms: seq<M>) {
    forall i :: 0 <= i < |ms| ==> Writable(c, ms[i])
  }

  /** What the writer puts on the wire. */
  function Frames<M>(c: Codec<M>, ms: seq<M>): seq<byte>
    requires AllWritable(c, ms)
  {
    if ms == [] then [] else FrameOf(c, ms[0]) + Frames(c, ms[1..])
  }

  predicate Small<M>(c: Codec<M>, m: M) {
    |c.enc(m)| <= MAX_FRAME_LEN
  }

  // ---- reading back what was written --------------------------------------

  lemma ReadOneFrame<M(!new)>(c: Codec<M>, m: M, rest: seq<byte>)
    requires Faithful(c) && Writable(c, m)
    ensures ReadMessage(c, FrameOf(c, m) + rest) ==
            if |c.enc(m)| <= 16 * 1024 * 1024 then Got(m, rest) else Failed(TooLarge(|c.enc(m)|))
    ensures Small(c, m) <==> |c.enc(m)| <= 16 * 1024 * 1024
  {
    var body := c.enc(m);
    var b := FrameOf(c, m) + rest;
    Be32RoundTrip(|body|);
    assert b[..4] == Be32(|body|);
    assert b[4..4 + |body|] == body;
    assert b[4 + |body|..] == rest;
  }

  lemma ReadCutFrame<M(!new)>(c: Codec<M>, m: M, cut: seq<byte>)
    requires Faithful(c) && Writable(c, m) && Small(c, m) && cut <= FrameOf(c, m) && |cut| < |FrameOf(c, m)|
    ensures ReadMessage(c, cut).Failed? && IsDisconnect(ReadMessage(c, cut).error)
  {
    if |cut| >= 4 {
      Be32RoundTrip(|c.enc(m)|);
      assert cut[..4] == FrameOf(c, m)[..4] == Be32(|c.enc(m)|);
    }
  }

  /** The first message too large for the reader, or the length. */
  function FirstTooLarge<M>(c: Codec<M>, ms: seq<M>): (k: nat)
    ensures k <= |ms|
    ensures forall i :: 0 <= i < k ==> Small(c, ms[i])
    ensures k < |ms| ==> !Small(c, ms[k])
  {
    if ms == [] || !Small(c, ms[0]) then 0 else 1 + FirstTooLarge(c, ms[1..])
  }

  /** Reading the concatenated frames of any messages returns exactly those before
      the first oversized one, then the error that names its length; when none
      is oversized, all of them and then a clean close. */
  lemma {:induction false} ReadBack<M(!new)>(c: Codec<M>, ms: seq<M>)
    requires Faithful(c) && AllWritable(c, ms)
    ensures var k := FirstTooLarge(c, ms);
            ReadAll(c, Frames(c, ms)) == (ms[..k], if k < |ms| then TooLarge(|c.enc(ms[k])|) else Closed)
  {
    if ms != [] {
      ReadOneFrame(c, ms[0], Frames(c, ms[1..]));
      if Small(c, ms[0]) {
        ReadBack(c, ms[1..]);
        var k := FirstTooLarge(c, ms);
        assert ms[..k] == [ms[0]] + ms[1..][..k - 1];
      }
    }
  }

  lemma FramesOfPrefix<M>(c: Codec<M>, ms: seq<M>, k: nat)
    requires AllWritable(c, ms) && 0 < k <= |ms|
    ensures Frames(c, ms[..k]) == FrameOf(c, ms[0]) + Frames(c, ms[1..][..k - 1])
  {
    assert ms[..k][1..] == ms[1..][..k - 1];
  }

  /** `k` messages are completely in `b` and the next is not. */
  ghost predicate Holds<M>(c: Codec<M>, ms: seq<M>, b: seq<byte>, k: nat)
    requires AllWritable(c, ms)
  {
    k <= |ms| && Frames(c, ms[..k]) <= b && (k < |ms| ==> |b| < |Frames(c, ms[..k + 1])|)
  }

  lemma HoldsOneMore<M>(c: Codec<M>, ms: seq<M>, rest: seq<byte>, j: nat)
    requires AllWritable(c, ms) && ms != [] && Holds(c, ms[1..], rest, j)
    ensures Holds(c, ms, FrameOf(c, ms[0]) + rest, j + 1)
  {
    FramesOfPrefix(c, ms, j + 1);
    if j + 1 < |ms| {
      FramesOfPrefix(c, ms, j + 2);
    }
  }

  /** However the byte stream is cut, the reader gets a prefix of the messages -
      the longest whose frames are all there - and then a disconnect. */
  lemma {:induction false} ReadTruncated<M(!new)>(c: Codec<M>, ms: seq<M>, b: seq<byte>) returns (k: nat)
    requires Faithful(c) && AllWritable(c, ms) && FirstTooLarge(c, ms) == |ms| && b <= Frames(c, ms)
    ensures Holds(c, ms, b, k)
    ensures ReadAll(c, b).0 == ms[..k] && IsDisconnect(ReadAll(c, b).1)
  {
    if ms == [] {
      k := 0;
    } else {
      var first := FrameOf(c, ms[0]);
      if |b| < |first| {
        assert b <= first;
        ReadCutFrame(c, ms[0], b);
        FramesOfPrefix(c, ms, 1);
        k := 0;
      } else {
        var rest := b[|first|..];
        assert b == first + rest;
        ReadOneFrame(c, ms[0], rest);
        assert rest <= Frames(c, ms[1..]);
        var j := ReadTruncated(c, ms[1..], rest);
        HoldsOneMore(c, ms, rest, j);
        k := j + 1;
        assert ms[..k] == [ms[0]] + ms[1..][..j];
      }
    }
  }

  lemma {:induction false} FramesAppend<M>(c: Codec<M>, ms: seq<M>, m: M)
    requires AllWritable(c, ms) && Writable(c, m)
    ensures AllWritable(c, ms + [m]) && Frames(c, ms + [m]) == Frames(c, ms) + FrameOf(c, m)
  {
    if ms == [] {
      assert ms + [m] == [m] && [m][1..] == [];
    } else {
      assert (ms + [m])[1..] == ms[1..] + [m];
      FramesAppend(c, ms[1..], m);
    }
  }

  // ---- the stream, changed in place ---------------------------------------

  class Stream {
    var bytes: seq<byte>

    constructor ()
      ensures bytes == []
    {
      bytes := [];
    }

    method WriteAll(data: seq<byte>)
      modifies this
      ensures bytes == old(bytes) + data
    {
      bytes := bytes + data;
    }

    /** `read_exact`: the next `n` bytes, or nothing but EOF. */
    method ReadExact(n: nat) returns (data: Option<seq<byte>>)
      modifies this
      ensures data.Some? <==> n <= |old(bytes)|
      ensures data.Some? ==> data.value == old(bytes)[..n] && bytes == old(bytes)[n..]
      ensures data.None? ==> bytes == []
    {
      if n <= |bytes| {
        data := Some(bytes[..n]);
        bytes := bytes[n..];
      } else {
        data := None;
        bytes := [];
      }
    }

    method Write<M>(c: Codec<M>, m: M) returns (ok: bool)
      modifies this
      ensures ok <==> |c.enc(m)| < 0x1_0000_0000
      ensures bytes == if ok then old(bytes) + FrameOf(c, m) else old(bytes)
    {
      var body := c.enc(m);
      if |body| >= U32_LIMIT {
        return false;
      }
      WriteAll(Be32(|body|));
      WriteAll(body);
      assert bytes == old(bytes) + (Be32(|body|) + body);
      return true;
    }

    method Read<M>(c: Codec<M>) returns (r: Option<M>, error: FrameError)
      modifies this
      ensures match ReadMessage(c, old(bytes))
              case Got(m, rest) => r == Some(m) && bytes == rest
              case Failed(e) => r == None && error == e
    {
      error := Closed;
      var head := ReadExact(4);
      if head.None? {
        return None, Closed;
      }
      var len := FromBe32(head.value);
      if len > MAX_FRAME_LEN {
        return None, TooLarge(len);
      }
      ghost var mid := bytes;
      var body := ReadExact(len);
      if body.None? {
        return None, Io(UnexpectedEof);
      }
      assert body.value == old(bytes)[4..4 + len] && bytes == old(bytes)[4 + len..];
      match c.dec(body.value)
      case None => return None, Decode;
      case Some(m) => return Some(m), Closed;
    }
  }
}
