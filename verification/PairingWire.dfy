/** The pairing exchange as bytes: chunks behind a 16-bit length, tags and
    acknowledgements of fixed length; and one side's program over its fields. */
module PairingWire {
  import opened Prelude
  import opened Framing
  import opened Pairing

  const ELEMENT_LEN: nat := 33
  const TAG_LEN: nat := 32

  function Be16(n: nat): (b: seq<byte>)
    requires n < U16_LIMIT
    ensures |b| == 2
  {
    [n / 256, n % 256]
  }

  function FromBe16(b: seq<byte>): nat
    requires |b| == 2
  {
    b[0] as int * 256 + b[1] as int
  }

  lemma Be16IsBigEndian(n: nat, b: seq<byte>)
    requires n < 0x1_0000 && |b| == 2
    ensures BigEndian(Be16(n)) == n && FromBe16(b) == BigEndian(b)
  {
    assert b[..1][..0] == [] && BigEndian(b[..1]) == b[0];
    assert Be16(n)[..1][..0] == [] && BigEndian(Be16(n)[..1]) == n / 256;
  }

  function ChunkBytes(data: seq<byte>): seq<byte>
    requires |data| < U16_LIMIT
  {
    Be16(|data|) + data
  }

  datatype Taken<+T> = Took(value: T, rest: seq<byte>) | Refused(error: Error)

  /** `read_into` on a stream that ends after `b`. */
  function TakeExact(b: seq<byte>, n: nat): Taken<seq<byte>> {
    if n <= |b| then Took(b[..n], b[n..]) else Refused(PeerAborted)
  }

  /** `read_chunk`. */
  function TakeChunk(b: seq<byte>): Taken<seq<byte>> {
    match TakeExact(b, 2)
    case Refused(e) => Refused(e)
    case Took(head, rest) =>
      var len := FromBe16(head);
      if len == 0 || len > MAX_PAIR_FRAME then Refused(Protocol) else TakeExact(rest, len)
  }

  /** A chunk that was written is read back exactly when it is neither empty nor
      too long, whatever follows it; otherwise the reader reports a protocol
      error. */
  lemma ChunkRoundTrip(data: seq<byte>, rest: seq<byte>)
    requires |data| < U16_LIMIT
    ensures TakeChunk(ChunkBytes(data) + rest) == if 1 <= |data| <= 4096 then Took(data, rest) else Refused(Protocol)
  {
    var b := ChunkBytes(data) + rest;
    assert b[..2] == Be16(|data|) && b[2..] == data + rest;
    assert (data + rest)[..|data|] == data && (data + rest)[|data|..] == rest;
  }

  /** A readable chunk cut anywhere reads as the peer going away. */
  lemma ChunkTruncated(data: seq<byte>, b: seq<byte>)
    requires Readable(data) && b <= ChunkBytes(data) && |b| < |ChunkBytes(data)|
    ensures TakeChunk(b) == Refused(PeerAborted)
  {
  }

  // ---- the exchange as bytes ----------------------------------------------

  /** SPAKE2 and HMAC as functions on bytes. The program never decodes a tag: it
      computes the one it expects and compares. */
  datatype Crypto = Crypto(element: Element -> seq<byte>, finish: (Role, Party, seq<byte>) -> Option<Key>,
                           hmac: (Subkey, seq<byte>) -> seq<byte>)

  function DataOf(g: Config, r: Role): seq<byte> {
    g.c.enc(PartyOf(g, r).info)
  }

  function TagOf(g: Config, y: Crypto, r: Role): seq<byte> {
    y.hmac(SendKey(r, KeyOf(g, r)), DataOf(g, r))
  }

  /** What the symbolic model assumes of them, for the elements and tags of this
      exchange only: they have their lengths, a side finishes with its key, and
      the tag sent is the tag expected only if the keys are the same. */
  ghost predicate IdealFor(g: Config, y: Crypto, r: Role) {
    var expected := RecvKey(Other(r), KeyOf(g, Other(r)));
    && |y.element(ElementOf(g, r))| == ELEMENT_LEN
    && y.finish(Other(r), PartyOf(g, Other(r)), y.element(ElementOf(g, r))) == Some(KeyOf(g, Other(r)))
    && |TagOf(g, y, r)| == TAG_LEN
    && (y.hmac(expected, DataOf(g, r)) == TagOf(g, y, r) ==> expected == SendKey(r, KeyOf(g, r)))
  }

  ghost predicate Ideal(g: Config, y: Crypto) {
    IdealFor(g, y, Offerer) && IdealFor(g, y, Requester)
  }

  /** Every exchange has such functions, so assuming them excludes none. */
  lemma CryptoExists(g: Config) returns (y: Crypto)
    ensures Ideal(g, y)
  {
    var mark := (k: Subkey) =>
      if k == SendKey(Offerer, KeyOf(g, Offerer)) then 0 as byte
      else if k == SendKey(Requester, KeyOf(g, Requester)) then 1 else 2;
    y := Crypto(e => seq(ELEMENT_LEN, _ => 0), (r: Role, p: Party, b: seq<byte>) => Some(KeyOf(g, r)),
                (k: Subkey, d: seq<byte>) => seq(TAG_LEN, _ => mark(k)));
    forall r ensures IdealFor(g, y, r) {
      var expected := RecvKey(Other(r), KeyOf(g, Other(r)));
      assert y.hmac(expected, DataOf(g, r))[0] == mark(expected) && TagOf(g, y, r)[0] == mark(SendKey(r, KeyOf(g, r)));
    }
  }

  /** What is inside an item, and the item on the wire. */
  function Inside(y: Crypto, x: Item): seq<byte> {
    match x
    case Spake(e) => y.element(e)
    case Chunk(d) => d
    case Tag(m) => y.hmac(m.key, m.data)
    case Ack(v) => [if v < 256 then v else 255]
  }

  predicate Sendable(y: Crypto, x: Item) {
    |Inside(y, x)| < U16_LIMIT
  }

  function ItemBytes(y: Crypto, x: Item): seq<byte>
    requires Sendable(y, x)
  {
    if x.Spake? || x.Chunk? then ChunkBytes(Inside(y, x)) else Inside(y, x)
  }

  predicate AllSendable(y: Crypto, xs: seq<Item>) {
    forall i :: 0 <= i < |xs| ==> Sendable(y, xs[i])
  }

  function Wire(y: Crypto, xs: seq<Item>): seq<byte>
    requires AllSendable(y, xs)
  {
    if xs == [] then [] else ItemBytes(y, xs[0]) + Wire(y, xs[1..])
  }

  function Insides(y: Crypto, xs: seq<Item>): seq<seq<byte>> {
    if xs == [] then [] else [Inside(y, xs[0])] + Insides(y, xs[1..])
  }

  /** The `n`-th read of the program: two chunks, a tag, an acknowledgement. */
  function Take(b: seq<byte>, n: nat): Taken<seq<byte>> {
    if n < 2 then TakeChunk(b) else TakeExact(b, if n == 2 then TAG_LEN else 1)
  }

  /** All reads from the `n`-th on, up to the first that fails. */
  function ReadFrom(b: seq<byte>, n: nat): (seq<seq<byte>>, Option<Error>)
    decreases 4 - n
  {
    if n >= 4 then ([], None)
    else
      match Take(b, n)
      case Refused(e) => ([], Some(e))
      case Took(d, rest) =>
        var (ds, e) := ReadFrom(rest, n + 1);
        ([d] + ds, e)
  }

  /** `x` is what an honest peer sends for the `n`-th read. */
  predicate Suits(y: Crypto, n: nat, x: Item) {
    match n
    case 0 => x.Spake? && Readable(Inside(y, x))
    case 1 => x.Chunk? && Readable(x.data)
    case 2 => x.Tag? && |Inside(y, x)| == TAG_LEN
    case _ => x.Ack?
  }

  lemma TakeWhole(y: Crypto, n: nat, x: Item, rest: seq<byte>)
    requires Suits(y, n, x)
    ensures Take(ItemBytes(y, x) + rest, n) == Took(Inside(y, x), rest)
  {
    if n < 2 {
      ChunkRoundTrip(Inside(y, x), rest);
    } else {
      var b := ItemBytes(y, x) + rest;
      assert b[..|Inside(y, x)|] == Inside(y, x) && b[|Inside(y, x)|..] == rest;
    }
  }

  lemma TakeCut(y: Crypto, n: nat, x: Item, b: seq<byte>)
    requires Suits(y, n, x) && b <= ItemBytes(y, x) && |b| < |ItemBytes(y, x)|
    ensures Take(b, n) == Refused(PeerAborted)
  {
    if n < 2 {
      ChunkTruncated(Inside(y, x), b);
    }
  }

  /** `k` items are completely in `b` and the next is not. */
  ghost predicate Whole(y: Crypto, xs: seq<Item>, b: seq<byte>, k: nat)
    requires AllSendable(y, xs)
  {
    k <= |xs| && Wire(y, xs[..k]) <= b && (k < |xs| ==> |b| < |Wire(y, xs[..k + 1])|)
  }

  lemma WireOfPrefix(y: Crypto, xs: seq<Item>, k: nat)
    requires AllSendable(y, xs) && 0 < k <= |xs|
    ensures Wire(y, xs[..k]) == ItemBytes(y, xs[0]) + Wire(y, xs[1..][..k - 1])
  {
    assert xs[..k][1..] == xs[1..][..k - 1];
  }

  lemma WholeOneMore(y: Crypto, xs: seq<Item>, rest: seq<byte>, j: nat)
    requires AllSendable(y, xs) && xs != [] && Whole(y, xs[1..], rest, j)
    ensures Whole(y, xs, ItemBytes(y, xs[0]) + rest, j + 1)
    ensures Insides(y, xs[..j + 1]) == [Inside(y, xs[0])] + Insides(y, xs[1..][..j])
  {
    WireOfPrefix(y, xs, j + 1);
    if j + 1 < |xs| {
      WireOfPrefix(y, xs, j + 2);
    }
    assert xs[..j + 1][1..] == xs[1..][..j];
  }

  /** However the bytes of a peer's items are cut, the program reads exactly the
      items that are completely there, and then finds the peer gone. */
  lemma {:induction false} WireReadsBack(y: Crypto, xs: seq<Item>, n: nat, b: seq<byte>) returns (k: nat)
    requires n + |xs| <= 4 && (forall i :: 0 <= i < |xs| ==> Suits(y, n + i, xs[i]))
    requires AllSendable(y, xs) && b <= Wire(y, xs)
    ensures Whole(y, xs, b, k)
    ensures ReadFrom(b, n) == (Insides(y, xs[..k]), if n + k == 4 then None else Some(PeerAborted))
    decreases |xs|
  {
    k := 0;
    if xs == [] {
    } else {
      var first := ItemBytes(y, xs[0]);
      WireOfPrefix(y, xs, 1);
      if |b| < |first| {
        assert b <= first;
        TakeCut(y, n, xs[0], b);
      } else {
        var rest := b[|first|..];
        assert b == first + rest;
        TakeWhole(y, n, xs[0], rest);
        var j := WireReadsBack(y, xs[1..], n + 1, rest);
        WholeOneMore(y, xs, rest, j);
        k := j + 1;
      }
    }
  }

  /** With the key at hand, the bytes that follow the peer's element make a side
      succeed: the tag is the one expected, the peer says yes and its payload
      decodes. */
  predicate Confirmed(y: Crypto, c: Codec<Payload>, recv: Subkey, b: seq<byte>, info: Payload) {
    var ds := ReadFrom(b, 1).0;
    && |ds| == 3 && ds[1] == y.hmac(recv, ds[0]) && ds[2] == [1]
    && c.dec(ds[0]) == Some(info) && |info.publicKey| == PUBLIC_KEY_LEN
  }

  /** A tag arrives that is not the one expected. */
  predicate WrongTag(y: Crypto, recv: Subkey, b: seq<byte>) {
    var ds := ReadFrom(b, 1).0;
    |ds| >= 2 && ds[1] != y.hmac(recv, ds[0])
  }

  /** The bytes a side has been sent make it succeed. */
  predicate Accepts(y: Crypto, c: Codec<Payload>, r: Role, p: Party, b: seq<byte>, info: Payload) {
    && TakeChunk(b).Took?
    && var key := y.finish(r, p, TakeChunk(b).value);
       key.Some? && Confirmed(y, c, RecvKey(r, key.value), TakeChunk(b).rest, info)
  }

  lemma AcceptsFourReads(y: Crypto, c: Codec<Payload>, r: Role, p: Party, b: seq<byte>, info: Payload)
    ensures Accepts(y, c, r, p, b, info) <==>
              && var ds := ReadFrom(b, 0).0;
              && |ds| == 4
              && var key := y.finish(r, p, ds[0]);
                 && key.Some? && ds[2] == y.hmac(RecvKey(r, key.value), ds[1]) && ds[3] == [1]
                 && c.dec(ds[1]) == Some(info) && |info.publicKey| == PUBLIC_KEY_LEN
  {
    if TakeChunk(b).Took? {
      assert ReadFrom(b, 0).0 == [TakeChunk(b).value] + ReadFrom(TakeChunk(b).rest, 1).0;
    }
  }

  lemma ScriptSuits(g: Config, y: Crypto, w: World, r: Role)
    requires Ideal(g, y) && Inv(g, w)
    ensures AllSendable(y, SideOf(w, r).sent)
    ensures Fits(g, r) ==> forall i :: 0 <= i < |SideOf(w, r).sent| ==> Suits(y, i, SideOf(w, r).sent[i])
  {
    assert IdealFor(g, y, r);
  }

  lemma {:induction false} InsidesAt(y: Crypto, xs: seq<Item>, i: nat)
    requires i < |xs|
    ensures |Insides(y, xs)| == |xs| && Insides(y, xs)[i] == Inside(y, xs[i])
  {
    if |xs| > 1 {
      InsidesAt(y, xs[1..], if i > 0 then i - 1 else 0);
    } else {
      assert Insides(y, xs[1..]) == [];
    }
  }

  lemma AllFourRead(g: Config, y: Crypto, w: World, r: Role, b: seq<byte>)
    requires Ideal(g, y) && Inv(g, w) && |SideOf(w, r).sent| == 4 && Fits(g, r)
    requires AllSendable(y, SideOf(w, r).sent) && b == Wire(y, SideOf(w, r).sent)
    ensures ReadFrom(b, 0).0 == [y.element(ElementOf(g, r)), DataOf(g, r), TagOf(g, y, r),
                                 [if SideOf(w, r).verified then 1 else 0]]
  {
    var s := SideOf(w, r);
    ScriptSuits(g, y, w, r);
    var k := WireReadsBack(y, s.sent, 0, b);
    assert s.sent[..4] == s.sent;
    WholeIsAll(y, s.sent, b, k);
    forall i | 0 <= i < 4 ensures |Insides(y, s.sent)| == 4 && Insides(y, s.sent)[i] == Inside(y, s.sent[i]) {
      InsidesAt(y, s.sent, i);
    }
  }

  lemma {:induction false} WireGrows(y: Crypto, xs: seq<Item>, k: nat)
    requires AllSendable(y, xs) && k <= |xs|
    ensures Wire(y, xs[..k]) <= Wire(y, xs)
  {
    if k > 0 {
      WireOfPrefix(y, xs, k);
      WireGrows(y, xs[1..], k - 1);
    }
  }

  lemma WholeIsAll(y: Crypto, xs: seq<Item>, b: seq<byte>, k: nat)
    requires AllSendable(y, xs) && Whole(y, xs, b, k) && b <= Wire(y, xs)
    ensures b == Wire(y, xs) ==> k == |xs|
    ensures k == |xs| ==> b == Wire(y, xs)
  {
    if k < |xs| {
      WireGrows(y, xs, k + 1);
    } else {
      assert xs[..k] == xs;
    }
  }

  /** With a payload the reader refuses, no more than the first item is read. */
  lemma UnfitIsRefused(g: Config, y: Crypto, w: World, r: Role, b: seq<byte>)
    requires Ideal(g, y) && Inv(g, w) && !Fits(g, r)
    requires AllSendable(y, SideOf(w, r).sent) && b <= Wire(y, SideOf(w, r).sent)
    ensures |ReadFrom(b, 0).0| <= 1
    ensures |ReadFrom(b, 0).0| == 1 ==>
              SideOf(w, r).sent != [] && ReadFrom(b, 0).0[0] == Inside(y, SideOf(w, r).sent[0])
  {
    var xs := SideOf(w, r).sent;
    assert IdealFor(g, y, r);
    if |xs| == 0 {
    } else if |b| < |ItemBytes(y, xs[0])| {
      assert b <= ItemBytes(y, xs[0]);
      TakeCut(y, 0, xs[0], b);
    } else {
      var rest := b[|ItemBytes(y, xs[0])|..];
      assert b == ItemBytes(y, xs[0]) + rest;
      TakeWhole(y, 0, xs[0], rest);
      UnfitRest(g, y, xs[1..], rest, DataOf(g, r));
    }
  }

  lemma UnfitRest(g: Config, y: Crypto, xs: seq<Item>, b: seq<byte>, data: seq<byte>)
    requires AllSendable(y, xs) && b <= Wire(y, xs) && !Readable(data) && (xs != [] ==> xs[0] == Chunk(data))
    ensures Take(b, 1).Refused?
  {
    if xs != [] && |b| >= 2 {
      assert b[..2] == Wire(y, xs)[..2] == ChunkBytes(data)[..2] == Be16(|data|);
    }
  }

  lemma ReadAllMeansUncut(g: Config, y: Crypto, w: World, r: Role, b: seq<byte>)
    requires Ideal(g, y) && Inv(g, w) && AllSendable(y, SideOf(w, r).sent) && b <= Wire(y, SideOf(w, r).sent)
    requires |ReadFrom(b, 0).0| == 4
    ensures Fits(g, r) && |SideOf(w, r).sent| == 4 && b == Wire(y, SideOf(w, r).sent)
  {
    var xs := SideOf(w, r).sent;
    if !Fits(g, r) {
      UnfitIsRefused(g, y, w, r, b);
    }
    ScriptSuits(g, y, w, r);
    var k := WireReadsBack(y, xs, 0, b);
    if k > 0 {
      InsidesAt(y, xs[..k], 0);
    }
    WholeIsAll(y, xs, b, k);
  }

  /** The bridge: in every reachable state of the symbolic exchange, whatever part
      of the other side's bytes reaches this side, it accepts exactly when all
      of them do, the other side has verified this one (so the PINs agree) and
      its payload fits; and then it gets the other side's exact info. */
  lemma WireDecides(g: Config, y: Crypto, w: World, r: Role, b: seq<byte>, info: Payload)
    requires Honest(g) && Ideal(g, y) && Inv(g, w)
    requires AllSendable(y, SideOf(w, Other(r)).sent) && b <= Wire(y, SideOf(w, Other(r)).sent)
    ensures var peer := SideOf(w, Other(r));
            Accepts(y, g.c, r, PartyOf(g, r), b, info) <==>
              && info == PartyOf(g, Other(r)).info && SamePin(g) && Fits(g, Other(r))
              && |peer.sent| == 4 && peer.verified && b == Wire(y, peer.sent)
  {
    var o, peer := Other(r), SideOf(w, Other(r));
    assert IdealFor(g, y, o);
    KeysAgreeExactly(g, o);
    AcceptsFourReads(y, g.c, r, PartyOf(g, r), b, info);
    if |ReadFrom(b, 0).0| == 4 {
      ReadAllMeansUncut(g, y, w, o, b);
    }
    if Fits(g, o) && |peer.sent| == 4 && b == Wire(y, peer.sent) {
      AllFourRead(g, y, w, o, b);
    }
  }

  // ---- in place -----------------------------------------------------------

  method WriteChunk(s: Stream, data: seq<byte>) returns (ok: bool)
    modifies s
    ensures ok <==> |data| < 65536
    ensures s.bytes == if ok then old(s.bytes) + ChunkBytes(data) else old(s.bytes)
  {
    if |data| >= U16_LIMIT {
      return false;
    }
    s.WriteAll(Be16(|data|));
    s.WriteAll(data);
    assert s.bytes == old(s.bytes) + (Be16(|data|) + data);
    return true;
  }

  method ReadChunk(s: Stream) returns (r: Option<seq<byte>>, error: Error)
    modifies s
    ensures match TakeChunk(old(s.bytes))
            case Took(d, rest) => r == Some(d) && s.bytes == rest
            case Refused(e) => r == None && error == e
    ensures error != BadPin
  {
    error := PeerAborted;
    var head := s.ReadExact(2);
    if head.None? {
      return None, PeerAborted;
    }
    var len := FromBe16(head.value);
    if len == 0 || len > MAX_PAIR_FRAME {
      return None, Protocol;
    }
    r := s.ReadExact(len);
  }

  lemma ReadsFromOne(b: seq<byte>)
    ensures TakeChunk(b).Refused? ==> ReadFrom(b, 1).0 == []
    ensures TakeChunk(b).Took? ==>
              var d, b2 := TakeChunk(b).value, TakeChunk(b).rest;
              ReadFrom(b, 1).0 ==
              if |b2| < TAG_LEN then [d]
              else if |b2| == TAG_LEN then [d, b2[..TAG_LEN]]
              else [d, b2[..TAG_LEN], b2[TAG_LEN..TAG_LEN + 1]]
  {
    if TakeChunk(b).Took? && |TakeChunk(b).rest| >= TAG_LEN {
      var b2 := TakeChunk(b).rest;
      var b3 := b2[TAG_LEN..];
      assert |b3| > 0 ==> b3[..1] == b2[TAG_LEN..TAG_LEN + 1];
      assert ReadFrom(b3, 3).0 == if |b3| < 1 then [] else [b3[..1]] + ReadFrom(b3[1..], 4).0;
      assert ReadFrom(b2, 2).0 == [b2[..TAG_LEN]] + ReadFrom(b3, 3).0;
    }
  }

  method Confirm(y: Crypto, c: Codec<Payload>, recv: Subkey, input: Stream, output: Stream) returns (o: Outcome)
    requires input != output
    modifies input, output
    ensures forall info :: o == Ok(info) <==> Confirmed(y, c, recv, old(input.bytes), info)
    ensures o == Err(BadPin) <==> WrongTag(y, recv, old(input.bytes))
    ensures output.bytes == old(output.bytes) + Answer(y, recv, old(input.bytes))
  {
    ReadsFromOne(input.bytes);
    var payload, error := ReadChunk(input);
    if payload.None? {
      return Err(error);
    }
    var tag := input.ReadExact(TAG_LEN);
    if tag.None? {
      return Err(PeerAborted);
    }
    if y.hmac(recv, payload.value) != tag.value {
      output.WriteAll([0]);
      return Err(BadPin);
    }
    output.WriteAll([1]);
    var ack := input.ReadExact(1);
    if ack.None? || ack.value[0] != 1 {
      return Err(PeerAborted);
    }
    var parsed := c.dec(payload.value);
    if parsed.None? || |parsed.value.publicKey| != PUBLIC_KEY_LEN {
      return Err(Protocol);
    }
    return Ok(parsed.value);
  }

  /** Once the peer's tag has been read: whether it was right. */
  function Answer(y: Crypto, recv: Subkey, b: seq<byte>): seq<byte> {
    var ds := ReadFrom(b, 1).0;
    if |ds| < 2 then [] else [if ds[1] == y.hmac(recv, ds[0]) then 1 else 0]
  }

  /** The key a side gets from the element it reads, if it gets that far: a payload
      of 64 KiB or more stops it. */
  function KeyFrom(y: Crypto, c: Codec<Payload>, r: Role, p: Party, b: seq<byte>): Option<Key> {
    if TakeChunk(b).Refused? || |c.enc(p.info)| >= U16_LIMIT then None else y.finish(r, p, TakeChunk(b).value)
  }

  /** What a side writes, given what it will read: its element; once it has a key,
      the payload and its tag; and the answer to the peer's tag. */
  function Opening(y: Crypto, c: Codec<Payload>, r: Role, p: Party, b: seq<byte>): seq<byte>
    requires |y.element(Element(r, p.pin, p.nonce))| < U16_LIMIT
  {
    var data, key := c.enc(p.info), KeyFrom(y, c, r, p, b);
    ChunkBytes(y.element(Element(r, p.pin, p.nonce)))
    + if key.None? then [] else ChunkBytes(data) + y.hmac(SendKey(r, key.value), data)
  }

  function Written(y: Crypto, c: Codec<Payload>, r: Role, p: Party, b: seq<byte>): seq<byte>
    requires |y.element(Element(r, p.pin, p.nonce))| < U16_LIMIT
  {
    var key := KeyFrom(y, c, r, p, b);
    Opening(y, c, r, p, b) + if key.None? then [] else Answer(y, RecvKey(r, key.value), TakeChunk(b).rest)
  }

  method Open(y: Crypto, c: Codec<Payload>, r: Role, p: Party, input: Stream, output: Stream)
    returns (key: Option<Key>, error: Error)
    requires input != output && |y.element(Element(r, p.pin, p.nonce))| == ELEMENT_LEN
    modifies input, output
    ensures key == KeyFrom(y, c, r, p, old(input.bytes)) && error != BadPin
    ensures key.Some? ==> input.bytes == TakeChunk(old(input.bytes)).rest
    ensures output.bytes == old(output.bytes) + Opening(y, c, r, p, old(input.bytes))
  {
    var ok := WriteChunk(output, y.element(Element(r, p.pin, p.nonce)));
    var spake;
    spake, error := ReadChunk(input);
    if spake.None? {
      return None, error;
    }
    key := y.finish(r, p, spake.value);
    error := Protocol;
    var data := c.enc(p.info);
    if key.None? {
      return;
    }
    ok := WriteChunk(output, data);
    if !ok {
      return None, Protocol;
    }
    var tag := y.hmac(SendKey(r, key.value), data);
    output.WriteAll(tag);
    SplitAppend(old(output.bytes), ChunkBytes(y.element(Element(r, p.pin, p.nonce))), ChunkBytes(data), tag);
  }

  lemma SplitAppend(a: seq<byte>, b: seq<byte>, c: seq<byte>, d: seq<byte>)
    ensures a + b + c + d == a + (b + (c + d))
  {
  }

  /** `exchange`: straight through, on bytes. It succeeds with `info` if and only
      if its own payload is short enough and what it reads is acceptable, and
      reports a wrong PIN if and only if it got as far as a tag and that differs. */
  method Exchange(y: Crypto, c: Codec<Payload>, r: Role, p: Party, input: Stream, output: Stream) returns (o: Outcome)
    requires input != output && |y.element(Element(r, p.pin, p.nonce))| == ELEMENT_LEN
    modifies input, output
    ensures forall info :: o == Ok(info) <==>
              |c.enc(p.info)| < U16_LIMIT && Accepts(y, c, r, p, old(input.bytes), info)
    ensures o == Err(BadPin) <==>
              && var key := KeyFrom(y, c, r, p, old(input.bytes));
                 key.Some? && WrongTag(y, RecvKey(r, key.value), TakeChunk(old(input.bytes)).rest)
    ensures output.bytes == old(output.bytes) + Written(y, c, r, p, old(input.bytes))
  {
    var key, error := Open(y, c, r, p, input, output);
    if key.None? {
      return Err(error);
    }
    o := Confirm(y, c, RecvKey(r, key.value), input, output);
  }

  // ---- what the other side gets to read -----------------------------------

  lemma ReadsAreScripted(g: Config, y: Crypto, w: World, r: Role, b: seq<byte>)
    requires Ideal(g, y) && Inv(g, w) && AllSendable(y, SideOf(w, r).sent) && b <= Wire(y, SideOf(w, r).sent)
    ensures var ds, xs := ReadFrom(b, 0).0, SideOf(w, r).sent;
            && |ds| <= |xs| && (|ds| >= 2 ==> Fits(g, r))
            && forall i :: 0 <= i < |ds| ==> ds[i] == Inside(y, xs[i])
  {
    var xs := SideOf(w, r).sent;
    if Fits(g, r) {
      ScriptSuits(g, y, w, r);
      var k := WireReadsBack(y, xs, 0, b);
      forall i | 0 <= i < k ensures |Insides(y, xs[..k])| == k && Insides(y, xs[..k])[i] == Inside(y, xs[i]) {
        InsidesAt(y, xs[..k], i);
      }
    } else {
      UnfitIsRefused(g, y, w, r, b);
    }
  }

  /** The first `n` items of a side's script. */
  function Scripted(g: Config, r: Role, n: nat, verified: bool): seq<Item> {
    seq(n, i requires 0 <= i < n => Script(g, r, i, verified))
  }

  /** How far a side gets with what it reads: its element; with the peer's element
      and a short enough payload, that and its tag; with the peer's tag, the
      answer. */
  function Reach(g: Config, r: Role, b: seq<byte>): nat {
    var done := |ReadFrom(b, 0).0|;
    if done == 0 || |DataOf(g, r)| >= U16_LIMIT then 1 else if done < 3 then 3 else 4
  }

  lemma ScriptedSendable(g: Config, y: Crypto, r: Role, n: nat, v: bool)
    requires Ideal(g, y) && n <= 4 && (n > 1 ==> |DataOf(g, r)| < U16_LIMIT)
    ensures AllSendable(y, Scripted(g, r, n, v))
  {
    assert IdealFor(g, y, r);
  }

  lemma WireOfElement(g: Config, y: Crypto, r: Role, v: bool)
    requires Ideal(g, y) && AllSendable(y, Scripted(g, r, 1, v))
    ensures |y.element(ElementOf(g, r))| == ELEMENT_LEN
    ensures Wire(y, Scripted(g, r, 1, v)) == ChunkBytes(y.element(ElementOf(g, r)))
  {
    assert IdealFor(g, y, r);
    assert Scripted(g, r, 1, v)[1..] == [];
  }

  lemma WireOfOpening(g: Config, y: Crypto, r: Role, v: bool)
    requires Ideal(g, y) && |DataOf(g, r)| < U16_LIMIT && AllSendable(y, Scripted(g, r, 3, v))
    ensures |y.element(ElementOf(g, r))| == ELEMENT_LEN
    ensures Wire(y, Scripted(g, r, 3, v)) ==
            ChunkBytes(y.element(ElementOf(g, r))) + (ChunkBytes(DataOf(g, r)) + TagOf(g, y, r))
  {
    assert IdealFor(g, y, r);
    var one := Scripted(g, r, 1, v);
    var x1, x2 := Script(g, r, 1, v), Script(g, r, 2, v);
    WireOfElement(g, y, r, v);
    WireAppend(y, one, x1);
    WireAppend(y, one + [x1], x2);
    assert Scripted(g, r, 3, v) == one + [x1] + [x2];
  }

  lemma WireOfAll(g: Config, y: Crypto, r: Role, v: bool)
    requires AllSendable(y, Scripted(g, r, 3, v)) && AllSendable(y, Scripted(g, r, 4, v))
    ensures Wire(y, Scripted(g, r, 4, v)) == Wire(y, Scripted(g, r, 3, v)) + [if v then 1 else 0]
  {
    WireAppend(y, Scripted(g, r, 3, v), Script(g, r, 3, v));
    assert Scripted(g, r, 4, v) == Scripted(g, r, 3, v) + [Script(g, r, 3, v)];
  }

  lemma {:induction false} WireAppend(y: Crypto, xs: seq<Item>, x: Item)
    requires AllSendable(y, xs) && Sendable(y, x)
    ensures AllSendable(y, xs + [x]) && Wire(y, xs + [x]) == Wire(y, xs) + ItemBytes(y, x)
  {
    if xs == [] {
      assert xs + [x] == [x] && [x][1..] == [];
    } else {
      assert (xs + [x])[1..] == xs[1..] + [x];
      WireAppend(y, xs[1..], x);
    }
  }

  lemma KeyOnTheWire(g: Config, y: Crypto, w: World, r: Role, b: seq<byte>)
    requires Ideal(g, y) && Inv(g, w)
    requires AllSendable(y, SideOf(w, Other(r)).sent) && b <= Wire(y, SideOf(w, Other(r)).sent)
    ensures KeyFrom(y, g.c, r, PartyOf(g, r), b) == if Reach(g, r, b) == 1 then None else Some(KeyOf(g, r))
  {
    ReadsAreScripted(g, y, w, Other(r), b);
    assert IdealFor(g, y, Other(r));
  }

  lemma AnswerIs(y: Crypto, recv: Subkey, b: seq<byte>, ds: seq<seq<byte>>)
    requires TakeChunk(b).Took? && ds == ReadFrom(b, 0).0
    ensures Answer(y, recv, TakeChunk(b).rest) ==
            if |ds| < 3 then [] else [if ds[2] == y.hmac(recv, ds[1]) then 1 else 0]
  {
    assert ds == [TakeChunk(b).value] + ReadFrom(TakeChunk(b).rest, 1).0;
  }

  lemma TagIsRightExactly(g: Config, y: Crypto, r: Role)
    requires Ideal(g, y)
    ensures TagOf(g, y, Other(r)) == y.hmac(RecvKey(r, KeyOf(g, r)), DataOf(g, Other(r))) <==> SamePin(g)
  {
    assert IdealFor(g, y, Other(r));
    KeysAgreeExactly(g, Other(r));
  }

  lemma AnswerOnTheWire(g: Config, y: Crypto, w: World, r: Role, b: seq<byte>)
    requires Ideal(g, y) && Inv(g, w) && TakeChunk(b).Took?
    requires AllSendable(y, SideOf(w, Other(r)).sent) && b <= Wire(y, SideOf(w, Other(r)).sent)
    ensures Answer(y, RecvKey(r, KeyOf(g, r)), TakeChunk(b).rest) ==
            if |ReadFrom(b, 0).0| < 3 then [] else [if SamePin(g) then 1 else 0]
  {
    var ds := ReadFrom(b, 0).0;
    ReadsAreScripted(g, y, w, Other(r), b);
    AnswerIs(y, RecvKey(r, KeyOf(g, r)), b, ds);
    TagIsRightExactly(g, y, r);
    assert |ds| >= 3 ==> ds[1] == DataOf(g, Other(r)) && ds[2] == TagOf(g, y, Other(r));
  }

  /** And what a side writes are exactly the bytes of the symbolic side's items: so
      the peer, too, reads what the symbolic exchange says. */
  lemma WritesTheScript(g: Config, y: Crypto, w: World, r: Role, b: seq<byte>)
    requires Ideal(g, y) && Inv(g, w)
    requires AllSendable(y, SideOf(w, Other(r)).sent) && b <= Wire(y, SideOf(w, Other(r)).sent)
    ensures |y.element(ElementOf(g, r))| == ELEMENT_LEN
    ensures AllSendable(y, Scripted(g, r, Reach(g, r, b), SamePin(g)))
    ensures Written(y, g.c, r, PartyOf(g, r), b) == Wire(y, Scripted(g, r, Reach(g, r, b), SamePin(g)))
  {
    var n := Reach(g, r, b);
    assert IdealFor(g, y, r);
    KeyOnTheWire(g, y, w, r, b);
    ScriptedSendable(g, y, r, n, SamePin(g));
    if n == 1 {
      WireOfElement(g, y, r, SamePin(g));
    } else {
      AnswerOnTheWire(g, y, w, r, b);
      ScriptedSendable(g, y, r, 3, SamePin(g));
      WireOfOpening(g, y, r, SamePin(g));
      if n == 4 {
        WireOfAll(g, y, r, SamePin(g));
      }
    }
  }
}
