/**
 Packets as byte frames: a header of 24 bytes in big-endian order and then the payload.
 */
module PacketFrames {
  import opened Wrappers

  type Byte = i: int | 0 <= i < 256

  const U32: int := 0x1_0000_0000
  const U64: int := 0x1_0000_0000_0000_0000
  const HEADER_SIZE: nat := 24
  const MAX_PAYLOAD: nat := 4096 * 1024

  datatype Header = Header(magic: int, id: int, source: int, target: int, length: int) {
    /** The ranges of the five fields: two unsigned and two signed words, and an unsigned double word. */
    predicate Fits() {
      0 <= magic < U32 && 0 <= id < U32 && -U32 / 2 <= source < U32 / 2 && -U32 / 2 <= target < U32 / 2 &&
      0 <= length < U64
    }
  }

  datatype Packet = Packet(header: Header, payload: seq<Byte>)

  /** Whether the buffer of a payload is only reserved, as written, or resized, as meant. */
  datatype Sizing = Reserve | Resize

  // ---------------------------------------------------------------------------------------------
  // Numbers as bytes

  function Pow256(k: nat): (p: nat)
    ensures p > 0
  {
    if k == 0 then 1 else 256 * Pow256(k - 1)
  }

  function BigEndian(n: nat, k: nat): (b: seq<Byte>)
    ensures |b| == k
  {
    if k == 0 then [] else BigEndian(n / 256, k - 1) + [n % 256]
  }

  function Value(b: seq<Byte>): (n: nat)
    ensures n < Pow256(|b|)
  {
    if b == [] then 0 else 256 * Value(b[..|b| - 1]) + b[|b| - 1]
  }

  lemma {:induction false} ValueOfBytes(n: nat, k: nat)
    requires n < Pow256(k)
    ensures Value(BigEndian(n, k)) == n
  {
    if k > 0 {
      ValueOfBytes(n / 256, k - 1);
      assert BigEndian(n, k)[..k - 1] == BigEndian(n / 256, k - 1);
    }
  }

  /** The most significant byte comes first: the byte at place `i` of `k` counts the 256^(k - 1 - i). */
  lemma {:induction false} ByteAtPlace(n: nat, k: nat, i: nat)
    requires i < k
    ensures BigEndian(n, k)[i] == n / Pow256(k - 1 - i) % 256
  {
    if i < k - 1 {
      ByteAtPlace(n / 256, k - 1, i);
      QuotientOfQuotient(n, Pow256(k - 2 - i));
    }
  }

  lemma QuotientOfQuotient(n: nat, m: nat)
    requires m > 0
    ensures n / 256 / m == n / (256 * m)
  {
    var q := n / 256 / m;
    assert n / 256 == q * m + n / 256 % m;
    assert n == 256 * (q * m) + (256 * (n / 256 % m) + n % 256);
    assert 0 <= 256 * (n / 256 % m) + n % 256 < 256 * m;
    QuotientIs(n, 256 * m, q, 256 * (n / 256 % m) + n % 256);
  }

  lemma QuotientIs(n: nat, m: nat, q: nat, r: nat)
    requires n == q * m + r && r < m
    ensures n / m == q
  {
    SmallMultiple(n / m - q, m);
    assert (n / m) * m + n % m == n;
    assert (n / m - q) * m == (n / m) * m - q * m;
  }

  lemma SmallMultiple(d: int, m: nat)
    ensures 0 - m < d * m < m ==> d == 0
  {
    if d >= 1 {
      assert d * m >= m;
    } else if d <= -1 {
      assert d * m <= 0 - m;
    }
  }

  lemma ValueStep(b: seq<Byte>, k: nat)
    requires k < |b|
    ensures Value(b[..k + 1]) == 256 * Value(b[..k]) + b[k]
  {
    assert b[..k + 1][..k] == b[..k];
  }

  /** Four bytes as a number, the most significant one first. */
  lemma ValueOfFour(b: seq<Byte>)
    requires |b| >= 4
    ensures var c: seq<int> := b;
            Value(b[..4]) == 0x100_0000 * c[0] + 0x1_0000 * c[1] + 0x100 * c[2] + c[3]
  {
    hide Value;
    ValueOfNone(b);
    ValueStep(b, 0);
    ValueStep(b, 1);
    ValueStep(b, 2);
    ValueStep(b, 3);
  }

  /** Eight bytes likewise. */
  lemma ValueOfEight(b: seq<Byte>)
    requires |b| == 8
    ensures var c: seq<int> := b;
            Value(b) == 0x100_0000_0000_0000 * c[0] + 0x1_0000_0000_0000 * c[1] + 0x100_0000_0000 * c[2] +
                        0x1_0000_0000 * c[3] + 0x100_0000 * c[4] + 0x1_0000 * c[5] + 0x100 * c[6] + c[7]
  {
    hide Value;
    ValueOfFour(b);
    ValueStep(b, 4);
    ValueStep(b, 5);
    ValueStep(b, 6);
    ValueStep(b, 7);
    assert b[..8] == b;
  }

  lemma ValueOfNone(b: seq<Byte>)
    ensures Value(b[..0]) == 0
  {
  }

  lemma LastByte(v: nat, d: Byte)
    ensures (256 * v + d) / 256 == v && (256 * v + d) % 256 == d
  {
  }

  lemma {:induction false} BytesOfValue(b: seq<Byte>)
    ensures BigEndian(Value(b), |b|) == b
  {
    if b != [] {
      var init, last := b[..|b| - 1], b[|b| - 1];
      BytesOfValue(init);
      LastByte(Value(init), last);
      assert BigEndian(Value(b), |b|) == BigEndian(Value(init), |init|) + [last];
      assert b == init + [last];
    }
  }

  lemma Sizes()
    ensures Pow256(4) == U32 && Pow256(8) == U64
  {
    assert Pow256(1) == 256 && Pow256(2) == 0x1_0000 && Pow256(3) == 0x100_0000;
    assert Pow256(5) == 0x100_0000_0000 && Pow256(6) == 0x1_0000_0000_0000 && Pow256(7) == 0x100_0000_0000_0000;
  }

  /** A signed word as the unsigned one with the same bits. */
  function Unsigned(i: int): int {
    if i < 0 then i + U32 else i
  }

  function Signed(n: int): int {
    if n >= U32 / 2 then n - U32 else n
  }

  // ---------------------------------------------------------------------------------------------
  // Headers

  function HeaderBytes(h: Header): (b: seq<Byte>)
    requires h.Fits()
    ensures |b| == HEADER_SIZE
  {
    BigEndian(h.magic, 4) + BigEndian(h.id, 4) + BigEndian(Unsigned(h.source), 4) + BigEndian(Unsigned(h.target), 4) +
    BigEndian(h.length, 8)
  }

  function HeaderOf(b: seq<Byte>): (h: Header)
    requires |b| == HEADER_SIZE
    ensures h.Fits()
  {
    Sizes();
    Header(Value(b[0..4]), Value(b[4..8]), Signed(Value(b[8..12])), Signed(Value(b[12..16])), Value(b[16..24]))
  }

  /** Which bytes of a header hold which field. */
  lemma FieldsAtPlaces(bytes: seq<Byte>)
    requires |bytes| == HEADER_SIZE
    ensures var h, b: seq<int> := HeaderOf(bytes), bytes;
            h.magic == 0x100_0000 * b[0] + 0x1_0000 * b[1] + 0x100 * b[2] + b[3] &&
            h.id == 0x100_0000 * b[4] + 0x1_0000 * b[5] + 0x100 * b[6] + b[7] &&
            h.source == 0x100_0000 * b[8] + 0x1_0000 * b[9] + 0x100 * b[10] + b[11] -
                        (if b[8] >= 128 then 0x1_0000_0000 else 0) &&
            h.target == 0x100_0000 * b[12] + 0x1_0000 * b[13] + 0x100 * b[14] + b[15] -
                        (if b[12] >= 128 then 0x1_0000_0000 else 0) &&
            h.length == 0x100_0000_0000_0000 * b[16] + 0x1_0000_0000_0000 * b[17] + 0x100_0000_0000 * b[18] +
                        0x1_0000_0000 * b[19] + 0x100_0000 * b[20] + 0x1_0000 * b[21] + 0x100 * b[22] + b[23]
  {
    ValueOfFour(bytes[0..4]);
    ValueOfFour(bytes[4..8]);
    ValueOfFour(bytes[8..12]);
    ValueOfFour(bytes[12..16]);
    ValueOfEight(bytes[16..24]);
    hide Value;
    assert forall i, j | 0 <= i <= j <= 24 && j == i + 4 :: bytes[i..j][..4] == bytes[i..j];
  }

  /** The bytes of a header, field by field and the most significant first; negative words by their two's complement. */
  lemma BytesAtPlaces(h: Header, i: nat)
    requires h.Fits() && i < 8
    ensures var b := HeaderBytes(h);
            var source := if h.source < 0 then h.source + 0x1_0000_0000 else h.source;
            var target := if h.target < 0 then h.target + 0x1_0000_0000 else h.target;
            b[16 + i] == h.length / Pow256(7 - i) % 256 &&
            (i < 4 ==> b[i] == h.magic / Pow256(3 - i) % 256 && b[4 + i] == h.id / Pow256(3 - i) % 256 &&
                       b[8 + i] == source / Pow256(3 - i) % 256 && b[12 + i] == target / Pow256(3 - i) % 256)
  {
    hide BigEndian, Pow256;
    ByteAtPlace(h.length, 8, i);
    if i < 4 {
      ByteAtPlace(h.magic, 4, i);
      ByteAtPlace(h.id, 4, i);
      ByteAtPlace(Unsigned(h.source), 4, i);
      ByteAtPlace(Unsigned(h.target), 4, i);
    }
  }

  /** Negative sources and targets included. */
  lemma HeaderRoundTrip(h: Header)
    requires h.Fits()
    ensures HeaderOf(HeaderBytes(h)) == h
  {
    Sizes();
    var b := HeaderBytes(h);
    assert b[0..4] == BigEndian(h.magic, 4) && b[4..8] == BigEndian(h.id, 4);
    assert b[8..12] == BigEndian(Unsigned(h.source), 4) && b[12..16] == BigEndian(Unsigned(h.target), 4);
    assert b[16..24] == BigEndian(h.length, 8);
    ValueOfBytes(h.magic, 4);
    ValueOfBytes(h.id, 4);
    ValueOfBytes(Unsigned(h.source), 4);
    ValueOfBytes(Unsigned(h.target), 4);
    ValueOfBytes(h.length, 8);
  }

  /** Every 24 bytes are the bytes of a header. */
  lemma BytesRoundTrip(b: seq<Byte>)
    requires |b| == HEADER_SIZE
    ensures HeaderBytes(HeaderOf(b)) == b
  {
    Sizes();
    BytesOfValue(b[0..4]);
    BytesOfValue(b[4..8]);
    BytesOfValue(b[8..12]);
    BytesOfValue(b[12..16]);
    BytesOfValue(b[16..24]);
    assert b == b[0..4] + b[4..8] + b[8..12] + b[12..16] + b[16..24];
  }

  // ---------------------------------------------------------------------------------------------
  // Frames

  /** What an encoding writes; a length over the limit writes nothing. */
  function Frame(p: Packet): seq<Byte>
    requires p.header.Fits()
  {
    if p.header.length == 0 then HeaderBytes(p.header)
    else if p.header.length > MAX_PAYLOAD then []
    else HeaderBytes(p.header) + p.payload
  }

  /** Whether an encoding reports success. */
  predicate Accepted(p: Packet) {
    p.header.length == 0 || (p.header.length <= MAX_PAYLOAD && p.payload != [])
  }

  /** A decoding into a packet whose payload buffer holds `buffer`: the packet and the bytes left. */
  function Decode(sizing: Sizing, bytes: seq<Byte>, buffer: seq<Byte>): Option<(Packet, seq<Byte>)> {
    if |bytes| < HEADER_SIZE then None
    else
      var h, rest := HeaderOf(bytes[..HEADER_SIZE]), bytes[HEADER_SIZE..];
      if h.length == 0 then Some((Packet(h, buffer), rest))
      else if h.length > MAX_PAYLOAD then None
      else
        var asked := if sizing == Resize then h.length else |buffer|;
        if |rest| < asked || asked < h.length then None
        else Some((Packet(h, rest[..asked]), rest[asked..]))
  }

  /** The header announces the payload that is there. */
  predicate Honest(p: Packet) {
    p.header.Fits() && p.header.length == |p.payload| <= MAX_PAYLOAD
  }

  lemma FrameDecodes(p: Packet, rest: seq<Byte>)
    requires Honest(p)
    ensures Accepted(p) && Decode(Resize, Frame(p) + rest, []) == Some((p, rest))
  {
    hide HeaderBytes, HeaderOf;
    var bytes := Frame(p) + rest;
    HeaderRoundTrip(p.header);
    assert bytes[..HEADER_SIZE] == HeaderBytes(p.header);
    assert bytes[HEADER_SIZE..] == p.payload + rest;
  }

  /** A packet within the limit comes back, whatever follows its frame, exactly when its header is honest. */
  lemma ComesBackIff(p: Packet)
    requires p.header.Fits() && p.header.length <= MAX_PAYLOAD
    ensures (forall rest :: Decode(Resize, Frame(p) + rest, []) == Some((p, rest))) <==> Honest(p)
  {
    if Honest(p) {
      forall rest
        ensures Decode(Resize, Frame(p) + rest, []) == Some((p, rest))
      {
        FrameDecodes(p, rest);
      }
    } else {
      DishonestIsLost(p);
    }
  }

  lemma DishonestIsLost(p: Packet)
    requires p.header.Fits() && p.header.length <= MAX_PAYLOAD && !Honest(p)
    ensures Decode(Resize, Frame(p) + [], []) != Some((p, []))
  {
    hide HeaderBytes, HeaderOf;
    var bytes := Frame(p) + [];
    HeaderRoundTrip(p.header);
    assert bytes[..HEADER_SIZE] == HeaderBytes(p.header);
  }

  // ---------------------------------------------------------------------------------------------
  // Streams of packets

  predicate AllHonest(ps: seq<Packet>) {
    forall i | 0 <= i < |ps| :: Honest(ps[i])
  }

  function Frames(ps: seq<Packet>): seq<Byte>
    requires AllHonest(ps)
  {
    if ps == [] then [] else Frame(ps[0]) + Frames(ps[1..])
  }

  /** Decodes `n` packets, each into an empty one. */
  function DecodeMany(bytes: seq<Byte>, n: nat): Option<(seq<Packet>, seq<Byte>)> {
    if n == 0 then Some(([], bytes))
    else match Decode(Resize, bytes, [])
      case None => None
      case Some((p, rest)) =>
        match DecodeMany(rest, n - 1)
        case None => None
        case Some((ps, left)) => Some(([p] + ps, left))
  }

  /** Packets encoded back to back decode to the same packets and use up exactly their bytes. */
  lemma {:induction false} StreamRoundTrip(ps: seq<Packet>, rest: seq<Byte>)
    requires AllHonest(ps)
    ensures DecodeMany(Frames(ps) + rest, |ps|) == Some((ps, rest))
  {
    hide Frame, Decode, HeaderBytes;
    if ps == [] {
      assert Frames(ps) + rest == rest;
    } else {
      FrameDecodes(ps[0], Frames(ps[1..]) + rest);
      StreamRoundTrip(ps[1..], rest);
      assert Frames(ps) + rest == Frame(ps[0]) + (Frames(ps[1..]) + rest);
      assert [ps[0]] + ps[1..] == ps;
    }
  }

  /** No stream is the concatenation of the frames of two different lists of the same length. */
  lemma {:induction false} StreamsAreUnambiguous(ps: seq<Packet>, qs: seq<Packet>, rest: seq<Byte>, tail: seq<Byte>)
    requires AllHonest(ps) && AllHonest(qs)
    requires |ps| == |qs| && Frames(ps) + rest == Frames(qs) + tail
    ensures ps == qs && rest == tail
  {
    StreamRoundTrip(ps, rest);
    StreamRoundTrip(qs, tail);
  }

  // ---------------------------------------------------------------------------------------------
  // As written

  /**
   With a reserved buffer the decoder asks for as many bytes as the packet's old payload had: it
   returns the frame exactly when the old payload happened to have the length of the new one.
   */
  lemma ReservedBufferIff(p: Packet, buffer: seq<Byte>, rest: seq<Byte>)
    requires Honest(p) && p.payload != []
    ensures Decode(Reserve, Frame(p) + rest, buffer) == Some((p, rest)) <==> |buffer| == |p.payload|
    ensures Decode(Reserve, Frame(p) + rest, buffer).Some? <==> |p.payload| <= |buffer| <= |p.payload| + |rest|
  {
    hide HeaderBytes, HeaderOf;
    var bytes := Frame(p) + rest;
    HeaderRoundTrip(p.header);
    assert bytes[..HEADER_SIZE] == HeaderBytes(p.header);
    var left := bytes[HEADER_SIZE..];
    assert left == p.payload + rest;
    if |buffer| == |p.payload| {
      assert left[..|buffer|] == p.payload && left[|buffer|..] == rest;
    }
  }

  /** What FromString leaves in a payload: reserving does not change its size, copying stays in front. */
  function Filled(sizing: Sizing, buffer: seq<Byte>, data: seq<Byte>): seq<Byte> {
    if sizing == Resize then data
    else if |buffer| <= |data| then data[..|buffer|]
    else data + buffer[|data|..]
  }

  /** SetData makes an honest packet with the data exactly when the buffer had the right size or is resized. */
  lemma SetDataIsHonestIff(sizing: Sizing, p: Packet, data: seq<Byte>)
    requires p.header.Fits() && |data| <= MAX_PAYLOAD
    ensures var q := Packet(p.header.(length := |data|), Filled(sizing, p.payload, data));
            Honest(q) && q.payload == data <==> sizing == Resize || |p.payload| == |data|
  {
  }
}
