/** Frames on the wire: fl_frame_encode, fl_frame_decode and what the CRC detects. */
module Frame {
  import opened Words
  import opened Bits
  import opened Crc
  import opened LittleEndian
  import CyclicCode

  const MAGIC: u16 := 0x464C
  const HEADER_SIZE := 10
  const PAYLOAD_MAX := 214
  const FRAME_MAX := 224
  const HERALD_ID: u16 := 0xFFFF

  const BEACON: u8 := 0x01
  const DELTA: u8 := 0x02
  const UPDATE: u8 := 0x03
  const ACK: u8 := 0x04
  const ROUND_CLOSE: u8 := 0x05

  /** A frame with the payload bytes that travel; the C struct pads the rest with zeros. */
  datatype Frame = Frame(magic: u16, kind: u8, shardId: u16, roundId: u8, fragIndex: u8, fragTotal: u8,
                         crc: u16, payload: bytes)

  datatype Error = BufferTooSmall | Capacity | BadMagic | BadCrc
  datatype Result<T> = Ok(value: T) | Err(error: Error)

  function Low(x: u16): u8 {
    x as int % 0x100
  }

  function High(x: u16): u8 {
    x as int / 0x100
  }

  function Join(low: u8, high: u8): u16 {
    low as int + 0x100 * high as int
  }

  /** The first eight header bytes, in wire order. */
  function Header(magic: u16, kind: u8, shardId: u16, roundId: u8, fragIndex: u8, fragTotal: u8): (h: bytes)
    ensures |h| == 8
  {
    [Low(magic), High(magic), kind, Low(shardId), High(shardId), roundId, fragIndex, fragTotal]
  }

  /** The bytes that go over the air. */
  function Wire(f: Frame): (w: bytes)
    ensures |w| == HEADER_SIZE + |f.payload|
  {
    Header(f.magic, f.kind, f.shardId, f.roundId, f.fragIndex, f.fragTotal) + [Low(f.crc), High(f.crc)] + f.payload
  }

  /** The bytes the CRC covers, of a frame and of received bytes. */
  function Covered(raw: bytes): (c: bytes)
    requires |raw| >= HEADER_SIZE
    ensures |c| == |raw| - 2
  {
    raw[..8] + raw[HEADER_SIZE..]
  }

  /** The frame fl_frame_encode makes. */
  function Encoded(kind: u8, shardId: u16, roundId: u8, fragIndex: u8, fragTotal: u8, payload: bytes): Result<Frame> {
    if |payload| > PAYLOAD_MAX then Err(BufferTooSmall)
    else Ok(Frame(MAGIC, kind, shardId, roundId, fragIndex, fragTotal,
                  Checksum(Header(MAGIC, kind, shardId, roundId, fragIndex, fragTotal) + payload), payload))
  }

  /** What fl_frame_decode makes of received bytes. */
  function Decoded(raw: bytes): Result<Frame> {
    if |raw| < HEADER_SIZE then Err(Capacity)
    else if Join(raw[0], raw[1]) != MAGIC then Err(BadMagic)
    else if Join(raw[8], raw[9]) != Checksum(Covered(raw)) then Err(BadCrc)
    else Ok(Frame(Join(raw[0], raw[1]), raw[2], Join(raw[3], raw[4]), raw[5], raw[6], raw[7],
                  Join(raw[8], raw[9]), raw[HEADER_SIZE..]))
  }

  method Encode(kind: u8, shardId: u16, roundId: u8, fragIndex: u8, fragTotal: u8, payload: bytes)
    returns (r: Result<Frame>)
    ensures r == Encoded(kind, shardId, roundId, fragIndex, fragTotal, payload)
  {
    if |payload| > PAYLOAD_MAX {
      return Err(BufferTooSmall);
    }
    var header := Header(MAGIC, kind, shardId, roundId, fragIndex, fragTotal);
    var crc := FrameCrc(header, payload);
    assert header[..8] == header;
    r := Ok(Frame(MAGIC, kind, shardId, roundId, fragIndex, fragTotal, crc, payload));
  }

  /** The receive buffers hold at most FRAME_MAX bytes. */
  method Decode(raw: bytes) returns (r: Result<Frame>)
    requires |raw| <= FRAME_MAX
    ensures r == Decoded(raw)
  {
    if |raw| < HEADER_SIZE {
      return Err(Capacity);
    }
    if Join(raw[0], raw[1]) != MAGIC {
      return Err(BadMagic);
    }
    var expected := FrameCrc(raw[..HEADER_SIZE], raw[HEADER_SIZE..]);
    assert raw[..HEADER_SIZE][..8] == raw[..8];
    if Join(raw[8], raw[9]) != expected {
      return Err(BadCrc);
    }
    r := Ok(Frame(Join(raw[0], raw[1]), raw[2], Join(raw[3], raw[4]), raw[5], raw[6], raw[7],
                  Join(raw[8], raw[9]), raw[HEADER_SIZE..]));
  }

  /** A payload is refused exactly when header and payload exceed what the radio takes. */
  lemma FitsExactly(kind: u8, shardId: u16, roundId: u8, fragIndex: u8, fragTotal: u8, payload: bytes)
    ensures var f := Encoded(kind, shardId, roundId, fragIndex, fragTotal, payload);
            if 10 + |payload| <= 224 then f.Ok? && |Wire(f.value)| == 10 + |payload| else f == Err(BufferTooSmall)
  {
    hide Checksum;
  }

  /** Where the fields of a frame are on the wire, numbers with the low byte first. */
  lemma WireLayout(f: Frame)
    ensures var w := Wire(f);
            LE(w[0..2]) == f.magic && w[2] == f.kind && LE(w[3..5]) == f.shardId && w[5] == f.roundId &&
            w[6] == f.fragIndex && w[7] == f.fragTotal && LE(w[8..10]) == f.crc && w[10..] == f.payload
  {
    var w := Wire(f);
    LETwo(w[0], w[1]);
    LETwo(w[3], w[4]);
    LETwo(w[8], w[9]);
    hide LE;
    assert w[0..2] == [w[0], w[1]] && w[3..5] == [w[3], w[4]] && w[8..10] == [w[8], w[9]];
  }

  lemma JoinSplit(x: u16)
    ensures Join(Low(x), High(x)) == x
  {
  }

  /** What was encoded is decoded, field by field. */
  lemma DecodeWire(kind: u8, shardId: u16, roundId: u8, fragIndex: u8, fragTotal: u8, payload: bytes)
    requires |payload| <= PAYLOAD_MAX
    ensures var f := Encoded(kind, shardId, roundId, fragIndex, fragTotal, payload);
            f.Ok? && Decoded(Wire(f.value)) == f
            && f.value.kind == kind && f.value.shardId == shardId && f.value.payload == payload
  {
    hide Checksum;
    var f := Encoded(kind, shardId, roundId, fragIndex, fragTotal, payload).value;
    var w := Wire(f);
    JoinSplit(f.magic);
    JoinSplit(f.shardId);
    JoinSplit(f.crc);
    assert w[..8] == Header(f.magic, f.kind, f.shardId, f.roundId, f.fragIndex, f.fragTotal);
    assert w[HEADER_SIZE..] == payload;
  }

  // ----- error detection

  /** The checksum fields of two received strings of equal length, compared. */
  function CrcField(raw: bytes): u16
    requires |raw| >= HEADER_SIZE
  {
    Join(raw[8], raw[9])
  }

  /** After an error in an accepted frame: the received bytes are accepted exactly when
      the magic is intact and the error in the CRC field equals the checksum, from zero,
      of the error in the covered bits. */
  lemma AcceptedExactly(raw: bytes, got: bytes)
    requires Decoded(raw).Ok? && |got| == |raw|
    ensures Decoded(got).Ok? <==>
              Join(got[0], got[1]) == MAGIC &&
              Xor16(CrcField(raw), CrcField(got)) == FeedBits(0, Difference(Stream(Covered(raw)), Stream(Covered(got))))
  {
    hide Checksum, Stream, FeedBits, Difference, Xor;
    Syndrome(Covered(raw), Covered(got));
    XorRight(CrcField(raw), CrcField(got), Checksum(Covered(got)));
  }

  /** The error in an accepted frame: that of the covered bits, and then that of the CRC field
      from its highest bit down. */
  function ErrorOf(raw: bytes, got: bytes): seq<bool>
    requires |raw| == |got| >= HEADER_SIZE
  {
    Difference(Stream(Covered(raw)), Stream(Covered(got))) + LowBits(Xor16(CrcField(raw), CrcField(got)), 16)
  }

  lemma FieldWord(x: u16)
    ensures |LowBits(x, 16)| == 16 && Crc.Word(LowBits(x, 16)) == x
  {
    hide LowBits, Crc.Word;
    WordOfLowBits(x, 16);
    Pow2Of16();
    assert Pow2(0) == 1;
  }

  lemma FeedField(r: u16, x: u16)
    ensures FeedBits(r, LowBits(x, 16)) == 0 <==> r == x
  {
    hide FeedBits, LowBits, Crc.Word, Xor, Shifts;
    FieldWord(x);
    FeedWord(r, LowBits(x, 16));
    XorZero(r, x);
    if Xor16(r, x) == 0 {
      ShiftsOfZero(16);
    } else {
      ShiftsNonZero(16, Xor16(r, x));
    }
  }

  /** After any error in an accepted frame the received bytes are accepted exactly when the magic
      is intact and the error is a multiple of the generator x^16 + x^12 + x^5 + 1. */
  lemma UndetectedExactly(raw: bytes, got: bytes)
    requires Decoded(raw).Ok? && |got| == |raw|
    ensures Decoded(got).Ok? <==> Join(got[0], got[1]) == MAGIC && CyclicCode.IsMultiple(ErrorOf(raw, got))
  {
    var e, x := Difference(Stream(Covered(raw)), Stream(Covered(got))), Xor16(CrcField(raw), CrcField(got));
    AcceptedExactly(raw, got);
    CyclicCode.MultipleExactly(e + LowBits(x, 16));
    FeedBitsAppend(0, e, LowBits(x, 16));
    FeedField(FeedBits(0, e), x);
    hide FeedBits, LowBits, Stream, Difference, Xor, Checksum, CyclicCode.IsMultiple;
  }

  lemma XorRight(a: u16, b: u16, c: u16)
    ensures Xor16(a, b) == Xor16(a, c) <==> b == c
  {
    XorComm(a, b);
    XorComm(a, c);
    XorCancel(b, a);
    XorCancel(c, a);
  }

  /** A non-zero error confined to sixteen consecutive covered bits is detected. */
  lemma BurstDetected(raw: bytes, got: bytes, start: nat)
    requires Decoded(raw).Ok? && |got| == |raw|
    requires CrcField(got) == CrcField(raw) && Covered(got) != Covered(raw)
    requires var e := Difference(Stream(Covered(raw)), Stream(Covered(got)));
             forall i :: 0 <= i < |e| && e[i] ==> start <= i < start + 16
    ensures Decoded(got) == Err(BadMagic) || Decoded(got) == Err(BadCrc)
  {
    hide Checksum, Difference, FeedBits, Xor, Covered;
    var a, b := Covered(raw), Covered(got);
    var j := StreamsDiffer(a, b);
    BurstShows(Difference(Stream(a), Stream(b)), start, j);
    AcceptedExactly(raw, got);
    assert Xor16(CrcField(raw), CrcField(got)) == 0 by {
      XorSelf(CrcField(raw));
    }
  }

  /** Different byte strings of equal length differ in some bit. */
  lemma {:induction false} StreamsDiffer(a: bytes, b: bytes) returns (j: nat)
    requires |a| == |b| && a != b
    ensures j < |Stream(a)| && Difference(Stream(a), Stream(b))[j]
    decreases |a|
  {
    if a[0] != b[0] {
      j := LowBitsDiffer(a[0], b[0], 8);
    } else {
      assert a == [a[0]] + a[1..] && b == [b[0]] + b[1..];
      var k := StreamsDiffer(a[1..], b[1..]);
      j := 8 + k;
    }
  }

  lemma {:induction false} LowBitsDiffer(x: nat, y: nat, n: nat) returns (j: nat)
    requires x % Pow2(n) != y % Pow2(n)
    ensures j < n && LowBits(x, n)[j] != LowBits(y, n)[j]
  {
    if n == 0 {
      assert false;
    } else if x / Pow2(n - 1) % 2 != y / Pow2(n - 1) % 2 {
      j := 0;
    } else {
      TopDigit(x, Pow2(n - 1));
      TopDigit(y, Pow2(n - 1));
      var k := LowBitsDiffer(x, y, n - 1);
      j := k + 1;
    }
  }

  // ----- parity

  lemma {:induction false} OddJoin(low: nat, high: nat, k: nat)
    requires low < Pow2(k)
    ensures Pow2(k) * high >= 0 && Odd(low + Pow2(k) * high) == (Odd(low) != Odd(high))
  {
    if k == 0 {
    } else {
      OddJoin(low / 2, high, k - 1);
      ShiftedHalf(high, k);
      var half := Pow2(k - 1) * high;
      OddHalf(low);
      OddHalf(low + 2 * half);
      assert (low + 2 * half) / 2 == low / 2 + half && (low + 2 * half) % 2 == low % 2;
    }
  }

  lemma {:induction false} OddLowBits(b: nat, n: nat)
    ensures OddBits(LowBits(b, n)) == Odd(b % Pow2(n))
  {
    if n == 0 {
      assert b % 1 == 0;
    } else {
      var p := Pow2(n - 1);
      OddLowBits(b, n - 1);
      assert LowBits(b, n)[1..] == LowBits(b, n - 1);
      TopDigit(b, p);
      OddJoin(b % p, b / p % 2, n - 1);
      OddHalf(1);
    }
  }

  lemma {:induction false} StreamAppend(a: bytes, b: bytes)
    ensures Stream(a + b) == Stream(a) + Stream(b)
    decreases |a|
  {
    if a == [] {
      assert a + b == b;
    } else {
      hide LowBits;
      StreamAppend(a[1..], b);
      assert (a + b)[0] == a[0] && (a + b)[1..] == a[1..] + b;
      assert LowBits(a[0], 8) + (Stream(a[1..]) + Stream(b)) == LowBits(a[0], 8) + Stream(a[1..]) + Stream(b);
    }
  }

  lemma {:induction false} OddDifference(a: seq<bool>, b: seq<bool>)
    requires |a| == |b|
    ensures OddBits(Difference(a, b)) == (OddBits(a) != OddBits(b))
    decreases |a|
  {
    if a == [] {
    } else {
      OddDifference(a[1..], b[1..]);
      assert Difference(a, b)[1..] == Difference(a[1..], b[1..]);
    }
  }

  lemma StreamOne(b: u8)
    ensures Stream([b]) == LowBits(b, 8)
  {
    hide LowBits;
    assert Stream([b]) == LowBits(b, 8) + Stream([]);
  }

  lemma OddByte(b: u8)
    ensures OddBits(Stream([b])) == Odd(b)
  {
    hide LowBits, Stream, OddBits, Odd;
    Pow2Bytes();
    StreamOne(b);
    OddLowBits(b, 8);
  }

  /** The checksum of a string has the parity of the string. */
  lemma OddChecksum(m: bytes)
    ensures Odd(Checksum(m)) == OddBits(Stream(m))
  {
    hide Stream, Odd, FeedBits;
    FeedStream(0xFFFF, m);
    OddFeed(0xFFFF, Stream(m));
    Pow2Bytes();
    OddJoin(0xFF, 0xFF, 8);
  }

  lemma OddField(low: u8, high: u8)
    ensures OddBits(Stream([low, high])) == Odd(Join(low, high))
  {
    hide Odd;
    Pow2Bytes();
    OddByte(low);
    OddByte(high);
    StreamAppend([low], [high]);
    assert [low] + [high] == [low, high];
    hide Stream;
    OddAppend(Stream([low]), Stream([high]));
    OddJoin(low, high, 8);
  }

  /** Every accepted frame has an even number of one bits. */
  lemma AcceptedIsEven(raw: bytes)
    requires Decoded(raw).Ok?
    ensures !OddBits(Stream(raw))
  {
    hide Odd, Stream, Checksum;
    var a, c, b := raw[..8], raw[8..HEADER_SIZE], raw[HEADER_SIZE..];
    assert raw == a + (c + b) && c == [raw[8], raw[9]];
    StreamAppend(a, c + b);
    StreamAppend(c, b);
    StreamAppend(a, b);
    OddAppend(Stream(a), Stream(c) + Stream(b));
    OddAppend(Stream(c), Stream(b));
    OddAppend(Stream(a), Stream(b));
    OddChecksum(a + b);
    OddField(raw[8], raw[9]);
  }

  /** An odd number of flipped bits anywhere in the frame, CRC field included, is detected. */
  lemma OddErrorDetected(raw: bytes, got: bytes)
    requires Decoded(raw).Ok? && |got| == |raw|
    requires OddBits(Difference(Stream(raw), Stream(got)))
    ensures Decoded(got) == Err(BadMagic) || Decoded(got) == Err(BadCrc)
  {
    hide Stream, Checksum;
    OddDifference(Stream(raw), Stream(got));
    AcceptedIsEven(raw);
    if Decoded(got).Ok? {
      AcceptedIsEven(got);
    }
  }
}
