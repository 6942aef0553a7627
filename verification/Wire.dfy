/** stuff_frame and unstuff_frame: checksum, byte stuffing and delimiter, and what they catch. */
module Wire {
  import opened Prelude
  import opened Crc
  import Cobs

  datatype WireError = MissingDelimiter | Malformed(cause: Cobs.CobsError) | TooShort | CrcMismatch

  function ByteOf(b: bv8): byte
  {
    Value(OctetOf(b))
  }

  /** crc.to_bytes(2, "little"). */
  function CrcBytes(crc: bv16): (b: bytes)
    ensures |b| == 2
  {
    [ByteOf(Low(crc)), ByteOf(High(crc))]
  }

  function Body(raw: bytes): bytes
  {
    raw + CrcBytes(Crc16(raw))
  }

  function Stuff(raw: bytes): bytes
  {
    Cobs.Encode(Body(raw)) + [0]
  }

  function CheckBody(body: bytes): Result<bytes, WireError>
  {
    if |body| < 2 then Err(TooShort)
    else
      var raw, tail := body[..|body| - 2], body[|body| - 2..];
      if Read16(tail, 0) != Read16(CrcBytes(Crc16(raw)), 0) then Err(CrcMismatch) else Ok(raw)
  }

  function Unstuff(data: bytes): Result<bytes, WireError>
  {
    if data == [] || data[|data| - 1] != 0 then Err(MissingDelimiter)
    else match Cobs.Decode(data[..|data| - 1])
      case Err(e) => Err(Malformed(e))
      case Ok(body) => CheckBody(body)
  }

  // ----- Round trip -----

  lemma {:induction false} ByteOfBits(b: bv8)
    ensures ByteBits(ByteOf(b)) == OctetOf(b)
  {
    BitsOfValue(OctetOf(b));
  }

  lemma {:induction false} OctetInjective(a: bv8, b: bv8)
    requires OctetOf(a) == OctetOf(b)
    ensures a == b
  {}

  lemma {:induction false} HalvesDetermine(a: bv16, b: bv16)
    requires Low(a) == Low(b) && High(a) == High(b)
    ensures a == b
  {}

  lemma {:induction false} LittleInjective(a0: byte, a1: byte, b0: byte, b1: byte)
    requires Read16([a0, a1], 0) == Read16([b0, b1], 0)
    ensures a0 == b0 && a1 == b1
  {}

  /** The checksum's low byte goes out first. */
  lemma {:induction false} LowByteFirst(crc: bv16)
    ensures ByteBits(CrcBytes(crc)[0]) == RegOf(crc).lo && ByteBits(CrcBytes(crc)[1]) == RegOf(crc).hi
  {
    ByteOfBits(Low(crc));
    ByteOfBits(High(crc));
  }

  lemma {:induction false} CrcBytesInjective(a: bv16, b: bv16)
    requires Read16(CrcBytes(a), 0) == Read16(CrcBytes(b), 0)
    ensures a == b
  {
    LittleInjective(ByteOf(Low(a)), ByteOf(High(a)), ByteOf(Low(b)), ByteOf(High(b)));
    ByteOfBits(Low(a));
    ByteOfBits(Low(b));
    ByteOfBits(High(a));
    ByteOfBits(High(b));
    OctetInjective(Low(a), Low(b));
    OctetInjective(High(a), High(b));
    HalvesDetermine(a, b);
  }

  lemma {:induction false} SameSum(tail: bytes, crc: bv16)
    requires |tail| == 2
    ensures Read16(tail, 0) == Read16(CrcBytes(crc), 0) <==> tail == CrcBytes(crc)
  {
    var sum := CrcBytes(crc);
    assert tail == [tail[0], tail[1]] && sum == [sum[0], sum[1]];
    if Read16(tail, 0) == Read16(sum, 0) {
      LittleInjective(tail[0], tail[1], sum[0], sum[1]);
    }
  }

  lemma {:induction false} CheckBodyAccepts(raw: bytes, body: bytes)
    ensures CheckBody(body) == Ok(raw) <==> body == Body(raw)
  {
    if |body| >= 2 {
      var head, tail := body[..|body| - 2], body[|body| - 2..];
      assert body == head + tail;
      SameSum(tail, Crc16(head));
      if body == Body(raw) {
        assert head == raw;
      }
    }
  }

  /** The gateway accepts an image exactly when it is a zero-terminated encoding of a raw frame and
      that frame's own checksum. */
  lemma {:induction false} UnstuffAccepts(data: bytes, raw: bytes)
    ensures Unstuff(data) == Ok(raw)
       <==> data != [] && data[|data| - 1] == 0 && Cobs.Decode(data[..|data| - 1]) == Ok(Body(raw))
  {
    if data != [] && Cobs.Decode(data[..|data| - 1]).Ok? {
      CheckBodyAccepts(raw, Cobs.Decode(data[..|data| - 1]).value);
    }
  }

  /** Why an image is refused: no delimiter, no decoding, no room for a checksum, or the checksum of none. */
  lemma {:induction false} UnstuffRefuses(data: bytes)
    ensures var r := Unstuff(data);
      if data == [] || data[|data| - 1] != 0 then r == Err(MissingDelimiter)
      else match Cobs.Decode(data[..|data| - 1])
        case Err(cause) => r == Err(Malformed(cause))
        case Ok(body) =>
          && (r == Err(TooShort) <==> |body| < 2)
          && (r == Err(CrcMismatch) <==> |body| >= 2 && body != Body(body[..|body| - 2]))
          && (r.Ok? ==> body == Body(r.value))
  {
    if data != [] && data[|data| - 1] == 0 && Cobs.Decode(data[..|data| - 1]).Ok? {
      var body := Cobs.Decode(data[..|data| - 1]).value;
      if |body| >= 2 {
        CheckBodyAccepts(body[..|body| - 2], body);
      }
    }
  }

  lemma {:induction false} UnstuffEncoded(body: bytes)
    ensures Unstuff(Cobs.Encode(body) + [0]) == CheckBody(body)
  {
    var data := Cobs.Encode(body) + [0];
    assert data[..|data| - 1] == Cobs.Encode(body);
    Cobs.RoundTrip(body);
  }

  lemma {:induction false} UnstuffStuff(raw: bytes)
    ensures Unstuff(Stuff(raw)) == Ok(raw)
  {
    UnstuffEncoded(Body(raw));
    CheckBodyAccepts(raw, Body(raw));
  }

  /** A zero-free image the gateway accepts is the sender's own, give or take one empty last block. */
  lemma {:induction false} AcceptedImage(x: bytes, raw: bytes)
    requires Cobs.ZeroFree(x) && Unstuff(x + [0]) == Ok(raw)
    ensures x + [0] == Stuff(raw) || x + [1] + [0] == Stuff(raw)
  {
    UnstuffAccepts(x + [0], raw);
    assert (x + [0])[..|x|] == x;
    Cobs.EncodeDecodeFrom(x);
  }

  /** One zero, at the end, and at most one byte in 254 of overhead. */
  lemma {:induction false} StuffShape(raw: bytes)
    ensures Stuff(raw) != [] && Stuff(raw)[|Stuff(raw)| - 1] == 0
    ensures Cobs.ZeroFree(Stuff(raw)[..|Stuff(raw)| - 1])
    ensures |Stuff(raw)| <= |raw| + 4 + (|raw| + 2) / 254
  {
    Cobs.RoundTrip(Body(raw));
    Cobs.EncodeLength(Body(raw));
    assert Stuff(raw)[..|Stuff(raw)| - 1] == Cobs.Encode(Body(raw));
  }

  // ----- Errors caught -----

  lemma {:induction false} WrongSumRejected(raw: bytes, crc: bv16)
    requires crc != Crc16(raw)
    ensures CheckBody(raw + CrcBytes(crc)) == Err(CrcMismatch)
  {
    var tail, body := CrcBytes(crc), raw + CrcBytes(crc);
    assert body[..|body| - 2] == raw && body[|body| - 2..] == tail;
    if Read16(tail, 0) == Read16(CrcBytes(Crc16(raw)), 0) {
      CrcBytesInjective(crc, Crc16(raw));
    }
  }

  /** A raw frame changed within sixteen consecutive bits is refused under the old checksum. */
  lemma {:induction false} BurstRejected(x: bytes, y: bytes, start: nat)
    requires |x| == |y| && x != y
    requires forall k :: 0 <= k < |Bits(x)| && Bits(x)[k] != Bits(y)[k] ==> start <= k < start + 16
    ensures Unstuff(Cobs.Encode(y + CrcBytes(Crc16(x))) + [0]) == Err(CrcMismatch)
  {
    BurstDetected(x, y, start);
    WrongSumRejected(y, Crc16(x));
    UnstuffEncoded(y + CrcBytes(Crc16(x)));
  }

  lemma {:induction false} OddHead(bit: bool, rest: seq<bool>)
    ensures (Ones([bit] + rest) % 2 == 1) == (bit != (Ones(rest) % 2 == 1))
  {}

  lemma {:induction false} OddNibble(a: bool, b: bool, c: bool, d: bool)
    ensures (Ones([a, b, c, d]) % 2 == 1) == ((a != b) != (c != d))
  {
    OddHead(d, []);
    OddHead(c, [d]);
    OddHead(b, [c, d]);
    OddHead(a, [b, c, d]);
    assert [d] + [] == [d] && [c] + [d] == [c, d] && [b] + [c, d] == [b, c, d];
    assert [a] + [b, c, d] == [a, b, c, d];
  }

  lemma {:induction false} OnesOctet(o: Octet)
    ensures (Ones(o.Seq()) % 2 == 1) == o.Odd()
  {
    var p, q := [o.b7, o.b6, o.b5, o.b4], [o.b3, o.b2, o.b1, o.b0];
    assert o.Seq() == p + q;
    OddJoin(p, q);
    OddNibble(o.b7, o.b6, o.b5, o.b4);
    OddNibble(o.b3, o.b2, o.b1, o.b0);
  }

  lemma {:induction false} OddJoin(p: seq<bool>, q: seq<bool>)
    ensures (Ones(p + q) % 2 == 1) == ((Ones(p) % 2 == 1) != (Ones(q) % 2 == 1))
  {
    OnesAppend(p, q);
  }

  lemma {:induction false} OddByte(b: byte)
    ensures Odd([b]) == ByteBits(b).Odd()
  {
    OnesOctet(ByteBits(b));
    var s := [b];
    assert Bits(s[1..]) == [];
    assert Bits(s) == ByteBits(b).Seq();
  }

  lemma {:induction false} OddAppend(x: bytes, y: bytes)
    ensures Odd(x + y) == (Odd(x) != Odd(y))
  {
    BitsAppend(x, y);
    OnesAppend(Bits(x), Bits(y));
  }

  lemma {:induction false} OddCrcBytes(crc: bv16)
    ensures Odd(CrcBytes(crc)) == OddReg(RegOf(crc))
  {
    var lo, hi := ByteOf(Low(crc)), ByteOf(High(crc));
    ByteOfBits(Low(crc));
    ByteOfBits(High(crc));
    OddByte(lo);
    OddByte(hi);
    OddAppend([lo], [hi]);
    assert CrcBytes(crc) == [lo] + [hi];
  }

  /** The checksum has the parity of the data it covers. */
  lemma {:induction false} CrcParity(raw: bytes)
    ensures OddReg(RegOf(Crc16(raw))) == Odd(raw)
  {
    ByteLoopIsSerial(INIT, raw);
    SerialParity(RegOf(INIT), Bits(raw));
    assert !OddReg(RegOf(INIT));
  }

  /** Data followed by its checksum has even parity, whichever checksum byte comes first. */
  lemma {:induction false} BodyIsEven(raw: bytes)
    ensures !Odd(Body(raw))
  {
    CrcParity(raw);
    OddCrcBytes(Crc16(raw));
    OddAppend(raw, CrcBytes(Crc16(raw)));
  }

  /** The number of bits in which two byte strings of one length differ. */
  function Flips(x: bytes, y: bytes): nat
    requires |x| == |y|
  {
    Ones(XorSeq(Bits(x), Bits(y)))
  }

  lemma {:induction false} OnesXor(x: seq<bool>, y: seq<bool>)
    requires |x| == |y|
    ensures Ones(XorSeq(x, y)) % 2 == (Ones(x) + Ones(y)) % 2
    decreases |x|
  {
    if x != [] {
      assert XorSeq(x, y)[1..] == XorSeq(x[1..], y[1..]);
      OnesXor(x[1..], y[1..]);
    }
  }

  lemma {:induction false} OddBodyRejected(body: bytes)
    requires |body| >= 2 && Odd(body)
    ensures CheckBody(body) == Err(CrcMismatch)
  {
    if CheckBody(body).Ok? {
      CheckBodyAccepts(CheckBody(body).value, body);
      BodyIsEven(CheckBody(body).value);
    }
  }

  /** Any odd number of flipped bits, anywhere in data or checksum, is refused. */
  lemma {:induction false} OddFlipsRejected(raw: bytes, body: bytes)
    requires |body| == |raw| + 2 && Flips(Body(raw), body) % 2 == 1
    ensures Unstuff(Cobs.Encode(body) + [0]) == Err(CrcMismatch)
  {
    BodyIsEven(raw);
    OnesXor(Bits(Body(raw)), Bits(body));
    OddBodyRejected(body);
    UnstuffEncoded(body);
  }
}
