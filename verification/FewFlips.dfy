/** Changes of one to three bits: caught wherever they fall, as long as the frame is short enough. */
module FewFlips {
  import opened Prelude
  import opened Crc
  import opened CrcPeriod
  import opened Wire
  import Protocol
  import Cobs

  // ----- The difference of two bodies as one cyclic word -----

  lemma {:induction false} XorJoin(a: seq<bool>, b: seq<bool>, c: seq<bool>, d: seq<bool>)
    requires |a| == |c| && |b| == |d|
    ensures XorSeq(a + b, c + d) == XorSeq(a, c) + XorSeq(b, d)
  {}

  lemma {:induction false} OctetBits(o: Octet, b: byte)
    requires ByteBits(b) == o
    ensures Bits([b]) == o.Seq()
  {
    var s := [b];
    assert s[1..] == [] && Bits(s[1..]) == [];
  }

  lemma {:induction false} CrcBits(crc: bv16)
    ensures Bits(CrcBytes(crc)) == RegOf(crc).lo.Seq() + RegOf(crc).hi.Seq()
  {
    var lo, hi := ByteOf(Low(crc)), ByteOf(High(crc));
    ByteOfBits(Low(crc));
    ByteOfBits(High(crc));
    OctetBits(RegOf(crc).lo, lo);
    OctetBits(RegOf(crc).hi, hi);
    BitsAppend([lo], [hi]);
    assert CrcBytes(crc) == [lo] + [hi];
  }

  /** A register's bits in the order they are shifted out. */
  function RegBits(r: Reg): (bits: seq<bool>)
    ensures |bits| == 16
  {
    r.hi.Seq() + r.lo.Seq()
  }

  function SumDifference(x: bytes, y: bytes): (bits: seq<bool>)
    ensures |bits| == 16
  {
    XorSeq(RegBits(RegOf(Crc16(x))), RegBits(RegOf(Crc16(y))))
  }

  /** Where two bodies differ, checksum bytes taken most significant first. */
  function Difference(x: bytes, y: bytes): (bits: seq<bool>)
    requires |x| == |y|
    ensures |bits| == 8 * |x| + 16
  {
    XorSeq(Bits(x), Bits(y)) + SumDifference(x, y)
  }

  lemma {:induction false} SumFlips(c: bv16, d: bv16)
    ensures Flips(CrcBytes(c), CrcBytes(d)) == Ones(XorSeq(RegBits(RegOf(c)), RegBits(RegOf(d))))
  {
    var r, s := RegOf(c), RegOf(d);
    CrcBits(c);
    CrcBits(d);
    XorJoin(r.lo.Seq(), r.hi.Seq(), s.lo.Seq(), s.hi.Seq());
    XorJoin(r.hi.Seq(), r.lo.Seq(), s.hi.Seq(), s.lo.Seq());
    OnesAppend(XorSeq(r.lo.Seq(), s.lo.Seq()), XorSeq(r.hi.Seq(), s.hi.Seq()));
    OnesAppend(XorSeq(r.hi.Seq(), s.hi.Seq()), XorSeq(r.lo.Seq(), s.lo.Seq()));
  }

  /** Neither the order of the checksum bytes nor anything else about it changes how many bits differ. */
  lemma {:induction false} DifferenceFlips(x: bytes, y: bytes)
    requires |x| == |y|
    ensures Ones(Difference(x, y)) == Flips(Body(x), Body(y))
  {
    var c, d := CrcBytes(Crc16(x)), CrcBytes(Crc16(y));
    BitsAppend(x, c);
    BitsAppend(y, d);
    XorJoin(Bits(x), Bits(c), Bits(y), Bits(d));
    OnesAppend(XorSeq(Bits(x), Bits(y)), XorSeq(Bits(c), Bits(d)));
    OnesAppend(XorSeq(Bits(x), Bits(y)), SumDifference(x, y));
    SumFlips(Crc16(x), Crc16(y));
  }

  lemma {:induction false} XorSelf(r: Reg)
    ensures r.Xor(r) == ZERO
  {}

  lemma {:induction false} LookJoin(x: seq<bool>, y: seq<bool>)
    requires |x| == |y| == 8
    ensures Look(x + y) == Reg(Look(x).hi, Look(y).hi)
  {
    assert forall k :: 0 <= k < 8 ==> At(x + y, k) == At(x, k);
    assert forall k :: 0 <= k < 8 ==> At(x + y, 8 + k) == At(y, k);
    assert At(x + y, 8 + 0) == At(y, 0) && At(x + y, 8 + 1) == At(y, 1) && At(x + y, 8 + 2) == At(y, 2);
    assert At(x + y, 8 + 3) == At(y, 3) && At(x + y, 8 + 4) == At(y, 4) && At(x + y, 8 + 5) == At(y, 5);
    assert At(x + y, 8 + 6) == At(y, 6) && At(x + y, 8 + 7) == At(y, 7);
  }

  lemma {:induction false} LookRegBits(r: Reg)
    ensures Look(RegBits(r)) == r && QuietFrom(RegBits(r), 16)
  {
    LookJoin(r.hi.Seq(), r.lo.Seq());
    LookOctet(r.hi);
    LookOctet(r.lo);
  }

  /** A register fed its own bits ends up idle. */
  lemma {:induction false} OwnBitsCancel(r: Reg)
    ensures Serial(r, RegBits(r)) == ZERO
  {
    LookRegBits(r);
    SerialIsSteps(r, RegBits(r));
    XorSelf(r);
    StepsKeepNonzero(ZERO, 16);
  }

  lemma {:induction false} DataDifference(x: bytes, y: bytes)
    requires |x| == |y|
    ensures Serial(ZERO, XorSeq(Bits(x), Bits(y))) == RegOf(Crc16(x)).Xor(RegOf(Crc16(y)))
  {
    XorSelf(RegOf(INIT));
    SerialLinear(RegOf(INIT), RegOf(INIT), Bits(x), Bits(y));
    ByteLoopIsSerial(INIT, x);
    ByteLoopIsSerial(INIT, y);
  }

  /** The difference of two bodies is a multiple of the polynomial. */
  lemma {:induction false} DifferenceCancels(x: bytes, y: bytes)
    requires |x| == |y|
    ensures Serial(ZERO, Difference(x, y)) == ZERO
  {
    var r, s := RegOf(Crc16(x)), RegOf(Crc16(y));
    DataDifference(x, y);
    SerialAppend(ZERO, XorSeq(Bits(x), Bits(y)), SumDifference(x, y));
    SerialLinear(r, s, RegBits(r), RegBits(s));
    OwnBitsCancel(r);
    OwnBitsCancel(s);
    XorSelf(ZERO);
  }

  // ----- Two flips -----

  lemma {:induction false} NoOnes(bits: seq<bool>)
    ensures Ones(bits) == 0 <==> QuietFrom(bits, 0)
    decreases |bits|
  {
    if bits != [] {
      NoOnes(bits[1..]);
      assert forall k :: 0 < k < |bits| ==> bits[k] == bits[1..][k - 1];
    }
  }

  lemma {:induction false} OneOne(bits: seq<bool>) returns (p: nat)
    requires Ones(bits) == 1
    ensures p < |bits| && forall k :: 0 <= k < |bits| ==> bits[k] == (k == p)
    decreases |bits|
  {
    if bits[0] {
      NoOnes(bits[1..]);
      p := 0;
    } else {
      p := OneOne(bits[1..]);
      p := p + 1;
    }
    assert forall k :: 0 < k < |bits| ==> bits[k] == bits[1..][k - 1];
  }

  lemma {:induction false} TwoOnes(bits: seq<bool>) returns (p: nat, q: nat)
    requires Ones(bits) == 2
    ensures OnlyTwo(bits, p, q)
    decreases |bits|
  {
    if bits[0] {
      q := OneOne(bits[1..]);
      p, q := 0, q + 1;
    } else {
      p, q := TwoOnes(bits[1..]);
      p, q := p + 1, q + 1;
    }
    assert forall k :: 0 < k < |bits| ==> bits[k] == bits[1..][k - 1];
  }

  /** The longest raw frame all of whose small changes are caught. */
  const LONGEST := 4093

  lemma {:induction false} BodiesFarApart(x: bytes, y: bytes)
    requires |x| == |y| <= LONGEST
    ensures Flips(Body(x), Body(y)) != 2
  {
    DifferenceFlips(x, y);
    DifferenceCancels(x, y);
    if Ones(Difference(x, y)) == 2 {
      var p, q := TwoOnes(Difference(x, y));
      TwoBitsCancel(Difference(x, y), p, q);
    }
  }

  lemma {:induction false} TwoFlipsRejected(raw: bytes, body: bytes)
    requires |body| == |raw| + 2 && |raw| <= LONGEST && Flips(Body(raw), body) == 2
    ensures Unstuff(Cobs.Encode(body) + [0]) == Err(CrcMismatch)
  {
    UnstuffEncoded(body);
    if CheckBody(body).Ok? {
      CheckBodyAccepts(CheckBody(body).value, body);
      BodiesFarApart(raw, CheckBody(body).value);
    }
  }

  // ----- The bound is exact -----

  /** A change of the most significant bit of the byte before the last 4093. */
  function FarFlip(raw: bytes): (other: bytes)
    requires |raw| > LONGEST
    ensures |other| == |raw|
  {
    var i := |raw| - LONGEST - 1;
    var o := ByteBits(raw[i]);
    raw[..i] + [Value(o.(b7 := !o.b7))] + raw[i + 1..]
  }

  lemma {:induction false} SameBits(x: seq<bool>)
    ensures QuietFrom(XorSeq(x, x), 0)
  {}

  lemma {:induction false} TopApart(o: Octet, rest: seq<bool>)
    requires rest == [o.b6, o.b5, o.b4, o.b3, o.b2, o.b1, o.b0]
    ensures o.Seq() == [o.b7] + rest
  {}

  lemma {:induction false} TopFlips(o: Octet, p: Octet)
    requires p == o.(b7 := !o.b7)
    ensures var d := XorSeq(o.Seq(), p.Seq()); d[0] && QuietFrom(d[1..], 0)
  {
    var rest := [o.b6, o.b5, o.b4, o.b3, o.b2, o.b1, o.b0];
    TopApart(o, rest);
    TopApart(p, rest);
    XorJoin([o.b7], rest, [p.b7], rest);
    SameBits(rest);
  }

  lemma {:induction false} LastApart(o: Octet, rest: seq<bool>)
    requires rest == [o.b7, o.b6, o.b5, o.b4, o.b3, o.b2, o.b1]
    ensures o.Seq() == rest + [o.b0]
  {}

  lemma {:induction false} OneAtEnd(rest: seq<bool>, a: bool, b: bool)
    requires a != b
    ensures Ones(XorSeq(rest + [a], rest + [b])) == 1
  {
    XorJoin(rest, [a], rest, [b]);
    SameBits(rest);
    NoOnes(XorSeq(rest, rest));
    OnesAppend(XorSeq(rest, rest), XorSeq([a], [b]));
  }

  lemma {:induction false} LastFlips(o: Octet, p: Octet)
    requires p == o.(b0 := !o.b0)
    ensures Ones(XorSeq(o.Seq(), p.Seq())) == 1
  {
    var rest := [o.b7, o.b6, o.b5, o.b4, o.b3, o.b2, o.b1];
    LastApart(o, rest);
    LastApart(p, rest);
    OneAtEnd(rest, o.b0, p.b0);
  }

  lemma {:induction false} BitsJoin(a: bytes, b: byte, c: bytes)
    ensures Bits(a + [b] + c) == Bits(a) + Bits([b]) + Bits(c)
  {
    BitsAppend(a + [b], c);
    BitsAppend(a, [b]);
  }

  /** Byte strings that differ in one byte differ only in its bits. */
  lemma {:induction false} OneByteDiffers(a: bytes, b: byte, v: byte, c: bytes)
    ensures var d := XorSeq(Bits(a + [b] + c), Bits(a + [v] + c));
      && QuietFrom(d[..8 * |a|], 0)
      && d[8 * |a|..8 * |a| + 8] == XorSeq(Bits([b]), Bits([v]))
      && QuietFrom(d[8 * |a| + 8..], 0)
  {
    BitsJoin(a, b, c);
    BitsJoin(a, v, c);
    XorJoin(Bits(a) + Bits([b]), Bits(c), Bits(a) + Bits([v]), Bits(c));
    XorJoin(Bits(a), Bits([b]), Bits(a), Bits([v]));
    SameBits(Bits(a));
    SameBits(Bits(c));
  }

  /** A set bit alone in its byte, and the byte alone among what follows. */
  lemma {:induction false} TopAlone(d: seq<bool>, i: nat)
    requires i + 8 <= |d| && d[i..i + 8][0] && QuietFrom(d[i..i + 8][1..], 0) && QuietFrom(d[i + 8..], 0)
    ensures d[i] && QuietFrom(d[i + 1..], 0)
  {
    assert d[i + 1..] == d[i..i + 8][1..] + d[i + 8..];
  }

  lemma {:induction false} SplitAt(raw: bytes, i: nat)
    requires i < |raw|
    ensures raw == raw[..i] + [raw[i]] + raw[i + 1..]
  {}

  lemma {:induction false} FarFlipShape(raw: bytes, i: nat, o: Octet)
    requires |raw| > LONGEST && i == |raw| - LONGEST - 1 && o == ByteBits(raw[i]).(b7 := !ByteBits(raw[i]).b7)
    ensures FarFlip(raw) == raw[..i] + [Value(o)] + raw[i + 1..]
  {}

  lemma {:induction false} FarFlipBits(raw: bytes)
    requires |raw| > LONGEST
    ensures var i, d := |raw| - LONGEST - 1, XorSeq(Bits(raw), Bits(FarFlip(raw)));
      QuietFrom(d[..8 * i], 0) && d[8 * i] && QuietFrom(d[8 * i + 1..], 0)
  {
    var i := |raw| - LONGEST - 1;
    var o := ByteBits(raw[i]).(b7 := !ByteBits(raw[i]).b7);
    SplitAt(raw, i);
    FarFlipShape(raw, i, o);
    OneByteDiffers(raw[..i], raw[i], Value(o), raw[i + 1..]);
    BitsOfValue(o);
    OctetBits(ByteBits(raw[i]), raw[i]);
    OctetBits(o, Value(o));
    TopFlips(ByteBits(raw[i]), o);
    TopAlone(XorSeq(Bits(raw), Bits(FarFlip(raw))), 8 * i);
  }

  /** One set bit leaves the register as it entered, shifted by what follows. */
  lemma {:induction false} OneBitShifts(bits: seq<bool>, p: nat)
    requires p < |bits| && QuietFrom(bits[..p], 0) && bits[p] && QuietFrom(bits[p + 1..], 0)
    ensures Ones(bits) == 1
    ensures Serial(ZERO, bits) == RegSteps(TOP, |bits| - p)
  {
    var before, rest := bits[..p], bits[p..];
    assert bits == before + rest && rest[1..] == bits[p + 1..];
    OnesAppend(before, rest);
    NoOnes(before);
    NoOnes(rest[1..]);
    SerialAppend(ZERO, before, rest);
    QuietSerial(ZERO, before);
    StepsKeepNonzero(ZERO, p);
    QuietSerial(RegStep(TOP), rest[1..]);
    assert FeedBit(ZERO, true) == TOP;
  }

  lemma {:induction false} LastBitFlips(r: Reg, s: Reg)
    requires r.Xor(s) == UNIT
    ensures r.hi == s.hi && s.lo == r.lo.(b0 := !r.lo.b0)
  {}

  lemma {:induction false} LastBitOnes(r: Reg, s: Reg)
    requires r.Xor(s) == UNIT
    ensures Ones(XorSeq(RegBits(r), RegBits(s))) == 1
  {
    LastBitFlips(r, s);
    XorJoin(r.hi.Seq(), r.lo.Seq(), s.hi.Seq(), s.lo.Seq());
    SameBits(r.hi.Seq());
    NoOnes(XorSeq(r.hi.Seq(), s.hi.Seq()));
    OnesAppend(XorSeq(r.hi.Seq(), s.hi.Seq()), XorSeq(r.lo.Seq(), s.lo.Seq()));
    LastFlips(r.lo, s.lo);
  }

  lemma {:induction false} BackToUnit()
    ensures RegSteps(TOP, 8 * (LONGEST + 1)) == UNIT
  {
    TopIsPower();
    StepsAppend(UNIT, 15, 8 * (LONGEST + 1));
    PeriodExactly(PERIOD);
  }

  /** In a longer frame there are two flips that no checksum notices: one in the data, and one in the
      last bit of the checksum. */
  lemma {:induction false} FarFlipUnnoticed(raw: bytes)
    requires |raw| > LONGEST
    ensures Flips(Body(raw), Body(FarFlip(raw))) == 2
    ensures Unstuff(Cobs.Encode(Body(FarFlip(raw))) + [0]) == Ok(FarFlip(raw))
  {
    var other, i := FarFlip(raw), |raw| - LONGEST - 1;
    FarFlipBits(raw);
    OneBitShifts(XorSeq(Bits(raw), Bits(other)), 8 * i);
    DataDifference(raw, other);
    BackToUnit();
    LastBitOnes(RegOf(Crc16(raw)), RegOf(Crc16(other)));
    DifferenceFlips(raw, other);
    OnesAppend(XorSeq(Bits(raw), Bits(other)), SumDifference(raw, other));
    UnstuffStuff(other);
  }

  /** Every change of one to three bits, anywhere in data or checksum, is refused as a mismatch. */
  ghost predicate CatchesFewFlips(raw: bytes)
  {
    forall body: bytes :: |body| == |raw| + 2 && 0 < Flips(Body(raw), body) <= 3 ==>
      Unstuff(Cobs.Encode(body) + [0]) == Err(CrcMismatch)
  }

  /** The raw frames so protected are exactly those of at most 4093 bytes. */
  lemma {:induction false} FewFlipsExactly(raw: bytes)
    ensures CatchesFewFlips(raw) <==> |raw| <= LONGEST
  {
    if |raw| <= LONGEST {
      forall body: bytes | |body| == |raw| + 2 && 0 < Flips(Body(raw), body) <= 3
        ensures Unstuff(Cobs.Encode(body) + [0]) == Err(CrcMismatch)
      {
        if Flips(Body(raw), body) == 2 {
          TwoFlipsRejected(raw, body);
        } else {
          OddFlipsRejected(raw, body);
        }
      }
    } else {
      FarFlipUnnoticed(raw);
    }
  }

  /** Every frame that can be sent is so protected: it is dropped if one to three bits of it change. */
  lemma {:induction false} ChangedFrameDropped(f: Protocol.Frame, body: bytes)
    requires f.Raw().Ok?
    requires |body| == |f.Raw().value| + 2 && 0 < Flips(Body(f.Raw().value), body) <= 3
    ensures Protocol.Deliver(Cobs.Encode(body) + [0]) == None
  {
    FewFlipsExactly(f.Raw().value);
  }
}
