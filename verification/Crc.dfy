/**
 CRC-16/CCITT-FALSE as codec.py computes it, and what the checksum detects.

 The register is a bv16: dropping the carry out of bit 15 is what the source's
 `crc &= 0xFFFF` does. The laws are proved on the register's individual bits.
 */
module Crc {
  import opened Prelude

  const INIT: bv16 := 0xFFFF
  const POLY: bv16 := 0x1021

  // ----- Bytes and bits -----

  /** Eight bits, most significant first. */
  datatype Octet = Octet(b7: bool, b6: bool, b5: bool, b4: bool, b3: bool, b2: bool, b1: bool, b0: bool)
  {
    function Seq(): (s: seq<bool>)
      ensures |s| == 8
    {
      [b7, b6, b5, b4, b3, b2, b1, b0]
    }

    function Xor(o: Octet): Octet
    {
      Octet(b7 != o.b7, b6 != o.b6, b5 != o.b5, b4 != o.b4, b3 != o.b3, b2 != o.b2, b1 != o.b1, b0 != o.b0)
    }

    predicate Odd()
    {
      (((b7 != b6) != (b5 != b4)) != ((b3 != b2) != (b1 != b0)))
    }
  }

  function Bit(n: nat): bool
  {
    n % 2 == 1
  }

  function ByteBits(b: byte): Octet
  {
    var h1: nat := b / 2;
    var h2 := h1 / 2;
    var h3 := h2 / 2;
    var h4 := h3 / 2;
    var h5 := h4 / 2;
    var h6 := h5 / 2;
    Octet(Bit(h6 / 2), Bit(h6), Bit(h5), Bit(h4), Bit(h3), Bit(h2), Bit(h1), Bit(b))
  }

  function Twice(n: nat, bit: bool): nat
  {
    2 * n + if bit then 1 else 0
  }

  function Value(o: Octet): byte
  {
    Twice(Twice(Twice(Twice(Twice(Twice(Twice(Twice(0, o.b7), o.b6), o.b5), o.b4), o.b3), o.b2), o.b1), o.b0)
  }

  predicate Has(v: bv8, mask: bv8)
  {
    v & mask != 0
  }

  function OctetOf(b: bv8): Octet
  {
    Octet(Has(b, 0x80), Has(b, 0x40), Has(b, 0x20), Has(b, 0x10),
          Has(b, 0x08), Has(b, 0x04), Has(b, 0x02), Has(b, 0x01))
  }

  function Vector(o: Octet): bv8
  {
    (if o.b7 then 0x80 else 0) | (if o.b6 then 0x40 else 0) | (if o.b5 then 0x20 else 0) | (if o.b4 then 0x10 else 0)
    | (if o.b3 then 0x08 else 0) | (if o.b2 then 0x04 else 0) | (if o.b1 then 0x02 else 0) | (if o.b0 then 0x01 else 0)
  }

  lemma {:induction false} Halves(n: nat, bit: bool)
    ensures Twice(n, bit) / 2 == n && Bit(Twice(n, bit)) == bit
  {}

  lemma {:induction false} TwiceHalf(n: nat)
    ensures Twice(n / 2, Bit(n)) == n
  {}

  lemma {:induction false} TwiceChain(o: Octet, b: nat, h1: nat, h2: nat, h3: nat, h4: nat, h5: nat, h6: nat)
    requires b == Twice(h1, o.b0) && h1 == Twice(h2, o.b1) && h2 == Twice(h3, o.b2) && h3 == Twice(h4, o.b3)
    requires h4 == Twice(h5, o.b4) && h5 == Twice(h6, o.b5) && h6 == Twice(Twice(0, o.b7), o.b6)
    ensures Value(o) == b
  {}

  lemma {:induction false} ValueOfBits(b: byte)
    ensures Value(ByteBits(b)) == b
  {
    var h1: nat := b / 2;
    var h2 := h1 / 2;
    var h3 := h2 / 2;
    var h4 := h3 / 2;
    var h5 := h4 / 2;
    var h6 := h5 / 2;
    TwiceHalf(h6 / 2);
    TwiceHalf(h6);
    TwiceHalf(h5);
    TwiceHalf(h4);
    TwiceHalf(h3);
    TwiceHalf(h2);
    TwiceHalf(h1);
    TwiceHalf(b);
    TwiceChain(ByteBits(b), b, h1, h2, h3, h4, h5, h6);
  }

  lemma {:induction false} BitsOfValue(o: Octet)
    ensures ByteBits(Value(o)) == o
  {
    var t6 := Twice(Twice(0, o.b7), o.b6);
    var t5 := Twice(t6, o.b5);
    var t4 := Twice(t5, o.b4);
    var t3 := Twice(t4, o.b3);
    var t2 := Twice(t3, o.b2);
    var t1 := Twice(t2, o.b1);
    Halves(0, o.b7);
    Halves(Twice(0, o.b7), o.b6);
    Halves(t6, o.b5);
    Halves(t5, o.b4);
    Halves(t4, o.b3);
    Halves(t3, o.b2);
    Halves(t2, o.b1);
    Halves(t1, o.b0);
  }

  lemma {:induction false} BitsOfVector(o: Octet)
    ensures OctetOf(Vector(o)) == o
  {}

  lemma {:induction false} ValueOfVector(v: bv8)
    ensures Value(OctetOf(v)) as int == v as int
  {}

  /** A byte as an 8-bit vector. */
  function AsVector(b: byte): bv8
  {
    Vector(ByteBits(b))
  }

  lemma {:induction false} VectorIsByte(b: byte)
    ensures AsVector(b) as int == b
  {
    BitsOfVector(ByteBits(b));
    ValueOfVector(AsVector(b));
    ValueOfBits(b);
  }

  // ----- The checksum -----

  /** One turn of the source's inner loop. */
  function BitStep(crc: bv16): bv16
  {
    if crc & 0x8000 != 0 then (crc << 1) ^ 0x1021 else crc << 1
  }

  function Steps(crc: bv16, n: nat): bv16
    decreases n
  {
    if n == 0 then crc else Steps(BitStep(crc), n - 1)
  }

  function Feed(crc: bv16, b: byte): bv16
  {
    crc ^ ((AsVector(b) as bv16) << 8)
  }

  function CrcFrom(crc: bv16, data: bytes): bv16
    decreases |data|
  {
    if data == [] then crc else CrcFrom(Steps(Feed(crc, data[0]), 8), data[1..])
  }

  function Crc16(data: bytes): bv16
  {
    CrcFrom(INIT, data)
  }

  method ComputeCrc16(data: bytes) returns (crc: bv16)
    ensures crc == Crc16(data)
  {
    crc := INIT;
    for i := 0 to |data|
      invariant CrcFrom(crc, data[i..]) == Crc16(data)
    {
      assert data[i..][1..] == data[i + 1..];
      crc := Feed(crc, data[i]);
      ghost var fed := crc;
      for k := 0 to 8
        invariant Steps(crc, 8 - k) == Steps(fed, 8)
      {
        if crc & 0x8000 != 0 {
          crc := (crc << 1) ^ POLY;
        } else {
          crc := crc << 1;
        }
      }
    }
  }

  // ----- The register bit by bit -----

  /** The sixteen bits of the checksum register. */
  datatype Reg = Reg(hi: Octet, lo: Octet)
  {
    function Xor(r: Reg): Reg
    {
      Reg(hi.Xor(r.hi), lo.Xor(r.lo))
    }
  }

  function Low(crc: bv16): bv8 { (crc & 0xFF) as bv8 }

  function High(crc: bv16): bv8 { (crc >> 8) as bv8 }

  function RegOf(crc: bv16): Reg
  {
    Reg(OctetOf(High(crc)), OctetOf(Low(crc)))
  }

  ghost predicate XorAt(a: bv8, b: bv8, c: bv8, mask: bv8)
  {
    Has(c, mask) == (Has(a, mask) != Has(b, mask))
  }

  /** Exclusive or acts on each single-bit mask by itself. */
  lemma {:induction false} XorMask(a: bv8, b: bv8, mask: bv8)
    requires mask & (mask - 1) == 0
    ensures XorAt(a, b, a ^ b, mask)
  {}

  lemma {:induction false} XorOctet(a: bv8, b: bv8, c: bv8)
    requires XorAt(a, b, c, 0x80) && XorAt(a, b, c, 0x40) && XorAt(a, b, c, 0x20) && XorAt(a, b, c, 0x10)
    requires XorAt(a, b, c, 0x08) && XorAt(a, b, c, 0x04) && XorAt(a, b, c, 0x02) && XorAt(a, b, c, 0x01)
    ensures OctetOf(c) == OctetOf(a).Xor(OctetOf(b))
  {}

  lemma {:induction false} XorByte(a: bv8, b: bv8)
    ensures OctetOf(a ^ b) == OctetOf(a).Xor(OctetOf(b))
  {
    XorMask(a, b, 0x80);
    XorMask(a, b, 0x40);
    XorMask(a, b, 0x20);
    XorMask(a, b, 0x10);
    XorMask(a, b, 0x08);
    XorMask(a, b, 0x04);
    XorMask(a, b, 0x02);
    XorMask(a, b, 0x01);
    XorOctet(a, b, a ^ b);
  }

  lemma {:induction false} FeedBytes(crc: bv16, b: byte)
    ensures High(Feed(crc, b)) == High(crc) ^ AsVector(b) && Low(Feed(crc, b)) == Low(crc)
  {}

  /** The inner loop's turn, bit by bit: the polynomial touches bits 12, 5 and 0. */
  function RegStep(r: Reg): Reg
  {
    var t := r.hi.b7;
    Reg(Octet(r.hi.b6, r.hi.b5, r.hi.b4, r.hi.b3 != t, r.hi.b2, r.hi.b1, r.hi.b0, r.lo.b7),
        Octet(r.lo.b6, r.lo.b5, r.lo.b4 != t, r.lo.b3, r.lo.b2, r.lo.b1, r.lo.b0, t))
  }

  lemma {:induction false} StepBits(crc: bv16, next: bv16)
    requires next == BitStep(crc)
    ensures RegOf(next) == RegStep(RegOf(crc))
  {}

  function RegSteps(r: Reg, n: nat): Reg
    decreases n
  {
    if n == 0 then r else RegSteps(RegStep(r), n - 1)
  }

  lemma {:induction false} StepsBits(crc: bv16, n: nat)
    ensures RegOf(Steps(crc, n)) == RegSteps(RegOf(crc), n)
    decreases n
  {
    if n > 0 {
      StepBits(crc, BitStep(crc));
      StepsBits(BitStep(crc), n - 1);
    }
  }

  /** The bits of a byte string, most significant bit of the first byte first. */
  function Bits(data: bytes): (bits: seq<bool>)
    ensures |bits| == 8 * |data|
  {
    if data == [] then [] else ByteBits(data[0]).Seq() + Bits(data[1..])
  }

  lemma {:induction false} BitsAppend(x: bytes, y: bytes)
    ensures Bits(x + y) == Bits(x) + Bits(y)
    decreases |x|
  {
    if x == [] {
      assert x + y == y;
    } else {
      assert (x + y)[1..] == x[1..] + y;
      BitsAppend(x[1..], y);
    }
  }

  // ----- The byte loop is a bit-serial shift register -----

  const ZERO_OCTET := Octet(false, false, false, false, false, false, false, false)
  const ZERO := Reg(ZERO_OCTET, ZERO_OCTET)

  function FeedBit(r: Reg, bit: bool): Reg
  {
    r.(hi := r.hi.(b7 := r.hi.b7 != bit))
  }

  function Serial(r: Reg, bits: seq<bool>): Reg
    decreases |bits|
  {
    if bits == [] then r else Serial(RegStep(FeedBit(r, bits[0])), bits[1..])
  }

  lemma {:induction false} SerialAppend(r: Reg, xs: seq<bool>, ys: seq<bool>)
    ensures Serial(r, xs + ys) == Serial(Serial(r, xs), ys)
    decreases |xs|
  {
    if xs == [] {
      assert xs + ys == ys;
    } else {
      assert (xs + ys)[1..] == xs[1..] + ys;
      SerialAppend(RegStep(FeedBit(r, xs[0])), xs[1..], ys);
    }
  }

  predicate At(bits: seq<bool>, k: nat)
  {
    k < |bits| && bits[k]
  }

  /** The next sixteen bits, laid out as a register. */
  function Look(bits: seq<bool>): Reg
  {
    Reg(Octet(At(bits, 0), At(bits, 1), At(bits, 2), At(bits, 3),
              At(bits, 4), At(bits, 5), At(bits, 6), At(bits, 7)),
        Octet(At(bits, 8), At(bits, 9), At(bits, 10), At(bits, 11),
              At(bits, 12), At(bits, 13), At(bits, 14), At(bits, 15)))
  }

  ghost predicate QuietFrom(bits: seq<bool>, n: nat)
  {
    forall k :: n <= k < |bits| ==> !bits[k]
  }

  function Shifted(r: Reg): Reg
  {
    Reg(Octet(r.hi.b6, r.hi.b5, r.hi.b4, r.hi.b3, r.hi.b2, r.hi.b1, r.hi.b0, r.lo.b7),
        Octet(r.lo.b6, r.lo.b5, r.lo.b4, r.lo.b3, r.lo.b2, r.lo.b1, r.lo.b0, false))
  }

  lemma {:induction false} LookTail(bits: seq<bool>)
    requires bits != [] && !At(bits, 16)
    ensures Look(bits[1..]) == Shifted(Look(bits))
  {}

  /** One turn of the loop is linear over GF(2). */
  lemma {:induction false} RegStepLinear(a: Reg, b: Reg)
    ensures RegStep(a.Xor(b)) == RegStep(a).Xor(RegStep(b))
  {}

  lemma {:induction false} StepXor(r: Reg, w: Reg)
    ensures RegStep(r.Xor(w)) == RegStep(FeedBit(r, w.hi.b7)).Xor(Shifted(w))
  {
    var below := w.(hi := w.hi.(b7 := false));
    assert r.Xor(w) == FeedBit(r, w.hi.b7).Xor(below);
    assert RegStep(below) == Shifted(w);
    RegStepLinear(FeedBit(r, w.hi.b7), below);
  }

  lemma {:induction false} LookShifts(r: Reg, bits: seq<bool>)
    requires bits != [] && !At(bits, 16)
    ensures RegStep(r.Xor(Look(bits))) == RegStep(FeedBit(r, bits[0])).Xor(Look(bits[1..]))
  {
    LookTail(bits);
    StepXor(r, Look(bits));
  }

  /** Bits fed one at a time act like bits already present in the register. */
  lemma {:induction false} SerialIsSteps(r: Reg, bits: seq<bool>)
    requires QuietFrom(bits, 16)
    ensures Serial(r, bits) == RegSteps(r.Xor(Look(bits)), |bits|)
    decreases |bits|
  {
    if bits != [] {
      assert QuietFrom(bits[1..], 16);
      LookShifts(r, bits);
      SerialIsSteps(RegStep(FeedBit(r, bits[0])), bits[1..]);
    }
  }

  lemma {:induction false} LookOctet(o: Octet)
    ensures Look(o.Seq()) == Reg(o, ZERO_OCTET)
  {}

  lemma {:induction false} XorZero(o: Octet)
    ensures o.Xor(ZERO_OCTET) == o
  {}

  lemma {:induction false} FeedIsLook(crc: bv16, b: byte)
    ensures RegOf(Feed(crc, b)) == RegOf(crc).Xor(Look(ByteBits(b).Seq()))
  {
    FeedBytes(crc, b);
    XorByte(High(crc), AsVector(b));
    BitsOfVector(ByteBits(b));
    LookOctet(ByteBits(b));
    XorZero(OctetOf(Low(crc)));
  }

  lemma {:induction false} ByteLoopIsSerial(crc: bv16, data: bytes)
    ensures RegOf(CrcFrom(crc, data)) == Serial(RegOf(crc), Bits(data))
    decreases |data|
  {
    if data != [] {
      var head := ByteBits(data[0]).Seq();
      var fed := Feed(crc, data[0]);
      FeedIsLook(crc, data[0]);
      SerialIsSteps(RegOf(crc), head);
      StepsBits(fed, 8);
      SerialAppend(RegOf(crc), head, Bits(data[1..]));
      ByteLoopIsSerial(Steps(fed, 8), data[1..]);
    }
  }

  // ----- Linearity: the difference of two checksums depends only on the difference of the data -----

  function XorSeq(x: seq<bool>, y: seq<bool>): (d: seq<bool>)
    requires |x| == |y|
    ensures |d| == |x|
    ensures forall k :: 0 <= k < |x| ==> d[k] == (x[k] != y[k])
  {
    seq(|x|, k requires 0 <= k < |x| => x[k] != y[k])
  }

  lemma {:induction false} StepLinear(a: Reg, b: Reg, p: bool, q: bool)
    ensures RegStep(FeedBit(a.Xor(b), p != q)) == RegStep(FeedBit(a, p)).Xor(RegStep(FeedBit(b, q)))
  {}

  lemma {:induction false} SerialLinear(a: Reg, b: Reg, x: seq<bool>, y: seq<bool>)
    requires |x| == |y|
    ensures Serial(a.Xor(b), XorSeq(x, y)) == Serial(a, x).Xor(Serial(b, y))
    decreases |x|
  {
    if x != [] {
      StepLinear(a, b, x[0], y[0]);
      assert XorSeq(x, y)[1..] == XorSeq(x[1..], y[1..]);
      SerialLinear(RegStep(FeedBit(a, x[0])), RegStep(FeedBit(b, y[0])), x[1..], y[1..]);
    }
  }

  // ----- Burst detection -----

  lemma {:induction false} StepKeepsNonzero(r: Reg)
    ensures RegStep(r) == ZERO <==> r == ZERO
  {}

  lemma {:induction false} StepsKeepNonzero(r: Reg, n: nat)
    ensures RegSteps(r, n) == ZERO <==> r == ZERO
    decreases n
  {
    if n > 0 {
      StepKeepsNonzero(r);
      StepsKeepNonzero(RegStep(r), n - 1);
    }
  }

  /** A burst of at most sixteen bits anywhere in the stream leaves a nonzero register. */
  lemma {:induction false} BurstFromZero(bits: seq<bool>, start: nat, k: nat)
    requires k < |bits| && bits[k]
    requires forall j :: 0 <= j < |bits| && bits[j] ==> start <= j < start + 16
    ensures Serial(ZERO, bits) != ZERO
    decreases |bits|
  {
    if start == 0 {
      SerialIsSteps(ZERO, bits);
      assert At(bits, k);
      assert Look(bits) != ZERO;
      StepsKeepNonzero(ZERO.Xor(Look(bits)), |bits|);
    } else {
      assert !bits[0];
      assert RegStep(FeedBit(ZERO, false)) == ZERO;
      BurstFromZero(bits[1..], start - 1, k - 1);
    }
  }

  lemma {:induction false} BitsInjective(x: bytes, y: bytes)
    requires |x| == |y| && Bits(x) == Bits(y)
    ensures x == y
    decreases |x|
  {
    if x != [] {
      var p, q := ByteBits(x[0]).Seq(), ByteBits(y[0]).Seq();
      assert p == Bits(x)[..8] && q == Bits(y)[..8];
      assert ByteBits(x[0]) == ByteBits(y[0]) by {
        assert p[0] == q[0] && p[1] == q[1] && p[2] == q[2] && p[3] == q[3];
        assert p[4] == q[4] && p[5] == q[5] && p[6] == q[6] && p[7] == q[7];
      }
      ValueOfBits(x[0]);
      ValueOfBits(y[0]);
      assert Bits(x)[8..] == Bits(x[1..]) && Bits(y)[8..] == Bits(y[1..]);
      BitsInjective(x[1..], y[1..]);
    }
  }

  /** Every change confined to sixteen consecutive bits, wherever it lies, changes the checksum. */
  lemma {:induction false} BurstDetected(x: bytes, y: bytes, start: nat)
    requires |x| == |y| && x != y
    requires forall k :: 0 <= k < |Bits(x)| && Bits(x)[k] != Bits(y)[k] ==> start <= k < start + 16
    ensures Crc16(x) != Crc16(y)
  {
    var d := XorSeq(Bits(x), Bits(y));
    if forall k :: 0 <= k < |Bits(x)| ==> Bits(x)[k] == Bits(y)[k] {
      BitsInjective(x, y);
    }
    var k :| 0 <= k < |Bits(x)| && Bits(x)[k] != Bits(y)[k];
    var r := RegOf(INIT);
    assert r.Xor(r) == ZERO;
    BurstFromZero(d, start, k);
    SerialLinear(r, r, Bits(x), Bits(y));
    ByteLoopIsSerial(INIT, x);
    ByteLoopIsSerial(INIT, y);
  }

  // ----- Parity -----

  predicate OddReg(r: Reg)
  {
    r.hi.Odd() != r.lo.Odd()
  }

  function Ones(bits: seq<bool>): nat
  {
    if bits == [] then 0 else (if bits[0] then 1 else 0) + Ones(bits[1..])
  }

  predicate Odd(data: bytes)
  {
    Ones(Bits(data)) % 2 == 1
  }

  lemma {:induction false} OnesAppend(xs: seq<bool>, ys: seq<bool>)
    ensures Ones(xs + ys) == Ones(xs) + Ones(ys)
    decreases |xs|
  {
    if xs == [] {
      assert xs + ys == ys;
    } else {
      assert (xs + ys)[1..] == xs[1..] + ys;
      OnesAppend(xs[1..], ys);
    }
  }

  lemma {:induction false} StepKeepsParity(r: Reg, bit: bool)
    ensures OddReg(RegStep(FeedBit(r, bit))) == (OddReg(r) != bit)
  {}

  lemma {:induction false} SerialParity(r: Reg, bits: seq<bool>)
    ensures OddReg(Serial(r, bits)) == (OddReg(r) != (Ones(bits) % 2 == 1))
    decreases |bits|
  {
    if bits != [] {
      StepKeepsParity(r, bits[0]);
      SerialParity(RegStep(FeedBit(r, bits[0])), bits[1..]);
    }
  }
}
