/** What the checksum's start value of sixteen ones does. */
module CrcStart {
  import opened Prelude
  import opened Crc
  import opened CrcPeriod

  const ONES := Reg(Octet(true, true, true, true, true, true, true, true),
                    Octet(true, true, true, true, true, true, true, true))

  lemma {:induction false} StartIsOnes()
    ensures RegOf(INIT) == ONES
  {}

  // ----- The start value inverts the first sixteen bits -----

  /** Bits with the first sixteen inverted. */
  function Inverted(bits: seq<bool>): (r: seq<bool>)
    ensures |r| == |bits| && forall k :: 0 <= k < |bits| ==> r[k] == (bits[k] != (k < 16))
  {
    seq(|bits|, k requires 0 <= k < |bits| => bits[k] != (k < 16))
  }

  function Zeros(n: nat): (r: seq<bool>)
    ensures |r| == n && QuietFrom(r, 0)
  {
    seq(n, _ => false)
  }

  /** Sixteen ones and then zeros, seen by an idle register, are the start value. */
  function Leading(n: nat): (r: seq<bool>)
    ensures |r| == n && forall k :: 0 <= k < n ==> r[k] == (k < 16)
  {
    seq(n, k => k < 16)
  }

  lemma {:induction false} LeadingIsOnes(n: nat)
    requires n >= 16
    ensures Serial(ZERO, Leading(n)) == RegSteps(ONES, n)
  {
    var bits := Leading(n);
    assert At(bits, 0) && At(bits, 1) && At(bits, 2) && At(bits, 3) && At(bits, 4) && At(bits, 5) && At(bits, 6);
    assert At(bits, 7) && At(bits, 8) && At(bits, 9) && At(bits, 10) && At(bits, 11) && At(bits, 12);
    assert At(bits, 13) && At(bits, 14) && At(bits, 15);
    assert Look(bits) == ONES;
    SerialIsSteps(ZERO, bits);
    assert ZERO.Xor(ONES) == ONES;
  }

  /** The checksum of two bytes or more is the plain remainder of their bits with the first sixteen
      inverted. */
  lemma {:induction false} StartInverts(data: bytes)
    requires |data| >= 2
    ensures RegOf(Crc16(data)) == Serial(ZERO, Inverted(Bits(data)))
  {
    var bits, n := Bits(data), 8 * |data|;
    ByteLoopIsSerial(INIT, data);
    StartIsOnes();
    assert XorSeq(Zeros(n), bits) == bits && XorSeq(Leading(n), bits) == Inverted(bits);
    assert ONES.Xor(ZERO) == ONES;
    SerialLinear(ONES, ZERO, Zeros(n), bits);
    QuietSerial(ONES, Zeros(n));
    LeadingIsOnes(n);
    assert ZERO.Xor(ZERO) == ZERO;
    SerialLinear(ZERO, ZERO, Leading(n), bits);
  }

  // ----- Zero bytes in front and behind -----

  function ZeroBytes(n: nat): (r: bytes)
    ensures |r| == n
  {
    seq(n, _ => 0)
  }

  lemma {:induction false} ZeroBits(n: nat)
    ensures QuietFrom(Bits(ZeroBytes(n)), 0)
  {
    if n > 0 {
      var zeros := ZeroBytes(n);
      ZeroBits(n - 1);
      assert zeros[1..] == ZeroBytes(n - 1);
      assert ByteBits(0) == ZERO_OCTET;
    }
  }

  /** Trailing zero bytes only step the register on. */
  lemma {:induction false} TrailingZeros(data: bytes, n: nat)
    ensures RegOf(Crc16(data + ZeroBytes(n))) == RegSteps(RegOf(Crc16(data)), 8 * n)
  {
    ByteLoopIsSerial(INIT, data);
    ByteLoopIsSerial(INIT, data + ZeroBytes(n));
    BitsAppend(data, ZeroBytes(n));
    SerialAppend(RegOf(INIT), Bits(data), Bits(ZeroBytes(n)));
    ZeroBits(n);
    QuietSerial(RegOf(Crc16(data)), Bits(ZeroBytes(n)));
  }

  /** The checksum of less than two bytes: the start value itself, and a register that eight more steps
      turn into what the padded byte has. */
  lemma {:induction false} ShortData(b: byte)
    ensures Crc16([]) == 0xFFFF
    ensures RegSteps(RegOf(Crc16([b])), 8) == Serial(ZERO, Inverted(Bits([b, 0])))
  {
    assert [b] + ZeroBytes(1) == [b, 0];
    TrailingZeros([b], 1);
    StartInverts([b, 0]);
  }

  lemma {:induction false} SerialInjective(a: Reg, b: Reg, bits: seq<bool>)
    ensures Serial(a, bits) == Serial(b, bits) <==> a == b
    decreases |bits|
  {
    if bits != [] {
      var c, d := FeedBit(a, bits[0]), FeedBit(b, bits[0]);
      SerialInjective(RegStep(c), RegStep(d), bits[1..]);
      if RegStep(c) == RegStep(d) {
        StepInjective(c, d);
      }
    }
  }

  // ----- The start value returns with the period of x -----

  /** Multiplication by x + 1. */
  function PlusOne(r: Reg): Reg
  {
    RegStep(r).Xor(r)
  }

  function PlusOnes(r: Reg, n: nat): Reg
    decreases n
  {
    if n == 0 then r else PlusOnes(PlusOne(r), n - 1)
  }

  lemma {:induction false} PlusOneLinear(a: Reg, b: Reg)
    ensures PlusOne(a.Xor(b)) == PlusOne(a).Xor(PlusOne(b))
  {
    RegStepLinear(a, b);
    XorExchange(RegStep(a).hi, RegStep(b).hi, a.hi, b.hi);
    XorExchange(RegStep(a).lo, RegStep(b).lo, a.lo, b.lo);
  }

  lemma {:induction false} PlusOnesLinear(a: Reg, b: Reg, n: nat)
    ensures PlusOnes(a.Xor(b), n) == PlusOnes(a, n).Xor(PlusOnes(b, n))
    decreases n
  {
    if n > 0 {
      PlusOneLinear(a, b);
      PlusOnesLinear(PlusOne(a), PlusOne(b), n - 1);
    }
  }

  lemma {:induction false} StepPlusOne(r: Reg)
    ensures RegStep(PlusOne(r)) == PlusOne(RegStep(r))
  {
    RegStepLinear(RegStep(r), r);
  }

  lemma {:induction false} StepPlusOnes(r: Reg, n: nat)
    ensures RegStep(PlusOnes(r, n)) == PlusOnes(RegStep(r), n)
    decreases n
  {
    if n > 0 {
      StepPlusOne(r);
      StepPlusOnes(PlusOne(r), n - 1);
    }
  }

  lemma {:induction false} StepsPlusOnes(r: Reg, m: nat, n: nat)
    ensures RegSteps(PlusOnes(r, n), m) == PlusOnes(RegSteps(r, m), n)
    decreases m
  {
    if m > 0 {
      StepPlusOnes(r, n);
      StepsPlusOnes(RegStep(r), m - 1, n);
    }
  }

  /** The checksum's polynomial divided by x + 1. */
  const COFACTOR := Reg(Octet(true, true, true, true, false, false, false, false),
                        Octet(false, false, false, true, true, true, true, true))

  lemma {:induction false} StepFixes(r: Reg)
    requires RegStep(r) == r
    ensures r == ZERO || r == COFACTOR
  {}

  lemma {:induction false} XorZeroMeansEqual(a: Reg, b: Reg)
    ensures a.Xor(b) == ZERO <==> a == b
  {}

  lemma {:induction false} OddOctets(a: Octet, b: Octet)
    ensures a.Xor(b).Odd() == (a.Odd() != b.Odd())
  {}

  lemma {:induction false} EvenKernel(r: Reg)
    requires !OddReg(r) && PlusOne(r) == ZERO
    ensures r == ZERO
  {
    XorZeroMeansEqual(RegStep(r), r);
    StepFixes(r);
  }

  lemma {:induction false} PlusOneIsEven(r: Reg)
    ensures !OddReg(PlusOne(r))
  {
    StepKeepsParity(r, false);
    assert FeedBit(r, false) == r;
    OddOctets(RegStep(r).hi, r.hi);
    OddOctets(RegStep(r).lo, r.lo);
  }

  lemma {:induction false} EvenKernels(r: Reg, n: nat)
    requires !OddReg(r) && PlusOnes(r, n) == ZERO
    ensures r == ZERO
    decreases n
  {
    if n > 0 {
      PlusOneIsEven(r);
      EvenKernels(PlusOne(r), n - 1);
      EvenKernel(r);
    }
  }

  lemma {:induction false} OneMorePlus(n: nat, crc: bv16, twice: bv16, next: bv16)
    requires PlusOnes(UNIT, n) == RegOf(crc)
    requires RegStep(RegOf(crc)) == RegOf(twice) && RegOf(twice).Xor(RegOf(crc)) == RegOf(next)
    ensures PlusOnes(UNIT, n + 1) == RegOf(next)
  {
    PlusOnesLast(UNIT, n);
  }

  lemma {:induction false} PlusOnesLast(r: Reg, n: nat)
    ensures PlusOnes(r, n + 1) == PlusOne(PlusOnes(r, n))
    decreases n
  {
    if n > 0 {
      PlusOnesLast(PlusOne(r), n - 1);
    }
  }

  /** Sixteen ones are the fifteenth power of x + 1. */
  lemma {:induction false} OnesIsPower()
    ensures PlusOnes(UNIT, 15) == ONES
  {
    OneMorePlus(0, 0x1, 0x2, 0x3);
    OneMorePlus(1, 0x3, 0x6, 0x5);
    OneMorePlus(2, 0x5, 0xA, 0xF);
    OneMorePlus(3, 0xF, 0x1E, 0x11);
    OneMorePlus(4, 0x11, 0x22, 0x33);
    OneMorePlus(5, 0x33, 0x66, 0x55);
    OneMorePlus(6, 0x55, 0xAA, 0xFF);
    OneMorePlus(7, 0xFF, 0x1FE, 0x101);
    OneMorePlus(8, 0x101, 0x202, 0x303);
    OneMorePlus(9, 0x303, 0x606, 0x505);
    OneMorePlus(10, 0x505, 0xA0A, 0xF0F);
    OneMorePlus(11, 0xF0F, 0x1E1E, 0x1111);
    OneMorePlus(12, 0x1111, 0x2222, 0x3333);
    OneMorePlus(13, 0x3333, 0x6666, 0x5555);
    OneMorePlus(14, 0x5555, 0xAAAA, 0xFFFF);
  }

  lemma {:induction false} PowerIsOdd(n: nat)
    ensures OddReg(Power(n))
    decreases n
  {
    if n > 0 {
      PowerIsOdd(n - 1);
      StepsAppend(UNIT, n - 1, 1);
      StepKeepsParity(Power(n - 1), false);
      assert FeedBit(Power(n - 1), false) == Power(n - 1);
    }
  }

  lemma {:induction false} OnesReturn(m: nat)
    ensures RegSteps(ONES, m) == ONES <==> m % PERIOD == 0
  {
    var d := Power(m).Xor(UNIT);
    OnesIsPower();
    StepsPlusOnes(UNIT, m, 15);
    PlusOnesLinear(Power(m), UNIT, 15);
    XorZeroMeansEqual(RegSteps(ONES, m), ONES);
    XorZeroMeansEqual(Power(m), UNIT);
    PeriodExactly(m);
    if RegSteps(ONES, m) == ONES {
      PowerIsOdd(m);
      OddOctets(Power(m).hi, UNIT.hi);
      OddOctets(Power(m).lo, UNIT.lo);
      EvenKernels(d, 15);
    }
  }

  lemma {:induction false} EightTimes(n: nat)
    ensures 8 * n % PERIOD == 0 <==> n % PERIOD == 0
  {
    var k := 8 * n / PERIOD;
    if 8 * n % PERIOD == 0 {
      assert n == PERIOD * (4096 * k - n);
    }
  }

  /** Zero bytes in front of the data change the checksum, unless there are a whole multiple of 32767. */
  lemma {:induction false} LeadingZerosExactly(data: bytes, n: nat)
    ensures Crc16(ZeroBytes(n) + data) == Crc16(data) <==> n % PERIOD == 0
  {
    var r := RegSteps(ONES, 8 * n);
    StartIsOnes();
    ByteLoopIsSerial(INIT, data);
    ByteLoopIsSerial(INIT, ZeroBytes(n) + data);
    BitsAppend(ZeroBytes(n), data);
    SerialAppend(ONES, Bits(ZeroBytes(n)), Bits(data));
    ZeroBits(n);
    QuietSerial(ONES, Bits(ZeroBytes(n)));
    SerialInjective(r, ONES, Bits(data));
    OnesReturn(8 * n);
    EightTimes(n);
    RegInjective(Crc16(ZeroBytes(n) + data), Crc16(data));
  }

  lemma {:induction false} RegInjective(a: bv16, b: bv16)
    ensures RegOf(a) == RegOf(b) <==> a == b
  {}
}
