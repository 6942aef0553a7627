/**
 The period of the checksum register, and the changes of few bits it catches.

 Stepping an otherwise idle register multiplies by x modulo the polynomial. That returns every
 register to where it was after 32767 steps and not before, so two flipped bits fewer than
 32767 apart never cancel.
 */
module CrcPeriod {
  import opened Prelude
  import opened Crc

  const PERIOD := 32767

  const UNIT := Reg(ZERO_OCTET, ZERO_OCTET.(b0 := true))
  const TOP := Reg(ZERO_OCTET.(b7 := true), ZERO_OCTET)

  /** x to the power n. */
  function Power(n: nat): Reg
  {
    RegSteps(UNIT, n)
  }

  lemma {:induction false} StepsAppend(r: Reg, m: nat, n: nat)
    ensures RegSteps(r, m + n) == RegSteps(RegSteps(r, m), n)
    decreases m
  {
    if m > 0 {
      StepsAppend(RegStep(r), m - 1, n);
    }
  }

  lemma {:induction false} StepInjective(a: Reg, b: Reg)
    requires RegStep(a) == RegStep(b)
    ensures a == b
  {}

  lemma {:induction false} StepsInjective(a: Reg, b: Reg, n: nat)
    ensures RegSteps(a, n) == RegSteps(b, n) <==> a == b
    decreases n
  {
    if n > 0 {
      StepsInjective(RegStep(a), RegStep(b), n - 1);
      if a != b && RegStep(a) == RegStep(b) {
        StepInjective(a, b);
      }
    }
  }

  // ----- Powers by repeated squaring -----

  /** The eight terms of a byte, each exponent doubled. */
  function Spread(o: Octet): Reg
  {
    Reg(Octet(false, o.b7, false, o.b6, false, o.b5, false, o.b4),
        Octet(false, o.b3, false, o.b2, false, o.b1, false, o.b0))
  }

  /** The same of the upper byte of a register, where the exponents reach sixteen more and are
      reduced: the upper and the lower byte of the outcome. */
  function UpperSpread(o: Octet): Octet
  {
    Octet(o.b5, (o.b1 != o.b3) != o.b5, o.b4, (o.b0 != o.b2) != o.b4,
          (o.b3 != o.b5) != o.b7, o.b5 != o.b7, (o.b2 != o.b4) != o.b6, (o.b4 != o.b6) != o.b7)
  }

  function LowerSpread(o: Octet): Octet
  {
    Octet((o.b1 != o.b3) != (o.b5 != o.b7), (o.b3 != o.b5) != (o.b6 != o.b7),
          (o.b0 != o.b2) != (o.b4 != o.b6), (o.b2 != o.b4) != o.b6,
          o.b7, (o.b1 != o.b3) != (o.b5 != o.b7), o.b6, (o.b0 != o.b2) != (o.b4 != o.b6))
  }

  /** The square of a register, as a polynomial modulo the checksum's. */
  function Squared(r: Reg): Reg
  {
    Spread(r.lo).Xor(Reg(UpperSpread(r.hi), LowerSpread(r.hi)))
  }

  lemma {:induction false} UpperLinear(a: Octet, b: Octet)
    ensures UpperSpread(a.Xor(b)) == UpperSpread(a).Xor(UpperSpread(b))
  {}

  lemma {:induction false} LowerLinear(a: Octet, b: Octet)
    ensures LowerSpread(a.Xor(b)) == LowerSpread(a).Xor(LowerSpread(b))
  {}

  lemma {:induction false} SpreadLinear(a: Octet, b: Octet)
    ensures Spread(a.Xor(b)) == Spread(a).Xor(Spread(b))
  {}

  lemma {:induction false} XorExchange(a: Octet, b: Octet, c: Octet, d: Octet)
    ensures a.Xor(b).Xor(c.Xor(d)) == a.Xor(c).Xor(b.Xor(d))
  {}

  lemma {:induction false} SquaredLinear(a: Reg, b: Reg)
    ensures Squared(a.Xor(b)) == Squared(a).Xor(Squared(b))
  {
    SpreadLinear(a.lo, b.lo);
    UpperLinear(a.hi, b.hi);
    LowerLinear(a.hi, b.hi);
    XorExchange(Spread(a.lo).hi, Spread(b.lo).hi, UpperSpread(a.hi), UpperSpread(b.hi));
    XorExchange(Spread(a.lo).lo, Spread(b.lo).lo, LowerSpread(a.hi), LowerSpread(b.hi));
  }

  /** Squaring turns one step into two. */
  ghost predicate SquaresStep(r: Reg)
  {
    Squared(RegStep(r)) == RegStep(RegStep(Squared(r)))
  }

  lemma {:induction false} SquaresStepSum(a: Reg, b: Reg)
    requires SquaresStep(a) && SquaresStep(b)
    ensures SquaresStep(a.Xor(b))
  {
    RegStepLinear(a, b);
    SquaredLinear(RegStep(a), RegStep(b));
    SquaredLinear(a, b);
    RegStepLinear(Squared(a), Squared(b));
    RegStepLinear(RegStep(Squared(a)), RegStep(Squared(b)));
  }

  function Nibbles(r: Reg): (Reg, Reg, Reg, Reg)
  {
    var h, l := r.hi, r.lo;
    (Reg(h.(b3 := false, b2 := false, b1 := false, b0 := false), ZERO_OCTET),
     Reg(h.(b7 := false, b6 := false, b5 := false, b4 := false), ZERO_OCTET),
     Reg(ZERO_OCTET, l.(b3 := false, b2 := false, b1 := false, b0 := false)),
     Reg(ZERO_OCTET, l.(b7 := false, b6 := false, b5 := false, b4 := false)))
  }

  lemma {:induction false} NibblesSum(r: Reg)
    ensures var n := Nibbles(r); r == n.0.Xor(n.1).Xor(n.2.Xor(n.3))
  {}

  lemma {:induction false} NibbleStep0(r: Reg)
    ensures SquaresStep(Nibbles(r).0)
  {}

  lemma {:induction false} NibbleStep1(r: Reg)
    ensures SquaresStep(Nibbles(r).1)
  {}

  lemma {:induction false} NibbleStep2(r: Reg)
    ensures SquaresStep(Nibbles(r).2)
  {}

  lemma {:induction false} NibbleStep3(r: Reg)
    ensures SquaresStep(Nibbles(r).3)
  {}

  lemma {:induction false} SquaredStep(r: Reg)
    ensures SquaresStep(r)
  {
    var n := Nibbles(r);
    NibblesSum(r);
    NibbleStep0(r);
    NibbleStep1(r);
    NibbleStep2(r);
    NibbleStep3(r);
    SquaresStepSum(n.0, n.1);
    SquaresStepSum(n.2, n.3);
    SquaresStepSum(n.0.Xor(n.1), n.2.Xor(n.3));
  }

  lemma {:induction false} PowerSquared(n: nat)
    ensures Squared(Power(n)) == Power(2 * n)
    decreases n
  {
    if n > 0 {
      StepsAppend(UNIT, n - 1, 1);
      StepsAppend(UNIT, 2 * (n - 1), 2);
      PowerSquared(n - 1);
      SquaredStep(Power(n - 1));
    }
  }

  /** From x to the power n to x to the power 2n, or 2n + 1. */
  function Doubled(r: Reg, odd: bool): Reg
  {
    if odd then RegStep(Squared(r)) else Squared(r)
  }

  lemma {:induction false} PowerDoubled(n: nat, odd: bool, crc: bv16, next: bv16)
    requires Power(n) == RegOf(crc) && Doubled(RegOf(crc), odd) == RegOf(next)
    ensures Power(2 * n + if odd then 1 else 0) == RegOf(next)
  {
    PowerSquared(n);
    StepsAppend(UNIT, 2 * n, 1);
  }

  lemma {:induction false} PowerOf32767()
    ensures Power(32767) == UNIT
  {
    PowerDoubled(1, true, 0x2, 0x8);
    PowerDoubled(3, true, 0x8, 0x80);
    PowerDoubled(7, true, 0x80, 0x8000);
    PowerDoubled(15, true, 0x8000, 0x1B98);
    PowerDoubled(31, true, 0x1B98, 0xD420);
    PowerDoubled(63, true, 0xD420, 0x577E);
    PowerDoubled(127, true, 0x577E, 0xCF04);
    PowerDoubled(255, true, 0xCF04, 0x9FE);
    PowerDoubled(511, true, 0x9FE, 0x1B62);
    PowerDoubled(1023, true, 0x1B62, 0x7EA8);
    PowerDoubled(2047, true, 0x7EA8, 0x554F);
    PowerDoubled(4095, true, 0x554F, 0x440E);
    PowerDoubled(8191, true, 0x440E, 0x222C);
    PowerDoubled(16383, true, 0x222C, 0x1);
  }

  lemma {:induction false} PowerOf4681()
    ensures Power(4681) != UNIT
  {
    PowerDoubled(1, false, 0x2, 0x4);
    PowerDoubled(2, false, 0x4, 0x10);
    PowerDoubled(4, true, 0x10, 0x200);
    PowerDoubled(9, false, 0x200, 0x4084);
    PowerDoubled(18, false, 0x4084, 0x4363);
    PowerDoubled(36, true, 0x4363, 0x8FA6);
    PowerDoubled(73, false, 0x8FA6, 0x4388);
    PowerDoubled(146, false, 0x4388, 0x1396);
    PowerDoubled(292, true, 0x1396, 0x4500);
    PowerDoubled(585, false, 0x4500, 0x163);
    PowerDoubled(1170, false, 0x163, 0x424);
    PowerDoubled(2340, true, 0x424, 0x2C42);
  }

  lemma {:induction false} PowerOf1057()
    ensures Power(1057) != UNIT
  {
    PowerDoubled(1, false, 0x2, 0x4);
    PowerDoubled(2, false, 0x4, 0x10);
    PowerDoubled(4, false, 0x10, 0x100);
    PowerDoubled(8, false, 0x100, 0x1021);
    PowerDoubled(16, true, 0x1021, 0x6E60);
    PowerDoubled(33, false, 0x6E60, 0xC1C6);
    PowerDoubled(66, false, 0xC1C6, 0x4E8A);
    PowerDoubled(132, false, 0x4E8A, 0x5946);
    PowerDoubled(264, false, 0x5946, 0x78B3);
    PowerDoubled(528, true, 0x78B3, 0xF2AF);
  }

  lemma {:induction false} PowerOf217()
    ensures Power(217) != UNIT
  {
    PowerDoubled(1, true, 0x2, 0x8);
    PowerDoubled(3, false, 0x8, 0x40);
    PowerDoubled(6, true, 0x40, 0x2000);
    PowerDoubled(13, true, 0x2000, 0x89A9);
    PowerDoubled(27, false, 0x89A9, 0x1168);
    PowerDoubled(54, false, 0x1168, 0x3750);
    PowerDoubled(108, true, 0x3750, 0x48E3);
  }

  // ----- The least period -----

  ghost predicate IsPeriod(n: nat)
  {
    n > 0 && Power(n) == UNIT
  }

  /** The remainder of n by g, one subtraction at a time. */
  function Residue(n: nat, g: nat): (r: nat)
    requires g > 0
    ensures r < g
  {
    if n < g then n else Residue(n - g, g)
  }

  lemma {:induction false} ResidueSplits(n: nat, g: nat) returns (k: nat)
    requires g > 0
    ensures n == g * k + Residue(n, g)
    decreases n
  {
    if n < g {
      k := 0;
    } else {
      k := ResidueSplits(n - g, g);
      k := k + 1;
    }
  }

  lemma {:induction false} PowerResidue(n: nat, g: nat)
    requires IsPeriod(g)
    ensures Power(n) == Power(Residue(n, g))
    decreases n
  {
    if n >= g {
      StepsAppend(UNIT, g, n - g);
      PowerResidue(n - g, g);
    }
  }

  lemma {:induction false} MultipleOfPeriod(g: nat, k: nat)
    requires IsPeriod(g)
    ensures Power(g * k) == UNIT
    decreases k
  {
    if k > 0 {
      MultipleOfPeriod(g, k - 1);
      assert g * k == g * (k - 1) + g;
      StepsAppend(UNIT, g * (k - 1), g);
    }
  }

  lemma {:induction false} LeastPeriod(n: nat) returns (g: nat)
    requires IsPeriod(n)
    ensures 0 < g <= n && IsPeriod(g) && forall m: nat :: 0 < m < g ==> !IsPeriod(m)
    decreases n
  {
    if m: nat :| 0 < m < n && IsPeriod(m) {
      g := LeastPeriod(m);
    } else {
      g := n;
    }
  }

  lemma {:induction false} LeastDivides(g: nat, n: nat) returns (k: nat)
    requires IsPeriod(g) && IsPeriod(n) && forall m: nat :: 0 < m < g ==> !IsPeriod(m)
    ensures n == g * k
  {
    PowerResidue(n, g);
    k := ResidueSplits(n, g);
    assert Residue(n, g) > 0 ==> IsPeriod(Residue(n, g));
  }

  /** 32767 is 7 * 31 * 151. */
  lemma {:induction false} SmallFactor(g: nat, k: nat)
    requires 0 < k <= 181 && g * k == PERIOD
    ensures k == 1 || k == 7 || k == 31 || k == 151
  {}

  lemma {:induction false} ProductGrows(g: nat, k: nat, n: nat)
    requires g >= n && k >= n
    ensures g * k >= n * n
  {
    assert g * k - n * n == (g - n) * k + n * (k - n);
  }

  lemma {:induction false} ProperDivisor(g: nat, k: nat)
    requires g * k == PERIOD && 0 < g < PERIOD
    ensures g == 1 || g == 7 || g == 31 || g == 151 || g == 4681 || g == 1057 || g == 217
  {
    if g <= 181 {
      SmallFactor(k, g);
    } else if k <= 181 {
      SmallFactor(g, k);
    } else {
      ProductGrows(g, k, 182);
    }
  }

  /** The least period is no proper divisor of 32767: powers with those exponents are not one. */
  lemma {:induction false} NoShorterPeriod(g: nat)
    requires g == 1 || g == 7 || g == 31 || g == 151 || g == 4681 || g == 1057 || g == 217
    ensures !IsPeriod(g)
  {
    PowerOf4681();
    PowerOf1057();
    PowerOf217();
    if IsPeriod(g) {
      match g
      case 7 => MultipleOfPeriod(7, 31);
      case 31 => MultipleOfPeriod(31, 7);
      case 151 => MultipleOfPeriod(151, 7);
      case _ =>
    }
  }

  /** A power of x is one exactly at the multiples of 32767. */
  lemma {:induction false} PeriodExactly(n: nat)
    ensures Power(n) == UNIT <==> n % PERIOD == 0
  {
    PowerOf32767();
    PowerResidue(n, PERIOD);
    var k := ResidueSplits(n, PERIOD);
    var r := Residue(n, PERIOD);
    if r > 0 && IsPeriod(r) {
      var g := LeastPeriod(r);
      var j := LeastDivides(g, PERIOD);
      ProperDivisor(g, j);
      NoShorterPeriod(g);
    }
  }

  // ----- Two flipped bits -----

  lemma {:induction false} QuietSerial(r: Reg, bits: seq<bool>)
    requires QuietFrom(bits, 0)
    ensures Serial(r, bits) == RegSteps(r, |bits|)
    decreases |bits|
  {
    if bits != [] {
      QuietSerial(RegStep(r), bits[1..]);
    }
  }

  /** A bit that enters the idle register comes back to where it entered exactly after whole periods. */
  lemma {:induction false} TopReturns(n: nat)
    ensures RegSteps(TOP, n) == TOP <==> n % PERIOD == 0
  {
    TopIsPower();
    StepsAppend(UNIT, 15, n);
    StepsAppend(UNIT, n, 15);
    StepsInjective(Power(n), UNIT, 15);
    PeriodExactly(n);
  }

  lemma {:induction false} TopIsPower()
    ensures Power(15) == TOP
  {
    PowerDoubled(1, true, 0x2, 0x8);
    PowerDoubled(3, true, 0x8, 0x80);
    PowerDoubled(7, true, 0x80, 0x8000);
  }

  /** Exactly the bits at p and q are set. */
  ghost predicate OnlyTwo(bits: seq<bool>, p: nat, q: nat)
  {
    p < q < |bits| && forall k :: 0 <= k < |bits| ==> bits[k] == (k == p || k == q)
  }

  /** Two set bits cancel in the register exactly when they are whole periods apart. */
  lemma {:induction false} TwoBitsCancel(bits: seq<bool>, p: nat, q: nat)
    requires OnlyTwo(bits, p, q)
    ensures Serial(ZERO, bits) == ZERO <==> (q - p) % PERIOD == 0
    decreases p
  {
    if p > 0 {
      assert RegStep(FeedBit(ZERO, bits[0])) == ZERO;
      TwoBitsCancel(bits[1..], p - 1, q - 1);
    } else {
      var gap, rest := bits[1..q], bits[q..];
      assert bits[1..] == gap + rest;
      SerialAppend(RegStep(TOP), gap, rest);
      QuietSerial(RegStep(TOP), gap);
      var r := RegSteps(TOP, q);
      assert Serial(ZERO, bits) == Serial(r, rest);
      QuietSerial(RegStep(FeedBit(r, true)), rest[1..]);
      StepsKeepNonzero(FeedBit(r, true), |rest|);
      TopReturns(q);
    }
  }
}
