/**
 Whether a decimal lies within half a unit in the last place of a binary floating point number: the scaled comparison
 of integers, and what it says about the numbers themselves.
 */
module HalfUlp {
  import opened Limbs
  import opened Borrows
  import opened BigInteger
  import opened Numbers
  import opened Text

  // ---- powers with any exponent ----

  function Times(x: real, y: real): real {
    x * y
  }

  function RPow(b: real, e: int): (r: real)
    requires b > 0.0
    ensures r > 0.0
    decreases if e < 0 then -e else e
  {
    if e == 0 then 1.0 else if e > 0 then Times(b, RPow(b, e - 1)) else RPow(b, e + 1) / b
  }

  lemma {:induction false} TimesOne(x: real)
    ensures Times(x, 1.0) == x && Times(1.0, x) == x
  {
  }

  lemma {:induction false} TimesSwap(b: real, x: real, y: real)
    ensures Times(b, Times(x, y)) == Times(x, Times(b, y))
  {
  }

  lemma {:induction false} TimesGroup(x: real, y: real, z: real)
    ensures Times(Times(x, y), z) == Times(x, Times(y, z))
  {
  }

  lemma {:induction false} TimesUndone(x: real, b: real)
    requires b > 0.0
    ensures Times(b, x / b) == x
  {
  }

  lemma {:induction false} TimesInverse(p: real, x: real, y: real, w: real)
    requires Times(p, w) == x && Times(y, w) == 1.0
    ensures p == Times(x, y)
  {
    assert x * y == p * (w * y);
  }

  lemma {:induction false} RPowStep(b: real, e: int)
    requires b > 0.0
    ensures RPow(b, e + 1) == Times(b, RPow(b, e))
  {
    if e < 0 { TimesUndone(RPow(b, e + 1), b); }
  }

  lemma {:induction false} RPowAdds(b: real, m: int, n: nat)
    requires b > 0.0
    ensures RPow(b, m + n) == Times(RPow(b, m), RPow(b, n))
  {
    if n == 0 {
      TimesOne(RPow(b, m));
    } else {
      RPowAdds(b, m, n - 1);
      RPowStep(b, m + n - 1);
      TimesSwap(b, RPow(b, m), RPow(b, n - 1));
    }
  }

  lemma {:induction false} RPowAdd(b: real, m: int, n: int)
    requires b > 0.0
    ensures RPow(b, m + n) == Times(RPow(b, m), RPow(b, n))
  {
    if n >= 0 {
      RPowAdds(b, m, n);
    } else {
      RPowAdds(b, m + n, -n);
      RPowAdds(b, n, -n);
      TimesInverse(RPow(b, m + n), RPow(b, m), RPow(b, n), RPow(b, -n));
    }
  }

  lemma {:induction false} RPowIsPow(b: nat, n: nat)
    requires b > 0
    ensures RPow(b as real, n) == Pow(b, n) as real
  {
    if n > 0 { RPowIsPow(b, n - 1); }
  }

  lemma {:induction false} RPowTen(e: int)
    ensures RPow(10.0, e) == Times(RPow(2.0, e), RPow(5.0, e))
    decreases if e < 0 then -e else e
  {
    if e == 0 {
      TimesOne(1.0);
    } else if e > 0 {
      RPowTen(e - 1);
      TenTimes(RPow(2.0, e - 1), RPow(5.0, e - 1), RPow(10.0, e - 1));
    } else {
      RPowTen(e + 1);
      RPowStep(2.0, e);
      RPowStep(5.0, e);
      RPowStep(10.0, e);
      TenTimes(RPow(2.0, e), RPow(5.0, e), RPow(10.0, e));
    }
  }

  lemma {:induction false} TenTimes(x: real, y: real, z: real)
    ensures Times(10.0, z) == Times(Times(2.0, x), Times(5.0, y)) <==> z == Times(x, y)
  {
    assert Times(Times(2.0, x), Times(5.0, y)) == 10.0 * Times(x, y);
  }

  // ---- the common scale ----

  function LeastOf(a: int, b: int, c: int): int {
    if a <= b && a <= c then a else if b <= c then b else c
  }

  function Above(e: int): nat {
    if e > 0 then e else 0
  }

  /** The exponents by which the decimal, the binary number and half a unit are scaled. */
  datatype Scale = Scale(d2: nat, d5: nat, b2: nat, b5: nat, h2: nat, h5: nat)

  function ScaleOf(bExp: int, dExp: int): Scale {
    var hExp := bExp - 1;
    var d2, b2, h2 := Above(dExp) + Above(-bExp) + Above(-hExp), Above(-dExp) + Above(bExp) + Above(-hExp), Above(-dExp) + Above(-bExp) + Above(hExp);
    var common := LeastOf(d2, b2, h2);
    Scale(d2 - common, Above(dExp), b2 - common, Above(-dExp), h2 - common, Above(-dExp))
  }

  function Scaled(n: nat, e5: nat, e2: nat): nat {
    n * Pow(5, e5) * Pow(2, e2)
  }

  lemma {:induction false} ScaledIs(n: nat, e5: nat, e2: nat)
    ensures Scaled(n, e5, e2) as real == Times(n as real, Times(RPow(5.0, e5), RPow(2.0, e2)))
  {
    RPowIsPow(5, e5);
    RPowIsPow(2, e2);
    ProductReal(n, Pow(5, e5), Pow(2, e2));
  }

  lemma {:induction false} ProductReal(n: nat, x: nat, y: nat)
    ensures (n * x * y) as real == Times(n as real, Times(x as real, y as real))
  {
    assert (n * x * y) as real == (n * x) as real * y as real == n as real * x as real * y as real;
  }

  /** The decimal, and a binary number. */
  ghost function Decimal(d: nat, dExp: int): real {
    Times(d as real, RPow(10.0, dExp))
  }

  ghost function Binary(n: nat, exp: int): real {
    Times(n as real, RPow(2.0, exp))
  }

  lemma {:induction false} ScaleExponents(bExp: int, dExp: int)
    ensures var k := ScaleOf(bExp, dExp);
            && k.d2 - dExp == k.b2 - bExp == k.h2 - (bExp - 1)
            && k.d5 - dExp == k.b5 == k.h5
  {
  }

  lemma {:induction false} ScaledBinary(n: nat, exp: int, t: nat, s: int)
    requires exp + s >= 0
    ensures Scaled(n, t, exp + s) as real == Times(Binary(n, exp), Times(RPow(5.0, t), RPow(2.0, s)))
  {
    var a, b, c := RPow(2.0, exp), RPow(5.0, t), RPow(2.0, s);
    ScaledIs(n, t, exp + s);
    RPowAdd(2.0, exp, s);
    TimesSwap(b, a, c);
    TimesGroup(n as real, a, Times(b, c));
  }

  lemma {:induction false} ScaledDecimal(n: nat, exp: int, t: int, s: int)
    requires exp + s >= 0 && exp + t >= 0
    ensures Scaled(n, exp + t, exp + s) as real == Times(Decimal(n, exp), Times(RPow(5.0, t), RPow(2.0, s)))
  {
    var a, b, c, d := RPow(2.0, exp), RPow(5.0, exp), RPow(5.0, t), RPow(2.0, s);
    ScaledIs(n, exp + t, exp + s);
    RPowAdd(5.0, exp, t);
    RPowAdd(2.0, exp, s);
    RPowTen(exp);
    Crosswise(a, b, c, d);
    TimesGroup(n as real, Times(a, b), Times(c, d));
  }

  lemma {:induction false} Crosswise(a: real, b: real, c: real, d: real)
    ensures Times(Times(b, c), Times(a, d)) == Times(Times(a, b), Times(c, d))
  {
  }

  /** All three are scaled by the same positive factor. */
  lemma {:induction false} ScaledAlike(d: nat, bInt: nat, bExp: int, dExp: int) returns (f: real)
    ensures f > 0.0
    ensures var k := ScaleOf(bExp, dExp); Scaled(d, k.d5, k.d2) as real == Times(Decimal(d, dExp), f)
    ensures var k := ScaleOf(bExp, dExp); Scaled(bInt, k.b5, k.b2) as real == Times(Binary(bInt, bExp), f)
    ensures var k := ScaleOf(bExp, dExp); Scaled(1, k.h5, k.h2) as real == Times(Binary(1, bExp - 1), f)
  {
    var k := ScaleOf(bExp, dExp);
    var s, t := k.d2 - dExp, k.d5 - dExp;
    f := Times(RPow(5.0, t), RPow(2.0, s));
    TimesPositive(RPow(5.0, t), RPow(2.0, s));
    ScaleExponents(bExp, dExp);
    ScaledDecimal(d, dExp, t, s);
    ScaledBinary(bInt, bExp, t, s);
    ScaledBinary(1, bExp - 1, t, s);
  }

  lemma {:induction false} TimesPositive(x: real, y: real)
    requires x > 0.0 && y > 0.0
    ensures Times(x, y) > 0.0
  {
  }

  // ---- the comparison ----

  function Sign(x: int): int {
    if x < 0 then -1 else if x == 0 then 0 else 1
  }

  function RealSign(x: real): int {
    if x < 0.0 then -1 else if x == 0.0 then 0 else 1
  }

  ghost function Abs(x: real): real {
    if x < 0.0 then -x else x
  }

  /** The sign of how far the decimal is from the binary number, less half a unit. */
  ghost function Exact(d: nat, bInt: nat, bExp: int, dExp: int): int {
    RealSign(Abs(Decimal(d, dExp) - Binary(bInt, bExp)) - Binary(1, bExp - 1))
  }

  lemma {:induction false} SignTimes(g: real, f: real, n: int)
    requires f > 0.0 && n as real == Times(g, f)
    ensures Sign(n) == RealSign(g)
  {
  }

  lemma {:induction false} GapScales(x: real, y: real, f: real, sx: int, sy: int)
    requires sx as real == Times(x, f) && sy as real == Times(y, f)
    ensures (sx - sy) as real == Times(x - y, f)
  {
  }

  lemma {:induction false} SignScales(x: real, y: real, h: real, f: real, sx: nat, sy: nat, sh: nat)
    requires f > 0.0 && sx as real == Times(x, f) && sy as real == Times(y, f) && sh as real == Times(h, f)
    ensures Sign(Distance(sx, sy) - sh) == RealSign(Abs(x - y) - h)
  {
    GapScales(x, y, f, sx, sy);
    SignTimes(x - y, f, sx - sy);
    if sx < sy {
      GapScales(y, x, f, sy, sx);
      GapScales(y - x, h, f, sy - sx, sh);
      SignTimes(y - x - h, f, sy - sx - sh);
    } else {
      GapScales(x - y, h, f, sx - sy, sh);
      SignTimes(x - y - h, f, sx - sy - sh);
    }
  }

  /** Comparing the scaled integers is comparing the numbers. */
  lemma {:induction false} ComparisonIs(d: nat, bInt: nat, bExp: int, dExp: int)
    ensures var k := ScaleOf(bExp, dExp);
            Sign(Distance(Scaled(d, k.d5, k.d2), Scaled(bInt, k.b5, k.b2)) - Scaled(1, k.h5, k.h2)) == Exact(d, bInt, bExp, dExp)
  {
    var k := ScaleOf(bExp, dExp);
    var f := ScaledAlike(d, bInt, bExp, dExp);
    SignScales(Decimal(d, dExp), Binary(bInt, bExp), Binary(1, bExp - 1), f,
               Scaled(d, k.d5, k.d2), Scaled(bInt, k.b5, k.b2), Scaled(1, k.h5, k.h2));
  }

  ghost predicate Fits(n: nat, limbs: nat) {
    n < Pow(BASE, limbs)
  }

  lemma {:induction false} ShiftRoom(s: seq<nat>, e2: nat, room: nat)
    requires Words(s) && Canonical(s) && Value(s) > 0 && room >= 1 && Fits(Value(s) * Pow(2, e2), room - 1)
    ensures |s| + e2 / 64 + 1 <= room
  {
    var n, q := 64, e2 / 64;
    if |s| == 1 { assert s[1..] == []; }
    ValueAtLeast(s);
    BaseBits(n);
    PowOfPow(2, n, q);
    PowGrows(2, 2, n * q, e2);
    Product(Pow(BASE, |s| - 1), Value(s), Pow(BASE, q), Pow(2, e2));
    PowAdd(BASE, |s| - 1, q);
    if |s| - 1 + q >= room - 1 { PowGrows(BASE, BASE, room - 1, |s| - 1 + q); }
  }

  lemma {:induction false} FiveRoom(n: nat, e5: nat, e2: nat, room: nat)
    requires room >= 1 && Fits(Scaled(n, e5, e2), room - 1)
    ensures n * Pow(5, e5) < Pow(BASE, room)
  {
    PowPositive(2, e2);
    Product(n * Pow(5, e5), n * Pow(5, e5), 1, Pow(2, e2));
    PowGrows(BASE, BASE, room - 1, room);
  }

  method Rescale(x: BigInteger, e5: nat, e2: nat)
    requires x.Valid() && Fits(Scaled(x.Number(), e5, e2), x.digits.Length - 1)
    modifies x`count, x.digits
    ensures x.Valid() && x.Number() == Scaled(old(x.Number()), e5, e2)
  {
    FiveRoom(x.Number(), e5, e2, x.digits.Length);
    x.MultiplyPow5(e5);
    if x.Number() > 0 { ShiftRoom(x.Digits(), e2, x.digits.Length); }
    ghost var _ := x.ShiftLeft(e2);
  }

  /** Adjusts the exponents step by step: for the decimal exponent, the binary one, that of half a unit, and what they share. */
  method Exponents(bExp: int, dExp: int) returns (k: Scale)
    ensures k == ScaleOf(bExp, dExp)
  {
    var hExp := bExp - 1;
    var d2, d5, b2, b5, h2, h5 := 0, 0, 0, 0, 0, 0;
    if dExp >= 0 {
      d2, d5 := d2 + dExp, d5 + dExp;
    } else {
      b2, b5 := b2 - dExp, b5 - dExp;
      h2, h5 := h2 - dExp, h5 - dExp;
    }
    if bExp >= 0 {
      b2 := b2 + bExp;
    } else {
      d2, h2 := d2 - bExp, h2 - bExp;
    }
    if hExp >= 0 {
      h2 := h2 + hExp;
    } else {
      d2, b2 := d2 - hExp, b2 - hExp;
    }
    var common := LeastOf(d2, b2, h2);
    k := Scale(d2 - common, d5, b2 - common, b5, h2 - common, h5);
  }

  // ---- what is answered ----

  /** The answer for numbers, in the common scale: with what lost borrows add to their distance. */
  function Answer(x: nat, y: nat, h: nat): int {
    Sign(Distance(x, y) + Surplus(x, y) - h)
  }

  /** The scaled decimal, binary number and half unit. */
  function ScaledThree(d: nat, bInt: nat, bExp: int, dExp: int): (nat, nat, nat) {
    var k := ScaleOf(bExp, dExp);
    (Scaled(d, k.d5, k.d2), Scaled(bInt, k.b5, k.b2), Scaled(1, k.h5, k.h2))
  }

  /**
   The answer is exact if and only if no borrow is lost, or the distance is more than half a unit without what is added,
   or less with it; and it never takes a decimal to be closer than it is.
   */
  lemma {:induction false} AnswerExactIff(d: nat, bInt: nat, bExp: int, dExp: int)
    ensures var (x, y, h) := ScaledThree(d, bInt, bExp, dExp);
            && (Answer(x, y, h) == Exact(d, bInt, bExp, dExp)
                <==> Surplus(x, y) == 0 || Distance(x, y) > h || Distance(x, y) + Surplus(x, y) < h)
            && Answer(x, y, h) >= Exact(d, bInt, bExp, dExp)
  {
    ComparisonIs(d, bInt, bExp, dExp);
  }

  lemma {:induction false} PowersOfTwo(m: nat, n: nat)
    requires m == 75 && n == 76
    ensures Pow(2, m) == 2048 * BASE && Pow(2, n) == 4096 * BASE
  {
    var eleven, word := 11, 64;
    BaseBits(word);
    PowAdd(2, eleven, word);
    assert Pow(2, eleven) == 2048;
  }

  /**
   A wrong answer: 2^128 - 2^64 + 1 is less than half a unit away from 2^52 * 2^76, but a borrow is lost and it is
   taken to be more than half a unit away.
   */
  lemma {:induction false} HalfUlpWrong(d: nat, bInt: nat)
    requires d == BASE * BASE - BASE + 1 && bInt == 0x10_0000_0000_0000
    ensures var (x, y, h) := ScaledThree(d, bInt, 76, 0);
            x != y && Answer(x, y, h) == 1 && Exact(d, bInt, 76, 0) == -1
  {
    hide SubBorrow, LostBorrows, Lost, Value;
    PowersOfTwo(75, 76);
    assert Pow(5, 0) == 1 && Pow(2, 0) == 1;
    assert ScaleOf(76, 0) == Scale(0, 0, 76, 0, 75, 0);
    var (x, y, h) := ScaledThree(d, bInt, 76, 0);
    assert x == d && y == BASE * BASE && h == 2048 * BASE;
    var a, b := [0, 0, 1], [1, BASE - 1, 0];
    BorrowLost();
    DifferenceIs(a, b);
    LostIs(a, b, 0);
    assert Surplus(x, y) == BASE * BASE;
    ComparisonIs(d, bInt, 76, 0);
  }

  /** Whether the decimal is closer than half a unit, exactly half a unit away, or farther, as far as the subtraction is right. */
  method CheckWithinHalfULP(bInt: nat, bExp: int, d: BigInteger, dExp: int) returns (r: int)
    requires d.Valid() && bInt < BASE
    requires var (x, y, h) := ScaledThree(d.Number(), bInt, bExp, dExp);
             && Fits(x, d.digits.Length - 1) && Fits(y, d.digits.Length - 1) && Fits(h, d.digits.Length - 1) && x != y
    ensures var (x, y, h) := ScaledThree(d.Number(), bInt, bExp, dExp); r == Answer(x, y, h)
  {
    var k := Exponents(bExp, dExp);
    r := CompareScaled(bInt, d, k);
  }

  /** Scales all three and compares. */
  method CompareScaled(bInt: nat, d: BigInteger, k: Scale) returns (r: int)
    requires d.Valid() && bInt < BASE
    requires var (x, y, h) := (Scaled(d.Number(), k.d5, k.d2), Scaled(bInt, k.b5, k.b2), Scaled(1, k.h5, k.h2));
             && Fits(x, d.digits.Length - 1) && Fits(y, d.digits.Length - 1) && Fits(h, d.digits.Length - 1) && x != y
    ensures r == Answer(Scaled(d.Number(), k.d5, k.d2), Scaled(bInt, k.b5, k.b2), Scaled(1, k.h5, k.h2))
  {
    ghost var x, y, h := Scaled(d.Number(), k.d5, k.d2), Scaled(bInt, k.b5, k.b2), Scaled(1, k.h5, k.h2);
    hide Scaled;
    var dS := new BigInteger.Copy(d);
    Rescale(dS, k.d5, k.d2);
    var bS := new BigInteger(bInt);
    Rescale(bS, k.b5, k.b2);
    var hS := new BigInteger(1);
    Rescale(hS, k.h5, k.h2);
    r := CompareDistance(dS, bS, hS);
  }

  method CompareDistance(dS: BigInteger, bS: BigInteger, hS: BigInteger) returns (r: int)
    requires dS.Valid() && bS.Valid() && hS.Valid() && dS.Number() != bS.Number()
    ensures r == Answer(dS.Number(), bS.Number(), hS.Number())
  {
    var delta := new BigInteger(0);
    var smaller := dS.Difference(bS, delta);
    r := delta.Compare(hS);
  }

  // ---- the decimals that are compared ----

  /** A number of some bits, times a power of five and one of two. */
  lemma {:induction false} ScaledFits(n: nat, bits: nat, e5: nat, e2: nat, limbs: nat)
    requires n < Pow(2, bits) && bits + 3 * e5 + e2 <= 64 * limbs
    ensures Fits(Scaled(n, e5, e2), limbs)
  {
    var three, word := 3, 64;
    PowGrows(5, 8, e5, e5);
    PowOfPow(2, three, e5);
    assert Pow(2, three) == 8;
    PowPositive(2, bits);
    PowPositive(5, e5);
    PowPositive(2, e2);
    PowAdd(2, bits, 3 * e5);
    PowAdd(2, bits + 3 * e5, e2);
    Product(n + 1, Pow(2, bits), Pow(5, e5), Pow(2, 3 * e5));
    Product((n + 1) * Pow(5, e5), Pow(2, bits) * Pow(2, 3 * e5), Pow(2, e2), Pow(2, e2));
    Strictly(n, Pow(5, e5), Pow(2, e2));
    BaseBits(word);
    PowOfPow(2, word, limbs);
    PowGrows(2, 2, bits + 3 * e5 + e2, 64 * limbs);
  }

  lemma {:induction false} Strictly(n: nat, x: nat, y: nat)
    requires x > 0 && y > 0
    ensures n * x * y < (n + 1) * x * y
  {
    assert (n + 1) * x == n * x + x;
    assert (n * x + x) * y == n * x * y + x * y;
    Product(1, x, 1, y);
  }

  /** Four bits to a decimal digit. */
  lemma {:induction false} DigitBits(n: nat)
    ensures Pow(10, n) <= Pow(2, 4 * n)
  {
    var four := 4;
    PowOfPow(2, four, n);
    assert Pow(2, four) == 16;
    PowGrows(10, 16, n, n);
  }

  /** The exponents of a decimal of at most 768 digits, neither too small nor too large, and of a double. */
  predicate Convertible(digits: nat, dExp: int, bInt: nat, bExp: int) {
    0 < digits <= 768 && -324 < digits + dExp <= 309 && bInt < 0x20_0000_0000_0000 && -1074 <= bExp <= 972
  }

  /** For them all three scaled numbers fit, with a limb to spare. */
  lemma {:induction false} ConvertibleFits(digits: nat, d: nat, dExp: int, bInt: nat, bExp: int, limbs: nat)
    requires Convertible(digits, dExp, bInt, bExp) && d < Pow(10, digits) && limbs == CAPACITY - 1
    ensures var (x, y, h) := ScaledThree(d, bInt, bExp, dExp); Fits(x, limbs) && Fits(y, limbs) && Fits(h, limbs)
  {
    var k := ScaleOf(bExp, dExp);
    var sixty, one := 60, 1;
    DigitBits(digits);
    SixtyBits(sixty);
    assert Pow(2, one) == 2;
    ScaledFits(d, 4 * digits, k.d5, k.d2, limbs);
    ScaledFits(bInt, sixty, k.b5, k.b2, limbs);
    ScaledFits(1, one, k.h5, k.h2, limbs);
  }

  /** Beyond half a unit, or half way from an odd number. */
  predicate RoundsUp(cmp: int, bInt: nat) {
    cmp > 0 || (cmp == 0 && bInt % 2 == 1)
  }

  lemma {:induction false} NextBinary(n: nat, exp: int)
    ensures Binary(n + 1, exp) == Binary(n, exp) + 2.0 * Binary(1, exp - 1) && Binary(1, exp - 1) > 0.0
  {
    var u, h := RPow(2.0, exp), RPow(2.0, exp - 1);
    RPowStep(2.0, exp - 1);
    assert (n + 1) as real * u == n as real * u + u;
    assert u == 2.0 * h && (1 as real) * h == h;
  }

  lemma {:induction false} BinaryGrows(m: nat, n: nat, exp: int)
    requires m <= n
    ensures Binary(m, exp) <= Binary(n, exp)
    decreases n - m
  {
    hide Binary;
    if m < n {
      NextBinary(m, exp);
      BinaryGrows(m + 1, n, exp);
    }
  }

  /**
   From a binary number at most one unit below the decimal, the exact comparison leads to the nearest binary number of
   this exponent, and half way between two of them to the even one.
   */
  lemma {:induction false} NearestEven(d: nat, bInt: nat, bExp: int, dExp: int, m: nat)
    requires Binary(bInt, bExp) <= Decimal(d, dExp) <= Binary(bInt + 1, bExp)
    ensures var n := if RoundsUp(Exact(d, bInt, bExp, dExp), bInt) then bInt + 1 else bInt;
            var near, other := Abs(Decimal(d, dExp) - Binary(n, bExp)), Abs(Decimal(d, dExp) - Binary(m, bExp));
            near <= other && (near == other && m != n ==> n % 2 == 0)
  {
    hide Binary, Decimal;
    NextBinary(bInt, bExp);
    if m < bInt {
      BinaryGrows(m, bInt - 1, bExp);
      NextBinary(bInt - 1, bExp);
    } else if m > bInt + 1 {
      BinaryGrows(bInt + 2, m, bExp);
      NextBinary(bInt + 1, bExp);
    }
  }

  /**
   Whether the double after the approximation is taken: it is if the decimal is farther than half a unit, or half a unit
   away and the approximation is odd.
   */
  method StrtodBigInteger(bInt: nat, bExp: int, decimals: string, dExp: int) returns (next: bool)
    requires AllDigits(decimals) && Convertible(|decimals|, dExp, bInt, bExp)
    requires var (x, y, h) := ScaledThree(ValueFrom(decimals, 0), bInt, bExp, dExp); x != y
    ensures var d := ValueFrom(decimals, 0);
            var (x, y, h) := ScaledThree(d, bInt, bExp, dExp);
            && next == RoundsUp(Answer(x, y, h), bInt) && (!next ==> Exact(d, bInt, bExp, dExp) <= 0)
            && (KeepsBorrows(if x > y then x else y, if x > y then y else x) ==> next == RoundsUp(Exact(d, bInt, bExp, dExp), bInt))
  {
    ghost var d := ValueFrom(decimals, 0);
    DigitsBelow(decimals, 0);
    var dInt := new BigInteger.FromDecimals(decimals);
    ConvertibleFits(|decimals|, d, dExp, bInt, bExp, dInt.digits.Length - 1);
    var cmp := CheckWithinHalfULP(bInt, bExp, dInt, dExp);
    next := cmp > 0 || (cmp == 0 && bInt % 2 == 1);
    AnswerExactIff(d, bInt, bExp, dExp);
    ghost var (x, y, h) := ScaledThree(d, bInt, bExp, dExp);
    if x > y { SurplusIff(x, y); } else { SurplusIff(y, x); }
  }
}
