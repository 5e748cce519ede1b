/**
 Digit generation: the shortest-digits loop on 64-bit fixed point numbers and its final rounding.
 No word overflows, every character stays a digit, and the printed decimal is the shortest in the interval it was cut
 from, and among those of its length no neighbour below is closer to the number wanted.
 */
module DigitGen {
  import opened Limbs
  import opened Numbers
  import opened Text

  /** A fixed point number: f times 2^e. */
  datatype DiyFp = DiyFp(f: nat, e: int)

  const POW10: seq<nat> := [1, 10, 100, 1000, 10000, 100000, 1000000, 10000000, 100000000, 1000000000]

  lemma {:induction false} TableOfTen(k: nat)
    requires k <= 9
    ensures POW10[k] == Pow(10, k) && Pow(10, k) >= 1
  {
    assert Pow(10, 9) == 1000000000 && Pow(10, 8) == 100000000 && Pow(10, 7) == 10000000 && Pow(10, 6) == 1000000;
    assert Pow(10, 5) == 100000 && Pow(10, 4) == 10000 && Pow(10, 3) == 1000 && Pow(10, 2) == 100 && Pow(10, 1) == 10;
  }

  /** A product, kept apart from the arithmetic around it. */
  function Times(x: nat, y: nat): nat {
    x * y
  }

  lemma {:induction false} TimesAdd(x: nat, y: nat, z: nat)
    ensures Times(x + y, z) == Times(x, z) + Times(y, z)
  {
  }

  lemma {:induction false} TimesGroup(x: nat, y: nat, z: nat)
    ensures Times(Times(x, y), z) == Times(x, Times(y, z))
  {
  }

  lemma {:induction false} TimesOrder(x: nat, y: nat, z: nat)
    requires x <= y
    ensures Times(x, z) <= Times(y, z)
    ensures x < y && z > 0 ==> Times(x, z) + z <= Times(y, z)
  {
    if x < y {
      TimesAdd(x + 1, y - x - 1, z);
      TimesAdd(x, 1, z);
      assert Times(1, z) == z;
    }
  }

  lemma {:induction false} NoWrap(x: nat)
    requires x < BASE
    ensures x % BASE == x
  {
  }

  // ---- rounding ----

  /** One more decrement is allowed and brings the number closer. */
  predicate Closer(delta: nat, rest: nat, tenKappa: nat, wpW: nat)
    requires rest <= delta
  {
    rest < wpW && delta - rest >= tenKappa && (rest + tenKappa < wpW || wpW - rest > rest + tenKappa - wpW)
  }

  /** Once a decrement would not bring the number closer, none further down does either. */
  lemma {:induction false} NoneFurther(delta: nat, rest: nat, r: nat, n: nat, j: nat, u: nat, w: nat)
    requires r == rest + Times(n, u) && r <= delta && !Closer(delta, r, u, w) && n < j && rest + Times(j, u) <= delta
    ensures Distance(r, w) <= Distance(rest + Times(j, u), w)
  {
    if u > 0 { TimesOrder(n, j, u); } else { assert Times(j, 0) == 0 == Times(n, 0); }
  }

  lemma {:induction false} DecrementsLeft(n: nat, d: nat, tenKappa: nat, rest: nat, delta: nat)
    requires Times(d, tenKappa) + rest >= delta && rest + Times(n, tenKappa) + tenKappa <= delta && tenKappa > 0
    ensures n < d && Times(1, tenKappa) == tenKappa
  {
    if n >= d { TimesOrder(d, n, tenKappa); }
  }

  /**
   Decrements the last digit while that brings the number closer to the one wanted, and stays within delta.
   The digit cannot drop below zero when, with `d` for the digit, the remainder before it, d * tenKappa + rest, reaches delta.
   */
  method GrisuRound(buffer: array<char>, len: nat, delta: nat, rest: nat, tenKappa: nat, wpW: nat) returns (ghost rest': nat, ghost n: nat)
    requires 1 <= len <= buffer.Length && AllDigits(buffer[..len])
    requires rest <= delta < BASE && 0 < tenKappa < BASE && wpW < BASE
    requires Times(buffer[len - 1] as int - '0' as int, tenKappa) + rest >= delta
    modifies buffer
    ensures AllDigits(buffer[..len]) && buffer[..len - 1] == old(buffer[..len - 1])
    ensures n <= old(buffer[len - 1]) as int - '0' as int && buffer[len - 1] as int == old(buffer[len - 1]) as int - n
    ensures rest' == rest + Times(n, tenKappa) && rest' <= delta
    ensures forall j: nat :: rest + Times(j, tenKappa) <= delta ==> Distance(rest', wpW) <= Distance(rest + Times(j, tenKappa), wpW)
  {
    ghost var d := buffer[len - 1] as int - '0' as int;
    assert IsDigit(buffer[..len][len - 1]);
    var r := rest;
    n := 0;
    while r < wpW && delta - r >= tenKappa && (r + tenKappa < wpW || wpW - r > r + tenKappa - wpW)
      invariant r <= delta && n <= d && r == rest + Times(n, tenKappa)
      invariant buffer[len - 1] as int == '0' as int + d - n
      invariant buffer[..len - 1] == old(buffer[..len - 1])
      invariant forall j: nat :: j <= n ==> Distance(r, wpW) <= Distance(rest + Times(j, tenKappa), wpW)
      decreases delta - r
    {
      TimesAdd(n, 1, tenKappa);
      DecrementsLeft(n, d, tenKappa, rest, delta);
      buffer[len - 1] := (buffer[len - 1] as int - 1) as char;
      NoWrap(r + tenKappa);
      r := (r + tenKappa) % BASE;
      n := n + 1;
    }
    rest' := r;
    forall j: nat | rest + Times(j, tenKappa) <= delta
      ensures Distance(r, wpW) <= Distance(rest + Times(j, tenKappa), wpW)
    {
      if j > n { NoneFurther(delta, rest, r, n, j, tenKappa, wpW); }
    }
    assert buffer[..len] == buffer[..len - 1] + [buffer[len - 1]];
    forall i | 0 <= i < len ensures IsDigit(buffer[..len][i]) {
      if i < len - 1 { assert buffer[..len - 1][i] == old(buffer[..len])[i]; }
    }
  }

  // ---- digits ----

  method CountDecimalDigit32(n: nat) returns (k: nat)
    requires n < 1000000000
    ensures 1 <= k <= 9 && n < Pow(10, k) && (k > 1 ==> n >= Pow(10, k - 1))
  {
    k := if n < 10 then 1 else if n < 100 then 2 else if n < 1000 then 3 else if n < 10000 then 4 else if n < 100000 then 5
         else if n < 1000000 then 6 else if n < 10000000 then 7 else if n < 100000000 then 8 else 9;
    TableOfTen(k);
    TableOfTen(k - 1);
  }

  /** Appends a digit, unless it would be a leading zero. */
  method PushDigit(buffer: array<char>, len: nat, d: nat) returns (len': nat)
    requires len < buffer.Length && AllDigits(buffer[..len]) && d < 10
    modifies buffer
    ensures len' == (if d > 0 || len > 0 then len + 1 else 0) && AllDigits(buffer[..len'])
    ensures ValueFrom(buffer[..len'], 0) == 10 * ValueFrom(old(buffer[..len]), 0) + d
    ensures len' > len ==> buffer[len'-1] as int - '0' as int == d
  {
    len' := len;
    if d > 0 || len > 0 {
      ghost var was := buffer[..len];
      buffer[len] := DigitChar(d);
      len' := len + 1;
      ValueSnoc(was, DigitChar(d), 0);
      assert buffer[..len'] == was + [DigitChar(d)];
    }
  }

  /** A number of this many digits, none of them a leading zero. */
  predicate Significant(n: nat, len: nat) {
    if len == 0 then n == 0 else n >= Pow(10, len - 1)
  }

  lemma {:induction false} SignificantGrows(n: nat, len: nat, d: nat)
    requires Significant(n, len) && d < 10
    ensures Significant(10 * n + d, if d > 0 || len > 0 then len + 1 else 0)
  {
    if len > 0 { assert Pow(10, len) == 10 * Pow(10, len - 1); }
  }

  /** A word has at most twenty digits. */
  lemma {:induction false} WordDigits(n: nat, len: nat)
    requires Significant(n, len) && n < BASE
    ensures len <= 20
  {
    if len > 20 {
      var ten, m := 10, len - 11;
      PowAdd(10, ten, m);
      PowGrows(10, 10, ten, m);
      TableOfTen(9);
      assert Pow(10, ten) == 10 * Pow(10, 9) == 10000000000;
      Product(10000000000, Pow(10, ten), 10000000000, Pow(10, m));
    }
  }

  /** What has been printed is below the number when a digit of the fraction is still to come. */
  lemma {:induction false} PrintedBelow(f: nat, n: nat, one: nat, p2: nat, t: nat)
    requires Times(f, t) == Times(n, one) + p2 && 0 < t < one
    ensures n <= f
  {
    TimesOrder(t, one, f);
    assert Times(f, t) == Times(t, f) && Times(f, one) == Times(one, f);
    if n > f { TimesOrder(f, n, one); }
  }

  /** Taking the leading digit off a remainder: what it moves to the digits it takes from the remainder. */
  lemma {:induction false} DigitMoves(n: nat, d: nat, t: nat, p1: nat, p1': nat, one: nat)
    requires p1 == d * t + p1'
    ensures Times(Times(n, 10 * t), one) + Times(p1, one) == Times(Times(10 * n + d, t), one) + Times(p1', one)
    ensures Times(p1, one) == Times(d, Times(t, one)) + Times(p1', one)
  {
    assert n * (10 * t) == 10 * n * t;
    assert (10 * n + d) * t == 10 * n * t + d * t;
    TimesAdd(10 * n * t, d * t, one);
    TimesAdd(d * t, p1', one);
    TimesGroup(d, t, one);
  }

  /** The value of a numeral whose last digit is decremented. */
  lemma {:induction false} LastDigit(s: string, t: string, k: nat)
    requires |s| == |t| > 0 && AllDigits(s) && AllDigits(t) && s[..|s| - 1] == t[..|t| - 1]
    requires t[|t| - 1] as int == s[|s| - 1] as int - k
    ensures ValueFrom(s, 0) == ValueFrom(t, 0) + k
  {
    var u, a, b := s[..|s| - 1], s[|s| - 1], t[|t| - 1];
    assert s == u + [a] && t == u + [b];
    ValueSnoc(u, a, 0);
    ValueSnoc(u, b, 0);
  }

  // ---- what is wanted of the digits ----

  /** `n` units lie between the upper boundary `f` and `delta` below it, and no other number of units there is closer to `f - gap`. */
  ghost predicate Best(n: nat, unit: nat, f: nat, delta: nat, gap: nat) {
    && Times(n, unit) <= f <= Times(n, unit) + delta
    && forall m: nat :: Times(m, unit) <= f <= Times(m, unit) + delta
                        ==> Distance(f - Times(n, unit), gap) <= Distance(f - Times(m, unit), gap)
  }

  /** No multiple of this unit lies below the upper boundary and less than `delta` away from it. */
  ghost predicate NoneInside(unit: nat, f: nat, delta: nat) {
    forall m: nat :: Times(m, unit) <= f ==> Times(m, unit) + delta <= f
  }

  /** The scale on which a decimal with this exponent is a whole number of units. */
  function Scale(kappa: int): nat {
    if kappa >= 0 then 1 else Pow(10, -kappa)
  }

  /** The last digit's unit on that scale. */
  function UnitOf(kappa: int, one: nat): nat {
    if kappa >= 0 then Times(Pow(10, kappa), one) else one
  }

  /** What rounding aims at: the number wanted, up to eight places, and further down the upper boundary itself. */
  function Aim(kappa: int, gap: nat): nat {
    if -kappa < 9 then Times(gap, Scale(kappa)) else 0
  }

  /**
   The digits are those of a decimal between the boundaries, the one of so many places that is closest to the number wanted
   (or to the upper boundary where the table ends), and with one place less there is none.
   */
  ghost predicate ShortestNearest(digits: string, kappa: int, one: nat, mp: nat, delta: nat, gap: nat)
    requires AllDigits(digits)
  {
    var s, u := Scale(kappa), UnitOf(kappa, one);
    && Best(ValueFrom(digits, 0), u, Times(mp, s), Times(delta, s), Aim(kappa, gap))
    && NoneInside(10 * u, Times(mp, s), Times(delta, s))
  }

  lemma {:induction false} MultipleBelow(f: nat, n: nat, unit: nat, rest: nat, m: nat)
    requires f == Times(n, unit) + rest && rest < unit && Times(m, unit) <= f
    ensures m <= n
  {
    if m > n { TimesOrder(n, m, unit); }
  }

  lemma {:induction false} BestOf(f: nat, n: nat, k: nat, unit: nat, delta: nat, rest: nat, rest': nat, gap: nat)
    requires f == Times(n, unit) + rest && rest < unit && k <= n && rest' == rest + Times(k, unit) && rest' <= delta
    requires forall j: nat :: rest + Times(j, unit) <= delta ==> Distance(rest', gap) <= Distance(rest + Times(j, unit), gap)
    ensures Best(n - k, unit, f, delta, gap)
  {
    TimesAdd(n - k, k, unit);
    forall m: nat | Times(m, unit) <= f <= Times(m, unit) + delta ensures Distance(rest', gap) <= Distance(f - Times(m, unit), gap) {
      MultipleBelow(f, n, unit, rest, m);
      TimesAdd(m, n - m, unit);
      assert f - Times(m, unit) == rest + Times(n - m, unit);
    }
  }

  lemma {:induction false} NoneInsideIf(f: nat, n: nat, unit: nat, rest: nat, delta: nat)
    requires f == Times(n, unit) + rest && delta <= rest < unit
    ensures NoneInside(unit, f, delta)
  {
    forall m: nat | Times(m, unit) <= f ensures Times(m, unit) + delta <= f {
      MultipleBelow(f, n, unit, rest, m);
      TimesOrder(m, n, unit);
    }
  }

  lemma {:induction false} NoneInsideTenfold(f: nat, unit: nat, delta: nat)
    requires NoneInside(unit, f, delta)
    ensures NoneInside(10 * unit, 10 * f, 10 * delta)
  {
    forall m: nat | Times(m, 10 * unit) <= 10 * f ensures Times(m, 10 * unit) + 10 * delta <= 10 * f {
      TenfoldGap(m, unit);
      assert Times(m, unit) <= f;
    }
  }

  /** Where the table ends, the decimal is the upper boundary, cut off. */
  lemma {:induction false} CutOff(digits: string, kappa: int, one: nat, mp: nat, delta: nat, gap: nat)
    requires AllDigits(digits) && ShortestNearest(digits, kappa, one, mp, delta, gap) && -kappa >= 9 && one > 0
    ensures Times(ValueFrom(digits, 0), one) <= Times(mp, Pow(10, -kappa)) < Times(ValueFrom(digits, 0) + 1, one)
  {
    var n, f := ValueFrom(digits, 0), Times(mp, Pow(10, -kappa));
    TimesAdd(n, 1, one);
    assert Times(1, one) == one;
  }

  lemma {:induction false} NinePlaces(n: nat, one: nat, f: nat)
    requires n == 1000000003 && one == 0x1_0000_0000 && f == 0x1_0000_000D * 1000000000
    ensures f == Times(n, one) + 115098112 && f == Times(100000000, 10 * one) + 13000000000
    ensures Times(n - 1, one) == f - 115098112 - one
  {
  }

  /** Nine places down, the number wanted no longer counts: here one unit less would be inside as well, and closer to it. */
  lemma {:induction false} CutOffNotNearest(n: nat, one: nat, mp: nat, delta: nat, gap: nat)
    requires n == 1000000003 && one == 0x1_0000_0000 && mp == 0x1_0000_000D && delta == 10 && gap == 4
    ensures AllDigits(Dec(n)) && ShortestNearest(Dec(n), -9, one, mp, delta, gap)
    ensures var f := Times(mp, Scale(-9));
            && Times(n - 1, one) <= f <= Times(n - 1, one) + Times(delta, Scale(-9))
            && Distance(f - Times(n - 1, one), Times(gap, Scale(-9))) < Distance(f - Times(n, one), Times(gap, Scale(-9)))
  {
    TableOfTen(9);
    DecIs(n);
    hide Dec;
    var f, dl := Times(mp, Scale(-9)), Times(delta, Scale(-9));
    assert Scale(-9) == 1000000000;
    assert f == 0x1_0000_000D * 1000000000 && dl == 10000000000 && Times(gap, Scale(-9)) == 4000000000;
    NinePlaces(n, one, f);
    assert Times(0, one) == 0;
    BestOf(f, n, 0, one, dl, 115098112, 115098112, 0);
    NoneInsideIf(f, 100000000, 10 * one, 13000000000, dl);
  }

  /** What is left of a digit position: the digit, the power of ten after it and the remainder. */
  method SplitDigit(p1: nat, kappa: nat) returns (d: nat, p1': nat)
    requires 1 <= kappa <= 9 && p1 < Pow(10, kappa)
    ensures p1 == d * Pow(10, kappa - 1) + p1' && d < 10 && p1' < Pow(10, kappa - 1)
  {
    TableOfTen(kappa - 1);
    ghost var t := Pow(10, kappa - 1);
    d, p1' := p1 / POW10[kappa - 1], p1 % POW10[kappa - 1];
    assert p1 == t * d + p1';
    QuotientLess(p1, 10, t);
  }

  // ---- the integer part ----

  method RoundInteger(buffer: array<char>, len: nat, kappa: nat, one: nat, rest: nat, delta: nat, wpW: nat, ghost f: nat, ghost d: nat, ghost t: nat)
    requires 1 <= len <= buffer.Length && AllDigits(buffer[..len]) && buffer[len - 1] as int - '0' as int == d
    requires kappa < 9 && t == Pow(10, kappa) && one > 0 && wpW < BASE && f < BASE
    requires rest <= delta < Times(d, Times(t, one)) + rest < BASE && rest < Times(t, one)
    requires f == Times(Times(ValueFrom(buffer[..len], 0), t), one) + rest
    modifies buffer
    ensures AllDigits(buffer[..len]) && Best(ValueFrom(buffer[..len], 0), Times(t, one), f, delta, wpW)
  {
    TableOfTen(kappa);
    UnitFits(d, t, one, delta - rest);
    var unit := ProductOf(POW10[kappa], one);
    ghost var was := buffer[..len];
    ghost var rest', k := GrisuRound(buffer, len, delta, rest, unit, wpW);
    assert buffer[..len][..len - 1] == buffer[..len - 1] && was[..len - 1] == old(buffer[..len - 1]);
    LastDigit(was, buffer[..len], k);
    TimesGroup(ValueFrom(was, 0), t, one);
    BestOf(f, ValueFrom(was, 0), k, Times(t, one), delta, rest, rest', wpW);
  }

  /** Moves one digit of the integer part from the number to the buffer, and what is left to `tmp`. */
  method MoveDigit(buffer: array<char>, len: nat, kappa: nat, p1: nat, one: nat, p2: nat, ghost n: nat, ghost f: nat)
    returns (len': nat, p1': nat, tmp: nat, ghost d: nat, ghost t: nat)
    requires 1 <= kappa <= 9 && p1 < Pow(10, kappa) && len < buffer.Length && AllDigits(buffer[..len])
    requires n == ValueFrom(buffer[..len], 0) && Significant(n, len)
    requires f == Times(Times(n, Pow(10, kappa)), one) + Times(p1, one) + p2 < BASE
    modifies buffer
    ensures t == Pow(10, kappa - 1) && p1' < t && tmp == Times(p1', one) + p2
    ensures len <= len' <= len + 1 && AllDigits(buffer[..len']) && ValueFrom(buffer[..len'], 0) == 10 * n + d && Significant(10 * n + d, len')
    ensures d > 0 ==> len' > 0 && buffer[len' - 1] as int - '0' as int == d
    ensures f == Times(Times(10 * n + d, t), one) + tmp
    ensures Times(p1, one) + p2 == Times(d, Times(t, one)) + tmp
  {
    var digit;
    digit, p1' := SplitDigit(p1, kappa);
    d, t := digit, Pow(10, kappa - 1);
    DigitMoves(n, d, t, p1, p1', one);
    SignificantGrows(n, len, d);
    len' := PushDigit(buffer, len, digit);
    tmp := ProductOf(p1', one);
    NoWrap(tmp + p2);
    tmp := (tmp + p2) % BASE;
  }

  /** The digits before the point; stops as soon as what is left is within delta, and rounds. */
  method IntegerDigits(buffer: array<char>, one: nat, P1: nat, p2: nat, delta: nat, wpW: nat, ghost f: nat)
    returns (done: bool, len: nat, kappa: nat)
    requires P1 < 1000000000 && p2 < one && f == Times(P1, one) + p2 < BASE && 0 < delta < f && wpW <= delta
    requires buffer.Length >= 21
    modifies buffer
    ensures len <= 9 && AllDigits(buffer[..len])
    ensures !done ==> Significant(ValueFrom(buffer[..len], 0), len)
    ensures done ==> len >= 1 && kappa < 9 && ShortestNearest(buffer[..len], kappa, one, f, delta, wpW)
    ensures !done ==> kappa == 0 && f == Times(ValueFrom(buffer[..len], 0), one) + p2 && delta < p2
  {
    var p1: nat := P1;
    kappa := CountDecimalDigit32(p1);
    len, done := 0, false;
    ghost var n: nat := 0;
    assert buffer[..0] == [];
    NothingPrinted(kappa, one);
    hide *;
    while kappa > 0
      invariant !done && kappa <= 9 && len <= 9 - kappa && AllDigits(buffer[..len])
      invariant n == ValueFrom(buffer[..len], 0) && Significant(n, len)
      invariant p1 < Pow(10, kappa)
      invariant f == Times(Times(n, Pow(10, kappa)), one) + Times(p1, one) + p2
      invariant delta < Times(p1, one) + p2
      decreases kappa
    {
      var tmp;
      ghost var d, t, n0, r0 := 0, 0, n, Times(p1, one) + p2;
      PositionShort(f, n, kappa, p1, one, p2, delta);
      len, p1, tmp, d, t := MoveDigit(buffer, len, kappa, p1, one, p2, n, f);
      n, kappa := 10 * n + d, kappa - 1;
      if tmp <= delta {
        NotZero(d, Times(t, one), delta + 1 - tmp);
        BelowUnit(p1, t, one, p2);
        RoundInteger(buffer, len, kappa, one, tmp, delta, wpW, f, d, t);
        IntegerIs(buffer[..len], kappa, one, f, delta, wpW);
        done := true;
        return;
      }
    }
    AllPrinted(n, p1, one);
  }

  lemma {:induction false} BelowUnit(p1: nat, t: nat, one: nat, p2: nat)
    requires p1 < t && p2 < one
    ensures Times(p1, one) + p2 < Times(t, one)
  {
    TimesOrder(p1, t, one);
  }

  /** What is left at a position is more than delta, so that no multiple of its unit is inside. */
  lemma {:induction false} PositionShort(f: nat, n: nat, kappa: nat, p1: nat, one: nat, p2: nat, delta: nat)
    requires kappa > 0 && p1 < Pow(10, kappa) && p2 < one && delta < Times(p1, one) + p2
    requires f == Times(Times(n, Pow(10, kappa)), one) + Times(p1, one) + p2
    ensures NoneInside(10 * Times(Pow(10, kappa - 1), one), f, delta)
  {
    var t := Pow(10, kappa - 1);
    BelowUnit(p1, Pow(10, kappa), one, p2);
    TimesGroup(n, Pow(10, kappa), one);
    assert Pow(10, kappa) == 10 * t && Times(10 * t, one) == 10 * Times(t, one);
    NoneInsideIf(f, n, Times(Pow(10, kappa), one), Times(p1, one) + p2, delta);
  }

  lemma {:induction false} IntegerIs(digits: string, kappa: nat, one: nat, f: nat, delta: nat, gap: nat)
    requires AllDigits(digits) && Best(ValueFrom(digits, 0), Times(Pow(10, kappa), one), f, delta, gap)
    requires NoneInside(10 * Times(Pow(10, kappa), one), f, delta)
    ensures ShortestNearest(digits, kappa, one, f, delta, gap)
  {
    assert Times(f, 1) == f && Times(delta, 1) == delta && Times(gap, 1) == gap;
  }

  lemma {:induction false} NothingPrinted(kappa: nat, one: nat)
    ensures Times(Times(0, Pow(10, kappa)), one) == 0 && ValueFrom([], 0) == 0 && AllDigits([]) && Significant(0, 0)
  {
    assert Times(0, Pow(10, kappa)) == 0 && Times(0, one) == 0;
  }

  lemma {:induction false} AllPrinted(n: nat, p1: nat, one: nat)
    requires p1 < Pow(10, 0)
    ensures Times(Times(n, Pow(10, 0)), one) == Times(n, one) && Times(p1, one) == 0
  {
    assert Times(n, 1) == n && Times(0, one) == 0;
  }

  method ProductOf(x: nat, y: nat) returns (p: nat)
    requires Times(x, y) < BASE
    ensures p == Times(x, y)
  {
    NoWrap(x * y);
    p := x * y % BASE;
  }

  lemma {:induction false} UnitFits(d: nat, t: nat, one: nat, gap: nat)
    requires one > 0 && t > 0 && Times(d, Times(t, one)) > gap && Times(d, Times(t, one)) < BASE
    ensures d > 0 && 0 < Times(t, one) < BASE
  {
    assert Times(0, Times(t, one)) == 0;
    var u := Times(t, one);
    assert u > 0 by { Product(1, t, 1, one); }
    if d > 0 { TimesOrder(1, d, u); assert Times(1, u) == u; }
  }

  // ---- the fraction ----

  lemma {:induction false} FractionMoves(f: nat, n: nat, d: nat, one: nat, p2: nat, p2': nat, t: nat)
    requires Times(f, t) == Times(n, one) + p2 && 10 * p2 == Times(d, one) + p2'
    ensures Times(f, 10 * t) == Times(10 * n + d, one) + p2'
  {
    assert f * (10 * t) == 10 * (f * t);
    TimesAdd(10 * n, d, one);
    assert Times(10 * n, one) == 10 * Times(n, one);
  }

  method RoundFraction(buffer: array<char>, len: nat, one: nat, p2: nat, delta: nat, w: nat, ghost f: nat, ghost d: nat)
    requires 1 <= len <= buffer.Length && AllDigits(buffer[..len]) && buffer[len - 1] as int - '0' as int == d
    requires p2 <= delta < BASE && p2 < one < BASE && w < BASE && Times(d, one) + p2 >= delta
    requires f == Times(ValueFrom(buffer[..len], 0), one) + p2
    modifies buffer
    ensures AllDigits(buffer[..len]) && Best(ValueFrom(buffer[..len], 0), one, f, delta, w)
  {
    ghost var was := buffer[..len];
    ghost var rest', k := GrisuRound(buffer, len, delta, p2, one, w);
    assert buffer[..len][..len - 1] == buffer[..len - 1] && was[..len - 1] == old(buffer[..len - 1]);
    LastDigit(was, buffer[..len], k);
    BestOf(f, ValueFrom(was, 0), k, one, delta, p2, rest', w);
  }

  /**
   Moves one digit of the fraction to the buffer.  What is left is below one and at least delta, so neither product with ten
   wraps around.
   */
  method MoveFraction(buffer: array<char>, len: nat, one: nat, p2: nat, delta: nat, ghost n: nat, ghost f: nat, ghost t: nat)
    returns (len': nat, p2': nat, delta': nat, ghost d: nat)
    requires buffer.Length >= 21 && len <= buffer.Length && AllDigits(buffer[..len]) && n == ValueFrom(buffer[..len], 0) && Significant(n, len)
    requires Times(f, t) == Times(n, one) + p2 && 0 < t <= delta <= p2 < one <= 0x1000_0000_0000_0000 && f < BASE
    modifies buffer
    ensures len <= len' <= 21 && AllDigits(buffer[..len']) && ValueFrom(buffer[..len'], 0) == 10 * n + d && Significant(10 * n + d, len')
    ensures d > 0 ==> len' > 0 && buffer[len' - 1] as int - '0' as int == d
    ensures Times(f, 10 * t) == Times(10 * n + d, one) + p2' && p2' < one && 10 * p2 == Times(d, one) + p2'
    ensures delta' == 10 * delta && NoneInside(10 * one, Times(f, 10 * t), delta')
  {
    NoneInsideIf(Times(f, t), n, one, p2, delta);
    NoneInsideTenfold(Times(f, t), one, delta);
    TenfoldGap(f, t);
    PrintedBelow(f, n, one, p2, t);
    WordDigits(n, len);
    hide *;
    NoWrap(p2 * 10);
    NoWrap(delta * 10);
    var digit;
    digit, p2' := Quotient(p2 * 10 % BASE, one);
    delta' := delta * 10 % BASE;
    d := digit;
    FractionMoves(f, n, d, one, p2, p2', t);
    SignificantGrows(n, len, d);
    len' := PushDigit(buffer, len, digit);
  }

  /** The digits after the point: as delta grows tenfold each time, the loop ends. */
  method FractionDigits(buffer: array<char>, len0: nat, one: nat, P2: nat, Delta: nat, wpW: nat, ghost f: nat) returns (len: nat, kappa: int)
    requires buffer.Length >= 21 && len0 <= 9 && AllDigits(buffer[..len0])
    requires f == Times(ValueFrom(buffer[..len0], 0), one) + P2 < BASE && wpW <= Delta && Significant(ValueFrom(buffer[..len0], 0), len0)
    requires 0 < Delta < P2 < one <= 0x1000_0000_0000_0000
    modifies buffer
    ensures 1 <= len <= 21 && AllDigits(buffer[..len]) && kappa < 0
    ensures ShortestNearest(buffer[..len], kappa, one, f, Delta, wpW)
  {
    var p2, delta := P2, Delta;
    len, kappa := len0, 0;
    ghost var n, t := ValueFrom(buffer[..len], 0), 1;
    assert Times(f, 1) == f && Times(Delta, 1) == Delta;
    hide NoneInside, Best, Significant, Times;
    while true
      invariant kappa <= 0 && len <= 21 && AllDigits(buffer[..len]) && n == ValueFrom(buffer[..len], 0) && Significant(n, len)
      invariant t == Pow(10, -kappa) && Times(f, t) == Times(n, one) + p2 && delta == Times(Delta, t) && 0 < t <= delta
      invariant delta <= p2 < one
      decreases one - delta
    {
      ghost var d;
      len, p2, delta, d := MoveFraction(buffer, len, one, p2, delta, n, f, t);
      TenfoldGap(Delta, t);
      n, kappa, t := 10 * n + d, kappa - 1, 10 * t;
      assert t == Pow(10, -kappa);
      if p2 < delta {
        var w := ScaledGap(wpW, -kappa, Delta, t);
        NotZero(d, one, delta - p2);
        RoundFraction(buffer, len, one, p2, delta, w, Times(f, t), d);
        return;
      }
    }
  }

  lemma {:induction false} TenfoldGap(x: nat, t: nat)
    ensures Times(x, 10 * t) == 10 * Times(x, t)
  {
    assert x * (10 * t) == 10 * (x * t);
  }

  method Quotient(x: nat, one: nat) returns (d: nat, r: nat)
    requires one > 0 && x < 10 * one
    ensures x == Times(d, one) + r && d < 10 && r < one
  {
    d, r := x / one, x % one;
    assert x == one * d + r;
    QuotientLess(x, 10, one);
  }

  /** The gap to the wanted number in the units of the last digit, or zero where the table ends. */
  method ScaledGap(wpW: nat, index: nat, ghost Delta: nat, ghost t: nat) returns (w: nat)
    requires wpW <= Delta && t == Pow(10, index) && Times(Delta, t) < BASE
    ensures w < BASE && w == if index < 9 then Times(wpW, t) else 0
  {
    w := 0;
    if index < 9 {
      TableOfTen(index);
      TimesOrder(wpW, Delta, t);
      w := ProductOf(wpW, POW10[index]);
    }
  }

  lemma {:induction false} NotZero(d: nat, one: nat, gap: nat)
    requires Times(d, one) >= gap > 0
    ensures d > 0
  {
    assert Times(0, one) == 0;
  }

  // ---- both ----

  /**
   Prints digits and the exponent of the last one, such that the decimal lies between the boundaries.
   Twenty-one places are enough; the writer has twenty-five, of which a sign may take one.
   */
  method DigitGen(W: DiyFp, Mp: DiyFp, delta: nat, buffer: array<char>) returns (len: nat, kappa: int)
    requires -60 <= Mp.e <= -32 && W.e == Mp.e && Mp.f < BASE && Mp.f < 1000000000 * Pow(2, -Mp.e)
    requires 0 < delta < Mp.f && Mp.f - delta <= W.f <= Mp.f && buffer.Length >= 21
    modifies buffer
    ensures 1 <= len <= 21 && AllDigits(buffer[..len])
    ensures ShortestNearest(buffer[..len], kappa, Pow(2, -Mp.e), Mp.f, delta, Mp.f - W.f)
  {
    var one := Pow(2, -Mp.e);
    OneFits(-Mp.e);
    var wpW := Mp.f - W.f;
    var p1, p2 := Mp.f / one, Mp.f % one;
    QuotientLess(Mp.f, 1000000000, one);
    assert Mp.f == Times(p1, one) + p2;
    var done;
    done, len, kappa := IntegerDigits(buffer, one, p1, p2, delta, wpW, Mp.f);
    if !done {
      len, kappa := FractionDigits(buffer, len, one, p2, delta, wpW, Mp.f);
    }
  }

  lemma {:induction false} OneFits(n: nat)
    requires n <= 60
    ensures 0 < Pow(2, n) <= 0x1000_0000_0000_0000
  {
    var m := 60 - n;
    PowPositive(2, n);
    PowPositive(2, m);
    PowAdd(2, n, m);
    SixtyBits(n + m);
    Product(Pow(2, n), Pow(2, n), 1, Pow(2, m));
  }
}
