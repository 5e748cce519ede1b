/**
 Arbitrary precision arithmetic in place: an array of 64-bit limbs and a count, proved against exact integers.
 */
module BigInteger {
  import opened Limbs
  import opened Borrows
  import opened Numbers
  import opened Text

  const CAPACITY := 416

  // ---- words ----

  /** The two halves of the product of two words, from the products of their halves. */
  lemma {:induction false} HalvesMultiply(a: nat, b: nat, a0: nat, a1: nat, b0: nat, b1: nat)
    requires a == a1 * HALF + a0 && b == b1 * HALF + b0
    ensures a * b == a0 * b0 + HALF * (a0 * b1 + a1 * b0) + BASE * (a1 * b1)
  {
    assert a * b == a1 * HALF * b + a0 * b;
    assert a1 * HALF * b == HALF * (a1 * b);
    assert a1 * b == a1 * (b1 * HALF) + a1 * b0;
    assert a1 * (b1 * HALF) == HALF * (a1 * b1);
    assert a0 * b == a0 * (b1 * HALF) + a0 * b0;
    assert a0 * (b1 * HALF) == HALF * (a0 * b1);
  }

  method HalfProduct(a: nat, b: nat) returns (p: nat)
    requires a < HALF && b < HALF
    ensures p == a * b && p <= (HALF - 1) * (HALF - 1)
  {
    Product(a, HALF - 1, b, HALF - 1);
    p := a * b;
  }

  /** The sum of two words wraps around at most once, and then it is below either of them. */
  lemma {:induction false} SumWraps(a: nat, b: nat)
    requires a < BASE && b < BASE
    ensures (a + b) % BASE == if a + b < BASE then a + b else a + b - BASE
    ensures (a + b) % BASE < b <==> a + b >= BASE
  {
  }

  /** The sum of two words as a word. */
  method SumOfWords(a: nat, b: nat) returns (c: nat)
    requires a < BASE && b < BASE
    ensures c == LowWord(a + b)
  {
    c := (a + b) % BASE;
    SumWraps(a, b);
  }

  lemma {:induction false} UpperHalf(y: nat)
    requires y < BASE
    ensures y == y / HALF * HALF + y % HALF && y * HALF % BASE == y % HALF * HALF && y / HALF < HALF
  {
    var h, l := y / HALF, y % HALF;
    assert y * HALF == BASE * h + l * HALF;
    DivisionIs(y * HALF, h, l * HALF);
  }


  /** What the portable code does with the four partial products, word by word. */
  method MulAdd64(a: nat, b: nat, k: nat) returns (lo: nat, hi: nat)
    requires a < BASE && b < BASE && k < BASE
    ensures a * b + k == lo + BASE * hi && lo < BASE && hi < BASE
  {
    var a0, a1, b0, b1 := a % HALF, a / HALF, b % HALF, b / HALF;
    var x0 := HalfProduct(a0, b0);
    var x1 := HalfProduct(a0, b1);
    var x2 := HalfProduct(a1, b0);
    var x3 := HalfProduct(a1, b1);
    HalvesMultiply(a, b, a0, a1, b0, b1);
    CarryFits(a, b, k);
    lo, hi := Combine(x0, x1, x2, x3, a * b, k);
  }

  method Combine(x0: nat, x1: nat, x2: nat, x3: nat, ghost p: nat, k: nat) returns (lo: nat, hi: nat)
    requires x0 <= (HALF - 1) * (HALF - 1) && x1 <= (HALF - 1) * (HALF - 1)
    requires x2 <= (HALF - 1) * (HALF - 1) && x3 <= (HALF - 1) * (HALF - 1)
    requires p == x0 + HALF * (x1 + x2) + BASE * x3 && k < BASE && p + k < BASE * BASE
    ensures p + k == lo + BASE * hi && lo < BASE && hi < BASE
  {
    var y0, r0 := x0 / HALF, x0 % HALF;
    SumWraps(x1, y0);
    var y1 := (x1 + y0) % BASE;
    SumWraps(y1, x2);
    y1 := (y1 + x2) % BASE;
    var y3 := x3;
    if y1 < x2 {
      SumWraps(y3, HALF);
      y3 := (y3 + HALF) % BASE;
    }
    assert y1 + (if y3 == x3 then 0 else BASE) == x1 + y0 + x2;
    var h, l := y1 / HALF, y1 % HALF;
    UpperHalf(y1);
    SumWraps(l * HALF, r0);
    lo := (y1 * HALF % BASE + r0) % BASE;
    assert p == lo + BASE * (y3 + h);
    SumWraps(y3, h);
    hi := (y3 + h) % BASE;
    assert p == lo + BASE * hi;
    SumWraps(lo, k);
    lo := (lo + k) % BASE;
    if lo < k {
      SumWraps(hi, 1);
      hi := (hi + 1) % BASE;
    }
    assert p + k == lo + BASE * hi;
  }

  /** The same with a factor of half a word: the carry stays half a word. */
  method MulAdd32(a: nat, u: nat, k: nat) returns (lo: nat, hi: nat)
    requires a < BASE && u < HALF && k < HALF
    ensures a * u + k == lo + BASE * hi && lo < BASE && hi < HALF
  {
    var c, d := a / HALF, a % HALF;
    var uc := HalfProduct(u, c);
    var ud := HalfProduct(u, d);
    assert a * u == HALF * uc + ud by { HalvesMultiply(a, u, d, c, u, 0); }
    lo, hi := Combine32(uc, ud, k);
  }

  method Combine32(uc: nat, ud: nat, k: nat) returns (lo: nat, hi: nat)
    requires uc <= (HALF - 1) * (HALF - 1) && ud <= (HALF - 1) * (HALF - 1) && k < HALF
    ensures HALF * uc + ud + k == lo + BASE * hi && lo < BASE && hi < HALF
  {
    var p0 := SumOfWords(ud, k);
    var p1 := SumOfWords(uc, p0 / HALF);
    UpperHalf(p1);
    lo := p0 % HALF + p1 * HALF % BASE;
    hi := p1 / HALF;
  }

  /** A number with more limbs than `n` needs more room than that. */
  lemma {:induction false} RoomLeft(s: seq<nat>, n: nat, room: nat)
    requires Canonical(s) && |s| == n + 1 && n >= 1 && Value(s) < Pow(BASE, room)
    ensures n < room
  {
    if room <= n {
      ValueAtLeast(s);
      PowGrows(BASE, BASE, room, n);
    }
  }

  /** A limb after adding the carry: it is below what it was exactly if there is a carry again. */
  lemma {:induction false} AddsLimb(was: seq<nat>, u: nat, i: nat, c: nat, d: nat)
    requires Words(was) && i < |was| && c < BASE && SumCarry(was, u, i) == c
    requires d == LowWord(was[i] + c)
    ensures i < |AddCarry(was, u)| && AddCarry(was, u)[i] == d
    ensures SumCarry(was, u, i + 1) == if d < was[i] then 1 else 0
  {
    AddCarryAt(was, u, i);
  }

  /** Without a carry the other limbs stay as they are. */
  lemma {:induction false} AddsNoMore(was: seq<nat>, u: nat, i: nat)
    requires Words(was) && i <= |was| && SumCarry(was, u, i) == 0
    ensures SumCarry(was, u, |was|) == 0
    ensures |AddCarry(was, u)| == |was| && forall j | i <= j < |was| :: AddCarry(was, u)[j] == was[j]
  {
    SumCarryStops(was, u, i, |was|);
    AddCarryAt(was, u, 0);
    assert SumCarry(was, u, |was|) == 0;
    forall j | i <= j < |was| ensures AddCarry(was, u)[j] == was[j] {
      SumCarryStops(was, u, i, j);
      AddCarryAt(was, u, j);
    }
  }

  lemma {:induction false} AddsLast(was: seq<nat>, u: nat)
    requires Words(was) && u < BASE && Canonical(was)
    ensures var sum := AddCarry(was, u);
            && Value(sum) == Value(was) + u && Words(sum) && Canonical(sum)
            && |sum| == (if SumCarry(was, u, |was|) == 0 then |was| else |was| + 1)
            && (|sum| > |was| ==> sum[|was|] == SumCarry(was, u, |was|))
  {
    AddCarryIs(was, u);
    AddKeeps(was, u);
    AddCarryAt(was, u, |was|);
  }

  /** A limb after multiplying it and adding the carry. */
  lemma {:induction false} MultipliesLimb(was: seq<nat>, u: nat, i: nat, k: nat, lo: nat, hi: nat)
    requires i < |was| && ProductCarry(was, u, 0, i) == k && was[i] * u + k == lo + BASE * hi && lo < BASE
    ensures i < |MulCarry(was, u, 0)| && MulCarry(was, u, 0)[i] == lo && ProductCarry(was, u, 0, i + 1) == hi
  {
    DivisionIs(was[i] * u + k, hi, lo);
    MulCarryAt(was, u, 0, i);
  }

  lemma {:induction false} MultipliesLast(was: seq<nat>, u: nat)
    requires Words(was) && 0 < u < BASE && Canonical(was)
    ensures var product := MulCarry(was, u, 0);
            && Value(product) == Value(was) * u && Words(product) && Canonical(product)
            && |product| == (if ProductCarry(was, u, 0, |was|) == 0 then |was| else |was| + 1)
            && (|product| > |was| ==> product[|was|] == ProductCarry(was, u, 0, |was|))
            && ProductCarry(was, u, 0, 0) == 0
  {
    MulCarryIs(was, u, 0);
    MulKeeps(was, u, 0);
    MulCarryAt(was, u, 0, |was|);
  }

  lemma {:induction false} FactorFits(n: nat, p: nat, rest: nat, power: nat, bound: nat)
    requires power == p * rest && rest > 0 && n * power < bound
    ensures n * p < bound && (n * p) * rest == n * power
  {
    assert n * (p * rest) == n * p * rest;
    Product(n * p, n * p, 1, rest);
  }

  class BigInteger {
    const digits: array<nat>
    var count: nat

    /** What the limbs are. */
    function Digits(): seq<nat>
      reads this, digits
      requires count <= digits.Length
    {
      digits[..count]
    }

    /** Words without a leading zero. */
    ghost predicate Valid()
      reads this, digits
    {
      digits.Length == CAPACITY && 1 <= count <= CAPACITY && Words(Digits()) && Canonical(Digits())
    }

    ghost function Number(): nat
      reads this, digits
      requires count <= digits.Length
    {
      Value(Digits())
    }

    constructor (u: nat)
      requires u < BASE
      ensures Valid() && fresh(digits) && Number() == u && count == 1
    {
      digits := new nat[CAPACITY];
      count := 1;
      new;
      digits[0] := u;
      assert Digits() == [u];
      assert Value([u][1..]) == 0;
    }

    constructor Copy(rhs: BigInteger)
      requires rhs.Valid()
      ensures Valid() && fresh(digits) && Digits() == rhs.Digits()
    {
      digits := new nat[CAPACITY];
      count := rhs.count;
      new;
      var i := 0;
      while i < count
        invariant i <= count == rhs.count && digits[..i] == rhs.digits[..i] && rhs.Digits() == old(rhs.Digits())
      {
        digits[i] := rhs.digits[i];
        i := i + 1;
      }
    }

    method Assign(u: nat)
      requires Valid() && u < BASE
      modifies `count, digits
      ensures Valid() && Number() == u && count == 1
    {
      digits[0] := u;
      count := 1;
      assert Digits() == [u];
      assert Value([u][1..]) == 0;
    }

    predicate IsZero()
      reads this, digits
      requires Valid()
    {
      count == 1 && digits[0] == 0
    }

    lemma {:induction false} ZeroIs()
      requires Valid()
      ensures IsZero() <==> Number() == 0
      ensures count == 1 ==> Number() == digits[0]
    {
      var s := Digits();
      assert Number() == Value(s);
      if count == 1 {
        assert s[1..] == [] && Value(s) == s[0] + BASE * Value(s[1..]);
      } else {
        ValueAtLeast(s);
        PowPositive(BASE, |s| - 1);
      }
    }

    method PushBack(digit: nat)
      requires digits.Length == CAPACITY && 1 <= count < CAPACITY
      modifies `count, digits
      ensures count == old(count) + 1 && Digits() == old(Digits()) + [digit]
    {
      digits[count] := digit;
      count := count + 1;
    }

    /** Adds a word to the limbs in place, up to the first limb that does not wrap; tells whether the last one did. */
    method AddLimbs(u: nat, ghost was: seq<nat>, ghost sum: seq<nat>) returns (carry: bool)
      requires 1 <= count <= digits.Length && was == digits[..count] && Words(was) && u < BASE
      requires sum == AddCarry(was, u) && |was| <= |sum|
      modifies digits
      ensures forall j | 0 <= j < count :: digits[j] == sum[j]
      ensures SumCarry(was, u, |was|) == if carry then 1 else 0
    {
      var backup := digits[0];
      var d := SumOfWords(backup, u);
      AddsLimb(was, u, 0, u, d);
      digits[0] := d;
      var i := 0;
      while i < count - 1 && digits[i] < backup
        invariant i < count == |was|
        invariant SumCarry(was, u, i + 1) == if digits[i] < backup then 1 else 0
        invariant forall j | 0 <= j <= i :: digits[j] == sum[j]
        invariant forall j | i < j < count :: digits[j] == was[j]
      {
        backup := digits[i + 1];
        d := SumOfWords(backup, 1);
        AddsLimb(was, u, i + 1, 1, d);
        digits[i + 1] := d;
        i := i + 1;
      }
      carry := digits[i] < backup;
      if !carry { AddsNoMore(was, u, i + 1); }
    }

    method AddInPlace(u: nat) returns (carry: bool, ghost sum: seq<nat>)
      requires Valid() && u < BASE
      modifies digits
      ensures Value(sum) == old(Number()) + u && Words(sum) && Canonical(sum)
      ensures |sum| == (if carry then count + 1 else count) && Digits() == sum[..count] && (carry ==> sum[count] == 1)
    {
      hide Value, AddCarry, SumCarry, Pow, Canonical;
      ghost var was := Digits();
      sum := AddCarry(was, u);
      AddsLast(was, u);
      carry := AddLimbs(u, was, sum);
    }

    /** Adds a word. */
    method Add(u: nat)
      requires Valid() && u < BASE && Number() + u < Pow(BASE, digits.Length)
      modifies `count, digits
      ensures Valid() && Number() == old(Number()) + u
    {
      hide Value, Pow;
      var carry, sum := AddInPlace(u);
      if carry {
        RoomLeft(sum, count, digits.Length);
        PushBack(1);
      }
      assert Digits() == sum;
    }

    /** Multiplies the limbs in place and hands the carry on; what is left of it is the limb to append. */
    method MulLimbs(u: nat, half: bool) returns (k: nat, ghost product: seq<nat>)
      requires Valid() && 0 < u < (if half then HALF else BASE)
      modifies digits
      ensures Value(product) == old(Number()) * u && Words(product) && Canonical(product)
      ensures |product| == (if k > 0 then count + 1 else count) && Digits() == product[..count] && (k > 0 ==> product[count] == k)
    {
      hide Value, MulCarry, ProductCarry, Canonical;
      ghost var was, n := Digits(), count;
      product := MulCarry(was, u, 0);
      MultipliesLast(was, u);
      k := 0;
      var i := 0;
      while i < count
        invariant i <= count == n == |was| <= |product|
        invariant ProductCarry(was, u, 0, i) == k < (if half then HALF else BASE)
        invariant forall j | 0 <= j < i :: digits[j] == product[j]
        invariant forall j | i <= j < n :: digits[j] == was[j]
      {
        var lo, hi;
        if half {
          lo, hi := MulAdd32(digits[i], u, k);
        } else {
          lo, hi := MulAdd64(digits[i], u, k);
        }
        MultipliesLimb(was, u, i, k, lo, hi);
        digits[i] := lo;
        k := hi;
        i := i + 1;
      }
    }

    method MulGeneral(u: nat, half: bool)
      requires Valid() && 0 < u < (if half then HALF else BASE) && Number() * u < Pow(BASE, digits.Length)
      modifies `count, digits
      ensures Valid() && Number() == old(Number()) * u
    {
      hide Value, Pow;
      var k, product := MulLimbs(u, half);
      if k > 0 {
        RoomLeft(product, count, digits.Length);
        PushBack(k);
      }
      assert Digits() == product;
    }

    predicate IsOne()
      reads this, digits
      requires Valid()
    {
      count == 1 && digits[0] == 1
    }

    lemma {:induction false} OneIs()
      requires Valid() && IsOne()
      ensures Number() == 1
    {
      assert Digits() == [1] && [1][1..] == [];
    }

    /** Multiplies by a word, or by half a word: the two overloads differ only in how a limb is multiplied. */
    method Mul(u: nat, half: bool)
      requires Valid() && u < (if half then HALF else BASE) && Number() * u < Pow(BASE, digits.Length)
      modifies `count, digits
      ensures Valid() && Number() == old(Number()) * u
    {
      hide Valid, Number, Value, Pow, IsOne, Digits;
      ZeroIs();
      if u == 0 {
        Assign(0);
      } else if u == 1 {
      } else if IsOne() {
        OneIs();
        Assign(u);
      } else {
        MulGeneral(u, half);
      }
    }

    // ---- shifts ----

    /** Moves the limbs up by whole limbs; the limbs assigned are `touched`. */
    method MoveUp(offset: nat, ghost was: seq<nat>) returns (ghost touched: set<nat>)
      requires 1 <= count && count + offset <= digits.Length && was == digits[..count]
      modifies digits
      ensures digits[offset..offset + count] == was
      ensures forall j: nat :: j in touched <==> offset <= j < count + offset
    {
      var i := count;
      touched := {};
      while i > 0
        invariant 0 <= i <= count == |was|
        invariant forall j: nat :: j in touched <==> i + offset <= j < count + offset
        invariant forall j | i + offset <= j < count + offset :: digits[j] == was[j - offset]
        invariant forall j | 0 <= j < i :: digits[j] == was[j]
      {
        i := i - 1;
        digits[i + offset] := digits[i];
        touched := touched + {i + offset};
      }
    }

    /** Moves the limbs up by whole limbs and bits, from the top down, so that no limb is overwritten before it is read. */
    method MoveUpBits(offset: nat, inter: nat, ghost was: seq<nat>, ghost shifted: seq<nat>) returns (ghost touched: set<nat>)
      requires 1 <= count && count + offset < digits.Length && was == digits[..count] && Words(was) && 0 < inter < 64
      requires shifted == ShiftedLimbs(was, inter) && |shifted| == |was| + 1
      modifies digits
      ensures digits[offset..offset + count + 1] == shifted
      ensures forall j: nat :: j in touched <==> j == count || offset <= j <= count + offset
    {
      digits[count] := 0;
      touched := {count};
      var i := count;
      while i > 0
        invariant 0 <= i <= count == |was|
        invariant forall j: nat :: j in touched <==> j == count || i + offset < j <= count + offset
        invariant forall j | i + offset < j <= count + offset :: digits[j] == shifted[j - offset]
        invariant forall j | 0 <= j <= i :: digits[j] == if j < count then was[j] else 0
      {
        var d := ShiftWords(digits[i], digits[i - 1], inter, was, shifted, i);
        digits[i + offset] := d;
        touched := touched + {i + offset};
        i := i - 1;
      }
      var d := ShiftWords(digits[0], 0, inter, was, shifted, 0);
      digits[offset] := d;
      touched := touched + {offset};
    }

    /** The lower bits of one limb and the upper bits of the limb below; they do not overlap. */
    method ShiftWords(high: nat, low: nat, inter: nat, ghost was: seq<nat>, ghost shifted: seq<nat>, ghost i: nat) returns (d: nat)
      requires i <= |was| && high == (if i < |was| then was[i] else 0) && low == (if i == 0 then 0 else was[i - 1])
      requires Words(was) && 0 < inter < 64 && shifted == ShiftedLimbs(was, inter) && |shifted| == |was| + 1
      ensures d == shifted[i]
    {
      hide Pow, MulCarry;
      ghost var n := 64;
      SplitBase(inter, n);
      ShiftedLimb(was, Pow(2, inter), Pow(2, n - inter), i);
      d := high * Pow(2, inter) % BASE + low / Pow(2, 64 - inter);
    }

    method Clear(n: nat) returns (ghost touched: set<nat>)
      requires n <= digits.Length
      modifies digits
      ensures forall j: nat :: j in touched <==> j < n
      ensures forall j | 0 <= j < n :: digits[j] == 0
      ensures forall j | n <= j < digits.Length :: digits[j] == old(digits[j])
    {
      var i := 0;
      touched := {};
      while i < n
        invariant i <= n
        invariant forall j: nat :: j in touched <==> j < i
        invariant forall j | 0 <= j < i :: digits[j] == 0
        invariant forall j | i <= j < digits.Length :: digits[j] == old(digits[j])
      {
        digits[i] := 0;
        touched := touched + {i};
        i := i + 1;
      }
    }

    method ShiftByLimbs(offset: nat) returns (ghost touched: set<nat>)
      requires Valid() && Number() != 0 && count + offset <= digits.Length
      modifies `count, digits
      ensures Valid() && Number() == Pow(BASE, offset) * old(Number())
      ensures forall j: nat :: j in touched <==> j < old(count) + offset
    {
      ZeroIs();
      ghost var was := Digits();
      touched := MoveUp(offset, was);
      count := count + offset;
      ghost var cleared := Clear(offset);
      touched := touched + cleared;
      assert digits[offset..count] == was;
      assert Digits() == Zeros(offset) + was;
      ZerosBefore(offset, was);
    }

    /** The shifted limbs in their place, above limbs that have yet to be cleared. */
    method PlaceBits(offset: nat, inter: nat) returns (ghost product: seq<nat>, ghost touched: set<nat>)
      requires Valid() && Number() != 0 && count + offset < digits.Length && 0 < inter < 64
      modifies `count, digits
      ensures Value(product) == old(Number()) * Pow(2, inter) && Words(product) && product != [] && product[|product| - 1] != 0
      ensures count == offset + |product| <= digits.Length && digits[offset..count] == product
      ensures forall j: nat :: j in touched <==> j == old(count) || offset <= j <= old(count) + offset
    {
      hide Value, Pow, ShiftedLimbs;
      ZeroIs();
      ghost var was, shifted := Digits(), [];
      product, shifted := Shifted(was, inter);
      touched := MoveUpBits(offset, inter, was, shifted);
      ghost var above := digits[offset..offset + count + 1];
      assert digits[offset + count] == above[count];
      count := count + offset;
      if digits[count] != 0 {
        count := count + 1;
      } else {
        assert digits[offset..count] == above[..|was|];
      }
    }

    method ShiftByBits(offset: nat, inter: nat) returns (ghost touched: set<nat>)
      requires Valid() && Number() != 0 && count + offset < digits.Length && 0 < inter < 64
      modifies `count, digits
      ensures Valid() && Number() == Pow(BASE, offset) * (old(Number()) * Pow(2, inter))
      ensures forall j: nat :: j in touched <==> j <= old(count) + offset
    {
      ghost var product, moved := PlaceBits(offset, inter);
      ghost var cleared := Clear(offset);
      touched := moved + cleared;
      assert digits[offset..count] == product;
      assert Digits() == Zeros(offset) + product;
      ZerosBefore(offset, product);
    }

    /**
     Shifts left.  The limb above the shifted number is written even if it stays zero, so one more limb than the
     code's own check asks for must be free unless the shift is by whole limbs.
     */
    method ShiftLeft(shift: nat) returns (ghost touched: set<nat>)
      requires Valid()
      requires Number() != 0 && shift > 0 ==> count + shift / 64 + (if shift % 64 == 0 then 0 else 1) <= digits.Length
      modifies `count, digits
      ensures Valid() && Number() == old(Number()) * Pow(2, shift)
      ensures forall j: nat :: j in touched <==> old(Number()) != 0 && shift > 0 && Touches(old(count), shift, j)
    {
      touched := {};
      ZeroIs();
      if IsZero() || shift == 0 { return; }
      var offset, inter := shift / 64, shift % 64;
      ShiftSplits(Number(), offset, inter);
      if inter == 0 {
        assert Number() * Pow(2, 0) == Number();
        touched := ShiftByLimbs(offset);
      } else {
        touched := ShiftByBits(offset, inter);
      }
    }

    // ---- powers of five, and decimals ----

    /** Multiplies by one factor of the power that is left. */
    method MulFactor(p: nat, half: bool, ghost power: nat, ghost rest: nat)
      requires Valid() && power == p * rest && rest > 0 && Number() * power < Pow(BASE, digits.Length)
      requires p < if half then HALF else BASE
      modifies `count, digits
      ensures Valid() && Number() * rest == old(Number()) * power
    {
      hide Number, Value, Digits, Words, Canonical, Pow;
      FactorFits(Number(), p, rest, power, Pow(BASE, digits.Length));
      Mul(p, half);
    }

    /** Multiplies by a power of five: in steps of 5^27 and 5^13 while they fit, and a last one from a table. */
    method MultiplyPow5(exp: nat)
      requires Valid() && Number() * Pow(5, exp) < Pow(BASE, digits.Length)
      modifies `count, digits
      ensures Valid() && Number() == old(Number()) * Pow(5, exp)
    {
      hide Number, Value, Digits, Pow, Canonical, Words;
      ghost var target := Number() * Pow(5, exp);
      var e := exp;
      while e >= 27
        invariant Valid() && 0 <= e && Number() * Pow(5, e) == target
      {
        Factor27(e);
        MulFactor(POW5_27, false, Pow(5, e), Pow(5, e - 27));
        e := e - 27;
      }
      while e >= 13
        invariant Valid() && 0 <= e < 27 && Number() * Pow(5, e) == target
      {
        Factor13(e);
        MulFactor(POW5_13, true, Pow(5, e), Pow(5, e - 13));
        e := e - 13;
      }
      if e > 0 {
        TableIs(e);
        MulFactor(POW5[e - 1], true, Pow(5, e), 1);
      } else {
        PowNone(5);
      }
    }

    /** Appends at most nineteen decimal digits. */
    method AppendDecimal64(decimals: string)
      requires Valid() && AllDigits(decimals) && 0 < |decimals| <= 19
      requires (Number() + 1) * Pow(10, |decimals|) <= Pow(BASE, digits.Length - 1)
      modifies `count, digits
      ensures Valid() && Number() == old(Number()) * Pow(10, |decimals|) + ValueFrom(decimals, 0)
    {
      var u := ParseUint64(decimals);
      ZeroIs();
      if IsZero() {
        Assign(u);
      } else {
        var exp := |decimals|;
        AppendFits(Number(), exp, u, digits.Length);
        MultiplyPow5(exp);
        CountBound(Digits(), digits.Length - 1);
        ghost var _ := ShiftLeft(exp);
        Add(u);
      }
    }

    /** The number that a string of digits writes, nineteen digits at a time. */
    constructor FromDecimals(decimals: string)
      requires AllDigits(decimals) && 0 < |decimals| <= 16 * (CAPACITY - 1)
      ensures Valid() && fresh(digits) && Number() == ValueFrom(decimals, 0)
    {
      hide Pow;
      digits := new nat[CAPACITY];
      count := 1;
      new;
      digits[0] := 0;
      assert Digits() == [0] && [0][1..] == [];
      var i := 0;
      var length := |decimals|;
      while length >= 19
        invariant 0 <= i && 0 <= length && i + length == |decimals| && Valid() && fresh(digits)
        invariant Number() == ValueFrom(decimals[..i], 0)
      {
        AppendedValue(decimals, i, 19, digits.Length);
        AppendDecimal64(decimals[i..i + 19]);
        length := length - 19;
        i := i + 19;
      }
      if length > 0 {
        AppendedValue(decimals, i, length, digits.Length);
        AppendDecimal64(decimals[i..i + length]);
      }
      assert decimals[..i + length] == decimals;
    }

    // ---- comparison and difference ----

    /** Less, equal or greater: by the number of limbs, then by the first limb from the top that differs. */
    method Compare(rhs: BigInteger) returns (r: int)
      requires Valid() && rhs.Valid()
      ensures r == if Number() < rhs.Number() then -1 else if Number() == rhs.Number() then 0 else 1
    {
      ghost var s, t := Digits(), rhs.Digits();
      if count != rhs.count {
        if count < rhs.count {
          LongerIsGreater(s, t);
        } else {
          LongerIsGreater(t, s);
        }
        return if count < rhs.count then -1 else 1;
      }
      var i := count;
      while i > 0
        invariant 0 <= i <= count && s[i..] == t[i..]
      {
        i := i - 1;
        if digits[i] != rhs.digits[i] {
          if digits[i] < rhs.digits[i] {
            TopDecides(s, t, i);
          } else {
            TopDecides(t, s, i);
          }
          return if digits[i] < rhs.digits[i] then -1 else 1;
        }
        assert s[i..] == [s[i]] + s[i + 1..] && t[i..] == [t[i]] + t[i + 1..];
      }
      assert s[0..] == s && t[0..] == t;
      return 0;
    }

    /** Subtracts the limbs of `b`, which is smaller, from those of this number into `out`. */
    method SubtractInto(b: BigInteger, out: BigInteger, ghost d: seq<nat>)
      requires Valid() && b.Valid() && b.count <= count && out.digits.Length == CAPACITY
      requires out != this && out != b && out.digits != digits && out.digits != b.digits
      requires d == SubBorrow(Digits(), Padded(b.Digits(), count), 0)
      requires Words(Padded(b.Digits(), count)) && |d| == count && Words(d) && Value(d) > 0
      modifies out`count, out.digits
      ensures out.Valid() && out.Number() == Value(d)
    {
      hide Value, SubBorrow, Pow;
      ghost var x, y := Digits(), Padded(b.Digits(), count);
      var borrow := 0;
      ghost var top := 0;
      var i := 0;
      while i < count
        invariant i <= count && borrow <= 1 && borrow == BorrowAfter(x, y, 0, i)
        invariant forall j | 0 <= j < i :: out.digits[j] == d[j]
        invariant top <= i && (top > 0 ==> out.count == top && d[top - 1] != 0)
        invariant forall j | top <= j < i :: d[j] == 0
      {
        var w := MinusWord(digits[i], borrow);
        if i < b.count { w := MinusWord(w, b.digits[i]); }
        SubBorrowSplits(x, y, 0, i);
        borrow := if w > digits[i] then 1 else 0;
        out.digits[i] := w;
        if w != 0 {
          out.count := i + 1;
          top := i + 1;
        }
        i := i + 1;
      }
      TopZeros(d, top);
      assert out.digits[..out.count] == d[..top];
    }

    /** The absolute difference and what the lost borrows add, and whether this number is the smaller one. */
    method Difference(rhs: BigInteger, out: BigInteger) returns (smaller: bool)
      requires Valid() && rhs.Valid() && Number() != rhs.Number() && out.digits.Length == CAPACITY
      requires out != this && out != rhs && out.digits != digits && out.digits != rhs.digits
      modifies out`count, out.digits
      ensures smaller == (Number() < rhs.Number()) && out.Valid()
      ensures out.Number() == Distance(Number(), rhs.Number()) + Surplus(Number(), rhs.Number())
    {
      var cmp := Compare(rhs);
      smaller := cmp < 0;
      if smaller {
        ghost var d := DifferenceLimbs(rhs.Digits(), Digits());
        rhs.SubtractInto(this, out, d);
      } else {
        ghost var d := DifferenceLimbs(Digits(), rhs.Digits());
        SubtractInto(rhs, out, d);
      }
    }
  }

  /** What the lost borrows add to the distance of two numbers. */
  function Surplus(m: nat, n: nat): nat {
    if m < n then LostBorrows(n, m, 0) else LostBorrows(m, n, 0)
  }

  /** The difference is exact if and only if no limb of all ones of the smaller number meets a borrow. */
  lemma {:induction false} SurplusIff(m: nat, n: nat)
    requires m > n
    ensures Surplus(m, n) == 0 <==> KeepsBorrows(m, n)
    ensures Surplus(n, m) == Surplus(m, n)
  {
    NoneLostIff(m, n);
  }

  /** A shift of a number of `count` limbs assigns limb `j`. */
  predicate Touches(count: nat, shift: nat, j: nat) {
    j < count + shift / 64 + (if shift % 64 == 0 then 0 else 1)
  }

  /** Where the check of the code passes, all limbs assigned exist if and only if the shift is by whole limbs or one more is free. */
  lemma {:induction false} ShiftInsideIff(count: nat, shift: nat, capacity: nat)
    requires count + shift / 64 <= capacity
    ensures (forall j: nat :: Touches(count, shift, j) ==> j < capacity) <==> shift % 64 == 0 || count + shift / 64 < capacity
  {
    if shift % 64 != 0 && count + shift / 64 == capacity { assert Touches(count, shift, capacity); }
  }

  lemma {:induction false} DifferenceLimbs(a: seq<nat>, b: seq<nat>) returns (d: seq<nat>)
    requires Words(a) && Words(b) && Canonical(a) && Canonical(b) && Value(a) > Value(b)
    ensures |b| <= |a| && Words(Padded(b, |a|)) && d == SubBorrow(a, Padded(b, |a|), 0)
    ensures Words(d) && |d| == |a| && Value(d) == Value(a) - Value(b) + LostBorrows(Value(a), Value(b), 0)
  {
    if |b| > |a| { LongerIsGreater(a, b); }
    var y := Padded(b, |a|);
    PaddedIs(b, |a|);
    d := SubBorrow(a, y, 0);
    DifferenceIs(a, y);
    LostIs(a, y, 0);
  }

  lemma {:induction false} TopZeros(d: seq<nat>, top: nat)
    requires top <= |d| && Words(d) && Value(d) > 0 && (top > 0 ==> d[top - 1] != 0)
    requires forall j | top <= j < |d| :: d[j] == 0
    ensures top > 0 && Value(d[..top]) == Value(d) && Canonical(d[..top]) && Words(d[..top])
  {
    assert top == 0 ==> d[..top] == [];
    assert d == d[..top] + Zeros(|d| - top);
    ValueJoin(d[..top], Zeros(|d| - top));
    ValueZero(|d| - top);
  }

  // ---- constants ----

  const POW5_27 := 0x6765C793FA10079D
  const POW5_13 := 1220703125
  const POW5: seq<nat> := [5, 25, 125, 625, 3125, 15625, 78125, 390625, 1953125, 9765625, 48828125, 244140625]

  lemma {:induction false} TableIs(e: nat)
    requires 1 <= e <= 12
    ensures POW5[e - 1] == Pow(5, e) && 0 < POW5[e - 1] < HALF
  {
    assert Pow(5, 12) == 244140625 && Pow(5, 11) == 48828125 && Pow(5, 10) == 9765625 && Pow(5, 9) == 1953125;
    assert Pow(5, 8) == 390625 && Pow(5, 7) == 78125 && Pow(5, 6) == 15625 && Pow(5, 5) == 3125;
    assert Pow(5, 4) == 625 && Pow(5, 3) == 125 && Pow(5, 2) == 25 && Pow(5, 1) == 5;
  }

  lemma {:induction false} Factor13(e: nat)
    requires e >= 13
    ensures Pow(5, e) == POW5_13 * Pow(5, e - 13) && Pow(5, e - 13) > 0
  {
    assert Pow(5, 13) == POW5_13;
    PowAdd(5, 13, e - 13);
    PowPositive(5, e - 13);
  }

  lemma {:induction false} Factor27(e: nat)
    requires e >= 27
    ensures Pow(5, e) == POW5_27 * Pow(5, e - 27) && Pow(5, e - 27) > 0
  {
    assert Pow(5, 13) == POW5_13 && Pow(5, 14) == 6103515625;
    PowAdd(5, 13, 14);
    PowAdd(5, 27, e - 27);
    PowPositive(5, e - 27);
  }

  lemma {:induction false} ValueBound(s: string)
    requires AllDigits(s)
    ensures ValueFrom(s, 0) < Pow(10, |s|)
  {
    ValueShift(s, 0);
    DigitsBelow(s, 0);
  }

  lemma {:induction false} DigitsBelow(s: string, r: nat)
    requires AllDigits(s)
    ensures ValueFrom(s, r) < (r + 1) * Pow(10, |s|)
  {
    if s != "" {
      var d, p := s[0] as int - '0' as int, Pow(10, |s| - 1);
      DigitsBelow(s[1..], 10 * r + d);
      assert (10 * r + d + 1) * p <= (10 * r + 10) * p by { Product(10 * r + d + 1, 10 * r + 10, p, p); }
      assert (10 * r + 10) * p == (r + 1) * (10 * p);
    }
  }

  lemma {:induction false} ValueShift(s: string, r: nat)
    requires AllDigits(s)
    ensures ValueFrom(s, r) == r * Pow(10, |s|) + ValueFrom(s, 0)
  {
    if s != "" {
      var d, p := s[0] as int - '0' as int, Pow(10, |s| - 1);
      ValueShift(s[1..], 10 * r + d);
      ValueShift(s[1..], d);
      assert (10 * r + d) * p == r * (10 * p) + d * p;
    }
  }

  lemma {:induction false} ValueConcat(s: string, t: string, r: nat)
    requires AllDigits(s) && AllDigits(t)
    ensures AllDigits(s + t) && ValueFrom(s + t, r) == ValueFrom(t, ValueFrom(s, r))
  {
    if s == "" {
      assert s + t == t;
    } else {
      assert (s + t)[1..] == s[1..] + t;
      ValueConcat(s[1..], t, 10 * r + (s[0] as int - '0' as int));
    }
  }

  lemma {:induction false} NoWrap(r: nat, d: nat)
    requires 10 * r + d < BASE
    ensures (r * 10 % BASE + d) % BASE == 10 * r + d
  {
    DivisionIs(r * 10, 0, r * 10);
    DivisionIs(r * 10 + d, 0, r * 10 + d);
  }

  /** Nineteen digits fit into a word. */
  method ParseUint64(decimals: string) returns (r: nat)
    requires AllDigits(decimals) && |decimals| <= 19
    ensures r == ValueFrom(decimals, 0) && r < Pow(10, |decimals|) && r < BASE
  {
    r := 0;
    var i := 0;
    ValueBound(decimals);
    NineteenDigits(|decimals|);
    while i < |decimals|
      invariant i <= |decimals| && ValueFrom(decimals[i..], r) == ValueFrom(decimals, 0)
    {
      assert decimals[i..][1..] == decimals[i + 1..];
      ghost var more := 10 * r + (decimals[i] as int - '0' as int);
      ValueGrows(decimals[i + 1..], more);
      NoWrap(r, decimals[i] as int - '0' as int);
      r := (r * 10 % BASE + (decimals[i] as int - '0' as int)) % BASE;
      i := i + 1;
    }
    assert decimals[|decimals|..] == "";
  }

  lemma {:induction false} NineteenDigits(n: nat)
    requires n <= 19
    ensures Pow(10, n) <= 10000000000000000000 < BASE
  {
    PowGrows(10, 10, n, 19);
    PowAdd(10, 9, 10);
    assert Pow(10, 9) == 1000000000 && Pow(10, 10) == 10000000000;
  }

  /** Multiplying by a power of ten and adding the digits: no intermediate number needs more room than the result. */
  lemma {:induction false} AppendFits(n: nat, exp: nat, u: nat, room: nat)
    requires room >= 1 && u < Pow(10, exp) && (n + 1) * Pow(10, exp) <= Pow(BASE, room - 1)
    ensures n * Pow(5, exp) < Pow(BASE, room - 1) <= Pow(BASE, room)
    ensures n * Pow(5, exp) * Pow(2, exp) == n * Pow(10, exp) && n * Pow(10, exp) + u < Pow(BASE, room)
  {
    var p, q := Pow(5, exp), Pow(2, exp);
    PowProduct(5, 2, exp);
    PowPositive(2, exp);
    PowPositive(10, exp);
    assert n * (p * q) == n * p * q;
    Product(n * p, n * p, 1, q);
    assert (n + 1) * Pow(10, exp) == n * Pow(10, exp) + Pow(10, exp);
    PowGrows(BASE, BASE, room - 1, room);
  }

  /** Sixteen decimal digits to a limb always fit. */
  lemma {:induction false} DecimalsFit(n: nat, limbs: nat)
    requires n <= 16 * limbs
    ensures Pow(10, n) <= Pow(BASE, limbs)
  {
    var k, bits := 4, 64;
    BaseBits(bits);
    PowGrows(10, 16, n, n);
    assert Pow(2, 4) == 16;
    PowOfPow(2, k, n);
    PowOfPow(2, bits, limbs);
    PowGrows(2, 2, k * n, bits * limbs);
  }

  lemma {:induction false} AppendedValue(decimals: string, i: nat, n: nat, room: nat)
    requires AllDigits(decimals) && i + n <= |decimals| <= 16 * (room - 1) && room >= 1
    ensures var v := ValueFrom(decimals[..i], 0);
            && (v + 1) * Pow(10, n) <= Pow(BASE, room - 1)
            && ValueFrom(decimals[..i + n], 0) == v * Pow(10, n) + ValueFrom(decimals[i..i + n], 0)
  {
    var s, t := decimals[..i], decimals[i..i + n];
    assert s + t == decimals[..i + n];
    ValueConcat(s, t, 0);
    ValueShift(t, ValueFrom(s, 0));
    ValueBound(s);
    PowAdd(10, i, n);
    Product(ValueFrom(s, 0) + 1, Pow(10, i), Pow(10, n), Pow(10, n));
    DecimalsFit(i + n, room - 1);
  }

  /** The limbs after a shift by bits: the product with a power of two, and a zero above it if it has not grown. */
  ghost function ShiftedLimbs(was: seq<nat>, inter: nat): seq<nat> {
    var product := MulCarry(was, Pow(2, inter), 0);
    if |product| == |was| then product + [0] else product
  }

  lemma {:induction false} Shifted(was: seq<nat>, inter: nat) returns (product: seq<nat>, shifted: seq<nat>)
    requires Words(was) && was != [] && was[|was| - 1] != 0 && 0 < inter < 64
    ensures Value(product) == Value(was) * Pow(2, inter) && Words(product) && product != [] && product[|product| - 1] != 0
    ensures shifted == ShiftedLimbs(was, inter) && |shifted| == |was| + 1
    ensures product == if shifted[|was|] == 0 then shifted[..|was|] else shifted
  {
    hide Value, Pow, MulCarry;
    var m, n := Pow(2, inter), 64;
    SplitBase(inter, n);
    product := MulCarry(was, m, 0);
    MulCarryIs(was, m, 0);
    MulKeeps(was, m, 0);
    ShiftedLimb(was, m, Pow(2, n - inter), 0);
    shifted := ShiftedLimbs(was, inter);
  }
}
