/**
 Numbers in base 2^64, least significant limb first: what the carry loops compute, and what it means.
 */
module Limbs {
  const HALF := 0x1_0000_0000
  const BASE := 0x1_0000_0000_0000_0000

  function Pow(b: nat, n: nat): nat {
    if n == 0 then 1 else b * Pow(b, n - 1)
  }

  lemma {:induction false} PowNone(b: nat)
    ensures Pow(b, 0) == 1
  {
  }

  lemma {:induction false} PowAdd(b: nat, m: nat, n: nat)
    ensures Pow(b, m + n) == Pow(b, m) * Pow(b, n)
  {
    if m > 0 {
      PowAdd(b, m - 1, n);
      assert Pow(b, m + n) == b * (Pow(b, m - 1) * Pow(b, n)) == (b * Pow(b, m - 1)) * Pow(b, n);
    }
  }

  lemma {:induction false} PowPositive(b: nat, n: nat)
    requires b > 0
    ensures Pow(b, n) > 0
  {
    if n > 0 { PowPositive(b, n - 1); }
  }

  lemma {:induction false} PowOfPow(b: nat, m: nat, n: nat)
    ensures Pow(Pow(b, m), n) == Pow(b, m * n)
  {
    if n > 0 {
      PowOfPow(b, m, n - 1);
      assert m * n == m + m * (n - 1);
      PowAdd(b, m, m * (n - 1));
    } else {
      assert m * n == 0;
    }
  }

  lemma {:induction false} PowProduct(a: nat, b: nat, n: nat)
    ensures Pow(a * b, n) == Pow(a, n) * Pow(b, n)
  {
    if n > 0 {
      var x, y := Pow(a, n - 1), Pow(b, n - 1);
      PowProduct(a, b, n - 1);
      assert a * b * (x * y) == (a * x) * (b * y) by { Swap(a, b, x, y); }
    }
  }

  lemma {:induction false} Swap(a: nat, b: nat, x: nat, y: nat)
    ensures (a * b) * (x * y) == (a * x) * (b * y)
  {
    assert (a * b) * (x * y) == a * (b * (x * y));
    assert b * (x * y) == x * (b * y);
  }

  lemma {:induction false} PowGrows(a: nat, b: nat, m: nat, n: nat)
    requires 1 <= a <= b && m <= n
    ensures Pow(a, m) <= Pow(b, n)
  {
    if m > 0 {
      PowGrows(a, b, m - 1, n - 1);
      assert a * Pow(a, m - 1) <= b * Pow(b, n - 1) by { Product(a, b, Pow(a, m - 1), Pow(b, n - 1)); }
    } else {
      PowPositive(b, n);
    }
  }

  lemma {:induction false} Product(a: nat, b: nat, x: nat, y: nat)
    requires a <= b && x <= y
    ensures a * x <= b * y
  {
    assert a * x <= b * x && b * x <= b * y;
  }

  lemma {:induction false} BaseIs()
    ensures Pow(2, 64) == BASE && Pow(2, 32) == HALF
  {
    PowAdd(2, 8, 8);
    PowAdd(2, 16, 16);
    PowAdd(2, 32, 32);
    assert Pow(2, 8) == 256;
  }

  lemma {:induction false} BaseBits(n: nat)
    requires n == 64
    ensures Pow(2, n) == BASE
  {
    BaseIs();
  }

  // ---- numbers ----

  predicate Words(s: seq<nat>) {
    forall i | 0 <= i < |s| :: s[i] < BASE
  }

  function Value(s: seq<nat>): nat {
    if s == [] then 0 else s[0] + BASE * Value(s[1..])
  }

  /** No leading zero limb. */
  predicate Canonical(s: seq<nat>) {
    |s| >= 1 && (|s| == 1 || s[|s| - 1] != 0)
  }

  lemma {:induction false} ValueJoin(s: seq<nat>, t: seq<nat>)
    ensures Value(s + t) == Value(s) + Pow(BASE, |s|) * Value(t)
  {
    if s == [] {
      assert s + t == t;
    } else {
      var p, v := Pow(BASE, |s| - 1), Value(t);
      assert (s + t)[1..] == s[1..] + t;
      ValueJoin(s[1..], t);
      assert BASE * (p * v) == BASE * p * v;
    }
  }

  lemma {:induction false} ValueBelow(s: seq<nat>)
    requires Words(s)
    ensures Value(s) < Pow(BASE, |s|)
  {
    if s != [] { ValueBelow(s[1..]); }
  }

  lemma {:induction false} ValueAtLeast(s: seq<nat>)
    requires s != [] && s[|s| - 1] != 0
    ensures Value(s) >= Pow(BASE, |s| - 1)
  {
    if |s| > 1 { ValueAtLeast(s[1..]); }
  }

  lemma {:induction false} ValueZero(n: nat)
    ensures Value(seq(n, _ => 0)) == 0
  {
    if n > 0 {
      assert seq(n, _ => 0)[1..] == seq(n - 1, _ => 0);
      ValueZero(n - 1);
    }
  }

  /** A canonical number has as many limbs as its value needs. */
  lemma {:induction false} CountBound(s: seq<nat>, n: nat)
    requires Words(s) && Canonical(s) && Value(s) < Pow(BASE, n) && n >= 1
    ensures |s| <= n
  {
    if |s| > n {
      ValueAtLeast(s);
      PowGrows(BASE, BASE, n, |s| - 1);
    }
  }

  // ---- order ----

  /** The first difference from the top decides. */
  lemma {:induction false} TopDecides(s: seq<nat>, t: seq<nat>, k: nat)
    requires Words(s) && Words(t) && |s| == |t| && k < |s|
    requires s[k] < t[k] && s[k + 1..] == t[k + 1..]
    ensures Value(s) < Value(t)
  {
    if k == 0 {
      assert s[1..] == t[1..];
    } else {
      assert s[1..][k..] == s[k + 1..] && t[1..][k..] == t[k + 1..];
      TopDecides(s[1..], t[1..], k - 1);
    }
  }

  lemma {:induction false} LongerIsGreater(s: seq<nat>, t: seq<nat>)
    requires Words(s) && Canonical(t) && 1 <= |s| < |t|
    ensures Value(s) < Value(t)
  {
    ValueBelow(s);
    ValueAtLeast(t);
    PowGrows(BASE, BASE, |s|, |t| - 1);
  }

  // ---- the carry loops ----

  /** The sum of two words, and its carry. */
  function LowWord(x: nat): nat {
    if x < BASE then x else x - BASE
  }

  function HighWord(x: nat): nat {
    if x < BASE then 0 else 1
  }

  function AddCarry(s: seq<nat>, c: nat): seq<nat> {
    if s == [] then (if c == 0 then [] else [c])
    else [LowWord(s[0] + c)] + AddCarry(s[1..], HighWord(s[0] + c))
  }

  lemma {:induction false} AddCarryIs(s: seq<nat>, c: nat)
    ensures Value(AddCarry(s, c)) == Value(s) + c
  {
    if s != [] {
      AddCarryIs(s[1..], HighWord(s[0] + c));
      assert AddCarry(s, c)[1..] == AddCarry(s[1..], HighWord(s[0] + c));
    } else if c != 0 {
      assert [c][1..] == [];
    }
  }

  /** The sum is again made of words without a leading zero. */
  lemma {:induction false} AddKeeps(s: seq<nat>, c: nat)
    requires Words(s) && c < BASE && s != []
    ensures Words(AddCarry(s, c)) && |AddCarry(s, c)| >= |s|
    ensures |s| == 1 || s[|s| - 1] != 0 ==> Canonical(AddCarry(s, c))
  {
    var q := HighWord(s[0] + c);
    if |s| == 1 {
      assert AddCarry(s[1..], q) == if q == 0 then [] else [q];
    } else {
      AddKeeps(s[1..], q);
      var t := AddCarry(s[1..], q);
      assert AddCarry(s, c) == [LowWord(s[0] + c)] + t && AddCarry(s, c)[|t|] == t[|t| - 1];
      if s[|s| - 1] != 0 && |t| == 1 {
        assert |s| == 2 && t[0] == LowWord(s[1] + q) && AddCarry(s[1..][1..], HighWord(s[1] + q)) == [];
      }
    }
  }

  function MulCarry(s: seq<nat>, u: nat, k: nat): seq<nat> {
    if s == [] then (if k == 0 then [] else [k])
    else [(s[0] * u + k) % BASE] + MulCarry(s[1..], u, (s[0] * u + k) / BASE)
  }

  lemma {:induction false} MulStep(d: nat, u: nat, v: nat, k: nat, q: nat, r: nat)
    requires d * u + k == r + BASE * q
    ensures r + BASE * (v * u + q) == (d + BASE * v) * u + k
  {
    assert (d + BASE * v) * u == d * u + BASE * v * u;
    assert BASE * v * u == BASE * (v * u);
  }

  lemma {:induction false} MulCarryIs(s: seq<nat>, u: nat, k: nat)
    ensures Value(MulCarry(s, u, k)) == Value(s) * u + k
  {
    if s == [] {
      assert Value(MulCarry(s, u, k)) == k by { if k != 0 { assert [k][1..] == []; } }
    } else {
      var d, v := s[0], Value(s[1..]);
      var q, r := (d * u + k) / BASE, (d * u + k) % BASE;
      MulCarryIs(s[1..], u, q);
      FirstLimb(r, MulCarry(s[1..], u, q));
      MulStep(d, u, v, k, q, r);
    }
  }

  lemma {:induction false} FirstLimb(r: nat, t: seq<nat>)
    ensures Value([r] + t) == r + BASE * Value(t)
  {
    assert ([r] + t)[1..] == t;
  }

  /** The carry stays a word. */
  lemma {:induction false} CarryFits(a: nat, u: nat, k: nat)
    requires a < BASE && u < BASE && k < BASE
    ensures a * u + k < BASE * BASE && (a * u + k) / BASE < BASE
    ensures k < u ==> (a * u + k) / BASE < u
  {
    Product(a, BASE - 1, u, BASE - 1);
    if k < u {
      Product(a, BASE - 1, u, u);
      assert a * u + k < BASE * u;
      assert (a * u + k) / BASE < u by { QuotientBelow(a * u + k, u); }
    }
    QuotientBelow(a * u + k, BASE);
  }

  lemma {:induction false} QuotientBelow(x: nat, q: nat)
    requires x < BASE * q
    ensures x / BASE < q
  {
  }

  /** The product with a word that is not zero is again made of words without a leading zero. */
  lemma {:induction false} MulKeeps(s: seq<nat>, u: nat, k: nat)
    requires Words(s) && 0 < u < BASE && k < BASE && s != []
    ensures Words(MulCarry(s, u, k)) && |MulCarry(s, u, k)| >= |s|
    ensures |s| == 1 || s[|s| - 1] != 0 ==> Canonical(MulCarry(s, u, k))
    ensures s[|s| - 1] != 0 ==> MulCarry(s, u, k)[|MulCarry(s, u, k)| - 1] != 0
  {
    var q, r := (s[0] * u + k) / BASE, (s[0] * u + k) % BASE;
    var t := MulCarry(s[1..], u, q);
    CarryFits(s[0], u, k);
    assert MulCarry(s, u, k) == [r] + t;
    if |s| == 1 {
      assert t == if q == 0 then [] else [q];
      if s[0] != 0 { Product(1, s[0], 1, u); }
    } else {
      MulKeeps(s[1..], u, q);
      assert MulCarry(s, u, k)[|t|] == t[|t| - 1] && s[1..][|s| - 2] == s[|s| - 1];
    }
  }

  // ---- the same limb by limb ----

  /** The carry into limb `i` of a sum. */
  function SumCarry(s: seq<nat>, c: nat, i: nat): nat
    requires i <= |s|
  {
    if i == 0 then c else HighWord(s[i - 1] + SumCarry(s, c, i - 1))
  }

  function SumLimb(s: seq<nat>, c: nat, i: nat): nat
    requires i <= |s|
  {
    if i == |s| then SumCarry(s, c, i) else LowWord(s[i] + SumCarry(s, c, i))
  }

  lemma {:induction false} SumCarryShifts(s: seq<nat>, c: nat, i: nat)
    requires s != [] && 1 <= i <= |s|
    ensures SumCarry(s, c, i) == SumCarry(s[1..], HighWord(s[0] + c), i - 1)
  {
    if i > 1 {
      SumCarryShifts(s, c, i - 1);
      assert s[1..][i - 2] == s[i - 1];
    }
  }

  lemma {:induction false} AddCarryAt(s: seq<nat>, c: nat, i: nat)
    requires i <= |s|
    ensures |AddCarry(s, c)| == if SumCarry(s, c, |s|) == 0 then |s| else |s| + 1
    ensures i < |AddCarry(s, c)| ==> AddCarry(s, c)[i] == SumLimb(s, c, i)
  {
    if s != [] {
      var t := AddCarry(s[1..], HighWord(s[0] + c));
      assert AddCarry(s, c) == [LowWord(s[0] + c)] + t;
      SumCarryShifts(s, c, |s|);
      if i == 0 {
        AddCarryAt(s[1..], HighWord(s[0] + c), 0);
      } else {
        AddCarryAt(s[1..], HighWord(s[0] + c), i - 1);
        SumCarryShifts(s, c, i);
      }
    }
  }

  lemma {:induction false} SumCarryStops(s: seq<nat>, c: nat, i: nat, j: nat)
    requires Words(s) && i <= j <= |s| && SumCarry(s, c, i) == 0
    ensures SumCarry(s, c, j) == 0
  {
    if i < j { SumCarryStops(s, c, i, j - 1); }
  }

  /** The carry into limb `i` of a product. */
  function ProductCarry(s: seq<nat>, u: nat, k: nat, i: nat): nat
    requires i <= |s|
  {
    if i == 0 then k else (s[i - 1] * u + ProductCarry(s, u, k, i - 1)) / BASE
  }

  function ProductLimb(s: seq<nat>, u: nat, k: nat, i: nat): nat
    requires i <= |s|
  {
    if i == |s| then ProductCarry(s, u, k, i) else (s[i] * u + ProductCarry(s, u, k, i)) % BASE
  }

  lemma {:induction false} ProductCarryShifts(s: seq<nat>, u: nat, k: nat, i: nat)
    requires s != [] && 1 <= i <= |s|
    ensures ProductCarry(s, u, k, i) == ProductCarry(s[1..], u, (s[0] * u + k) / BASE, i - 1)
  {
    if i > 1 {
      ProductCarryShifts(s, u, k, i - 1);
      assert s[1..][i - 2] == s[i - 1];
    }
  }

  lemma {:induction false} ProductLimbShifts(s: seq<nat>, u: nat, k: nat, i: nat)
    requires s != [] && i <= |s|
    ensures ProductLimb(s, u, k, i)
         == if i == 0 then (s[0] * u + k) % BASE else ProductLimb(s[1..], u, (s[0] * u + k) / BASE, i - 1)
  {
    if i > 0 { ProductCarryShifts(s, u, k, i); }
  }

  lemma {:induction false} MulCarryAt(s: seq<nat>, u: nat, k: nat, i: nat)
    requires i <= |s|
    ensures |MulCarry(s, u, k)| == if ProductCarry(s, u, k, |s|) == 0 then |s| else |s| + 1
    ensures i < |MulCarry(s, u, k)| ==> MulCarry(s, u, k)[i] == ProductLimb(s, u, k, i)
    decreases s, 1
  {
    if s == [] {
    } else {
      MulCarryNext(s, u, k, i);
    }
  }

  lemma {:induction false} MulCarryNext(s: seq<nat>, u: nat, k: nat, i: nat)
    requires s != [] && i <= |s|
    ensures |MulCarry(s, u, k)| == if ProductCarry(s, u, k, |s|) == 0 then |s| else |s| + 1
    ensures i < |MulCarry(s, u, k)| ==> MulCarry(s, u, k)[i] == ProductLimb(s, u, k, i)
    decreases s, 0
  {
    hide ProductCarry, ProductLimb;
    var q := (s[0] * u + k) / BASE;
    assert MulCarry(s, u, k) == [(s[0] * u + k) % BASE] + MulCarry(s[1..], u, q);
    ProductCarryShifts(s, u, k, |s|);
    ProductLimbShifts(s, u, k, i);
    MulCarryAt(s[1..], u, q, if i == 0 then 0 else i - 1);
  }

  // ---- shifts ----

  /** Splitting a limb where a shift by a power of two cuts it. */
  lemma {:induction false} CutLimb(d: nat, m: nat, q: nat, k: nat)
    requires m * q == BASE && m > 0 && q > 0 && k < m
    ensures (d * m + k) / BASE == d / q && (d * m + k) % BASE == (d % q) * m + k && (d * m) % BASE == (d % q) * m
  {
    var h, l := d / q, d % q;
    assert d == h * q + l;
    assert d * m == h * (q * m) + l * m by { Distribute(h, q, l, m); }
    assert l * m <= (q - 1) * m by { Product(l, q - 1, m, m); }
    assert (q - 1) * m == q * m - m;
    assert q * m == BASE;
    Divides(d * m + k, h, l * m + k);
    Divides(d * m, h, l * m);
  }

  lemma {:induction false} Distribute(h: nat, q: nat, l: nat, m: nat)
    ensures (h * q + l) * m == h * (q * m) + l * m
  {
    assert (h * q + l) * m == (h * q) * m + l * m;
    assert (h * q) * m == h * (q * m);
  }

  lemma {:induction false} Divides(x: nat, h: nat, r: nat)
    requires x == h * BASE + r && r < BASE
    ensures x / BASE == h && x % BASE == r
  {
  }

  lemma {:induction false} SplitBase(inter: nat, n: nat)
    requires 0 < inter < n && n == 64
    ensures Pow(2, inter) * Pow(2, n - inter) == BASE && 0 < Pow(2, inter) < BASE && Pow(2, n - inter) > 0
  {
    BaseBits(n);
    PowAdd(2, inter, n - inter);
    PowPositive(2, inter);
    PowPositive(2, n - inter - 1);
    TwiceBelow(Pow(2, inter), Pow(2, n - inter));
  }

  lemma {:induction false} TwiceBelow(m: nat, q: nat)
    requires m > 0 && q >= 2
    ensures m < m * q
  {
    Product(m, m, 2, q);
  }

  /** The carries of a product with a power of two are the upper bits of the limb below. */
  lemma {:induction false} ShiftCarry(s: seq<nat>, m: nat, q: nat, i: nat)
    requires m * q == BASE && m > 0 && q > 0 && i <= |s| && Words(s)
    ensures ProductCarry(s, m, 0, i) == (if i == 0 then 0 else s[i - 1] / q) && ProductCarry(s, m, 0, i) < m
  {
    if i > 0 {
      ShiftCarry(s, m, q, i - 1);
      CutLimb(s[i - 1], m, q, ProductCarry(s, m, 0, i - 1));
      assert s[i - 1] < m * q;
      assert s[i - 1] / q < m by { QuotientLess(s[i - 1], m, q); }
    }
  }

  lemma {:induction false} QuotientLess(x: nat, m: nat, q: nat)
    requires q > 0 && x < m * q
    ensures x / q < m
  {
    var h := x / q;
    assert h * q <= x;
    if h >= m { Product(m, h, q, q); assert false; }
  }

  /** A limb of the product with a power of two, as a shift computes it from two limbs. */
  lemma {:induction false} ShiftedLimb(s: seq<nat>, m: nat, q: nat, i: nat)
    requires m * q == BASE && m > 0 && q > 0 && i <= |s| && Words(s)
    ensures var product := MulCarry(s, m, 0);
            var r := (if i < |s| then s[i] * m % BASE else 0) + (if i == 0 then 0 else s[i - 1] / q);
            if i < |product| then product[i] == r else i == |s| && r == 0
    ensures |s| <= |MulCarry(s, m, 0)| <= |s| + 1
  {
    ShiftCarry(s, m, q, i);
    ShiftCarry(s, m, q, |s|);
    MulCarryAt(s, m, 0, i);
    if i < |s| { CutLimb(s[i], m, q, ProductCarry(s, m, 0, i)); }
  }

  /** Whole limbs and the bits within a limb make up a shift. */
  lemma {:induction false} ShiftSplits(v: nat, offset: nat, inter: nat)
    ensures Pow(BASE, offset) * (v * Pow(2, inter)) == v * Pow(2, 64 * offset + inter)
  {
    var n := 64;
    BaseBits(n);
    PowOfPow(2, n, offset);
    PowAdd(2, n * offset, inter);
    var a, b := Pow(BASE, offset), Pow(2, inter);
    assert a * (v * b) == v * (a * b);
  }

  function Zeros(n: nat): seq<nat> {
    seq(n, _ => 0)
  }

  lemma {:induction false} ZerosBefore(n: nat, s: seq<nat>)
    requires Words(s) && s != [] && s[|s| - 1] != 0
    ensures Value(Zeros(n) + s) == Pow(BASE, n) * Value(s) && Words(Zeros(n) + s) && Canonical(Zeros(n) + s)
  {
    ValueZero(n);
    ValueJoin(Zeros(n), s);
  }

  lemma {:induction false} DivisionIs(x: nat, q: nat, r: nat)
    requires x == BASE * q + r && r < BASE
    ensures x / BASE == q && x % BASE == r
  {
  }

  lemma {:induction false} SixtyBits(n: nat)
    requires n == 60
    ensures Pow(2, n) == 0x1000_0000_0000_0000
  {
    PowAdd(2, 30, 30);
    PowAdd(2, 15, 15);
    assert Pow(2, 15) == 32768;
  }
}
