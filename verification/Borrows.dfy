/**
 Subtraction of limbs as the code does it: a borrow is noticed when a limb comes out larger than it was.
 That test misses exactly one case, and this says when and what comes of it.
 */
module Borrows {
  import opened Limbs

  function MinusWord(x: nat, y: nat): nat
    requires y <= x + BASE
  {
    if x >= y then x - y else x + BASE - y
  }

  function BorrowOf(d: nat, x: nat): nat {
    if d > x then 1 else 0
  }

  /** One limb with a borrow coming in. */
  function Minus(x: nat, c: nat, y: nat): nat
    requires c <= 1 && y <= BASE
  {
    MinusWord(MinusWord(x, c), y)
  }

  function SubBorrow(a: seq<nat>, b: seq<nat>, c: nat): seq<nat>
    requires |a| == |b| && Words(a) && Words(b) && c <= 1
  {
    if a == [] then []
    else [Minus(a[0], c, b[0])] + SubBorrow(a[1..], b[1..], BorrowOf(Minus(a[0], c, b[0]), a[0]))
  }

  /** The borrow out of the last limb. */
  function LastBorrow(a: seq<nat>, b: seq<nat>, c: nat): (r: nat)
    requires |a| == |b| && Words(a) && Words(b) && c <= 1
    ensures r <= 1
  {
    if a == [] then c else LastBorrow(a[1..], b[1..], BorrowOf(Minus(a[0], c, b[0]), a[0]))
  }

  /** No borrow meets a limb of all ones. */
  predicate Lossless(a: seq<nat>, b: seq<nat>, c: nat)
    requires |a| == |b| && Words(a) && Words(b) && c <= 1
  {
    a == [] || (!(c == 1 && b[0] == BASE - 1) && Lossless(a[1..], b[1..], BorrowOf(Minus(a[0], c, b[0]), a[0])))
  }

  lemma {:induction false} MinusIs(x: nat, c: nat, y: nat)
    requires x < BASE && y < BASE && c <= 1
    ensures var d := Minus(x, c, y);
            && d < BASE
            && (if c == 1 && y == BASE - 1 then d == x else d - BASE * BorrowOf(d, x) == x - c - y)
            && (!(c == 1 && y == BASE - 1) ==> (BorrowOf(d, x) == 1 <==> x < y + c))
  {
  }

  /** What the lost borrows add: each, at limb `i`, the weight of limb `i + 1`. */
  function Lost(a: seq<nat>, b: seq<nat>, c: nat): nat
    requires |a| == |b| && Words(a) && Words(b) && c <= 1
  {
    if a == [] then 0
    else LostAt(c, b[0]) + BASE * Lost(a[1..], b[1..], BorrowOf(Minus(a[0], c, b[0]), a[0]))
  }

  function LostAt(c: nat, y: nat): nat {
    if c == 1 && y == BASE - 1 then BASE else 0
  }

  lemma {:induction false} StepIs(x: nat, y: nat, c: nat, va: int, vb: int, vs: int, out: nat, p: nat, lost: nat)
    requires x < BASE && y < BASE && c <= 1 && vs - out * p == va - vb - BorrowOf(Minus(x, c, y), x) + lost
    ensures Minus(x, c, y) + BASE * vs - out * (BASE * p) == (x + BASE * va) - (y + BASE * vb) - c + LostAt(c, y) + BASE * lost
  {
    MinusIs(x, c, y);
    assert out * (BASE * p) == BASE * (out * p);
  }

  /** The limbs are the difference, modulo the last borrow, and what the lost borrows add. */
  lemma {:induction false} SubBorrowIs(a: seq<nat>, b: seq<nat>, c: nat)
    requires |a| == |b| && Words(a) && Words(b) && c <= 1
    ensures Value(SubBorrow(a, b, c)) - LastBorrow(a, b, c) * Pow(BASE, |a|) == Value(a) - Value(b) - c + Lost(a, b, c)
    ensures Words(SubBorrow(a, b, c)) && |SubBorrow(a, b, c)| == |a|
  {
    if a != [] {
      var d := Minus(a[0], c, b[0]);
      var c' := BorrowOf(d, a[0]);
      var s := SubBorrow(a[1..], b[1..], c');
      MinusIs(a[0], c, b[0]);
      SubBorrowIs(a[1..], b[1..], c');
      StepIs(a[0], b[0], c, Value(a[1..]), Value(b[1..]), Value(s), LastBorrow(a, b, c), Pow(BASE, |a| - 1), Lost(a[1..], b[1..], c'));
      assert SubBorrow(a, b, c) == [d] + s && ([d] + s)[1..] == s;
    }
  }

  lemma {:induction false} LosslessIff(a: seq<nat>, b: seq<nat>, c: nat)
    requires |a| == |b| && Words(a) && Words(b) && c <= 1
    ensures Lost(a, b, c) == 0 <==> Lossless(a, b, c)
  {
    if a != [] { LosslessIff(a[1..], b[1..], BorrowOf(Minus(a[0], c, b[0]), a[0])); }
  }

  /** In closed form: below every limb of all ones that is subtracted, there is no less to subtract from. */
  lemma {:induction false} LosslessIs(a: seq<nat>, b: seq<nat>, c: nat)
    requires |a| == |b| && Words(a) && Words(b) && c <= 1
    ensures Lossless(a, b, c) <==> forall i | 0 <= i < |a| && b[i] == BASE - 1 :: Value(a[..i]) >= Value(b[..i]) + c
  {
    if a != [] {
      var d := Minus(a[0], c, b[0]);
      var c' := BorrowOf(d, a[0]);
      MinusIs(a[0], c, b[0]);
      if c == 1 && b[0] == BASE - 1 {
        assert Value(a[..0]) == 0 && Value(b[..0]) == 0;
      } else {
        LosslessIs(a[1..], b[1..], c');
        forall i | 0 <= i < |a| - 1
          ensures Value(a[..i + 1]) >= Value(b[..i + 1]) + c <==> Value(a[1..][..i]) >= Value(b[1..][..i]) + c'
        {
          LowerLimbs(a, i);
          LowerLimbs(b, i);
        }
        LosslessTail(a, b, c, c');
      }
    }
  }

  lemma {:induction false} LowerLimbs(a: seq<nat>, i: nat)
    requires i + 1 <= |a|
    ensures Value(a[..i + 1]) == a[0] + BASE * Value(a[1..][..i])
  {
    assert a[..i + 1][1..] == a[1..][..i];
  }

  lemma {:induction false} LosslessTail(a: seq<nat>, b: seq<nat>, c: nat, c': nat)
    requires |a| == |b| && a != [] && c <= 1 && !(c == 1 && b[0] == BASE - 1)
    requires forall i | 0 <= i < |a| - 1 :: Value(a[..i + 1]) >= Value(b[..i + 1]) + c <==> Value(a[1..][..i]) >= Value(b[1..][..i]) + c'
    ensures (forall i | 0 <= i < |a| && b[i] == BASE - 1 :: Value(a[..i]) >= Value(b[..i]) + c) <==>
            (forall i | 0 <= i < |a| - 1 && b[1..][i] == BASE - 1 :: Value(a[1..][..i]) >= Value(b[1..][..i]) + c')
  {
    assert Value(a[..0]) == 0 && Value(b[..0]) == 0;
    if forall i | 0 <= i < |a| - 1 && b[1..][i] == BASE - 1 :: Value(a[1..][..i]) >= Value(b[1..][..i]) + c' {
      forall i | 0 <= i < |a| && b[i] == BASE - 1 ensures Value(a[..i]) >= Value(b[..i]) + c {
        if i > 0 { assert b[1..][i - 1] == b[i]; }
      }
    }
    if forall i | 0 <= i < |a| && b[i] == BASE - 1 :: Value(a[..i]) >= Value(b[..i]) + c {
      forall i | 0 <= i < |a| - 1 && b[1..][i] == BASE - 1 ensures Value(a[1..][..i]) >= Value(b[1..][..i]) + c' {
        assert b[i + 1] == BASE - 1;
      }
    }
  }

  // ---- the difference of two numbers ----

  function Padded(b: seq<nat>, n: nat): seq<nat>
    requires |b| <= n
  {
    b + Zeros(n - |b|)
  }

  lemma {:induction false} PaddedIs(b: seq<nat>, n: nat)
    requires |b| <= n && Words(b)
    ensures Words(Padded(b, n)) && |Padded(b, n)| == n && Value(Padded(b, n)) == Value(b)
  {
    ValueJoin(b, Zeros(n - |b|));
    ValueZero(n - |b|);
  }

  /** Subtracting a smaller number: the difference and what the lost borrows add. */
  lemma {:induction false} DifferenceIs(a: seq<nat>, b: seq<nat>)
    requires |a| == |b| && Words(a) && Words(b) && Value(a) > Value(b)
    ensures var d := SubBorrow(a, b, 0); Words(d) && |d| == |a| && Value(d) == Value(a) - Value(b) + Lost(a, b, 0)
  {
    SubBorrowIs(a, b, 0);
    ValueBelow(SubBorrow(a, b, 0));
  }

  /** The smallest example of a lost borrow: 2^128 - (2^128 - 2^64 + 1) comes out as 2^128 + 2^64 - 1. */
  lemma {:induction false} BorrowLost()
    ensures var a, b := [0, 0, 1], [1, BASE - 1, 0];
            && Value(a) == BASE * BASE && Value(b) == BASE * BASE - BASE + 1
            && Value(SubBorrow(a, b, 0)) == BASE * BASE + BASE - 1
  {
    var a, b := [0, 0, 1], [1, BASE - 1, 0];
    assert a[1..] == [0, 1] && a[1..][1..] == [1] && a[1..][1..][1..] == [];
    assert b[1..] == [BASE - 1, 0] && b[1..][1..] == [0] && b[1..][1..][1..] == [];
    assert SubBorrow([1], [0], 0) == [1];
    assert SubBorrow([0, 1], [BASE - 1, 0], 1) == [0] + [1];
    assert SubBorrow(a, b, 0) == [BASE - 1, 0, 1];
    assert [BASE - 1, 0, 1][1..] == [0, 1] && Value([1]) == 1 && Value([0, 1]) == BASE;
    assert Value([0]) == 0 && Value([BASE - 1, 0]) == BASE - 1;
  }

  // ---- in terms of the numbers ----

  /** Wherever the limb of `y` is all ones, the lower part of `x` is no less than that of `y`. */
  ghost predicate KeepsBorrows(x: nat, y: nat) {
    forall i: nat :: Limb(y, i) == BASE - 1 ==> Lower(x, i) >= Lower(y, i)
  }

  function Lower(x: nat, i: nat): nat {
    if i == 0 then 0 else x % BASE + BASE * Lower(x / BASE, i - 1)
  }

  function Limb(x: nat, i: nat): nat {
    if i == 0 then x % BASE else Limb(x / BASE, i - 1)
  }

  lemma {:induction false} LimbsAre(s: seq<nat>, i: nat)
    requires Words(s)
    ensures Limb(Value(s), i) == (if i < |s| then s[i] else 0)
    ensures i <= |s| ==> Lower(Value(s), i) == Value(s[..i])
  {
    if s == [] {
      ZeroLimb(i);
    } else {
      ValueParts(s);
      if i > 0 {
        LimbsAre(s[1..], i - 1);
        if i <= |s| { assert s[..i][1..] == s[1..][..i - 1]; }
      }
    }
  }

  lemma {:induction false} ValueParts(s: seq<nat>)
    requires Words(s) && s != []
    ensures Value(s) % BASE == s[0] && Value(s) / BASE == Value(s[1..])
  {
    DivisionIs(Value(s), Value(s[1..]), s[0]);
  }

  lemma {:induction false} ZeroLimb(i: nat)
    ensures Limb(0, i) == 0
  {
    if i > 0 { ZeroLimb(i - 1); }
  }

  /** Below every limb of all ones of `b`, the limbs of `a` make up at least as much. */
  ghost predicate BorrowsKept(a: seq<nat>, b: seq<nat>) {
    forall i | 0 <= i < |b| && i < |a| && b[i] == BASE - 1 :: Value(a[..i]) >= Value(b[..i])
  }

  lemma {:induction false} KeptIs(a: seq<nat>, b: seq<nat>)
    requires Words(a) && Words(b) && |b| <= |a|
    ensures BorrowsKept(a, b) <==> KeepsBorrows(Value(a), Value(b))
  {
    forall i: nat ensures Limb(Value(b), i) == BASE - 1 ==> i < |b| && b[i] == BASE - 1 {
      LimbsAre(b, i);
    }
    forall i: nat | i < |b|
      ensures Limb(Value(b), i) == b[i] && Lower(Value(a), i) == Value(a[..i]) && Lower(Value(b), i) == Value(b[..i])
    {
      LimbsAre(a, i);
      LimbsAre(b, i);
    }
  }

  /** What the lost borrows add when `y`, and the borrow, is subtracted from `x`. */
  function LostBorrows(x: nat, y: nat, c: nat): nat
    requires c <= 1
    decreases x + y
  {
    if x == 0 && y == 0 then 0
    else LostAt(c, y % BASE) + BASE * LostBorrows(x / BASE, y / BASE, BorrowOf(Minus(x % BASE, c, y % BASE), x % BASE))
  }

  lemma {:induction false} LostIs(a: seq<nat>, b: seq<nat>, c: nat)
    requires |a| == |b| && Words(a) && Words(b) && c <= 1
    ensures Lost(a, b, c) == LostBorrows(Value(a), Value(b), c)
  {
    if a != [] {
      ValueParts(a);
      ValueParts(b);
      var c' := BorrowOf(Minus(a[0], c, b[0]), a[0]);
      LostIs(a[1..], b[1..], c');
      if Value(a) == 0 && Value(b) == 0 { assert Value(a[1..]) == 0 && Value(b[1..]) == 0; }
    }
  }

  lemma {:induction false} LimbsOf(x: nat) returns (s: seq<nat>)
    ensures Words(s) && Value(s) == x
  {
    s := [];
    if x > 0 {
      var t := LimbsOf(x / BASE);
      s := [x % BASE] + t;
      assert s[1..] == t;
    }
  }

  /** No borrow is lost if and only if, at every limb of all ones of `y`, the lower part of `x` is no less than that of `y`. */
  lemma {:induction false} NoneLostIff(x: nat, y: nat)
    ensures LostBorrows(x, y, 0) == 0 <==> KeepsBorrows(x, y)
  {
    var s := LimbsOf(x);
    var t := LimbsOf(y);
    var n := if |s| > |t| then |s| else |t|;
    var a, b := Padded(s, n), Padded(t, n);
    PaddedIs(s, n);
    PaddedIs(t, n);
    LostIs(a, b, 0);
    LosslessIff(a, b, 0);
    LosslessIs(a, b, 0);
    KeptIs(a, b);
  }

  // ---- limb by limb ----

  /** The borrow into limb `i`. */
  function BorrowAfter(a: seq<nat>, b: seq<nat>, c: nat, i: nat): (r: nat)
    requires |a| == |b| && Words(a) && Words(b) && i <= |a| && c <= 1
    ensures r <= 1
  {
    if i == 0 then c else BorrowOf(Minus(a[i - 1], BorrowAfter(a, b, c, i - 1), b[i - 1]), a[i - 1])
  }

  lemma {:induction false} BorrowShifts(a: seq<nat>, b: seq<nat>, c: nat, i: nat)
    requires |a| == |b| && Words(a) && Words(b) && 1 <= i <= |a| && c <= 1
    ensures BorrowAfter(a, b, c, i) == BorrowAfter(a[1..], b[1..], BorrowOf(Minus(a[0], c, b[0]), a[0]), i - 1)
  {
    if i > 1 {
      BorrowShifts(a, b, c, i - 1);
      assert a[1..][i - 2] == a[i - 1] && b[1..][i - 2] == b[i - 1];
    }
  }

  lemma {:induction false} SubBorrowSplits(a: seq<nat>, b: seq<nat>, c: nat, i: nat)
    requires |a| == |b| && Words(a) && Words(b) && i < |a| && c <= 1
    ensures |SubBorrow(a, b, c)| == |a| && SubBorrow(a, b, c)[i] == Minus(a[i], BorrowAfter(a, b, c, i), b[i])
    decreases |a|
  {
    SubBorrowIs(a, b, c);
    if i > 0 {
      var c' := BorrowOf(Minus(a[0], c, b[0]), a[0]);
      SubBorrowSplits(a[1..], b[1..], c', i - 1);
      BorrowShifts(a, b, c, i);
    }
  }
}
