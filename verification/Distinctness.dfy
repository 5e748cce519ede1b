/**
 Counting distinct numbers below a bound.
 */
module Distinctness {

  /** Distinct numbers below `n` are at most `n`. */
  lemma {:induction false} ListFits(l: seq<nat>, n: nat)
    requires forall i | 0 <= i < |l| :: l[i] < n
    requires forall i, j | 0 <= i < j < |l| :: l[i] != l[j]
    ensures |l| <= n
  {
    var s := set i | 0 <= i < |l| :: l[i];
    Cardinality(l, s);
    assert s <= Firsts(n);
    SubsetSize(s, Firsts(n));
  }

  lemma {:induction false} Cardinality(l: seq<nat>, s: set<nat>)
    requires s == set i | 0 <= i < |l| :: l[i]
    requires forall i, j | 0 <= i < j < |l| :: l[i] != l[j]
    ensures |s| == |l|
  {
    if l != [] {
      var k := |l| - 1;
      var rest := set i | 0 <= i < k :: l[..k][i];
      Cardinality(l[..k], rest);
      assert s == rest + {l[k]};
    }
  }

  /** The first `n` naturals. */
  ghost function Firsts(n: nat): (s: set<nat>)
    ensures |s| == n && forall i: nat :: i in s <==> i < n
  {
    if n == 0 then {} else Firsts(n - 1) + {n - 1}
  }

  lemma {:induction false} SubsetSize(a: set<nat>, b: set<nat>)
    requires a <= b
    ensures |a| <= |b|
  {
    if a != {} {
      var x :| x in a;
      SubsetSize(a - {x}, b - {x});
    }
  }

  /** As many distinct numbers as there are: all of them. */
  lemma {:induction false} AllListed(l: seq<nat>, n: nat, x: nat)
    requires |l| == n && x < n && forall i | 0 <= i < n :: l[i] < n
    requires forall i, j | 0 <= i < j < n :: l[i] != l[j]
    ensures x in l
  {
    if x !in l { ListFits(l + [x], n); }
  }

  lemma {:induction false} CardinalityAtMost(l: seq<nat>, s: set<nat>)
    requires s == set i | 0 <= i < |l| :: l[i]
    ensures |s| <= |l|
  {
    if l != [] {
      var k := |l| - 1;
      var rest := set i | 0 <= i < k :: l[..k][i];
      CardinalityAtMost(l[..k], rest);
      assert s == rest + {l[k]};
    }
  }

  lemma {:induction false} TooFew(l: seq<nat>, n: nat)
    requires forall x: nat :: x < n ==> x in l
    ensures n <= |l|
  {
    var s := set i | 0 <= i < |l| :: l[i];
    CardinalityAtMost(l, s);
    forall x | x in Firsts(n) ensures x in s { assert x in l; }
    SubsetSize(Firsts(n), s);
  }

  /** As many numbers as there are, one of them twice: another is missing. */
  lemma {:induction false} OneMissing(l: seq<nat>, i: nat, j: nat) returns (x: nat)
    requires i < j < |l| && l[i] == l[j]
    ensures x < |l| && x !in l
  {
    var others := l[..j] + l[j + 1..];
    assert exists y: nat :: y < |l| && y !in others by {
      if forall y: nat :: y < |l| ==> y in others { TooFew(others, |l|); }
    }
    x :| x < |l| && x !in others;
    forall k | 0 <= k < |l| ensures l[k] != x {
      assert others[if k < j then k else if k == j then i else k - 1] == l[k];
    }
  }
}
