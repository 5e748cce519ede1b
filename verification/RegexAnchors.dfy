/**
 What anchors mean where they stand, and when one flag for the whole pattern says the same.
 */
module RegexAnchors {
  import opened RegexSyntax

  // ---- matching at a position ----

  predicate MarkAt(mark: Mark, w: string, i: nat) {
    i == if mark.Caret? then 0 else |w|
  }

  ghost predicate AtomAt(a: Atom, w: string, i: nat, j: nat)
    requires i <= j <= |w|
    decreases a, 0
  {
    if a.Group? then PatternAt(a.pattern, w, i, j) else AtomMatches(a, w[i..j])
  }

  ghost predicate PieceAt(p: Piece, w: string, i: nat, j: nat)
    requires i <= j <= |w|
    decreases p, 0
  {
    match p
    case Bare(a) => AtomAt(a, w, i, j)
    case Quantified(q, quant) => exists n: nat :: Allows(Least(quant), Most(quant), n) && PowerAt(q, n, w, i, j)
    case Preceded(mark, q) => MarkAt(mark, w, i) && PieceAt(q, w, i, j)
    case Followed(q, mark) => PieceAt(q, w, i, j) && MarkAt(mark, w, j)
  }

  ghost predicate PowerAt(p: Piece, n: nat, w: string, i: nat, j: nat)
    requires i <= j <= |w|
    decreases p, 1, n
  {
    if n == 0 then i == j
    else exists k: nat | i <= k <= j :: PieceAt(p, w, i, k) && PowerAt(p, n - 1, w, k, j)
  }

  ghost predicate BranchAt(b: Branch, w: string, i: nat, j: nat)
    requires i <= j <= |w|
    decreases b, 0
  {
    match b
    case Last(p) => PieceAt(p, w, i, j)
    case Then(p, rest) => exists k: nat | i <= k <= j :: PieceAt(p, w, i, k) && BranchAt(rest, w, k, j)
  }

  /** The part of `w` from `i` to `j` is a match, every anchor read at its own place: the caret at the start, the dollar at the end. */
  ghost predicate PatternAt(p: Pattern, w: string, i: nat, j: nat)
    requires i <= j <= |w|
    decreases p, 0
  {
    match p
    case One(b) => BranchAt(b, w, i, j)
    case Either(b, rest) => BranchAt(b, w, i, j) || PatternAt(rest, w, i, j)
  }

  // ---- patterns whose anchors stand where they can hold ----

  /** The anchor is the outermost thing on its side, perhaps in all alternatives of a group there. */
  predicate PieceLed(p: Piece, mark: Mark) {
    match p
    case Bare(a) => a.Group? && PatternLed(a.pattern, mark)
    case Quantified(_, _) => false
    case Preceded(m, q) => if m == mark then mark.Caret? && (!PieceMarked(q, mark) || PieceLed(q, mark)) else PieceLed(q, mark)
    case Followed(q, m) => if m == mark then mark.Dollar? && (!PieceMarked(q, mark) || PieceLed(q, mark)) else PieceLed(q, mark)
  }

  /** The caret begins the branch, or the dollar ends it, and it stands nowhere else. */
  predicate BranchLed(b: Branch, mark: Mark) {
    match b
    case Last(p) => PieceLed(p, mark)
    case Then(p, rest) =>
      if mark.Caret? then PieceLed(p, mark) && !BranchMarked(rest, mark) else !PieceMarked(p, mark) && BranchLed(rest, mark)
  }

  predicate PatternLed(p: Pattern, mark: Mark) {
    match p
    case One(b) => BranchLed(b, mark)
    case Either(b, rest) => BranchLed(b, mark) && PatternLed(rest, mark)
  }

  /** Every alternative has the anchor at its own end of the pattern, or none contains it. */
  predicate Uniform(p: Pattern, mark: Mark) {
    !Marked(p, mark) || PatternLed(p, mark)
  }

  /** Each alternative has the anchor at its own end of the pattern, or does not contain it. */
  predicate Sided(p: Pattern, mark: Mark) {
    match p
    case One(b) => !BranchMarked(b, mark) || BranchLed(b, mark)
    case Either(b, rest) => (!BranchMarked(b, mark) || BranchLed(b, mark)) && Sided(rest, mark)
  }

  // ---- a leading anchor is there ----

  lemma {:induction false} PieceLedMarked(p: Piece, mark: Mark)
    requires PieceLed(p, mark)
    ensures PieceMarked(p, mark)
  {
    match p
    case Bare(a) => PatternLedMarked(a.pattern, mark);
    case Preceded(m, q) => if m != mark { PieceLedMarked(q, mark); }
    case Followed(q, m) => if m != mark { PieceLedMarked(q, mark); }
  }

  lemma {:induction false} BranchLedMarked(b: Branch, mark: Mark)
    requires BranchLed(b, mark)
    ensures BranchMarked(b, mark)
  {
    match b
    case Last(p) => PieceLedMarked(p, mark);
    case Then(p, rest) => if mark.Caret? { PieceLedMarked(p, mark); } else { BranchLedMarked(rest, mark); }
  }

  lemma {:induction false} PatternLedMarked(p: Pattern, mark: Mark)
    requires PatternLed(p, mark)
    ensures Marked(p, mark)
  {
    match p
    case One(b) => BranchLedMarked(b, mark);
    case Either(b, _) => BranchLedMarked(b, mark);
  }

  // ---- the positional meaning is the meaning of the words and of the anchors as a whole ----

  ghost predicate AnchorsHold(caret: bool, dollar: bool, w: string, i: nat, j: nat) {
    (caret ==> i == 0) && (dollar ==> j == |w|)
  }

  ghost predicate PieceHolds(p: Piece, w: string, i: nat, j: nat)
    requires i <= j <= |w|
  {
    PieceMatches(p, w[i..j]) && AnchorsHold(PieceMarked(p, Caret), PieceMarked(p, Dollar), w, i, j)
  }

  ghost predicate BranchHolds(b: Branch, w: string, i: nat, j: nat)
    requires i <= j <= |w|
  {
    BranchMatches(b, w[i..j]) && AnchorsHold(BranchMarked(b, Caret), BranchMarked(b, Dollar), w, i, j)
  }

  /** A match of the words of the pattern that respects its anchors, each for the whole pattern. */
  ghost predicate PatternHolds(p: Pattern, w: string, i: nat, j: nat)
    requires i <= j <= |w|
  {
    PatternMatches(p, w[i..j]) && AnchorsHold(Marked(p, Caret), Marked(p, Dollar), w, i, j)
  }

  lemma {:induction false} PieceAtIs(p: Piece, w: string, i: nat, j: nat)
    requires i <= j <= |w|
    requires forall mark :: !PieceMarked(p, mark) || PieceLed(p, mark)
    ensures PieceAt(p, w, i, j) <==> PieceHolds(p, w, i, j)
    decreases p, 0
  {
    match p
    case Bare(a) =>
      if a.Group? {
        forall mark ensures Uniform(a.pattern, mark) { assert !PieceMarked(p, mark) || PieceLed(p, mark); }
        GroupAtIs(a.pattern, w, i, j);
      }
    case Quantified(q, quant) =>
      assert !PieceMarked(p, Caret) && !PieceMarked(p, Dollar);
      forall n: nat ensures PowerAt(q, n, w, i, j) <==> PowerMatches(q, n, w[i..j]) { PowerAtIs(q, n, w, i, j); }
    case Preceded(m, q) => InnerFine(q, m, p); PieceAtIs(q, w, i, j);
    case Followed(q, m) => InnerFine(q, m, p); PieceAtIs(q, w, i, j);
  }

  lemma {:induction false} InnerFine(q: Piece, m: Mark, p: Piece)
    requires (p == Preceded(m, q) || p == Followed(q, m)) && forall mark :: !PieceMarked(p, mark) || PieceLed(p, mark)
    ensures forall mark :: !PieceMarked(q, mark) || PieceLed(q, mark)
    ensures m.Caret? <==> p.Preceded?
  {
    assert PieceMarked(p, m) && PieceLed(p, m);
    forall mark ensures !PieceMarked(q, mark) || PieceLed(q, mark) {
      if PieceMarked(q, mark) { assert PieceMarked(p, mark) && PieceLed(p, mark); }
    }
  }

  lemma {:induction false} GroupAtIs(p: Pattern, w: string, i: nat, j: nat)
    requires i <= j <= |w| && forall mark :: Uniform(p, mark)
    ensures PieceAt(Bare(Group(p)), w, i, j) <==> PieceHolds(Bare(Group(p)), w, i, j)
    decreases p, 2
  {
    var q := Bare(Group(p));
    forall mark ensures PieceMarked(q, mark) == Marked(p, mark) { assert PieceMarked(q, mark) == AtomMarked(Group(p), mark); }
    assert PieceMatches(q, w[i..j]) <==> AtomMatches(Group(p), w[i..j]);
    assert PieceAt(q, w, i, j) <==> AtomAt(Group(p), w, i, j);
    PatternAtIs(p, w, i, j);
  }

  lemma {:induction false} PowerAtIs(p: Piece, n: nat, w: string, i: nat, j: nat)
    requires i <= j <= |w| && !PieceMarked(p, Caret) && !PieceMarked(p, Dollar)
    ensures PowerAt(p, n, w, i, j) <==> PowerMatches(p, n, w[i..j])
    decreases p, 1, n
  {
    if n > 0 {
      AllFine(p);
      forall k: nat | i <= k <= j ensures PieceAt(p, w, i, k) <==> PieceMatches(p, w[i..k]) {
        PieceAtIs(p, w, i, k);
      }
      forall k: nat | i <= k <= j ensures PowerAt(p, n - 1, w, k, j) <==> PowerMatches(p, n - 1, w[k..j]) {
        PowerAtIs(p, n - 1, w, k, j);
      }
      PowerParts(p, n, w, i, j);
    }
  }

  lemma {:induction false} AllFine(p: Piece)
    requires !PieceMarked(p, Caret) && !PieceMarked(p, Dollar)
    ensures forall mark :: !PieceMarked(p, mark)
  {
    forall mark ensures !PieceMarked(p, mark) { match mark case Caret => case Dollar => }
  }

  lemma {:induction false} PowerCut(p: Piece, n: nat, w: string, i: nat, j: nat) returns (k: nat)
    requires i <= j <= |w| && n > 0 && PowerAt(p, n, w, i, j)
    ensures i <= k <= j && PieceAt(p, w, i, k) && PowerAt(p, n - 1, w, k, j)
  {
    k :| i <= k <= j && PieceAt(p, w, i, k) && PowerAt(p, n - 1, w, k, j);
  }

  lemma {:induction false} BranchCut(p: Piece, rest: Branch, w: string, i: nat, j: nat) returns (k: nat)
    requires i <= j <= |w| && BranchAt(Then(p, rest), w, i, j)
    ensures i <= k <= j && PieceAt(p, w, i, k) && BranchAt(rest, w, k, j)
  {
    k :| i <= k <= j && PieceAt(p, w, i, k) && BranchAt(rest, w, k, j);
  }

  lemma {:induction false} PowerParts(p: Piece, n: nat, w: string, i: nat, j: nat)
    requires i <= j <= |w| && n > 0
    requires forall k: nat | i <= k <= j :: PieceAt(p, w, i, k) <==> PieceMatches(p, w[i..k])
    requires forall k: nat | i <= k <= j :: PowerAt(p, n - 1, w, k, j) <==> PowerMatches(p, n - 1, w[k..j])
    ensures PowerAt(p, n, w, i, j) <==> PowerMatches(p, n, w[i..j])
  {
    hide PieceMatches, PieceAt;
    var u := w[i..j];
    if PowerMatches(p, n, u) {
      var l :| 0 <= l <= |u| && PieceMatches(p, u[..l]) && PowerMatches(p, n - 1, u[l..]);
      assert u[..l] == w[i..i + l] && u[l..] == w[i + l..j];
      assert PieceAt(p, w, i, i + l) && PowerAt(p, n - 1, w, i + l, j);
    }
    if PowerAt(p, n, w, i, j) {
      var k := PowerCut(p, n, w, i, j);
      assert u[..k - i] == w[i..k] && u[k - i..] == w[k..j];
    }
  }

  lemma {:induction false} BranchAtIs(b: Branch, w: string, i: nat, j: nat)
    requires i <= j <= |w| && forall mark :: !BranchMarked(b, mark) || BranchLed(b, mark)
    ensures BranchAt(b, w, i, j) <==> BranchHolds(b, w, i, j)
    decreases b, 0
  {
    match b
    case Last(p) =>
      forall mark ensures !PieceMarked(p, mark) || PieceLed(p, mark) { assert !BranchMarked(b, mark) || BranchLed(b, mark); }
      PieceAtIs(p, w, i, j);
    case Then(p, rest) =>
      PartsFine(p, rest);
      forall k: nat | i <= k <= j ensures PieceAt(p, w, i, k) <==> PieceHolds(p, w, i, k) {
        PieceAtIs(p, w, i, k);
      }
      forall k: nat | i <= k <= j ensures BranchAt(rest, w, k, j) <==> BranchHolds(rest, w, k, j) {
        BranchAtIs(rest, w, k, j);
      }
      BranchParts(p, rest, w, i, j);
  }

  /** The caret can only be in front of the first piece, the dollar only behind the last. */
  lemma {:induction false} PartsFine(p: Piece, rest: Branch)
    requires forall mark :: !BranchMarked(Then(p, rest), mark) || BranchLed(Then(p, rest), mark)
    ensures forall mark :: !PieceMarked(p, mark) || PieceLed(p, mark)
    ensures forall mark :: !BranchMarked(rest, mark) || BranchLed(rest, mark)
    ensures !PieceMarked(p, Dollar) && !BranchMarked(rest, Caret)
  {
    var b := Then(p, rest);
    assert !BranchMarked(b, Caret) || BranchLed(b, Caret);
    assert !BranchMarked(b, Dollar) || BranchLed(b, Dollar);
    forall mark ensures !PieceMarked(p, mark) || PieceLed(p, mark) { match mark case Caret => case Dollar => }
    forall mark ensures !BranchMarked(rest, mark) || BranchLed(rest, mark) { match mark case Caret => case Dollar => }
  }

  lemma {:induction false} BranchParts(p: Piece, rest: Branch, w: string, i: nat, j: nat)
    requires i <= j <= |w| && !PieceMarked(p, Dollar) && !BranchMarked(rest, Caret)
    requires forall k: nat | i <= k <= j :: PieceAt(p, w, i, k) <==> PieceHolds(p, w, i, k)
    requires forall k: nat | i <= k <= j :: BranchAt(rest, w, k, j) <==> BranchHolds(rest, w, k, j)
    ensures BranchAt(Then(p, rest), w, i, j) <==> BranchHolds(Then(p, rest), w, i, j)
  {
    var b, u := Then(p, rest), w[i..j];
    if BranchHolds(b, w, i, j) {
      var l :| 0 <= l <= |u| && PieceMatches(p, u[..l]) && BranchMatches(rest, u[l..]);
      assert u[..l] == w[i..i + l] && u[l..] == w[i + l..j];
      assert PieceAt(p, w, i, i + l) && BranchAt(rest, w, i + l, j);
    }
    if BranchAt(b, w, i, j) {
      var k := BranchCut(p, rest, w, i, j);
      assert u[..k - i] == w[i..k] && u[k - i..] == w[k..j];
    }
  }

  /** Where both anchors are uniform, reading each at its own place is reading it for the whole pattern. */
  lemma {:induction false} PatternAtIs(p: Pattern, w: string, i: nat, j: nat)
    requires i <= j <= |w| && forall mark :: Uniform(p, mark)
    ensures PatternAt(p, w, i, j) <==> PatternHolds(p, w, i, j)
    decreases p, 1
  {
    match p
    case One(b) =>
      forall mark ensures !BranchMarked(b, mark) || BranchLed(b, mark) { assert Uniform(p, mark); }
      BranchAtIs(b, w, i, j);
    case Either(b, rest) =>
      forall mark
        ensures !BranchMarked(b, mark) || BranchLed(b, mark)
        ensures Uniform(rest, mark) && BranchMarked(b, mark) == Marked(rest, mark)
      {
        assert Uniform(p, mark);
        if PatternLed(p, mark) { BranchLedMarked(b, mark); PatternLedMarked(rest, mark); }
      }
      BranchAtIs(b, w, i, j);
      PatternAtIs(rest, w, i, j);
  }

  /** Some alternative matches the part from `i` to `j`, with its own anchors. */
  ghost predicate SomeHolds(p: Pattern, w: string, i: nat, j: nat)
    requires i <= j <= |w|
  {
    match p
    case One(b) => BranchHolds(b, w, i, j)
    case Either(b, rest) => BranchHolds(b, w, i, j) || SomeHolds(rest, w, i, j)
  }

  lemma {:induction false} SidedAtIs(p: Pattern, w: string, i: nat, j: nat)
    requires i <= j <= |w| && Sided(p, Caret) && Sided(p, Dollar)
    ensures PatternAt(p, w, i, j) <==> SomeHolds(p, w, i, j)
  {
    forall mark ensures !BranchMarked(p.branch, mark) || BranchLed(p.branch, mark) { match mark case Caret => case Dollar => }
    BranchAtIs(p.branch, w, i, j);
    if p.Either? { SidedAtIs(p.others, w, i, j); }
  }

  /** The anchors of the whole pattern include those of every alternative. */
  lemma {:induction false} HoldsThenSome(p: Pattern, w: string, i: nat, j: nat)
    requires i <= j <= |w| && PatternHolds(p, w, i, j)
    ensures SomeHolds(p, w, i, j)
  {
    if p.Either? && !BranchMatches(p.branch, w[i..j]) { HoldsThenSome(p.others, w, i, j); }
  }
}
