/**
 The expression that a syntax tree is lowered to denotes what the tree denotes.
 */
module RegexMeaning {
  import opened RegexProgram
  import opened RegexLanguage
  import opened RegexSyntax

  /** The entries of the table of ranges from `base` on are `part`. */
  ghost predicate Table(ranges: seq<Range>, base: nat, part: seq<Range>) {
    base + |part| <= |ranges| && forall j | 0 <= j < |part| :: ranges[base + j] == part[j]
  }

  lemma {:induction false} TableSplit(ranges: seq<Range>, base: nat, front: seq<Range>, back: seq<Range>)
    requires Table(ranges, base, front + back)
    ensures Table(ranges, base, front) && Table(ranges, base + |front|, back)
  {
    forall j | 0 <= j < |front| ensures ranges[base + j] == front[j] {
      assert (front + back)[j] == front[j];
    }
    forall j | 0 <= j < |back| ensures ranges[base + |front| + j] == back[j] {
      assert (front + back)[|front| + j] == back[j];
      assert ranges[base + (|front| + j)] == back[j];
    }
  }

  // ---- classes ----

  lemma {:induction false} BoundsAt(items: seq<Item>, i: nat)
    requires i < |items|
    ensures Bounds(items)[i] == ItemBounds(items[i])
  {
    if i > 0 { BoundsAt(items[1..], i - 1); }
  }

  /** Walking the linked intervals from entry `j` on covers what the items from `j` on cover. */
  lemma {:induction false} ListCovers(ranges: seq<Range>, base: nat, items: seq<Item>, negated: bool, j: nat, c: char)
    requires j < |items| && Table(ranges, base, LinkedRanges(Bounds(items), base, negated))
    ensures InList(ranges, base + j, c) <==> exists i | j <= i < |items| :: ItemCovers(items[i], c)
    decreases |items| - j
  {
    var r := ranges[base + j];
    BoundsAt(items, j);
    var linked := LinkedRanges(Bounds(items), base, negated);
    assert ranges[base + j] == linked[j];
    assert r == LinkedRange(Bounds(items), base, negated, j);
    var lo := ItemBounds(items[j]).0;
    assert 0 <= lo < NEGATION_FLAG && r.start % NEGATION_FLAG == lo;
    assert Covers(r, c) <==> ItemCovers(items[j], c);
    if j + 1 < |items| { ListCovers(ranges, base, items, negated, j + 1, c); }
  }

  lemma {:induction false} ClassMeans(ranges: seq<Range>, base: nat, negated: bool, items: seq<Item>, c: char)
    requires items != [] && Table(ranges, base, LinkedRanges(Bounds(items), base, negated))
    ensures Hits(ranges, InRanges(base), c) <==> negated != ItemsCover(items, c)
  {
    ListCovers(ranges, base, items, negated, 0, c);
    BoundsAt(items, 0);
    var linked := LinkedRanges(Bounds(items), base, negated);
    assert ranges[base + 0] == linked[0] == LinkedRange(Bounds(items), base, negated, 0);
  }

  // ---- meaning ----

  lemma {:induction false} AtomMeans(a: Atom, base: nat, ranges: seq<Range>, w: string)
    requires AtomOk(a) && Table(ranges, base, AtomRanges(a, base))
    ensures InLang(ranges, LowerAtom(a, base), w) <==> AtomMatches(a, w)
    decreases a, 0
  {
    match a
    case Plain(_) =>
    case Escaped(_) =>
    case Dot =>
    case Class(negated, items) =>
      if |w| == 1 { ClassMeans(ranges, base, negated, items, w[0]); }
    case Group(p) => PatternMeans(p, base, ranges, w);
  }

  lemma {:induction false} PieceMeans(p: Piece, base: nat, ranges: seq<Range>, w: string)
    requires PieceOk(p) && Table(ranges, base, PieceRanges(p, base))
    ensures InLang(ranges, LowerPiece(p, base), w) <==> PieceMatches(p, w)
    decreases p, 0
  {
    match p
    case Bare(a) => AtomMeans(a, base, ranges, w);
    case Quantified(q, quant) =>
      var e := LowerPiece(q, base);
      forall n: nat ensures InPower(ranges, e, n, w) <==> PowerMatches(q, n, w) {
        PowerMeans(q, base, ranges, n, w);
      }
      QuantCounted(ranges, e, quant, w);
    case Preceded(_, q) => PieceMeans(q, base, ranges, w);
    case Followed(q, _) => PieceMeans(q, base, ranges, w);
  }

  lemma {:induction false} PowerMeans(p: Piece, base: nat, ranges: seq<Range>, n: nat, w: string)
    requires PieceOk(p) && Table(ranges, base, PieceRanges(p, base))
    ensures InPower(ranges, LowerPiece(p, base), n, w) <==> PowerMatches(p, n, w)
    decreases p, 1, n
  {
    if n > 0 {
      forall i | 0 <= i <= |w|
        ensures InLang(ranges, LowerPiece(p, base), w[..i]) <==> PieceMatches(p, w[..i])
        ensures InPower(ranges, LowerPiece(p, base), n - 1, w[i..]) <==> PowerMatches(p, n - 1, w[i..])
      {
        PieceMeans(p, base, ranges, w[..i]);
        PowerMeans(p, base, ranges, n - 1, w[i..]);
      }
    }
  }

  /** Every quantifier is the union of the powers it allows. */
  lemma {:induction false} QuantCounted(ranges: seq<Range>, e: Expr, quant: Quant, w: string)
    requires QuantOk(quant)
    ensures InLang(ranges, LowerQuant(e, quant), w) <==> Counted(ranges, e, Least(quant), Most(quant), w)
  {
    match quant
    case Optional => OptionalsCounted(ranges, e, 0, w);
    case Many => StarIsPowers(ranges, e, w);
    case Some => PlusIsPowers(ranges, e, w);
    case _ => RepeatCounted(ranges, e, Least(quant), Most(quant), w);
  }

  lemma {:induction false} BranchMeans(b: Branch, base: nat, ranges: seq<Range>, w: string)
    requires BranchOk(b) && Table(ranges, base, BranchRanges(b, base))
    ensures InLang(ranges, LowerBranch(b, base), w) <==> BranchMatches(b, w)
    decreases b, 0
  {
    match b
    case Last(p) => PieceMeans(p, base, ranges, w);
    case Then(p, rest) =>
      var next := base + |PieceRanges(p, base)|;
      TableSplit(ranges, base, PieceRanges(p, base), BranchRanges(rest, next));
      forall i | 0 <= i <= |w|
        ensures InLang(ranges, LowerPiece(p, base), w[..i]) <==> PieceMatches(p, w[..i])
        ensures InLang(ranges, LowerBranch(rest, next), w[i..]) <==> BranchMatches(rest, w[i..])
      {
        PieceMeans(p, base, ranges, w[..i]);
        BranchMeans(rest, next, ranges, w[i..]);
      }
  }

  /** Lowering preserves meaning. */
  lemma {:induction false} PatternMeans(p: Pattern, base: nat, ranges: seq<Range>, w: string)
    requires PatternOk(p) && Table(ranges, base, PatternRanges(p, base))
    ensures InLang(ranges, LowerPattern(p, base), w) <==> PatternMatches(p, w)
    decreases p, 0
  {
    match p
    case One(b) => BranchMeans(b, base, ranges, w);
    case Either(b, rest) =>
      var next := base + |BranchRanges(b, base)|;
      TableSplit(ranges, base, BranchRanges(b, base), PatternRanges(rest, next));
      BranchMeans(b, base, ranges, w);
      PatternMeans(rest, next, ranges, w);
  }

  // ---- nullable patterns and unbounded quantifiers ----

  predicate AtomNullable(a: Atom) {
    a.Group? && PatternNullable(a.pattern)
  }

  predicate PieceNullable(p: Piece) {
    match p
    case Bare(a) => AtomNullable(a)
    case Quantified(q, quant) => Least(quant) == 0 || PieceNullable(q)
    case Preceded(_, q) => PieceNullable(q)
    case Followed(q, _) => PieceNullable(q)
  }

  predicate BranchNullable(b: Branch) {
    match b
    case Last(p) => PieceNullable(p)
    case Then(p, rest) => PieceNullable(p) && BranchNullable(rest)
  }

  predicate PatternNullable(p: Pattern) {
    match p
    case One(b) => BranchNullable(b)
    case Either(b, rest) => BranchNullable(b) || PatternNullable(rest)
  }

  /** Nothing that `*`, `+` or `{n,}` is applied to is nullable. */
  predicate AtomLoopsOk(a: Atom) {
    a.Group? ==> LoopsOk(a.pattern)
  }

  predicate PieceLoopsOk(p: Piece) {
    match p
    case Bare(a) => AtomLoopsOk(a)
    case Quantified(q, quant) => PieceLoopsOk(q) && (Most(quant).NoLimit? ==> !PieceNullable(q))
    case Preceded(_, q) => PieceLoopsOk(q)
    case Followed(q, _) => PieceLoopsOk(q)
  }

  predicate BranchLoopsOk(b: Branch) {
    match b
    case Last(p) => PieceLoopsOk(p)
    case Then(p, rest) => PieceLoopsOk(p) && BranchLoopsOk(rest)
  }

  predicate LoopsOk(p: Pattern) {
    match p
    case One(b) => BranchLoopsOk(b)
    case Either(b, rest) => BranchLoopsOk(b) && LoopsOk(rest)
  }

  lemma {:induction false} BeforeShape(e: Expr, n: nat, tail: Expr)
    ensures Nullable(Before(e, n, tail)) <==> (n == 0 || Nullable(e)) && Nullable(tail)
    ensures Safe(Before(e, n, tail)) <==> (n == 0 || Safe(e)) && Safe(tail)
  {
    if n > 0 { BeforeShape(e, n - 1, tail); }
  }

  lemma {:induction false} RepeatShape(e: Expr, n: nat, m: Limit)
    requires m.UpTo? ==> n <= m.n && m.n > 0
    ensures Nullable(Repeat(e, n, m)) <==> n == 0 || Nullable(e)
    ensures Safe(Repeat(e, n, m)) <==> Safe(e) && (m.NoLimit? ==> !Nullable(e))
  {
    var o := Rep(e, ZeroOrOne);
    if m.NoLimit? {
      if n > 0 { BeforeShape(e, n - 1, Rep(e, OneOrMore)); }
    } else if m.n == n {
      BeforeShape(e, n - 1, e);
    } else {
      BeforeShape(o, m.n - n - 1, o);
      BeforeShape(e, n, Before(o, m.n - n - 1, o));
    }
  }

  lemma {:induction false} QuantShape(e: Expr, quant: Quant)
    requires QuantOk(quant)
    ensures Nullable(LowerQuant(e, quant)) <==> Least(quant) == 0 || Nullable(e)
    ensures Safe(LowerQuant(e, quant)) <==> Safe(e) && (Most(quant).NoLimit? ==> !Nullable(e))
  {
    if !quant.Optional? && !quant.Many? && !quant.Some? { RepeatShape(e, Least(quant), Most(quant)); }
  }

  lemma {:induction false} AtomShape(a: Atom, base: nat)
    requires AtomOk(a)
    ensures Nullable(LowerAtom(a, base)) == AtomNullable(a) && Safe(LowerAtom(a, base)) == AtomLoopsOk(a)
  {
    if a.Group? { PatternShape(a.pattern, base); }
  }

  lemma {:induction false} PieceShape(p: Piece, base: nat)
    requires PieceOk(p)
    ensures Nullable(LowerPiece(p, base)) == PieceNullable(p) && Safe(LowerPiece(p, base)) == PieceLoopsOk(p)
  {
    match p
    case Bare(a) => AtomShape(a, base);
    case Quantified(q, quant) => PieceShape(q, base); QuantShape(LowerPiece(q, base), quant);
    case Preceded(_, q) => PieceShape(q, base);
    case Followed(q, _) => PieceShape(q, base);
  }

  lemma {:induction false} BranchShape(b: Branch, base: nat)
    requires BranchOk(b)
    ensures Nullable(LowerBranch(b, base)) == BranchNullable(b) && Safe(LowerBranch(b, base)) == BranchLoopsOk(b)
  {
    match b
    case Last(p) => PieceShape(p, base);
    case Then(p, rest) => PieceShape(p, base); BranchShape(rest, base + |PieceRanges(p, base)|);
  }

  /** The lowered expression is nullable, and safe, exactly when the pattern is. */
  lemma {:induction false} PatternShape(p: Pattern, base: nat)
    requires PatternOk(p)
    ensures Nullable(LowerPattern(p, base)) == PatternNullable(p) && Safe(LowerPattern(p, base)) == LoopsOk(p)
  {
    match p
    case One(b) => BranchShape(b, base);
    case Either(b, rest) => BranchShape(b, base); PatternShape(rest, base + |BranchRanges(b, base)|);
  }

  /** A pattern is nullable exactly when it matches the empty string. */
  lemma {:induction false} NullableMeans(p: Pattern)
    requires PatternOk(p)
    ensures PatternNullable(p) <==> PatternMatches(p, [])
  {
    var ranges := PatternRanges(p, 0);
    PatternMeans(p, 0, ranges, []);
    PatternShape(p, 0);
    NullableIsEmptyString(ranges, LowerPattern(p, 0));
  }
}
