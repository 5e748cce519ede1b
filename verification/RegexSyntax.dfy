/**
 The concrete syntax of patterns: how a pattern is written, what it denotes, and the expression it stands for.

 The denotation is independent of the compiler: every quantifier is a union of powers whose bounds are numerals
 modulo 2^32, a class is a set of intervals, and precedence is the nesting of the syntax tree.
 */
module RegexSyntax {
  import opened Text
  import opened RegexProgram
  import opened RegexLanguage

  datatype Pattern = One(branch: Branch) | Either(branch: Branch, others: Pattern)
  datatype Branch = Last(piece: Piece) | Then(piece: Piece, others: Branch)
  datatype Piece =
    | Bare(atom: Atom)
    | Quantified(piece: Piece, quant: Quant)
    | Preceded(mark: Mark, piece: Piece)
    | Followed(piece: Piece, mark: Mark)

  /** An anchor, which may stand anywhere and concerns the whole pattern. */
  datatype Mark = Caret | Dollar

  datatype Atom =
    | Plain(c: char)
    | Escaped(c: char)
    | Dot
    | Class(negated: bool, items: seq<Item>)
    | Group(pattern: Pattern)

  datatype Quant = Optional | Many | Some | Exactly(n: string) | AtLeast(n: string) | Between(n: string, m: string)

  datatype Item = Single(c: ClassChar) | Interval(lo: ClassChar, hi: ClassChar)
  datatype ClassChar = Raw(c: char) | Esc(c: char)

  datatype Limit = UpTo(n: nat) | NoLimit

  // ---- characters and numerals ----

  const SPECIAL := "^$|()?*+.[\\{"
  const ESCAPABLE := "^$|()?*+.[]{}\\"
  const BACKSPACE: char := 8 as char

  function EscapeValue(c: char): MaybeChar {
    if c in ESCAPABLE then Just(c)
    else if c == 'f' then Just(0xC as char)
    else if c == 'n' then Just(0xA as char)
    else if c == 'r' then Just(0xD as char)
    else if c == 't' then Just(0x9 as char)
    else if c == 'v' then Just(0xB as char)
    else Nothing
  }

  /** The unsigned value that marks an absent upper bound. */
  const INFINITY := 0xFFFF_FFFF

  /** The overflow test fires at digit `i`: it looks at what has been read so far, wrapped, and at the digit alone. */
  predicate Noticed(s: string, i: nat)
    requires i < |s|
  {
    Wrapped(s[..i]) >= 429496729 && s[i] > '5'
  }

  /** Digits at which no overflow is noticed. */
  predicate Numeral(s: string) {
    s != [] && AllDigits(s) && forall i | 0 <= i < |s| :: !Noticed(s, i)
  }

  // ---- which trees are well formed ----

  predicate QuantOk(q: Quant) {
    match q
    case Exactly(n) => Numeral(n) && Wrapped(n) > 0
    case AtLeast(n) => Numeral(n)
    case Between(n, m) => Numeral(n) && Numeral(m) && Wrapped(n) <= Wrapped(m) && Wrapped(m) > 0
    case _ => true
  }

  predicate ClassCharOk(c: ClassChar) {
    match c
    case Raw(d) => d != ']' && d != '\\' && d != '\0'
    case Esc(d) => d == 'b' || EscapeValue(d).Just?
  }

  predicate ItemOk(item: Item) {
    match item
    case Single(c) => ClassCharOk(c)
    case Interval(lo, hi) => ClassCharOk(lo) && ClassCharOk(hi)
  }

  function FirstChar(item: Item): ClassChar {
    if item.Single? then item.c else item.lo
  }

  /** After a single character a hyphen would open an interval, so it may only be the last item. */
  predicate ItemsOk(items: seq<Item>, afterSingle: bool) {
    items != [] ==>
      && ItemOk(items[0])
      && (afterSingle && FirstChar(items[0]) == Raw('-') ==> items == [Single(Raw('-'))])
      && ItemsOk(items[1..], items[0].Single?)
  }

  predicate AtomOk(a: Atom) {
    match a
    case Plain(c) => c !in SPECIAL && c != '\0'
    case Escaped(c) => EscapeValue(c).Just?
    case Dot => true
    case Class(negated, items) =>
      items != [] && ItemsOk(items, false) && (negated || FirstChar(items[0]) != Raw('^'))
    case Group(p) => PatternOk(p)
  }

  predicate PieceOk(p: Piece) {
    match p
    case Bare(a) => AtomOk(a)
    case Quantified(q, quant) => PieceOk(q) && QuantOk(quant)
    case Preceded(_, q) => PieceOk(q)
    case Followed(q, _) => PieceOk(q)
  }

  predicate BranchOk(b: Branch) {
    match b
    case Last(p) => PieceOk(p)
    case Then(p, rest) => PieceOk(p) && BranchOk(rest)
  }

  predicate PatternOk(p: Pattern) {
    match p
    case One(b) => BranchOk(b)
    case Either(b, rest) => BranchOk(b) && PatternOk(rest)
  }

  // ---- how a tree is written ----

  function ShowClassChar(c: ClassChar): string {
    match c
    case Raw(d) => [d]
    case Esc(d) => ['\\', d]
  }

  function ShowItem(item: Item): string {
    match item
    case Single(c) => ShowClassChar(c)
    case Interval(lo, hi) => ShowClassChar(lo) + "-" + ShowClassChar(hi)
  }

  function ShowItems(items: seq<Item>): string {
    if items == [] then "" else ShowItem(items[0]) + ShowItems(items[1..])
  }

  function ShowAtom(a: Atom): string {
    match a
    case Plain(c) => [c]
    case Escaped(c) => ['\\', c]
    case Dot => "."
    case Class(negated, items) => "[" + (if negated then "^" else "") + ShowItems(items) + "]"
    case Group(p) => "(" + ShowPattern(p) + ")"
  }

  function ShowQuant(q: Quant): string {
    match q
    case Optional => "?"
    case Many => "*"
    case Some => "+"
    case Exactly(n) => "{" + n + "}"
    case AtLeast(n) => "{" + n + ",}"
    case Between(n, m) => "{" + n + "," + m + "}"
  }

  function ShowMark(mark: Mark): string {
    if mark.Caret? then "^" else "$"
  }

  function ShowPiece(p: Piece): string {
    match p
    case Bare(a) => ShowAtom(a)
    case Quantified(q, quant) => ShowPiece(q) + ShowQuant(quant)
    case Preceded(mark, q) => ShowMark(mark) + ShowPiece(q)
    case Followed(q, mark) => ShowPiece(q) + ShowMark(mark)
  }

  function ShowBranch(b: Branch): string {
    match b
    case Last(p) => ShowPiece(p)
    case Then(p, rest) => ShowPiece(p) + ShowBranch(rest)
  }

  function ShowPattern(p: Pattern): string {
    match p
    case One(b) => ShowBranch(b)
    case Either(b, rest) => ShowBranch(b) + "|" + ShowPattern(rest)
  }

  // ---- where a tree is anchored ----

  predicate AtomMarked(a: Atom, mark: Mark) {
    a.Group? && Marked(a.pattern, mark)
  }

  predicate PieceMarked(p: Piece, mark: Mark) {
    match p
    case Bare(a) => AtomMarked(a, mark)
    case Quantified(q, _) => PieceMarked(q, mark)
    case Preceded(m, q) => m == mark || PieceMarked(q, mark)
    case Followed(q, m) => m == mark || PieceMarked(q, mark)
  }

  predicate BranchMarked(b: Branch, mark: Mark) {
    match b
    case Last(p) => PieceMarked(p, mark)
    case Then(p, rest) => PieceMarked(p, mark) || BranchMarked(rest, mark)
  }

  /** The anchor `mark` stands somewhere in the pattern. */
  predicate Marked(p: Pattern, mark: Mark) {
    match p
    case One(b) => BranchMarked(b, mark)
    case Either(b, rest) => BranchMarked(b, mark) || Marked(rest, mark)
  }

  // ---- what a tree denotes ----

  function ClassCharValue(c: ClassChar): char {
    match c
    case Raw(d) => d
    case Esc(d) => if d == 'b' then BACKSPACE else if EscapeValue(d).Just? then EscapeValue(d).c else d
  }

  predicate ItemCovers(item: Item, c: char) {
    match item
    case Single(d) => c == ClassCharValue(d)
    case Interval(lo, hi) => ClassCharValue(lo) <= c <= ClassCharValue(hi)
  }

  predicate ItemsCover(items: seq<Item>, c: char) {
    exists i | 0 <= i < |items| :: ItemCovers(items[i], c)
  }

  function Least(q: Quant): nat {
    match q
    case Optional => 0
    case Many => 0
    case Some => 1
    case Exactly(n) => Wrapped(n)
    case AtLeast(n) => Wrapped(n)
    case Between(n, _) => Wrapped(n)
  }

  function LimitOf(m: nat): Limit {
    if m == INFINITY then NoLimit else UpTo(m)
  }

  function Most(q: Quant): Limit {
    match q
    case Optional => UpTo(1)
    case Many => NoLimit
    case Some => NoLimit
    case Exactly(n) => LimitOf(Wrapped(n))
    case AtLeast(_) => NoLimit
    case Between(_, m) => LimitOf(Wrapped(m))
  }

  predicate Allows(least: nat, most: Limit, n: nat) {
    least <= n && (most.UpTo? ==> n <= most.n)
  }

  ghost predicate AtomMatches(a: Atom, w: string)
    decreases a, 0
  {
    match a
    case Plain(c) => w == [c]
    case Escaped(c) => EscapeValue(c).Just? && w == [EscapeValue(c).c]
    case Dot => |w| == 1
    case Class(negated, items) => |w| == 1 && negated != ItemsCover(items, w[0])
    case Group(p) => PatternMatches(p, w)
  }

  ghost predicate PieceMatches(p: Piece, w: string)
    decreases p, 0
  {
    match p
    case Bare(a) => AtomMatches(a, w)
    case Quantified(q, quant) => exists n: nat :: Allows(Least(quant), Most(quant), n) && PowerMatches(q, n, w)
    case Preceded(_, q) => PieceMatches(q, w)
    case Followed(q, _) => PieceMatches(q, w)
  }

  /** `w` is `n` words of `p` in a row. */
  ghost predicate PowerMatches(p: Piece, n: nat, w: string)
    decreases p, 1, n
  {
    if n == 0 then w == []
    else exists i | 0 <= i <= |w| :: PieceMatches(p, w[..i]) && PowerMatches(p, n - 1, w[i..])
  }

  ghost predicate BranchMatches(b: Branch, w: string)
    decreases b, 0
  {
    match b
    case Last(p) => PieceMatches(p, w)
    case Then(p, rest) => exists i | 0 <= i <= |w| :: PieceMatches(p, w[..i]) && BranchMatches(rest, w[i..])
  }

  ghost predicate PatternMatches(p: Pattern, w: string)
    decreases p, 0
  {
    match p
    case One(b) => BranchMatches(b, w)
    case Either(b, rest) => BranchMatches(b, w) || PatternMatches(rest, w)
  }

  // ---- the expression a tree stands for ----

  /** `n` copies of `e` in front of `tail`. */
  function Before(e: Expr, n: nat, tail: Expr): Expr {
    if n == 0 then tail else Cat(e, Before(e, n - 1, tail))
  }

  /** What the compiler makes of `e{n,m}`. */
  function Repeat(e: Expr, n: nat, m: Limit): Expr {
    var o := Rep(e, ZeroOrOne);
    match m
    case NoLimit => if n == 0 then Rep(e, ZeroOrMore) else Before(e, n - 1, Rep(e, OneOrMore))
    case UpTo(k) =>
      if k <= n then (if n == 0 then e else Before(e, n - 1, e))
      else Before(e, n, Before(o, k - n - 1, o))
  }

  function LowerQuant(e: Expr, q: Quant): Expr {
    match q
    case Optional => Rep(e, ZeroOrOne)
    case Many => Rep(e, ZeroOrMore)
    case Some => Rep(e, OneOrMore)
    case _ => Repeat(e, Least(q), Most(q))
  }

  /** The intervals that a class adds to the table of ranges when the table has `base` entries. */
  function ItemBounds(item: Item): (int, int) {
    match item
    case Single(c) => (ClassCharValue(c) as int, ClassCharValue(c) as int)
    case Interval(lo, hi) => (ClassCharValue(lo) as int, ClassCharValue(hi) as int)
  }

  function Bounds(items: seq<Item>): (bs: seq<(int, int)>)
    ensures |bs| == |items|
  {
    if items == [] then [] else [ItemBounds(items[0])] + Bounds(items[1..])
  }

  /** Entry `j` of the linked list of intervals that begins at `base`. */
  function LinkedRange(bs: seq<(int, int)>, base: nat, negated: bool, j: nat): Range
    requires j < |bs|
  {
    Range(bs[j].0 + (if negated && j == 0 then NEGATION_FLAG else 0), bs[j].1, if j + 1 < |bs| then base + j + 1 else NONE)
  }

  function LinkedRanges(bs: seq<(int, int)>, base: nat, negated: bool): (rs: seq<Range>)
    ensures |rs| == |bs|
  {
    seq(|bs|, j requires 0 <= j < |bs| => LinkedRange(bs, base, negated, j))
  }

  function AtomRanges(a: Atom, base: nat): seq<Range> {
    match a
    case Class(negated, items) => LinkedRanges(Bounds(items), base, negated)
    case Group(p) => PatternRanges(p, base)
    case _ => []
  }

  function PieceRanges(p: Piece, base: nat): seq<Range> {
    match p
    case Bare(a) => AtomRanges(a, base)
    case Quantified(q, _) => PieceRanges(q, base)
    case Preceded(_, q) => PieceRanges(q, base)
    case Followed(q, _) => PieceRanges(q, base)
  }

  function BranchRanges(b: Branch, base: nat): seq<Range> {
    match b
    case Last(p) => PieceRanges(p, base)
    case Then(p, rest) => var rs := PieceRanges(p, base); rs + BranchRanges(rest, base + |rs|)
  }

  function PatternRanges(p: Pattern, base: nat): seq<Range> {
    match p
    case One(b) => BranchRanges(b, base)
    case Either(b, rest) => var rs := BranchRanges(b, base); rs + PatternRanges(rest, base + |rs|)
  }

  function LowerAtom(a: Atom, base: nat): Expr {
    match a
    case Plain(c) => Sym(Literal(c))
    case Escaped(c) => Sym(Literal(if EscapeValue(c).Just? then EscapeValue(c).c else c))
    case Dot => Sym(AnyChar)
    case Class(_, _) => Sym(InRanges(base))
    case Group(p) => LowerPattern(p, base)
  }

  function LowerPiece(p: Piece, base: nat): Expr {
    match p
    case Bare(a) => LowerAtom(a, base)
    case Quantified(q, quant) => LowerQuant(LowerPiece(q, base), quant)
    case Preceded(_, q) => LowerPiece(q, base)
    case Followed(q, _) => LowerPiece(q, base)
  }

  function LowerBranch(b: Branch, base: nat): Expr {
    match b
    case Last(p) => LowerPiece(p, base)
    case Then(p, rest) => Cat(LowerPiece(p, base), LowerBranch(rest, base + |PieceRanges(p, base)|))
  }

  function LowerPattern(p: Pattern, base: nat): Expr {
    match p
    case One(b) => LowerBranch(b, base)
    case Either(b, rest) => Alt(LowerBranch(b, base), LowerPattern(rest, base + |BranchRanges(b, base)|))
  }

  // ---- powers of an expression ----

  ghost predicate InPower(ranges: seq<Range>, e: Expr, n: nat, w: string)
    decreases n
  {
    if n == 0 then w == []
    else exists i | 0 <= i <= |w| :: InLang(ranges, e, w[..i]) && InPower(ranges, e, n - 1, w[i..])
  }

  ghost predicate Counted(ranges: seq<Range>, e: Expr, least: nat, most: Limit, w: string) {
    exists n: nat :: Allows(least, most, n) && InPower(ranges, e, n, w)
  }

  /** `tail` has, on `w`, the meaning of `least` to `most` copies of `e`. */
  ghost predicate CountsAs(ranges: seq<Range>, tail: Expr, e: Expr, least: nat, most: Limit, w: string) {
    InLang(ranges, tail, w) <==> Counted(ranges, e, least, most, w)
  }

  lemma {:induction false} OncePower(ranges: seq<Range>, e: Expr, w: string)
    ensures InPower(ranges, e, 1, w) <==> InLang(ranges, e, w)
  {
    assert w[..|w|] == w && w[|w|..] == [];
    if InPower(ranges, e, 1, w) {
      var i :| 0 <= i <= |w| && InLang(ranges, e, w[..i]) && InPower(ranges, e, 0, w[i..]);
      assert i == |w|;
    } else if InLang(ranges, e, w) {
      assert InPower(ranges, e, 0, w[|w|..]);
    }
  }

  /** The star is the union of all powers. */
  lemma {:induction false} StarIsPowers(ranges: seq<Range>, e: Expr, w: string)
    ensures InStar(ranges, e, w) <==> Counted(ranges, e, 0, NoLimit, w)
    decreases |w|
  {
    if InStar(ranges, e, w) {
      if w == [] {
        assert InPower(ranges, e, 0, w);
      } else {
        var i :| 0 < i <= |w| && InLang(ranges, e, w[..i]) && InStar(ranges, e, w[i..]);
        StarIsPowers(ranges, e, w[i..]);
        var n: nat :| InPower(ranges, e, n, w[i..]);
        assert InPower(ranges, e, n + 1, w);
      }
    }
    if Counted(ranges, e, 0, NoLimit, w) {
      var n: nat :| InPower(ranges, e, n, w);
      PowerInStar(ranges, e, n, w);
    }
  }

  lemma {:induction false} PowerInStar(ranges: seq<Range>, e: Expr, n: nat, w: string)
    requires InPower(ranges, e, n, w)
    ensures InStar(ranges, e, w)
    decreases n
  {
    if n > 0 {
      var i :| 0 <= i <= |w| && InLang(ranges, e, w[..i]) && InPower(ranges, e, n - 1, w[i..]);
      PowerInStar(ranges, e, n - 1, w[i..]);
      if i == 0 { assert w[0..] == w; }
    }
  }

  lemma {:induction false} PlusIsPowers(ranges: seq<Range>, e: Expr, w: string)
    ensures InLang(ranges, Rep(e, OneOrMore), w) <==> Counted(ranges, e, 1, NoLimit, w)
  {
    if InLang(ranges, Rep(e, OneOrMore), w) {
      var i :| 0 <= i <= |w| && InLang(ranges, e, w[..i]) && InStar(ranges, e, w[i..]);
      StarIsPowers(ranges, e, w[i..]);
      var n: nat :| InPower(ranges, e, n, w[i..]);
      assert InPower(ranges, e, n + 1, w);
    }
    if Counted(ranges, e, 1, NoLimit, w) {
      var n: nat :| n >= 1 && InPower(ranges, e, n, w);
      var i :| 0 <= i <= |w| && InLang(ranges, e, w[..i]) && InPower(ranges, e, n - 1, w[i..]);
      PowerInStar(ranges, e, n - 1, w[i..]);
    }
  }

  function Raise(most: Limit): Limit {
    if most.UpTo? then UpTo(most.n + 1) else NoLimit
  }

  /** One more required copy in front raises both bounds. */
  lemma {:induction false} PrependCounted(ranges: seq<Range>, e: Expr, tail: Expr, least: nat, most: Limit, w: string)
    requires forall v :: CountsAs(ranges, tail, e, least, most, v)
    ensures CountsAs(ranges, Cat(e, tail), e, least + 1, Raise(most), w)
  {
    if InLang(ranges, Cat(e, tail), w) {
      var i :| 0 <= i <= |w| && InLang(ranges, e, w[..i]) && InLang(ranges, tail, w[i..]);
      assert CountsAs(ranges, tail, e, least, most, w[i..]);
      var n: nat :| Allows(least, most, n) && InPower(ranges, e, n, w[i..]);
      assert InPower(ranges, e, n + 1, w);
    }
    if Counted(ranges, e, least + 1, Raise(most), w) {
      var n: nat :| Allows(least + 1, Raise(most), n) && InPower(ranges, e, n, w);
      var i :| 0 <= i <= |w| && InLang(ranges, e, w[..i]) && InPower(ranges, e, n - 1, w[i..]);
      assert CountsAs(ranges, tail, e, least, most, w[i..]) && Counted(ranges, e, least, most, w[i..]);
    }
  }

  function RaiseBy(most: Limit, n: nat): Limit {
    if most.UpTo? then UpTo(most.n + n) else NoLimit
  }

  lemma {:induction false} BeforeCounted(ranges: seq<Range>, e: Expr, n: nat, tail: Expr, least: nat, most: Limit, w: string)
    requires forall v :: CountsAs(ranges, tail, e, least, most, v)
    ensures CountsAs(ranges, Before(e, n, tail), e, least + n, RaiseBy(most, n), w)
    decreases n
  {
    if n > 0 {
      var rest, lo, hi := Before(e, n - 1, tail), least + n - 1, RaiseBy(most, n - 1);
      forall v ensures CountsAs(ranges, rest, e, lo, hi, v) {
        BeforeCounted(ranges, e, n - 1, tail, least, most, v);
      }
      PrependCounted(ranges, e, rest, lo, hi, w);
      assert Raise(RaiseBy(most, n - 1)) == RaiseBy(most, n);
    }
  }

  lemma {:induction false} OptionalThenCounted(ranges: seq<Range>, e: Expr, tail: Expr, k: nat, w: string)
    requires forall v :: CountsAs(ranges, tail, e, 0, UpTo(k), v)
    requires InLang(ranges, Cat(Rep(e, ZeroOrOne), tail), w)
    ensures Counted(ranges, e, 0, UpTo(k + 1), w)
  {
    var o := Rep(e, ZeroOrOne);
    var i :| 0 <= i <= |w| && InLang(ranges, o, w[..i]) && InLang(ranges, tail, w[i..]);
    assert CountsAs(ranges, tail, e, 0, UpTo(k), w[i..]);
    var n: nat :| Allows(0, UpTo(k), n) && InPower(ranges, e, n, w[i..]);
    if w[..i] == [] {
      assert w[i..] == w && Allows(0, UpTo(k + 1), n);
    } else {
      assert InLang(ranges, e, w[..i]) && InPower(ranges, e, n + 1, w) && Allows(0, UpTo(k + 1), n + 1);
    }
  }

  lemma {:induction false} CountedThenOptional(ranges: seq<Range>, e: Expr, tail: Expr, k: nat, w: string)
    requires forall v :: CountsAs(ranges, tail, e, 0, UpTo(k), v)
    requires Counted(ranges, e, 0, UpTo(k + 1), w)
    ensures InLang(ranges, Cat(Rep(e, ZeroOrOne), tail), w)
  {
    var o := Rep(e, ZeroOrOne);
    var n: nat :| Allows(0, UpTo(k + 1), n) && InPower(ranges, e, n, w);
    if n == 0 {
      assert w[..0] == [] && w[0..] == w;
      assert CountsAs(ranges, tail, e, 0, UpTo(k), w) && Allows(0, UpTo(k), 0);
      assert InLang(ranges, o, w[..0]) && InLang(ranges, tail, w[0..]);
    } else {
      var i :| 0 <= i <= |w| && InLang(ranges, e, w[..i]) && InPower(ranges, e, n - 1, w[i..]);
      assert CountsAs(ranges, tail, e, 0, UpTo(k), w[i..]) && Allows(0, UpTo(k), n - 1);
      assert InLang(ranges, o, w[..i]) && InLang(ranges, tail, w[i..]);
    }
  }

  /** One more optional copy in front raises the upper bound. */
  lemma {:induction false} PrependOptional(ranges: seq<Range>, e: Expr, tail: Expr, k: nat, w: string)
    requires forall v :: CountsAs(ranges, tail, e, 0, UpTo(k), v)
    ensures CountsAs(ranges, Cat(Rep(e, ZeroOrOne), tail), e, 0, UpTo(k + 1), w)
  {
    hide InLang, Counted;
    if InLang(ranges, Cat(Rep(e, ZeroOrOne), tail), w) { OptionalThenCounted(ranges, e, tail, k, w); }
    if Counted(ranges, e, 0, UpTo(k + 1), w) { CountedThenOptional(ranges, e, tail, k, w); }
  }

  lemma {:induction false} OptionalsCounted(ranges: seq<Range>, e: Expr, n: nat, w: string)
    ensures var o := Rep(e, ZeroOrOne);
            CountsAs(ranges, Before(o, n, o), e, 0, UpTo(n + 1), w)
    decreases n
  {
    var o := Rep(e, ZeroOrOne);
    if n == 0 {
      OncePower(ranges, e, w);
      if InLang(ranges, o, w) { assert InPower(ranges, e, if w == [] then 0 else 1, w); }
    } else {
      var rest := Before(o, n - 1, o);
      forall v ensures CountsAs(ranges, rest, e, 0, UpTo(n), v) {
        OptionalsCounted(ranges, e, n - 1, v);
      }
      PrependOptional(ranges, e, rest, n, w);
    }
  }

  lemma {:induction false} OnceCounted(ranges: seq<Range>, e: Expr, w: string)
    ensures CountsAs(ranges, e, e, 1, UpTo(1), w)
  {
    OncePower(ranges, e, w);
  }

  /** The expansion of `e{n,m}` into copies denotes exactly the union of the powers n to m. */
  lemma {:induction false} RepeatCounted(ranges: seq<Range>, e: Expr, n: nat, m: Limit, w: string)
    requires m.UpTo? ==> n <= m.n && m.n > 0
    ensures CountsAs(ranges, Repeat(e, n, m), e, n, m, w)
  {
    var o := Rep(e, ZeroOrOne);
    match m
    case NoLimit =>
      if n == 0 {
        StarIsPowers(ranges, e, w);
      } else {
        forall v ensures CountsAs(ranges, Rep(e, OneOrMore), e, 1, NoLimit, v) {
          PlusIsPowers(ranges, e, v);
        }
        BeforeCounted(ranges, e, n - 1, Rep(e, OneOrMore), 1, NoLimit, w);
      }
    case UpTo(k) =>
      if k == n {
        forall v ensures CountsAs(ranges, e, e, 1, UpTo(1), v) {
          OnceCounted(ranges, e, v);
        }
        BeforeCounted(ranges, e, n - 1, e, 1, UpTo(1), w);
      } else {
        var tail, spare := Before(o, k - n - 1, o), UpTo(k - n);
        forall v ensures CountsAs(ranges, tail, e, 0, spare, v) {
          OptionalsCounted(ranges, e, k - n - 1, v);
        }
        BeforeCounted(ranges, e, n, tail, 0, spare, w);
      }
  }
}
