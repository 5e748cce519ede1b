/**
 Every well-formed pattern, written out as text, is parsed into the expression of its syntax tree.
 */
module RegexRoundTrip {
  import opened Text
  import opened RegexProgram
  import opened RegexSyntax
  import opened RegexStack
  import opened RegexParser

  // ---- numerals ----

  /** Digits whose value fits are read without loss. */
  lemma {:induction false} DigitsRead(s: string, r: nat, rest: string)
    requires AllDigits(s) && ValueFrom(s, r) <= INFINITY
    ensures ScanDigits(s + rest, r) == ScanDigits(rest, ValueFrom(s, r))
    decreases |s|
  {
    if s == [] {
      assert s + rest == rest;
    } else {
      var q := 10 * r + (s[0] as int - '0' as int);
      ValueGrows(s[1..], q);
      assert (s + rest)[1..] == s[1..] + rest;
      DigitsRead(s[1..], q, rest);
    }
  }

  /** A quantifier's numeral is read exactly if and only if it is below 2^32. */
  lemma {:induction false} UnsignedExactIff(s: string, rest: string)
    requires s != [] && AllDigits(s) && !IsDigit(Peek(rest))
    ensures ScanUnsigned(s + rest) == Scanned(ValueFrom(s, 0), rest) <==> ValueFrom(s, 0) < 0x1_0000_0000
  {
    if ValueFrom(s, 0) <= INFINITY { DigitsRead(s, 0, rest); }
    ScanDigitsBound(s + rest, 0);
  }

  /** The overflow test misses every ten-digit numeral that overflows through a last digit of at most 5. */
  lemma {:induction false} OverflowWraps(s: string, d: char, rest: string)
    requires s != [] && AllDigits(s) && 429496730 <= ValueFrom(s, 0) <= INFINITY
    requires '0' <= d <= '5' && !IsDigit(Peek(rest))
    ensures ScanUnsigned(s + ([d] + rest)) == Scanned((10 * ValueFrom(s, 0) + (d as int - '0' as int)) % 0x1_0000_0000, rest)
  {
    var v, t := ValueFrom(s, 0), [d] + rest;
    var q := (10 * v + (d as int - '0' as int)) % 0x1_0000_0000;
    assert IsDigit(Peek(s + t)) && Peek(t) == d && t[1..] == rest;
    DigitsRead(s, 0, t);
    assert ScanDigits(t, v) == ScanDigits(rest, q);
    assert ScanDigits(rest, q) == Scanned(q, rest);
    assert ScanUnsigned(s + t) == ScanDigits(s + t, 0);
  }

  /** For example the numeral 4294967300 is read as 4. */
  lemma {:induction false} OverflowExample()
    ensures ScanUnsigned("4294967300") == Scanned(4, "")
  {
    ExampleValue();
    OverflowWraps("429496730", '0', "");
    assert "429496730" + (['0'] + "") == "4294967300";
  }

  lemma {:induction false} ExampleValue()
    ensures AllDigits("429496730") && ValueFrom("429496730", 0) == 429496730
  {
    ExampleFront();
    assert "429496" + ['7'] == "4294967" && "4294967" + ['3'] == "42949673" && "42949673" + ['0'] == "429496730";
    ValueSnoc("429496", '7', 0); ValueSnoc("4294967", '3', 0); ValueSnoc("42949673", '0', 0);
  }

  lemma {:induction false} ExampleFront()
    ensures AllDigits("429496") && ValueFrom("429496", 0) == 429496
  {
    assert "" + ['4'] == "4" && "4" + ['2'] == "42" && "42" + ['9'] == "429";
    ValueSnoc("", '4', 0); ValueSnoc("4", '2', 0); ValueSnoc("42", '9', 0);
    assert "429" + ['4'] == "4294" && "4294" + ['9'] == "42949" && "42949" + ['6'] == "429496";
    ValueSnoc("429", '4', 0); ValueSnoc("4294", '9', 0); ValueSnoc("42949", '6', 0);
  }

  predicate NoticedFrom(s: string, i: nat) {
    exists j | i <= j < |s| :: Noticed(s, j)
  }

  lemma {:induction false} DigitsWrap(s: string, i: nat, rest: string)
    requires AllDigits(s) && i <= |s| && !IsDigit(Peek(rest))
    ensures ScanDigits(s[i..] + rest, Wrapped(s[..i]))
         == if NoticedFrom(s, i) then NoScan else Scanned(Wrapped(s), rest)
    decreases |s| - i
  {
    var text := s[i..] + rest;
    if i == |s| {
      assert text == rest && s[..i] == s;
    } else {
      assert text[0] == s[i] && IsDigit(s[i]) && text[1..] == s[i + 1..] + rest;
      assert Peek(text) == s[i];
      WrappedStep(s, i);
      DigitsWrap(s, i + 1, rest);
      assert NoticedFrom(s, i) <==> Noticed(s, i) || NoticedFrom(s, i + 1);
    }
  }

  /** A quantifier's digits are read modulo 2^32, or refused as soon as the test notices an overflow. */
  lemma {:induction false} NumeralScanned(s: string, rest: string)
    requires s != [] && AllDigits(s) && !IsDigit(Peek(rest))
    ensures ScanUnsigned(s + rest) == if Numeral(s) then Scanned(Wrapped(s), rest) else NoScan
  {
    assert s[0..] == s && s[..0] == [] && Peek(s + rest) == s[0];
    DigitsWrap(s, 0, rest);
  }

  // ---- classes ----

  lemma {:induction false} ClassCharScanned(c: ClassChar, rest: string, negated: bool, atStart: bool, step: nat, bounds: seq<(int, int)>)
    requires ClassCharOk(c) && (atStart ==> c != Raw('^'))
    ensures var (step', bounds') := PutClassChar(ClassCharValue(c), step, bounds);
            ScanClass(ShowClassChar(c) + rest, atStart, negated, step, bounds) == ScanClass(rest, false, negated, step', bounds')
  {
    var text := ShowClassChar(c) + rest;
    match c
    case Raw(_) => assert text[1..] == rest;
    case Esc(_) => assert text[1..][0] == text[1] && text[2..] == rest;
  }

  lemma {:induction false} HyphenScanned(rest: string, negated: bool, bounds: seq<(int, int)>)
    ensures ScanClass("-" + rest, false, negated, 1, bounds) == ScanClass(rest, false, negated, 2, bounds)
  {
    assert ("-" + rest)[1..] == rest;
  }

  lemma {:induction false} IntervalScanned(lo: ClassChar, hi: ClassChar, rest: string, negated: bool, atStart: bool, step: nat, bounds: seq<(int, int)>)
    requires ClassCharOk(lo) && ClassCharOk(hi) && (atStart ==> lo != Raw('^')) && step <= 1
    requires step == 1 ==> lo != Raw('-')
    ensures ScanClass(ShowItem(Interval(lo, hi)) + rest, atStart, negated, step, bounds)
         == ScanClass(rest, false, negated, 0, bounds + [ItemBounds(Interval(lo, hi))])
  {
    var tail := ShowClassChar(hi) + rest;
    assert ShowItem(Interval(lo, hi)) + rest == ShowClassChar(lo) + ("-" + tail);
    EscapeNotHyphen(lo);
    ClassCharScanned(lo, "-" + tail, negated, atStart, step, bounds);
    var one := bounds + [(ClassCharValue(lo) as int, ClassCharValue(lo) as int)];
    HyphenScanned(tail, negated, one);
    ClassCharScanned(hi, rest, negated, false, 2, one);
    assert one[|one| - 1 := (one[|one| - 1].0, ClassCharValue(hi) as int)] == bounds + [ItemBounds(Interval(lo, hi))];
  }

  lemma {:induction false} EscapeNotHyphen(c: ClassChar)
    requires ClassCharOk(c)
    ensures ClassCharValue(c) == '-' <==> c == Raw('-')
  {
  }

  lemma {:induction false} ItemsScanned(items: seq<Item>, rest: string, negated: bool, atStart: bool, step: nat, bounds: seq<(int, int)>)
    requires step <= 1 && ItemsOk(items, step == 1)
    requires items == [] ==> bounds != [] && !atStart
    requires step == 1 ==> bounds != []
    requires atStart && items != [] ==> FirstChar(items[0]) != Raw('^')
    ensures ScanClass(ShowItems(items) + "]" + rest, atStart, negated, step, bounds)
         == Scanned(ClassText(negated, bounds + Bounds(items)), rest)
    decreases |items|
  {
    if items == [] {
      assert ShowItems(items) + "]" + rest == "]" + rest && ("]" + rest)[1..] == rest;
      assert bounds + Bounds(items) == bounds;
    } else {
      var first, more := items[0], ShowItems(items[1..]) + "]" + rest;
      ShowItemsSplit(items, rest);
      BoundsSplit(items, bounds);
      if step == 1 && first == Single(Raw('-')) {
        LastHyphenScanned(rest, negated, bounds);
      } else {
        ItemScanned(first, more, negated, atStart, step, bounds);
        ItemsScanned(items[1..], rest, negated, false, if first.Single? then 1 else 0, bounds + [ItemBounds(first)]);
      }
    }
  }

  lemma {:induction false} ShowItemsSplit(items: seq<Item>, rest: string)
    requires items != []
    ensures ShowItems(items) + "]" + rest == ShowItem(items[0]) + (ShowItems(items[1..]) + "]" + rest)
    ensures items == [Single(Raw('-'))] ==> ShowItems(items) + "]" + rest == "-" + ("]" + rest)
  {
  }

  lemma {:induction false} BoundsSplit(items: seq<Item>, bounds: seq<(int, int)>)
    requires items != []
    ensures bounds + Bounds(items) == bounds + [ItemBounds(items[0])] + Bounds(items[1..])
    ensures items == [Single(Raw('-'))] ==> bounds + Bounds(items) == bounds + [HYPHEN()]
  {
    if items == [Single(Raw('-'))] { assert Bounds(items[1..]) == []; }
  }

  lemma {:induction false} LastHyphenScanned(rest: string, negated: bool, bounds: seq<(int, int)>)
    requires bounds != []
    ensures ScanClass("-" + ("]" + rest), false, negated, 1, bounds) == Scanned(ClassText(negated, bounds + [HYPHEN()]), rest)
  {
    HyphenScanned("]" + rest, negated, bounds);
    assert ("]" + rest)[1..] == rest;
  }

  lemma {:induction false} ItemScanned(item: Item, rest: string, negated: bool, atStart: bool, step: nat, bounds: seq<(int, int)>)
    requires step <= 1 && ItemOk(item) && (step == 1 ==> FirstChar(item) != Raw('-'))
    requires atStart ==> FirstChar(item) != Raw('^')
    ensures ScanClass(ShowItem(item) + rest, atStart, negated, step, bounds)
         == ScanClass(rest, false, negated, if item.Single? then 1 else 0, bounds + [ItemBounds(item)])
  {
    match item
    case Single(c) =>
      EscapeNotHyphen(c);
      ClassCharScanned(c, rest, negated, atStart, step, bounds);
    case Interval(lo, hi) => IntervalScanned(lo, hi, rest, negated, atStart, step, bounds);
  }

  lemma {:induction false} NegationScanned(body: string)
    ensures ScanClass("^" + body, true, false, 0, []) == ScanClass(body, false, true, 0, [])
  {
    assert ("^" + body)[1..] == body;
  }

  lemma {:induction false} ClassScanned(negated: bool, items: seq<Item>, rest: string)
    requires AtomOk(Class(negated, items))
    ensures ScanClass((if negated then "^" else "") + ShowItems(items) + "]" + rest, true, false, 0, [])
         == Scanned(ClassText(negated, Bounds(items)), rest)
  {
    hide ScanClass, Bounds, ShowItems;
    var body := ShowItems(items) + "]" + rest;
    if negated {
      assert "^" + ShowItems(items) + "]" + rest == "^" + body;
      NegationScanned(body);
      ItemsScanned(items, rest, true, false, 0, []);
    } else {
      assert "" + ShowItems(items) + "]" + rest == body;
      ItemsScanned(items, rest, false, true, 0, []);
    }
    assert [] + Bounds(items) == Bounds(items);
  }

  // ---- the configuration that parsing a tree leads to ----

  function AfterAtom(a: Atom, c: Config): Config
    requires c.atoms != []
  {
    var base := |c.ranges|;
    Implicit(c.(operands := c.operands + [LowerAtom(a, base)], ranges := c.ranges + AtomRanges(a, base),
                anchorBegin := c.anchorBegin || AtomMarked(a, Caret), anchorEnd := c.anchorEnd || AtomMarked(a, Dollar)))
  }

  function AfterPiece(p: Piece, c: Config): Config
    requires c.atoms != []
  {
    var base := |c.ranges|;
    Implicit(c.(operands := c.operands + [LowerPiece(p, base)], ranges := c.ranges + PieceRanges(p, base),
                anchorBegin := c.anchorBegin || PieceMarked(p, Caret), anchorEnd := c.anchorEnd || PieceMarked(p, Dollar)))
  }

  function AfterBranch(b: Branch, c: Config): (d: Config)
    requires c.atoms != []
    ensures d.atoms != []
  {
    match b
    case Last(p) => AfterPiece(p, c)
    case Then(p, rest) => AfterBranch(rest, AfterPiece(p, c))
  }

  /** The configuration after the bar that ends branch `b`. */
  function AfterBar(b: Branch, c: Config): Config
    requires c.atoms != []
  {
    var base := |c.ranges|;
    c.(operands := c.operands + [LowerBranch(b, base)], operators := c.operators + [Alternation],
       atoms := c.atoms[..|c.atoms| - 1] + [0], ranges := c.ranges + BranchRanges(b, base),
       anchorBegin := c.anchorBegin || BranchMarked(b, Caret), anchorEnd := c.anchorEnd || BranchMarked(b, Dollar))
  }

  function AfterPattern(p: Pattern, c: Config): (d: Config)
    requires c.atoms != []
    ensures d.atoms != []
  {
    match p
    case One(b) => AfterBranch(b, c)
    case Either(b, rest) => AfterPattern(rest, AfterBar(b, c))
  }

  // ---- the pending operators fold to the tree ----

  /** The operators once an atom has been pushed. */
  function Joined(c: Config): seq<Operator>
    requires c.atoms != []
  {
    if c.atoms[|c.atoms| - 1] > 0 then c.operators + [Concatenation] else c.operators
  }

  /** One pending binary operator on top is applied to the two top operands. */
  lemma {:induction false} FoldOne(below: seq<Expr>, x: Expr, y: Expr, operators: seq<Operator>, op: Operator, stops: set<Operator>)
    requires op !in stops && (op == Concatenation || op == Alternation)
    ensures Reduce(below + [x] + [y], operators + [op], stops)
         == Reduce(below + [if op == Concatenation then Cat(x, y) else Alt(x, y)], operators, stops)
  {
    var operands := below + [x] + [y];
    var m := |operands|;
    assert (operators + [op])[..|operators|] == operators;
    assert operands[..m - 2] == below && operands[m - 2] == x && operands[m - 1] == y;
  }

  lemma {:induction false} PieceAdds(p: Piece, c: Config)
    requires c.atoms != []
    ensures var d := AfterPiece(p, c);
            && d.operands == c.operands + [LowerPiece(p, |c.ranges|)] && d.operators == Joined(c)
            && |d.ranges| == |c.ranges| + |PieceRanges(p, |c.ranges|)|
            && d.atoms != [] && Joined(d) == Joined(c) + [Concatenation]
  {
  }

  /** The operands and operators that a branch leaves behind reduce to its one expression. */
  lemma {:induction false} BranchFolds(b: Branch, c: Config, stops: set<Operator>)
    requires c.atoms != [] && Concatenation !in stops
    ensures Reduce(AfterBranch(b, c).operands, AfterBranch(b, c).operators, stops)
         == Reduce(c.operands + [LowerBranch(b, |c.ranges|)], Joined(c), stops)
  {
    hide Reduce, AfterPiece, LowerPiece, PieceRanges, BranchRanges, Joined;
    match b
    case Last(p) => PieceAdds(p, c);
    case Then(p, rest) =>
      var e := AfterPiece(p, c);
      PieceAdds(p, c);
      BranchFolds(rest, e, stops);
      FoldOne(c.operands, LowerPiece(p, |c.ranges|), LowerBranch(rest, |e.ranges|), Joined(c), Concatenation, stops);
  }

  lemma {:induction false} BranchOthers(b: Branch, c: Config)
    requires c.atoms != []
    ensures var d := AfterBranch(b, c);
            && d.ranges == c.ranges + BranchRanges(b, |c.ranges|)
            && |d.atoms| == |c.atoms| && d.atoms[..|c.atoms| - 1] == c.atoms[..|c.atoms| - 1]
            && d.anchorBegin == (c.anchorBegin || BranchMarked(b, Caret))
            && d.anchorEnd == (c.anchorEnd || BranchMarked(b, Dollar))
  {
    match b
    case Last(_) =>
    case Then(p, rest) =>
      var e := AfterPiece(p, c);
      BranchOthers(rest, e);
      assert c.ranges + BranchRanges(b, |c.ranges|) == e.ranges + BranchRanges(rest, |e.ranges|);
  }

  /** What a pattern leaves behind reduces to its one expression. */
  lemma {:induction false} PatternFolds(p: Pattern, c: Config, stops: set<Operator>)
    requires c.atoms != [] && c.atoms[|c.atoms| - 1] == 0
    requires Concatenation !in stops && Alternation !in stops
    ensures Reduce(AfterPattern(p, c).operands, AfterPattern(p, c).operators, stops)
         == Reduce(c.operands + [LowerPattern(p, |c.ranges|)], c.operators, stops)
  {
    hide Reduce, AfterBar, AfterBranch, LowerBranch, BranchRanges, PatternRanges;
    match p
    case One(b) => BranchFolds(b, c, stops);
    case Either(b, rest) =>
      var e := AfterBar(b, c);
      BarAdds(b, c);
      PatternFolds(rest, e, stops);
      FoldOne(c.operands, LowerBranch(b, |c.ranges|), LowerPattern(rest, |e.ranges|), c.operators, Alternation, stops);
  }

  lemma {:induction false} BarAdds(b: Branch, c: Config)
    requires c.atoms != []
    ensures var d := AfterBar(b, c);
            && d.operands == c.operands + [LowerBranch(b, |c.ranges|)] && d.operators == c.operators + [Alternation]
            && |d.ranges| == |c.ranges| + |BranchRanges(b, |c.ranges|)|
            && d.atoms != [] && d.atoms[|d.atoms| - 1] == 0
  {
  }

  lemma {:induction false} PatternOthers(p: Pattern, c: Config)
    requires c.atoms != []
    ensures var d := AfterPattern(p, c);
            && d.ranges == c.ranges + PatternRanges(p, |c.ranges|)
            && |d.atoms| == |c.atoms| && d.atoms[..|c.atoms| - 1] == c.atoms[..|c.atoms| - 1]
            && d.anchorBegin == (c.anchorBegin || Marked(p, Caret)) && d.anchorEnd == (c.anchorEnd || Marked(p, Dollar))
  {
    match p
    case One(b) => BranchOthers(b, c);
    case Either(b, rest) =>
      var e := AfterBar(b, c);
      PatternOthers(rest, e);
      assert c.ranges + PatternRanges(p, |c.ranges|) == e.ranges + PatternRanges(rest, |e.ranges|);
  }

  // ---- running the parser over a written tree ----

  /** The text `shown` in front of any rest takes the parser from `c` to `d`. */
  ghost predicate Leads(shown: string, c: Config, d: Config) {
    Balanced(c) && Balanced(d) && forall rest :: Continues(shown, c, d, rest)
  }

  ghost predicate Continues(shown: string, c: Config, d: Config, rest: string)
    requires Balanced(c) && Balanced(d)
  {
    Run(shown + rest, c) == Run(rest, d)
  }

  lemma {:induction false} LeadsThen(s: string, t: string, c: Config, d: Config, e: Config)
    requires Leads(s, c, d) && Leads(t, d, e)
    ensures Leads(s + t, c, e)
  {
    forall rest ensures Continues(s + t, c, e, rest) {
      assert s + t + rest == s + (t + rest);
      assert Continues(s, c, d, t + rest) && Continues(t, d, e, rest);
    }
  }

  /** One step of the parser that consumes exactly `shown`, whatever follows. */
  lemma {:induction false} LeadsByStep(shown: string, c: Config, d: Config)
    requires Balanced(c) && shown != [] && shown[0] != '\0'
    requires forall rest :: Steps(shown, c, d, rest)
    ensures Leads(shown, c, d)
  {
    assert Steps(shown, c, d, "");
    StepAdvances(shown + "", c);
    forall rest ensures Continues(shown, c, d, rest) {
      assert Steps(shown, c, d, rest);
    }
  }

  ghost predicate Steps(shown: string, c: Config, d: Config, rest: string)
    requires shown != [] && c.atoms != []
  {
    Step(shown + rest, c) == Next(rest, d)
  }

  lemma {:induction false} AtomLeads(a: Atom, c: Config)
    requires AtomOk(a) && Balanced(c)
    ensures Leads(ShowAtom(a), c, AfterAtom(a, c))
    decreases a, 0
  {
    match a
    case Plain(ch) => SymLeads([ch], c, Literal(ch));
    case Escaped(ch) => EscapedLeads(ch, c);
    case Dot => SymLeads(".", c, AnyChar);
    case Class(negated, items) => ClassLeads(negated, items, c);
    case Group(p) => GroupLeads(p, c);
  }

  lemma {:induction false} SymLeads(shown: string, c: Config, lab: Label)
    requires Balanced(c) && |shown| == 1
    requires (shown == "." && lab == AnyChar) || (shown[0] !in SPECIAL && shown[0] != '\0' && lab == Literal(shown[0]))
    ensures Leads(shown, c, Implicit(c.(operands := c.operands + [Sym(lab)], ranges := c.ranges + [])))
  {
    var d := Implicit(c.(operands := c.operands + [Sym(lab)], ranges := c.ranges + []));
    assert c.ranges + [] == c.ranges;
    forall rest ensures Steps(shown, c, d, rest) { assert (shown + rest)[1..] == rest; }
    LeadsByStep(shown, c, d);
  }

  lemma {:induction false} EscapedLeads(ch: char, c: Config)
    requires Balanced(c) && EscapeValue(ch).Just?
    ensures Leads(ShowAtom(Escaped(ch)), c, AfterAtom(Escaped(ch), c))
  {
    var shown, d := ['\\', ch], AfterAtom(Escaped(ch), c);
    assert c.ranges + [] == c.ranges;
    forall rest ensures Steps(shown, c, d, rest) {
      assert Peek((shown + rest)[1..]) == ch && (shown + rest)[2..] == rest;
      assert Step(shown + rest, c) == EscapeStep(shown + rest, c);
    }
    LeadsByStep(shown, c, d);
  }

  lemma {:induction false} ClassLeads(negated: bool, items: seq<Item>, c: Config)
    requires Balanced(c) && AtomOk(Class(negated, items))
    ensures Leads(ShowAtom(Class(negated, items)), c, AfterAtom(Class(negated, items), c))
  {
    var a := Class(negated, items);
    var shown, d := ShowAtom(a), AfterAtom(a, c);
    forall rest ensures Steps(shown, c, d, rest) { ClassStepIs(negated, items, c, rest); }
    LeadsByStep(shown, c, d);
  }

  lemma {:induction false} ClassStepIs(negated: bool, items: seq<Item>, c: Config, rest: string)
    requires c.atoms != [] && AtomOk(Class(negated, items))
    ensures Step(ShowAtom(Class(negated, items)) + rest, c) == Next(rest, AfterAtom(Class(negated, items), c))
  {
    var text := ShowAtom(Class(negated, items)) + rest;
    ClassScanned(negated, items, rest);
    ClassTail(if negated then "^" else "", ShowItems(items), rest);
    ClassStepFrom(text, c, ClassText(negated, Bounds(items)), rest);
  }

  lemma {:induction false} ClassTail(mark: string, items: string, rest: string)
    ensures Peek("[" + mark + items + "]" + rest) == '['
    ensures ("[" + mark + items + "]" + rest)[1..] == mark + items + "]" + rest
  {
  }

  lemma {:induction false} ClassStepFrom(text: string, c: Config, k: ClassText, rest: string)
    requires c.atoms != [] && Peek(text) == '[' && ScanClass(text[1..], true, false, 0, []) == Scanned(k, rest)
    ensures var base := |c.ranges|;
            Step(text, c)
            == Next(rest, PushSym(c.(ranges := c.ranges + LinkedRanges(k.bounds, base, k.negated)), InRanges(base)))
  {
    assert Step(text, c) == ClassStep(text, c);
  }

  lemma {:induction false} GroupLeads(p: Pattern, c: Config)
    requires PatternOk(p) && Balanced(c)
    ensures Leads("(" + ShowPattern(p) + ")", c, AfterAtom(Group(p), c))
    decreases p, 2
  {
    var inner := Opened(c);
    var end := AfterPattern(p, inner);
    var d := AfterAtom(Group(p), c);
    OpenLeads(c);
    PatternLeads(p, inner);
    LeadsThen("(", ShowPattern(p), c, inner, end);
    forall rest ensures Steps(")", end, d, rest) { CloseStepIs(p, c, rest); }
    LeadsByStep(")", end, d);
    LeadsThen("(" + ShowPattern(p), ")", c, end, d);
  }

  lemma {:induction false} CloseStepIs(p: Pattern, c: Config, rest: string)
    requires c.atoms != []
    ensures Step(")" + rest, AfterPattern(p, Opened(c))) == Next(rest, AfterAtom(Group(p), c))
  {
    var inner := Opened(c);
    var end := AfterPattern(p, inner);
    PatternFolds(p, inner, CLOSE_STOPS);
    PatternOthers(p, inner);
    assert inner.operators[..|inner.operators| - 1] == c.operators;
    assert end.atoms[..|end.atoms| - 1] == inner.atoms[..|inner.atoms| - 1] == c.atoms;
    CloseStepFrom(")" + rest, end, c.operands + [LowerPattern(p, |c.ranges|)], inner.operators);
    assert (")" + rest)[1..] == rest;
  }

  lemma {:induction false} CloseStepFrom(text: string, d: Config, es: seq<Expr>, ops: seq<Operator>)
    requires Peek(text) == ')' && |d.atoms| >= 2 && ops != [] && Reduce(d.operands, d.operators, CLOSE_STOPS) == Reduced(es, ops)
    ensures Step(text, d)
         == Next(text[1..], Implicit(d.(operands := es, operators := ops[..|ops| - 1], atoms := d.atoms[..|d.atoms| - 1])))
  {
    assert Step(text, d) == CloseStep(text, d);
  }

  function Anchored(c: Config, mark: Mark): Config {
    if mark.Caret? then c.(anchorBegin := true) else c.(anchorEnd := true)
  }

  lemma {:induction false} MarkLeads(mark: Mark, c: Config)
    requires Balanced(c)
    ensures Leads(ShowMark(mark), c, Anchored(c, mark))
  {
    var shown := ShowMark(mark);
    forall rest ensures Steps(shown, c, Anchored(c, mark), rest) { assert (shown + rest)[1..] == rest; }
    LeadsByStep(shown, c, Anchored(c, mark));
  }

  lemma {:induction false} PieceLeads(p: Piece, c: Config)
    requires PieceOk(p) && Balanced(c)
    ensures Leads(ShowPiece(p), c, AfterPiece(p, c))
    decreases p, 0
  {
    hide AfterPiece, Anchored, PieceMarked;
    match p
    case Bare(a) => AtomLeads(a, c); BareIs(a, c);
    case Quantified(q, quant) =>
      PieceLeads(q, c);
      QuantLeads(q, quant, c);
      LeadsThen(ShowPiece(q), ShowQuant(quant), c, AfterPiece(q, c), AfterPiece(p, c));
    case Preceded(mark, q) =>
      MarkLeads(mark, c);
      PieceLeads(q, Anchored(c, mark));
      PrecededIs(mark, q, c);
      LeadsThen(ShowMark(mark), ShowPiece(q), c, Anchored(c, mark), AfterPiece(p, c));
    case Followed(q, mark) =>
      PieceLeads(q, c);
      MarkLeads(mark, AfterPiece(q, c));
      FollowedIs(q, mark, c);
      LeadsThen(ShowPiece(q), ShowMark(mark), c, AfterPiece(q, c), AfterPiece(p, c));
  }

  lemma {:induction false} BareIs(a: Atom, c: Config)
    requires c.atoms != []
    ensures AfterPiece(Bare(a), c) == AfterAtom(a, c)
  {
  }

  lemma {:induction false} PrecededIs(mark: Mark, q: Piece, c: Config)
    requires c.atoms != []
    ensures AfterPiece(q, Anchored(c, mark)) == AfterPiece(Preceded(mark, q), c)
  {
  }

  lemma {:induction false} FollowedIs(q: Piece, mark: Mark, c: Config)
    requires c.atoms != []
    ensures Anchored(AfterPiece(q, c), mark) == AfterPiece(Followed(q, mark), c)
  {
  }

  lemma {:induction false} QuantLeads(q: Piece, quant: Quant, c: Config)
    requires PieceOk(q) && QuantOk(quant) && Balanced(c) && Balanced(AfterPiece(q, c))
    ensures Leads(ShowQuant(quant), AfterPiece(q, c), AfterPiece(Quantified(q, quant), c))
  {
    var d, e := AfterPiece(q, c), AfterPiece(Quantified(q, quant), c);
    var shown := ShowQuant(quant);
    var k := |d.operands|;
    assert d.operands[..k - 1] == c.operands;
    assert e == d.(operands := c.operands + [LowerQuant(LowerPiece(q, |c.ranges|), quant)]);
    forall rest ensures Steps(shown, d, e, rest) { QuantStepIs(quant, d, rest); }
    LeadsByStep(shown, d, e);
  }

  lemma {:induction false} QuantStepIs(quant: Quant, d: Config, rest: string)
    requires QuantOk(quant) && d.atoms != [] && d.operands != []
    ensures var k := |d.operands| - 1;
            Step(ShowQuant(quant) + rest, d)
            == Next(rest, d.(operands := d.operands[..k] + [LowerQuant(d.operands[k], quant)]))
  {
    var text := ShowQuant(quant) + rest;
    if quant.Optional? || quant.Many? || quant.Some? {
      assert text[1..] == rest;
    } else {
      BoundsScanned(quant, rest);
      assert ("}" + rest)[1..] == rest;
      assert Step(text, d) == BraceStep(text, d);
    }
  }

  /** The largest bound that a quantifier can express stands for none. */
  function MostOrInfinity(quant: Quant): nat {
    if Most(quant).UpTo? then Most(quant).n else INFINITY
  }

  lemma {:induction false} BoundsScanned(quant: Quant, rest: string)
    requires QuantOk(quant) && !quant.Optional? && !quant.Many? && !quant.Some?
    ensures ScanBounds((ShowQuant(quant) + rest)[1..]) == Scanned((Least(quant), MostOrInfinity(quant)), "}" + rest)
  {
    var shown := ShowQuant(quant);
    match quant
    case Exactly(n) =>
      assert (shown + rest)[1..] == n + ("}" + rest);
      NumeralScanned(n, "}" + rest);
    case AtLeast(n) =>
      assert (shown + rest)[1..] == n + (",}" + rest) && (",}" + rest)[1..] == "}" + rest;
      NumeralScanned(n, ",}" + rest);
    case Between(n, m) =>
      var tail := m + ("}" + rest);
      assert (shown + rest)[1..] == n + ("," + tail) && ("," + tail)[1..] == tail;
      NumeralScanned(n, "," + tail);
      NumeralScanned(m, "}" + rest);
      assert IsDigit(Peek(tail));
  }

  lemma {:induction false} BranchLeads(b: Branch, c: Config)
    requires BranchOk(b) && Balanced(c)
    ensures Leads(ShowBranch(b), c, AfterBranch(b, c))
    decreases b, 0
  {
    match b
    case Last(p) => PieceLeads(p, c);
    case Then(p, rest) =>
      PieceLeads(p, c);
      BranchLeads(rest, AfterPiece(p, c));
      LeadsThen(ShowPiece(p), ShowBranch(rest), c, AfterPiece(p, c), AfterBranch(b, c));
  }

  lemma {:induction false} PatternLeads(p: Pattern, c: Config)
    requires PatternOk(p) && AtBranch(c)
    ensures Leads(ShowPattern(p), c, AfterPattern(p, c))
    decreases p, 1
  {
    match p
    case One(b) => BranchLeads(b, c);
    case Either(b, rest) =>
      var d, e := AfterBranch(b, c), AfterBar(b, c);
      BranchLeads(b, c);
      BarLeads(b, c);
      LeadsThen(ShowBranch(b), "|", c, d, e);
      PatternLeads(rest, e);
      LeadsThen(ShowBranch(b) + "|", ShowPattern(rest), c, e, AfterPattern(p, c));
  }

  lemma {:induction false} BarLeads(b: Branch, c: Config)
    requires AtBranch(c) && Balanced(AfterBranch(b, c))
    ensures Leads("|", AfterBranch(b, c), AfterBar(b, c))
  {
    var d, e := AfterBranch(b, c), AfterBar(b, c);
    forall tail ensures Steps("|", d, e, tail) { BarStepIs(b, c, tail); }
    LeadsByStep("|", d, e);
  }

  lemma {:induction false} BarStepIs(b: Branch, c: Config, tail: string)
    requires c.atoms != [] && c.atoms[|c.atoms| - 1] == 0
    requires c.operators == [] || c.operators[|c.operators| - 1] in BAR_STOPS
    ensures Step("|" + tail, AfterBranch(b, c)) == Next(tail, AfterBar(b, c))
  {
    var d, text := AfterBranch(b, c), "|" + tail;
    BranchFolds(b, c, BAR_STOPS);
    BranchOthers(b, c);
    assert text[1..] == tail;
    assert Step(text, d) == BarStep(text, d);
  }

  // ---- whole patterns ----

  /** Parsing a written pattern yields the expression and the classes of its syntax tree, and whether it is anchored. */
  lemma {:induction false} PatternCompiles(p: Pattern)
    requires PatternOk(p)
    ensures Run(ShowPattern(p), INITIAL)
         == Compiled(LowerPattern(p, 0), PatternRanges(p, 0), Marked(p, Caret), Marked(p, Dollar))
  {
    PatternLeads(p, INITIAL);
    assert Continues(ShowPattern(p), INITIAL, AfterPattern(p, INITIAL), "");
    assert ShowPattern(p) + "" == ShowPattern(p);
    PatternOthers(p, INITIAL);
    PatternFolds(p, INITIAL, {});
    assert [] + [LowerPattern(p, 0)] == [LowerPattern(p, 0)] && [] + PatternRanges(p, 0) == PatternRanges(p, 0);
  }

  // ---- quantifiers that stand where nothing precedes them ----

  /** A branch begins here: at the start, behind a bar or behind an opening parenthesis. */
  predicate AtBranch(c: Config) {
    && Balanced(c) && c.atoms[|c.atoms| - 1] == 0
    && (c.operators == [] || c.operators[|c.operators| - 1] in BAR_STOPS)
  }

  function Starred(b: Branch, quant: Quant): Branch {
    Last(Quantified(Bare(Group(One(b))), quant))
  }

  lemma {:induction false} StarredIs(b: Branch, quant: Quant, base: nat)
    requires BranchOk(b) && QuantOk(quant)
    ensures BranchOk(Starred(b, quant)) && ShowBranch(Starred(b, quant)) == "(" + ShowBranch(b) + ")" + ShowQuant(quant)
    ensures LowerBranch(Starred(b, quant), base) == LowerQuant(LowerBranch(b, base), quant)
    ensures BranchRanges(Starred(b, quant), base) == BranchRanges(b, base)
    ensures forall mark :: BranchMarked(Starred(b, quant), mark) == BranchMarked(b, mark)
  {
    var group := Bare(Group(One(b)));
    assert PatternOk(One(b)) && PieceOk(group);
    assert ShowPiece(group) == ShowAtom(Group(One(b))) == "(" + ShowPattern(One(b)) + ")";
    assert LowerPiece(group, base) == LowerPattern(One(b), base) == LowerBranch(b, base);
    assert PieceRanges(group, base) == PatternRanges(One(b), base) == BranchRanges(b, base);
    forall mark ensures PieceMarked(group, mark) == BranchMarked(b, mark) { assert Marked(One(b), mark) == BranchMarked(b, mark); }
  }

  lemma {:induction false} StrayLeads(b: Branch, quant: Quant, c: Config)
    requires BranchOk(b) && QuantOk(quant) && AtBranch(c)
    ensures Leads(ShowBranch(b) + "|" + ShowQuant(quant), c, AfterBar(Starred(b, quant), c))
  {
    var d, e, shown := AfterBar(b, c), AfterBar(Starred(b, quant), c), ShowQuant(quant);
    StarredIs(b, quant, |c.ranges|);
    BranchLeads(b, c);
    BarLeads(b, c);
    LeadsThen(ShowBranch(b), "|", c, AfterBranch(b, c), d);
    var k := |d.operands| - 1;
    assert d.operands[..k] == c.operands && d.operands[k] == LowerBranch(b, |c.ranges|);
    forall rest ensures Steps(shown, d, e, rest) { QuantStepIs(quant, d, rest); }
    LeadsByStep(shown, d, e);
    LeadsThen(ShowBranch(b) + "|", shown, c, d, e);
  }

  /** A quantifier behind a bar, wherever a branch may begin, counts for the whole branch in front of the bar. */
  lemma {:induction false} QuantifierAfterBar(b: Branch, quant: Quant, c: Config, rest: string)
    requires BranchOk(b) && QuantOk(quant) && AtBranch(c)
    ensures Run(ShowBranch(b) + "|" + ShowQuant(quant) + rest, c)
         == Run("(" + ShowBranch(b) + ")" + ShowQuant(quant) + "|" + rest, c)
  {
    var starred := Starred(b, quant);
    StarredIs(b, quant, |c.ranges|);
    StrayLeads(b, quant, c);
    BranchLeads(starred, c);
    BarLeads(starred, c);
    LeadsThen(ShowBranch(starred), "|", c, AfterBranch(starred, c), AfterBar(starred, c));
    assert Continues(ShowBranch(b) + "|" + ShowQuant(quant), c, AfterBar(starred, c), rest);
    assert Continues(ShowBranch(starred) + "|", c, AfterBar(starred, c), rest);
  }

  /** The quantifier applied to the operand on top. */
  function Requantified(quant: Quant, c: Config): Config
    requires c.operands != []
  {
    var k := |c.operands| - 1;
    c.(operands := c.operands[..k] + [LowerQuant(c.operands[k], quant)])
  }

  lemma {:induction false} RequantifiedLeads(quant: Quant, c: Config)
    requires QuantOk(quant) && Balanced(c) && c.operands != []
    ensures Leads(ShowQuant(quant), c, Requantified(quant, c))
  {
    hide Step, LowerQuant;
    forall tail ensures Steps(ShowQuant(quant), c, Requantified(quant, c), tail) { QuantStepIs(quant, c, tail); }
    LeadsByStep(ShowQuant(quant), c, Requantified(quant, c));
  }

  /** A quantifier behind an opening parenthesis counts as if in front of it, for whatever operand is there. */
  lemma {:induction false} QuantifierAfterParenthesis(quant: Quant, c: Config, rest: string)
    requires QuantOk(quant) && Balanced(c) && c.operands != []
    ensures Run("(" + ShowQuant(quant) + rest, c) == Run(ShowQuant(quant) + "(" + rest, c)
  {
    hide Run, Step, LowerQuant, ShowQuant, Continues;
    var shown, starred := ShowQuant(quant), Requantified(quant, c);
    assert Requantified(quant, Opened(c)) == Opened(starred);
    OpenLeads(c);
    RequantifiedLeads(quant, Opened(c));
    LeadsThen("(", shown, c, Opened(c), Opened(starred));
    RequantifiedLeads(quant, c);
    OpenLeads(starred);
    LeadsThen(shown, "(", c, starred, Opened(starred));
    Onward("(" + shown, c, Opened(starred), rest);
    Onward(shown + "(", c, Opened(starred), rest);
  }

  function Opened(c: Config): Config {
    c.(operators := c.operators + [LeftParenthesis], atoms := c.atoms + [0])
  }

  lemma {:induction false} OpenLeads(c: Config)
    requires Balanced(c)
    ensures Leads("(", c, Opened(c))
  {
    forall rest ensures Steps("(", c, Opened(c), rest) { assert ("(" + rest)[1..] == rest; }
    LeadsByStep("(", c, Opened(c));
  }

  lemma {:induction false} FirstBar(ch: char)
    requires ch !in SPECIAL && ch != '\0'
    ensures var c := AfterBar(Last(Bare(Plain(ch))), INITIAL);
            Leads([ch] + "|", INITIAL, c) && AtBranch(c)
  {
    hide Run, Step, Reduce;
    var a := Last(Bare(Plain(ch)));
    OneLetter(ch);
    BranchLeads(a, INITIAL);
    BarLeads(a, INITIAL);
    LeadsThen([ch], "|", INITIAL, AfterBranch(a, INITIAL), AfterBar(a, INITIAL));
  }

  /** For example `a|b|*c` compiles as `a|(b)*|c`. */
  lemma {:induction false} MisplacedAfterBar()
    ensures Run("a|b|*c", INITIAL) == Run("a|(b)*|c", INITIAL)
  {
    hide Run, Step, Reduce, AfterBar, AfterBranch, Leads, Balanced, ShowBranch;
    var b, c := Last(Bare(Plain('b'))), AfterBar(Last(Bare(Plain('a'))), INITIAL);
    OneLetter('b');
    FirstBar('a');
    QuantifierAfterBar(b, Many, c, "c");
    MisplacedTexts();
    Onward("a|", INITIAL, c, "b|*c");
    Onward("a|", INITIAL, c, "(b)*|c");
  }

  lemma {:induction false} MisplacedTexts()
    ensures "a" + "|" == "a|" && "b" + "|" + "*" + "c" == "b|*c" && "a|" + "b|*c" == "a|b|*c"
    ensures "(" + "b" + ")" + "*" + "|" + "c" == "(b)*|c" && "a|" + "(b)*|c" == "a|(b)*|c"
  {
    assert "(" + "b" == "(b" && "(b" + ")" == "(b)" && "(b)" + "*" == "(b)*" && "(b)*" + "|" == "(b)*|";
  }

  /** And `b(*a)` compiles as `b*(a)`. */
  lemma {:induction false} MisplacedAfterParenthesis()
    ensures Run("b(*a)", INITIAL) == Run("b*(a)", INITIAL)
  {
    hide Run, Step, AfterPiece;
    var b := Last(Bare(Plain('b')));
    var d := AfterBranch(b, INITIAL);
    OneLetter('b');
    BranchLeads(b, INITIAL);
    PieceAdds(Bare(Plain('b')), INITIAL);
    QuantifierAfterParenthesis(Many, d, "a)");
    Onward("b", INITIAL, d, "(*a)");
    Onward("b", INITIAL, d, "*(a)");
    assert "(" + "*" + "a)" == "(*a)" && "*" + "(" + "a)" == "*(a)";
    assert "b" + "(*a)" == "b(*a)" && "b" + "*(a)" == "b*(a)";
  }

  lemma {:induction false} OneLetter(ch: char)
    requires ch !in SPECIAL && ch != '\0'
    ensures BranchOk(Last(Bare(Plain(ch)))) && ShowBranch(Last(Bare(Plain(ch)))) == [ch]
  {
    assert ShowPiece(Bare(Plain(ch))) == [ch];
  }

  lemma {:induction false} Onward(shown: string, c: Config, d: Config, rest: string)
    requires Leads(shown, c, d)
    ensures Run(shown + rest, c) == Run(rest, d)
  {
    assert Continues(shown, c, d, rest);
  }
}
