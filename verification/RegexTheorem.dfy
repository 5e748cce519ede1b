/**
 From pattern text to answers: compiling a text and running it decides the language it was compiled to, and for a written
 pattern that is its denotation.
 */
module RegexTheorem {
  import opened Text
  import opened RegexProgram
  import opened RegexLanguage
  import opened RegexSyntax
  import opened RegexMeaning
  import opened RegexStack
  import opened RegexParser
  import opened RegexAnchors
  import opened RegexRoundTrip
  import opened RegexCompiler
  import opened RegexSearch

  /** The automaton of an expression. */
  function AutomatonOf(e: Expr, ranges: seq<Range>): Automaton {
    Automaton(Program(e), ranges, Start(e, 0))
  }

  /** The automaton of a pattern. */
  function MachineOf(p: Pattern): Automaton {
    AutomatonOf(LowerPattern(p, 0), PatternRanges(p, 0))
  }

  // ---- whatever is compiled is fit to run ----

  lemma {:induction false} LinkedForward(ranges: seq<Range>, bs: seq<(int, int)>, negated: bool)
    requires Forward(ranges)
    ensures Forward(ranges + LinkedRanges(bs, |ranges|, negated))
  {
    var all := ranges + LinkedRanges(bs, |ranges|, negated);
    forall i | 0 <= i < |all| ensures all[i].next == NONE || i < all[i].next < |all| {
      if i < |ranges| {
        assert all[i] == ranges[i];
      } else {
        assert all[i] == LinkedRange(bs, |ranges|, negated, i - |ranges|);
      }
    }
  }

  /** The step keeps the links of the ranges forward. */
  ghost predicate KeepsForward(p: Progress) {
    p.Next? ==> Forward(p.config.ranges)
  }

  lemma {:induction false} StepForward(text: string, c: Config)
    requires text != [] && c.atoms != [] && Forward(c.ranges)
    ensures KeepsForward(Step(text, c))
  {
    hide Forward, Reduce, ScanBounds, ScanClass, EvalSpec, QuantifierSpec;
    if text[0] == '[' {
      assert Step(text, c) == ClassStep(text, c);
      var s := ScanClass(text[1..], true, false, 0, []);
      if s.Scanned? { LinkedForward(c.ranges, s.value.bounds, s.value.negated); }
    }
  }

  lemma {:induction false} RunForward(text: string, c: Config)
    requires Balanced(c) && Forward(c.ranges)
    ensures Run(text, c).Compiled? ==> Forward(Run(text, c).ranges)
    ensures Run(text, c).NotCompiled? ==> Run(text, c).verdict != Ok
    decreases |text|
  {
    if text == [] || text[0] == '\0' {
      ReduceFails(c.operands, c.operators, {});
    } else {
      StepAdvances(text, c);
      StepForward(text, c);
      var s := Step(text, c);
      if s.Next? { RunForward(s.rest, s.config); }
    }
  }

  lemma {:induction false} WiredLeadsOn(e: Expr, lo: nat, k: nat, x: nat)
    ensures Wired(e, lo, k, x).out != NONE
  {
    match e
    case Sym(_) =>
    case Cat(a, b) =>
      var mid := lo + Size(a);
      if x < mid { WiredLeadsOn(a, lo, Start(b, mid), x); } else { WiredLeadsOn(b, mid, k, x); }
    case Alt(a, b) =>
      var mid := lo + Size(a);
      if x < mid { WiredLeadsOn(a, lo, k, x); } else if x < mid + Size(b) { WiredLeadsOn(b, mid, k, x); }
    case Rep(a, kind) =>
      if x < lo + Size(a) { WiredLeadsOn(a, lo, if kind.ZeroOrOne? then k else lo + Size(a), x); }
  }

  /** A compiled automaton meets everything the simulation demands of one. */
  lemma {:induction false} MachineFit(e: Expr, ranges: seq<Range>)
    requires Safe(e)
    ensures var m := AutomatonOf(e, ranges);
            && Ranked(m.states, ProgramRank(e)) && m.root < |m.states|
            && forall i | 0 <= i < |m.states| :: m.states[i].out == NONE ==> m.states[i].lab == Epsilon
  {
    SafeProgramRanked(e);
    StartInside(e, 0);
    forall i | 0 <= i < Size(e) ensures Program(e)[i].out != NONE {
      WiredLeadsOn(e, 0, Size(e), i);
    }
  }

  /** Some path of the compiled graph accepts a string exactly if the pattern denotes it, whatever its quantifiers. */
  lemma {:induction false} MachineAccepts(p: Pattern, w: string)
    requires PatternOk(p)
    ensures Follows(MachineOf(p), MachineOf(p).root, w) <==> PatternMatches(p, w)
  {
    ProgramAccepts(LowerPattern(p, 0), PatternRanges(p, 0), w);
    PatternMeans(p, 0, PatternRanges(p, 0), w);
  }

  /** Where the simulation can follow the splits, its acceptance is the language of the expression. */
  lemma {:induction false} RootMeans(e: Expr, ranges: seq<Range>, w: string)
    requires Safe(e)
    ensures RootAccepts(AutomatonOf(e, ranges), ProgramRank(e), w) <==> InLang(ranges, e, w)
  {
    MachineFit(e, ranges);
    ProgramAccepts(e, ranges, w);
    RankedFollows(AutomatonOf(e, ranges), ProgramRank(e), Start(e, 0), w);
  }

  /** The compiled graph of a pattern has no epsilon cycle if and only if no unbounded quantifier applies to a nullable piece. */
  lemma {:induction false} PatternAcyclicIff(p: Pattern)
    requires PatternOk(p)
    ensures (exists rank: seq<nat> :: Ranked(MachineOf(p).states, rank)) <==> LoopsOk(p)
  {
    var e := LowerPattern(p, 0);
    var states := MachineOf(p).states;
    PatternShape(p, 0);
    AcyclicIffSafe(e);
    assert states == Program(e);
    if rank: seq<nat> :| Ranked(states, rank) { assert Ranked(Program(e), rank); }
    if rank: seq<nat> :| Ranked(Program(e), rank) { assert Ranked(states, rank); }
  }

  function StarOfA(): Piece {
    Quantified(Bare(Plain('a')), Many)
  }

  /** A star of a star, `(a*)*`. */
  function NestedStar(): Pattern {
    One(Last(Quantified(Bare(Group(One(Last(StarOfA())))), Many)))
  }

  lemma {:induction false} NestedStarText()
    ensures ShowPattern(NestedStar()) == "(a*)*"
  {
    var group := Bare(Group(One(Last(StarOfA()))));
    assert ShowPattern(One(Last(StarOfA()))) == ShowPiece(StarOfA()) == "a*";
    assert ShowPiece(group) == "(" + "a*" + ")";
    assert ShowPattern(NestedStar()) == ShowPiece(Quantified(group, Many)) == "(a*)" + "*";
    assert "(a*)" + "*" == "(a*)*";
  }

  lemma {:induction false} NestedStarLoops()
    ensures PatternOk(NestedStar()) && !LoopsOk(NestedStar())
  {
    var group := Bare(Group(One(Last(StarOfA()))));
    assert PieceOk(StarOfA()) && PieceNullable(StarOfA());
    assert PieceOk(group) && PieceNullable(group) && !PieceLoopsOk(Quantified(group, Many));
  }

  /** The smallest offending pattern has an epsilon cycle. */
  lemma {:induction false} NestedStarCycles()
    ensures ShowPattern(NestedStar()) == "(a*)*" && PatternOk(NestedStar())
    ensures !exists rank: seq<nat> :: Ranked(MachineOf(NestedStar()).states, rank)
  {
    NestedStarText();
    NestedStarLoops();
    PatternAcyclicIff(NestedStar());
  }

  // ---- what matching and searching report ----

  /** The strings a pattern denotes. */
  ghost function Words(p: Pattern): iset<string> {
    iset w: string | PatternMatches(p, w)
  }

  ghost function Language(ranges: seq<Range>, e: Expr): iset<string> {
    iset w: string | InLang(ranges, e, w)
  }

  lemma {:induction false} LanguageIs(p: Pattern)
    requires PatternOk(p)
    ensures Language(PatternRanges(p, 0), LowerPattern(p, 0)) == Words(p)
  {
    forall w: string ensures w in Language(PatternRanges(p, 0), LowerPattern(p, 0)) <==> w in Words(p) {
      PatternMeans(p, 0, PatternRanges(p, 0), w);
    }
  }

  lemma {:induction false} WholeMatch(m: Automaton, rank: seq<nat>, w: string)
    ensures Found(m, rank, w, true, true) <==> RootAccepts(m, rank, w)
  {
    if w != [] {
      assert w[0..|w|] == w;
      if RootAccepts(m, rank, w) { assert MatchEnding(m, rank, w, true, |w|); }
    }
  }

  /** The part of `w` from `i` to `j` is a match that respects the anchors. */
  ghost predicate MatchAt(words: iset<string>, w: string, anchorBegin: bool, anchorEnd: bool, i: int, j: int) {
    0 <= i <= j <= |w| && (anchorBegin ==> i == 0) && (anchorEnd ==> j == |w|) && w[i..j] in words
  }

  /** What a search is documented to report: some part of the text is a match. */
  ghost predicate HasMatch(words: iset<string>, w: string, anchorBegin: bool, anchorEnd: bool) {
    exists i, j :: MatchAt(words, w, anchorBegin, anchorEnd, i, j)
  }

  ghost predicate HasNonEmptyMatch(words: iset<string>, w: string, anchorBegin: bool, anchorEnd: bool) {
    exists i, j :: i < j && MatchAt(words, w, anchorBegin, anchorEnd, i, j)
  }

  /** What the simulation reports, in terms of the words. */
  ghost predicate Reports(words: iset<string>, w: string, anchorBegin: bool, anchorEnd: bool) {
    if w == [] then [] in words else HasNonEmptyMatch(words, w, anchorBegin, anchorEnd)
  }

  lemma {:induction false} FoundReports(e: Expr, ranges: seq<Range>, w: string, anchorBegin: bool, anchorEnd: bool)
    requires Safe(e)
    ensures Found(AutomatonOf(e, ranges), ProgramRank(e), w, anchorBegin, anchorEnd)
       <==> Reports(Language(ranges, e), w, anchorBegin, anchorEnd)
  {
    hide InLang, Accepts;
    var m, rank, words := AutomatonOf(e, ranges), ProgramRank(e), Language(ranges, e);
    forall v: string ensures RootAccepts(m, rank, v) <==> v in words {
      RootMeans(e, ranges, v);
    }
    if w != [] {
      if Found(m, rank, w, anchorBegin, anchorEnd) {
        var n :| 0 < n <= |w| && (anchorEnd ==> n == |w|) && MatchEnding(m, rank, w, anchorBegin, n);
        var i :| 0 <= i < n && (anchorBegin ==> i == 0) && RootAccepts(m, rank, w[i..n]);
        assert MatchAt(words, w, anchorBegin, anchorEnd, i, n);
      }
      if HasNonEmptyMatch(words, w, anchorBegin, anchorEnd) {
        var i, j :| i < j && MatchAt(words, w, anchorBegin, anchorEnd, i, j);
        assert RootAccepts(m, rank, w[i..j]);
        assert MatchEnding(m, rank, w, anchorBegin, j);
      }
    }
  }

  /** A search is right on every text if the pattern is not nullable, or is anchored on both sides, or the text is empty. */
  lemma {:induction false} SearchRight(p: Pattern, w: string, anchorBegin: bool, anchorEnd: bool)
    requires PatternOk(p)
    requires w == [] || (anchorBegin && anchorEnd) || !PatternNullable(p)
    ensures Reports(Words(p), w, anchorBegin, anchorEnd) <==> HasMatch(Words(p), w, anchorBegin, anchorEnd)
  {
    NullableMeans(p);
    if HasMatch(Words(p), w, anchorBegin, anchorEnd) {
      var i, j :| MatchAt(Words(p), w, anchorBegin, anchorEnd, i, j);
      if i == j { assert w[i..j] == []; }
    }
    if w == [] && PatternMatches(p, []) {
      assert w[0..0] == [];
      assert MatchAt(Words(p), w, anchorBegin, anchorEnd, 0, 0);
    }
  }

  /** Otherwise every text has an (empty) match, and the search is right exactly when there is a non-empty one as well. */
  lemma {:induction false} SearchOnNullable(p: Pattern, w: string, anchorBegin: bool, anchorEnd: bool)
    requires PatternOk(p) && PatternNullable(p) && w != [] && !(anchorBegin && anchorEnd)
    ensures HasMatch(Words(p), w, anchorBegin, anchorEnd)
    ensures (Reports(Words(p), w, anchorBegin, anchorEnd) <==> HasMatch(Words(p), w, anchorBegin, anchorEnd))
       <==> HasNonEmptyMatch(Words(p), w, anchorBegin, anchorEnd)
  {
    NullableMeans(p);
    var at := if anchorEnd then |w| else 0;
    assert w[at..at] == [];
    assert MatchAt(Words(p), w, anchorBegin, anchorEnd, at, at);
  }

  lemma {:induction false} NotOptional()
    ensures !PatternMatches(One(Last(Quantified(Bare(Plain('a')), Optional))), "b")
  {
    var piece := Bare(Plain('a'));
    var q := Quantified(piece, Optional);
    assert PatternMatches(One(Last(q)), "b") <==> BranchMatches(Last(q), "b");
    assert !PowerMatches(piece, 0, "b");
    forall i | 0 <= i <= 1 ensures !PieceMatches(piece, "b"[..i]) {
      if i == 1 { assert "b"[..i][0] == 'b'; }
    }
    assert !PowerMatches(piece, 1, "b");
  }

  /** Searching "b" for `a?` reports no match although the empty string matches. */
  lemma {:induction false} SearchMissesEmptyMatch()
    ensures var p := One(Last(Quantified(Bare(Plain('a')), Optional)));
            PatternOk(p) && LoopsOk(p) && HasMatch(Words(p), "b", false, false) && !Reports(Words(p), "b", false, false)
  {
    var piece := Bare(Plain('a'));
    var p := One(Last(Quantified(piece, Optional)));
    SearchOnNullable(p, "b", false, false);
    NotOptional();
    assert "b"[0..1] == "b";
    assert !HasNonEmptyMatch(Words(p), "b", false, false) by {
      hide PatternMatches;
    }
  }

  /** The part of `w` from `i` to `j` is a match, every anchor read at its own place. */
  ghost predicate PlacedAt(p: Pattern, w: string, i: int, j: int) {
    0 <= i <= j <= |w| && PatternAt(p, w, i, j)
  }

  ghost predicate HasPlacedMatch(p: Pattern, w: string) {
    exists i, j :: PlacedAt(p, w, i, j)
  }

  /** Some alternative matches the part from `i` to `j`, with its own anchors. */
  ghost predicate AlternativeAt(p: Pattern, w: string, i: int, j: int) {
    0 <= i <= j <= |w| && SomeHolds(p, w, i, j)
  }

  /** Anchors say where they stand what they say for the whole pattern, if all alternatives have them at their ends, or none. */
  lemma {:induction false} AnchorsPlaced(p: Pattern, w: string)
    requires Uniform(p, Caret) && Uniform(p, Dollar)
    ensures HasPlacedMatch(p, w) <==> HasMatch(Words(p), w, Marked(p, Caret), Marked(p, Dollar))
  {
    forall mark ensures Uniform(p, mark) { match mark case Caret => case Dollar => }
    forall i, j ensures PlacedAt(p, w, i, j) <==> MatchAt(Words(p), w, Marked(p, Caret), Marked(p, Dollar), i, j) {
      if 0 <= i <= j <= |w| { PatternAtIs(p, w, i, j); }
    }
  }

  /** If only some alternatives have an anchor at their end, a text is judged rightly if and only if wherever one of them
      matches with its own anchors, there is a match with the anchors of all. */
  lemma {:induction false} AnchorsPlacedIff(p: Pattern, w: string)
    requires Sided(p, Caret) && Sided(p, Dollar)
    ensures HasMatch(Words(p), w, Marked(p, Caret), Marked(p, Dollar)) ==> HasPlacedMatch(p, w)
    ensures (HasPlacedMatch(p, w) <==> HasMatch(Words(p), w, Marked(p, Caret), Marked(p, Dollar)))
       <==> forall i, j :: AlternativeAt(p, w, i, j) ==> HasMatch(Words(p), w, Marked(p, Caret), Marked(p, Dollar))
  {
    forall i, j ensures PlacedAt(p, w, i, j) <==> AlternativeAt(p, w, i, j) {
      if 0 <= i <= j <= |w| { SidedAtIs(p, w, i, j); }
    }
    forall i, j ensures MatchAt(Words(p), w, Marked(p, Caret), Marked(p, Dollar), i, j) ==> AlternativeAt(p, w, i, j) {
      if MatchAt(Words(p), w, Marked(p, Caret), Marked(p, Dollar), i, j) { HoldsThenSome(p, w, i, j); }
    }
  }

  /** A search is right, anchors included, if they are uniform and the text is empty, both are set, or the pattern not nullable. */
  lemma {:induction false} PlacedSearchRight(p: Pattern, w: string)
    requires PatternOk(p) && Uniform(p, Caret) && Uniform(p, Dollar)
    requires w == [] || (Marked(p, Caret) && Marked(p, Dollar)) || !PatternNullable(p)
    ensures Reports(Words(p), w, Marked(p, Caret), Marked(p, Dollar)) <==> HasPlacedMatch(p, w)
  {
    SearchRight(p, w, Marked(p, Caret), Marked(p, Dollar));
    AnchorsPlaced(p, w);
  }

  lemma {:induction false} StartsWithC(p: Pattern, j: nat)
    requires p == Either(Last(Preceded(Caret, Bare(Plain('a')))), One(Last(Bare(Plain('b'))))) && 0 < j <= 2
    ensures !PatternMatches(p, "cb"[0..j])
  {
    assert "cb"[0..j][0] == 'c';
  }

  /** The anchor of one alternative concerns all of them: searching "cb" for `^a|b` does not find the b. */
  lemma {:induction false} AnchorConcernsAll()
    ensures var p := Either(Last(Preceded(Caret, Bare(Plain('a')))), One(Last(Bare(Plain('b')))));
            && ShowPattern(p) == "^a|b" && PatternOk(p) && LoopsOk(p) && Sided(p, Caret) && Marked(p, Caret) && !Marked(p, Dollar)
            && HasPlacedMatch(p, "cb") && !Reports(Words(p), "cb", true, false)
  {
    var p := Either(Last(Preceded(Caret, Bare(Plain('a')))), One(Last(Bare(Plain('b')))));
    assert PieceOk(Bare(Plain('a'))) && PieceOk(Bare(Plain('b')));
    assert ShowPiece(Bare(Plain('a'))) == "a" && ShowPattern(One(Last(Bare(Plain('b'))))) == "b";
    assert AtomAt(Plain('b'), "cb", 1, 2) && PieceAt(Bare(Plain('b')), "cb", 1, 2) && PlacedAt(p, "cb", 1, 2);
    assert "^" + "a" + "|" + "b" == "^a|b";
    forall j | 0 < j <= 2 ensures !MatchAt(Words(p), "cb", true, false, 0, j) { StartsWithC(p, j); }
  }

  // ---- what escaped characters match ----

  const CONTROL_LETTERS := "fnrtv"
  const CONTROL_CODES: seq<nat> := [12, 10, 13, 9, 11]

  /** The characters with a meaning of their own, which stand for themselves behind a backslash. */
  predicate Punctuation(n: nat) {
    || n == 94 || n == 36 || n == 124 || n == 40 || n == 41 || n == 63 || n == 42 || n == 43 || n == 46
    || n == 91 || n == 93 || n == 123 || n == 125 || n == 92
  }

  predicate ControlLetter(c: char) {
    exists i | 0 <= i < 5 :: CONTROL_LETTERS[i] == c
  }

  lemma {:induction false} EscapeIsCode(c: char)
    ensures Punctuation(c as int) ==> EscapeValue(c) == Just(c)
    ensures forall i | 0 <= i < 5 && CONTROL_LETTERS[i] == c :: EscapeValue(c) == Just(CONTROL_CODES[i] as char)
    ensures EscapeValue(c).Just? <==> Punctuation(c as int) || ControlLetter(c)
  {
    PunctuationIs(c);
    assert CONTROL_LETTERS[0] == 'f' && CONTROL_LETTERS[1] == 'n' && CONTROL_LETTERS[2] == 'r';
    assert CONTROL_LETTERS[3] == 't' && CONTROL_LETTERS[4] == 'v';
  }

  lemma {:induction false} PunctuationIs(c: char)
    ensures c in ESCAPABLE <==> Punctuation(c as int)
  {
    assert |ESCAPABLE| == 14;
    assert ESCAPABLE[0] as int == 94 && ESCAPABLE[1] as int == 36 && ESCAPABLE[2] as int == 124 && ESCAPABLE[3] as int == 40;
    assert ESCAPABLE[4] as int == 41 && ESCAPABLE[5] as int == 63 && ESCAPABLE[6] as int == 42 && ESCAPABLE[7] as int == 43;
    assert ESCAPABLE[8] as int == 46 && ESCAPABLE[9] as int == 91 && ESCAPABLE[10] as int == 93 && ESCAPABLE[11] as int == 123;
    assert ESCAPABLE[12] as int == 125 && ESCAPABLE[13] as int == 92;
  }

  /** An escaped letter matches the control character it names, escaped punctuation itself, and no other escape compiles. */
  lemma {:induction false} EscapedMatches(c: char, w: string)
    ensures var p := One(Last(Bare(Escaped(c))));
            && (PatternOk(p) <==> Punctuation(c as int) || ControlLetter(c))
            && (Punctuation(c as int) ==> (w in Words(p) <==> w == [c]))
            && forall i | 0 <= i < 5 && CONTROL_LETTERS[i] == c :: w in Words(p) <==> w == [CONTROL_CODES[i] as char]
  {
    hide EscapeValue, ControlLetter, Punctuation;
    EscapeIsCode(c);
    var piece := Bare(Escaped(c));
    assert PatternOk(One(Last(piece))) <==> BranchOk(Last(piece));
    assert BranchOk(Last(piece)) <==> PieceOk(piece);
    assert PieceOk(piece) <==> AtomOk(Escaped(c));
    assert PatternMatches(One(Last(piece)), w) <==> BranchMatches(Last(piece), w);
    assert BranchMatches(Last(piece), w) <==> PieceMatches(piece, w);
    assert PieceMatches(piece, w) <==> AtomMatches(Escaped(c), w);
    assert w in Words(One(Last(piece))) <==> EscapeValue(c).Just? && w == [EscapeValue(c).c];
  }

  /** In a class, so does an escaped character, and an escaped b is a backspace. */
  lemma {:induction false} EscapedInClass(c: char, w: string)
    ensures var p := One(Last(Bare(Class(false, [Single(Esc(c))]))));
            && (PatternOk(p) <==> c == 'b' || Punctuation(c as int) || ControlLetter(c))
            && (c == 'b' ==> (w in Words(p) <==> |w| == 1 && w[0] as int == 8))
            && (Punctuation(c as int) ==> (w in Words(p) <==> w == [c]))
            && forall i | 0 <= i < 5 && CONTROL_LETTERS[i] == c :: w in Words(p) <==> w == [CONTROL_CODES[i] as char]
  {
    hide EscapeValue, ControlLetter, Punctuation;
    EscapeIsCode(c);
    var items := [Single(Esc(c))];
    var atom := Class(false, items);
    var piece := Bare(atom);
    assert items[1..] == [] && (ItemsOk(items, false) <==> ItemOk(items[0]));
    assert PatternOk(One(Last(piece))) <==> BranchOk(Last(piece));
    assert BranchOk(Last(piece)) <==> PieceOk(piece);
    assert PieceOk(piece) <==> AtomOk(atom);
    assert PatternMatches(One(Last(piece)), w) <==> BranchMatches(Last(piece), w);
    assert BranchMatches(Last(piece), w) <==> PieceMatches(piece, w);
    assert PieceMatches(piece, w) <==> AtomMatches(atom, w);
    if |w| == 1 { assert ItemsCover(items, w[0]) <==> ItemCovers(items[0], w[0]); }
    NoLetterB(c);
  }

  lemma {:induction false} NoLetterB(c: char)
    ensures c == 'b' ==> !Punctuation(c as int) && !ControlLetter(c)
  {
    assert CONTROL_LETTERS[0] == 'f' && CONTROL_LETTERS[1] == 'n' && CONTROL_LETTERS[2] == 'r';
    assert CONTROL_LETTERS[3] == 't' && CONTROL_LETTERS[4] == 'v';
  }

  // ---- the whole engine ----

  /** The text, if it compiles, does so to an expression without unbounded repetition of what can match nothing. */
  predicate Runnable(pattern: string) {
    var o := Run(pattern, INITIAL);
    o.Compiled? ==> Safe(o.e)
  }

  /** A written pattern compiles to its words, and is runnable if no quantifier loops over nothing. */
  lemma {:induction false} WrittenRuns(p: Pattern)
    requires PatternOk(p)
    ensures var o := Run(ShowPattern(p), INITIAL);
            && o.Compiled? && Language(o.ranges, o.e) == Words(p)
            && o.anchorBegin == Marked(p, Caret) && o.anchorEnd == Marked(p, Dollar)
            && (Runnable(ShowPattern(p)) <==> LoopsOk(p))
  {
    PatternCompiles(p);
    LanguageIs(p);
    PatternShape(p, 0);
  }

  /** Compiles any text as a pattern and prepares the search if that succeeds. */
  method Prepare(pattern: string) returns (regex: Regex, compiled: bool, search: Search?)
    requires Runnable(pattern)
    ensures var o := Run(pattern, INITIAL);
            && compiled == o.Compiled? == (search != null)
            && (search != null ==> fresh(search) && fresh(search.stateSet) && search.Valid() && search.m == AutomatonOf(o.e, o.ranges)
                                   && search.rank == ProgramRank(o.e)
                                   && regex.anchorBegin == o.anchorBegin && regex.anchorEnd == o.anchorEnd)
  {
    regex := new Regex(pattern);
    var verdict := regex.Compile();
    RunForward(pattern, INITIAL);
    compiled, search := verdict == Ok, null;
    if compiled {
      ghost var o := Run(pattern, INITIAL);
      MachineFit(o.e, o.ranges);
      search := new Search(Automaton(regex.stack.states, regex.ranges, regex.root), ProgramRank(o.e));
    }
  }

  /** Compiles any text as a pattern and matches a text against it: the answer is the language it is compiled to. */
  method Match(pattern: string, text: string) returns (compiled: bool, matched: bool)
    requires Runnable(pattern)
    ensures var o := Run(pattern, INITIAL);
            && compiled == o.Compiled? && (matched <==> compiled && CString(text) in Language(o.ranges, o.e))
    ensures forall p :: PatternOk(p) && ShowPattern(p) == pattern ==> compiled && (matched <==> CString(text) in Words(p))
  {
    var regex, search;
    regex, compiled, search := Prepare(pattern);
    matched := false;
    ghost var o := Run(pattern, INITIAL);
    if search != null {
      matched := search.SearchWithAnchoring(text, true, true);
      WholeMatch(AutomatonOf(o.e, o.ranges), ProgramRank(o.e), CString(text));
      RootMeans(o.e, o.ranges, CString(text));
    }
    forall p | PatternOk(p) && ShowPattern(p) == pattern ensures compiled && (matched <==> CString(text) in Words(p)) {
      WrittenRuns(p);
    }
  }

  /** Compiles any text as a pattern and searches a text for it, anchored if the pattern has an anchor anywhere. */
  method SearchFor(pattern: string, text: string) returns (compiled: bool, found: bool)
    requires Runnable(pattern)
    ensures var o := Run(pattern, INITIAL);
            && compiled == o.Compiled?
            && (found <==> compiled && Reports(Language(o.ranges, o.e), CString(text), o.anchorBegin, o.anchorEnd))
    ensures forall p :: PatternOk(p) && ShowPattern(p) == pattern ==>
              compiled && (found <==> Reports(Words(p), CString(text), Marked(p, Caret), Marked(p, Dollar)))
  {
    var regex, search;
    regex, compiled, search := Prepare(pattern);
    found := false;
    ghost var o := Run(pattern, INITIAL);
    if search != null {
      found := search.SearchWithAnchoring(text, regex.anchorBegin, regex.anchorEnd);
      FoundReports(o.e, o.ranges, CString(text), o.anchorBegin, o.anchorEnd);
    }
    forall p | PatternOk(p) && ShowPattern(p) == pattern
      ensures compiled && (found <==> Reports(Words(p), CString(text), Marked(p, Caret), Marked(p, Dollar)))
    {
      WrittenRuns(p);
    }
  }
}
