/**
 The compiler: one pass over the pattern that grows the automaton in place.

 Each method does what the parser's transition system (`Step`, `Run`) says, on the real stacks.
 */
module RegexCompiler {
  import opened Text
  import opened RegexProgram
  import opened RegexLanguage
  import opened RegexSyntax
  import opened RegexStack
  import opened RegexParser

  /** Flagging its first interval negates a class. */
  lemma {:induction false} FlagFirst(was: seq<Range>, bounds: seq<(int, int)>, plain: seq<Range>, flagged: seq<Range>, negated: bool)
    requires bounds != [] && |plain| == |was| + |bounds| && plain[..|was|] == was
    requires plain[|was|..] == LinkedRanges(bounds, |was|, false)
    requires var r := plain[|was|];
             flagged == if negated then plain[|was| := Range(r.start + NEGATION_FLAG, r.end, r.next)] else plain
    ensures flagged == was + LinkedRanges(bounds, |was|, negated)
  {
    var linked := LinkedRanges(bounds, |was|, negated);
    forall j | 0 <= j < |flagged| ensures flagged[j] == (was + linked)[j] {
      if j < |was| {
        assert plain[..|was|][j] == was[j];
      } else {
        assert plain[|was|..][j - |was|] == LinkedRange(bounds, |was|, false, j - |was|);
      }
    }
  }

  /** A closing parenthesis, once the operators down to its opening one have been applied. */
  lemma {:induction false} CloseReduced(text: string, c: Config, es: seq<Expr>, ops: seq<Operator>)
    requires text != [] && Balanced(c) && ops != []
    requires Reduce(c.operands, c.operators, CLOSE_STOPS) == Reduced(es, ops)
    ensures |c.atoms| >= 2
    ensures var d := c.(operands := es, operators := ops[..|ops| - 1], atoms := c.atoms[..|c.atoms| - 1]);
            CloseStep(text, c) == Next(text[1..], Implicit(d)) && Balanced(Implicit(d))
  {
    ReduceKeepsParens(c.operands, c.operators, CLOSE_STOPS);
    ImplicitBalanced(c.(operands := es, operators := ops[..|ops| - 1], atoms := c.atoms[..|c.atoms| - 1]));
  }

  lemma {:induction false} BarReduced(text: string, c: Config, es: seq<Expr>, ops: seq<Operator>)
    requires text != [] && Balanced(c) && Reduce(c.operands, c.operators, BAR_STOPS) == Reduced(es, ops)
    ensures var d := c.(operands := es, operators := ops + [Alternation], atoms := c.atoms[..|c.atoms| - 1] + [0]);
            BarStep(text, c) == Next(text[1..], d) && Balanced(d)
  {
    BarAdvances(text, c);
  }

  lemma {:induction false} SymBalanced(c: Config, lab: Label)
    requires Balanced(c)
    ensures Balanced(PushSym(c, lab))
  {
    ImplicitBalanced(c.(operands := c.operands + [Sym(lab)]));
  }

  class Regex {
    const source: string
    const stack: OperandStack
    var pos: nat
    var operators: seq<Operator>
    var atoms: seq<nat>
    var ranges: seq<Range>
    var root: int
    var anchorBegin: bool
    var anchorEnd: bool

    ghost function Cfg(): Config
      reads this, stack
    {
      Config(stack.exprs, operators, atoms, ranges, anchorBegin, anchorEnd)
    }

    ghost predicate Valid()
      reads this, stack
    {
      stack.Valid() && pos <= |source| && Balanced(Cfg())
    }

    /** What is left of the pattern. */
    function Rest(): string
      reads this
    {
      if pos <= |source| then source[pos..] else ""
    }

    function PeekChar(): (c: char)
      reads this
      ensures c == Peek(Rest())
    {
      if pos < |source| then source[pos] else '\0'
    }

    /** Starts on `pattern`: nothing has been read, and there is no automaton until `Compile` has built one. */
    constructor (pattern: string)
      ensures Valid() && fresh(stack) && source == pattern && Rest() == pattern && Cfg() == INITIAL && root == NONE
    {
      source := pattern;
      stack := new OperandStack();
      pos, operators, atoms, ranges := 0, [], [0], [];
      root, anchorBegin, anchorEnd := NONE, false, false;
    }

    method Advance()
      requires pos < |source|
      modifies this`pos
      ensures pos == old(pos) + 1 && Rest() == old(Rest())[1..]
    {
      pos := pos + 1;
    }

    /** Applies operators from the top until one of `stops` is on top. */
    method ReduceUntil(stops: set<Operator>) returns (verdict: Verdict)
      requires stack.Valid()
      modifies this`operators, stack
      ensures match Reduce(old(stack.exprs), old(operators), stops)
              case Reduced(es, ops) => verdict == Ok && stack.Valid() && stack.exprs == es && operators == ops
              case NotReduced(v) => verdict == v
    {
      ReduceFails(stack.exprs, operators, stops);
      ghost var r := Reduce(stack.exprs, operators, stops);
      while operators != [] && operators[|operators| - 1] !in stops
        invariant stack.Valid() && Reduce(stack.exprs, operators, stops) == r
        decreases |operators|
      {
        var op := operators[|operators| - 1];
        operators := operators[..|operators| - 1];
        verdict := stack.Eval(op);
        if verdict != Ok { return; }
      }
      verdict := Ok;
    }

    /** Counts an atom, concatenating it to a preceding one. */
    method ImplicitConcatenation()
      requires atoms != []
      modifies this`operators, this`atoms
      ensures Cfg() == Implicit(old(Cfg()))
    {
      var n := |atoms| - 1;
      if atoms[n] > 0 { operators := operators + [Concatenation]; }
      atoms := atoms[..n] + [atoms[n] + 1];
    }

    method ParseUnsigned() returns (ok: bool, u: nat)
      requires pos <= |source|
      modifies this`pos
      ensures pos <= |source|
      ensures match ScanUnsigned(old(Rest()))
              case NoScan => !ok
              case Scanned(n, rest) => ok && u == n && Rest() == rest
    {
      u := 0;
      if !IsDigit(PeekChar()) { return false, 0; }
      ghost var goal := ScanDigits(Rest(), 0);
      while IsDigit(PeekChar())
        invariant pos <= |source| && ScanDigits(Rest(), u) == goal
        decreases |source| - pos
      {
        if u >= 429496729 && PeekChar() > '5' { return false, 0; }
        u := (10 * u + (PeekChar() as int - '0' as int)) % 0x1_0000_0000;
        Advance();
      }
      ok := true;
    }

    method NewRange(v: char) returns (i: nat)
      modifies this`ranges
      ensures i == |old(ranges)| && ranges == old(ranges) + [Range(v as int, v as int, NONE)]
    {
      i := |ranges|;
      ranges := ranges + [Range(v as int, v as int, NONE)];
    }

    /** Appends an interval to the class whose last interval is `current`. */
    method LinkRange(current: int, v: char, ghost base: nat, ghost bounds: seq<(int, int)>) returns (i: nat)
      requires base + |bounds| == |ranges| && (bounds != [] ==> current == |ranges| - 1)
      requires bounds == [] ==> current == NONE
      requires ranges[base..] == LinkedRanges(bounds, base, false)
      modifies this`ranges
      ensures i == |old(ranges)| && |ranges| == i + 1 && ranges[..base] == old(ranges)[..base]
      ensures ranges[base..] == LinkedRanges(bounds + [(v as int, v as int)], base, false)
    {
      i := NewRange(v);
      if current != NONE {
        ranges := ranges[current := Range(ranges[current].start, ranges[current].end, i)];
      }
      ghost var all := LinkedRanges(bounds + [(v as int, v as int)], base, false);
      forall j | 0 <= j < |all| ensures ranges[base..][j] == all[j] {
        if j < |bounds| { assert old(ranges)[base..][j] == LinkedRange(bounds, base, false, j); }
      }
    }

    method ParseClassChar(c: char, step: nat, start: int, current: int, ghost base: nat, ghost bounds: seq<(int, int)>)
      returns (step': nat, start': int, current': int)
      requires base + |bounds| == |ranges| && ranges[base..] == LinkedRanges(bounds, base, false)
      requires if bounds == [] then start == current == NONE && step == 0 else start == base && current == |ranges| - 1
      modifies this`ranges
      ensures var r := PutClassChar(c, step, bounds);
              && step' == r.0 && base + |r.1| == |ranges| && ranges[..base] == old(ranges)[..base]
              && ranges[base..] == LinkedRanges(r.1, base, false)
              && if r.1 == [] then start' == current' == NONE else start' == base && current' == |ranges| - 1
    {
      step', start', current' := step, start, current;
      if step == 1 && c == '-' {
        step' := 2;
      } else if step <= 1 {
        current' := LinkRange(current, c, base, bounds);
        if start == NONE { start' := current'; }
        step' := 1;
      } else {
        ranges := ranges[current := Range(ranges[current].start, c as int, ranges[current].next)];
        step' := 0;
        ghost var m := |bounds| - 1;
        ghost var bounds' := bounds[m := (bounds[m].0, c as int)];
        ghost var all := LinkedRanges(bounds', base, false);
        forall j | 0 <= j < |all| ensures ranges[base..][j] == all[j] {
          assert old(ranges)[base..][j] == LinkedRange(bounds, base, false, j);
        }
      }
    }

    /** The character that a backslash inside a class stands for. */
    method ClassEscape() returns (v: MaybeChar)
      requires pos <= |source|
      modifies this`pos
      ensures v == (if Peek(old(Rest())) == 'b' then Just(BACKSPACE) else EscapeValue(Peek(old(Rest()))))
      ensures pos <= |source|
      ensures v.Just? ==> old(Rest()) != "" && Rest() == old(Rest())[1..]
    {
      if PeekChar() == 'b' {
        Advance();
        v := Just(BACKSPACE);
      } else {
        v := EscapeValue(PeekChar());
        if v.Just? { Advance(); }
      }
    }

    /** Ends a class: a trailing hyphen is an interval of its own, and a negated class is flagged. */
    method CloseRange(negate: bool, step: nat, start: nat, current: int, ghost base: nat, ghost bounds: seq<(int, int)>)
      requires bounds != [] && base + |bounds| == |ranges| && ranges[base..] == LinkedRanges(bounds, base, false)
      requires start == base && current == |ranges| - 1
      modifies this`ranges
      ensures ranges == old(ranges)[..base] + LinkedRanges(if step == 2 then bounds + [HYPHEN()] else bounds, base, negate)
    {
      ghost var all := if step == 2 then bounds + [HYPHEN()] else bounds;
      if step == 2 {
        var last := LinkRange(current, '-', base, bounds);
      }
      ghost var plain := ranges;
      if negate {
        ranges := ranges[start := Range(ranges[start].start + NEGATION_FLAG, ranges[start].end, ranges[start].next)];
      }
      FlagFirst(plain[..base], all, plain, ranges, negate);
    }

    /** Parses the inside of a bracket expression and appends its intervals to the table. */
    method ParseRange() returns (ok: bool, first: int)
      requires pos <= |source|
      modifies this`pos, this`ranges
      ensures pos <= |source|
      ensures match ScanClass(old(Rest()), true, false, 0, [])
              case NoScan => !ok
              case Scanned(k, rest) =>
                && ok && first == |old(ranges)| && Rest() == rest
                && ranges == old(ranges) + LinkedRanges(k.bounds, |old(ranges)|, k.negated)
    {
      ghost var base, was := |ranges|, ranges;
      ghost var bounds: seq<(int, int)> := [];
      ghost var goal := ScanClass(Rest(), true, false, 0, []);
      var isBegin, negate, step, start, current := true, false, 0, NONE, NONE;
      assert ranges[base..] == LinkedRanges(bounds, base, false);
      while PeekChar() != '\0'
        invariant pos <= |source| && base + |bounds| == |ranges| && ranges[..base] == was
        invariant ranges[base..] == LinkedRanges(bounds, base, false)
        invariant if bounds == [] then start == current == NONE && step == 0 else start == base && current == |ranges| - 1
        invariant ScanClass(Rest(), isBegin, negate, step, bounds) == goal
        decreases |source| - pos
      {
        var c := PeekChar();
        Advance();
        if isBegin {
          isBegin := false;
          if c == '^' {
            negate := true;
            continue;
          }
        }
        if c == ']' {
          if start == NONE { return false, NONE; }
          CloseRange(negate, step, start, current, base, bounds);
          return true, start;
        }
        if c == '\\' {
          var v := ClassEscape();
          if v.Nothing? { return false, NONE; }
          c := v.c;
        }
        ghost var next := PutClassChar(c, step, bounds);
        step, start, current := ParseClassChar(c, step, start, current, base, bounds);
        bounds := next.1;
      }
      ok, first := false, NONE;
    }

    /** `|` */
    method ParseBar() returns (verdict: Verdict)
      requires Valid() && pos < |source|
      modifies `pos, `operators, `atoms, stack
      ensures Follows(BarStep(old(Rest()), old(Cfg())), verdict)
    {
      ghost var text, c := Rest(), Cfg();
      ReduceFails(c.operands, c.operators, BAR_STOPS);
      verdict := ReduceUntil(BAR_STOPS);
      if verdict != Ok { return; }
      BarReduced(text, c, stack.exprs, operators);
      operators := operators + [Alternation];
      atoms := atoms[..|atoms| - 1] + [0];
      Advance();
    }

    /** `)` */
    method ParseClose() returns (verdict: Verdict)
      requires Valid() && pos < |source|
      modifies `pos, `operators, `atoms, stack
      ensures Follows(CloseStep(old(Rest()), old(Cfg())), verdict)
    {
      hide Reduce, Parens, Laid;
      ghost var text, c := Rest(), Cfg();
      ReduceFails(c.operands, c.operators, CLOSE_STOPS);
      verdict := ReduceUntil(CLOSE_STOPS);
      if verdict != Ok { return; }
      if operators == [] { return SyntaxError; }
      CloseReduced(text, c, stack.exprs, operators);
      operators := operators[..|operators| - 1];
      atoms := atoms[..|atoms| - 1];
      ghost var d := Cfg();
      assert d == c.(operands := d.operands, operators := d.operators, atoms := c.atoms[..|c.atoms| - 1]);
      ImplicitConcatenation();
      Advance();
      assert CloseStep(text, c) == Next(Rest(), Implicit(d)) && Balanced(Implicit(d));
    }

    /** `?`, `*` and `+` */
    method ParsePostfix(op: Operator) returns (verdict: Verdict)
      requires Valid() && pos < |source|
      modifies `pos, stack
      ensures Follows(PostfixStep(old(Rest()), old(Cfg()), op), verdict)
    {
      verdict := stack.Eval(op);
      Advance();
    }

    /** The bounds of a quantifier, up to its closing brace. */
    method ParseBounds() returns (ok: bool, n: nat, m: nat)
      requires pos <= |source|
      modifies this`pos
      ensures pos <= |source|
      ensures match ScanBounds(old(Rest()))
              case NoScan => !ok
              case Scanned(nm, rest) => ok && n == nm.0 && m == nm.1 && Rest() == rest
    {
      ok, n := ParseUnsigned();
      m := n;
      if ok && PeekChar() == ',' {
        Advance();
        if PeekChar() == '}' {
          m := INFINITY;
        } else {
          ok, m := ParseUnsigned();
          ok := ok && n <= m;
        }
      }
    }

    /** `{n}`, `{n,}` and `{n,m}` */
    method ParseBrace() returns (verdict: Verdict)
      requires Valid() && pos < |source|
      modifies `pos, stack
      ensures Follows(BraceStep(old(Rest()), old(Cfg())), verdict)
    {
      ghost var text, c := Rest(), Cfg();
      ScanBoundsShrinks(text[1..]);
      Advance();
      var ok, n, m := ParseBounds();
      if !ok { return SyntaxError; }
      assert ScanBounds(text[1..]) == Scanned((n, m), Rest());
      verdict := stack.EvalQuantifier(n, m);
      if verdict != Ok { return; }
      if PeekChar() != '}' { return SyntaxError; }
      Advance();
      assert BraceStep(text, c) == Next(Rest(), Cfg());
    }

    method PushOperand(lab: Label)
      requires stack.Valid() && atoms != []
      modifies this`operators, this`atoms, stack
      ensures stack.Valid() && Cfg() == PushSym(old(Cfg()), lab)
    {
      stack.PushOperand(lab);
      ImplicitConcatenation();
    }

    /** `[...]` */
    method ParseClass() returns (verdict: Verdict)
      requires Valid() && pos < |source|
      modifies `pos, `operators, `atoms, `ranges, stack
      ensures Follows(ClassStep(old(Rest()), old(Cfg())), verdict)
    {
      hide ScanClass, Parens, LinkedRanges, Laid;
      ghost var text, c := Rest(), Cfg();
      ClassAdvances(text, c);
      Advance();
      var ok, first := ParseRange();
      if !ok { return SyntaxError; }
      ghost var k := ScanClass(text[1..], true, false, 0, []).value;
      ghost var d := c.(ranges := c.ranges + LinkedRanges(k.bounds, first, k.negated));
      assert Cfg() == d;
      PushOperand(InRanges(first));
      verdict := Ok;
      assert ClassStep(text, c) == Next(Rest(), PushSym(d, InRanges(first)));
    }

    /** A backslash and the character it escapes. */
    method ParseEscape() returns (verdict: Verdict)
      requires Valid() && pos < |source| && source[pos] == '\\'
      modifies `pos, `operators, `atoms, stack
      ensures Follows(EscapeStep(old(Rest()), old(Cfg())), verdict)
    {
      ghost var text, c := Rest(), Cfg();
      Advance();
      var v := EscapeValue(PeekChar());
      if v.Nothing? { return SyntaxError; }
      SymBalanced(c, Literal(v.c));
      Advance();
      PushOperand(Literal(v.c));
      verdict := Ok;
    }

    /** The object is where the transition system goes, or the parser has stopped with its verdict. */
    ghost predicate Follows(p: Progress, verdict: Verdict)
      reads this, stack
    {
      match p
      case Next(rest, c) => verdict == Ok && Valid() && Rest() == rest && Cfg() == c
      case Stop(v) => verdict == v
    }

    /** `(` */
    method ParseOpen() returns (verdict: Verdict)
      requires Valid() && pos < |source|
      modifies `pos, `operators, `atoms
      ensures Valid() && verdict == Ok && Rest() == old(Rest())[1..]
      ensures Cfg() == old(Cfg()).(operators := old(operators) + [LeftParenthesis], atoms := old(atoms) + [0])
    {
      hide Peek, Laid, Opens, Parens;
      ParensPush(operators, LeftParenthesis);
      operators, atoms := operators + [LeftParenthesis], atoms + [0];
      Advance();
      verdict := Ok;
    }

    /** A single-character operand. */
    method ParseSym(lab: Label) returns (verdict: Verdict)
      requires Valid() && pos < |source|
      modifies `pos, `operators, `atoms, stack
      ensures Valid() && verdict == Ok && Rest() == old(Rest())[1..]
      ensures Cfg() == PushSym(old(Cfg()), lab)
    {
      SymBalanced(Cfg(), lab);
      PushOperand(lab);
      Advance();
      verdict := Ok;
    }

    /** Reads one character of the pattern and what belongs to it. */
    method ParseStep() returns (verdict: Verdict)
      requires Valid() && pos < |source|
      modifies `pos, `operators, `atoms, `ranges, `anchorBegin, `anchorEnd, stack
      ensures Follows(Step(old(Rest()), old(Cfg())), verdict)
    {
      match source[pos] {
        case '^' => anchorBegin := true; Advance(); verdict := Ok;
        case '$' => anchorEnd := true; Advance(); verdict := Ok;
        case '|' => verdict := ParseBar();
        case '(' => verdict := ParseOpen();
        case ')' => verdict := ParseClose();
        case '?' => verdict := ParsePostfix(ZeroOrOneOp);
        case '*' => verdict := ParsePostfix(ZeroOrMoreOp);
        case '+' => verdict := ParsePostfix(OneOrMoreOp);
        case '{' => verdict := ParseBrace();
        case '.' => verdict := ParseSym(AnyChar);
        case '[' => verdict := ParseClass();
        case '\\' => verdict := ParseEscape();
        case _ => verdict := ParseSym(Literal(source[pos]));
      }
    }

    /** The automaton, once a pattern has been compiled. */
    ghost function Machine(): Automaton
      reads this, stack
      requires root >= 0
    {
      Automaton(stack.states, ranges, root)
    }

    /** The object holds the automaton of `e`. */
    ghost predicate Holding(e: Expr, rs: seq<Range>)
      reads this, stack
    {
      root >= 0 && Machine() == Automaton(Program(e), rs, Start(e, 0))
    }

    /** Links the last operand to the matching state. */
    method LinkRoot(ghost e: Expr)
      requires stack.Valid() && stack.exprs == [e]
      modifies this`root, stack
      ensures root >= 0 && stack.states == Program(e) && root == Start(e, 0)
    {
      var f := stack.frags[0];
      assert Laid(stack.states[..f.minIndex], stack.frags[..0], stack.exprs[..0]);
      assert f.minIndex == 0;
      var s := stack.NewState(NONE, NONE, Epsilon);
      stack.Patch(f.out, s, e, 0);
      root := f.start;
    }

    /** What is left of the run once the pattern has been read: apply all operators and link the one operand. */
    method Conclude() returns (verdict: Verdict)
      requires stack.Valid() && root == NONE
      modifies `operators, `root, stack
      ensures match Finish(old(Cfg()))
              case Compiled(e, rs, b, d) => verdict == Ok && Holding(e, rs) && anchorBegin == b && anchorEnd == d
              case NotCompiled(v) => verdict == v && root == NONE
    {
      ReduceFails(stack.exprs, operators, {});
      verdict := ReduceUntil({});
      if verdict != Ok { return; }
      assert |stack.frags| == |stack.exprs|;
      if |stack.frags| != 1 { return SyntaxError; }
      assert stack.exprs == [stack.exprs[0]];
      LinkRoot(stack.exprs[0]);
    }

    /** Compiles the pattern exactly as the transition system says. */
    method Compile() returns (verdict: Verdict)
      requires Valid() && Rest() == source && Cfg() == INITIAL && root == NONE
      modifies this, stack
      ensures match Run(source, INITIAL)
              case Compiled(e, rs, b, d) => verdict == Ok && Holding(e, rs) && anchorBegin == b && anchorEnd == d
              case NotCompiled(v) => verdict == v && root == NONE
    {
      while PeekChar() != '\0'
        invariant Valid() && root == NONE
        invariant Run(Rest(), Cfg()) == Run(source, INITIAL)
        decreases |source| - pos
      {
        StepAdvances(Rest(), Cfg());
        ghost var text, c := Rest(), Cfg();
        verdict := ParseStep();
        if verdict != Ok { return; }
      }
      verdict := Conclude();
    }
  }
}
