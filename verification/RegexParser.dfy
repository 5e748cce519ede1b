/**
 The pattern parser as a transition system over the remaining text and the three stacks, and the proof that it
 turns every well-formed pattern into the expression of its syntax tree.
 */
module RegexParser {
  import opened Text
  import opened RegexProgram
  import opened RegexSyntax
  import opened RegexStack

  datatype Config = Config(
    operands: seq<Expr>,
    operators: seq<Operator>,
    atoms: seq<nat>,
    ranges: seq<Range>,
    anchorBegin: bool,
    anchorEnd: bool)

  datatype Progress = Next(rest: string, config: Config) | Stop(verdict: Verdict)

  datatype Outcome = Compiled(e: Expr, ranges: seq<Range>, anchorBegin: bool, anchorEnd: bool) | NotCompiled(verdict: Verdict)

  datatype Scanning<T> = NoScan | Scanned(value: T, rest: string)

  // ---- numerals ----

  /** Reads digits in unsigned 32-bit arithmetic; the overflow test looks only at the last digit. */
  function ScanDigits(text: string, r: nat): Scanning<nat> {
    if !IsDigit(Peek(text)) then Scanned(r, text)
    else if r >= 429496729 && Peek(text) > '5' then NoScan
    else ScanDigits(text[1..], (10 * r + (text[0] as int - '0' as int)) % 0x1_0000_0000)
  }

  function ScanUnsigned(text: string): Scanning<nat> {
    if IsDigit(Peek(text)) then ScanDigits(text, 0) else NoScan
  }

  /** The bounds of a quantifier, up to but not including its closing brace. */
  function ScanBounds(text: string): Scanning<(nat, nat)> {
    match ScanUnsigned(text)
    case NoScan => NoScan
    case Scanned(n, rest) =>
      if Peek(rest) == ',' then
        if Peek(rest[1..]) == '}' then Scanned((n, INFINITY), rest[1..])
        else match ScanUnsigned(rest[1..])
             case NoScan => NoScan
             case Scanned(m, rest') => if m < n then NoScan else Scanned((n, m), rest')
      else Scanned((n, n), rest)
  }

  // ---- classes ----

  datatype ClassText = ClassText(negated: bool, bounds: seq<(int, int)>)

  function HYPHEN(): (int, int) {
    ('-' as int, '-' as int)
  }

  /** What one character inside the brackets does to the intervals and to the position within an interval. */
  function PutClassChar(v: char, step: nat, bounds: seq<(int, int)>): (nat, seq<(int, int)>) {
    if step == 1 && v == '-' then (2, bounds)
    else if step <= 1 || bounds == [] then (1, bounds + [(v as int, v as int)])
    else (0, bounds[|bounds| - 1 := (bounds[|bounds| - 1].0, v as int)])
  }

  function ScanClass(text: string, atStart: bool, negated: bool, step: nat, bounds: seq<(int, int)>): Scanning<ClassText>
    decreases |text|
  {
    var c := Peek(text);
    if c == '\0' then NoScan
    else if atStart && c == '^' then ScanClass(text[1..], false, true, step, bounds)
    else if c == ']' then
      if bounds == [] then NoScan
      else Scanned(ClassText(negated, if step == 2 then bounds + [HYPHEN()] else bounds), text[1..])
    else if c == '\\' then
      var d := Peek(text[1..]);
      var v := if d == 'b' then Just(BACKSPACE) else EscapeValue(d);
      if v.Nothing? then NoScan
      else var (step', bounds') := PutClassChar(v.c, step, bounds); ScanClass(text[2..], false, negated, step', bounds')
    else var (step', bounds') := PutClassChar(c, step, bounds); ScanClass(text[1..], false, negated, step', bounds')
  }

  // ---- the stacks ----

  datatype Reduction = Reduced(operands: seq<Expr>, operators: seq<Operator>) | NotReduced(verdict: Verdict)

  /** Applies operators from the top of the stack until one in `stops` is on top. */
  function Reduce(operands: seq<Expr>, operators: seq<Operator>, stops: set<Operator>): Reduction
    decreases |operators|
  {
    var n := |operators|;
    if n == 0 || operators[n - 1] in stops then Reduced(operands, operators)
    else match EvalSpec(operands, operators[n - 1])
         case Done(es) => Reduce(es, operators[..n - 1], stops)
         case Failed(v) => NotReduced(v)
  }

  const BAR_STOPS := {Alternation, LeftParenthesis}
  const CLOSE_STOPS := {LeftParenthesis}

  function Implicit(c: Config): Config
    requires c.atoms != []
  {
    var n := |c.atoms| - 1;
    c.(operators := if c.atoms[n] > 0 then c.operators + [Concatenation] else c.operators,
       atoms := c.atoms[..n] + [c.atoms[n] + 1])
  }

  function PushSym(c: Config, lab: Label): Config
    requires c.atoms != []
  {
    Implicit(c.(operands := c.operands + [Sym(lab)]))
  }

  function Parens(operators: seq<Operator>): nat {
    if operators == [] then 0
    else Parens(operators[..|operators| - 1]) + if operators[|operators| - 1] == LeftParenthesis then 1 else 0
  }

  /** One atom counter per open parenthesis, and one for the whole pattern. */
  predicate Balanced(c: Config) {
    |c.atoms| == 1 + Parens(c.operators)
  }

  lemma {:induction false} ParensPush(operators: seq<Operator>, op: Operator)
    ensures Parens(operators + [op]) == Parens(operators) + (if op == LeftParenthesis then 1 else 0)
  {
    assert (operators + [op])[..|operators|] == operators;
  }

  lemma {:induction false} ReduceKeepsParens(operands: seq<Expr>, operators: seq<Operator>, stops: set<Operator>)
    requires LeftParenthesis in stops
    ensures var r := Reduce(operands, operators, stops);
            r.Reduced? ==> |r.operators| <= |operators| && Parens(r.operators) == Parens(operators)
    ensures var r := Reduce(operands, operators, stops);
            r.Reduced? && r.operators != [] ==> r.operators[|r.operators| - 1] in stops
    decreases |operators|
  {
    var n := |operators|;
    if n > 0 && operators[n - 1] !in stops && EvalSpec(operands, operators[n - 1]).Done? {
      ReduceKeepsParens(EvalSpec(operands, operators[n - 1]).exprs, operators[..n - 1], stops);
    }
  }

  function BarStep(text: string, c: Config): Progress
    requires text != [] && c.atoms != []
  {
    match Reduce(c.operands, c.operators, BAR_STOPS)
    case NotReduced(v) => Stop(v)
    case Reduced(es, ops) =>
      Next(text[1..], c.(operands := es, operators := ops + [Alternation], atoms := c.atoms[..|c.atoms| - 1] + [0]))
  }

  function CloseStep(text: string, c: Config): Progress
    requires text != [] && c.atoms != []
  {
    match Reduce(c.operands, c.operators, CLOSE_STOPS)
    case NotReduced(v) => Stop(v)
    case Reduced(es, ops) =>
      if ops == [] || |c.atoms| < 2 then Stop(SyntaxError)
      else Next(text[1..], Implicit(c.(operands := es, operators := ops[..|ops| - 1], atoms := c.atoms[..|c.atoms| - 1])))
  }

  function PostfixStep(text: string, c: Config, op: Operator): Progress
    requires text != []
  {
    match EvalSpec(c.operands, op)
    case Failed(v) => Stop(v)
    case Done(es) => Next(text[1..], c.(operands := es))
  }

  function BraceStep(text: string, c: Config): Progress
    requires text != []
  {
    match ScanBounds(text[1..])
    case NoScan => Stop(SyntaxError)
    case Scanned(nm, rest) =>
      match QuantifierSpec(c.operands, nm.0, nm.1)
      case Failed(v) => Stop(v)
      case Done(es) => if Peek(rest) == '}' then Next(rest[1..], c.(operands := es)) else Stop(SyntaxError)
  }

  function ClassStep(text: string, c: Config): Progress
    requires text != [] && c.atoms != []
  {
    match ScanClass(text[1..], true, false, 0, [])
    case NoScan => Stop(SyntaxError)
    case Scanned(k, rest) =>
      var base := |c.ranges|;
      Next(rest, PushSym(c.(ranges := c.ranges + LinkedRanges(k.bounds, base, k.negated)), InRanges(base)))
  }

  function EscapeStep(text: string, c: Config): Progress
    requires text != [] && c.atoms != []
  {
    match EscapeValue(Peek(text[1..]))
    case Nothing => Stop(SyntaxError)
    case Just(v) => if |text| < 2 then Stop(SyntaxError) else Next(text[2..], PushSym(c, Literal(v)))
  }

  /** What reading the next character of the pattern does. */
  function Step(text: string, c: Config): Progress
    requires text != [] && c.atoms != []
  {
    var ch := text[0];
    if ch == '^' then Next(text[1..], c.(anchorBegin := true))
    else if ch == '$' then Next(text[1..], c.(anchorEnd := true))
    else if ch == '|' then BarStep(text, c)
    else if ch == '(' then Next(text[1..], c.(operators := c.operators + [LeftParenthesis], atoms := c.atoms + [0]))
    else if ch == ')' then CloseStep(text, c)
    else if ch == '?' then PostfixStep(text, c, ZeroOrOneOp)
    else if ch == '*' then PostfixStep(text, c, ZeroOrMoreOp)
    else if ch == '+' then PostfixStep(text, c, OneOrMoreOp)
    else if ch == '{' then BraceStep(text, c)
    else if ch == '.' then Next(text[1..], PushSym(c, AnyChar))
    else if ch == '[' then ClassStep(text, c)
    else if ch == '\\' then EscapeStep(text, c)
    else Next(text[1..], PushSym(c, Literal(ch)))
  }

  /** The end of the pattern: all operators are applied, and one operand must remain. */
  function Finish(c: Config): Outcome {
    match Reduce(c.operands, c.operators, {})
    case NotReduced(v) => NotCompiled(v)
    case Reduced(es, _) =>
      if |es| == 1 then Compiled(es[0], c.ranges, c.anchorBegin, c.anchorEnd) else NotCompiled(SyntaxError)
  }

  // ---- every step consumes text and keeps the counters balanced ----

  lemma {:induction false} ScanDigitsShrinks(text: string, r: nat)
    ensures var s := ScanDigits(text, r); s.Scanned? ==> |s.rest| <= |text| && s.rest == text[|text| - |s.rest|..]
    decreases |text|
  {
    if IsDigit(Peek(text)) && !(r >= 429496729 && Peek(text) > '5') {
      ScanDigitsShrinks(text[1..], (10 * r + (text[0] as int - '0' as int)) % 0x1_0000_0000);
    }
  }

  lemma {:induction false} ScanUnsignedShrinks(text: string)
    ensures var s := ScanUnsigned(text); s.Scanned? ==> |s.rest| <= |text| && s.rest == text[|text| - |s.rest|..]
  {
    ScanDigitsShrinks(text, 0);
  }

  lemma {:induction false} ScanBoundsShrinks(text: string)
    ensures var s := ScanBounds(text); s.Scanned? ==> |s.rest| <= |text| && s.rest == text[|text| - |s.rest|..]
    ensures var s := ScanBounds(text); s.Scanned? ==> s.value.0 <= s.value.1
  {
    ScanUnsignedShrinks(text);
    ScanDigitsBound(text, 0);
    var s := ScanUnsigned(text);
    if s.Scanned? && Peek(s.rest) == ',' { ScanUnsignedShrinks(s.rest[1..]); }
  }

  lemma {:induction false} ScanDigitsBound(text: string, r: nat)
    requires r < 0x1_0000_0000
    ensures var s := ScanDigits(text, r); s.Scanned? ==> s.value <= INFINITY
    decreases |text|
  {
    if IsDigit(Peek(text)) && !(r >= 429496729 && Peek(text) > '5') {
      ScanDigitsBound(text[1..], (10 * r + (text[0] as int - '0' as int)) % 0x1_0000_0000);
    }
  }

  lemma {:induction false} ScanClassShrinks(text: string, atStart: bool, negated: bool, step: nat, bounds: seq<(int, int)>)
    ensures var s := ScanClass(text, atStart, negated, step, bounds);
            s.Scanned? ==> |s.rest| < |text| && s.rest == text[|text| - |s.rest|..]
    decreases |text|
  {
    var c := Peek(text);
    if c == '\0' || c == ']' {
    } else if atStart && c == '^' {
      ScanClassShrinks(text[1..], false, true, step, bounds);
    } else if c == '\\' {
      var d := Peek(text[1..]);
      var v := if d == 'b' then Just(BACKSPACE) else EscapeValue(d);
      if v.Just? {
        var (step', bounds') := PutClassChar(v.c, step, bounds);
        ScanClassShrinks(text[2..], false, negated, step', bounds');
      }
    } else {
      var (step', bounds') := PutClassChar(c, step, bounds);
      ScanClassShrinks(text[1..], false, negated, step', bounds');
    }
  }

  /** A step that goes on has consumed some text and leaves one counter per open parenthesis. */
  ghost predicate Advances(text: string, p: Progress) {
    match p
    case Next(rest, c) => |rest| < |text| && SuffixOf(rest, text) && Balanced(c)
    case Stop(v) => v != Ok
  }

  lemma {:induction false} BarAdvances(text: string, c: Config)
    requires text != [] && Balanced(c)
    ensures Advances(text, BarStep(text, c))
  {
    hide Reduce, Parens;
    ReduceKeepsParens(c.operands, c.operators, BAR_STOPS);
    ReduceFails(c.operands, c.operators, BAR_STOPS);
    match Reduce(c.operands, c.operators, BAR_STOPS)
    case NotReduced(_) =>
    case Reduced(es, ops) => ParensPush(ops, Alternation);
  }

  lemma {:induction false} CloseAdvances(text: string, c: Config)
    requires text != [] && Balanced(c)
    ensures Advances(text, CloseStep(text, c))
  {
    ReduceKeepsParens(c.operands, c.operators, CLOSE_STOPS);
    ReduceFails(c.operands, c.operators, CLOSE_STOPS);
    match Reduce(c.operands, c.operators, CLOSE_STOPS)
    case NotReduced(_) =>
    case Reduced(es, ops) =>
      if ops != [] && |c.atoms| >= 2 {
        ImplicitBalanced(c.(operands := es, operators := ops[..|ops| - 1], atoms := c.atoms[..|c.atoms| - 1]));
      }
  }

  lemma {:induction false} ImplicitBalanced(c: Config)
    requires Balanced(c)
    ensures Balanced(Implicit(c))
  {
    hide Parens;
    ParensPush(c.operators, Concatenation);
  }

  lemma {:induction false} BraceAdvances(text: string, c: Config)
    requires text != [] && Balanced(c)
    ensures Advances(text, BraceStep(text, c))
  {
    ScanBoundsShrinks(text[1..]);
    var s := ScanBounds(text[1..]);
    if s.Scanned? && s.rest != [] {
      SuffixTransitive(s.rest[1..], s.rest, text[1..]);
      SuffixTransitive(s.rest[1..], text[1..], text);
    }
  }

  lemma {:induction false} ClassAdvances(text: string, c: Config)
    requires text != [] && Balanced(c)
    ensures Advances(text, ClassStep(text, c))
  {
    ScanClassShrinks(text[1..], true, false, 0, []);
    var s := ScanClass(text[1..], true, false, 0, []);
    if s.Scanned? {
      SuffixTransitive(s.rest, text[1..], text);
      ImplicitBalanced(c.(operands := c.operands + [Sym(InRanges(|c.ranges|))],
                          ranges := c.ranges + LinkedRanges(s.value.bounds, |c.ranges|, s.value.negated)));
    }
  }

  lemma {:induction false} PushAdvances(text: string, c: Config, lab: Label, n: nat)
    requires 0 < n <= |text| && Balanced(c)
    ensures Advances(text, Next(text[n..], PushSym(c, lab)))
  {
    ImplicitBalanced(c.(operands := c.operands + [Sym(lab)]));
  }

  lemma {:induction false} EscapeAdvances(text: string, c: Config)
    requires text != [] && Balanced(c)
    ensures Advances(text, EscapeStep(text, c))
  {
    match EscapeValue(Peek(text[1..]))
    case Nothing =>
    case Just(v) => if |text| >= 2 { PushAdvances(text, c, Literal(v), 2); }
  }

  lemma {:induction false} OpenAdvances(text: string, c: Config)
    requires text != [] && Balanced(c)
    ensures Advances(text, Next(text[1..], c.(operators := c.operators + [LeftParenthesis], atoms := c.atoms + [0])))
  {
    hide Parens;
    ParensPush(c.operators, LeftParenthesis);
  }

  lemma {:induction false} StepAdvances(text: string, c: Config)
    requires text != [] && Balanced(c)
    ensures Advances(text, Step(text, c))
  {
    match text[0]
    case '^' =>
    case '$' =>
    case '|' => BarAdvances(text, c);
    case '(' => OpenAdvances(text, c);
    case ')' => CloseAdvances(text, c);
    case '?' =>
    case '*' =>
    case '+' =>
    case '{' => BraceAdvances(text, c);
    case '.' => PushAdvances(text, c, AnyChar, 1);
    case '[' => ClassAdvances(text, c);
    case '\\' => EscapeAdvances(text, c);
    case _ => PushAdvances(text, c, Literal(text[0]), 1);
  }

  lemma {:induction false} ReduceFails(operands: seq<Expr>, operators: seq<Operator>, stops: set<Operator>)
    ensures var r := Reduce(operands, operators, stops); r.NotReduced? ==> r.verdict != Ok
    decreases |operators|
  {
    var n := |operators|;
    if n > 0 && operators[n - 1] !in stops && EvalSpec(operands, operators[n - 1]).Done? {
      ReduceFails(EvalSpec(operands, operators[n - 1]).exprs, operators[..n - 1], stops);
    }
  }

  /** The whole run of the parser from a configuration. */
  function Run(text: string, c: Config): Outcome
    requires Balanced(c)
    decreases |text|
  {
    if Peek(text) == '\0' then Finish(c)
    else
      StepAdvances(text, c);
      match Step(text, c)
      case Stop(v) => NotCompiled(v)
      case Next(rest, c') => Run(rest, c')
  }

  const INITIAL := Config([], [], [0], [], false, false)
}
