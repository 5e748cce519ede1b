/**
 The compiler's operand stack: fragments of one growing automaton, combined in place.

 Each operand is a fragment `Frag(start, out, minIndex)`; `Laid` says that the operands, bottom to top, own
 consecutive runs of states that spell out their expressions.  Every method keeps `Laid` and states which
 expressions the stack stands for afterwards.
 */
module RegexStack {
  import opened RegexProgram
  import opened RegexSyntax

  datatype Operator = ZeroOrOneOp | ZeroOrMoreOp | OneOrMoreOp | Concatenation | Alternation | LeftParenthesis

  datatype Frag = Frag(start: nat, out: nat, minIndex: nat)

  /** How a call ended: normally, with a syntax error, or in a failed assertion of the program. */
  datatype Verdict = Ok | SyntaxError | AssertionFailed

  /** What one evaluation does to the expressions on the stack. */
  datatype Evaluated = Done(exprs: seq<Expr>) | Failed(verdict: Verdict)

  function EvalSpec(es: seq<Expr>, op: Operator): Evaluated {
    var n := |es|;
    match op
    case Concatenation =>
      if n < 2 then Failed(AssertionFailed) else Done(es[..n - 2] + [Cat(es[n - 2], es[n - 1])])
    case Alternation =>
      if n < 2 then Failed(SyntaxError) else Done(es[..n - 2] + [Alt(es[n - 2], es[n - 1])])
    case ZeroOrOneOp => if n < 1 then Failed(SyntaxError) else Done(es[..n - 1] + [Rep(es[n - 1], ZeroOrOne)])
    case ZeroOrMoreOp => if n < 1 then Failed(SyntaxError) else Done(es[..n - 1] + [Rep(es[n - 1], ZeroOrMore)])
    case OneOrMoreOp => if n < 1 then Failed(SyntaxError) else Done(es[..n - 1] + [Rep(es[n - 1], OneOrMore)])
    case LeftParenthesis => Failed(SyntaxError)
  }

  function QuantifierSpec(es: seq<Expr>, n: nat, m: nat): Evaluated {
    if es == [] then Failed(AssertionFailed)
    else if n == 0 && m == 0 then Failed(SyntaxError)
    else Done(es[..|es| - 1] + [Repeat(es[|es| - 1], n, LimitOf(m))])
  }

  /** The states from `lo` on are the open operand `e` whose dangling list ends in `t`. */
  ghost predicate Opens(states: seq<State>, e: Expr, lo: nat, t: int) {
    lo + Size(e) <= |states|
    && forall x | lo <= x < lo + Size(e) :: states[x] == Open(e, lo, t, x)
  }

  function FragOf(e: Expr, lo: nat): Frag {
    Frag(Start(e, lo), Head(e, lo), lo)
  }

  /** Every operand owns exactly the states from its `minIndex` up to the next operand, the top one up to the last state. */
  ghost predicate Laid(states: seq<State>, frags: seq<Frag>, es: seq<Expr>)
    decreases |es|
  {
    |frags| == |es|
    && if es == [] then states == []
       else
         var n := |es| - 1;
         var lo := frags[n].minIndex;
         && frags[n] == FragOf(es[n], lo)
         && lo + Size(es[n]) == |states|
         && Opens(states, es[n], lo, NONE)
         && Laid(states[..lo], frags[..n], es[..n])
  }

  lemma {:induction false} LaidPush(states: seq<State>, frags: seq<Frag>, es: seq<Expr>, more: seq<State>, e: Expr)
    requires Laid(states, frags, es)
    requires |more| == Size(e) && Opens(states + more, e, |states|, NONE)
    ensures Laid(states + more, frags + [FragOf(e, |states|)], es + [e])
  {
    assert (states + more)[..|states|] == states;
    assert (frags + [FragOf(e, |states|)])[..|frags|] == frags;
    assert (es + [e])[..|es|] == es;
  }

  lemma {:induction false} LaidTopTwo(states: seq<State>, frags: seq<Frag>, es: seq<Expr>)
    requires Laid(states, frags, es) && |es| >= 2
    ensures var n := |es|;
            var lo, mid := frags[n - 2].minIndex, frags[n - 1].minIndex;
            && lo + Size(es[n - 2]) == mid && mid + Size(es[n - 1]) == |states|
            && frags[n - 2] == FragOf(es[n - 2], lo) && frags[n - 1] == FragOf(es[n - 1], mid)
            && Opens(states, es[n - 2], lo, NONE) && Opens(states, es[n - 1], mid, NONE)
            && Laid(states[..lo], frags[..n - 2], es[..n - 2])
  {
    var n := |es|;
    var lo, mid := frags[n - 2].minIndex, frags[n - 1].minIndex;
    var below := states[..mid];
    assert Laid(below, frags[..n - 1], es[..n - 1]);
    assert below[..lo] == states[..lo];
    assert frags[..n - 1][..n - 2] == frags[..n - 2] && es[..n - 1][..n - 2] == es[..n - 2];
    forall x | lo <= x < lo + Size(es[n - 2]) ensures states[x] == Open(es[n - 2], lo, NONE, x) {
      assert below[x] == states[x];
    }
  }

  /** Two adjacent operands, the first threaded on to the second, and a split form an alternation. */
  lemma {:induction false} AltOpens(states: seq<State>, a: Expr, b: Expr, lo: nat)
    requires var mid := lo + Size(a);
             && Opens(states, a, lo, Head(b, mid)) && Opens(states, b, mid, NONE)
             && mid + Size(b) < |states| && states[mid + Size(b)] == State(Start(a, lo), Start(b, mid), Epsilon)
    ensures Opens(states, Alt(a, b), lo, NONE)
  {
  }

  class OperandStack {
    var states: seq<State>
    var frags: seq<Frag>
    ghost var exprs: seq<Expr>

    ghost predicate Valid()
      reads this
    {
      Laid(states, frags, exprs)
    }

    constructor ()
      ensures Valid() && exprs == [] && states == []
    {
      states, frags, exprs := [], [], [];
    }

    method NewState(out: int, out1: int, lab: Label) returns (i: nat)
      modifies this`states
      ensures i == old(|states|) && states == old(states) + [State(out, out1, lab)]
    {
      i := |states|;
      states := states + [State(out, out1, lab)];
    }

    /** Links the end of the dangling list that begins at `l1` to `l2`. */
    method Append(l1: nat, l2: nat, ghost e: Expr, ghost lo: nat) returns (first: nat)
      requires Opens(states, e, lo, NONE) && l1 == Head(e, lo)
      modifies this`states
      ensures first == l1
      ensures Opens(states, e, lo, l2)
      ensures |states| == old(|states|)
      ensures forall x | 0 <= x < |states| && !(lo <= x < lo + Size(e)) :: states[x] == old(states[x])
    {
      first := l1;
      ghost var outs := Dangling(e, lo);
      ghost var i: nat := 0;
      var l := l1;
      DanglingInside(e, lo, 0);
      OpenLinks(e, lo, NONE, 0);
      while states[l].out != NONE
        invariant states == old(states)
        invariant i < |outs| && l == outs[i] && lo <= l < lo + Size(e)
        invariant states[l].out == Link(outs, i, NONE)
        decreases |outs| - i
      {
        l, i := states[l].out, i + 1;
        DanglingInside(e, lo, i);
        OpenLinks(e, lo, NONE, i);
      }
      assert l == Tail(e, lo);
      states := states[l := State(l2, states[l].out1, states[l].lab)];
      forall x | lo <= x < lo + Size(e) ensures states[x] == Open(e, lo, l2, x) {
        OpenThenRelinked(e, lo, NONE, l2, x);
      }
    }

    /** Redirects every dangling edge on the list that begins at `l` to `s`. */
    method Patch(l: nat, s: nat, ghost e: Expr, ghost lo: nat)
      requires Opens(states, e, lo, NONE) && l == Head(e, lo)
      modifies this`states
      ensures Holds(states, e, lo, s)
      ensures |states| == old(|states|)
      ensures forall x | 0 <= x < |states| && !(lo <= x < lo + Size(e)) :: states[x] == old(states[x])
    {
      ghost var outs := Dangling(e, lo);
      ghost var i: nat := 0;
      var at: int := l;
      while at != NONE
        invariant i <= |outs| && |states| == old(|states|)
        invariant at == if i < |outs| then outs[i] else NONE
        invariant forall x | 0 <= x < |states| ::
                    states[x] == if x in outs[..i] then State(s, old(states)[x].out1, old(states)[x].lab) else old(states)[x]
        decreases |outs| - i
      {
        DanglingInside(e, lo, i);
        OpenLinks(e, lo, NONE, i);
        NotYetPatched(e, lo, i);
        var next := states[at].out;
        states := states[at := State(s, states[at].out1, states[at].lab)];
        at, i := next, i + 1;
        assert outs[..i] == outs[..i - 1] + [outs[i - 1]];
        if i < |outs| { DanglingInside(e, lo, i); }
      }
      assert outs[..i] == outs;
      forall x | 0 <= x < |states| && !(lo <= x < lo + Size(e)) ensures states[x] == old(states)[x] {
        NotDangling(e, lo, x);
      }
      forall x | lo <= x < lo + Size(e) ensures states[x] == Wired(e, lo, s, x) {
        OpenThenWired(e, lo, NONE, s, x);
      }
    }

    method PushOperand(lab: Label)
      requires Valid()
      modifies this
      ensures Valid() && exprs == old(exprs) + [Sym(lab)]
    {
      ghost var was, at := frags, |states|;
      var s := NewState(NONE, NONE, lab);
      frags := frags + [Frag(s, s, s)];
      exprs := exprs + [Sym(lab)];
      LaidPush(states[..at], was, exprs[..|exprs| - 1], states[at..], Sym(lab));
      assert states[..at] + states[at..] == states;
    }

    // Each case of `Eval` on its own.

    method EvalConcatenation()
      requires Valid() && |exprs| >= 2
      modifies this
      ensures Valid() && exprs == EvalSpec(old(exprs), Concatenation).exprs
    {
      var n := |frags|;
      ghost var a, b := exprs[n - 2], exprs[n - 1];
      LaidTopTwo(states, frags, exprs);
      var e2, e1 := frags[n - 1], frags[n - 2];
      ghost var lo, mid, was := e1.minIndex, e2.minIndex, states;
      frags := frags[..n - 2];
      Patch(e1.out, e2.start, a, lo);
      frags := frags + [Frag(e1.start, e2.out, Min(e1.minIndex, e2.minIndex))];
      exprs := exprs[..n - 2] + [Cat(a, b)];
      Finish(was, lo, Cat(a, b));
    }

    /** Makes a split before two operands and chains their dangling lists. */
    method LinkAlternatives(e1: Frag, e2: Frag, ghost a: Expr, ghost b: Expr) returns (s: nat, out: nat)
      requires e1 == FragOf(a, e1.minIndex) && e2 == FragOf(b, e2.minIndex)
      requires e1.minIndex + Size(a) == e2.minIndex && e2.minIndex + Size(b) == |states|
      requires Opens(states, a, e1.minIndex, NONE) && Opens(states, b, e2.minIndex, NONE)
      modifies `states
      ensures Opens(states, Alt(a, b), e1.minIndex, NONE) && Frag(s, out, e1.minIndex) == FragOf(Alt(a, b), e1.minIndex)
      ensures |states| == e1.minIndex + Size(Alt(a, b)) && forall x | 0 <= x < e1.minIndex :: states[x] == old(states)[x]
    {
      ghost var lo, mid := e1.minIndex, e2.minIndex;
      s := NewState(e1.start, e2.start, Epsilon);
      assert Opens(states, a, lo, NONE) && Opens(states, b, mid, NONE);
      out := Append(e1.out, e2.out, a, lo);
      AltOpens(states, a, b, lo);
    }

    method EvalAlternation()
      requires Valid() && |exprs| >= 2
      modifies this
      ensures Valid() && exprs == EvalSpec(old(exprs), Alternation).exprs
    {
      var n := |frags|;
      ghost var a, b := exprs[n - 2], exprs[n - 1];
      LaidTopTwo(states, frags, exprs);
      var e2, e1 := frags[n - 1], frags[n - 2];
      ghost var was := states;
      frags := frags[..n - 2];
      var s, out := LinkAlternatives(e1, e2, a, b);
      frags := frags + [Frag(s, out, Min(e1.minIndex, e2.minIndex))];
      exprs := exprs[..n - 2] + [Alt(a, b)];
      Finish(was, e1.minIndex, Alt(a, b));
    }

    method EvalZeroOrOne()
      requires Valid() && |exprs| >= 1
      modifies this
      ensures Valid() && exprs == EvalSpec(old(exprs), ZeroOrOneOp).exprs
    {
      var n := |frags|;
      ghost var a, was := exprs[n - 1], states;
      var e := frags[n - 1];
      frags := frags[..n - 1];
      var s := NewState(NONE, e.start, Epsilon);
      var out := Append(e.out, s, a, e.minIndex);
      frags := frags + [Frag(s, out, e.minIndex)];
      exprs := exprs[..n - 1] + [Rep(a, ZeroOrOne)];
      Finish(was, e.minIndex, Rep(a, ZeroOrOne));
    }

    method EvalZeroOrMore()
      requires Valid() && |exprs| >= 1
      modifies this
      ensures Valid() && exprs == EvalSpec(old(exprs), ZeroOrMoreOp).exprs
    {
      var n := |frags|;
      ghost var a, was := exprs[n - 1], states;
      var e := frags[n - 1];
      frags := frags[..n - 1];
      var s := NewState(NONE, e.start, Epsilon);
      Patch(e.out, s, a, e.minIndex);
      frags := frags + [Frag(s, s, e.minIndex)];
      exprs := exprs[..n - 1] + [Rep(a, ZeroOrMore)];
      Finish(was, e.minIndex, Rep(a, ZeroOrMore));
    }

    method EvalOneOrMore()
      requires Valid() && |exprs| >= 1
      modifies this
      ensures Valid() && exprs == EvalSpec(old(exprs), OneOrMoreOp).exprs
    {
      var n := |frags|;
      ghost var a, was := exprs[n - 1], states;
      var e := frags[n - 1];
      frags := frags[..n - 1];
      var s := NewState(NONE, e.start, Epsilon);
      Patch(e.out, s, a, e.minIndex);
      frags := frags + [Frag(e.start, s, e.minIndex)];
      exprs := exprs[..n - 1] + [Rep(a, OneOrMore)];
      Finish(was, e.minIndex, Rep(a, OneOrMore));
    }

    /** Restores `Laid` after the states from `lo` on were turned into the new top operand `e`. */
    lemma {:induction false} Finish(was: seq<State>, lo: nat, e: Expr)
      requires |exprs| > 0 && |frags| == |exprs| && lo <= |was| <= |states| == lo + Size(e)
      requires Laid(was[..lo], frags[..|frags| - 1], exprs[..|exprs| - 1])
      requires forall x | 0 <= x < lo :: states[x] == was[x]
      requires exprs[|exprs| - 1] == e && frags[|frags| - 1] == FragOf(e, lo) && Opens(states, e, lo, NONE)
      ensures Valid()
    {
      assert states[..lo] == was[..lo];
    }

    /** Applies one operator to the top of the stack. */
    method Eval(op: Operator) returns (verdict: Verdict)
      requires Valid()
      modifies this
      ensures match EvalSpec(old(exprs), op)
              case Done(es) => verdict == Ok && Valid() && exprs == es
              case Failed(v) => verdict == v
    {
      match op {
        case Concatenation =>
          if |frags| < 2 { return AssertionFailed; }
          EvalConcatenation();
        case Alternation =>
          if |frags| < 2 { return SyntaxError; }
          EvalAlternation();
        case ZeroOrOneOp =>
          if |frags| < 1 { return SyntaxError; }
          EvalZeroOrOne();
        case ZeroOrMoreOp =>
          if |frags| < 1 { return SyntaxError; }
          EvalZeroOrMore();
        case OneOrMoreOp =>
          if |frags| < 1 { return SyntaxError; }
          EvalOneOrMore();
        case LeftParenthesis => return SyntaxError;
      }
      verdict := Ok;
    }

    /** Pushes a disjoint copy of the top operand. */
    method CloneTopOperand()
      requires Valid() && exprs != []
      modifies this
      ensures Valid() && exprs == old(exprs) + [old(exprs)[|old(exprs)| - 1]]
    {
      hide Open, Dangling;
      var src := frags[|frags| - 1];
      ghost var e, was := exprs[|exprs| - 1], states;
      var count := |states| - src.minIndex;
      var ss := states;
      var copy := seq(count, j requires 0 <= j < count => Shift(ss[src.minIndex + j], count));
      LaidPushClone(states, frags, exprs, copy);
      states := states + copy;
      frags := frags + [Frag(src.start + count, src.out + count, src.minIndex + count)];
      exprs := exprs + [e];
    }

    /** Concatenates `k` times: `k` equal operands below the top one end up in front of it. */
    method Concatenate(k: nat, ghost base: seq<Expr>, ghost e: Expr, ghost tail: Expr)
      requires Valid() && exprs == base + Copies(e, k) + [tail]
      modifies this
      ensures Valid() && exprs == base + [Before(e, k, tail)]
    {
      var i := 0;
      while i < k
        invariant i <= k && Valid()
        invariant exprs == base + Copies(e, k - i) + [Before(e, i, tail)]
      {
        EvalConcatenation();
        i := i + 1;
        assert exprs == base + Copies(e, k - i) + [Before(e, i, tail)];
      }
    }

    /** Clones the top operand `k` times. */
    method CloneTimes(k: nat, ghost base: seq<Expr>, ghost e: Expr)
      requires Valid() && exprs == base + [e]
      modifies this
      ensures Valid() && exprs == base + Copies(e, k + 1)
    {
      var i := 0;
      while i < k
        invariant i <= k && Valid()
        invariant exprs == base + Copies(e, i + 1)
      {
        CloneTopOperand();
        i := i + 1;
      }
    }

    /** Turns the top operand `e` into `n` optional copies of it. */
    method EvalOptionals(n: nat, ghost base: seq<Expr>, ghost e: Expr)
      requires Valid() && n > 0 && exprs == base + [e]
      modifies this
      ensures Valid() && exprs == base + [Before(Rep(e, ZeroOrOne), n - 1, Rep(e, ZeroOrOne))]
    {
      ghost var o := Rep(e, ZeroOrOne);
      EvalZeroOrOne();
      assert exprs == base + [o];
      CloneTimes(n - 1, base, o);
      CopiesOneMore(base, o, n - 1);
      Concatenate(n - 1, base, o, o);
    }

    /** The quantifier with a positive lower bound, once `n` copies of `e` are on the stack. */
    method EvalFrom(n: nat, m: nat, ghost base: seq<Expr>, ghost e: Expr)
      requires Valid() && 0 < n <= m && exprs == base + Copies(e, n - 1) + [e]
      modifies this
      ensures Valid() && exprs == base + [Repeat(e, n, LimitOf(m))]
    {
      if m == INFINITY {
        EvalOneOrMore();
        assert exprs == base + Copies(e, n - 1) + [Rep(e, OneOrMore)];
        Concatenate(n - 1, base, e, Rep(e, OneOrMore));
      } else if m > n {
        CloneTopOperand();
        assert exprs == (base + Copies(e, n - 1) + [e]) + [e];
        EvalOptionals(m - n, base + Copies(e, n - 1) + [e], e);
        ghost var tail := Before(Rep(e, ZeroOrOne), m - n - 1, Rep(e, ZeroOrOne));
        EvalConcatenation();
        assert exprs == base + Copies(e, n - 1) + [Cat(e, tail)];
        Concatenate(n - 1, base, e, Cat(e, tail));
        BeforeOneMore(e, n - 1, tail);
      } else {
        Concatenate(n - 1, base, e, e);
      }
    }

    /** Applies `{n,m}` to the top operand by cloning and concatenating. */
    method EvalQuantifier(n: nat, m: nat) returns (verdict: Verdict)
      requires Valid() && n <= m
      modifies this
      ensures match QuantifierSpec(old(exprs), n, m)
              case Done(es) => verdict == Ok && Valid() && exprs == es
              case Failed(v) => verdict == v
    {
      if frags == [] { return AssertionFailed; }
      ghost var base, e := exprs[..|exprs| - 1], exprs[|exprs| - 1];
      assert exprs == base + [e];
      if n == 0 {
        if m == 0 {
          return SyntaxError;
        } else if m == INFINITY {
          EvalZeroOrMore();
        } else {
          EvalOptionals(m, base, e);
        }
      } else {
        CloneTimes(n - 1, base, e);
        CopiesOneMore(base, e, n - 1);
        EvalFrom(n, m, base, e);
      }
      verdict := Ok;
    }
  }

  lemma {:induction false} CopiesOneMore(base: seq<Expr>, e: Expr, n: nat)
    ensures base + Copies(e, n + 1) == base + Copies(e, n) + [e]
  {
  }

  function Min(a: nat, b: nat): nat {
    if a < b then a else b
  }

  function Copies(e: Expr, n: nat): (es: seq<Expr>)
    ensures |es| == n && forall i | 0 <= i < n :: es[i] == e
  {
    seq(n, i => e)
  }

  lemma {:induction false} BeforeOneMore(e: Expr, n: nat, tail: Expr)
    ensures Before(e, n, Cat(e, tail)) == Before(e, n + 1, tail)
  {
    if n > 0 { BeforeOneMore(e, n - 1, tail); }
  }

  /** A copy of the top operand's states, shifted by their number, is a further operand on top. */
  lemma {:induction false} LaidPushClone(states: seq<State>, frags: seq<Frag>, es: seq<Expr>, copy: seq<State>)
    requires Laid(states, frags, es) && es != []
    requires var lo, count := frags[|frags| - 1].minIndex, |copy|;
             lo + count == |states| && forall j | 0 <= j < count :: copy[j] == Shift(states[lo + j], count)
    ensures var src, count := frags[|frags| - 1], |copy|;
            Laid(states + copy, frags + [Frag(src.start + count, src.out + count, src.minIndex + count)], es + [es[|es| - 1]])
  {
    var e, lo, count := es[|es| - 1], frags[|frags| - 1].minIndex, |copy|;
    var all := states + copy;
    StartMoves(e, lo, count);
    HeadMoves(e, lo, count);
    forall x | |states| <= x < |states| + Size(e) ensures all[x] == Open(e, |states|, NONE, x) {
      OpenMoves(e, lo, NONE, count, x - count);
      assert all[x] == copy[x - |states|] == Shift(states[x - count], count);
    }
    LaidPush(states, frags, es, copy, e);
  }

  /** State i of the dangling list is not among the first i. */
  lemma {:induction false} NotYetPatched(e: Expr, lo: nat, i: nat)
    requires i < |Dangling(e, lo)|
    ensures Dangling(e, lo)[i] !in Dangling(e, lo)[..i]
  {
    var outs := Dangling(e, lo);
    if outs[i] in outs[..i] {
      var j :| 0 <= j < i && outs[..i][j] == outs[i];
      DanglingIncreasing(e, lo, j, i);
    }
  }
}
