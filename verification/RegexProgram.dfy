/**
 The automaton that the regular-expression compiler builds, and the shape it has for each expression.

 An expression occupies a contiguous run of states that begins at some index `lo`.  While it is still an
 operand its dangling edges are threaded through the `out` fields as a linked list (`Open`); once it has been
 patched every dangling edge leads to one continuation state (`Wired`).
 */
module RegexProgram {

  /** The index that stands for "no state" and "no range". */
  const NONE := -1

  /** What a state consumes.  Splits and the matching state consume nothing. */
  datatype Label = Epsilon | Literal(c: char) | AnyChar | InRanges(first: int)

  datatype State = State(out: int, out1: int, lab: Label)

  /** One interval of a character class; a class is a list of these linked by `next`. */
  datatype Range = Range(start: int, end: int, next: int)

  /** Added to the `start` of the first interval of a negated class. */
  const NEGATION_FLAG := 0x8000_0000

  datatype Repetition = ZeroOrOne | ZeroOrMore | OneOrMore

  /** The expressions that the operands on the compiler's stack stand for. */
  datatype Expr =
    | Sym(lab: Label)
    | Cat(left: Expr, right: Expr)
    | Alt(left: Expr, right: Expr)
    | Rep(body: Expr, kind: Repetition)

  function Size(e: Expr): (n: nat)
    ensures n > 0
  {
    match e
    case Sym(_) => 1
    case Cat(a, b) => Size(a) + Size(b)
    case Alt(a, b) => Size(a) + Size(b) + 1
    case Rep(a, _) => Size(a) + 1
  }

  /** The entry state of `e` laid out at `lo`. */
  function Start(e: Expr, lo: nat): nat {
    match e
    case Sym(_) => lo
    case Cat(a, b) => Start(a, lo)
    case Alt(a, b) => lo + Size(a) + Size(b)
    case Rep(a, kind) => if kind.OneOrMore? then Start(a, lo) else lo + Size(a)
  }

  lemma {:induction false} StartInside(e: Expr, lo: nat)
    ensures lo <= Start(e, lo) < lo + Size(e)
  {
    match e
    case Sym(_) =>
    case Cat(a, b) => StartInside(a, lo);
    case Alt(a, b) =>
    case Rep(a, _) => StartInside(a, lo);
  }

  /** The states with a dangling `out`, in the order in which the compiler threads them. */
  function Dangling(e: Expr, lo: nat): (outs: seq<nat>)
    ensures outs != []
  {
    match e
    case Sym(_) => [lo]
    case Cat(a, b) => Dangling(b, lo + Size(a))
    case Alt(a, b) => Dangling(a, lo) + Dangling(b, lo + Size(a))
    case Rep(a, kind) =>
      if kind.ZeroOrOne? then Dangling(a, lo) + [lo + Size(a)] else [lo + Size(a)]
  }

  /** The first and the last element of the dangling list. */
  function Head(e: Expr, lo: nat): nat {
    Dangling(e, lo)[0]
  }

  function Tail(e: Expr, lo: nat): nat {
    var outs := Dangling(e, lo);
    outs[|outs| - 1]
  }

  /** State `x` of `e` laid out at `lo`, every dangling edge leading to `k`. */
  function Wired(e: Expr, lo: nat, k: int, x: nat): State {
    match e
    case Sym(l) => State(k, NONE, l)
    case Cat(a, b) =>
      var mid := lo + Size(a);
      if x < mid then Wired(a, lo, Start(b, mid), x) else Wired(b, mid, k, x)
    case Alt(a, b) =>
      var mid := lo + Size(a);
      if x < mid then Wired(a, lo, k, x)
      else if x < mid + Size(b) then Wired(b, mid, k, x)
      else State(Start(a, lo), Start(b, mid), Epsilon)
    case Rep(a, kind) =>
      var s := lo + Size(a);
      if x < s then Wired(a, lo, if kind.ZeroOrOne? then k else s, x) else State(k, Start(a, lo), Epsilon)
  }

  /** State `x` of `e` laid out at `lo` while `e` is an operand: the dangling list ends in `t`. */
  function Open(e: Expr, lo: nat, t: int, x: nat): State {
    match e
    case Sym(l) => State(t, NONE, l)
    case Cat(a, b) =>
      var mid := lo + Size(a);
      if x < mid then Wired(a, lo, Start(b, mid), x) else Open(b, mid, t, x)
    case Alt(a, b) =>
      var mid := lo + Size(a);
      if x < mid then Open(a, lo, Head(b, mid), x)
      else if x < mid + Size(b) then Open(b, mid, t, x)
      else State(Start(a, lo), Start(b, mid), Epsilon)
    case Rep(a, kind) =>
      var s := lo + Size(a);
      if x < s then (if kind.ZeroOrOne? then Open(a, lo, s, x) else Wired(a, lo, s, x))
      else State(t, Start(a, lo), Epsilon)
  }

  // ---- the dangling list is acyclic and links exactly the dangling states ----

  /** The states from `lo` on are `e`, wired to the continuation `k`. */
  ghost predicate Holds(states: seq<State>, e: Expr, lo: nat, k: int) {
    lo + Size(e) <= |states|
    && forall x | lo <= x < lo + Size(e) :: states[x] == Wired(e, lo, k, x)
  }

  lemma {:induction false} DanglingInside(e: Expr, lo: nat, i: nat)
    requires i < |Dangling(e, lo)|
    ensures lo <= Dangling(e, lo)[i] < lo + Size(e)
  {
    match e
    case Sym(_) =>
    case Cat(a, b) => DanglingInside(b, lo + Size(a), i);
    case Alt(a, b) =>
      var m := |Dangling(a, lo)|;
      if i < m { DanglingInside(a, lo, i); } else { DanglingInside(b, lo + Size(a), i - m); }
    case Rep(a, kind) =>
      if kind.ZeroOrOne? && i < |Dangling(a, lo)| { DanglingInside(a, lo, i); }
  }

  lemma {:induction false} DanglingIncreasing(e: Expr, lo: nat, i: nat, j: nat)
    requires i < j < |Dangling(e, lo)|
    ensures Dangling(e, lo)[i] < Dangling(e, lo)[j]
  {
    match e
    case Sym(_) =>
    case Cat(a, b) => DanglingIncreasing(b, lo + Size(a), i, j);
    case Alt(a, b) =>
      var m := |Dangling(a, lo)|;
      if j < m {
        DanglingIncreasing(a, lo, i, j);
      } else if m <= i {
        DanglingIncreasing(b, lo + Size(a), i - m, j - m);
      } else {
        DanglingInside(a, lo, i); DanglingInside(b, lo + Size(a), j - m);
      }
    case Rep(a, kind) =>
      if j < |Dangling(a, lo)| {
        DanglingIncreasing(a, lo, i, j);
      } else {
        DanglingInside(a, lo, i);
      }
  }

  /** The element of the dangling list after the i-th, with `t` at the end. */
  function Link(outs: seq<nat>, i: nat, t: int): int {
    if i + 1 < |outs| then outs[i + 1] else t
  }

  /** Walking the `out` fields of an open operand from its first dangling state visits `Dangling` and ends in `t`. */
  lemma {:induction false} OpenLinks(e: Expr, lo: nat, t: int, i: nat)
    requires i < |Dangling(e, lo)|
    ensures Open(e, lo, t, Dangling(e, lo)[i]).out == Link(Dangling(e, lo), i, t)
    decreases e, 1
  {
    match e
    case Sym(_) =>
    case Cat(a, b) => DanglingInside(b, lo + Size(a), i); OpenLinks(b, lo + Size(a), t, i);
    case Alt(a, b) => OpenLinksAlt(a, b, lo, t, i);
    case Rep(a, kind) =>
      if kind.ZeroOrOne? && i < |Dangling(a, lo)| {
        DanglingInside(a, lo, i); OpenLinks(a, lo, lo + Size(a), i);
      }
  }

  lemma {:induction false} OpenLinksAlt(a: Expr, b: Expr, lo: nat, t: int, i: nat)
    requires i < |Dangling(Alt(a, b), lo)|
    ensures Open(Alt(a, b), lo, t, Dangling(Alt(a, b), lo)[i]).out == Link(Dangling(Alt(a, b), lo), i, t)
    decreases Alt(a, b), 0
  {
    var mid, m := lo + Size(a), |Dangling(a, lo)|;
    if i < m {
      DanglingInside(a, lo, i); OpenLinks(a, lo, Head(b, mid), i);
    } else {
      DanglingInside(b, mid, i - m); OpenLinks(b, mid, t, i - m);
    }
  }

  lemma {:induction false} DanglingSplit(e: Expr, lo: nat, x: nat)
    requires e.Alt?
    ensures x in Dangling(e, lo)
       <==> x in Dangling(e.left, lo) || x in Dangling(e.right, lo + Size(e.left))
  {
  }

  lemma {:induction false} NotDangling(e: Expr, lo: nat, x: nat)
    requires x < lo || lo + Size(e) <= x
    ensures x !in Dangling(e, lo)
  {
    if x in Dangling(e, lo) {
      var i :| 0 <= i < |Dangling(e, lo)| && Dangling(e, lo)[i] == x;
      DanglingInside(e, lo, i);
    }
  }

  /** Redirecting the dangling edges, and nothing else, turns an open operand into a wired one. */
  lemma {:induction false} OpenThenWired(e: Expr, lo: nat, t: int, k: int, x: nat)
    requires lo <= x < lo + Size(e)
    ensures x in Dangling(e, lo) ==> Wired(e, lo, k, x) == Open(e, lo, t, x).(out := k)
    ensures x !in Dangling(e, lo) ==> Wired(e, lo, k, x) == Open(e, lo, t, x)
  {
    match e
    case Sym(_) =>
    case Cat(a, b) =>
      var mid := lo + Size(a);
      if x >= mid { OpenThenWired(b, mid, t, k, x); } else { NotDangling(b, mid, x); }
    case Alt(a, b) =>
      var mid := lo + Size(a);
      DanglingSplit(e, lo, x);
      if x < mid {
        NotDangling(b, mid, x);
        OpenThenWired(a, lo, Head(b, mid), k, x);
      } else if x < mid + Size(b) {
        NotDangling(a, lo, x);
        OpenThenWired(b, mid, t, k, x);
      } else {
        NotDangling(a, lo, x); NotDangling(b, mid, x);
      }
    case Rep(a, kind) =>
      if x < lo + Size(a) && kind.ZeroOrOne? { OpenThenWired(a, lo, lo + Size(a), k, x); }
  }

  /** Redirecting only the end of the dangling list re-threads it. */
  lemma {:induction false} OpenThenRelinked(e: Expr, lo: nat, t: int, u: int, x: nat)
    requires lo <= x < lo + Size(e)
    ensures x == Tail(e, lo) ==> Open(e, lo, u, x) == Open(e, lo, t, x).(out := u)
    ensures x != Tail(e, lo) ==> Open(e, lo, u, x) == Open(e, lo, t, x)
  {
    hide Wired;
    match e
    case Sym(_) =>
    case Cat(a, b) =>
      var mid := lo + Size(a);
      DanglingInside(b, mid, |Dangling(b, mid)| - 1);
      if x >= mid { OpenThenRelinked(b, mid, t, u, x); }
    case Alt(a, b) =>
      var mid := lo + Size(a);
      assert Tail(e, lo) == Tail(b, mid);
      DanglingInside(b, mid, |Dangling(b, mid)| - 1);
      if mid <= x < mid + Size(b) { OpenThenRelinked(b, mid, t, u, x); }
    case Rep(_, _) =>
  }

  // ---- cloning an operand by shifting its indices ----

  function Moved(i: int, d: nat): int {
    if i == NONE then NONE else i + d
  }

  function Shift(s: State, d: nat): State {
    State(Moved(s.out, d), Moved(s.out1, d), s.lab)
  }

  lemma {:induction false} StartMoves(e: Expr, lo: nat, d: nat)
    ensures Start(e, lo + d) == Start(e, lo) + d
  {
    match e
    case Cat(a, b) => StartMoves(a, lo, d);
    case Rep(a, _) => StartMoves(a, lo, d);
    case _ =>
  }

  lemma {:induction false} HeadMoves(e: Expr, lo: nat, d: nat)
    ensures Head(e, lo + d) == Head(e, lo) + d
  {
    match e
    case Sym(_) =>
    case Cat(a, b) => HeadMoves(b, lo + Size(a), d); assert lo + d + Size(a) == lo + Size(a) + d;
    case Alt(a, b) => HeadMoves(a, lo, d);
    case Rep(a, kind) => if kind.ZeroOrOne? { HeadMoves(a, lo, d); }
  }

  lemma {:induction false} WiredMoves(e: Expr, lo: nat, k: int, d: nat, x: nat)
    requires k >= NONE
    ensures Wired(e, lo + d, Moved(k, d), x + d) == Shift(Wired(e, lo, k, x), d)
  {
    match e
    case Sym(_) =>
    case Cat(a, b) =>
      var mid := lo + Size(a);
      assert lo + d + Size(a) == mid + d;
      StartMoves(b, mid, d);
      if x < mid {
        WiredMoves(a, lo, Start(b, mid), d, x);
      } else {
        WiredMoves(b, mid, k, d, x);
      }
    case Alt(a, b) =>
      var mid := lo + Size(a);
      assert lo + d + Size(a) == mid + d;
      StartMoves(a, lo, d); StartMoves(b, mid, d);
      if x < mid {
        WiredMoves(a, lo, k, d, x);
      } else if x < mid + Size(b) {
        WiredMoves(b, mid, k, d, x);
      }
    case Rep(a, kind) =>
      var s := lo + Size(a);
      StartMoves(a, lo, d);
      if x < s { WiredMoves(a, lo, if kind.ZeroOrOne? then k else s, d, x); }
  }

  /** A copy of an open operand with shifted indices is the same operand laid out further up. */
  lemma {:induction false} OpenMoves(e: Expr, lo: nat, t: int, d: nat, x: nat)
    requires t >= NONE
    ensures Open(e, lo + d, Moved(t, d), x + d) == Shift(Open(e, lo, t, x), d)
  {
    match e
    case Sym(_) =>
    case Cat(a, b) =>
      var mid := lo + Size(a);
      assert lo + d + Size(a) == mid + d;
      StartMoves(b, mid, d);
      if x < mid {
        WiredMoves(a, lo, Start(b, mid), d, x);
      } else {
        OpenMoves(b, mid, t, d, x);
      }
    case Alt(a, b) =>
      var mid := lo + Size(a);
      assert lo + d + Size(a) == mid + d;
      StartMoves(a, lo, d); StartMoves(b, mid, d); HeadMoves(b, mid, d);
      if x < mid {
        OpenMoves(a, lo, Head(b, mid), d, x);
      } else if x < mid + Size(b) {
        OpenMoves(b, mid, t, d, x);
      }
    case Rep(a, kind) =>
      var s := lo + Size(a);
      StartMoves(a, lo, d);
      if x < s {
        if kind.ZeroOrOne? { OpenMoves(a, lo, s, d, x); } else { WiredMoves(a, lo, s, d, x); }
      }
  }
}
