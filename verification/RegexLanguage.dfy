/**
 What an expression denotes, what an automaton accepts, and the proof that the two agree for the layout that the
 compiler produces.
 */
module RegexLanguage {
  import opened RegexProgram

  // ---- character classes ----

  predicate Negated(r: Range) {
    r.start >= NEGATION_FLAG
  }

  predicate Covers(r: Range, c: char) {
    r.start % NEGATION_FLAG <= c as int <= r.end
  }

  /** Some interval of the list that begins at `i` covers `c`. */
  predicate InList(ranges: seq<Range>, i: int, c: char)
    decreases |ranges| - i
  {
    0 <= i < |ranges|
    && (Covers(ranges[i], c) || (ranges[i].next > i && InList(ranges, ranges[i].next, c)))
  }

  /** Lists lead forward, so walking one ends. */
  ghost predicate Forward(ranges: seq<Range>) {
    forall i | 0 <= i < |ranges| :: ranges[i].next == NONE || i < ranges[i].next < |ranges|
  }

  predicate Hits(ranges: seq<Range>, lab: Label, c: char) {
    match lab
    case Epsilon => false
    case Literal(d) => c == d
    case AnyChar => true
    case InRanges(first) => 0 <= first < |ranges| && Negated(ranges[first]) != InList(ranges, first, c)
  }

  // ---- the language of an expression ----

  ghost predicate InLang(ranges: seq<Range>, e: Expr, w: string)
    decreases e, |w|
  {
    match e
    case Sym(lab) => |w| == 1 && Hits(ranges, lab, w[0])
    case Cat(a, b) => exists i | 0 <= i <= |w| :: InLang(ranges, a, w[..i]) && InLang(ranges, b, w[i..])
    case Alt(a, b) => InLang(ranges, a, w) || InLang(ranges, b, w)
    case Rep(a, kind) =>
      match kind
      case ZeroOrOne => w == [] || InLang(ranges, a, w)
      case ZeroOrMore => InStar(ranges, a, w)
      case OneOrMore => exists i | 0 <= i <= |w| :: InLang(ranges, a, w[..i]) && InStar(ranges, a, w[i..])
  }

  ghost predicate InStar(ranges: seq<Range>, a: Expr, w: string)
    decreases a, |w| + 1
  {
    w == [] || exists i | 0 < i <= |w| :: InLang(ranges, a, w[..i]) && InStar(ranges, a, w[i..])
  }

  predicate Nullable(e: Expr) {
    match e
    case Sym(_) => false
    case Cat(a, b) => Nullable(a) && Nullable(b)
    case Alt(a, b) => Nullable(a) || Nullable(b)
    case Rep(a, kind) => !kind.OneOrMore? || Nullable(a)
  }

  lemma {:induction false} NullableIsEmptyString(ranges: seq<Range>, e: Expr)
    ensures Nullable(e) <==> InLang(ranges, e, [])
  {
    var w: string := [];
    match e
    case Sym(_) =>
    case Cat(a, b) =>
      NullableIsEmptyString(ranges, a); NullableIsEmptyString(ranges, b);
      assert w[..0] == w && w[0..] == w;
    case Alt(a, b) => NullableIsEmptyString(ranges, a); NullableIsEmptyString(ranges, b);
    case Rep(a, kind) =>
      NullableIsEmptyString(ranges, a);
      assert w[..0] == w && w[0..] == w;
  }

  /** No repeated operand matches the empty string. */
  predicate Safe(e: Expr) {
    match e
    case Sym(_) => true
    case Cat(a, b) => Safe(a) && Safe(b)
    case Alt(a, b) => Safe(a) && Safe(b)
    case Rep(a, kind) => Safe(a) && (kind.ZeroOrOne? || !Nullable(a))
  }

  // ---- automata without epsilon cycles ----

  datatype Automaton = Automaton(states: seq<State>, ranges: seq<Range>, root: nat)

  predicate IsSplit(s: State) {
    s.out1 != NONE
  }

  predicate IsFinal(s: State) {
    s.out1 == NONE && s.out == NONE
  }

  /** Index `j` is a state of smaller rank than state `i`. */
  predicate Below(rank: seq<nat>, i: nat, j: int) {
    i < |rank| && 0 <= j < |rank| && rank[j] < rank[i]
  }

  /** Every edge stays inside, and the edges that consume nothing descend in rank. */
  ghost predicate Ranked(states: seq<State>, rank: seq<nat>) {
    && |rank| == |states|
    && forall i | 0 <= i < |states| ::
         if IsSplit(states[i]) then Below(rank, i, states[i].out) && Below(rank, i, states[i].out1)
         else NONE <= states[i].out < |states|
  }

  /** State `i` accepts `w`. */
  ghost predicate Accepts(m: Automaton, rank: seq<nat>, i: nat, w: string)
    decreases |w|, if i < |rank| then rank[i] else 0
  {
    i < |m.states|
    && var s := m.states[i];
       if IsSplit(s) then
         (Below(rank, i, s.out) && Accepts(m, rank, s.out, w)) || (Below(rank, i, s.out1) && Accepts(m, rank, s.out1, w))
       else if IsFinal(s) then w == []
       else w != [] && Hits(m.ranges, s.lab, w[0]) && s.out >= 0 && Accepts(m, rank, s.out, w[1..])
  }

  lemma {:induction false} HoldsParts(states: seq<State>, e: Expr, lo: nat, k: int)
    requires Holds(states, e, lo, k)
    ensures e.Cat? ==> Holds(states, e.left, lo, Start(e.right, lo + Size(e.left)))
    ensures e.Cat? ==> Holds(states, e.right, lo + Size(e.left), k)
    ensures e.Alt? ==> Holds(states, e.left, lo, k)
    ensures e.Alt? ==> Holds(states, e.right, lo + Size(e.left), k)
    ensures e.Alt? ==> states[Start(e, lo)] == State(Start(e.left, lo), Start(e.right, lo + Size(e.left)), Epsilon)
    ensures e.Rep? ==> Holds(states, e.body, lo, if e.kind.ZeroOrOne? then k else lo + Size(e.body))
    ensures e.Rep? ==> states[lo + Size(e.body)] == State(k, Start(e.body, lo), Epsilon)
  {
    match e
    case Sym(_) =>
    case Cat(a, b) =>
      var mid := lo + Size(a);
      forall x | lo <= x < mid ensures states[x] == Wired(a, lo, Start(b, mid), x) {
        assert states[x] == Wired(e, lo, k, x);
      }
      forall x | mid <= x < mid + Size(b) ensures states[x] == Wired(b, mid, k, x) {
        assert states[x] == Wired(e, lo, k, x);
      }
    case Alt(a, b) =>
      var mid := lo + Size(a);
      forall x | lo <= x < mid ensures states[x] == Wired(a, lo, k, x) {
        assert states[x] == Wired(e, lo, k, x);
      }
      forall x | mid <= x < mid + Size(b) ensures states[x] == Wired(b, mid, k, x) {
        assert states[x] == Wired(e, lo, k, x);
      }
    case Rep(a, kind) =>
      var s := lo + Size(a);
      forall x | lo <= x < s ensures states[x] == Wired(a, lo, if kind.ZeroOrOne? then k else s, x) {
        assert states[x] == Wired(e, lo, k, x);
      }
  }

  // ---- acceptance by paths, in any graph ----

  /** State `i` accepts `w` along a path of at most `n` edges, whatever cycles the graph has. */
  ghost predicate Reaches(m: Automaton, n: nat, i: int, w: string) {
    0 <= i < |m.states|
    && var s := m.states[i];
       if IsFinal(s) then w == []
       else if IsSplit(s) then n > 0 && (Reaches(m, n - 1, s.out, w) || Reaches(m, n - 1, s.out1, w))
       else n > 0 && w != [] && Hits(m.ranges, s.lab, w[0]) && Reaches(m, n - 1, s.out, w[1..])
  }

  /** Some path accepts `w` from state `i`. */
  ghost predicate Follows(m: Automaton, i: int, w: string) {
    exists n: nat :: Reaches(m, n, i, w)
  }

  /** Without epsilon cycles, acceptance by a path is the acceptance that ranks define. */
  lemma {:induction false} RankedFollows(m: Automaton, rank: seq<nat>, i: nat, w: string)
    requires Ranked(m.states, rank)
    ensures Accepts(m, rank, i, w) <==> Follows(m, i, w)
  {
    if Accepts(m, rank, i, w) { var _ := RankedReaches(m, rank, i, w); }
    if n: nat :| Reaches(m, n, i, w) { ReachesRanked(m, rank, n, i, w); }
  }

  lemma {:induction false} RankedReaches(m: Automaton, rank: seq<nat>, i: nat, w: string) returns (n: nat)
    requires Ranked(m.states, rank) && Accepts(m, rank, i, w)
    ensures Reaches(m, n, i, w)
    decreases |w|, if i < |rank| then rank[i] else 0
  {
    var s := m.states[i];
    if IsSplit(s) {
      assert Below(rank, i, s.out) && Below(rank, i, s.out1);
      n := RankedReaches(m, rank, if Accepts(m, rank, s.out, w) then s.out else s.out1, w);
      n := n + 1;
    } else if IsFinal(s) {
      n := 0;
    } else {
      n := RankedReaches(m, rank, s.out, w[1..]);
      n := n + 1;
    }
  }

  lemma {:induction false} ReachesRanked(m: Automaton, rank: seq<nat>, n: nat, i: nat, w: string)
    requires Ranked(m.states, rank) && Reaches(m, n, i, w)
    ensures Accepts(m, rank, i, w)
  {
    var s := m.states[i];
    if IsSplit(s) {
      assert Below(rank, i, s.out) && Below(rank, i, s.out1);
      ReachesRanked(m, rank, n - 1, if Reaches(m, n - 1, s.out, w) then s.out else s.out1, w);
    } else if !IsFinal(s) {
      ReachesRanked(m, rank, n - 1, s.out, w[1..]);
    }
  }

  // ---- the words of a concatenation, seen from the whole string and from the remainder after the first factor ----

  lemma {:induction false} Slices(w: string, i: nat, n: nat)
    requires i <= n <= |w|
    ensures w[..n][..i] == w[..i] && w[..n][i..] == w[i..n] && w[i..][..n - i] == w[i..n] && w[i..][n - i..] == w[n..]
  {
  }

  lemma {:induction false} JoinCat(ranges: seq<Range>, a: Expr, b: Expr, w: string, i: nat, j: nat)
    requires i + j <= |w| && InLang(ranges, a, w[..i]) && InLang(ranges, b, w[i..][..j])
    ensures InLang(ranges, Cat(a, b), w[..i + j]) && w[i..][j..] == w[i + j..]
  {
    Slices(w, i, i + j);
  }

  lemma {:induction false} SplitCat(ranges: seq<Range>, a: Expr, b: Expr, w: string, n: nat) returns (i: nat)
    requires n <= |w| && InLang(ranges, Cat(a, b), w[..n])
    ensures i <= n && InLang(ranges, a, w[..i]) && InLang(ranges, b, w[i..][..n - i]) && w[i..][n - i..] == w[n..]
  {
    i :| 0 <= i <= n && InLang(ranges, a, w[..n][..i]) && InLang(ranges, b, w[..n][i..]);
    Slices(w, i, n);
  }

  lemma {:induction false} JoinStar(ranges: seq<Range>, a: Expr, w: string, i: nat, j: nat)
    requires i + j <= |w| && InLang(ranges, a, w[..i]) && InStar(ranges, a, w[i..][..j])
    ensures i > 0 ==> InStar(ranges, a, w[..i + j])
    ensures InLang(ranges, Rep(a, OneOrMore), w[..i + j])
    ensures w[i..][j..] == w[i + j..]
  {
    Slices(w, i, i + j);
  }

  lemma {:induction false} SplitStar(ranges: seq<Range>, a: Expr, w: string, n: nat) returns (i: nat)
    requires 0 < n <= |w| && InStar(ranges, a, w[..n])
    ensures 0 < i <= n && InLang(ranges, a, w[..i]) && InStar(ranges, a, w[i..][..n - i]) && w[i..][n - i..] == w[n..]
  {
    i :| 0 < i <= n && InLang(ranges, a, w[..n][..i]) && InStar(ranges, a, w[..n][i..]);
    Slices(w, i, n);
  }

  lemma {:induction false} SplitPlus(ranges: seq<Range>, a: Expr, w: string, n: nat) returns (i: nat)
    requires n <= |w| && InLang(ranges, Rep(a, OneOrMore), w[..n])
    ensures i <= n && InLang(ranges, a, w[..i]) && InStar(ranges, a, w[i..][..n - i]) && w[i..][n - i..] == w[n..]
  {
    i :| 0 <= i <= n && InLang(ranges, a, w[..n][..i]) && InStar(ranges, a, w[..n][i..]);
    Slices(w, i, n);
  }

  // ---- a path through a fragment spells a word of its expression ----

  /** A path from the entry of a fragment leaves it for the continuation after a word of the expression. */
  lemma {:induction false} Leaves(m: Automaton, e: Expr, lo: nat, k: nat, n: nat, w: string) returns (i: nat, rest: nat)
    requires Holds(m.states, e, lo, k) && k < |m.states| && Reaches(m, n, Start(e, lo), w)
    ensures i <= |w| && rest < n && InLang(m.ranges, e, w[..i]) && Reaches(m, rest, k, w[i..])
    decreases e, n, 1
  {
    hide Continues, InStar, Accepts;
    StartInside(e, lo);
    HoldsParts(m.states, e, lo, k);
    match e
    case Sym(_) =>
      assert m.states[lo] == Wired(e, lo, k, lo);
      i, rest := 1, n - 1;
    case Cat(a, b) =>
      i, rest := LeavesCat(m, a, b, lo, k, n, w);
    case Alt(a, b) =>
      i, rest := LeavesAlt(m, a, b, lo, k, n, w);
    case Rep(a, kind) =>
      match kind {
        case ZeroOrOne => i, rest := LeavesOption(m, a, lo, lo + Size(a), k, n, w);
        case ZeroOrMore => i, rest := LeavesLoop(m, a, lo, lo + Size(a), k, n, w);
        case OneOrMore => i, rest := LeavesPlus(m, a, lo, lo + Size(a), k, n, w);
      }
  }

  lemma {:induction false} LeavesOption(m: Automaton, a: Expr, lo: nat, s: nat, k: nat, n: nat, w: string)
    returns (i: nat, rest: nat)
    requires Holds(m.states, a, lo, k) && s < |m.states| && k < |m.states|
    requires m.states[s] == State(k, Start(a, lo), Epsilon) && Reaches(m, n, s, w)
    ensures i <= |w| && rest < n && InLang(m.ranges, Rep(a, ZeroOrOne), w[..i]) && Reaches(m, rest, k, w[i..])
    decreases a, n, 3
  {
    if Reaches(m, n - 1, k, w) {
      i, rest := 0, n - 1;
      assert w[0..] == w;
    } else {
      i, rest := Leaves(m, a, lo, k, n - 1, w);
    }
  }

  lemma {:induction false} LeavesAlt(m: Automaton, a: Expr, b: Expr, lo: nat, k: nat, n: nat, w: string)
    returns (i: nat, rest: nat)
    requires Holds(m.states, a, lo, k) && Holds(m.states, b, lo + Size(a), k) && k < |m.states| && 0 < n
    requires Reaches(m, n - 1, Start(a, lo), w) || Reaches(m, n - 1, Start(b, lo + Size(a)), w)
    ensures i <= |w| && rest < n && InLang(m.ranges, Alt(a, b), w[..i]) && Reaches(m, rest, k, w[i..])
    decreases Alt(a, b), n, 0
  {
    if Reaches(m, n - 1, Start(a, lo), w) {
      i, rest := Leaves(m, a, lo, k, n - 1, w);
    } else {
      i, rest := Leaves(m, b, lo + Size(a), k, n - 1, w);
    }
  }

  lemma {:induction false} LeavesCat(m: Automaton, a: Expr, b: Expr, lo: nat, k: nat, n: nat, w: string)
    returns (i: nat, rest: nat)
    requires Holds(m.states, a, lo, Start(b, lo + Size(a))) && Holds(m.states, b, lo + Size(a), k)
    requires k < |m.states| && Reaches(m, n, Start(a, lo), w)
    ensures i <= |w| && rest < n && InLang(m.ranges, Cat(a, b), w[..i]) && Reaches(m, rest, k, w[i..])
    decreases Cat(a, b), n, 0
  {
    var mid := lo + Size(a);
    StartInside(b, mid);
    var first, left := Leaves(m, a, lo, Start(b, mid), n, w);
    var second: nat;
    second, rest := Leaves(m, b, mid, k, left, w[first..]);
    JoinCat(m.ranges, a, b, w, first, second);
    i := first + second;
  }

  /** A path from the split of a loop goes round any number of times, perhaps without consuming anything. */
  lemma {:induction false} LeavesLoop(m: Automaton, a: Expr, lo: nat, s: nat, k: nat, n: nat, w: string)
    returns (i: nat, rest: nat)
    requires Holds(m.states, a, lo, s) && s < |m.states| && k < |m.states|
    requires m.states[s] == State(k, Start(a, lo), Epsilon) && Reaches(m, n, s, w)
    ensures i <= |w| && rest < n && InStar(m.ranges, a, w[..i]) && Reaches(m, rest, k, w[i..])
    decreases a, n, 2
  {
    if Reaches(m, n - 1, k, w) {
      i, rest := 0, n - 1;
      assert w[0..] == w;
    } else {
      var first, left := Leaves(m, a, lo, s, n - 1, w);
      i, rest := LeavesLoop(m, a, lo, s, k, left, w[first..]);
      JoinStar(m.ranges, a, w, first, i);
      if first == 0 { assert w[0..] == w; }
      i := first + i;
    }
  }

  lemma {:induction false} LeavesPlus(m: Automaton, a: Expr, lo: nat, s: nat, k: nat, n: nat, w: string)
    returns (i: nat, rest: nat)
    requires Holds(m.states, a, lo, s) && s < |m.states| && k < |m.states|
    requires m.states[s] == State(k, Start(a, lo), Epsilon) && Reaches(m, n, Start(a, lo), w)
    ensures i <= |w| && rest < n && InLang(m.ranges, Rep(a, OneOrMore), w[..i]) && Reaches(m, rest, k, w[i..])
    decreases a, n, 3
  {
    var first, left := Leaves(m, a, lo, s, n, w);
    i, rest := LeavesLoop(m, a, lo, s, k, left, w[first..]);
    JoinStar(m.ranges, a, w, first, i);
    i := first + i;
  }

  // ---- every word of the expression is spelled by a path ----

  /** A word of the expression leads from the entry of its fragment to the continuation. */
  lemma {:induction false} Enters(m: Automaton, e: Expr, lo: nat, k: nat, i: nat, rest: nat, w: string) returns (n: nat)
    requires Holds(m.states, e, lo, k) && k < |m.states|
    requires i <= |w| && InLang(m.ranges, e, w[..i]) && Reaches(m, rest, k, w[i..])
    ensures Reaches(m, n, Start(e, lo), w)
    decreases e, i, 1
  {
    hide Continues, InStar, Accepts;
    StartInside(e, lo);
    HoldsParts(m.states, e, lo, k);
    match e
    case Sym(_) =>
      assert m.states[lo] == Wired(e, lo, k, lo);
      n := rest + 1;
    case Cat(a, b) =>
      n := EntersCat(m, a, b, lo, k, i, rest, w);
    case Alt(a, b) =>
      n := EntersAlt(m, a, b, lo, k, i, rest, w);
      n := n + 1;
    case Rep(a, kind) =>
      match kind {
        case ZeroOrOne => n := EntersOption(m, a, lo, lo + Size(a), k, i, rest, w);
        case ZeroOrMore => n := EntersLoop(m, a, lo, lo + Size(a), k, i, rest, w);
        case OneOrMore => n := EntersPlus(m, a, lo, lo + Size(a), k, i, rest, w);
      }
  }

  lemma {:induction false} EntersCat(m: Automaton, a: Expr, b: Expr, lo: nat, k: nat, i: nat, rest: nat, w: string)
    returns (n: nat)
    requires Holds(m.states, a, lo, Start(b, lo + Size(a))) && Holds(m.states, b, lo + Size(a), k) && k < |m.states|
    requires i <= |w| && InLang(m.ranges, Cat(a, b), w[..i]) && Reaches(m, rest, k, w[i..])
    ensures Reaches(m, n, Start(a, lo), w)
    decreases Cat(a, b), i, 0
  {
    var mid := lo + Size(a);
    var first := SplitCat(m.ranges, a, b, w, i);
    StartInside(b, mid);
    n := Enters(m, b, mid, k, i - first, rest, w[first..]);
    n := Enters(m, a, lo, Start(b, mid), first, n, w);
  }

  lemma {:induction false} EntersAlt(m: Automaton, a: Expr, b: Expr, lo: nat, k: nat, i: nat, rest: nat, w: string)
    returns (n: nat)
    requires Holds(m.states, a, lo, k) && Holds(m.states, b, lo + Size(a), k) && k < |m.states|
    requires i <= |w| && InLang(m.ranges, Alt(a, b), w[..i]) && Reaches(m, rest, k, w[i..])
    ensures Reaches(m, n, Start(a, lo), w) || Reaches(m, n, Start(b, lo + Size(a)), w)
    decreases Alt(a, b), i, 0
  {
    if InLang(m.ranges, a, w[..i]) {
      n := Enters(m, a, lo, k, i, rest, w);
    } else {
      n := Enters(m, b, lo + Size(a), k, i, rest, w);
    }
  }

  lemma {:induction false} EntersOption(m: Automaton, a: Expr, lo: nat, s: nat, k: nat, i: nat, rest: nat, w: string)
    returns (n: nat)
    requires Holds(m.states, a, lo, k) && s < |m.states| && k < |m.states|
    requires m.states[s] == State(k, Start(a, lo), Epsilon)
    requires i <= |w| && InLang(m.ranges, Rep(a, ZeroOrOne), w[..i]) && Reaches(m, rest, k, w[i..])
    ensures Reaches(m, n, s, w)
    decreases a, i, 3
  {
    if i == 0 {
      assert w[0..] == w;
      n := rest;
    } else {
      n := Enters(m, a, lo, k, i, rest, w);
    }
    n := n + 1;
  }

  lemma {:induction false} EntersLoop(m: Automaton, a: Expr, lo: nat, s: nat, k: nat, i: nat, rest: nat, w: string)
    returns (n: nat)
    requires Holds(m.states, a, lo, s) && s < |m.states| && k < |m.states|
    requires m.states[s] == State(k, Start(a, lo), Epsilon)
    requires i <= |w| && InStar(m.ranges, a, w[..i]) && Reaches(m, rest, k, w[i..])
    ensures Reaches(m, n, s, w)
    decreases a, i, 2
  {
    if i == 0 {
      assert w[0..] == w;
      n := rest;
    } else {
      var first := SplitStar(m.ranges, a, w, i);
      n := EntersLoop(m, a, lo, s, k, i - first, rest, w[first..]);
      n := Enters(m, a, lo, s, first, n, w);
    }
    n := n + 1;
  }

  lemma {:induction false} EntersPlus(m: Automaton, a: Expr, lo: nat, s: nat, k: nat, i: nat, rest: nat, w: string)
    returns (n: nat)
    requires Holds(m.states, a, lo, s) && s < |m.states| && k < |m.states|
    requires m.states[s] == State(k, Start(a, lo), Epsilon)
    requires i <= |w| && InLang(m.ranges, Rep(a, OneOrMore), w[..i]) && Reaches(m, rest, k, w[i..])
    ensures Reaches(m, n, Start(a, lo), w)
    decreases a, i, 3
  {
    var first := SplitPlus(m.ranges, a, w, i);
    n := EntersLoop(m, a, lo, s, k, i - first, rest, w[first..]);
    n := Enters(m, a, lo, s, first, n, w);
  }

  /** Some prefix of `w` is in the language of `e` and `k` accepts the remainder. */
  ghost predicate Continues(m: Automaton, e: Expr, k: nat, w: string) {
    exists i | 0 <= i <= |w| :: InLang(m.ranges, e, w[..i]) && Follows(m, k, w[i..])
  }

  /** A fragment accepts exactly the strings that begin with a word of its expression and continue at `k`. */
  lemma {:induction false} FragmentAccepts(m: Automaton, e: Expr, lo: nat, k: nat, w: string)
    requires Holds(m.states, e, lo, k) && k < |m.states|
    ensures Follows(m, Start(e, lo), w) <==> Continues(m, e, k, w)
  {
    if n: nat :| Reaches(m, n, Start(e, lo), w) {
      var i, rest := Leaves(m, e, lo, k, n, w);
      assert Follows(m, k, w[i..]);
    }
    if Continues(m, e, k, w) {
      var i :| 0 <= i <= |w| && InLang(m.ranges, e, w[..i]) && Follows(m, k, w[i..]);
      var rest: nat :| Reaches(m, rest, k, w[i..]);
      var n := Enters(m, e, lo, k, i, rest, w);
    }
  }

  // ---- ranks exist exactly when no repeated operand is nullable ----

  function Max(a: nat, b: nat): nat {
    if a < b then b else a
  }

  /** The rank of the entry state of `e` when its continuation has rank `r`. */
  function StartRank(e: Expr, r: nat): nat
    decreases e, 0
  {
    match e
    case Sym(_) => 0
    case Cat(a, b) => StartRank(a, StartRank(b, r))
    case Alt(a, b) => Max(StartRank(a, r), StartRank(b, r)) + 1
    case Rep(a, kind) => if kind.OneOrMore? then StartRank(a, SplitRank(a, kind, r)) else SplitRank(a, kind, r)
  }

  /** The rank of the split state of a repetition of `a`. */
  function SplitRank(a: Expr, kind: Repetition, r: nat): nat
    decreases a, 1
  {
    Max(StartRank(a, if kind.ZeroOrOne? then r else 0), r) + 1
  }

  function BodyRank(a: Expr, kind: Repetition, r: nat): nat {
    if kind.ZeroOrOne? then r else SplitRank(a, kind, r)
  }

  /** The rank of state `x` of `e` laid out at `lo`. */
  function RankOf(e: Expr, r: nat, lo: nat, x: nat): nat {
    match e
    case Sym(_) => 0
    case Cat(a, b) =>
      var mid := lo + Size(a);
      if x < mid then RankOf(a, StartRank(b, r), lo, x) else RankOf(b, r, mid, x)
    case Alt(a, b) =>
      var mid := lo + Size(a);
      if x < mid then RankOf(a, r, lo, x)
      else if x < mid + Size(b) then RankOf(b, r, mid, x)
      else StartRank(e, r)
    case Rep(a, kind) =>
      if x < lo + Size(a) then RankOf(a, BodyRank(a, kind, r), lo, x) else SplitRank(a, kind, r)
  }

  lemma {:induction false} StartHasStartRank(e: Expr, r: nat, lo: nat)
    ensures RankOf(e, r, lo, Start(e, lo)) == StartRank(e, r)
  {
    match e
    case Sym(_) =>
    case Cat(a, b) => StartInside(a, lo); StartHasStartRank(a, StartRank(b, r), lo);
    case Alt(a, b) =>
    case Rep(a, kind) => StartInside(a, lo); StartHasStartRank(a, BodyRank(a, kind, r), lo);
  }

  lemma {:induction false} NonNullableStart(e: Expr, r: nat, q: nat)
    requires !Nullable(e)
    ensures StartRank(e, r) == StartRank(e, q)
  {
    match e
    case Sym(_) =>
    case Cat(a, b) =>
      if Nullable(a) { NonNullableStart(b, r, q); } else { NonNullableStart(a, StartRank(b, r), StartRank(b, q)); }
    case Alt(a, b) => NonNullableStart(a, r, q); NonNullableStart(b, r, q);
    case Rep(a, kind) => NonNullableStart(a, SplitRank(a, kind, r), SplitRank(a, kind, q));
  }

  /** An edge from `x` to `t` that consumes nothing descends: to the continuation or inside the fragment. */
  ghost predicate Descends(e: Expr, lo: nat, k: int, r: nat, x: nat, t: int) {
    (t == k && r < RankOf(e, r, lo, x))
    || (lo <= t < lo + Size(e) && RankOf(e, r, lo, t) < RankOf(e, r, lo, x))
  }

  ghost predicate SplitDescends(e: Expr, lo: nat, k: int, r: nat, x: nat) {
    var s := Wired(e, lo, k, x);
    IsSplit(s) ==> Descends(e, lo, k, r, x, s.out) && Descends(e, lo, k, r, x, s.out1)
  }

  lemma {:induction false} EdgesDescend(e: Expr, lo: nat, k: int, r: nat, x: nat)
    requires Safe(e) && lo <= x < lo + Size(e)
    ensures SplitDescends(e, lo, k, r, x)
    decreases e, 1
  {
    match e
    case Sym(_) =>
    case Cat(a, b) => EdgesDescendCat(a, b, lo, k, r, x);
    case Alt(a, b) => EdgesDescendAlt(a, b, lo, k, r, x);
    case Rep(a, kind) => EdgesDescendRep(a, kind, lo, k, r, x);
  }

  lemma {:induction false} EdgesDescendCat(a: Expr, b: Expr, lo: nat, k: int, r: nat, x: nat)
    requires Safe(a) && Safe(b) && lo <= x < lo + Size(Cat(a, b))
    ensures SplitDescends(Cat(a, b), lo, k, r, x)
    decreases Cat(a, b), 0
  {
    var mid := lo + Size(a);
    StartInside(b, mid); StartHasStartRank(b, r, mid);
    if x < mid {
      EdgesDescend(a, lo, Start(b, mid), StartRank(b, r), x);
    } else {
      EdgesDescend(b, mid, k, r, x);
    }
  }

  lemma {:induction false} EdgesDescendAlt(a: Expr, b: Expr, lo: nat, k: int, r: nat, x: nat)
    requires Safe(a) && Safe(b) && lo <= x < lo + Size(Alt(a, b))
    ensures SplitDescends(Alt(a, b), lo, k, r, x)
    decreases Alt(a, b), 0
  {
    var mid := lo + Size(a);
    if x < mid {
      EdgesDescend(a, lo, k, r, x);
    } else if x < mid + Size(b) {
      EdgesDescend(b, mid, k, r, x);
    } else {
      StartInside(a, lo); StartHasStartRank(a, r, lo);
      StartInside(b, mid); StartHasStartRank(b, r, mid);
    }
  }

  lemma {:induction false} EdgesDescendRep(a: Expr, kind: Repetition, lo: nat, k: int, r: nat, x: nat)
    requires Safe(Rep(a, kind)) && lo <= x < lo + Size(Rep(a, kind))
    ensures SplitDescends(Rep(a, kind), lo, k, r, x)
    decreases Rep(a, kind), 0
  {
    var s := lo + Size(a);
    if x < s {
      EdgesDescend(a, lo, if kind.ZeroOrOne? then k else s, BodyRank(a, kind, r), x);
    } else {
      StartInside(a, lo); StartHasStartRank(a, BodyRank(a, kind, r), lo);
      if !kind.ZeroOrOne? { NonNullableStart(a, 0, BodyRank(a, kind, r)); }
    }
  }

  /** In a ranked graph the entry of a nullable fragment lies above its continuation. */
  lemma {:induction false} NullableDescends(states: seq<State>, rank: seq<nat>, e: Expr, lo: nat, k: nat)
    requires Holds(states, e, lo, k) && Ranked(states, rank) && k < |states| && Nullable(e)
    ensures Start(e, lo) < |states| && rank[Start(e, lo)] > rank[k]
  {
    hide Wired, Safe;
    StartInside(e, lo);
    HoldsParts(states, e, lo, k);
    match e
    case Cat(a, b) =>
      StartInside(b, lo + Size(a));
      NullableDescends(states, rank, a, lo, Start(b, lo + Size(a)));
      NullableDescends(states, rank, b, lo + Size(a), k);
    case Alt(a, b) =>
      if Nullable(a) { NullableDescends(states, rank, a, lo, k); } else { NullableDescends(states, rank, b, lo + Size(a), k); }
    case Rep(a, kind) =>
      if kind.OneOrMore? { NullableDescends(states, rank, a, lo, lo + Size(a)); }
  }

  /** A ranked graph has no repetition of a nullable operand. */
  lemma {:induction false} RankedImpliesSafe(states: seq<State>, rank: seq<nat>, e: Expr, lo: nat, k: nat)
    requires Holds(states, e, lo, k) && Ranked(states, rank) && k < |states|
    ensures Safe(e)
  {
    HoldsParts(states, e, lo, k);
    match e
    case Sym(_) =>
    case Cat(a, b) =>
      StartInside(b, lo + Size(a));
      RankedImpliesSafe(states, rank, a, lo, Start(b, lo + Size(a)));
      RankedImpliesSafe(states, rank, b, lo + Size(a), k);
    case Alt(a, b) =>
      RankedImpliesSafe(states, rank, a, lo, k);
      RankedImpliesSafe(states, rank, b, lo + Size(a), k);
    case Rep(a, kind) =>
      var s := lo + Size(a);
      RankedImpliesSafe(states, rank, a, lo, if kind.ZeroOrOne? then k else s);
      if !kind.ZeroOrOne? && Nullable(a) {
        assert Below(rank, s, states[s].out1);
        NullableDescends(states, rank, a, lo, s);
      }
  }

  // ---- whole programs ----

  /** The states of a compiled expression: the expression wired to one matching state. */
  function Program(e: Expr): (ss: seq<State>)
    ensures |ss| == Size(e) + 1
  {
    seq(Size(e), x requires 0 <= x < Size(e) => Wired(e, 0, Size(e), x)) + [State(NONE, NONE, Epsilon)]
  }

  /** The ranks that witness that a safe program has no epsilon cycle. */
  function ProgramRank(e: Expr): (rank: seq<nat>)
    ensures |rank| == Size(e) + 1
  {
    seq(Size(e), x requires 0 <= x < Size(e) => RankOf(e, 0, 0, x)) + [0]
  }

  lemma {:induction false} WiredOutInside(e: Expr, lo: nat, k: int, x: nat)
    requires lo <= x < lo + Size(e) && !IsSplit(Wired(e, lo, k, x))
    ensures var t := Wired(e, lo, k, x).out; t == k || lo <= t < lo + Size(e)
  {
    match e
    case Sym(_) =>
    case Cat(a, b) =>
      var mid := lo + Size(a);
      StartInside(b, mid);
      if x < mid { WiredOutInside(a, lo, Start(b, mid), x); } else { WiredOutInside(b, mid, k, x); }
    case Alt(a, b) =>
      var mid := lo + Size(a);
      if x < mid { WiredOutInside(a, lo, k, x); } else if x < mid + Size(b) { WiredOutInside(b, mid, k, x); }
    case Rep(a, kind) =>
      if x < lo + Size(a) { WiredOutInside(a, lo, if kind.ZeroOrOne? then k else lo + Size(a), x); }
  }

  lemma {:induction false} ProgramHolds(e: Expr)
    ensures Holds(Program(e), e, 0, Size(e))
  {
  }

  lemma {:induction false} SafeProgramRanked(e: Expr)
    requires Safe(e)
    ensures Ranked(Program(e), ProgramRank(e))
  {
    var states, rank := Program(e), ProgramRank(e);
    forall i | 0 <= i < |states|
      ensures if IsSplit(states[i]) then Below(rank, i, states[i].out) && Below(rank, i, states[i].out1)
              else NONE <= states[i].out < |states|
    {
      if i < Size(e) {
        EdgesDescend(e, 0, Size(e), 0, i);
        if !IsSplit(states[i]) { WiredOutInside(e, 0, Size(e), i); }
      }
    }
  }

  /** The graph of a compiled expression is free of epsilon cycles if and only if no `*`, `+` or `{n,}` operand is nullable. */
  lemma {:induction false} AcyclicIffSafe(e: Expr)
    ensures (exists rank: seq<nat> :: Ranked(Program(e), rank)) <==> Safe(e)
  {
    ProgramHolds(e);
    if rank: seq<nat> :| Ranked(Program(e), rank) {
      RankedImpliesSafe(Program(e), rank, e, 0, Size(e));
    }
    if Safe(e) { SafeProgramRanked(e); }
  }

  /** The compiler preserves meaning: the root accepts exactly the language of the expression. */
  lemma {:induction false} ProgramAccepts(e: Expr, ranges: seq<Range>, w: string)
    ensures Follows(Automaton(Program(e), ranges, Start(e, 0)), Start(e, 0), w) <==> InLang(ranges, e, w)
  {
    var m := Automaton(Program(e), ranges, Start(e, 0));
    var last := Size(e);
    ProgramHolds(e);
    FragmentAccepts(m, e, 0, last, w);
    forall i | 0 <= i <= |w| ensures Follows(m, last, w[i..]) <==> i == |w| {
      if i == |w| { assert Reaches(m, 0, last, w[i..]); }
    }
    assert w[..|w|] == w;
  }
}
