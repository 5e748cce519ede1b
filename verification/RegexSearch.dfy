/**
 Running a compiled pattern: the two-list simulation with a set of visited states.
 */
module RegexSearch {
  import opened RegexProgram
  import opened RegexLanguage
  import opened Distinctness

  // ---- reachability without consuming input ----

  /** The states that consume input or match, reached from `i` through splits. */
  ghost function Closure(m: Automaton, rank: seq<nat>, i: nat): set<nat>
    decreases if i < |rank| then rank[i] else 0
  {
    if i >= |m.states| then {}
    else if !IsSplit(m.states[i]) then {i}
    else
      var s := m.states[i];
      (if Below(rank, i, s.out) then Closure(m, rank, s.out) else {})
      + (if Below(rank, i, s.out1) then Closure(m, rank, s.out1) else {})
  }

  lemma {:induction false} ClosureInside(m: Automaton, rank: seq<nat>, i: nat, j: nat)
    requires Ranked(m.states, rank) && i < |m.states| && j in Closure(m, rank, i)
    ensures j < |m.states| && !IsSplit(m.states[j])
    decreases rank[i]
  {
    var s := m.states[i];
    if IsSplit(s) {
      if j in Closure(m, rank, s.out) { ClosureInside(m, rank, s.out, j); } else { ClosureInside(m, rank, s.out1, j); }
    }
  }

  lemma {:induction false} ClosureNonEmpty(m: Automaton, rank: seq<nat>, i: nat)
    requires Ranked(m.states, rank) && i < |m.states|
    ensures Closure(m, rank, i) != {}
    decreases rank[i]
  {
    if IsSplit(m.states[i]) { ClosureNonEmpty(m, rank, m.states[i].out); }
  }

  /** A state accepts exactly what the states of its closure accept. */
  lemma {:induction false} ClosureAccepts(m: Automaton, rank: seq<nat>, i: nat, w: string)
    requires Ranked(m.states, rank) && i < |m.states|
    ensures Accepts(m, rank, i, w) <==> exists j :: j in Closure(m, rank, i) && Accepts(m, rank, j, w)
    decreases rank[i]
  {
    var s := m.states[i];
    if IsSplit(s) {
      ClosureAccepts(m, rank, s.out, w);
      ClosureAccepts(m, rank, s.out1, w);
    }
  }

  /** Some state on the list accepts `w`. */
  ghost predicate AnyAccepts(m: Automaton, rank: seq<nat>, l: seq<nat>, w: string) {
    exists j :: j in l && Accepts(m, rank, j, w)
  }

  /** A list of distinct states that consume input or match. */
  ghost predicate StateList(m: Automaton, l: seq<nat>) {
    && (forall i | 0 <= i < |l| :: l[i] < |m.states| && !IsSplit(m.states[l[i]]))
    && forall i, j | 0 <= i < j < |l| :: l[i] != l[j]
  }

  // ---- what a search reports ----

  /** The text up to its terminating null character. */
  function CString(w: string): string {
    if w == [] || w[0] == '\0' then "" else [w[0]] + CString(w[1..])
  }

  ghost predicate RootAccepts(m: Automaton, rank: seq<nat>, w: string) {
    Accepts(m, rank, m.root, w)
  }

  /** Some part of `w` that begins before position `n` and ends there is accepted. */
  ghost predicate MatchEnding(m: Automaton, rank: seq<nat>, w: string, anchorBegin: bool, n: nat)
    requires n <= |w|
  {
    exists i | 0 <= i < n :: (anchorBegin ==> i == 0) && RootAccepts(m, rank, w[i..n])
  }

  /** What the simulation reports: on a non-empty text only non-empty parts count. */
  ghost predicate Found(m: Automaton, rank: seq<nat>, w: string, anchorBegin: bool, anchorEnd: bool) {
    if w == [] then RootAccepts(m, rank, [])
    else exists n | 0 < n <= |w| :: (anchorEnd ==> n == |w|) && MatchEnding(m, rank, w, anchorBegin, n)
  }

  /** The list stands for every start so far: it accepts `v` exactly if some part up to `n`, continued by `v`, is accepted. */
  ghost predicate Tracks(m: Automaton, rank: seq<nat>, w: string, anchorBegin: bool, n: nat, l: seq<nat>, v: string)
    requires n <= |w|
  {
    AnyAccepts(m, rank, l, v) <==> Started(m, rank, w, anchorBegin, n, v)
  }

  /** Some part of `w` that ends at `n`, continued by `v`, is accepted. */
  ghost predicate Started(m: Automaton, rank: seq<nat>, w: string, anchorBegin: bool, n: nat, v: string)
    requires n <= |w|
  {
    exists i | 0 <= i <= n :: (anchorBegin ==> i == 0) && RootAccepts(m, rank, w[i..n] + v)
  }

  /** A state that hits the next character hands over to the closure of its target. */
  lemma {:induction false} HandOver(m: Automaton, rank: seq<nat>, j: nat, c: char, v: string)
    requires Ranked(m.states, rank) && j < |m.states| && !IsSplit(m.states[j])
    ensures Accepts(m, rank, j, [c] + v)
       <==> Hits(m.ranges, m.states[j].lab, c) && m.states[j].out != NONE && Accepts(m, rank, m.states[j].out, v)
  {
    assert ([c] + v)[1..] == v;
  }

  lemma {:induction false} OneCharacterMore(u: string, i: nat, n: nat)
    requires i <= n < |u|
    ensures u[i..n] + [u[n]] == u[i..n + 1]
  {
  }

  class Search {
    const m: Automaton
    ghost const rank: seq<nat>
    /** Which states are on the list under construction. */
    var stateSet: array<bool>

    ghost predicate Valid()
      reads this
    {
      Ranked(m.states, rank) && m.root < |m.states| && stateSet.Length == |m.states| && Forward(m.ranges)
      && forall i | 0 <= i < |m.states| :: m.states[i].out == NONE ==> m.states[i].lab == Epsilon
    }

    constructor (m: Automaton, ghost rank: seq<nat>)
      requires Ranked(m.states, rank) && m.root < |m.states| && Forward(m.ranges)
      requires forall i | 0 <= i < |m.states| :: m.states[i].out == NONE ==> m.states[i].lab == Epsilon
      ensures Valid() && this.m == m && this.rank == rank && fresh(stateSet)
    {
      this.m := m;
      this.rank := rank;
      stateSet := new bool[|m.states|];
    }

    /** The visited set holds exactly the listed states. */
    ghost predicate Marks(l: seq<nat>)
      reads this, stateSet
    {
      stateSet.Length == |m.states| && forall i | 0 <= i < |m.states| :: stateSet[i] <==> i in l
    }

    method ClearSet()
      requires Valid()
      modifies stateSet
      ensures Marks([])
    {
      for i := 0 to stateSet.Length
        invariant forall j | 0 <= j < i :: !stateSet[j]
      {
        stateSet[i] := false;
      }
    }

    /** Adds the closure of a state to the list, without duplicates, and tells whether it contains the matching state. */
    method AddState(l: seq<nat>, index: nat) returns (l': seq<nat>, matched: bool)
      requires Valid() && index < |m.states| && StateList(m, l) && Marks(l)
      modifies stateSet
      ensures StateList(m, l') && Marks(l') && |l'| <= |m.states|
      ensures forall j :: j in l' <==> j in l || j in Closure(m, rank, index)
      ensures matched <==> exists j :: j in Closure(m, rank, index) && IsFinal(m.states[j])
      decreases rank[index]
    {
      var s := m.states[index];
      if s.out1 != NONE {
        var left;
        assert Below(rank, index, s.out) && Below(rank, index, s.out1);
        l', left := AddState(l, s.out);
        l', matched := AddState(l', s.out1);
        matched := matched || left;
      } else {
        l' := l;
        if !stateSet[index] {
          stateSet[index] := true;
          l' := l + [index];
        }
        ListFits(l', |m.states|);
        matched := s.out == NONE;
      }
    }

    /** Walks the linked intervals of a class. */
    method MatchRange(rangeIndex: int, c: char) returns (hit: bool)
      requires Valid()
      requires 0 <= rangeIndex < |m.ranges|
      ensures hit <==> Hits(m.ranges, InRanges(rangeIndex), c)
    {
      var yes := m.ranges[rangeIndex].start < NEGATION_FLAG;
      var i := rangeIndex;
      while i != NONE
        invariant i == NONE || 0 <= i < |m.ranges|
        invariant InList(m.ranges, rangeIndex, c) <==> InList(m.ranges, i, c)
        decreases if i == NONE then 0 else |m.ranges| - i
      {
        var r := m.ranges[i];
        if r.start % NEGATION_FLAG <= c as int <= r.end { return yes; }
        i := r.next;
      }
      hit := !yes;
    }

    /** The test of one listed state against the next character. */
    method HitsState(j: nat, c: char) returns (hit: bool)
      requires Valid() && j < |m.states|
      ensures hit <==> Hits(m.ranges, m.states[j].lab, c)
    {
      match m.states[j].lab {
        case Epsilon => hit := false;
        case Literal(d) => hit := c == d;
        case AnyChar => hit := true;
        case InRanges(first) =>
          if 0 <= first < |m.ranges| { hit := MatchRange(first, c); } else { hit := false; }
      }
    }

    /** `AddState`, in terms of what the list accepts. */
    method Include(l: seq<nat>, index: nat) returns (l': seq<nat>, matched: bool)
      requires Valid() && index < |m.states| && StateList(m, l) && Marks(l)
      modifies stateSet
      ensures StateList(m, l') && Marks(l') && l' != []
      ensures forall v :: AnyAccepts(m, rank, l', v) <==> AnyAccepts(m, rank, l, v) || Accepts(m, rank, index, v)
      ensures matched <==> Accepts(m, rank, index, [])
    {
      l', matched := AddState(l, index);
      ClosureNonEmpty(m, rank, index);
      forall v ensures AnyAccepts(m, rank, l', v) <==> AnyAccepts(m, rank, l, v) || Accepts(m, rank, index, v) {
        ClosureAccepts(m, rank, index, v);
      }
      ClosureAccepts(m, rank, index, []);
      forall j | j in Closure(m, rank, index) ensures IsFinal(m.states[j]) <==> Accepts(m, rank, j, []) {
        ClosureInside(m, rank, index, j);
      }
    }

    /**
     One character: the list of successor states, and whether the matching state is among them.  Unless the match
     must end the text, the first match found stops the search.
     */
    method Consume(current: seq<nat>, c: char, anchorBegin: bool, anchorEnd: bool)
      returns (next: seq<nat>, matched: bool, stop: bool)
      requires Valid() && StateList(m, current)
      modifies stateSet
      ensures stop ==> !anchorEnd && AnyAccepts(m, rank, current, [c])
      ensures !stop ==> StateList(m, next) && (matched <==> AnyAccepts(m, rank, current, [c])) && (anchorEnd || !matched)
      ensures !stop && !anchorBegin && current != [] ==> next != []
      ensures !stop ==> forall v :: AnyAccepts(m, rank, next, v) <==> Succeeds(current, c, anchorBegin, |current|, v)
    {
      ClearSet();
      next, matched, stop := [], false, false;
      for s := 0 to |current|
        invariant StateList(m, next) && Marks(next)
        invariant !anchorBegin && s > 0 ==> next != []
        invariant forall v :: AnyAccepts(m, rank, next, v) <==> Succeeds(current, c, anchorBegin, s, v)
        invariant matched <==> AnyAccepts(m, rank, current[..s], [c])
        invariant anchorEnd || !matched
      {
        var j := current[s];
        ghost var was, before := next, matched;
        assert current[..s + 1] == current[..s] + [j];
        forall v ensures Accepts(m, rank, j, [c] + v)
                    <==> Hits(m.ranges, m.states[j].lab, c) && Accepts(m, rank, m.states[j].out, v) {
          HandOver(m, rank, j, c, v);
        }
        assert [c] + [] == [c];
        var hit := HitsState(j, c);
        if hit {
          var here;
          next, here := Include(next, m.states[j].out);
          matched := here || matched;
          assert here <==> Accepts(m, rank, j, [c]);
          if !anchorEnd && matched {
            stop := true;
            assert j in current && Accepts(m, rank, j, [c]);
            return;
          }
        }
        ghost var mid := next;
        if !anchorBegin {
          var ignored;
          next, ignored := Include(next, m.root);
        }
        forall v ensures AnyAccepts(m, rank, next, v) <==> Succeeds(current, c, anchorBegin, s + 1, v) {
          assert AnyAccepts(m, rank, mid, v) <==> AnyAccepts(m, rank, was, v) || Accepts(m, rank, j, [c] + v);
          assert Succeeds(current, c, anchorBegin, s + 1, v)
            <==> Succeeds(current, c, anchorBegin, s, v) || Accepts(m, rank, j, [c] + v) || (!anchorBegin && RootAccepts(m, rank, v));
        }
      }
      assert current[..|current|] == current;
    }

    /** Some of the first `n` listed states accept `c` followed by `v`, or a new start at the root accepts `v`. */
    ghost predicate Succeeds(current: seq<nat>, c: char, anchorBegin: bool, n: nat, v: string)
      requires n <= |current|
    {
      AnyAccepts(m, rank, current[..n], [c] + v) || (!anchorBegin && n > 0 && RootAccepts(m, rank, v))
    }

    /** The whole search: reports exactly what `Found` says. */
    method SearchWithAnchoring(text: string, anchorBegin: bool, anchorEnd: bool) returns (matched: bool)
      requires Valid()
      modifies stateSet
      ensures matched <==> Found(m, rank, CString(text), anchorBegin, anchorEnd)
    {
      hide Accepts, Ranked, Forward;
      ghost var u := CString(text);
      CStringIs(text);
      ClearSet();
      var current;
      current, matched := Include([], m.root);
      var n := 0;
      forall v ensures Tracks(m, rank, u, anchorBegin, 0, current, v) {
        assert u[0..0] + v == v;
      }
      while current != [] && n < |text| && text[n] != '\0'
        invariant n <= |u| && StateList(m, current)
        invariant forall v :: Tracks(m, rank, u, anchorBegin, n, current, v)
        invariant n == 0 ==> (matched <==> RootAccepts(m, rank, [])) && current != []
        invariant n > 0 ==> (matched <==> MatchEnding(m, rank, u, anchorBegin, n)) && (anchorEnd || !matched)
        invariant NoneBefore(u, anchorBegin, anchorEnd, n)
        invariant current == [] ==> anchorBegin
        decreases |text| - n
      {
        var c := text[n];
        ghost var was := current;
        var next, here, stop := Consume(current, c, anchorBegin, anchorEnd);
        assert Tracks(m, rank, u, anchorBegin, n, was, [c]);
        OneMore(u, anchorBegin, n, c, was);
        if stop { return true; }
        assert was[..|was|] == was;
        ghost var n' := n + 1;
        forall v ensures Tracks(m, rank, u, anchorBegin, n', next, v) {
          assert Tracks(m, rank, u, anchorBegin, n, was, [c] + v);
          TracksStep(u, anchorBegin, n, c, was, next, v);
        }
        current, matched, n := next, here, n + 1;
      }
      if n < |u| { DeadEnd(u, anchorEnd, n, current); }
    }

    /** Unless the match must end the text, no earlier position ended a match. */
    ghost predicate NoneBefore(u: string, anchorBegin: bool, anchorEnd: bool, n: nat)
      requires n <= |u|
    {
      !anchorEnd ==> forall k | 0 < k <= n :: !MatchEnding(m, rank, u, anchorBegin, k)
    }

    lemma {:induction false} OneMore(u: string, anchorBegin: bool, n: nat, c: char, l: seq<nat>)
      requires n < |u| && u[n] == c && Tracks(m, rank, u, anchorBegin, n, l, [c])
      ensures AnyAccepts(m, rank, l, [c]) <==> MatchEnding(m, rank, u, anchorBegin, n + 1)
    {
      hide Accepts;
      if AnyAccepts(m, rank, l, [c]) {
        var i :| 0 <= i <= n && (anchorBegin ==> i == 0) && RootAccepts(m, rank, u[i..n] + [c]);
        OneCharacterMore(u, i, n);
      }
      if MatchEnding(m, rank, u, anchorBegin, n + 1) {
        var i :| 0 <= i < n + 1 && (anchorBegin ==> i == 0) && RootAccepts(m, rank, u[i..n + 1]);
        OneCharacterMore(u, i, n);
      }
    }

    static lemma OneLonger(u: string, i: nat, n: nat, v: string)
      requires i <= n < |u|
      ensures u[i..n] + ([u[n]] + v) == u[i..n + 1] + v
    {
    }

    lemma {:induction false} TracksStep(u: string, anchorBegin: bool, n: nat, c: char, l: seq<nat>, next: seq<nat>, v: string)
      requires n < |u| && u[n] == c && Tracks(m, rank, u, anchorBegin, n, l, [c] + v)
      requires AnyAccepts(m, rank, next, v) <==> AnyAccepts(m, rank, l, [c] + v) || (!anchorBegin && RootAccepts(m, rank, v))
      ensures Tracks(m, rank, u, anchorBegin, n + 1, next, v)
    {
      assert u[n + 1..n + 1] + v == v;
      if AnyAccepts(m, rank, l, [c] + v) {
        var i :| 0 <= i <= n && (anchorBegin ==> i == 0) && RootAccepts(m, rank, u[i..n] + ([c] + v));
        OneLonger(u, i, n, v);
      }
      if Started(m, rank, u, anchorBegin, n + 1, v) {
        var i :| 0 <= i <= n + 1 && (anchorBegin ==> i == 0) && RootAccepts(m, rank, u[i..n + 1] + v);
        if i <= n { OneLonger(u, i, n, v); }
      }
    }

    /** An empty list stays empty: nothing that began at the start can still be accepted. */
    lemma {:induction false} DeadEnd(u: string, anchorEnd: bool, n: nat, l: seq<nat>)
      requires 0 < n < |u| && l == [] && NoneBefore(u, true, anchorEnd, n)
      requires forall v :: Tracks(m, rank, u, true, n, l, v)
      ensures !Found(m, rank, u, true, anchorEnd) && !MatchEnding(m, rank, u, true, n)
    {
      assert Tracks(m, rank, u, true, n, l, []);
      assert u[0..n] + [] == u[0..n];
      forall k | n < k <= |u| ensures !MatchEnding(m, rank, u, true, k) {
        assert Tracks(m, rank, u, true, n, l, u[n..k]);
        assert u[0..n] + u[n..k] == u[0..k];
      }
    }
  }

  lemma {:induction false} CStringIs(w: string)
    ensures var u := CString(w);
            && |u| <= |w| && u == w[..|u|] && (|u| == |w| || w[|u|] == '\0')
            && forall i | 0 <= i < |u| :: w[i] != '\0'
  {
    if w != [] && w[0] != '\0' {
      CStringIs(w[1..]);
    }
  }
}
