/**
 Structural equality of values: without duplicate names it is reflexive and symmetric; with them, a value that equals
 anything also equals a value that does not equal it.
 */
module JsonEquality {
  import opened Distinctness
  import opened JsonDom

  /** The first member with this name, or the number of members. */
  function FindMember(ms: seq<Member>, name: Value): (i: nat)
    ensures i <= |ms| && (i < |ms| ==> ms[i].name == name) && forall j | 0 <= j < i :: ms[j].name != name
  {
    if ms == [] || ms[0].name == name then 0 else 1 + FindMember(ms[1..], name)
  }

  /** How two numbers compare of which at least one is a floating-point number; this is not modelled. */
  type FloatEquality = (Value, Value) -> bool

  /** Equality as the operator defines it: of numbers by their bits, of objects by looking up every member of the first. */
  predicate Equal(floats: FloatEquality, v: Value, w: Value)
    decreases v
  {
    match v
    case NullValue => w.NullValue?
    case BoolValue(_) => v == w
    case NumberValue(bits, _) => if w.DoubleValue? then floats(v, w) else w.NumberValue? && bits == w.bits
    case DoubleValue(_) => (w.NumberValue? || w.DoubleValue?) && floats(v, w)
    case StringValue(_) => v == w
    case ArrayValue(es) => w.ArrayValue? && |es| == |w.elements| && EqualElements(floats, es, w.elements)
    case ObjectValue(ms) => w.ObjectValue? && |ms| == |w.members| && EqualMembers(floats, ms, w.members)
  }

  predicate EqualElements(floats: FloatEquality, es: seq<Value>, fs: seq<Value>)
    requires |es| == |fs|
    decreases es
  {
    es == [] || (Equal(floats, es[0], fs[0]) && EqualElements(floats, es[1..], fs[1..]))
  }

  predicate EqualMembers(floats: FloatEquality, ms: seq<Member>, ns: seq<Member>)
    decreases ms
  {
    ms == [] || (EqualMember(floats, ms[0], ns) && EqualMembers(floats, ms[1..], ns))
  }

  predicate EqualMember(floats: FloatEquality, member: Member, ns: seq<Member>)
    decreases member
  {
    var i := FindMember(ns, member.name);
    i < |ns| && Equal(floats, member.value, ns[i].value)
  }

  predicate DistinctNames(ms: seq<Member>) {
    forall i, j | 0 <= i < j < |ms| :: ms[i].name != ms[j].name
  }

  /** No object has two members of the same name. */
  predicate Distinct(v: Value) {
    match v
    case ArrayValue(es) => DistinctElements(es)
    case ObjectValue(ms) => DistinctNames(ms) && DistinctMembers(ms)
    case _ => true
  }

  predicate DistinctElements(es: seq<Value>) {
    es == [] || (Distinct(es[0]) && DistinctElements(es[1..]))
  }

  predicate DistinctMembers(ms: seq<Member>) {
    ms == [] || (DistinctMember(ms[0]) && DistinctMembers(ms[1..]))
  }

  predicate DistinctMember(member: Member) {
    Distinct(member.value)
  }

  /** The numbers that are equal: the same, or a word apart, as are -1 and 2^64 - 1. */
  lemma {:induction false} EqualNumbers(floats: FloatEquality, m: int, n: int)
    requires 0 - TWO63 <= m < TWO64 && 0 - TWO63 <= n < TWO64
    ensures Equal(floats, Number(m), Number(n)) <==> m == n || m == n + TWO64 || n == m + TWO64
  {
    if m != n { NumbersDiffer(m, n); }
  }

  // ---- the same, position by position ----

  lemma {:induction false} ElementsEqualAt(floats: FloatEquality, es: seq<Value>, fs: seq<Value>)
    requires |es| == |fs|
    ensures EqualElements(floats, es, fs) <==> forall i | 0 <= i < |es| :: Equal(floats, es[i], fs[i])
  {
    if es != [] {
      ElementsEqualAt(floats, es[1..], fs[1..]);
      assert forall i | 1 <= i < |es| :: es[i] == es[1..][i - 1] && fs[i] == fs[1..][i - 1];
      assert forall i | 0 <= i < |es| - 1 :: es[1..][i] == es[i + 1] && fs[1..][i] == fs[i + 1];
    }
  }

  lemma {:induction false} MembersEqualAt(floats: FloatEquality, ms: seq<Member>, ns: seq<Member>)
    ensures EqualMembers(floats, ms, ns) <==> forall i | 0 <= i < |ms| :: EqualMember(floats, ms[i], ns)
  {
    if ms != [] {
      MembersEqualAt(floats, ms[1..], ns);
      assert forall i | 1 <= i < |ms| :: ms[i] == ms[1..][i - 1];
      assert forall i | 0 <= i < |ms| - 1 :: ms[1..][i] == ms[i + 1];
    }
  }

  lemma {:induction false} DistinctElementsAt(es: seq<Value>)
    ensures DistinctElements(es) <==> forall i | 0 <= i < |es| :: Distinct(es[i])
  {
    if es != [] {
      DistinctElementsAt(es[1..]);
      assert forall i | 1 <= i < |es| :: es[i] == es[1..][i - 1];
      assert forall i | 0 <= i < |es| - 1 :: es[1..][i] == es[i + 1];
    }
  }

  lemma {:induction false} DistinctMembersAt(ms: seq<Member>)
    ensures DistinctMembers(ms) <==> forall i | 0 <= i < |ms| :: DistinctMember(ms[i])
  {
    if ms != [] {
      DistinctMembersAt(ms[1..]);
      assert forall i | 1 <= i < |ms| :: ms[i] == ms[1..][i - 1];
      assert forall i | 0 <= i < |ms| - 1 :: ms[1..][i] == ms[i + 1];
    }
  }

  /** Among distinct names, a member is found where it is. */
  lemma {:induction false} FoundInPlace(ms: seq<Member>, i: nat)
    requires DistinctNames(ms) && i < |ms|
    ensures FindMember(ms, ms[i].name) == i
  {
  }

  // ---- symmetry ----

  ghost predicate Symmetric(floats: FloatEquality) {
    forall v, w :: floats(v, w) == floats(w, v)
  }

  /** Where the members of the first object are found in the second. */
  function Places(ms: seq<Member>, ns: seq<Member>): (at: seq<nat>)
    ensures |at| == |ms| && forall i | 0 <= i < |ms| :: at[i] == FindMember(ns, ms[i].name)
  {
    seq(|ms|, i requires 0 <= i < |ms| => FindMember(ns, ms[i].name))
  }

  /** Members that are all found, under distinct names, among equally many: every one of those is found in turn. */
  lemma {:induction false} FoundInTurn(floats: FloatEquality, ms: seq<Member>, ns: seq<Member>, j: nat) returns (i: nat)
    requires DistinctNames(ms) && |ms| == |ns| && j < |ns| && forall k | 0 <= k < |ms| :: EqualMember(floats, ms[k], ns)
    ensures i < |ms| && ms[i].name == ns[j].name && FindMember(ns, ms[i].name) == j && FindMember(ms, ns[j].name) == i
  {
    var at := Places(ms, ns);
    forall k | 0 <= k < |ms| ensures at[k] < |ns| { assert EqualMember(floats, ms[k], ns); }
    forall k, l | 0 <= k < l < |ms| ensures at[k] != at[l] {
      assert EqualMember(floats, ms[k], ns) && EqualMember(floats, ms[l], ns);
    }
    AllListed(at, |ns|, j);
    i :| 0 <= i < |at| && at[i] == j;
    assert EqualMember(floats, ms[i], ns);
    FoundInPlace(ms, i);
  }

  /** A value without duplicate names equals itself. */
  lemma {:induction false} EqualIsReflexive(floats: FloatEquality, v: Value)
    requires Distinct(v) && forall x :: floats(x, x)
    ensures Equal(floats, v, v)
    decreases v
  {
    match v
    case ArrayValue(es) =>
      DistinctElementsAt(es);
      forall i | 0 <= i < |es| ensures Equal(floats, es[i], es[i]) {
        EqualIsReflexive(floats, es[i]);
      }
      ElementsEqualAt(floats, es, es);
    case ObjectValue(ms) =>
      DistinctMembersAt(ms);
      forall i | 0 <= i < |ms| ensures EqualMember(floats, ms[i], ms) {
        assert DistinctMember(ms[i]);
        FoundInPlace(ms, i);
        EqualIsReflexive(floats, ms[i].value);
      }
      MembersEqualAt(floats, ms, ms);
    case _ =>
  }

  /** A value without duplicate names equals only values that equal it. */
  lemma {:induction false} EqualIsSymmetric(floats: FloatEquality, v: Value, w: Value)
    requires Symmetric(floats) && Distinct(v) && Equal(floats, v, w)
    ensures Equal(floats, w, v)
    decreases v
  {
    match v
    case ArrayValue(es) =>
      ElementsEqualAt(floats, es, w.elements);
      DistinctElementsAt(es);
      forall i | 0 <= i < |es| ensures Equal(floats, w.elements[i], es[i]) {
        EqualIsSymmetric(floats, es[i], w.elements[i]);
      }
      ElementsEqualAt(floats, w.elements, es);
    case ObjectValue(ms) =>
      var ns := w.members;
      MembersEqualAt(floats, ms, ns);
      DistinctMembersAt(ms);
      forall j | 0 <= j < |ns| ensures EqualMember(floats, ns[j], ms) {
        var i := FoundInTurn(floats, ms, ns, j);
        assert EqualMember(floats, ms[i], ns) && DistinctMember(ms[i]);
        EqualIsSymmetric(floats, ms[i].value, ns[j].value);
      }
      MembersEqualAt(floats, ns, ms);
    case _ =>
  }

  // ---- no symmetry with duplicate names ----

  predicate NameIsLonger(name: Value, n: nat) {
    name.StringValue? && |name.s| > n
  }

  function Letters(n: nat): (s: string)
    ensures |s| == n
  {
    if n == 0 then "" else "x" + Letters(n - 1)
  }

  /** A name that no member has. */
  lemma {:induction false} FreshName(ms: seq<Member>) returns (n: nat)
    ensures forall i | 0 <= i < |ms| :: !NameIsLonger(ms[i].name, n)
  {
    n := 0;
    if ms != [] {
      var m := FreshName(ms[1..]);
      n := if ms[0].name.StringValue? && |ms[0].name.s| > m then |ms[0].name.s| else m;
      forall i | 0 <= i < |ms| ensures !NameIsLonger(ms[i].name, n) {
        if i > 0 { assert ms[i] == ms[1..][i - 1] && !NameIsLonger(ms[1..][i - 1].name, m); }
      }
    }
  }

  /** Where two names agree, some member of the other object is never looked up: renaming it goes unnoticed one way only. */
  lemma {:induction false} Renamed(floats: FloatEquality, ms: seq<Member>, ns: seq<Member>, i: nat, j: nat) returns (os: seq<Member>)
    requires i < j < |ms| == |ns| && ms[i].name == ms[j].name && EqualMembers(floats, ms, ns)
    ensures |os| == |ms| && EqualMembers(floats, ms, os) && !EqualMembers(floats, os, ms)
  {
    var at := Places(ms, ns);
    var p := OneMissing(at, i, j);
    var n := FreshName(ms);
    var name := StringValue(Letters(n + 1));
    assert NameIsLonger(name, n);
    os := ns[p := Member(name, NullValue)];
    forall k | 0 <= k < |ms| ensures ms[k].name != name { assert !NameIsLonger(ms[k].name, n); }
    MembersEqualAt(floats, ms, ns);
    forall k | 0 <= k < |ms| ensures EqualMember(floats, ms[k], os) {
      assert EqualMember(floats, ms[k], ns) && at[k] in at;
      StillFound(ns, p, os[p], ms[k].name);
    }
    MembersEqualAt(floats, ms, os);
    MembersEqualAt(floats, os, ms);
    assert !EqualMember(floats, os[p], ms);
  }

  /** Changing a member that is not found, to a name that is not looked for, does not change what is found. */
  lemma {:induction false} StillFound(ns: seq<Member>, p: nat, m: Member, name: Value)
    requires p < |ns| && FindMember(ns, name) < |ns| && FindMember(ns, name) != p && m.name != name
    ensures FindMember(ns[p := m], name) == FindMember(ns, name)
  {
    var os, i := ns[p := m], FindMember(ns, name);
    assert os[i] == ns[i];
  }

  lemma {:induction false} SameNamesFound(ms: seq<Member>, ns: seq<Member>, name: Value)
    requires |ms| == |ns| && forall i | 0 <= i < |ms| :: ms[i].name == ns[i].name
    ensures FindMember(ms, name) == FindMember(ns, name)
  {
    var i, j := FindMember(ms, name), FindMember(ns, name);
    if i < |ms| { assert ns[i].name == name; }
    if j < |ns| { assert ms[j].name == name; }
  }

  /** The member found, replaced by a value that does not equal the one it was found for. */
  lemma {:induction false} MemberReplaced(floats: FloatEquality, ms: seq<Member>, ns: seq<Member>, i: nat, w: Value)
    returns (os: seq<Member>)
    requires DistinctNames(ms) && i < |ms| == |ns| && EqualMembers(floats, ms, ns)
    requires Equal(floats, ms[i].value, w) && !Equal(floats, w, ms[i].value)
    ensures |os| == |ms| && EqualMembers(floats, ms, os) && !EqualMembers(floats, os, ms)
  {
    hide Equal, EqualMembers;
    MembersEqualAt(floats, ms, ns);
    assert EqualMember(floats, ms[i], ns);
    var p := FindMember(ns, ms[i].name);
    os := ns[p := Member(ms[i].name, w)];
    forall k | 0 <= k < |ms| ensures EqualMember(floats, ms[k], os) {
      assert EqualMember(floats, ms[k], ns);
      SameNamesFound(ns, os, ms[k].name);
      if k != i { assert ms[k].name != ms[i].name && os[FindMember(ns, ms[k].name)] == ns[FindMember(ns, ms[k].name)]; }
    }
    MembersEqualAt(floats, ms, os);
    MembersEqualAt(floats, os, ms);
    FoundInPlace(ms, i);
    assert !EqualMember(floats, os[p], ms);
  }

  /** A value with duplicate names somewhere that equals any value equals one that does not equal it. */
  lemma {:induction false} DuplicatesEqualOneWay(floats: FloatEquality, v: Value, w: Value) returns (x: Value)
    requires Equal(floats, v, w) && !Distinct(v)
    ensures Equal(floats, v, x) && !Equal(floats, x, v)
    decreases v
  {
    match v
    case ArrayValue(es) =>
      DistinctElementsAt(es);
      ElementsEqualAt(floats, es, w.elements);
      var i :| 0 <= i < |es| && !Distinct(es[i]);
      var y := DuplicatesEqualOneWay(floats, es[i], w.elements[i]);
      var fs := w.elements[i := y];
      assert fs[i] == y;
      ElementsEqualAt(floats, es, fs);
      ElementsEqualAt(floats, fs, es);
      x := ArrayValue(fs);
    case ObjectValue(ms) =>
      var ns := w.members;
      if DistinctNames(ms) {
        DistinctMembersAt(ms);
        MembersEqualAt(floats, ms, ns);
        var i :| 0 <= i < |ms| && !DistinctMember(ms[i]);
        assert EqualMember(floats, ms[i], ns);
        var y := DuplicatesEqualOneWay(floats, ms[i].value, ns[FindMember(ns, ms[i].name)].value);
        var os := MemberReplaced(floats, ms, ns, i, y);
        x := ObjectValue(os);
      } else {
        var i, j :| 0 <= i < j < |ms| && ms[i].name == ms[j].name;
        var os := Renamed(floats, ms, ns, i, j);
        x := ObjectValue(os);
      }
  }

  /** Every value that `v` equals equals `v` if and only if `v` has no duplicate names, or equals nothing at all. */
  lemma {:induction false} SymmetricIffDistinct(floats: FloatEquality, v: Value)
    requires Symmetric(floats)
    ensures (forall w :: Equal(floats, v, w) ==> Equal(floats, w, v)) <==> Distinct(v) || forall w :: !Equal(floats, v, w)
  {
    if Distinct(v) {
      forall w | Equal(floats, v, w) ensures Equal(floats, w, v) {
        EqualIsSymmetric(floats, v, w);
      }
    } else if w :| Equal(floats, v, w) {
      var x := DuplicatesEqualOneWay(floats, v, w);
    }
  }

  // ---- which objects equal anything ----

  /** All values under this name equal `x`. */
  ghost predicate AllEqual(floats: FloatEquality, ms: seq<Member>, name: Value, x: Value) {
    forall i | 0 <= i < |ms| && ms[i].name == name :: Equal(floats, ms[i].value, x)
  }

  ghost predicate HaveCommon(floats: FloatEquality, ms: seq<Member>, name: Value) {
    exists x :: AllEqual(floats, ms, name, x)
  }

  /** A value that all values under this name equal. */
  ghost function Common(floats: FloatEquality, ms: seq<Member>, name: Value): (x: Value)
    requires HaveCommon(floats, ms, name)
    ensures AllEqual(floats, ms, name, x)
  {
    var x :| AllEqual(floats, ms, name, x);
    x
  }

  /** An object equals some value if and only if for every name there is one value that all values under that name equal. */
  lemma {:induction false} EqualsSomeIff(floats: FloatEquality, ms: seq<Member>)
    ensures (exists w :: Equal(floats, ObjectValue(ms), w)) <==> forall i | 0 <= i < |ms| :: HaveCommon(floats, ms, ms[i].name)
  {
    if w :| Equal(floats, ObjectValue(ms), w) {
      forall i | 0 <= i < |ms| ensures HaveCommon(floats, ms, ms[i].name) {
        CommonFound(floats, ms, w.members, ms[i].name);
      }
    }
    if forall i | 0 <= i < |ms| :: HaveCommon(floats, ms, ms[i].name) {
      CommonsEqual(floats, ms);
    }
  }

  lemma {:induction false} CommonFound(floats: FloatEquality, ms: seq<Member>, ns: seq<Member>, name: Value)
    requires EqualMembers(floats, ms, ns)
    ensures HaveCommon(floats, ms, name)
  {
    MembersEqualAt(floats, ms, ns);
    var p := FindMember(ns, name);
    var x := if p < |ns| then ns[p].value else NullValue;
    forall k | 0 <= k < |ms| && ms[k].name == name ensures Equal(floats, ms[k].value, x) {
      assert EqualMember(floats, ms[k], ns);
    }
    assert AllEqual(floats, ms, name, x);
  }

  lemma {:induction false} CommonsEqual(floats: FloatEquality, ms: seq<Member>)
    requires forall i | 0 <= i < |ms| :: HaveCommon(floats, ms, ms[i].name)
    ensures exists w :: Equal(floats, ObjectValue(ms), w)
  {
    var ns := seq(|ms|, i requires 0 <= i < |ms| => Member(ms[i].name, Common(floats, ms, ms[i].name)));
    forall k | 0 <= k < |ms| ensures EqualMember(floats, ms[k], ns) {
      assert ns[k].name == ms[k].name;
      var i := FindMember(ns, ms[k].name);
      assert ns[i].value == Common(floats, ms, ms[k].name);
    }
    MembersEqualAt(floats, ms, ns);
    assert Equal(floats, ObjectValue(ms), ObjectValue(ns));
  }

  /** An object with the member "a" twice, and one with a member "b" instead of the second. */
  function Twice(): Value {
    ObjectValue([Member(StringValue("a"), NullValue), Member(StringValue("a"), NullValue)])
  }

  function Once(): Value {
    ObjectValue([Member(StringValue("a"), NullValue), Member(StringValue("b"), NullValue)])
  }

  /** The smallest example: the first equals itself and the second, but the second does not equal the first. */
  lemma {:induction false} DuplicatesEqual(floats: FloatEquality)
    ensures Equal(floats, Twice(), Twice()) && Equal(floats, Twice(), Once()) && !Equal(floats, Once(), Twice())
  {
    var a, b := StringValue("a"), StringValue("b");
    var m, n := Member(a, NullValue), Member(b, NullValue);
    var ms, ns := [m, m], [m, n];
    assert "a"[0] != "b"[0] && m.name != n.name;
    assert ms[1..] == [m] && FindMember(ms, b) == 2;
    assert EqualMember(floats, m, ms) && EqualMember(floats, m, ns) && !EqualMember(floats, n, ms);
    assert ns[1..] == [n] && [m][1..] == [];
    assert EqualMembers(floats, [m], ms) && EqualMembers(floats, [m], ns);
    assert [n][0] == n && !EqualMembers(floats, [n], ms);
  }
}
