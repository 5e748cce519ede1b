/**
 Following a pointer into a tree of values, and creating what it points to.
 */
module PointerTree {
  import opened Text
  import opened JsonDom
  import opened JsonEquality
  import opened JsonPointer

  /** A location: at every level, the position of an element or member. */
  type Path = seq<nat>

  predicate IsContainer(v: Value) {
    v.ArrayValue? || v.ObjectValue?
  }

  function ChildCount(v: Value): nat {
    match v
    case ArrayValue(es) => |es|
    case ObjectValue(ms) => |ms|
    case _ => 0
  }

  function Child(v: Value, i: nat): (c: Value)
    requires i < ChildCount(v)
    ensures c < v
  {
    match v
    case ArrayValue(es) => es[i]
    case ObjectValue(ms) => ms[i].value
  }

  /** The value with another one at this position. */
  function WithChild(v: Value, i: nat, c: Value): (w: Value)
    requires i < ChildCount(v)
    ensures ChildCount(w) == ChildCount(v) && Child(w, i) == c
    ensures forall j | 0 <= j < ChildCount(v) && j != i :: Child(w, j) == Child(v, j)
  {
    match v
    case ArrayValue(es) => ArrayValue(es[i := c])
    case ObjectValue(ms) => ObjectValue(ms[i := Member(ms[i].name, c)])
  }

  // ---- following ----

  datatype Position = NoPosition | Found(i: nat)

  /** Where a name leads: to the first member of that name, or to the element of that index. */
  function Resolve(v: Value, name: string): (p: Position)
    ensures p.Found? ==> p.i < ChildCount(v)
  {
    match v
    case ObjectValue(ms) =>
      var i := FindMember(ms, StringValue(name));
      if i < |ms| then Found(i) else NoPosition
    case ArrayValue(es) =>
      if Index(name) == INVALID_INDEX || Index(name) >= |es| then NoPosition else Found(Index(name))
    case _ => NoPosition
  }

  datatype Resolved = Nowhere(unresolved: nat) | At(path: Path)

  /** Where a pointer leads, or the number of the first name that leads nowhere. */
  function Get(v: Value, names: seq<string>): Resolved {
    if names == [] then At([])
    else
      var p := Resolve(v, names[0]);
      if p.NoPosition? then Nowhere(0)
      else
        match Get(Child(v, p.i), names[1..])
        case Nowhere(k) => Nowhere(k + 1)
        case At(path) => At([p.i] + path)
  }

  predicate HasPath(v: Value, path: Path) {
    path == [] || (path[0] < ChildCount(v) && HasPath(Child(v, path[0]), path[1..]))
  }

  function ValueAt(v: Value, path: Path): Value
    requires HasPath(v, path)
  {
    if path == [] then v else ValueAt(Child(v, path[0]), path[1..])
  }

  function Put(v: Value, path: Path, c: Value): Value
    requires HasPath(v, path)
  {
    if path == [] then c else WithChild(v, path[0], Put(Child(v, path[0]), path[1..], c))
  }

  // ---- creating ----

  /** The hyphen, applied to an array, stands for the element after the last. */
  predicate Appends(v: Value, name: string) {
    v.ArrayValue? && name == "-"
  }

  function Nulls(n: nat): (es: seq<Value>)
    ensures |es| == n && forall i | 0 <= i < n :: es[i] == NullValue
  {
    if n == 0 then [] else [NullValue] + Nulls(n - 1)
  }

  /** A value that can have a child of this name: if it is none, its contents are lost. */
  function Converted(v: Value, name: string): (w: Value)
    ensures IsContainer(w) && (w.ArrayValue? ==> Index(name) != INVALID_INDEX)
  {
    if Index(name) == INVALID_INDEX then (if v.ObjectValue? then v else ObjectValue([]))
    else if IsContainer(v) then v
    else ArrayValue([])
  }

  datatype Step = Step(value: Value, i: nat, exist: bool)

  /** One name: the value with the child of that name, its position, and whether it was there. */
  function CreateChild(v: Value, name: string): (s: Step)
    ensures s.i < ChildCount(s.value)
  {
    if Appends(v, name) then Step(ArrayValue(v.elements + [NullValue]), |v.elements|, false)
    else
      var w := Converted(v, name);
      match w
      case ArrayValue(es) =>
        var i := Index(name);
        if i >= |es| then Step(ArrayValue(es + Nulls(i + 1 - |es|)), i, false) else Step(w, i, true)
      case ObjectValue(ms) =>
        var i := FindMember(ms, StringValue(name));
        if i == |ms| then Step(ObjectValue(ms + [Member(StringValue(name), NullValue)]), i, false) else Step(w, i, true)
  }

  datatype Created = Created(value: Value, path: Path, exist: bool)

  function Create(v: Value, names: seq<string>): Created
    decreases |names|
  {
    if names == [] then Created(v, [], true)
    else
      var s := CreateChild(v, names[0]);
      var c := Create(Child(s.value, s.i), names[1..]);
      Created(WithChild(s.value, s.i, c.value), [s.i] + c.path, s.exist && c.exist)
  }

  /** Some name along the way is a hyphen applied to an array. */
  predicate AppendsSomewhere(v: Value, names: seq<string>)
    decreases |names|
  {
    names != [] &&
    (Appends(v, names[0]) || AppendsSomewhere(Child(CreateChild(v, names[0]).value, CreateChild(v, names[0]).i), names[1..]))
  }

  lemma {:induction false} StepResolves(v: Value, name: string)
    ensures var s := CreateChild(v, name);
            && (s.exist <==> Resolve(v, name).Found?)
            && (s.exist ==> s.value == v && Resolve(v, name) == Found(s.i))
            && (!s.exist ==> Child(s.value, s.i) == NullValue)
  {
  }

  lemma {:induction false} WithOwnChild(v: Value, i: nat)
    requires i < ChildCount(v)
    ensures WithChild(v, i, Child(v, i)) == v
  {
    match v
    case ArrayValue(es) => assert es[i := es[i]] == es;
    case ObjectValue(ms) => assert ms[i := Member(ms[i].name, ms[i].value)] == ms;
  }

  /** Creating reports that the value exists if and only if the pointer led somewhere, and then changes nothing. */
  lemma {:induction false} CreateExistsIff(v: Value, names: seq<string>)
    ensures var c := Create(v, names);
            && (c.exist <==> Get(v, names).At?)
            && (c.exist ==> c.value == v && Get(v, names) == At(c.path))
    decreases |names|
  {
    if names != [] {
      StepResolves(v, names[0]);
      var s := CreateChild(v, names[0]);
      CreateExistsIff(Child(s.value, s.i), names[1..]);
      WithOwnChild(s.value, s.i);
    }
  }

  lemma {:induction false} HyphenIsNoIndex()
    ensures Index("-") == INVALID_INDEX
  {
    assert !IsDigit("-"[0]);
  }

  /** After a step, the name leads to the child that was created, whatever is put there, unless the name was a hyphen for an array. */
  lemma {:induction false} StepThenResolve(v: Value, name: string, c: Value)
    ensures var s := CreateChild(v, name);
            Resolve(WithChild(s.value, s.i, c), name) == if Appends(v, name) then NoPosition else Found(s.i)
  {
    var s := CreateChild(v, name);
    var w := WithChild(s.value, s.i, c);
    if Appends(v, name) {
      HyphenIsNoIndex();
    } else if w.ObjectValue? {
      var n := StringValue(name);
      assert w.members[s.i].name == n;
      assert forall j | 0 <= j < s.i :: w.members[j].name == s.value.members[j].name != n;
    }
  }

  /** Afterwards the pointer leads to the location returned if and only if no hyphen was applied to an array. */
  lemma {:induction false} CreateThenGet(v: Value, names: seq<string>)
    ensures var c := Create(v, names); Get(c.value, names) == At(c.path) <==> !AppendsSomewhere(v, names)
    decreases |names|
  {
    if names != [] {
      var s := CreateChild(v, names[0]);
      var child := Child(s.value, s.i);
      var c := Create(child, names[1..]);
      CreateThenGet(child, names[1..]);
      StepThenResolve(v, names[0], c.value);
      var deeper := Get(c.value, names[1..]);
      if deeper.At? { assert ([s.i] + deeper.path)[1..] == deeper.path && ([s.i] + c.path)[1..] == c.path; }
    }
  }

  /** A value that did not exist is created as null, and the location returned is one of the tree. */
  lemma {:induction false} CreatedIsNull(v: Value, names: seq<string>)
    ensures var c := Create(v, names); HasPath(c.value, c.path) && (!c.exist ==> ValueAt(c.value, c.path) == NullValue)
    decreases |names|
  {
    if names != [] {
      var s := CreateChild(v, names[0]);
      var child := Child(s.value, s.i);
      CreatedIsNull(child, names[1..]);
      StepResolves(v, names[0]);
      var c := Create(child, names[1..]);
      assert ([s.i] + c.path)[1..] == c.path;
      if !s.exist && c.exist {
        CreateExistsIff(child, names[1..]);
        NullHasNoChildren(names[1..]);
      }
    }
  }

  lemma {:induction false} NullHasNoChildren(names: seq<string>)
    ensures Get(NullValue, names).At? ==> names == []
  {
  }

  /** Creating twice is creating once: the second time the value exists, at the same place. */
  lemma {:induction false} CreateTwice(v: Value, names: seq<string>)
    requires !AppendsSomewhere(v, names)
    ensures var c := Create(v, names); Create(c.value, names) == Created(c.value, c.path, true)
  {
    CreateThenGet(v, names);
    CreateExistsIff(Create(v, names).value, names);
  }

  // ---- what creation adds, and what it keeps ----

  /** Made from nothing: an array up to the index if the name is one, otherwise an object of one member, and so on down. */
  predicate Fresh(w: Value, names: seq<string>, path: Path)
    decreases |names|
  {
    if names == [] then w == NullValue && path == []
    else
      && path != [] && path[0] < ChildCount(w) && Fresh(Child(w, path[0]), names[1..], path[1..])
      && if Index(names[0]) != INVALID_INDEX then FilledTo(w, [], Index(names[0]), path[0]) else OneMember(w, names[0], path[0])
  }

  /** An array of these elements, then nulls, up to index `i`. */
  predicate FilledTo(w: Value, es: seq<Value>, i: nat, at: nat) {
    && w.ArrayValue? && at == i && |es| <= i && |w.elements| == i + 1 && w.elements[..|es|] == es
    && forall j | |es| <= j < i :: w.elements[j] == NullValue
  }

  predicate OneMember(w: Value, name: string, at: nat) {
    w.ObjectValue? && at == 0 && |w.members| == 1 && w.members[0].name == StringValue(name)
  }

  /** `y` is `x` with what the names lead to: a member at the end, or the elements up to an index; only a clash replaces it. */
  predicate GrownBy(x: Value, y: Value, names: seq<string>, path: Path)
    requires names != []
  {
    && path != [] && path[0] < ChildCount(y) && Fresh(Child(y, path[0]), names[1..], path[1..])
    && match x
       case ObjectValue(ms) =>
         && y.ObjectValue? && path[0] == |ms| && |y.members| == |ms| + 1
         && y.members[..|ms|] == ms && y.members[|ms|].name == StringValue(names[0])
       case ArrayValue(es) =>
         if names[0] == "-" then FilledTo(y, es, |es|, path[0])
         else if Index(names[0]) != INVALID_INDEX then FilledTo(y, es, Index(names[0]), path[0])
         else OneMember(y, names[0], path[0])
       case _ =>
         if Index(names[0]) != INVALID_INDEX then FilledTo(y, [], Index(names[0]), path[0])
         else OneMember(y, names[0], path[0])
  }

  lemma {:induction false} GrownFromNull(y: Value, names: seq<string>, path: Path)
    requires names != [] && GrownBy(NullValue, y, names, path)
    ensures Fresh(y, names, path)
  {
  }

  lemma {:induction false} CreateInNull(names: seq<string>)
    ensures var c := Create(NullValue, names); Fresh(c.value, names, c.path)
    decreases |names|
  {
    hide GrownBy, Resolve, CreateChild;
    if names != [] {
      CreateInNull(names[1..]);
      StepResolves(NullValue, names[0]);
      NullHasNoChildren([names[0]]);
      var s, c := CreateChild(NullValue, names[0]), Create(NullValue, names[1..]);
      NewChildGrows(NullValue, names, c.value, c.path);
      GrownFromNull(WithChild(s.value, s.i, c.value), names, [s.i] + c.path);
    }
  }

  lemma {:induction false} StepGrows(v: Value, names: seq<string>)
    requires names != [] && Resolve(v, names[0]).NoPosition?
    ensures var c := Create(v, names); !c.exist && GrownBy(v, c.value, names, c.path)
  {
    hide GrownBy, Fresh, Resolve, CreateChild;
    StepResolves(v, names[0]);
    CreateInNull(names[1..]);
    var s := CreateChild(v, names[0]);
    var c := Create(NullValue, names[1..]);
    assert ([s.i] + c.path)[1..] == c.path;
    NewChildGrows(v, names, c.value, c.path);
  }

  /** The step for one name, with whatever is created below it. */
  lemma {:induction false} NewChildGrows(v: Value, names: seq<string>, c: Value, path: Path)
    requires names != [] && !CreateChild(v, names[0]).exist && Fresh(c, names[1..], path)
    ensures var s := CreateChild(v, names[0]); GrownBy(v, WithChild(s.value, s.i, c), names, [s.i] + path)
  {
    hide Fresh, Index;
    HyphenIsNoIndex();
    var s := CreateChild(v, names[0]);
    assert ([s.i] + path)[1..] == path && Child(WithChild(s.value, s.i, c), s.i) == c;
  }

  /** Where the names stop leading somewhere, at a location `p`, the value there is grown; the tree is the same elsewhere. */
  predicate GrownAt(v: Value, names: seq<string>, c: Created, k: nat) {
    && k < |names| && Get(v, names[..k]).At? && !c.exist
    && var p := Get(v, names[..k]).path;
       && HasPath(v, p) && HasPath(c.value, p) && |p| <= |c.path| && c.path[..|p|] == p
       && c.value == Put(v, p, ValueAt(c.value, p))
       && GrownBy(ValueAt(v, p), ValueAt(c.value, p), names[k..], c.path[|p|..])
  }

  lemma {:induction false} GetHasPath(v: Value, names: seq<string>)
    ensures Get(v, names).At? ==> HasPath(v, Get(v, names).path)
    decreases |names|
  {
    if names != [] && Resolve(v, names[0]).Found? {
      var i := Resolve(v, names[0]).i;
      GetHasPath(Child(v, i), names[1..]);
      var deeper := Get(Child(v, i), names[1..]);
      if deeper.At? { assert ([i] + deeper.path)[1..] == deeper.path; }
    }
  }

  /** One level further up. */
  lemma {:induction false} GrownAbove(v: Value, names: seq<string>, k: nat)
    requires names != [] && Resolve(v, names[0]).Found?
    requires var i := Resolve(v, names[0]).i; GrownAt(Child(v, i), names[1..], Create(Child(v, i), names[1..]), k)
    ensures GrownAt(v, names, Create(v, names), k + 1)
  {
    hide GrownBy, CreateChild, Resolve;
    var i := Resolve(v, names[0]).i;
    StepResolves(v, names[0]);
    var c := Create(Child(v, i), names[1..]);
    assert names[..k + 1][0] == names[0] && names[..k + 1][1..] == names[1..][..k] && names[1..][k..] == names[k + 1..];
    var p := Get(Child(v, i), names[1..][..k]).path;
    var q := [i] + p;
    assert Get(v, names[..k + 1]) == At(q) && q[1..] == p;
    var w := WithChild(v, i, c.value);
    assert Create(v, names) == Created(w, [i] + c.path, false);
    assert ([i] + c.path)[..|q|] == q && ([i] + c.path)[|q|..] == c.path[|p|..];
    assert Child(w, i) == c.value;
  }

  lemma {:induction false} GrownHere(v: Value, names: seq<string>, c: Created)
    requires names != [] && !c.exist && GrownBy(v, c.value, names, c.path)
    ensures GrownAt(v, names, c, 0)
  {
    hide GrownBy;
    assert names[..0] == [] && names[0..] == names && c.path[0..] == c.path;
  }

  /** What creation does: nothing if the pointer leads somewhere, and otherwise it grows the last value that it leads to. */
  lemma {:induction false} CreateIs(v: Value, names: seq<string>)
    ensures Get(v, names).At? ==> Create(v, names) == Created(v, Get(v, names).path, true)
    ensures Get(v, names).Nowhere? ==> GrownAt(v, names, Create(v, names), Get(v, names).unresolved)
    decreases |names|
  {
    hide CreateChild, Resolve, GrownAt, Create;
    CreateExistsIff(v, names);
    if names != [] {
      if Resolve(v, names[0]).NoPosition? {
        StepGrows(v, names);
        GrownHere(v, names, Create(v, names));
      } else {
        var i := Resolve(v, names[0]).i;
        CreateIs(Child(v, i), names[1..]);
        var deeper := Get(Child(v, i), names[1..]);
        if deeper.Nowhere? { GrownAbove(v, names, deeper.unresolved); }
      }
    }
  }

  // ---- pointers that led somewhere before ----

  /** Where the pointer led in `x` it leads in `y`, and to the same value unless that is on the way to `q`. */
  ghost predicate KeepsPointer(x: Value, y: Value, q: Path, names: seq<string>) {
    Get(x, names).At? ==>
      var p := Get(x, names).path;
      Get(y, names) == At(p) && (p <= q || (HasPath(x, p) && HasPath(y, p) && ValueAt(y, p) == ValueAt(x, p)))
  }

  /** A non-empty array is given a name that is no index and no hyphen: its elements go. */
  predicate Clashes(x: Value, name: string) {
    x.ArrayValue? && x.elements != [] && name != "-" && Index(name) == INVALID_INDEX
  }

  /** The pointer stops leading somewhere at such an array. */
  predicate ClashesSomewhere(v: Value, names: seq<string>) {
    Get(v, names).Nowhere?
    && var k := Get(v, names).unresolved;
       k < |names| && Get(v, names[..k]).At? && HasPath(v, Get(v, names[..k]).path)
       && Clashes(ValueAt(v, Get(v, names[..k]).path), names[k])
  }

  lemma {:induction false} GrownResolves(x: Value, y: Value, names: seq<string>, path: Path, name: string)
    requires names != [] && GrownBy(x, y, names, path) && !Clashes(x, names[0]) && Resolve(x, name).Found?
    ensures Resolve(y, name) == Resolve(x, name) && Child(y, Resolve(x, name).i) == Child(x, Resolve(x, name).i)
  {
    hide Fresh;
    match x
    case ObjectValue(ms) =>
      var n := StringValue(name);
      var i := FindMember(ms, n);
      assert forall j | 0 <= j < |ms| :: y.members[j] == y.members[..|ms|][j];
      assert y.members[i].name == n;
    case ArrayValue(es) =>
      assert forall j | 0 <= j < |es| :: y.elements[j] == y.elements[..|es|][j];
    case _ =>
  }

  lemma {:induction false} GrownKeeps(x: Value, y: Value, names: seq<string>, path: Path, others: seq<string>)
    requires names != [] && GrownBy(x, y, names, path) && !Clashes(x, names[0])
    ensures KeepsPointer(x, y, path, others)
  {
    hide GrownBy, Clashes, Resolve;
    if others != [] && Get(x, others).At? {
      GrownResolves(x, y, names, path, others[0]);
      GetHasPath(x, others);
      var i := Resolve(x, others[0]).i;
      var deeper := Get(Child(x, i), others[1..]);
      GetHasPath(Child(x, i), others[1..]);
      assert ([i] + deeper.path)[1..] == deeper.path;
    }
  }

  lemma {:induction false} WithChildResolves(v: Value, i: nat, c: Value, name: string)
    requires i < ChildCount(v)
    ensures Resolve(WithChild(v, i, c), name) == Resolve(v, name)
  {
    if v.ObjectValue? {
      var ns := WithChild(v, i, c).members;
      assert |ns| == |v.members| && forall j | 0 <= j < |ns| :: ns[j].name == v.members[j].name;
      SameNamesFound(v.members, ns, StringValue(name));
    }
  }

  /** A value put somewhere keeps every pointer of the tree if it keeps those of the value that was there. */
  lemma {:induction false} PutKeeps(v: Value, p: Path, y: Value, q: Path, names: seq<string>)
    requires HasPath(v, p) && forall others :: KeepsPointer(ValueAt(v, p), y, q, others)
    ensures KeepsPointer(v, Put(v, p, y), p + q, names)
    decreases |p|
  {
    hide Resolve, KeepsPointer;
    LeadsNowhere(v, Put(v, p, y), p + q, names);
    if p == [] {
      assert ValueAt(v, p) == v && Put(v, p, y) == y && p + q == q;
      assert KeepsPointer(ValueAt(v, p), y, q, names);
    } else if names != [] && Get(v, names).At? {
      WithChildResolves(v, p[0], Put(Child(v, p[0]), p[1..], y), names[0]);
      var i := Resolve(v, names[0]).i;
      var w := Put(v, p, y);
      PutChild(v, p, y, i);
      if i == p[0] {
        assert ValueAt(v, p) == ValueAt(Child(v, i), p[1..]);
        PutKeeps(Child(v, i), p[1..], y, q, names[1..]);
        assert (p + q)[0] == i && (p + q)[1..] == p[1..] + q;
      }
      KeepsAbove(v, w, i, p + q, names);
    }
  }

  lemma {:induction false} PutChild(v: Value, p: Path, y: Value, i: nat)
    requires HasPath(v, p) && p != [] && i < ChildCount(v)
    ensures ChildCount(Put(v, p, y)) == ChildCount(v)
    ensures Child(Put(v, p, y), i) == if i == p[0] then Put(Child(v, i), p[1..], y) else Child(v, i)
  {
    var c := Put(Child(v, p[0]), p[1..], y);
    assert Put(v, p, y) == WithChild(v, p[0], c);
    assert Child(WithChild(v, p[0], c), i) == if i == p[0] then c else Child(v, i);
  }

  lemma {:induction false} LeadsNowhere(v: Value, w: Value, q: Path, names: seq<string>)
    ensures names == [] || Get(v, names).Nowhere? ==> KeepsPointer(v, w, q, names)
  {
  }

  lemma {:induction false} KeepsAbove(v: Value, w: Value, i: nat, q: Path, names: seq<string>)
    requires names != [] && Resolve(v, names[0]) == Found(i) == Resolve(w, names[0]) && q != []
    requires Child(v, i) == Child(w, i) || (q[0] == i && KeepsPointer(Child(v, i), Child(w, i), q[1..], names[1..]))
    ensures KeepsPointer(v, w, q, names)
  {
    hide Resolve;
    GetHasPath(v, names);
    GetHasPath(Child(v, i), names[1..]);
    var deeper := Get(Child(v, i), names[1..]);
    if deeper.At? {
      assert ([i] + deeper.path)[1..] == deeper.path;
      if q[0] == i && deeper.path <= q[1..] { assert [i] + deeper.path <= [i] + q[1..] == q; }
    }
  }

  /** Every pointer that led somewhere still leads there, to an unchanged value unless it is on the way to what is created,
      if and only if the names do not ask a non-empty array for a member. */
  lemma {:induction false} CreateKeepsIff(v: Value, names: seq<string>)
    ensures var c := Create(v, names);
            (forall others :: KeepsPointer(v, c.value, c.path, others)) <==> !ClashesSomewhere(v, names)
  {
    var c := Create(v, names);
    CreateIs(v, names);
    if Get(v, names).At? {
      forall others ensures KeepsPointer(v, c.value, c.path, others) { GetHasPath(v, others); }
    } else if ClashesSomewhere(v, names) {
      var others := ClashLoses(v, names, c);
    } else {
      forall others ensures KeepsPointer(v, c.value, c.path, others) { GrownKeepsAll(v, names, c, others); }
    }
  }

  lemma {:induction false} GrownKeepsAll(v: Value, names: seq<string>, c: Created, others: seq<string>)
    requires Get(v, names).Nowhere? && GrownAt(v, names, c, Get(v, names).unresolved) && !ClashesSomewhere(v, names)
    ensures KeepsPointer(v, c.value, c.path, others)
  {
    hide GrownBy, Clashes, Put, ValueAt, HasPath, KeepsPointer;
    var k := Get(v, names).unresolved;
    var p := Get(v, names[..k]).path;
    var q := c.path[|p|..];
    var x, y := ValueAt(v, p), ValueAt(c.value, p);
    forall more ensures KeepsPointer(x, y, q, more) { GrownKeeps(x, y, names[k..], q, more); }
    PutKeeps(v, p, y, q, others);
    assert p + q == c.path;
  }

  lemma {:induction false} LongerPath(i: nat, p: Path, r: Resolved)
    ensures r.At? ==> [i] + (p + r.path) == ([i] + p) + r.path
  {
  }

  /** Following one pointer and then another. */
  lemma {:induction false} GetThen(v: Value, names: seq<string>, more: seq<string>)
    requires Get(v, names).At?
    ensures HasPath(v, Get(v, names).path)
    ensures Get(v, names + more) == match Get(ValueAt(v, Get(v, names).path), more)
                                    case Nowhere(k) => Nowhere(|names| + k)
                                    case At(path) => At(Get(v, names).path + path)
    decreases |names|
  {
    hide Resolve, ChildCount;
    GetHasPath(v, names);
    if names == [] {
      assert names + more == more;
      var r := Get(v, more);
      if r.At? { assert [] + r.path == r.path; }
    } else {
      var i := Resolve(v, names[0]).i;
      GetThen(Child(v, i), names[1..], more);
      assert (names + more)[1..] == names[1..] + more && (names + more)[0] == names[0];
      var deeper := Get(Child(v, i), names[1..]).path;
      assert ([i] + deeper)[1..] == deeper;
      LongerPath(i, deeper, Get(ValueAt(Child(v, i), deeper), more));
    }
  }

  lemma {:induction false} ZeroIsIndex()
    ensures Index("0") == 0
  {
    assert "0"[1..] == "" && IsDigit("0"[0]);
  }

  /** The first element of the array was there, and is no more. */
  lemma {:induction false} ClashLoses(v: Value, names: seq<string>, c: Created) returns (others: seq<string>)
    requires ClashesSomewhere(v, names) && GrownAt(v, names, c, Get(v, names).unresolved)
    ensures !KeepsPointer(v, c.value, c.path, others)
  {
    hide Fresh;
    var k := Get(v, names).unresolved;
    var front := names[..k];
    var p := Get(v, front).path;
    var x, y := ValueAt(v, p), ValueAt(c.value, p);
    ZeroIsIndex();
    GetThen(v, front, ["0"]);
    assert ["0"][1..] == [] && Resolve(x, "0") == Found(0);
    assert Get(x, ["0"]) == At([0] + []);
    assert names[k..][0] == names[k];
    assert y.ObjectValue? && y.members[0].name == StringValue(names[k]) && names[k] != "0";
    assert FindMember(y.members, StringValue("0")) == 1;
    assert Get(y, ["0"]) == Nowhere(0);
    others := front;
    if KeepsPointer(v, c.value, c.path, front) {
      GetThen(c.value, front, ["0"]);
      others := front + ["0"];
    }
  }

  // ---- walking and changing in place ----

  lemma {:induction false} PathGrows(v: Value, path: Path, i: nat)
    requires HasPath(v, path) && i < ChildCount(ValueAt(v, path))
    ensures HasPath(v, path + [i]) && ValueAt(v, path + [i]) == Child(ValueAt(v, path), i)
  {
    if path != [] {
      assert (path + [i])[1..] == path[1..] + [i];
      PathGrows(Child(v, path[0]), path[1..], i);
    } else {
      assert [i][1..] == [];
    }
  }

  lemma {:induction false} PutThere(v: Value, path: Path, c: Value)
    requires HasPath(v, path)
    ensures HasPath(Put(v, path, c), path) && ValueAt(Put(v, path, c), path) == c
  {
    if path != [] { PutThere(Child(v, path[0]), path[1..], c); }
  }

  lemma {:induction false} PutTwice(v: Value, path: Path, c: Value, d: Value)
    requires HasPath(v, path)
    ensures HasPath(Put(v, path, c), path) && Put(Put(v, path, c), path, d) == Put(v, path, d)
  {
    PutThere(v, path, c);
    if path != [] {
      PutTwice(Child(v, path[0]), path[1..], c, d);
      SetTwice(v, path[0], Put(Child(v, path[0]), path[1..], c), Put(Child(v, path[0]), path[1..], d));
    }
  }

  lemma {:induction false} SetTwice(v: Value, i: nat, c: Value, d: Value)
    requires i < ChildCount(v)
    ensures WithChild(WithChild(v, i, c), i, d) == WithChild(v, i, d)
  {
    match v
    case ArrayValue(es) => assert es[i := c][i := d] == es[i := d];
    case ObjectValue(ms) => assert ms[i := Member(ms[i].name, c)][i := Member(ms[i].name, d)] == ms[i := Member(ms[i].name, d)];
  }

  lemma {:induction false} PutDeeper(v: Value, path: Path, i: nat, c: Value)
    requires HasPath(v, path) && i < ChildCount(ValueAt(v, path))
    ensures HasPath(v, path + [i]) && Put(v, path + [i], c) == Put(v, path, WithChild(ValueAt(v, path), i, c))
  {
    PathGrows(v, path, i);
    if path != [] {
      assert (path + [i])[1..] == path[1..] + [i];
      PutDeeper(Child(v, path[0]), path[1..], i, c);
    } else {
      assert [i][1..] == [];
    }
  }

  lemma {:induction false} PutOwn(v: Value, path: Path)
    requires HasPath(v, path)
    ensures Put(v, path, ValueAt(v, path)) == v
  {
    if path != [] {
      PutOwn(Child(v, path[0]), path[1..]);
      WithOwnChild(v, path[0]);
    }
  }

  /** What following leads to when the first `k` names have led along a path. */
  function Onward(path: Path, k: nat, r: Resolved): Resolved {
    match r
    case Nowhere(n) => Nowhere(k + n)
    case At(more) => At(path + more)
  }

  lemma {:induction false} OnwardOnce(path: Path, k: nat, v: Value, names: seq<string>)
    requires names != [] && Resolve(v, names[0]).Found?
    ensures var i := Resolve(v, names[0]).i;
            Onward(path, k, Get(v, names)) == Onward(path + [i], k + 1, Get(Child(v, i), names[1..]))
  {
    var i := Resolve(v, names[0]).i;
    var deeper := Get(Child(v, i), names[1..]);
    if deeper.At? { assert (path + [i]) + deeper.path == path + ([i] + deeper.path); }
  }

  /** Follows a pointer: a value is walked down, name by name. */
  method GetValue(root: Value, names: seq<string>) returns (r: Resolved)
    ensures r == Get(root, names)
  {
    var v, path: Path := root, [];
    ghost var goal := Get(root, names);
    for k := 0 to |names|
      invariant goal == Onward(path, k, Get(v, names[k..]))
    {
      assert names[k..][0] == names[k] && names[k..][1..] == names[k + 1..];
      var p := NoPosition;
      match v {
        case ObjectValue(ms) =>
          var m := FindMember(ms, StringValue(names[k]));
          if m != |ms| { p := Found(m); }
        case ArrayValue(es) =>
          var index := Index(names[k]);
          if index != INVALID_INDEX && index < |es| { p := Found(index); }
        case _ =>
      }
      assert p == Resolve(v, names[k]);
      if p.NoPosition? { return Nowhere(k); }
      OnwardOnce(path, k, v, names[k..]);
      v, path := Child(v, p.i), path + [p.i];
    }
    assert path + [] == path;
    return At(path);
  }

  /** The result of creating in a tree, when the rest is created in the value at a location. */
  function Within(root: Value, path: Path, exist: bool, c: Created): Created
    requires HasPath(root, path)
  {
    Created(Put(root, path, c.value), path + c.path, exist && c.exist)
  }

  lemma {:induction false} WithinOnce(root: Value, path: Path, exist: bool, names: seq<string>)
    requires HasPath(root, path) && names != []
    ensures var v := ValueAt(root, path);
            var s := CreateChild(v, names[0]);
            var after := Put(root, path, s.value);
            && HasPath(after, path + [s.i]) && ValueAt(after, path + [s.i]) == Child(s.value, s.i)
            && Within(root, path, exist, Create(v, names))
               == Within(after, path + [s.i], exist && s.exist, Create(Child(s.value, s.i), names[1..]))
  {
    hide CreateChild, Put, ValueAt, HasPath;
    var s := CreateChild(ValueAt(root, path), names[0]);
    var c := Create(Child(s.value, s.i), names[1..]);
    var after := Put(root, path, s.value);
    PutThere(root, path, s.value);
    PathGrows(after, path, s.i);
    PutDeeper(after, path, s.i, c.value);
    PutTwice(root, path, s.value, WithChild(s.value, s.i, c.value));
    assert (path + [s.i]) + c.path == path + ([s.i] + c.path);
  }

  /** A tree that is changed in place. */
  class Tree {
    var root: Value

    constructor (v: Value)
      ensures root == v
    {
      root := v;
    }

    /** One name at a location: afterwards the child is there. */
    method Enter(path: Path, name: string) returns (i: nat, exist: bool)
      requires HasPath(root, path)
      modifies this
      ensures var s := CreateChild(old(ValueAt(root, path)), name);
              && root == Put(old(root), path, s.value) && i == s.i && exist == s.exist
              && HasPath(root, path) && ValueAt(root, path) == s.value
    {
      var v := ValueAt(root, path);
      exist := true;
      if v.ArrayValue? && name == "-" {
        v := ArrayValue(v.elements + [NullValue]);
        i, exist := |v.elements| - 1, false;
      } else {
        if Index(name) == INVALID_INDEX {
          if !v.ObjectValue? { v := ObjectValue([]); }
        } else if !v.ArrayValue? && !v.ObjectValue? {
          v := ArrayValue([]);
        }
        match v {
          case ArrayValue(es) =>
            i := Index(name);
            if i >= |es| {
              v, exist := ArrayValue(es + Nulls(i + 1 - |es|)), false;
            }
          case ObjectValue(ms) =>
            i := FindMember(ms, StringValue(name));
            if i == |ms| {
              v, exist := ObjectValue(ms + [Member(StringValue(name), NullValue)]), false;
            }
        }
      }
      PutThere(root, path, v);
      root := Put(root, path, v);
    }

    /** Creates what the pointer leads to and returns its location. */
    method CreateValue(names: seq<string>) returns (path: Path, exist: bool)
      modifies this
      ensures var c := Create(old(root), names); root == c.value && path == c.path && exist == c.exist
    {
      path, exist := [], true;
      ghost var goal := Create(root, names);
      for k := 0 to |names|
        invariant HasPath(root, path)
        invariant goal == Within(root, path, exist, Create(ValueAt(root, path), names[k..]))
      {
        assert names[k..][0] == names[k] && names[k..][1..] == names[k + 1..];
        WithinOnce(root, path, exist, names[k..]);
        var i, existed := Enter(path, names[k]);
        path, exist := path + [i], exist && existed;
      }
      assert path + [] == path;
      PutOwn(root, path);
    }
  }
}
