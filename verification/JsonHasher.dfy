/**
 Hash codes, which equal values share whatever the order of their members.
 */
module JsonHasher {
  import opened JsonScan
  import opened JsonDom
  import opened JsonEquality

  // ---- hash codes ----

  type Code = bv64

  /** How codes are mixed and combined, and the bytes of integers and numbers as floating-point numbers. */
  datatype Hashing = Hashing(mix: (Code, Code) -> Code, combine: (Code, Code) -> Code, bytesOfInt: int -> seq<Code>, bytesOfDouble: int -> seq<Code>)

  const OFFSET: Code := 0x84222325_cbf29ce4

  /** Multiplied by the prime of the hash. */
  function Scaled(a: Code): Code {
    a * 0x100_000001b3
  }

  /** The mixing of the FNV-1a hash. */
  function Fnv(h: Code, d: Code): Code {
    Scaled(h ^ d)
  }

  function Xor(a: Code, b: Code): Code {
    a ^ b
  }

  const NULL_TYPE: Code := 0
  const FALSE_TYPE: Code := 1
  const TRUE_TYPE: Code := 2
  const OBJECT_TYPE: Code := 3
  const ARRAY_TYPE: Code := 4
  const STRING_TYPE: Code := 5
  const NUMBER_TYPE: Code := 6

  function Fold(k: Hashing, h: Code, codes: seq<Code>): Code
    decreases |codes|
  {
    if codes == [] then h else Fold(k, k.mix(h, codes[0]), codes[1..])
  }

  function WriteBuffer(k: Hashing, tag: Code, bytes: seq<Code>): Code {
    Fold(k, k.mix(OFFSET, tag), bytes)
  }

  function ByteCode(n: nat): Code
    requires n < 256
  {
    n as bv8 as Code
  }

  /** The bytes of a word, lowest first. */
  function WordBytes(word: nat, n: nat): seq<Code> {
    if n == 0 then [] else [ByteCode(word % 256)] + WordBytes(word / 256, n - 1)
  }

  function StringBytes(s: string): seq<Code> {
    if s == "" then [] else [ByteCode(s[0] as int % 256)] + StringBytes(s[1..])
  }

  /** A number is hashed as the bits of its word and as a floating-point number. */
  function NumberCode(k: Hashing, n: int): Code {
    WriteBuffer(k, NUMBER_TYPE, WordBytes(Bits(n), 8) + k.bytesOfInt(n))
  }

  function StringCode(k: Hashing, s: string): Code {
    WriteBuffer(k, STRING_TYPE, StringBytes(s))
  }

  function HashCode(k: Hashing, v: Value): Code
    requires Proper(v)
  {
    match v
    case NullValue => WriteBuffer(k, NULL_TYPE, [])
    case BoolValue(b) => WriteBuffer(k, if b then TRUE_TYPE else FALSE_TYPE, [])
    case NumberValue(_, _) => NumberCode(k, Integer(v))
    case DoubleValue(fp) => WriteBuffer(k, NUMBER_TYPE, k.bytesOfDouble(fp))
    case StringValue(s) => StringCode(k, s)
    case ArrayValue(es) => Fold(k, k.mix(0, ARRAY_TYPE), ElementCodes(k, es))
    case ObjectValue(ms) => XorPairs(k, k.mix(0, OBJECT_TYPE), MemberCodes(k, ms))
  }

  function ElementCodes(k: Hashing, es: seq<Value>): (codes: seq<Code>)
    requires ProperElements(es)
    ensures |codes| == |es|
  {
    if es == [] then [] else [HashCode(k, es[0])] + ElementCodes(k, es[1..])
  }

  /** The codes of names and values, alternately. */
  function MemberCodes(k: Hashing, ms: seq<Member>): (codes: seq<Code>)
    requires ProperMembers(ms)
    ensures |codes| == 2 * |ms|
  {
    if ms == [] then [] else MemberCode(k, ms[0]) + MemberCodes(k, ms[1..])
  }

  function MemberCode(k: Hashing, member: Member): (codes: seq<Code>)
    requires ProperMember(member)
    ensures |codes| == 2
  {
    [StringCode(k, member.name.s), HashCode(k, member.value)]
  }

  /** Every pair is mixed on its own, and the results are combined by exclusive or. */
  function XorPairs(k: Hashing, h: Code, kv: seq<Code>): Code
    requires |kv| % 2 == 0
    decreases |kv|
  {
    if kv == [] then h else XorPairs(k, k.combine(h, k.mix(kv[0], kv[1])), kv[2..])
  }

  // ---- the order of members does not matter ----

  function Mixed(k: Hashing, member: Member): Code
    requires ProperMember(member)
  {
    k.mix(StringCode(k, member.name.s), HashCode(k, member.value))
  }

  /** Member by member. */
  function XorMembers(k: Hashing, h: Code, ms: seq<Member>): Code
    requires ProperMembers(ms)
    decreases |ms|
  {
    if ms == [] then h else XorMembers(k, k.combine(h, Mixed(k, ms[0])), ms[1..])
  }

  lemma {:induction false} PairsAreMembers(k: Hashing, h: Code, ms: seq<Member>)
    requires ProperMembers(ms)
    ensures XorPairs(k, h, MemberCodes(k, ms)) == XorMembers(k, h, ms)
    decreases |ms|
  {
    if ms != [] {
      assert MemberCodes(k, ms)[2..] == MemberCodes(k, ms[1..]);
      PairsAreMembers(k, k.combine(h, Mixed(k, ms[0])), ms[1..]);
    }
  }

  /** What is combined with a code may come in any order. */
  ghost predicate Commutes(k: Hashing) {
    forall a, b, c :: k.combine(k.combine(a, b), c) == k.combine(k.combine(a, c), b)
  }

  lemma {:induction false} XorIs(a: Code, b: Code)
    ensures Xor(a, b) == a ^ b
  {
  }

  lemma {:induction false} XorSwapHere(a: Code, b: Code, c: Code)
    ensures Xor(a ^ b, c) == Xor(a ^ c, b)
  {
  }

  lemma {:induction false} XorSwap(a: Code, b: Code, c: Code)
    ensures Xor(Xor(a, b), c) == Xor(Xor(a, c), b)
  {
    hide Xor;
    XorIs(a, b);
    XorIs(a, c);
    XorSwapHere(a, b, c);
  }

  lemma {:induction false} XorCommutes(k: Hashing)
    requires k.combine == Xor
    ensures Commutes(k)
  {
    hide Xor;
    forall a: Code, b: Code, c: Code ensures k.combine(k.combine(a, b), c) == k.combine(k.combine(a, c), b) {
      XorSwap(a, b, c);
    }
  }

  function Without(ns: seq<Member>, i: nat): seq<Member>
    requires i < |ns|
  {
    ns[..i] + ns[i + 1..]
  }

  lemma {:induction false} WithoutLater(ns: seq<Member>, i: nat)
    requires 0 < i < |ns|
    ensures Without(ns, i) != [] && Without(ns, i)[0] == ns[0] && Without(ns, i)[1..] == Without(ns[1..], i - 1)
  {
  }

  /** Taking out one member and combining it first gives the same code. */
  lemma {:induction false} XorRemove(k: Hashing, h: Code, ns: seq<Member>, i: nat)
    requires Commutes(k) && ProperMembers(ns) && i < |ns|
    ensures ProperMembers(Without(ns, i)) && ProperMember(ns[i])
    ensures XorMembers(k, h, ns) == XorMembers(k, k.combine(h, Mixed(k, ns[i])), Without(ns, i))
    decreases |ns|
  {
    var rest := ns[1..];
    if i == 0 {
      assert Without(ns, 0) == rest;
    } else {
      var x := Mixed(k, ns[0]);
      XorRemove(k, k.combine(h, x), rest, i - 1);
      WithoutLater(ns, i);
      assert rest[i - 1] == ns[i];
    }
  }

  /** Every number is an integer that fits into a signed word. */
  predicate SignedWords(v: Value) {
    match v
    case NumberValue(_, flags) => Int64Flag in flags
    case DoubleValue(_) => false
    case ArrayValue(es) => SignedElements(es)
    case ObjectValue(ms) => SignedMembers(ms)
    case _ => true
  }

  predicate SignedElements(es: seq<Value>) {
    es == [] || (SignedWords(es[0]) && SignedElements(es[1..]))
  }

  predicate SignedMembers(ms: seq<Member>) {
    ms == [] || (SignedMember(ms[0]) && SignedMembers(ms[1..]))
  }

  predicate SignedMember(member: Member) {
    SignedWords(member.value)
  }

  lemma {:induction false} SignedAt(ms: seq<Member>, i: nat)
    requires ProperMembers(ms) && SignedMembers(ms) && i < |ms|
    ensures ProperMember(ms[i]) && SignedMember(ms[i])
    ensures ProperMembers(Without(ms, i)) && SignedMembers(Without(ms, i))
  {
    if i == 0 {
      assert Without(ms, 0) == ms[1..];
    } else {
      SignedAt(ms[1..], i - 1);
      WithoutLater(ms, i);
    }
  }

  /** Without a member of another name, looking up finds the same member. */
  lemma {:induction false} FindAmongOthers(ns: seq<Member>, i: nat, name: Value)
    requires i < |ns| && ns[i].name != name && FindMember(ns, name) < |ns|
    ensures var others := Without(ns, i);
            FindMember(others, name) < |others| && others[FindMember(others, name)] == ns[FindMember(ns, name)]
  {
    var others := Without(ns, i);
    var j := FindMember(ns, name);
    var at := if j < i then j else j - 1;
    assert others[at] == ns[j];
    forall l | 0 <= l < at ensures others[l].name != name {
      assert others[l] == if l < i then ns[l] else ns[l + 1];
    }
  }

  lemma {:induction false} EqualAmongOthers(floats: FloatEquality, ms: seq<Member>, ns: seq<Member>, i: nat)
    requires EqualMembers(floats, ms, ns) && i < |ns| && forall j | 0 <= j < |ms| :: ms[j].name != ns[i].name
    ensures EqualMembers(floats, ms, Without(ns, i))
  {
    if ms != [] {
      FindAmongOthers(ns, i, ms[0].name);
      EqualAmongOthers(floats, ms[1..], ns, i);
    }
  }

  /**
   Equal values have equal codes, if no object of the first has two members of the same name and all numbers
   are signed words.
   */
  lemma {:induction false} EqualThenSameCode(k: Hashing, floats: FloatEquality, v: Value, w: Value)
    requires Proper(v) && Proper(w) && Distinct(v) && SignedWords(v) && SignedWords(w) && Equal(floats, v, w) && Commutes(k)
    ensures HashCode(k, v) == HashCode(k, w)
    decreases v
  {
    match v
    case ArrayValue(es) => ElementsThenSameCodes(k, floats, es, w.elements);
    case ObjectValue(ms) =>
      var h := k.mix(0, OBJECT_TYPE);
      MembersThenSameCode(k, floats, ms, w.members, h);
      PairsAreMembers(k, h, ms);
      PairsAreMembers(k, h, w.members);
    case _ =>
  }

  lemma {:induction false} ElementsThenSameCodes(k: Hashing, floats: FloatEquality, es: seq<Value>, fs: seq<Value>)
    requires ProperElements(es) && ProperElements(fs) && DistinctElements(es) && SignedElements(es) && SignedElements(fs)
    requires |es| == |fs| && EqualElements(floats, es, fs) && Commutes(k)
    ensures ElementCodes(k, es) == ElementCodes(k, fs)
    decreases es
  {
    if es != [] {
      EqualThenSameCode(k, floats, es[0], fs[0]);
      ElementsThenSameCodes(k, floats, es[1..], fs[1..]);
    }
  }

  lemma {:induction false} MemberThenSameCode(k: Hashing, floats: FloatEquality, member: Member, other: Member)
    requires ProperMember(member) && ProperMember(other) && DistinctMember(member) && SignedMember(member) && SignedMember(other)
    requires Commutes(k) && member.name == other.name && Equal(floats, member.value, other.value)
    ensures Mixed(k, member) == Mixed(k, other)
    decreases member
  {
    EqualThenSameCode(k, floats, member.value, other.value);
  }

  lemma {:induction false} MembersThenSameCode(k: Hashing, floats: FloatEquality, ms: seq<Member>, ns: seq<Member>, h: Code)
    requires ProperMembers(ms) && ProperMembers(ns) && DistinctNames(ms) && DistinctMembers(ms)
    requires SignedMembers(ms) && SignedMembers(ns) && |ms| == |ns| && EqualMembers(floats, ms, ns) && Commutes(k)
    ensures XorMembers(k, h, ms) == XorMembers(k, h, ns)
    decreases ms
  {
    if ms != [] {
      var i := FindMember(ns, ms[0].name);
      var others := Without(ns, i);
      SignedAt(ns, i);
      MemberThenSameCode(k, floats, ms[0], ns[i]);
      EqualAmongOthers(floats, ms[1..], ns, i);
      XorRemove(k, h, ns, i);
      MembersThenSameCode(k, floats, ms[1..], others, k.combine(h, Mixed(k, ms[0])));
    }
  }

  // ---- equal values whose codes differ ----

  /** The hashing of the source. */
  ghost predicate IsFnv(k: Hashing) {
    k.mix == Fnv && k.combine == Xor
  }

  /** Multiplied by the inverse of the prime modulo 2^64. */
  function Unscaled(a: Code): Code {
    a * 0xce965057_aff6957b
  }

  lemma {:induction false} ScaledBack(a: Code)
    ensures Unscaled(a * 0x100_000001b3) == a
  {
  }

  lemma {:induction false} ScaledUndone(a: Code)
    ensures Unscaled(Scaled(a)) == a
  {
    hide Unscaled;
    ScaledBack(a);
  }

  lemma {:induction false} XorExact(h: Code, c: Code, d: Code)
    ensures h ^ c == h ^ d <==> c == d
    ensures c ^ h == d ^ h <==> c == d
  {
  }

  /** Nothing is lost in mixing: with either argument fixed, different codes stay different. */
  lemma {:induction false} FnvExact(h: Code, c: Code, d: Code)
    ensures Fnv(h, c) == Fnv(h, d) <==> c == d
    ensures Fnv(c, h) == Fnv(d, h) <==> c == d
  {
    hide Scaled, Unscaled;
    XorExact(h, c, d);
    ScaledUndone(h ^ c); ScaledUndone(h ^ d);
    ScaledUndone(c ^ h); ScaledUndone(d ^ h);
  }

  lemma {:induction false} FoldLast(k: Hashing, h: Code, bytes: seq<Code>, c: Code)
    ensures Fold(k, h, bytes + [c]) == k.mix(Fold(k, h, bytes), c)
    decreases |bytes|
  {
    if bytes == [] {
      assert [c][1..] == [] && bytes + [c] == [c];
    } else {
      assert (bytes + [c])[1..] == bytes[1..] + [c];
      FoldLast(k, k.mix(h, bytes[0]), bytes[1..], c);
    }
  }

  /** Bytes that differ in the last one only. */
  lemma {:induction false} LastByteTells(k: Hashing, h: Code, bytes: seq<Code>, c: Code, d: Code)
    requires IsFnv(k) && c != d
    ensures Fold(k, h, bytes + [c]) != Fold(k, h, bytes + [d])
  {
    hide Fnv;
    FoldLast(k, h, bytes, c);
    FoldLast(k, h, bytes, d);
    FnvExact(Fold(k, h, bytes), c, d);
  }

  /**
   Signed words are needed: -1 and 2^64 - 1 are equal, but as floating-point numbers, which are -1 and 2^64, they
   have different last bytes, and their codes differ.
   */
  lemma {:induction false} WordApart(k: Hashing, floats: FloatEquality)
    requires IsFnv(k) && k.bytesOfInt(-1) == [0, 0, 0, 0, 0, 0, 0xF0, 0xBF] && k.bytesOfInt(TWO64 - 1) == [0, 0, 0, 0, 0, 0, 0xF0, 0x43]
    ensures Equal(floats, Number(-1), Number(TWO64 - 1))
    ensures HashCode(k, Number(-1)) != HashCode(k, Number(TWO64 - 1))
  {
    EqualNumbers(floats, -1, TWO64 - 1);
    var word, h, front: seq<Code> := WordBytes(Bits(-1), 8), k.mix(OFFSET, NUMBER_TYPE), [0, 0, 0, 0, 0, 0, 0xF0];
    assert Bits(-1) == Bits(TWO64 - 1);
    assert word + k.bytesOfInt(-1) == (word + front) + [0xBF];
    assert word + k.bytesOfInt(TWO64 - 1) == (word + front) + [0x43];
    LastByteTells(k, h, word + front, 0xBF, 0x43);
  }

  /** The codes of the two objects, in terms of those of their names and of null. */
  lemma {:induction false} TwiceAndOnce(k: Hashing)
    ensures Proper(Twice()) && Proper(Once())
    ensures var h, n := k.mix(0, OBJECT_TYPE), HashCode(k, NullValue);
            var x, y := k.mix(StringCode(k, "a"), n), k.mix(StringCode(k, "b"), n);
            HashCode(k, Twice()) == k.combine(k.combine(h, x), x) && HashCode(k, Once()) == k.combine(k.combine(h, x), y)
  {
    var ms, ns := Twice().members, Once().members;
    var h := k.mix(0, OBJECT_TYPE);
    assert ms[1..] == [ms[1]] && ns[1..] == [ns[1]] && ms[1..][1..] == [] && ns[1..][1..] == [];
    PairsAreMembers(k, h, ms);
    PairsAreMembers(k, h, ns);
  }

  /** Distinct names are needed: two objects of which the first equals the second, with different codes. */
  lemma {:induction false} DuplicateCodes(k: Hashing, floats: FloatEquality)
    requires IsFnv(k)
    ensures Proper(Twice()) && Proper(Once()) && Equal(floats, Twice(), Once())
    ensures HashCode(k, Twice()) != HashCode(k, Once())
  {
    DuplicatesEqual(floats);
    TwiceAndOnce(k);
    NamesApart(k);
    hide StringCode, HashCode, Fnv, Xor;
    var a, b, n := StringCode(k, "a"), StringCode(k, "b"), HashCode(k, NullValue);
    FnvExact(n, a, b);
    XorTells(k.combine(k.mix(0, OBJECT_TYPE), k.mix(a, n)), k.mix(a, n), k.mix(b, n));
  }

  lemma {:induction false} XorTells(h: Code, x: Code, y: Code)
    ensures Xor(h, x) == Xor(h, y) <==> x == y
    ensures Xor(x, h) == Xor(y, h) <==> x == y
  {
    XorExact(h, x, y);
  }

  lemma {:induction false} LetterBytes()
    ensures StringBytes("a") == [97] && StringBytes("b") == [98]
  {
    assert "a"[1..] == "" && "b"[1..] == "";
  }

  lemma {:induction false} NamesApart(k: Hashing)
    requires IsFnv(k)
    ensures StringCode(k, "a") != StringCode(k, "b")
  {
    LetterBytes();
    hide StringBytes, Fold;
    var c, d: Code := 97, 98;
    assert [c] == [] + [c] && [d] == [] + [d];
    LastByteTells(k, k.mix(OFFSET, STRING_TYPE), [], c, d);
  }

  // ---- the hasher ----

  /** The codes on the stack, unless more were taken than there are. */
  datatype Hashed = Codes(codes: seq<Code>) | TooFew

  function ScalarCode(k: Hashing, ev: Event): Code {
    match ev
    case Bool(b) => WriteBuffer(k, if b then TRUE_TYPE else FALSE_TYPE, [])
    case Int(n) => NumberCode(k, n)
    case Uint(n) => NumberCode(k, n)
    case Int64(n) => NumberCode(k, n)
    case Uint64(n) => NumberCode(k, n)
    case Double(fp) => WriteBuffer(k, NUMBER_TYPE, k.bytesOfDouble(fp))
    case String(s) => StringCode(k, s)
    case Key(s) => StringCode(k, s)
    case _ => WriteBuffer(k, NULL_TYPE, [])
  }

  function HashEvent(k: Hashing, stack: seq<Code>, ev: Event): Hashed {
    match ev
    case StartObject => Codes(stack)
    case StartArray => Codes(stack)
    case EndObject(count) =>
      var n := |stack| - 2 * count;
      if n < 0 then TooFew else Codes(stack[..n] + [XorPairs(k, k.mix(0, OBJECT_TYPE), stack[n..])])
    case EndArray(count) =>
      var n := |stack| - count;
      if n < 0 then TooFew else Codes(stack[..n] + [Fold(k, k.mix(0, ARRAY_TYPE), stack[n..])])
    case _ => Codes(stack + [ScalarCode(k, ev)])
  }

  function HashAll(k: Hashing, stack: seq<Code>, events: seq<Event>): Hashed
    decreases |events|
  {
    if events == [] then Codes(stack)
    else
      match HashEvent(k, stack, events[0])
      case TooFew => TooFew
      case Codes(codes) => HashAll(k, codes, events[1..])
  }

  /** The events push these codes on any stack. */
  ghost predicate Pushes(k: Hashing, events: seq<Event>, codes: seq<Code>) {
    forall stack :: HashAll(k, stack, events) == Codes(stack + codes)
  }

  lemma {:induction false} HashThen(k: Hashing, stack: seq<Code>, a: seq<Event>, b: seq<Event>)
    ensures HashAll(k, stack, a + b) == match HashAll(k, stack, a)
                                        case TooFew => TooFew
                                        case Codes(codes) => HashAll(k, codes, b)
    decreases |a|
  {
    if a == [] {
      assert a + b == b;
    } else {
      assert (a + b)[1..] == a[1..] + b;
      match HashEvent(k, stack, a[0])
      case TooFew =>
      case Codes(codes) => HashThen(k, codes, a[1..], b);
    }
  }

  lemma {:induction false} Grouped(a: seq<Code>, b: seq<Code>, c: seq<Code>)
    ensures (a + b) + c == a + (b + c)
  {
  }

  lemma {:induction false} PushesThen(k: Hashing, a: seq<Event>, x: seq<Code>, b: seq<Event>, y: seq<Code>)
    requires Pushes(k, a, x) && Pushes(k, b, y)
    ensures Pushes(k, a + b, x + y)
  {
    forall stack ensures HashAll(k, stack, a + b) == Codes(stack + (x + y)) {
      HashThen(k, stack, a, b);
      assert HashAll(k, stack, a) == Codes(stack + x);
      assert HashAll(k, stack + x, b) == Codes((stack + x) + y);
      Grouped(stack, x, y);
    }
  }

  lemma {:induction false} PushesOne(k: Hashing, ev: Event)
    requires !ev.StartObject? && !ev.StartArray? && !ev.EndObject? && !ev.EndArray?
    ensures Pushes(k, [ev], [ScalarCode(k, ev)])
  {
    forall stack ensures HashAll(k, stack, [ev]) == Codes(stack + [ScalarCode(k, ev)]) {
      HashOne(k, stack, ev);
    }
  }

  lemma {:induction false} HashOne(k: Hashing, stack: seq<Code>, ev: Event)
    ensures HashAll(k, stack, [ev]) == HashEvent(k, stack, ev)
  {
    assert [ev][1..] == [];
  }

  /** An array or object: its end takes exactly the codes pushed since its start. */
  lemma {:induction false} PushesEnclosed(k: Hashing, start: Event, body: seq<Event>, codes: seq<Code>, end: Event, code: Code)
    requires Pushes(k, body, codes)
    requires || (start.StartArray? && end == EndArray(|codes|) && code == Fold(k, k.mix(0, ARRAY_TYPE), codes))
             || (start.StartObject? && |codes| % 2 == 0 && end == EndObject(|codes| / 2) && code == XorPairs(k, k.mix(0, OBJECT_TYPE), codes))
    ensures Pushes(k, [start] + body + [end], [code])
  {
    forall stack ensures HashAll(k, stack, [start] + body + [end]) == Codes(stack + [code]) {
      HashOne(k, stack, start);
      HashThen(k, stack, [start], body);
      HashThen(k, stack, [start] + body, [end]);
      var all := stack + codes;
      assert HashAll(k, stack, body) == Codes(all);
      HashOne(k, all, end);
      assert all[..|stack|] == stack && all[|stack|..] == codes;
    }
  }

  lemma {:induction false} NumberPushes(k: Hashing, v: Value, m: Mode)
    requires Proper(v) && v.NumberValue?
    ensures ScalarCode(k, EventOf(v, m)) == NumberCode(k, Integer(v))
  {
    NumberEventIs(Integer(v));
  }

  lemma {:induction false} ValuePushes(k: Hashing, v: Value, m: Mode)
    requires Proper(v)
    ensures Pushes(k, Events(v, m), [HashCode(k, v)])
    decreases v
  {
    match v
    case ArrayValue(es) =>
      ElementsPush(k, es, m);
      PushesEnclosed(k, StartArray, ElementEvents(es, m), ElementCodes(k, es), EndArray(|es|), HashCode(k, v));
    case ObjectValue(ms) =>
      MembersPush(k, ms, m);
      PushesEnclosed(k, StartObject, MemberEvents(ms, m), MemberCodes(k, ms), EndObject(|ms|), HashCode(k, v));
    case _ => ScalarPushes(k, v, m);
  }

  lemma {:induction false} ScalarPushes(k: Hashing, v: Value, m: Mode)
    requires Proper(v) && !v.ArrayValue? && !v.ObjectValue?
    ensures Pushes(k, Events(v, m), [HashCode(k, v)])
  {
    if v.NumberValue? { NumberPushes(k, v, m); }
    var ev := Events(v, m)[0];
    PushesOne(k, ev);
    assert Events(v, m) == [ev] && ScalarCode(k, ev) == HashCode(k, v);
  }

  lemma {:induction false} PushesNothing(k: Hashing)
    ensures Pushes(k, [], [])
  {
    forall stack ensures HashAll(k, stack, []) == Codes(stack + []) {
      assert stack + [] == stack;
    }
  }

  lemma {:induction false} ElementsPush(k: Hashing, es: seq<Value>, m: Mode)
    requires ProperElements(es)
    ensures Pushes(k, ElementEvents(es, m), ElementCodes(k, es))
    decreases es
  {
    if es == [] {
      PushesNothing(k);
    } else {
      ValuePushes(k, es[0], m);
      ElementsPush(k, es[1..], m);
      PushesThen(k, Events(es[0], m), [HashCode(k, es[0])], ElementEvents(es[1..], m), ElementCodes(k, es[1..]));
    }
  }

  lemma {:induction false} MemberPushes(k: Hashing, member: Member, m: Mode)
    requires ProperMember(member)
    ensures Pushes(k, MemberEvent(member, m), MemberCode(k, member))
    decreases member
  {
    PushesOne(k, Key(member.name.s));
    ValuePushes(k, member.value, m);
    PushesThen(k, [Key(member.name.s)], [StringCode(k, member.name.s)], Events(member.value, m), [HashCode(k, member.value)]);
    assert [StringCode(k, member.name.s)] + [HashCode(k, member.value)] == MemberCode(k, member);
  }

  lemma {:induction false} MembersPush(k: Hashing, ms: seq<Member>, m: Mode)
    requires ProperMembers(ms)
    ensures Pushes(k, MemberEvents(ms, m), MemberCodes(k, ms))
    decreases ms
  {
    if ms == [] {
      PushesNothing(k);
    } else {
      MemberPushes(k, ms[0], m);
      MembersPush(k, ms[1..], m);
      PushesThen(k, MemberEvent(ms[0], m), MemberCode(k, ms[0]), MemberEvents(ms[1..], m), MemberCodes(k, ms[1..]));
    }
  }

  /** The hasher of equal values, in whatever order their members come, ends with one and the same code. */
  lemma {:induction false} SameCode(k: Hashing, floats: FloatEquality, v: Value, w: Value, m: Mode)
    requires Proper(v) && Proper(w) && Distinct(v) && SignedWords(v) && SignedWords(w) && Equal(floats, v, w) && Commutes(k)
    ensures exists code :: HashAll(k, [], Events(v, m)) == Codes([code]) == HashAll(k, [], Events(w, m))
  {
    EqualThenSameCode(k, floats, v, w);
    ValuePushes(k, v, m);
    ValuePushes(k, w, m);
    assert [] + [HashCode(k, v)] == [HashCode(k, v)];
    assert HashAll(k, [], Events(v, m)) == Codes([] + [HashCode(k, v)]);
    assert HashAll(k, [], Events(w, m)) == Codes([] + [HashCode(k, w)]);
  }

  // ---- the object that hashes ----

  class Hasher {
    const k: Hashing
    var stack: seq<Code>

    constructor (bytesOfInt: int -> seq<Code>, bytesOfDouble: int -> seq<Code>)
      ensures k == Hashing(Fnv, Xor, bytesOfInt, bytesOfDouble) && stack == []
    {
      k := Hashing(Fnv, Xor, bytesOfInt, bytesOfDouble);
      stack := [];
    }

    method WriteBytes(tag: Code, data: seq<Code>)
      modifies `stack
      ensures stack == old(stack) + [WriteBuffer(k, tag, data)]
    {
      var h := k.mix(OFFSET, tag);
      for i := 0 to |data|
        invariant Fold(k, h, data[i..]) == WriteBuffer(k, tag, data)
        invariant stack == old(stack)
      {
        assert data[i..][1..] == data[i + 1..];
        h := k.mix(h, data[i]);
      }
      stack := stack + [h];
    }

    method EndObject(memberCount: nat)
      requires 2 * memberCount <= |stack|
      modifies `stack
      ensures Codes(stack) == HashEvent(k, old(stack), Event.EndObject(memberCount))
    {
      var h := k.mix(0, OBJECT_TYPE);
      var n := |stack| - 2 * memberCount;
      var kv := stack[n..];
      stack := stack[..n];
      for i := 0 to memberCount
        invariant stack == old(stack)[..n]
        invariant XorPairs(k, h, kv[2 * i..]) == XorPairs(k, k.mix(0, OBJECT_TYPE), kv)
      {
        assert kv[2 * i..][2..] == kv[2 * (i + 1)..];
        h := k.combine(h, k.mix(kv[i * 2], kv[i * 2 + 1]));
      }
      assert kv[2 * memberCount..] == [];
      stack := stack + [h];
    }

    method EndArray(elementCount: nat)
      requires elementCount <= |stack|
      modifies `stack
      ensures Codes(stack) == HashEvent(k, old(stack), Event.EndArray(elementCount))
    {
      var h := k.mix(0, ARRAY_TYPE);
      var n := |stack| - elementCount;
      var e := stack[n..];
      stack := stack[..n];
      for i := 0 to elementCount
        invariant stack == old(stack)[..n]
        invariant Fold(k, h, e[i..]) == Fold(k, k.mix(0, ARRAY_TYPE), e)
      {
        assert e[i..][1..] == e[i + 1..];
        h := k.mix(h, e[i]);
      }
      stack := stack + [h];
    }

    /** Receives one event. */
    method Receive(ev: Event)
      requires HashEvent(k, stack, ev).Codes?
      modifies `stack
      ensures Codes(stack) == HashEvent(k, old(stack), ev)
    {
      match ev
      case StartObject =>
      case StartArray =>
      case EndObject(count) => EndObject(count);
      case EndArray(count) => EndArray(count);
      case NullEvent => WriteBytes(NULL_TYPE, []);
      case Bool(b) => WriteBytes(if b then TRUE_TYPE else FALSE_TYPE, []);
      case Int(n) => WriteNumber(n);
      case Uint(n) => WriteNumber(n);
      case Int64(n) => WriteNumber(n);
      case Uint64(n) => WriteNumber(n);
      case Double(fp) => WriteBytes(NUMBER_TYPE, k.bytesOfDouble(fp));
      case String(s) => WriteBytes(STRING_TYPE, StringBytes(s));
      case Key(s) => WriteBytes(STRING_TYPE, StringBytes(s));
    }

    method WriteNumber(n: int)
      modifies `stack
      ensures stack == old(stack) + [NumberCode(k, n)]
    {
      WriteBytes(NUMBER_TYPE, WordBytes(Bits(n), 8) + k.bytesOfInt(n));
    }

    /** Hashes a value: one code is left, that of the value. */
    method GetHashCode(v: Value) returns (code: Code)
      requires Proper(v) && stack == []
      modifies `stack
      ensures code == HashCode(k, v) && stack == [code]
    {
      var events := Events(v, Accepting);
      ValuePushes(k, v, Accepting);
      assert HashAll(k, [], events) == Codes([] + [HashCode(k, v)]);
      for i := 0 to |events|
        invariant HashAll(k, stack, events[i..]) == Codes([HashCode(k, v)])
      {
        assert events[i..][1..] == events[i + 1..];
        Receive(events[i]);
      }
      code := stack[0];
    }
  }

  /** Two hashers, on equal values, return the same code. */
  method HashTwice(bytesOfInt: int -> seq<Code>, bytesOfDouble: int -> seq<Code>, ghost floats: FloatEquality, v: Value, w: Value)
    returns (c: Code, d: Code)
    requires Proper(v) && Proper(w) && Distinct(v) && SignedWords(v) && SignedWords(w) && Equal(floats, v, w)
    ensures c == d == HashCode(Hashing(Fnv, Xor, bytesOfInt, bytesOfDouble), v)
  {
    var first := new Hasher(bytesOfInt, bytesOfDouble);
    var second := new Hasher(bytesOfInt, bytesOfDouble);
    XorCommutes(first.k);
    EqualThenSameCode(first.k, floats, v, w);
    c := first.GetHashCode(v);
    d := second.GetHashCode(w);
  }
}
