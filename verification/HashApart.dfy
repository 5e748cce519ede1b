/**
 What hash codes are, byte by byte, and what they tell apart: values that differ in a single place have different codes.
 */
module HashApart {
  import opened JsonDom
  import opened JsonHasher

  // ---- the code of a value, written out ----

  /** FNV-1a: one byte or code after the other, from this start. */
  function Chain(start: Code, codes: seq<Code>): Code {
    if codes == [] then start else Fnv(Chain(start, codes[..|codes| - 1]), codes[|codes| - 1])
  }

  /** Byte `j` of a word, the lowest first. */
  function ByteOf(word: nat, j: nat): nat {
    if j == 0 then word % 256 else ByteOf(word / 256, j - 1)
  }

  /** The exclusive or of what every member contributes. */
  function XorAll(start: Code, codes: seq<Code>): Code {
    if codes == [] then start else Xor(XorAll(start, codes[..|codes| - 1]), codes[|codes| - 1])
  }

  lemma {:induction false} FoldIsChain(k: Hashing, h: Code, codes: seq<Code>)
    requires IsFnv(k)
    ensures Fold(k, h, codes) == Chain(h, codes)
  {
    hide Fnv;
    if codes != [] {
      var n := |codes| - 1;
      FoldIsChain(k, h, codes[..n]);
      FoldLast(k, h, codes[..n], codes[n]);
      assert codes == codes[..n] + [codes[n]];
    }
  }

  /** The code units of a string, one byte each. */
  function CharCodes(s: string): seq<Code> {
    seq(|s|, i requires 0 <= i < |s| => ByteCode(s[i] as int % 256))
  }

  lemma {:induction false} StringBytesAre(s: string)
    ensures StringBytes(s) == CharCodes(s)
  {
    hide ByteCode;
    if s != "" {
      StringBytesAre(s[1..]);
      assert CharCodes(s) == [ByteCode(s[0] as int % 256)] + CharCodes(s[1..]);
    }
  }

  /** The eight bytes of a word. */
  function WordCodes(word: nat, n: nat): seq<Code> {
    seq(n, j requires 0 <= j < n => ByteCode(ByteOf(word, j) % 256))
  }

  lemma {:induction false} WordBytesAre(word: nat, n: nat)
    ensures WordBytes(word, n) == WordCodes(word, n)
  {
    hide ByteCode;
    if n > 0 {
      WordBytesAre(word / 256, n - 1);
      assert WordCodes(word, n) == [ByteCode(word % 256)] + WordCodes(word / 256, n - 1);
    }
  }

  lemma {:induction false} ByteBelow(word: nat, j: nat)
    ensures ByteOf(word, j) < 256
  {
    if j > 0 { ByteBelow(word / 256, j - 1); }
  }

  lemma {:induction false} ChainOne(start: Code, c: Code)
    ensures Chain(start, [c]) == Fnv(start, c)
  {
    hide Fnv;
    assert [c][..0] == [];
  }

  /** The type first, then every character. */
  lemma {:induction false} StringCodeIs(k: Hashing, s: string)
    requires IsFnv(k)
    ensures StringCode(k, s) == Chain(Chain(OFFSET, [5]), CharCodes(s))
  {
    hide Fnv;
    ChainOne(OFFSET, 5);
    StringBytesAre(s);
    FoldIsChain(k, k.mix(OFFSET, STRING_TYPE), StringBytes(s));
  }

  /** The type, then the eight bytes of the word, and those of the number as a double. */
  lemma {:induction false} NumberCodeIs(k: Hashing, n: int)
    requires IsFnv(k)
    ensures NumberCode(k, n) == Chain(Chain(OFFSET, [6]), WordCodes(Bits(n), 8) + k.bytesOfInt(n))
  {
    hide Fnv;
    ChainOne(OFFSET, 6);
    WordBytesAre(Bits(n), 8);
    FoldIsChain(k, k.mix(OFFSET, NUMBER_TYPE), WordBytes(Bits(n), 8) + k.bytesOfInt(n));
  }

  /** Every type has a number of its own, which comes first. */
  lemma {:induction false} ScalarCodeIs(k: Hashing, v: Value)
    requires IsFnv(k) && Proper(v)
    ensures v == NullValue ==> HashCode(k, v) == Chain(OFFSET, [0])
    ensures v == BoolValue(false) ==> HashCode(k, v) == Chain(OFFSET, [1])
    ensures v == BoolValue(true) ==> HashCode(k, v) == Chain(OFFSET, [2])
    ensures v.StringValue? ==> HashCode(k, v) == Chain(Chain(OFFSET, [5]), CharCodes(v.s))
    ensures v.NumberValue? ==>
              HashCode(k, v) == Chain(Chain(OFFSET, [6]), WordCodes(Bits(Integer(v)), 8) + k.bytesOfInt(Integer(v)))
    ensures v.DoubleValue? ==> HashCode(k, v) == Chain(Chain(OFFSET, [6]), k.bytesOfDouble(v.fp))
  {
    hide Fnv;
    ChainOne(OFFSET, 0); ChainOne(OFFSET, 1); ChainOne(OFFSET, 2); ChainOne(OFFSET, 6);
    match v
    case StringValue(s) => StringCodeIs(k, s);
    case NumberValue(_, _) => NumberCodeIs(k, Integer(v));
    case DoubleValue(fp) => FoldIsChain(k, k.mix(OFFSET, NUMBER_TYPE), k.bytesOfDouble(fp));
    case _ =>
  }

  lemma {:induction false} ElementCodesAt(k: Hashing, es: seq<Value>, i: nat)
    requires ProperElements(es) && i < |es|
    ensures Proper(es[i]) && ElementCodes(k, es)[i] == HashCode(k, es[i])
  {
    if i > 0 { ElementCodesAt(k, es[1..], i - 1); }
  }

  /** What the members contribute. */
  function Contributions(k: Hashing, ms: seq<Member>): (codes: seq<Code>)
    requires ProperMembers(ms)
    ensures |codes| == |ms|
  {
    if ms == [] then [] else [Mixed(k, ms[0])] + Contributions(k, ms[1..])
  }

  lemma {:induction false} ContributionsAt(k: Hashing, ms: seq<Member>, i: nat)
    requires ProperMembers(ms) && i < |ms|
    ensures ProperMember(ms[i]) && Contributions(k, ms)[i] == Mixed(k, ms[i])
  {
    if i > 0 { ContributionsAt(k, ms[1..], i - 1); }
  }

  lemma {:induction false} XorFirst(h: Code, c: Code, codes: seq<Code>)
    ensures XorAll(h, [c] + codes) == XorAll(Xor(h, c), codes)
  {
    var all := [c] + codes;
    if codes == [] {
      assert all[..0] == [];
    } else {
      assert all[..|codes|] == [c] + codes[..|codes| - 1];
      XorFirst(h, c, codes[..|codes| - 1]);
    }
  }

  lemma {:induction false} XorMembersIs(k: Hashing, h: Code, ms: seq<Member>)
    requires IsFnv(k) && ProperMembers(ms)
    ensures XorMembers(k, h, ms) == XorAll(h, Contributions(k, ms))
    decreases |ms|
  {
    hide Fnv;
    if ms != [] {
      XorMembersIs(k, k.combine(h, Mixed(k, ms[0])), ms[1..]);
      XorFirst(h, Mixed(k, ms[0]), Contributions(k, ms[1..]));
    }
  }

  /** An array mixes the codes of its elements in order; an object combines what its members contribute. */
  lemma {:induction false} ContainerCodeIs(k: Hashing, v: Value)
    requires IsFnv(k) && Proper(v)
    ensures v.ArrayValue? ==> HashCode(k, v) == Chain(Fnv(0, 4), ElementCodes(k, v.elements))
    ensures v.ObjectValue? ==> HashCode(k, v) == XorAll(Fnv(0, 3), Contributions(k, v.members))
  {
    hide Fnv;
    match v
    case ArrayValue(es) => FoldIsChain(k, k.mix(0, ARRAY_TYPE), ElementCodes(k, es));
    case ObjectValue(ms) =>
      PairsAreMembers(k, k.mix(0, OBJECT_TYPE), ms);
      XorMembersIs(k, k.mix(0, OBJECT_TYPE), ms);
    case _ =>
  }

  /** The codes of null, of the string "a", and of the empty array and object, worked out. */
  lemma {:induction false} KnownCodes(k: Hashing)
    requires IsFnv(k)
    ensures HashCode(k, NullValue) == 0x789e9d39_8d40976c && HashCode(k, StringValue("a")) == 0x361241cb_04b86af6
    ensures HashCode(k, ArrayValue([])) == 0x00000400_000006cc && HashCode(k, ObjectValue([])) == 0x00000300_00000519
  {
    hide Fnv;
    LetterBytes();
    FoldOne(k, k.mix(OFFSET, STRING_TYPE), 97);
    WorkedOut();
  }

  lemma {:induction false} FoldOne(k: Hashing, h: Code, c: Code)
    ensures Fold(k, h, [c]) == k.mix(h, c)
  {
    assert [c][1..] == [];
  }

  lemma {:induction false} WorkedOut()
    ensures Fnv(OFFSET, 0) == 0x789e9d39_8d40976c && Fnv(Fnv(OFFSET, 5), 97) == 0x361241cb_04b86af6
    ensures Fnv(0, 4) == 0x00000400_000006cc && Fnv(0, 3) == 0x00000300_00000519
  {
  }

  // ---- one place that differs ----

  predicate SameBut(cs: seq<Code>, ds: seq<Code>, i: nat) {
    i < |cs| == |ds| && forall j | 0 <= j < |cs| && j != i :: cs[j] == ds[j]
  }

  lemma {:induction false} ChainExact(g: Code, h: Code, codes: seq<Code>)
    ensures Chain(g, codes) == Chain(h, codes) <==> g == h
  {
    hide Fnv;
    if codes != [] {
      var n := |codes| - 1;
      ChainExact(g, h, codes[..n]);
      FnvExact(codes[n], Chain(g, codes[..n]), Chain(h, codes[..n]));
    }
  }

  lemma {:induction false} ChainOneExact(h: Code, cs: seq<Code>, ds: seq<Code>, i: nat)
    requires SameBut(cs, ds, i)
    ensures Chain(h, cs) == Chain(h, ds) <==> cs[i] == ds[i]
  {
    hide Fnv;
    var n := |cs| - 1;
    if i == n {
      assert cs[..n] == ds[..n];
      FnvExact(Chain(h, cs[..n]), cs[n], ds[n]);
    } else {
      ChainOneExact(h, cs[..n], ds[..n], i);
      FnvExact(cs[n], Chain(h, cs[..n]), Chain(h, ds[..n]));
    }
  }

  lemma {:induction false} XorOneExact(h: Code, cs: seq<Code>, ds: seq<Code>, i: nat)
    requires SameBut(cs, ds, i)
    ensures XorAll(h, cs) == XorAll(h, ds) <==> cs[i] == ds[i]
  {
    hide Xor;
    var n := |cs| - 1;
    if i == n {
      assert cs[..n] == ds[..n];
      XorTells(XorAll(h, cs[..n]), cs[n], ds[n]);
    } else {
      XorOneExact(h, cs[..n], ds[..n], i);
      XorTells(cs[n], XorAll(h, cs[..n]), XorAll(h, ds[..n]));
    }
  }

  lemma {:induction false} ByteKept(a: nat)
    requires a < 256
    ensures (a as bv8) as nat == a
  {
    assert a % 256 == a;
  }

  lemma {:induction false} Widened(x: bv8, y: bv8)
    ensures x as Code == y as Code <==> x == y
  {
  }

  lemma {:induction false} ByteCodeExact(a: nat, b: nat)
    requires a < 256 && b < 256
    ensures ByteCode(a) == ByteCode(b) <==> a == b
  {
    ByteKept(a);
    ByteKept(b);
    Widened(a as bv8, b as bv8);
  }

  /** Two strings that may differ at one place have the same code if and only if the byte there is the same. */
  lemma {:induction false} StringsTold(k: Hashing, s: string, t: string, i: nat)
    requires IsFnv(k) && i < |s| == |t| && forall j | 0 <= j < |s| && j != i :: s[j] == t[j]
    ensures StringCode(k, s) == StringCode(k, t) <==> s[i] as int % 256 == t[i] as int % 256
  {
    hide Fnv, ByteCode, Chain, StringCode;
    ByteCodeExact(s[i] as int % 256, t[i] as int % 256);
    StringCodeIs(k, s);
    StringCodeIs(k, t);
    ChainOneExact(Chain(OFFSET, [5]), CharCodes(s), CharCodes(t), i);
  }

  /** Two integers that are the same double, and whose words may differ in one byte, likewise. */
  lemma {:induction false} NumbersTold(k: Hashing, m: int, n: int, i: nat)
    requires IsFnv(k) && k.bytesOfInt(m) == k.bytesOfInt(n)
    requires i < 8 && forall j | 0 <= j < 8 && j != i :: ByteOf(Bits(m), j) == ByteOf(Bits(n), j)
    ensures NumberCode(k, m) == NumberCode(k, n) <==> ByteOf(Bits(m), i) == ByteOf(Bits(n), i)
  {
    hide Fnv, ByteCode, Chain, NumberCode, ByteOf, Bits;
    ByteBelow(Bits(m), i);
    ByteBelow(Bits(n), i);
    ByteCodeExact(ByteOf(Bits(m), i), ByteOf(Bits(n), i));
    NumberCodeIs(k, m);
    NumberCodeIs(k, n);
    var b := k.bytesOfInt(m);
    ChainOneExact(Chain(OFFSET, [6]), WordCodes(Bits(m), 8) + b, WordCodes(Bits(n), 8) + b, i);
  }

  /** Two arrays that may differ in one element have the same code if and only if these two elements have. */
  lemma {:induction false} ElementsTold(k: Hashing, es: seq<Value>, fs: seq<Value>, i: nat)
    requires IsFnv(k) && ProperElements(es) && ProperElements(fs) && i < |es| == |fs|
    requires forall j | 0 <= j < |es| && j != i :: es[j] == fs[j]
    ensures Proper(es[i]) && Proper(fs[i])
    ensures HashCode(k, ArrayValue(es)) == HashCode(k, ArrayValue(fs)) <==> HashCode(k, es[i]) == HashCode(k, fs[i])
  {
    hide Fnv, Chain, HashCode;
    forall j | 0 <= j < |es| && j != i ensures ElementCodes(k, es)[j] == ElementCodes(k, fs)[j] {
      ElementCodesAt(k, es, j);
      ElementCodesAt(k, fs, j);
    }
    ElementCodesAt(k, es, i);
    ElementCodesAt(k, fs, i);
    ContainerCodeIs(k, ArrayValue(es));
    ContainerCodeIs(k, ArrayValue(fs));
    ChainOneExact(Fnv(0, 4), ElementCodes(k, es), ElementCodes(k, fs), i);
  }

  /** Two objects that may differ in one member have the same code if and only if these members contribute the same. */
  lemma {:induction false} ContributionsTold(k: Hashing, ms: seq<Member>, ns: seq<Member>, i: nat)
    requires IsFnv(k) && ProperMembers(ms) && ProperMembers(ns) && i < |ms| == |ns|
    requires forall j | 0 <= j < |ms| && j != i :: ms[j] == ns[j]
    ensures ProperMember(ms[i]) && ProperMember(ns[i])
    ensures HashCode(k, ObjectValue(ms)) == HashCode(k, ObjectValue(ns)) <==> Mixed(k, ms[i]) == Mixed(k, ns[i])
  {
    hide Fnv, XorAll, HashCode, Mixed;
    forall j | 0 <= j < |ms| && j != i ensures Contributions(k, ms)[j] == Contributions(k, ns)[j] {
      ContributionsAt(k, ms, j);
      ContributionsAt(k, ns, j);
    }
    ContributionsAt(k, ms, i);
    ContributionsAt(k, ns, i);
    ContainerCodeIs(k, ObjectValue(ms));
    ContainerCodeIs(k, ObjectValue(ns));
    XorOneExact(Fnv(0, 3), Contributions(k, ms), Contributions(k, ns), i);
  }

  /** A name or a value alone that changes what a member contributes. */
  lemma {:induction false} MemberTold(k: Hashing, m: Member, n: Member)
    requires IsFnv(k) && ProperMember(m) && ProperMember(n)
    ensures m.name == n.name ==> (Mixed(k, m) == Mixed(k, n) <==> HashCode(k, m.value) == HashCode(k, n.value))
    ensures m.value == n.value ==> (Mixed(k, m) == Mixed(k, n) <==> StringCode(k, m.name.s) == StringCode(k, n.name.s))
  {
    hide Fnv, HashCode, StringCode;
    FnvExact(StringCode(k, m.name.s), HashCode(k, m.value), HashCode(k, n.value));
    FnvExact(HashCode(k, m.value), StringCode(k, m.name.s), StringCode(k, n.name.s));
  }

  predicate StringsApart(s: string, t: string) {
    |s| == |t| && exists i | 0 <= i < |s| ::
      s[i] as int % 256 != t[i] as int % 256 && forall j | 0 <= j < |s| && j != i :: s[j] == t[j]
  }

  predicate NumbersApart(k: Hashing, m: int, n: int) {
    && k.bytesOfInt(m) == k.bytesOfInt(n)
    && exists i | 0 <= i < 8 :: ByteOf(Bits(m), i) != ByteOf(Bits(n), i)
                                && forall j | 0 <= j < 8 && j != i :: ByteOf(Bits(m), j) == ByteOf(Bits(n), j)
  }

  predicate IsWord(v: Value) {
    v.NullValue? || v.BoolValue?
  }

  /** Values that differ in a single byte of a string, name or number, or in a single literal, at any depth. */
  predicate OneApart(k: Hashing, v: Value, w: Value)
    decreases v
  {
    match v
    case StringValue(s) => w.StringValue? && StringsApart(s, w.s)
    case NumberValue(bits, _) =>
      bits < TWO64 && w.NumberValue? && w.bits < TWO64 && NumbersApart(k, Integer(v), Integer(w))
    case DoubleValue(_) => false
    case ArrayValue(es) =>
      w.ArrayValue? && |es| == |w.elements|
      && exists i | 0 <= i < |es| ::
           OneApart(k, es[i], w.elements[i]) && forall j | 0 <= j < |es| && j != i :: es[j] == w.elements[j]
    case ObjectValue(ms) =>
      w.ObjectValue? && |ms| == |w.members|
      && exists i | 0 <= i < |ms| ::
           MembersApart(k, ms[i], w.members[i]) && forall j | 0 <= j < |ms| && j != i :: ms[j] == w.members[j]
    case _ => IsWord(w) && v != w
  }

  /** Another name with the same value, or another value under the same name. */
  predicate MembersApart(k: Hashing, m: Member, n: Member)
    decreases m
  {
    || (m.name == n.name && OneApart(k, m.value, n.value))
    || (m.value == n.value && m.name.StringValue? && n.name.StringValue? && StringsApart(m.name.s, n.name.s))
  }

  lemma {:induction false} ApartStringsTold(k: Hashing, s: string, t: string)
    requires IsFnv(k) && StringsApart(s, t)
    ensures StringCode(k, s) != StringCode(k, t)
  {
    hide StringCode;
    var i :| 0 <= i < |s| && s[i] as int % 256 != t[i] as int % 256 && forall j | 0 <= j < |s| && j != i :: s[j] == t[j];
    StringsTold(k, s, t, i);
  }

  lemma {:induction false} ApartNumbersTold(k: Hashing, m: int, n: int)
    requires IsFnv(k) && NumbersApart(k, m, n)
    ensures NumberCode(k, m) != NumberCode(k, n)
  {
    hide NumberCode, ByteOf, Bits;
    var i :| 0 <= i < 8 && ByteOf(Bits(m), i) != ByteOf(Bits(n), i)
             && forall j | 0 <= j < 8 && j != i :: ByteOf(Bits(m), j) == ByteOf(Bits(n), j);
    NumbersTold(k, m, n, i);
  }

  lemma {:induction false} WordsTold(k: Hashing, v: Value, w: Value)
    requires IsFnv(k) && IsWord(v) && IsWord(w) && v != w
    ensures HashCode(k, v) != HashCode(k, w)
  {
    hide Fnv;
    FnvExact(OFFSET, 0, 1);
    FnvExact(OFFSET, 0, 2);
    FnvExact(OFFSET, 1, 2);
  }

  lemma {:induction false} ScalarsTold(k: Hashing, v: Value, w: Value)
    requires IsFnv(k) && Proper(v) && Proper(w) && OneApart(k, v, w) && !v.ArrayValue? && !v.ObjectValue?
    ensures HashCode(k, v) != HashCode(k, w)
  {
    hide Fnv, NumbersApart, StringsApart, StringCode, NumberCode;
    match v
    case StringValue(s) => ApartStringsTold(k, s, w.s);
    case NumberValue(_, _) => ApartNumbersTold(k, Integer(v), Integer(w));
    case _ => WordsTold(k, v, w);
  }

  /** Values that differ in a single place have different codes. */
  lemma {:induction false} OneApartTold(k: Hashing, v: Value, w: Value)
    requires IsFnv(k) && Proper(v) && Proper(w) && OneApart(k, v, w)
    ensures HashCode(k, v) != HashCode(k, w)
    decreases v
  {
    hide Fnv, HashCode, Mixed, NumbersApart, StringsApart;
    match v
    case ArrayValue(es) =>
      var fs := w.elements;
      var i :| 0 <= i < |es| && OneApart(k, es[i], fs[i]) && forall j | 0 <= j < |es| && j != i :: es[j] == fs[j];
      ElementsTold(k, es, fs, i);
      OneApartTold(k, es[i], fs[i]);
    case ObjectValue(ms) =>
      var ns := w.members;
      var i :| 0 <= i < |ms| && MembersApart(k, ms[i], ns[i]) && forall j | 0 <= j < |ms| && j != i :: ms[j] == ns[j];
      ContributionsTold(k, ms, ns, i);
      ApartMembersTold(k, ms[i], ns[i]);
    case _ => ScalarsTold(k, v, w);
  }

  lemma {:induction false} ApartMembersTold(k: Hashing, m: Member, n: Member)
    requires IsFnv(k) && ProperMember(m) && ProperMember(n) && MembersApart(k, m, n)
    ensures Mixed(k, m) != Mixed(k, n)
    decreases m
  {
    hide Fnv, HashCode, StringCode, StringsApart;
    MemberTold(k, m, n);
    if m.name == n.name && OneApart(k, m.value, n.value) {
      OneApartTold(k, m.value, n.value);
    } else {
      ApartStringsTold(k, m.name.s, n.name.s);
    }
  }

  // ---- the order of elements ----

  lemma {:induction false} ChainThen(h: Code, a: seq<Code>, b: seq<Code>)
    ensures Chain(h, a + b) == Chain(Chain(h, a), b)
    decreases |b|
  {
    hide Fnv;
    if b == [] {
      assert a + b == a;
    } else {
      var n := |b| - 1;
      assert (a + b)[..|a| + n] == a + b[..n];
      ChainThen(h, a, b[..n]);
    }
  }

  lemma {:induction false} ElementCodesThen(k: Hashing, es: seq<Value>, fs: seq<Value>)
    requires ProperElements(es) && ProperElements(fs)
    ensures ProperElements(es + fs) && ElementCodes(k, es + fs) == ElementCodes(k, es) + ElementCodes(k, fs)
  {
    hide HashCode;
    if es == [] {
      assert es + fs == fs;
    } else {
      assert (es + fs)[1..] == es[1..] + fs;
      ElementCodesThen(k, es[1..], fs);
    }
  }

  /**
   The order of elements counts: exchanging a part of an array for another arrangement of it keeps the code if and only
   if mixing the two arrangements, from where the part begins, gives the same code.
   */
  lemma {:induction false} OrderTold(k: Hashing, front: seq<Value>, es: seq<Value>, fs: seq<Value>, back: seq<Value>)
    requires IsFnv(k) && ProperElements(front) && ProperElements(es) && ProperElements(fs) && ProperElements(back)
    ensures ProperElements(front + es + back) && ProperElements(front + fs + back)
    ensures var g := Chain(Fnv(0, 4), ElementCodes(k, front));
            HashCode(k, ArrayValue(front + es + back)) == HashCode(k, ArrayValue(front + fs + back))
            <==> Chain(g, ElementCodes(k, es)) == Chain(g, ElementCodes(k, fs))
  {
    hide Fnv, HashCode, Chain;
    PartMixed(k, front, es, back);
    PartMixed(k, front, fs, back);
    var g := Chain(Fnv(0, 4), ElementCodes(k, front));
    ChainExact(Chain(g, ElementCodes(k, es)), Chain(g, ElementCodes(k, fs)), ElementCodes(k, back));
  }

  lemma {:induction false} PartMixed(k: Hashing, front: seq<Value>, es: seq<Value>, back: seq<Value>)
    requires IsFnv(k) && ProperElements(front) && ProperElements(es) && ProperElements(back)
    ensures ProperElements(front + es + back)
    ensures var g := Chain(Fnv(0, 4), ElementCodes(k, front));
            HashCode(k, ArrayValue(front + es + back)) == Chain(Chain(g, ElementCodes(k, es)), ElementCodes(k, back))
  {
    hide Fnv, HashCode, Chain;
    ElementCodesThen(k, front, es);
    ElementCodesThen(k, front + es, back);
    ContainerCodeIs(k, ArrayValue(front + es + back));
    ChainThen(Fnv(0, 4), ElementCodes(k, front), ElementCodes(k, es));
    ChainThen(Fnv(0, 4), ElementCodes(k, front) + ElementCodes(k, es), ElementCodes(k, back));
  }

  /** Two neighbours exchanged: the code is kept if and only if the exclusive or of their codes is that of the two mixed. */
  lemma {:induction false} NeighboursTold(k: Hashing, front: seq<Value>, v: Value, w: Value, back: seq<Value>)
    requires IsFnv(k) && ProperElements(front) && Proper(v) && Proper(w) && ProperElements(back)
    ensures ProperElements(front + [v, w] + back) && ProperElements(front + [w, v] + back)
    ensures var g, x, y := Chain(Fnv(0, 4), ElementCodes(k, front)), HashCode(k, v), HashCode(k, w);
            HashCode(k, ArrayValue(front + [v, w] + back)) == HashCode(k, ArrayValue(front + [w, v] + back))
            <==> Xor(x, y) == Xor(Fnv(g, x), Fnv(g, y))
  {
    hide Fnv, Xor, HashCode, Chain;
    TwoCodes(k, v, w);
    TwoCodes(k, w, v);
    OrderTold(k, front, [v, w], [w, v], back);
    var g, x, y := Chain(Fnv(0, 4), ElementCodes(k, front)), HashCode(k, v), HashCode(k, w);
    ChainTwo(g, x, y);
    ChainTwo(g, y, x);
    MixedTwice(Fnv(g, x), Fnv(g, y), x, y);
  }

  lemma {:induction false} TwoCodes(k: Hashing, v: Value, w: Value)
    requires Proper(v) && Proper(w)
    ensures ProperElements([v, w]) && ElementCodes(k, [v, w]) == [HashCode(k, v), HashCode(k, w)]
  {
    hide HashCode;
    OneCode(k, w);
    var es := [v, w];
    assert es != [] && es[1..] == [w];
    assert ElementCodes(k, es) == [HashCode(k, v)] + ElementCodes(k, [w]);
  }

  lemma {:induction false} OneCode(k: Hashing, v: Value)
    requires Proper(v)
    ensures ProperElements([v]) && ElementCodes(k, [v]) == [HashCode(k, v)]
  {
    hide HashCode;
    var es := [v];
    assert es != [] && es[1..] == [];
    assert ElementCodes(k, es) == [HashCode(k, v)] + ElementCodes(k, []);
  }

  lemma {:induction false} ChainTwo(g: Code, x: Code, y: Code)
    ensures Chain(g, [x, y]) == Fnv(Fnv(g, x), y)
  {
    hide Fnv;
    ChainOne(g, x);
    assert [x, y][..1] == [x];
  }

  lemma {:induction false} MixedTwice(a: Code, b: Code, x: Code, y: Code)
    ensures Fnv(a, y) == Fnv(b, x) <==> Xor(x, y) == Xor(a, b)
  {
    hide Scaled, Unscaled;
    XorMoved(a, b, x, y);
    ScaledUndone(a ^ y);
    ScaledUndone(b ^ x);
  }

  lemma {:induction false} XorMoved(a: Code, b: Code, x: Code, y: Code)
    ensures Xor(a, y) == Xor(b, x) <==> Xor(x, y) == Xor(a, b)
  {
    hide Xor;
    XorTells(Xor(b, y), Xor(a, y), Xor(b, x));
    XorCancels(a, b, y);
    XorCancels(x, y, b);
    XorTurns(b, y);
    XorTurns(b, x);
  }

  lemma {:induction false} XorCancelsHere(a: Code, b: Code, c: Code)
    ensures Xor(b ^ c, a ^ c) == a ^ b
  {
  }

  lemma {:induction false} XorCancels(a: Code, b: Code, c: Code)
    ensures Xor(Xor(b, c), Xor(a, c)) == Xor(a, b)
  {
    hide Xor;
    XorIs(a, b);
    XorIs(b, c);
    XorIs(a, c);
    XorCancelsHere(a, b, c);
  }

  lemma {:induction false} XorTurns(a: Code, b: Code)
    ensures Xor(a, b) == Xor(b, a)
  {
  }

  /** For example `[null,true]` and `[true,null]` have different codes. */
  lemma {:induction false} OrderExample(k: Hashing)
    requires IsFnv(k)
    ensures var v, w := ArrayValue([NullValue, BoolValue(true)]), ArrayValue([BoolValue(true), NullValue]);
            Proper(v) && Proper(w) && HashCode(k, v) != HashCode(k, w)
  {
    hide Fnv, Xor, HashCode, Chain, ElementCodes;
    var es, fs := [NullValue, BoolValue(true)], [BoolValue(true), NullValue];
    NeighboursTold(k, [], NullValue, BoolValue(true), []);
    assert es == [] + es + [] && fs == [] + fs + [];
    assert ElementCodes(k, []) == [] && Chain(Fnv(0, 4), []) == Fnv(0, 4) by { NothingMixed(k, Fnv(0, 4)); }
    ScalarCodeIs(k, NullValue);
    ScalarCodeIs(k, BoolValue(true));
    ChainOne(OFFSET, 0);
    ChainOne(OFFSET, 2);
    ExampleMixing();
  }

  lemma {:induction false} NothingMixed(k: Hashing, g: Code)
    ensures ElementCodes(k, []) == [] && Chain(g, []) == g
  {
  }

  lemma {:induction false} ExampleMixing()
    ensures var g, x, y := Fnv(0, 4), Fnv(OFFSET, 0), Fnv(OFFSET, 2);
            Xor(x, y) != Xor(Fnv(g, x), Fnv(g, y))
  {
  }
}
