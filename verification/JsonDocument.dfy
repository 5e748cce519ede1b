/**
 Building a document while parsing: every parse that succeeds leaves exactly one root, and no parse takes more
 values from the stack than there are.
 */
module JsonDocument {
  import opened Text
  import opened JsonScan
  import opened JsonGrammar
  import opened JsonDom
  import JsonReader

  /** The events never take more values than there are. */
  ghost predicate NoUnderflow(events: seq<Event>) {
    forall stack :: Build(stack, events).Stack?
  }

  lemma {:induction false} MakesThenSafe(a: seq<Event>, x: seq<Value>, b: seq<Event>)
    requires Makes(a, x) && NoUnderflow(b)
    ensures NoUnderflow(a + b)
  {
    forall stack: seq<Value> ensures Build(stack, a + b).Stack? {
      assert Build(stack, a + b) == Build(stack + x, b);
    }
  }

  lemma {:induction false} EmptySafe()
    ensures NoUnderflow([])
  {
  }

  lemma {:induction false} MakesSafe(a: seq<Event>, x: seq<Value>)
    requires Makes(a, x)
    ensures NoUnderflow(a)
  {
    EmptySafe();
    MakesThenSafe(a, x, []);
    assert a + [] == a;
  }

  // ---- what each parsing function leaves on the stack ----

  /** A value: itself if parsing succeeds, and otherwise nothing illegal. */
  ghost predicate LeavesValue(r: Parsed, v: Value) {
    if r.Done? then Proper(v) && Makes(r.events, [v]) else NoUnderflow(r.events)
  }

  /** The elements of an array after the first `n`: made by all events but the last, which counts them. */
  ghost predicate LeavesElements(r: Parsed, n: nat, es: seq<Value>, inside: seq<Event>) {
    if r.Done? then ProperElements(es) && r.events == inside + [EndArray(n + |es|)] && Makes(inside, es)
    else NoUnderflow(r.events)
  }

  ghost predicate LeavesMembers(r: Parsed, n: nat, ms: seq<Member>, inside: seq<Event>) {
    if r.Done? then ProperMembers(ms) && r.events == inside + [EndObject(n + |ms|)] && Makes(inside, Flat(ms))
    else NoUnderflow(r.events)
  }

  lemma {:induction false} ScalarLeaves(cfg: Config, text: string) returns (v: Value)
    ensures match ScanScalar(cfg, text)
            case Err(_, _) => true
            case Ok(ev, _) => Proper(v) && Makes([ev], [v])
  {
    v := NullValue;
    var r := ScanScalar(cfg, text);
    if r.Ok? {
      v := Scalar(r.value);
      EventRange(cfg, text);
      ScalarProper(r.value);
      MakesScalar(r.value);
    }
  }

  /** The events of a scalar: a number fits the type it is reported with. */
  predicate InRange(ev: Event) {
    match ev
    case Int(n) => 0 - TWO31 <= n < TWO31
    case Uint(n) => 0 <= n < TWO32
    case Int64(n) => 0 - TWO63 <= n < TWO63
    case Uint64(n) => 0 <= n < TWO64
    case Key(_) => false
    case StartObject => false
    case EndObject(_) => false
    case StartArray => false
    case EndArray(_) => false
    case _ => true
  }

  lemma {:induction false} EventRange(cfg: Config, text: string)
    requires ScanScalar(cfg, text).Ok?
    ensures InRange(ScanScalar(cfg, text).value)
  {
    match Peek(text)
    case 'n' => ExpectEvent(text[1..], "ull", NullEvent);
    case 't' => ExpectEvent(text[1..], "rue", Bool(true));
    case 'f' => ExpectEvent(text[1..], "alse", Bool(false));
    case '\"' =>
    case _ => NumberRange(cfg, text);
  }

  lemma {:induction false} IntegerRange(minus: bool, v: nat)
    ensures IntegerEvent(minus, v).SomeEvent? ==> InRange(IntegerEvent(minus, v).ev)
  {
  }

  lemma {:induction false} AfterRange(cfg: Config, text: string, exact: MaybeEvent, tail: string)
    requires |tail| <= |text| && NumberAfter(cfg, text, exact, tail).Ok? && (exact.SomeEvent? ==> InRange(exact.ev))
    ensures InRange(NumberAfter(cfg, text, exact, tail).value)
  {
  }

  lemma {:induction false} NumberRange(cfg: Config, text: string)
    requires ScanNumber(cfg, text).Ok?
    ensures InRange(ScanNumber(cfg, text).value)
  {
    var minus := Peek(text) == '-';
    var unsigned := if minus then text[1..] else text;
    var digits := IntegerPart(unsigned);
    IntegerRange(minus, ValueFrom(digits, 0));
    AfterRange(cfg, text, IntegerEvent(minus, ValueFrom(digits, 0)), unsigned[|digits|..]);
  }

  lemma {:induction false} ExpectEvent(text: string, word: string, ev: Event)
    requires '\0' !in word && Expect(text, word, ev).Ok?
    ensures Expect(text, word, ev).value == ev
  {
    if word != "" { ExpectEvent(text[1..], word[1..], ev); }
  }

  lemma {:induction false} ScalarProper(ev: Event)
    requires InRange(ev)
    ensures Proper(Scalar(ev))
  {
    match ev
    case Int(n) => OneNumber(n); IntegerIs(n);
    case Uint(n) => OneNumber(n); IntegerIs(n);
    case Int64(n) => OneNumber(n); IntegerIs(n);
    case Uint64(n) => OneNumber(n); IntegerIs(n);
    case _ =>
  }

  lemma {:induction false} ValueLeaves(cfg: Config, text: string) returns (v: Value)
    ensures LeavesValue(ParseValue(cfg, text), v)
    decreases |text|, 1
  {
    if Peek(text) == '{' {
      v := ObjectLeaves(cfg, text);
    } else if Peek(text) == '[' {
      v := ArrayLeaves(cfg, text);
    } else {
      v := ScalarLeaves(cfg, text);
      EmptySafe();
    }
  }

  // An object or array is its start, what is inside, and an end that counts it.

  lemma {:induction false} ArrayCloses(r: Parsed, es: seq<Value>, inside: seq<Event>)
    requires LeavesElements(r, 0, es, inside)
    ensures LeavesValue(Prepend([StartArray], r), ArrayValue(es))
  {
    MakesScalar(StartArray);
    if r.Done? {
      MakesArray(inside, es);
      assert [StartArray] + inside + [EndArray(|es|)] == [StartArray] + r.events;
    } else {
      MakesThenSafe([StartArray], [ArrayValue([])], r.events);
    }
  }

  lemma {:induction false} ObjectCloses(r: Parsed, ms: seq<Member>, inside: seq<Event>)
    requires LeavesMembers(r, 0, ms, inside)
    ensures LeavesValue(Prepend([StartObject], r), ObjectValue(ms))
  {
    hide Build, Handle;
    MakesScalar(StartObject);
    if r.Done? {
      MakesObject(inside, ms);
      assert [StartObject] + inside + [EndObject(|ms|)] == [StartObject] + r.events;
    } else {
      MakesThenSafe([StartObject], [ObjectValue([])], r.events);
    }
  }

  lemma {:induction false} ElementsGrow(first: seq<Event>, value: Value, r: Parsed, n: nat, es: seq<Value>, inside: seq<Event>)
    requires Proper(value) && Makes(first, [value]) && LeavesElements(r, n + 1, es, inside)
    ensures LeavesElements(Prepend(first, r), n, [value] + es, first + inside)
  {
    if r.Done? {
      MakesThen(first, [value], inside, es);
      var all := [value] + es;
      assert all[1..] == es && all[0] == value && |all| == 1 + |es|;
      assert ProperElements(all);
      assert first + (inside + [EndArray(n + 1 + |es|)]) == (first + inside) + [EndArray(n + 1 + |es|)];
    } else {
      MakesThenSafe(first, [value], r.events);
    }
  }

  lemma {:induction false} MembersGrow(first: seq<Event>, member: Member, r: Parsed, n: nat, ms: seq<Member>, inside: seq<Event>)
    requires ProperMember(member) && Makes(first, [member.name, member.value]) && LeavesMembers(r, n + 1, ms, inside)
    ensures LeavesMembers(Prepend(first, r), n, [member] + ms, first + inside)
  {
    if r.Done? {
      MakesThen(first, [member.name, member.value], inside, Flat(ms));
      assert ([member] + ms)[1..] == ms && |[member] + ms| == 1 + |ms|;
      assert first + (inside + [EndObject(n + 1 + |ms|)]) == (first + inside) + [EndObject(n + 1 + |ms|)];
    } else {
      MakesThenSafe(first, [member.name, member.value], r.events);
    }
  }

  lemma {:induction false} EndLeaves(n: nat, rest: string)
    ensures LeavesElements(Done([EndArray(n)], rest), n, [], []) && LeavesMembers(Done([EndObject(n)], rest), n, [], [])
  {
    MakesNothing();
    assert [] + [EndArray(n)] == [EndArray(n)] && [] + [EndObject(n)] == [EndObject(n)];
  }

  lemma {:induction false} ObjectLeaves(cfg: Config, text: string) returns (v: Value)
    requires Peek(text) == '{'
    ensures LeavesValue(ParseValue(cfg, text), v)
    decreases |text|, 0
  {
    var ms, inside, body := [], [], SkipWs(text[1..]);
    if Peek(body) == '}' {
      EndLeaves(0, body[1..]);
    } else {
      ms, inside := MembersLeave(cfg, body, 0);
    }
    ObjectCloses(ParseObjectBody(cfg, body), ms, inside);
    v := ObjectValue(ms);
  }

  lemma {:induction false} MembersLeave(cfg: Config, text: string, n: nat) returns (ms: seq<Member>, inside: seq<Event>)
    ensures LeavesMembers(ParseMembers(cfg, text, n), n, ms, inside)
    decreases |text|, 3
  {
    var member := MemberLeaves(cfg, text);
    ms, inside := [], [];
    MembersIs(cfg, text, n);
    var first := ParseMember(cfg, text);
    if first.Done? {
      var tail := SkipWs(first.rest);
      ms, inside := AfterMemberLeaves(cfg, tail, n + 1);
      MembersGrow(first.events, member, ParseAfterMember(cfg, tail, n + 1), n, ms, inside);
      ms, inside := [member] + ms, first.events + inside;
    }
  }

  ghost predicate LeavesMember(r: Parsed, member: Member) {
    if r.Done? then ProperMember(member) && Makes(r.events, [member.name, member.value]) else NoUnderflow(r.events)
  }

  /** A name and a colon. */
  predicate HasColon(text: string) {
    Peek(text) == '\"' && ScanString(text).Ok? && Peek(SkipWs(ScanString(text).rest)) == ':'
  }

  lemma {:induction false} NoMember(cfg: Config, text: string)
    requires !HasColon(text)
    ensures ParseMember(cfg, text).Failed? && NoUnderflow(ParseMember(cfg, text).events)
  {
    EmptySafe();
    if Peek(text) == '\"' && ScanString(text).Ok? {
      var name := ScanString(text).value;
      MakesScalar(Key(name));
      MakesSafe([Key(name)], [StringValue(name)]);
    }
  }

  lemma {:induction false} MemberLeaves(cfg: Config, text: string) returns (member: Member)
    ensures LeavesMember(ParseMember(cfg, text), member)
    decreases |text|, 2
  {
    if HasColon(text) {
      var after := SkipWs(SkipWs(ScanString(text).rest)[1..]);
      var value := ValueLeaves(cfg, after);
      MemberPairs(ScanString(text).value, ParseValue(cfg, after), value);
      member := Member(StringValue(ScanString(text).value), value);
    } else {
      NoMember(cfg, text);
      member := Member(NullValue, NullValue);
    }
  }

  lemma {:induction false} MemberPairs(name: string, r: Parsed, value: Value)
    requires LeavesValue(r, value)
    ensures LeavesMember(Prepend([Key(name)], r), Member(StringValue(name), value))
  {
    MakesScalar(Key(name));
    if r.Done? {
      MakesThen([Key(name)], [StringValue(name)], r.events, [value]);
      assert [StringValue(name)] + [value] == [StringValue(name), value];
    } else {
      MakesThenSafe([Key(name)], [StringValue(name)], r.events);
    }
  }

  lemma {:induction false} AfterMemberLeaves(cfg: Config, text: string, n: nat) returns (ms: seq<Member>, inside: seq<Event>)
    ensures LeavesMembers(ParseAfterMember(cfg, text, n), n, ms, inside)
    decreases |text|, 0
  {
    var next := if Peek(text) == ',' then SkipWs(text[1..]) else text;
    EmptySafe();
    if Peek(text) == ',' && !(cfg.trailingCommas && Peek(next) == '}') {
      ms, inside := MembersLeave(cfg, next, n);
    } else {
      EndLeaves(n, if Peek(next) == '}' then next[1..] else "");
      ms, inside := [], [];
    }
  }

  lemma {:induction false} ArrayLeaves(cfg: Config, text: string) returns (v: Value)
    requires Peek(text) == '['
    ensures LeavesValue(ParseValue(cfg, text), v)
    decreases |text|, 0
  {
    var es, inside, body := [], [], SkipWs(text[1..]);
    if Peek(body) == ']' {
      EndLeaves(0, body[1..]);
    } else {
      es, inside := ElementsLeave(cfg, body, 0);
    }
    ArrayCloses(ParseArrayBody(cfg, body), es, inside);
    v := ArrayValue(es);
  }

  lemma {:induction false} ElementsLeave(cfg: Config, text: string, n: nat) returns (es: seq<Value>, inside: seq<Event>)
    ensures LeavesElements(ParseElements(cfg, text, n), n, es, inside)
    decreases |text|, 2
  {
    var value := ValueLeaves(cfg, text);
    es, inside := [], [];
    ElementsIs(cfg, text, n);
    var first := ParseValue(cfg, text);
    if first.Done? {
      var tail := SkipWs(first.rest);
      es, inside := AfterElementLeaves(cfg, tail, n + 1);
      ElementsGrow(first.events, value, ParseAfterElement(cfg, tail, n + 1), n, es, inside);
      es, inside := [value] + es, first.events + inside;
    }
  }

  lemma {:induction false} AfterElementLeaves(cfg: Config, text: string, n: nat) returns (es: seq<Value>, inside: seq<Event>)
    ensures LeavesElements(ParseAfterElement(cfg, text, n), n, es, inside)
    decreases |text|, 0
  {
    var next := if Peek(text) == ',' then SkipWs(text[1..]) else text;
    EmptySafe();
    if Peek(text) == ',' && !(cfg.trailingCommas && Peek(next) == ']') {
      es, inside := ElementsLeave(cfg, next, n);
    } else {
      EndLeaves(n, if Peek(next) == ']' then next[1..] else "");
      es, inside := [], [];
    }
  }

  /** Every accepted text builds exactly one proper value, and no text makes the builder take more than there is. */
  lemma {:induction false} ParseBuildsOneRoot(cfg: Config, text: string)
    ensures var o := Recursive(cfg, text);
            Build([], o.events).Stack? && (o.Accepted? ==> exists v :: Proper(v) && Build([], o.events) == Stack([v]))
  {
    var start := SkipWs(text);
    EmptySafe();
    if Peek(start) != '\0' {
      var v := ValueLeaves(cfg, start);
      var r := ParseValue(cfg, start);
      if r.Done? { MakesRoot(r.events, v); }
    }
  }

  lemma {:induction false} PairsStep(all: seq<Value>, members: seq<Member>, name: Value, value: Value)
    requires |all| % 2 == 0 && 2 * |members| + 2 <= |all| && all[2 * |members|] == name && all[2 * |members| + 1] == value
    requires Pairs(all) == members + Pairs(all[2 * |members|..])
    ensures var more := members + [Member(name, value)]; Pairs(all) == more + Pairs(all[2 * |more|..])
  {
    var rest := all[2 * |members|..];
    assert rest[0] == name && rest[1] == value && rest[2..] == all[2 * (|members| + 1)..];
    assert Pairs(rest) == [Member(name, value)] + Pairs(rest[2..]);
  }

  /** The document: a handler that builds values on a stack, and the root that is taken from it. */
  class Document {
    var stack: seq<Value>
    var root: Value

    constructor ()
      ensures stack == [] && root == NullValue
    {
      stack, root := [], NullValue;
    }

    method Push(v: Value)
      modifies `stack
      ensures stack == old(stack) + [v]
    {
      stack := stack + [v];
    }

    /** Takes names and values from the stack and makes them the members of the object below them. */
    method EndObject(memberCount: nat)
      requires 2 * memberCount < |stack|
      modifies `stack
      ensures Handle(old(stack), Event.EndObject(memberCount)) == Stack(stack)
    {
      var k := |stack| - 2 * memberCount;
      var members: seq<Member> := [];
      ghost var all := stack[k..];
      while |members| < memberCount
        invariant stack == old(stack) && |members| <= memberCount && |all| == 2 * memberCount
        invariant Pairs(all) == members + Pairs(all[2 * |members|..])
        decreases memberCount - |members|
      {
        var i := k + 2 * |members|;
        PairsStep(all, members, stack[i], stack[i + 1]);
        members := members + [Member(stack[i], stack[i + 1])];
      }
      assert members + Pairs([]) == members;
      assert stack[..k][..k - 1] == stack[..k - 1];
      stack := stack[..k];
      stack := stack[..k - 1] + [ObjectValue(members)];
    }

    method EndArray(elementCount: nat)
      requires elementCount < |stack|
      modifies `stack
      ensures Handle(old(stack), Event.EndArray(elementCount)) == Stack(stack)
    {
      var k := |stack| - elementCount;
      var elements := stack[k..];
      stack := stack[..k];
      stack := stack[..k - 1] + [ArrayValue(elements)];
    }

    /** Receives one event. */
    method Receive(ev: Event)
      requires Handle(stack, ev).Stack?
      modifies `stack
      ensures Handle(old(stack), ev) == Stack(stack)
    {
      match ev {
        case NullEvent => Push(NullValue);
        case Bool(b) => Push(BoolValue(b));
        case Int(n) => Push(FromInt(n));
        case Uint(n) => Push(FromUint(n));
        case Int64(n) => Push(FromInt64(n));
        case Uint64(n) => Push(FromUint64(n));
        case Double(fp) => Push(DoubleValue(fp));
        case String(s) => Push(StringValue(s));
        case Key(s) => Push(StringValue(s));
        case StartObject => Push(ObjectValue([]));
        case StartArray => Push(ArrayValue([]));
        case EndObject(count) => EndObject(count);
        case EndArray(count) => EndArray(count);
      }
    }

    method ReceiveAll(events: seq<Event>)
      requires Build(stack, events).Stack?
      modifies `stack
      ensures Build(old(stack), events) == Stack(stack)
    {
      var i := 0;
      while i < |events|
        invariant i <= |events| && Build(stack, events[i..]) == Build(old(stack), events)
      {
        assert events[i..][0] == events[i] && events[i..][1..] == events[i + 1..];
        Receive(events[i]);
        i := i + 1;
      }
    }

    /** Parses a text into the root: exactly one value is left when parsing succeeds, and the stack is cleared in any case. */
    method ParseStream(cfg: Config, text: string) returns (result: JsonReader.ParseResult)
      requires stack == []
      modifies this
      ensures result == JsonReader.NoError <==> Recursive(cfg, text).Accepted?
      ensures result == JsonReader.NoError ==> Proper(root) && Build([], Recursive(cfg, text).events) == Stack([root])
      ensures result != JsonReader.NoError ==> root == old(root)
      ensures stack == []
    {
      var reader := new JsonReader.Reader(cfg, text);
      reader.Parse();
      ParseBuildsOneRoot(cfg, text);
      ReceiveAll(reader.events);
      result := reader.result;
      if result == JsonReader.NoError {
        root := stack[0];
      }
      stack := [];
    }

    /** The document filled by a generator that sends the events of a value. */
    method Populate(v: Value)
      requires Proper(v) && stack == []
      modifies this
      ensures root == v && stack == []
    {
      EventsBuildValue(v, Accepting);
      ReceiveAll(Events(v, Accepting));
      root := stack[0];
      stack := [];
    }
  }
}
