/**
 Document values, the events they emit and the stack that builds them from events.
 */
module JsonDom {
  import opened JsonScan

  datatype Flag = IntFlag | UintFlag | Int64Flag | Uint64Flag

  /** A number keeps the 64 bits of its word and the types it can be read as. */
  datatype Value =
    | NullValue
    | BoolValue(b: bool)
    | NumberValue(bits: nat, flags: set<Flag>)
    | DoubleValue(fp: int)
    | StringValue(s: string)
    | ArrayValue(elements: seq<Value>)
    | ObjectValue(members: seq<Member>)

  datatype Member = Member(name: Value, value: Value)

  // ---- numbers ----

  const TWO31 := 0x8000_0000
  const TWO32 := 0x1_0000_0000
  const TWO63 := 0x8000_0000_0000_0000
  const TWO64 := 0x1_0000_0000_0000_0000

  /** The bits of a 64-bit integer in two's complement. */
  function Bits(n: int): nat {
    n % TWO64
  }

  function FromInt(i: int): Value {
    NumberValue(Bits(i), if i >= 0 then {IntFlag, Int64Flag, UintFlag, Uint64Flag} else {IntFlag, Int64Flag})
  }

  function FromUint(u: int): Value {
    NumberValue(Bits(u), if u / TWO31 % 2 == 1 then {UintFlag, Uint64Flag, Int64Flag} else {UintFlag, Uint64Flag, Int64Flag, IntFlag})
  }

  function FromInt64(i: int): Value {
    NumberValue(Bits(i),
      {Int64Flag} +
      (if i >= 0 then
         {Uint64Flag} + (if i / TWO32 == 0 then {UintFlag} else {}) + (if i / TWO31 == 0 then {IntFlag} else {})
       else if i >= 0 - TWO31 then {IntFlag} else {}))
  }

  function FromUint64(u: int): Value {
    NumberValue(Bits(u),
      {Uint64Flag} + (if u / TWO63 == 0 then {Int64Flag} else {}) +
      (if u / TWO32 == 0 then {UintFlag} else {}) + (if u / TWO31 == 0 then {IntFlag} else {}))
  }

  /** The number `n`, with every type it fits. */
  function Number(n: int): Value {
    NumberValue(Bits(n),
      (if 0 - TWO31 <= n < TWO31 then {IntFlag} else {}) + (if 0 <= n < TWO32 then {UintFlag} else {}) +
      (if n < TWO63 then {Int64Flag} else {}) + (if 0 <= n then {Uint64Flag} else {}))
  }

  /** Whichever constructor makes it, the same number is the same value. */
  lemma {:induction false} OneNumber(n: int)
    requires 0 - TWO63 <= n < TWO64
    ensures 0 - TWO31 <= n < TWO31 ==> FromInt(n) == Number(n)
    ensures 0 <= n < TWO32 ==> FromUint(n) == Number(n)
    ensures n < TWO63 ==> FromInt64(n) == Number(n)
    ensures 0 <= n ==> FromUint64(n) == Number(n)
  {
    if 0 <= n < TWO32 { assert n / TWO31 % 2 == 1 <==> n >= TWO31; }
  }

  lemma {:induction false} NumbersDiffer(m: int, n: int)
    requires 0 - TWO63 <= m < TWO64 && 0 - TWO63 <= n < TWO64 && m != n
    ensures Number(m) != Number(n)
    ensures Number(m).bits == Number(n).bits <==> (m == n + TWO64 || n == m + TWO64)
  {
    if m == n + TWO64 {
      assert Int64Flag in Number(n).flags && Int64Flag !in Number(m).flags;
    }
    if n == m + TWO64 {
      assert Int64Flag in Number(m).flags && Int64Flag !in Number(n).flags;
    }
  }

  function Signed32(w: nat): int
    requires w < TWO32
  {
    if w >= TWO31 then w - TWO32 else w
  }

  function Signed64(w: nat): int
    requires w < TWO64
  {
    if w >= TWO63 then w - TWO64 else w
  }

  /** The event a number emits: of the narrowest type its flags allow. */
  function NumberEvent(v: Value): Event
    requires v.NumberValue? && v.bits < TWO64
  {
    if IntFlag in v.flags then Int(Signed32(v.bits % TWO32))
    else if UintFlag in v.flags then Uint(v.bits % TWO32)
    else if Int64Flag in v.flags then Int64(Signed64(v.bits))
    else Uint64(v.bits)
  }

  lemma {:induction false} NumberEventIs(n: int)
    requires 0 - TWO63 <= n < TWO64
    ensures NumberEvent(Number(n)) == if 0 - TWO31 <= n < TWO31 then Int(n) else if 0 <= n < TWO32 then Uint(n)
                                      else if n < TWO63 then Int64(n) else Uint64(n)
  {
    if 0 - TWO31 <= n < 0 {
      assert Bits(n) == n + TWO64;
      assert n + TWO64 == TWO32 * (TWO32 - 1) + (n + TWO32);
      assert (n + TWO64) % TWO32 == n + TWO32;
    }
  }

  /** The integer that a number value stands for. */
  function Integer(v: Value): int
    requires v.NumberValue? && v.bits < TWO64
  {
    if Int64Flag in v.flags then Signed64(v.bits) else v.bits
  }

  /** Built by the constructors: numbers have the flags of their value, and names are strings. */
  predicate Proper(v: Value) {
    match v
    case NumberValue(bits, flags) => bits < TWO64 && v == Number(Integer(v))
    case ArrayValue(es) => ProperElements(es)
    case ObjectValue(ms) => ProperMembers(ms)
    case _ => true
  }

  predicate ProperElements(es: seq<Value>) {
    es == [] || (Proper(es[0]) && ProperElements(es[1..]))
  }

  predicate ProperMembers(ms: seq<Member>) {
    ms == [] || (ProperMember(ms[0]) && ProperMembers(ms[1..]))
  }

  predicate ProperMember(member: Member) {
    member.name.StringValue? && Proper(member.value)
  }

  lemma {:induction false} IntegerIs(n: int)
    requires 0 - TWO63 <= n < TWO64
    ensures Number(n).bits < TWO64 && Integer(Number(n)) == n && Proper(Number(n))
  {
  }

  // ---- events ----

  /** A value tells its own types; a reader reports the narrowest of its own. */
  datatype Mode = Accepting | Reading

  function EventOf(v: Value, m: Mode): Event
    requires v.NumberValue? && v.bits < TWO64
  {
    if m.Accepting? then NumberEvent(v)
    else
      var n := Integer(v);
      if n < 0 - TWO31 then Int64(n) else if n <= 0 then (if n < 0 then Int(n) else Uint(0))
      else if n < TWO32 then Uint(n) else Uint64(n)
  }

  function Events(v: Value, m: Mode): seq<Event>
    requires Proper(v)
  {
    match v
    case NullValue => [NullEvent]
    case BoolValue(b) => [Bool(b)]
    case NumberValue(_, _) => [EventOf(v, m)]
    case DoubleValue(fp) => [Double(fp)]
    case StringValue(s) => [String(s)]
    case ArrayValue(es) => [StartArray] + ElementEvents(es, m) + [EndArray(|es|)]
    case ObjectValue(ms) => [StartObject] + MemberEvents(ms, m) + [EndObject(|ms|)]
  }

  function ElementEvents(es: seq<Value>, m: Mode): seq<Event>
    requires ProperElements(es)
  {
    if es == [] then [] else Events(es[0], m) + ElementEvents(es[1..], m)
  }

  function MemberEvents(ms: seq<Member>, m: Mode): seq<Event>
    requires ProperMembers(ms)
  {
    if ms == [] then [] else MemberEvent(ms[0], m) + MemberEvents(ms[1..], m)
  }

  function MemberEvent(member: Member, m: Mode): seq<Event>
    requires ProperMember(member)
  {
    [Key(member.name.s)] + Events(member.value, m)
  }

  // ---- the builder ----

  /** The values on the stack, unless more were taken than there are. */
  datatype Built = Stack(values: seq<Value>) | Underflow

  /** Names and values alternate on the stack. */
  function Pairs(s: seq<Value>): (ms: seq<Member>)
    requires |s| % 2 == 0
  {
    if s == [] then [] else [Member(s[0], s[1])] + Pairs(s[2..])
  }

  /** The scalar that an event pushes. */
  function Scalar(ev: Event): Value {
    match ev
    case NullEvent => NullValue
    case Bool(b) => BoolValue(b)
    case Int(n) => FromInt(n)
    case Uint(n) => FromUint(n)
    case Int64(n) => FromInt64(n)
    case Uint64(n) => FromUint64(n)
    case Double(fp) => DoubleValue(fp)
    case String(s) => StringValue(s)
    case Key(s) => StringValue(s)
    case StartObject => ObjectValue([])
    case StartArray => ArrayValue([])
    case _ => NullValue
  }

  function Handle(stack: seq<Value>, ev: Event): Built {
    match ev
    case EndObject(count) =>
      var k := |stack| - 2 * count;
      if k < 1 then Underflow else Stack(stack[..k - 1] + [ObjectValue(Pairs(stack[k..]))])
    case EndArray(count) =>
      var k := |stack| - count;
      if k < 1 then Underflow else Stack(stack[..k - 1] + [ArrayValue(stack[k..])])
    case _ => Stack(stack + [Scalar(ev)])
  }

  function Build(stack: seq<Value>, events: seq<Event>): Built
    decreases |events|
  {
    if events == [] then Stack(stack)
    else
      match Handle(stack, events[0])
      case Underflow => Underflow
      case Stack(values) => Build(values, events[1..])
  }

  lemma {:induction false} BuildFirst(stack: seq<Value>, ev: Event, more: seq<Event>)
    ensures Build(stack, [ev] + more) == match Handle(stack, ev) case Underflow => Underflow case Stack(values) => Build(values, more)
  {
    assert ([ev] + more)[1..] == more;
  }

  lemma {:induction false} BuildPush(stack: seq<Value>, ev: Event, more: seq<Event>)
    requires !ev.EndArray? && !ev.EndObject?
    ensures Build(stack, [ev] + more) == Build(stack + [Scalar(ev)], more)
  {
    BuildFirst(stack, ev, more);
  }

  function Flat(ms: seq<Member>): (s: seq<Value>)
    ensures |s| == 2 * |ms|
  {
    if ms == [] then [] else [ms[0].name, ms[0].value] + Flat(ms[1..])
  }

  lemma {:induction false} PairsFlat(ms: seq<Member>)
    ensures Pairs(Flat(ms)) == ms
  {
    if ms != [] {
      PairsFlat(ms[1..]);
      assert Flat(ms)[2..] == Flat(ms[1..]);
    }
  }

  // ---- what a run of events makes ----

  /** Whatever is on the stack and whatever comes later, the events push these values. */
  ghost predicate Makes(events: seq<Event>, values: seq<Value>) {
    forall stack, more :: Build(stack, events + more) == Build(stack + values, more)
  }

  lemma {:induction false} MakesScalar(ev: Event)
    requires !ev.EndArray? && !ev.EndObject?
    ensures Makes([ev], [Scalar(ev)])
  {
    forall stack: seq<Value>, more: seq<Event> ensures Build(stack, [ev] + more) == Build(stack + [Scalar(ev)], more) {
      BuildPush(stack, ev, more);
    }
  }

  lemma {:induction false} MakesNothing()
    ensures Makes([], [])
  {
    forall stack: seq<Value>, more: seq<Event> ensures Build(stack, [] + more) == Build(stack + [], more) {
      assert [] + more == more && stack + [] == stack;
    }
  }

  lemma {:induction false} MakesThen(a: seq<Event>, x: seq<Value>, b: seq<Event>, y: seq<Value>)
    requires Makes(a, x) && Makes(b, y)
    ensures Makes(a + b, x + y)
  {
    forall stack: seq<Value>, more: seq<Event> ensures Build(stack, (a + b) + more) == Build(stack + (x + y), more) {
      assert (a + b) + more == a + (b + more) && stack + (x + y) == (stack + x) + y;
    }
  }

  lemma {:induction false} Popped(stack: seq<Value>, top: Value, values: seq<Value>)
    ensures var s := stack + ([top] + values); s[..|stack|] == stack && s[|stack| + 1..] == values
  {
  }

  /** The end of an array takes its elements and the value pushed at its start. */
  lemma {:induction false} MakesArray(events: seq<Event>, es: seq<Value>)
    requires Makes(events, es)
    ensures Makes([StartArray] + events + [EndArray(|es|)], [ArrayValue(es)])
  {
    MakesScalar(StartArray);
    MakesThen([StartArray], [ArrayValue([])], events, es);
    forall stack: seq<Value>, more: seq<Event>
      ensures Build(stack, ([StartArray] + events + [EndArray(|es|)]) + more) == Build(stack + [ArrayValue(es)], more)
    {
      BuildEnd(stack, ArrayValue([]), es, [StartArray] + events, EndArray(|es|), more);
      Popped(stack, ArrayValue([]), es);
    }
  }

  lemma {:induction false} BuildEnd(stack: seq<Value>, top: Value, values: seq<Value>, events: seq<Event>, end: Event, more: seq<Event>)
    requires Makes(events, [top] + values)
    ensures Build(stack, (events + [end]) + more) ==
            match Handle(stack + ([top] + values), end) case Underflow => Underflow case Stack(s) => Build(s, more)
  {
    assert (events + [end]) + more == events + ([end] + more);
    BuildFirst(stack + ([top] + values), end, more);
  }

  lemma {:induction false} MakesObject(events: seq<Event>, ms: seq<Member>)
    requires Makes(events, Flat(ms))
    ensures Makes([StartObject] + events + [EndObject(|ms|)], [ObjectValue(ms)])
  {
    var values, begun := Flat(ms), [StartObject] + events;
    MakesScalar(StartObject);
    MakesThen([StartObject], [ObjectValue([])], events, values);
    MakesClosed(begun, ms);
  }

  lemma {:induction false} MakesClosed(events: seq<Event>, ms: seq<Member>)
    requires Makes(events, [ObjectValue([])] + Flat(ms))
    ensures Makes(events + [EndObject(|ms|)], [ObjectValue(ms)])
  {
    forall stack: seq<Value>, more: seq<Event>
      ensures Build(stack, (events + [EndObject(|ms|)]) + more) == Build(stack + [ObjectValue(ms)], more)
    {
      BuildObject(stack, events, ms, more);
    }
  }

  lemma {:induction false} BuildObject(stack: seq<Value>, events: seq<Event>, ms: seq<Member>, more: seq<Event>)
    requires Makes(events, [ObjectValue([])] + Flat(ms))
    ensures Build(stack, (events + [EndObject(|ms|)]) + more) == Build(stack + [ObjectValue(ms)], more)
  {
    EndObjectHandles(stack, ms);
    BuildEnd(stack, ObjectValue([]), Flat(ms), events, EndObject(|ms|), more);
  }

  lemma {:induction false} EndObjectHandles(stack: seq<Value>, ms: seq<Member>)
    ensures Handle(stack + ([ObjectValue([])] + Flat(ms)), EndObject(|ms|)) == Stack(stack + [ObjectValue(ms)])
  {
    var s := stack + ([ObjectValue([])] + Flat(ms));
    PairsFlat(ms);
    Popped(stack, ObjectValue([]), Flat(ms));
    assert |s| - 2 * |ms| == |stack| + 1;
  }

  // ---- the events of a value make that value ----

  lemma {:induction false} NumberMakes(v: Value, m: Mode)
    requires Proper(v) && v.NumberValue?
    ensures var ev := EventOf(v, m); !ev.EndArray? && !ev.EndObject? && Scalar(ev) == v
  {
    NumberEventIs(Integer(v));
    OneNumber(Integer(v));
  }

  lemma {:induction false} ScalarMakes(v: Value, m: Mode)
    requires Proper(v) && !v.ArrayValue? && !v.ObjectValue?
    ensures Makes(Events(v, m), [v])
  {
    if v.NumberValue? { NumberMakes(v, m); }
    MakesScalar(Events(v, m)[0]);
  }

  lemma {:induction false} ValueMakes(v: Value, m: Mode)
    requires Proper(v)
    ensures Makes(Events(v, m), [v])
    decreases v
  {
    match v
    case ArrayValue(es) =>
      ElementsMake(es, m);
      MakesArray(ElementEvents(es, m), es);
    case ObjectValue(ms) =>
      MembersMake(ms, m);
      MakesObject(MemberEvents(ms, m), ms);
    case _ =>
      ScalarMakes(v, m);
  }

  lemma {:induction false} ElementsMake(es: seq<Value>, m: Mode)
    requires ProperElements(es)
    ensures Makes(ElementEvents(es, m), es)
    decreases es
  {
    if es == [] {
      MakesNothing();
    } else {
      ValueMakes(es[0], m);
      ElementsMake(es[1..], m);
      MakesThen(Events(es[0], m), [es[0]], ElementEvents(es[1..], m), es[1..]);
      assert [es[0]] + es[1..] == es;
    }
  }

  lemma {:induction false} MembersMake(ms: seq<Member>, m: Mode)
    requires ProperMembers(ms)
    ensures Makes(MemberEvents(ms, m), Flat(ms))
    decreases ms
  {
    if ms == [] {
      MakesNothing();
    } else {
      MemberMakes(ms[0], m);
      MembersMake(ms[1..], m);
      MakesThen(MemberEvent(ms[0], m), [ms[0].name, ms[0].value], MemberEvents(ms[1..], m), Flat(ms[1..]));
    }
  }

  lemma {:induction false} MemberMakes(member: Member, m: Mode)
    requires ProperMember(member)
    ensures Makes(MemberEvent(member, m), [member.name, member.value])
    decreases member
  {
    var key := Key(member.name.s);
    MakesScalar(key);
    ValueMakes(member.value, m);
    MakesThen([key], [member.name], Events(member.value, m), [member.value]);
    assert [member.name] + [member.value] == [member.name, member.value];
  }

  lemma {:induction false} MakesRoot(events: seq<Event>, v: Value)
    requires Makes(events, [v])
    ensures Build([], events) == Stack([v])
  {
    assert events + [] == events && [] + [v] == [v];
    assert Build([], events + []) == Build([] + [v], []);
  }

  /** Copying a value through its events, or building it from those a reader reports, gives the value back. */
  lemma {:induction false} EventsBuildValue(v: Value, m: Mode)
    requires Proper(v)
    ensures Build([], Events(v, m)) == Stack([v])
  {
    ValueMakes(v, m);
    MakesRoot(Events(v, m), v);
  }
}
