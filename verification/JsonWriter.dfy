/**
 Printing: the compact and the pretty writer, as a machine over events with a stack of levels,
 and the text of a value that the machine is proved to write.
 */
module JsonWriter {
  import opened JsonScan
  import opened JsonDom
  import Itoa

  datatype Format = Compact | Pretty(indentChar: char, indentCount: nat, singleLineArray: bool)

  /** Indentation is white space. */
  predicate Usable(f: Format) {
    f.Pretty? ==> IsWs(f.indentChar)
  }

  // ---- strings ----

  function HexChar(d: nat): char
    requires d < 16
  {
    if d < 10 then ('0' as int + d) as char else ('A' as int + d - 10) as char
  }

  /** How a character is written inside a string. */
  function Escape(c: char): string {
    if c == '\"' then "\\\""
    else if c == '\\' then "\\\\"
    else if c as int == 8 then "\\b"
    else if c as int == 9 then "\\t"
    else if c as int == 10 then "\\n"
    else if c as int == 12 then "\\f"
    else if c as int == 13 then "\\r"
    else if c < ' ' then ['\\', 'u', '0', '0', HexChar(c as int / 16), HexChar(c as int % 16)]
    else [c]
  }

  function Escapes(s: string): string {
    if s == "" then "" else Escape(s[0]) + Escapes(s[1..])
  }

  function Quote(s: string): string {
    "\"" + Escapes(s) + "\""
  }

  // ---- levels ----

  function Repeat(c: char, n: nat): string {
    if n == 0 then "" else [c] + Repeat(c, n - 1)
  }

  function Indent(f: Format, depth: nat): string
    requires f.Pretty?
  {
    Repeat(f.indentChar, depth * f.indentCount)
  }

  /** What goes before a value at this depth, after `count` values of its level. */
  function Prefix(f: Format, depth: nat, inArray: bool, count: nat): string {
    if f.Compact? then
      if count == 0 then "" else if inArray || count % 2 == 0 then "," else ":"
    else if inArray then
      (if count > 0 then (if f.singleLineArray then ", " else ",") else "") +
      (if f.singleLineArray then "" else "\n" + Indent(f, depth))
    else
      (if count == 0 then "\n" else if count % 2 == 0 then ",\n" else ": ") +
      (if count % 2 == 0 then Indent(f, depth) else "")
  }

  /** What goes before the closing bracket that returns to this depth. */
  function Closing(f: Format, depth: nat, inArray: bool, empty: bool): string {
    if f.Compact? || empty || (inArray && f.singleLineArray) then "" else "\n" + Indent(f, depth)
  }

  // ---- the text of a value ----

  predicate DoubleFree(v: Value) {
    match v
    case DoubleValue(_) => false
    case ArrayValue(es) => DoubleFreeElements(es)
    case ObjectValue(ms) => DoubleFreeMembers(ms)
    case _ => true
  }

  predicate DoubleFreeElements(es: seq<Value>) {
    es == [] || (DoubleFree(es[0]) && DoubleFreeElements(es[1..]))
  }

  predicate DoubleFreeMembers(ms: seq<Member>) {
    ms == [] || (DoubleFreeMember(ms[0]) && DoubleFreeMembers(ms[1..]))
  }

  predicate DoubleFreeMember(member: Member) {
    DoubleFree(member.value)
  }

  function ValueText(f: Format, v: Value, depth: nat): string
    requires Proper(v)
  {
    match v
    case NullValue => "null"
    case BoolValue(b) => if b then "true" else "false"
    case NumberValue(_, _) => Itoa.Signed(Integer(v))
    case DoubleValue(_) => ""
    case StringValue(s) => Quote(s)
    case ArrayValue(es) => "[" + ElementsText(f, es, 0, depth + 1) + Closing(f, depth, true, es == []) + "]"
    case ObjectValue(ms) => "{" + MembersText(f, ms, 0, depth + 1) + Closing(f, depth, false, ms == []) + "}"
  }

  /** The elements from number `i` on. */
  function ElementsText(f: Format, es: seq<Value>, i: nat, depth: nat): string
    requires ProperElements(es)
  {
    if es == [] then "" else Prefix(f, depth, true, i) + ValueText(f, es[0], depth) + ElementsText(f, es[1..], i + 1, depth)
  }

  function MembersText(f: Format, ms: seq<Member>, i: nat, depth: nat): string
    requires ProperMembers(ms)
  {
    if ms == [] then "" else MemberText(f, ms[0], i, depth) + MembersText(f, ms[1..], i + 1, depth)
  }

  function MemberText(f: Format, member: Member, i: nat, depth: nat): string
    requires ProperMember(member)
  {
    Prefix(f, depth, false, 2 * i) + Quote(member.name.s) + Prefix(f, depth, false, 2 * i + 1) + ValueText(f, member.value, depth)
  }

  // ---- the machine ----

  /** The levels that are open, innermost first, and at the bottom whether the root has been begun. */
  datatype State = Bottom(hasRoot: bool) | Level(inArray: bool, valueCount: nat, below: State)

  const FRESH := Bottom(false)

  function Depth(st: State): nat {
    if st.Bottom? then 0 else 1 + Depth(st.below)
  }

  /** A value, or the name of a member, may come next. */
  predicate TakesValue(st: State) {
    if st.Bottom? then !st.hasRoot else st.inArray || st.valueCount % 2 == 1
  }

  predicate TakesName(st: State) {
    st.Level? && !st.inArray && st.valueCount % 2 == 0
  }

  /** Counts the value about to be written. */
  function Bump(st: State): (next: State)
    ensures Depth(next) == Depth(st)
  {
    match st
    case Bottom(_) => Bottom(true)
    case Level(inArray, n, below) => Level(inArray, n + 1, below)
  }

  function Before(f: Format, st: State): string {
    if st.Bottom? then "" else Prefix(f, Depth(st), st.inArray, st.valueCount)
  }

  function ScalarText(ev: Event): string {
    match ev
    case NullEvent => "null"
    case Bool(b) => if b then "true" else "false"
    case Int(n) => Itoa.Signed(n)
    case Uint(n) => Itoa.Signed(n)
    case Int64(n) => Itoa.Signed(n)
    case Uint64(n) => Itoa.Signed(n)
    case String(s) => Quote(s)
    case Key(s) => Quote(s)
    case _ => ""
  }

  /** The writer after an event and what it wrote, unless the event was not allowed. */
  datatype Written = Wrote(state: State, text: string) | Misuse

  function Write(f: Format, st: State, ev: Event): Written {
    match ev
    case StartObject =>
      if TakesValue(st) then Wrote(Level(false, 0, Bump(st)), Before(f, st) + "{") else Misuse
    case StartArray =>
      if TakesValue(st) then Wrote(Level(true, 0, Bump(st)), Before(f, st) + "[") else Misuse
    case EndObject(_) =>
      if TakesName(st) then Wrote(st.below, Closing(f, Depth(st.below), false, st.valueCount == 0) + "}") else Misuse
    case EndArray(_) =>
      if st.Level? && st.inArray then Wrote(st.below, Closing(f, Depth(st.below), true, st.valueCount == 0) + "]") else Misuse
    case Key(s) =>
      if TakesName(st) then Wrote(Bump(st), Before(f, st) + Quote(s)) else Misuse
    case Double(_) => Misuse
    case _ =>
      if TakesValue(st) then Wrote(Bump(st), Before(f, st) + ScalarText(ev)) else Misuse
  }

  function After(text: string, w: Written): Written {
    match w
    case Misuse => Misuse
    case Wrote(st, more) => Wrote(st, text + more)
  }

  /** A writer, as the function from a state and an event to what it writes. */
  type Machine = (State, Event) -> Written

  function Writing(f: Format): Machine {
    (st, ev) => Write(f, st, ev)
  }

  function WriteAll(machine: Machine, st: State, events: seq<Event>): Written
    decreases |events|
  {
    if events == [] then Wrote(st, "")
    else
      match machine(st, events[0])
      case Misuse => Misuse
      case Wrote(next, text) => After(text, WriteAll(machine, next, events[1..]))
  }

  // ---- the machine writes the text of a value ----

  predicate Writes(machine: Machine, st: State, events: seq<Event>, next: State, text: string) {
    WriteAll(machine, st, events) == Wrote(next, text)
  }

  lemma {:induction false} WritesOne(machine: Machine, st: State, ev: Event)
    requires machine(st, ev).Wrote?
    ensures Writes(machine, st, [ev], machine(st, ev).state, machine(st, ev).text)
  {
    var w := machine(st, ev);
    assert [ev][1..] == [] && WriteAll(machine, w.state, []) == Wrote(w.state, "");
    assert w.text + "" == w.text;
  }

  lemma {:induction false} WritesNothing(machine: Machine, st: State)
    ensures Writes(machine, st, [], st, "")
  {
  }

  lemma {:induction false} WritesThen(machine: Machine, s0: State, a: seq<Event>, s1: State, x: string, b: seq<Event>, s2: State, y: string)
    requires Writes(machine, s0, a, s1, x) && Writes(machine, s1, b, s2, y)
    ensures Writes(machine, s0, a + b, s2, x + y)
    decreases |a|
  {
    if a == [] {
      assert a + b == b && x + y == y;
    } else {
      var w := machine(s0, a[0]);
      var rest := WriteAll(machine, w.state, a[1..]);
      assert (a + b)[1..] == a[1..] + b;
      WritesThen(machine, w.state, a[1..], s1, rest.text, b, s2, y);
      assert w.text + (rest.text + y) == (w.text + rest.text) + y;
    }
  }

  lemma {:induction false} ScalarWrites(f: Format, st: State, v: Value, m: Mode)
    requires Proper(v) && DoubleFree(v) && !v.ArrayValue? && !v.ObjectValue? && TakesValue(st)
    ensures Writes(Writing(f), st, Events(v, m), Bump(st), Before(f, st) + ValueText(f, v, Depth(st)))
  {
    if v.NumberValue? { NumberEventIs(Integer(v)); }
    WritesOne(Writing(f), st, Events(v, m)[0]);
  }

  lemma {:induction false} ValueWrites(f: Format, st: State, v: Value, m: Mode)
    requires Proper(v) && DoubleFree(v) && TakesValue(st)
    ensures Writes(Writing(f), st, Events(v, m), Bump(st), Before(f, st) + ValueText(f, v, Depth(st)))
    decreases v, 0
  {
    match v
    case ArrayValue(es) => ArrayWrites(f, st, es, m);
    case ObjectValue(ms) => ObjectWrites(f, st, ms, m);
    case _ => ScalarWrites(f, st, v, m);
  }

  /** The state inside an array or object that was entered from `st`, after `n` values. */
  function Inside(st: State, inArray: bool, n: nat): State {
    Level(inArray, n, Bump(st))
  }

  lemma {:induction false} StartWrites(f: Format, st: State, inArray: bool)
    requires TakesValue(st)
    ensures Writes(Writing(f), st, [if inArray then StartArray else StartObject], Inside(st, inArray, 0),
                   Before(f, st) + (if inArray then "[" else "{"))
  {
    WritesOne(Writing(f), st, if inArray then StartArray else StartObject);
  }

  lemma {:induction false} EndWrites(f: Format, st: State, inArray: bool, n: nat, count: nat)
    requires inArray || n % 2 == 0
    ensures Writes(Writing(f), Inside(st, inArray, n), [if inArray then EndArray(count) else EndObject(count)], Bump(st),
                   Closing(f, Depth(st), inArray, n == 0) + (if inArray then "]" else "}"))
  {
    WritesOne(Writing(f), Inside(st, inArray, n), if inArray then EndArray(count) else EndObject(count));
  }

  lemma {:induction false} Regrouped(a: string, b: string, c: string, d: string, e: string)
    ensures a + b + c + (d + e) == a + (b + c + d + e)
  {
  }

  lemma {:induction false} Bracketed(machine: Machine, s0: State, start: Event, opening: string, s1: State, all: seq<Event>, body: string,
                                     s2: State, close: Event, end: string, s3: State, events: seq<Event>, text: string)
    requires Writes(machine, s0, [start], s1, opening) && Writes(machine, s1, all, s2, body) && Writes(machine, s2, [close], s3, end)
    requires events == [start] + all + [close] && text == opening + body + end
    ensures Writes(machine, s0, events, s3, text)
  {
    WritesThen(machine, s0, [start], s1, opening, all, s2, body);
    WritesThen(machine, s0, [start] + all, s2, opening + body, [close], s3, end);
  }

  lemma {:induction false} ArrayLayout(f: Format, es: seq<Value>, d: nat, before: string, m: Mode)
    requires ProperElements(es)
    ensures before + ValueText(f, ArrayValue(es), d) == before + "[" + ElementsText(f, es, 0, d + 1) + (Closing(f, d, true, es == []) + "]")
    ensures Events(ArrayValue(es), m) == [StartArray] + ElementEvents(es, m) + [EndArray(|es|)]
  {
    Regrouped(before, "[", ElementsText(f, es, 0, d + 1), Closing(f, d, true, es == []), "]");
  }

  lemma {:induction false} ArrayEnds(f: Format, st: State, es: seq<Value>)
    requires TakesValue(st)
    ensures Writes(Writing(f), st, [StartArray], Inside(st, true, 0), Before(f, st) + "[")
    ensures Writes(Writing(f), Inside(st, true, |es|), [EndArray(|es|)], Bump(st), Closing(f, Depth(st), true, es == []) + "]")
  {
    StartWrites(f, st, true);
    EndWrites(f, st, true, |es|, |es|);
    assert es == [] <==> |es| == 0;
  }

  lemma {:induction false} ArrayWrites(f: Format, st: State, es: seq<Value>, m: Mode)
    requires ProperElements(es) && DoubleFreeElements(es) && TakesValue(st)
    ensures var v := ArrayValue(es);
            Writes(Writing(f), st, Events(v, m), Bump(st), Before(f, st) + ValueText(f, v, Depth(st)))
    decreases es, 1
  {
    hide Write, WriteAll, Prefix, Closing, Before, ElementsText, ElementEvents;
    var d, before := Depth(st), Before(f, st);
    ArrayEnds(f, st, es);
    ElementsWrite(f, st, es, 0, m);
    ArrayLayout(f, es, d, before, m);
    Bracketed(Writing(f), st, StartArray, before + "[", Inside(st, true, 0), ElementEvents(es, m), ElementsText(f, es, 0, d + 1),
              Inside(st, true, |es|), EndArray(|es|), Closing(f, d, true, es == []) + "]", Bump(st),
              Events(ArrayValue(es), m), before + ValueText(f, ArrayValue(es), d));
  }

  lemma {:induction false} Joined(machine: Machine, s0: State, a: seq<Event>, s1: State, x: string,
                                  b: seq<Event>, s2: State, y: string, all: seq<Event>, text: string)
    requires Writes(machine, s0, a, s1, x) && Writes(machine, s1, b, s2, y)
    requires all == a + b && text == x + y
    ensures Writes(machine, s0, all, s2, text)
  {
    WritesThen(machine, s0, a, s1, x, b, s2, y);
  }

  lemma {:induction false} ElementsWrite(f: Format, st: State, es: seq<Value>, i: nat, m: Mode)
    requires ProperElements(es) && DoubleFreeElements(es)
    ensures Writes(Writing(f), Inside(st, true, i), ElementEvents(es, m), Inside(st, true, i + |es|), ElementsText(f, es, i, Depth(st) + 1))
    decreases es, 0
  {
    hide Write, WriteAll, Closing, ValueText;
    var s, d := Inside(st, true, i), Depth(st) + 1;
    if es == [] {
      WritesNothing(Writing(f), s);
    } else {
      ValueWrites(f, s, es[0], m);
      ElementsWrite(f, st, es[1..], i + 1, m);
      Joined(Writing(f), s, Events(es[0], m), Inside(st, true, i + 1), Prefix(f, d, true, i) + ValueText(f, es[0], d),
             ElementEvents(es[1..], m), Inside(st, true, i + |es|), ElementsText(f, es[1..], i + 1, d),
             ElementEvents(es, m), ElementsText(f, es, i, d));
    }
  }

  lemma {:induction false} ObjectLayout(f: Format, ms: seq<Member>, d: nat, before: string, m: Mode)
    requires ProperMembers(ms)
    ensures before + ValueText(f, ObjectValue(ms), d) == before + "{" + MembersText(f, ms, 0, d + 1) + (Closing(f, d, false, ms == []) + "}")
    ensures Events(ObjectValue(ms), m) == [StartObject] + MemberEvents(ms, m) + [EndObject(|ms|)]
  {
    Regrouped(before, "{", MembersText(f, ms, 0, d + 1), Closing(f, d, false, ms == []), "}");
  }

  lemma {:induction false} ObjectWrites(f: Format, st: State, ms: seq<Member>, m: Mode)
    requires ProperMembers(ms) && DoubleFreeMembers(ms) && TakesValue(st)
    ensures var v := ObjectValue(ms);
            Writes(Writing(f), st, Events(v, m), Bump(st), Before(f, st) + ValueText(f, v, Depth(st)))
    decreases ms, 1
  {
    hide Write, WriteAll, Prefix, Closing, Before, MembersText, MemberEvents, TakesName;
    var d, n := Depth(st), 2 * |ms|;
    var before, body, end := Before(f, st), MembersText(f, ms, 0, d + 1), Closing(f, d, false, ms == []);
    StartWrites(f, st, false);
    MembersWrite(f, st, ms, 0, m);
    EndWrites(f, st, false, n, |ms|);
    ObjectLayout(f, ms, d, before, m);
    Bracketed(Writing(f), st, StartObject, before + "{", Inside(st, false, 0), MemberEvents(ms, m), body,
              Inside(st, false, n), EndObject(|ms|), end + "}", Bump(st), Events(ObjectValue(ms), m), before + ValueText(f, ObjectValue(ms), d));
  }

  lemma {:induction false} MembersWrite(f: Format, st: State, ms: seq<Member>, i: nat, m: Mode)
    requires ProperMembers(ms) && DoubleFreeMembers(ms)
    ensures Writes(Writing(f), Inside(st, false, 2 * i), MemberEvents(ms, m), Inside(st, false, 2 * (i + |ms|)),
                   MembersText(f, ms, i, Depth(st) + 1))
    decreases ms, 0
  {
    hide Write, WriteAll, Prefix, Closing, MemberText, MemberEvent;
    var s, d := Inside(st, false, 2 * i), Depth(st) + 1;
    if ms == [] {
      WritesNothing(Writing(f), s);
    } else {
      MemberWrites(f, st, ms[0], i, m);
      MembersWrite(f, st, ms[1..], i + 1, m);
      Joined(Writing(f), s, MemberEvent(ms[0], m), Inside(st, false, 2 * (i + 1)), MemberText(f, ms[0], i, d),
             MemberEvents(ms[1..], m), Inside(st, false, 2 * (i + |ms|)), MembersText(f, ms[1..], i + 1, d),
             MemberEvents(ms, m), MembersText(f, ms, i, d));
    }
  }

  lemma {:induction false} NameWrites(f: Format, st: State, i: nat, name: string)
    ensures Writes(Writing(f), Inside(st, false, 2 * i), [Key(name)], Inside(st, false, 2 * i + 1),
                   Prefix(f, Depth(st) + 1, false, 2 * i) + Quote(name))
  {
    WritesOne(Writing(f), Inside(st, false, 2 * i), Key(name));
  }

  lemma {:induction false} Paired(a: string, b: string, c: string, d: string)
    ensures a + b + c + d == (a + b) + (c + d)
  {
  }

  lemma {:induction false} MemberLayout(f: Format, member: Member, i: nat, d: nat, m: Mode)
    requires ProperMember(member)
    ensures MemberText(f, member, i, d) ==
            (Prefix(f, d, false, 2 * i) + Quote(member.name.s)) + (Prefix(f, d, false, 2 * i + 1) + ValueText(f, member.value, d))
    ensures MemberEvent(member, m) == [Key(member.name.s)] + Events(member.value, m)
  {
    Paired(Prefix(f, d, false, 2 * i), Quote(member.name.s), Prefix(f, d, false, 2 * i + 1), ValueText(f, member.value, d));
  }

  lemma {:induction false} MemberWrites(f: Format, st: State, member: Member, i: nat, m: Mode)
    requires ProperMember(member) && DoubleFreeMember(member)
    ensures Writes(Writing(f), Inside(st, false, 2 * i), MemberEvent(member, m), Inside(st, false, 2 * (i + 1)),
                   MemberText(f, member, i, Depth(st) + 1))
    decreases member
  {
    var d, name := Depth(st) + 1, member.name.s;
    var s, s', s'' := Inside(st, false, 2 * i), Inside(st, false, 2 * i + 1), Inside(st, false, 2 * (i + 1));
    NameWrites(f, st, i, name);
    ValueWrites(f, s', member.value, m);
    MemberLayout(f, member, i, d, m);
    assert Before(f, s') == Prefix(f, d, false, 2 * i + 1) && Bump(s') == s'';
    Joined(Writing(f), s, [Key(name)], s', Prefix(f, d, false, 2 * i) + Quote(name), Events(member.value, m), s'',
           Before(f, s') + ValueText(f, member.value, d), MemberEvent(member, m), MemberText(f, member, i, d));
  }

  /** The events of a value, in either mode, make a fresh writer write the text of the value. */
  lemma {:induction false} EventsWriteText(f: Format, v: Value, m: Mode)
    requires Proper(v) && DoubleFree(v)
    ensures WriteAll(Writing(f), FRESH, Events(v, m)) == Wrote(Bottom(true), ValueText(f, v, 0))
  {
    ValueWrites(f, FRESH, v, m);
    assert "" + ValueText(f, v, 0) == ValueText(f, v, 0);
  }
}
