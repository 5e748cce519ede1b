/**
 JSON as RFC 8259 derives it, section 2: trees of values with all their white space. The parsers accept exactly the
 texts of trees, and report the events of the tree.
 */
module JsonSyntax {
  import opened Text
  import opened JsonScan
  import opened JsonEscapes
  import opened JsonLexemes
  import opened JsonGrammar
  import JsonMachine
  import JsonPull
  import JsonRoundTrip

  // ---- trees ----

  datatype Tree =
    | Null | True | False
    | Number(n: Numeral)
    | Words(parts: seq<Part>)
    | Array(slots: seq<Slot>, end: End)
    | Object(slots: seq<Slot>, end: End)

  /** A value in an array or object, with its name if it has one, and the white space around. */
  datatype Slot = Slot(before: string, name: Name, value: Tree, after: string)

  datatype Name = Unnamed | Named(parts: seq<Part>, gap: string, space: string)

  /** Nothing, or white space: the only thing between the brackets, or after a comma too many. */
  datatype End = Plain | Blanks(ws: string)

  predicate AllBlank(ws: string) {
    forall i | 0 <= i < |ws| :: Blank(ws[i])
  }

  predicate EndOk(cfg: Config, empty: bool, end: End) {
    match end
    case Plain => !empty
    case Blanks(ws) => AllBlank(ws) && (empty || cfg.trailingCommas)
  }

  predicate NameOk(inArray: bool, name: Name) {
    match name
    case Unnamed => inArray
    case Named(parts, gap, space) => !inArray && AllReadable(parts) && AllBlank(gap) && AllBlank(space)
  }

  predicate TreeOk(cfg: Config, t: Tree)
    decreases t
  {
    match t
    case Number(n) => NumeralOk(n) && NumberEvent(cfg, n).SomeEvent?
    case Words(parts) => AllReadable(parts)
    case Array(slots, end) => EndOk(cfg, slots == [], end) && SlotsOk(cfg, true, slots)
    case Object(slots, end) => EndOk(cfg, slots == [], end) && SlotsOk(cfg, false, slots)
    case _ => true
  }

  predicate SlotsOk(cfg: Config, inArray: bool, slots: seq<Slot>)
    decreases slots
  {
    slots == [] || (SlotOk(cfg, inArray, slots[0]) && SlotsOk(cfg, inArray, slots[1..]))
  }

  predicate SlotOk(cfg: Config, inArray: bool, s: Slot)
    decreases s
  {
    AllBlank(s.before) && AllBlank(s.after) && NameOk(inArray, s.name) && TreeOk(cfg, s.value)
  }

  /** The event of a number, unless it is too big. */
  function NumberEvent(cfg: Config, n: Numeral): (r: MaybeEvent)
    requires NumeralOk(n)
    ensures forall ev :: NumeralMeans(cfg, n, ev) <==> r == SomeEvent(ev)
  {
    var v: int := if n.minus then 0 - ValueFrom(n.digits, 0) else ValueFrom(n.digits, 0);
    var ev := if n.minus then (if v >= -0x8000_0000 then Int(v) else Int64(v)) else if v < 0x1_0000_0000 then Uint(v) else Uint64(v);
    if NumeralMeans(cfg, n, ev) then SomeEvent(ev)
    else
      match cfg.fp(ShowNumeral(n, ""))
      case TooBig => NoEvent
      case Finite(bits) => SomeEvent(Double(bits))
  }

  // ---- the text of a tree, and what follows it ----

  function ShowTree(cfg: Config, t: Tree, rest: string): string
    requires TreeOk(cfg, t)
    decreases t
  {
    match t
    case Null => "null" + rest
    case True => "true" + rest
    case False => "false" + rest
    case Number(n) => ShowNumeral(n, rest)
    case Words(parts) => "\"" + ShowString(parts, rest)
    case Array(slots, end) => "[" + ShowSlots(cfg, true, slots, end, "]" + rest)
    case Object(slots, end) => "{" + ShowSlots(cfg, false, slots, end, "}" + rest)
  }

  /** From an opening bracket or a comma on. */
  function ShowSlots(cfg: Config, inArray: bool, slots: seq<Slot>, end: End, rest: string): string
    requires SlotsOk(cfg, inArray, slots)
    decreases slots
  {
    if slots == [] then
      if end.Plain? then rest else end.ws + rest
    else
      ShowSlot(cfg, inArray, slots[0],
               if |slots| == 1 && end.Plain? then rest else "," + ShowSlots(cfg, inArray, slots[1..], end, rest))
  }

  function ShowSlot(cfg: Config, inArray: bool, s: Slot, rest: string): string
    requires SlotOk(cfg, inArray, s)
    decreases s
  {
    s.before + ShowName(inArray, s.name, ShowTree(cfg, s.value, s.after + rest))
  }

  function ShowName(inArray: bool, name: Name, rest: string): string
    requires NameOk(inArray, name)
  {
    match name
    case Unnamed => rest
    case Named(parts, gap, space) => "\"" + ShowString(parts, gap + (":" + (space + rest)))
  }

  // ---- the events of a tree ----

  function TreeEvents(cfg: Config, t: Tree): seq<Event>
    requires TreeOk(cfg, t)
    decreases t
  {
    match t
    case Null => [NullEvent]
    case True => [Bool(true)]
    case False => [Bool(false)]
    case Number(n) => [NumberEvent(cfg, n).ev]
    case Words(parts) => [String(PiecesMean(parts))]
    case Array(slots, _) => [StartArray] + (SlotEvents(cfg, true, slots) + [EndArray(|slots|)])
    case Object(slots, _) => [StartObject] + (SlotEvents(cfg, false, slots) + [EndObject(|slots|)])
  }

  function SlotEvents(cfg: Config, inArray: bool, slots: seq<Slot>): seq<Event>
    requires SlotsOk(cfg, inArray, slots)
    decreases slots
  {
    if slots == [] then [] else SlotEvent(cfg, inArray, slots[0]) + SlotEvents(cfg, inArray, slots[1..])
  }

  function SlotEvent(cfg: Config, inArray: bool, s: Slot): seq<Event>
    requires SlotOk(cfg, inArray, s)
    decreases s
  {
    if s.name.Unnamed? then TreeEvents(cfg, s.value) else [Key(PiecesMean(s.name.parts))] + TreeEvents(cfg, s.value)
  }

  /** What follows does not continue the value, which it could only if that is a number. */
  predicate Follows(t: Tree, rest: string) {
    t.Number? ==> Stops(t.n, rest)
  }

  // ---- every tree is parsed ----

  /** Where white space, a comma, a bracket or nothing follows, no number goes on. */
  lemma {:induction false} NothingFollows(t: Tree, ws: string, rest: string)
    requires AllBlank(ws) && (Peek(rest) == ',' || Peek(rest) == ']' || Peek(rest) == '}' || Peek(rest) == '\0')
    ensures Follows(t, ws + rest)
  {
    if ws != "" { assert Blank(ws[0]) && (ws + rest)[0] == ws[0]; } else { assert ws + rest == rest; }
  }

  lemma {:induction false} Skipped(ws: string, rest: string)
    requires AllBlank(ws) && !IsWs(Peek(rest))
    ensures SkipWs(ws + rest) == rest
  {
    BlanksSkipped(ws, rest);
  }

  lemma {:induction false} ScalarReads(cfg: Config, t: Tree, rest: string)
    requires TreeOk(cfg, t) && Follows(t, rest) && !t.Array? && !t.Object?
    ensures var text := ShowTree(cfg, t, rest);
            JsonRoundTrip.Begins(Peek(text)) && ParseValue(cfg, text) == Done(TreeEvents(cfg, t), rest)
  {
    hide ScanNumber, ShowNumeral, NumeralMeans, ScanChars, ShowString;
    var text := ShowTree(cfg, t, rest);
    match t
    case Null =>
      assert text[1..] == "ull" + rest;
      JsonRoundTrip.WordReads("ull", rest, NullEvent);
    case True =>
      assert text[1..] == "rue" + rest;
      JsonRoundTrip.WordReads("rue", rest, Bool(true));
    case False =>
      assert text[1..] == "alse" + rest;
      JsonRoundTrip.WordReads("alse", rest, Bool(false));
    case Number(n) =>
      NumeralReads(cfg, n, NumberEvent(cfg, n).ev, rest);
      NumeralBegins(n, rest);
    case Words(parts) =>
      assert text[1..] == ShowString(parts, rest);
      PiecesRead(parts, rest, "");
      assert "" + PiecesMean(parts) == PiecesMean(parts);
    case _ =>
  }

  lemma {:induction false} NumeralBegins(n: Numeral, rest: string)
    requires NumeralOk(n)
    ensures var c := Peek(ShowNumeral(n, rest)); c == '-' || IsDigit(c)
  {
    assert ShowUnsigned(n, rest)[0] == n.digits[0];
  }

  lemma {:induction false} TreeReads(cfg: Config, t: Tree, rest: string)
    requires TreeOk(cfg, t) && Follows(t, rest)
    ensures var text := ShowTree(cfg, t, rest);
            JsonRoundTrip.Begins(Peek(text)) && ParseValue(cfg, text) == Done(TreeEvents(cfg, t), rest)
    decreases t, 0
  {
    match t
    case Array(slots, end) => ArrayReads(cfg, slots, end, rest);
    case Object(slots, end) => ObjectReads(cfg, slots, end, rest);
    case _ => ScalarReads(cfg, t, rest);
  }

  /** What follows a value in an array or object: the closing bracket, or a comma and the rest. */
  function Tail(cfg: Config, inArray: bool, slots: seq<Slot>, end: End, rest: string): string
    requires SlotsOk(cfg, inArray, slots)
  {
    if slots == [] && end.Plain? then rest else "," + ShowSlots(cfg, inArray, slots, end, rest)
  }

  lemma {:induction false} SlotsShown(cfg: Config, inArray: bool, slots: seq<Slot>, end: End, rest: string)
    requires SlotsOk(cfg, inArray, slots) && slots != []
    ensures ShowSlots(cfg, inArray, slots, end, rest) == ShowSlot(cfg, inArray, slots[0], Tail(cfg, inArray, slots[1..], end, rest))
  {
    assert |slots| == 1 <==> slots[1..] == [];
  }

  /** The text of a slot after the white space before it. */
  function Entry(cfg: Config, inArray: bool, s: Slot, rest: string): string
    requires SlotOk(cfg, inArray, s)
  {
    ShowName(inArray, s.name, ShowTree(cfg, s.value, s.after + rest))
  }

  lemma {:induction false} ElementReads(cfg: Config, s: Slot, tail: string)
    requires SlotOk(cfg, true, s) && (Peek(tail) == ',' || Peek(tail) == ']')
    ensures var text := Entry(cfg, true, s, tail);
            && JsonRoundTrip.Begins(Peek(text)) && SkipWs(ShowSlot(cfg, true, s, tail)) == text
            && ParseValue(cfg, text) == Done(SlotEvent(cfg, true, s), s.after + tail) && SkipWs(s.after + tail) == tail
    decreases s, 1
  {
    hide ParseValue;
    NothingFollows(s.value, s.after, tail);
    TreeReads(cfg, s.value, s.after + tail);
    Skipped(s.before, Entry(cfg, true, s, tail));
    Skipped(s.after, tail);
  }

  lemma {:induction false} MemberReads(cfg: Config, s: Slot, tail: string)
    requires SlotOk(cfg, false, s) && (Peek(tail) == ',' || Peek(tail) == '}')
    ensures var text := Entry(cfg, false, s, tail);
            && Peek(text) == '\"' && SkipWs(ShowSlot(cfg, false, s, tail)) == text
            && ParseMember(cfg, text) == Done(SlotEvent(cfg, false, s), s.after + tail) && SkipWs(s.after + tail) == tail
    decreases s, 1
  {
    hide ParseValue, ScanChars, ShowString, ShowTree;
    var value := ShowTree(cfg, s.value, s.after + tail);
    NothingFollows(s.value, s.after, tail);
    TreeReads(cfg, s.value, s.after + tail);
    Skipped(s.before, Entry(cfg, false, s, tail));
    Skipped(s.after, tail);
    NameReads(s.name, value);
  }

  /** A name, its colon and the white space around. */
  lemma {:induction false} NameReads(name: Name, value: string)
    requires NameOk(false, name) && !IsWs(Peek(value))
    ensures var text := ShowName(false, name, value);
            && Peek(text) == '\"' && ScanString(text).Ok? && ScanString(text).value == PiecesMean(name.parts)
            && var colon := SkipWs(ScanString(text).rest); Peek(colon) == ':' && SkipWs(colon[1..]) == value
  {
    hide ScanChars, ShowString;
    var after := name.gap + (":" + (name.space + value));
    PiecesRead(name.parts, after, "");
    assert ShowName(false, name, value)[1..] == ShowString(name.parts, after);
    assert "" + PiecesMean(name.parts) == PiecesMean(name.parts);
    var colon := ":" + (name.space + value);
    Skipped(name.gap, colon);
    Skipped(name.space, value);
    assert colon[1..] == name.space + value;
  }

  lemma {:induction false} TailBegins(cfg: Config, inArray: bool, slots: seq<Slot>, end: End, close: char, rest: string)
    requires SlotsOk(cfg, inArray, slots)
    ensures var c := Peek(Tail(cfg, inArray, slots, end, [close] + rest)); c == ',' || c == close
  {
  }

  lemma {:induction false} EventsGrouped(a: seq<Event>, b: seq<Event>, c: seq<Event>)
    ensures a + (b + c) == a + b + c
  {
  }

  lemma {:induction false} Behind(c: char, more: string)
    ensures Peek([c] + more) == c && ([c] + more)[1..] == more
  {
  }

  /** The elements of an array from one on. */
  lemma {:induction false} ElementsRead(cfg: Config, slots: seq<Slot>, end: End, n: nat, rest: string)
    requires SlotsOk(cfg, true, slots) && slots != [] && EndOk(cfg, false, end)
    ensures var text := SkipWs(ShowSlots(cfg, true, slots, end, "]" + rest));
            && JsonRoundTrip.Begins(Peek(text))
            && ParseElements(cfg, text, n) == Done(SlotEvents(cfg, true, slots) + [EndArray(n + |slots|)], rest)
    decreases slots, 2
  {
    hide ParseValue, ParseElements, ShowSlot, ShowSlots, SkipWs, Tail, Entry, SlotEvent;
    var tail := Tail(cfg, true, slots[1..], end, "]" + rest);
    SlotsShown(cfg, true, slots, end, "]" + rest);
    TailBegins(cfg, true, slots[1..], end, ']', rest);
    ElementReads(cfg, slots[0], tail);
    ElementsIs(cfg, Entry(cfg, true, slots[0], tail), n);
    AfterElementReads(cfg, slots[1..], end, n + 1, rest);
    EventsGrouped(SlotEvent(cfg, true, slots[0]), SlotEvents(cfg, true, slots[1..]), [EndArray(n + |slots|)]);
  }

  lemma {:induction false} AfterElementReads(cfg: Config, slots: seq<Slot>, end: End, n: nat, rest: string)
    requires SlotsOk(cfg, true, slots) && EndOk(cfg, false, end)
    ensures ParseAfterElement(cfg, Tail(cfg, true, slots, end, "]" + rest), n)
         == Done(SlotEvents(cfg, true, slots) + [EndArray(n + |slots|)], rest)
    decreases slots, 3
  {
    hide ParseValue, ParseElements, ShowSlot, SkipWs;
    var close := "]" + rest;
    Behind(']', rest);
    assert [] + [EndArray(n)] == [EndArray(n)];
    if slots != [] || !end.Plain? {
      var more := ShowSlots(cfg, true, slots, end, close);
      Behind(',', more);
      if slots == [] {
        Skipped(end.ws, close);
      } else {
        ElementsRead(cfg, slots, end, n, rest);
      }
    }
  }

  lemma {:induction false} ArrayBodyReads(cfg: Config, slots: seq<Slot>, end: End, rest: string)
    requires SlotsOk(cfg, true, slots) && EndOk(cfg, slots == [], end)
    ensures ParseArrayBody(cfg, SkipWs(ShowSlots(cfg, true, slots, end, "]" + rest)))
         == Done(SlotEvents(cfg, true, slots) + [EndArray(|slots|)], rest)
    decreases slots, 4
  {
    hide ParseValue, ParseElements, ShowSlot, SkipWs, SlotEvent;
    if slots == [] {
      Behind(']', rest);
      Skipped(end.ws, "]" + rest);
      assert [] + [EndArray(0)] == [EndArray(0)];
    } else {
      ElementsRead(cfg, slots, end, 0, rest);
      BodiesAre(cfg, SkipWs(ShowSlots(cfg, true, slots, end, "]" + rest)));
    }
  }

  lemma {:induction false} ArrayReads(cfg: Config, slots: seq<Slot>, end: End, rest: string)
    requires SlotsOk(cfg, true, slots) && EndOk(cfg, slots == [], end)
    ensures var t := Array(slots, end);
            ParseValue(cfg, ShowTree(cfg, t, rest)) == Done(TreeEvents(cfg, t), rest) && Peek(ShowTree(cfg, t, rest)) == '['
    decreases slots, 5
  {
    hide ParseValue, ParseArrayBody, ShowSlots, SlotEvents, SkipWs;
    var more := ShowSlots(cfg, true, slots, end, "]" + rest);
    Behind('[', more);
    ArrayIs(cfg, "[" + more);
    ArrayBodyReads(cfg, slots, end, rest);
  }

  /** The members of an object from one on. */
  lemma {:induction false} MembersRead(cfg: Config, slots: seq<Slot>, end: End, n: nat, rest: string)
    requires SlotsOk(cfg, false, slots) && slots != [] && EndOk(cfg, false, end)
    ensures var text := SkipWs(ShowSlots(cfg, false, slots, end, "}" + rest));
            && Peek(text) == '\"'
            && ParseMembers(cfg, text, n) == Done(SlotEvents(cfg, false, slots) + [EndObject(n + |slots|)], rest)
    decreases slots, 2
  {
    hide ParseValue, ParseMembers, ParseMember, ShowSlot, ShowSlots, SkipWs, Tail, Entry, SlotEvent;
    var tail := Tail(cfg, false, slots[1..], end, "}" + rest);
    SlotsShown(cfg, false, slots, end, "}" + rest);
    TailBegins(cfg, false, slots[1..], end, '}', rest);
    MemberReads(cfg, slots[0], tail);
    MembersIs(cfg, Entry(cfg, false, slots[0], tail), n);
    AfterMemberReads(cfg, slots[1..], end, n + 1, rest);
    EventsGrouped(SlotEvent(cfg, false, slots[0]), SlotEvents(cfg, false, slots[1..]), [EndObject(n + |slots|)]);
  }

  lemma {:induction false} AfterMemberReads(cfg: Config, slots: seq<Slot>, end: End, n: nat, rest: string)
    requires SlotsOk(cfg, false, slots) && EndOk(cfg, false, end)
    ensures ParseAfterMember(cfg, Tail(cfg, false, slots, end, "}" + rest), n)
         == Done(SlotEvents(cfg, false, slots) + [EndObject(n + |slots|)], rest)
    decreases slots, 3
  {
    hide ParseValue, ParseMembers, ShowSlot, SkipWs;
    var close := "}" + rest;
    Behind('}', rest);
    assert [] + [EndObject(n)] == [EndObject(n)];
    if slots != [] || !end.Plain? {
      var more := ShowSlots(cfg, false, slots, end, close);
      Behind(',', more);
      if slots == [] {
        Skipped(end.ws, close);
      } else {
        MembersRead(cfg, slots, end, n, rest);
      }
    }
  }

  lemma {:induction false} ObjectBodyReads(cfg: Config, slots: seq<Slot>, end: End, rest: string)
    requires SlotsOk(cfg, false, slots) && EndOk(cfg, slots == [], end)
    ensures ParseObjectBody(cfg, SkipWs(ShowSlots(cfg, false, slots, end, "}" + rest)))
         == Done(SlotEvents(cfg, false, slots) + [EndObject(|slots|)], rest)
    decreases slots, 4
  {
    hide ParseValue, ParseMembers, ShowSlot, SkipWs, SlotEvent;
    if slots == [] {
      Behind('}', rest);
      Skipped(end.ws, "}" + rest);
      assert [] + [EndObject(0)] == [EndObject(0)];
    } else {
      MembersRead(cfg, slots, end, 0, rest);
      BodiesAre(cfg, SkipWs(ShowSlots(cfg, false, slots, end, "}" + rest)));
    }
  }

  lemma {:induction false} ObjectReads(cfg: Config, slots: seq<Slot>, end: End, rest: string)
    requires SlotsOk(cfg, false, slots) && EndOk(cfg, slots == [], end)
    ensures var t := Object(slots, end);
            ParseValue(cfg, ShowTree(cfg, t, rest)) == Done(TreeEvents(cfg, t), rest) && Peek(ShowTree(cfg, t, rest)) == '{'
    decreases slots, 5
  {
    hide ParseValue, ParseObjectBody, ShowSlots, SlotEvents, SkipWs;
    var more := ShowSlots(cfg, false, slots, end, "}" + rest);
    Behind('{', more);
    ObjectIs(cfg, "{" + more);
    ObjectBodyReads(cfg, slots, end, rest);
  }

  // ---- and nothing else is ----

  lemma {:induction false} BlankFirst(c: char, ws: string, text: string, rest: string)
    requires IsWs(c) && AllBlank(ws) && text != "" && text[0] == c && text[1..] == ws + rest
    ensures AllBlank([c] + ws) && text == ([c] + ws) + rest
  {
    assert Blank(c) && text == [c] + text[1..];
  }

  lemma {:induction false} BlanksOf(text: string) returns (ws: string)
    ensures AllBlank(ws) && text == ws + SkipWs(text)
  {
    ws := "";
    if IsWs(Peek(text)) {
      var more := BlanksOf(text[1..]);
      ws := [text[0]] + more;
      BlankFirst(text[0], more, text, SkipWs(text));
    } else {
      assert "" + text == text;
    }
  }

  lemma {:induction false} Front(c: char, text: string)
    requires Peek(text) == c && c != '\0'
    ensures text != "" && text == [c] + text[1..]
  {
  }

  lemma {:induction false} WordOf(text: string, word: string, ev: Event)
    requires '\0' !in word && Expect(text, word, ev).Ok?
    ensures Expect(text, word, ev).value == ev && text == word + Expect(text, word, ev).rest
  {
    if word != "" {
      assert word[0] in word;
      Front(word[0], text);
      assert forall c | c in word[1..] :: c in word;
      WordOf(text[1..], word[1..], ev);
      assert word == [word[0]] + word[1..];
    }
  }

  lemma {:induction false} NumberOf(cfg: Config, text: string) returns (t: Tree)
    requires ScanNumber(cfg, text).Ok?
    ensures var r := ScanNumber(cfg, text);
            t.Number? && TreeOk(cfg, t) && Follows(t, r.rest) && text == ShowTree(cfg, t, r.rest) && TreeEvents(cfg, t) == [r.value]
  {
    hide ScanNumber, ShowNumeral, NumeralMeans, Stops;
    var n := NumeralOf(cfg, text);
    t := Number(n);
    assert NumberEvent(cfg, n) == SomeEvent(ScanNumber(cfg, text).value);
  }

  lemma {:induction false} WordsOf(cfg: Config, text: string) returns (parts: seq<Part>)
    requires Peek(text) == '\"' && ScanString(text).Ok?
    ensures var r := ScanString(text); AllReadable(parts) && text == "\"" + ShowString(parts, r.rest) && r.value == PiecesMean(parts)
  {
    hide ScanChars, ShowString;
    parts := StringOf(text[1..], "");
    Front('\"', text);
    assert "" + PiecesMean(parts) == PiecesMean(parts);
  }

  lemma {:induction false} LiteralOf(c: char, word: string, whole: string, text: string, ev: Event)
    requires c != '\0' && '\0' !in word && whole == [c] + word && Peek(text) == c && Expect(text[1..], word, ev).Ok?
    ensures Expect(text[1..], word, ev).value == ev && text == whole + Expect(text[1..], word, ev).rest
  {
    hide Expect;
    Front(c, text);
    WordOf(text[1..], word, ev);
    assert [c] + (word + Expect(text[1..], word, ev).rest) == ([c] + word) + Expect(text[1..], word, ev).rest;
  }

  lemma {:induction false} ScalarOf(cfg: Config, text: string) returns (t: Tree)
    requires ScanScalar(cfg, text).Ok?
    ensures var r := ScanScalar(cfg, text);
            TreeOk(cfg, t) && Follows(t, r.rest) && text == ShowTree(cfg, t, r.rest) && TreeEvents(cfg, t) == [r.value]
  {
    hide ScanNumber, ScanChars, ShowNumeral, ShowString, PiecesMean, NumeralMeans, Expect;
    var c := Peek(text);
    if c == 'n' {
      t := Null;
      LiteralOf(c, "ull", "null", text, NullEvent);
    } else if c == 't' {
      t := True;
      LiteralOf(c, "rue", "true", text, Bool(true));
    } else if c == 'f' {
      t := False;
      LiteralOf(c, "alse", "false", text, Bool(false));
    } else if c == '\"' {
      var parts := WordsOf(cfg, text);
      t := Words(parts);
    } else {
      t := NumberOf(cfg, text);
    }
  }

  lemma {:induction false} TreeOf(cfg: Config, text: string) returns (t: Tree)
    requires ParseValue(cfg, text).Done?
    ensures var r := ParseValue(cfg, text);
            TreeOk(cfg, t) && Follows(t, r.rest) && text == ShowTree(cfg, t, r.rest) && TreeEvents(cfg, t) == r.events
    decreases |text|, 1
  {
    hide ScanScalar, TreeOk, ShowTree, TreeEvents, Follows, ParseObjectBody, ParseArrayBody;
    if Peek(text) == '{' {
      t := ObjectOf(cfg, text);
    } else if Peek(text) == '[' {
      t := ArrayOf(cfg, text);
    } else {
      t := ScalarOf(cfg, text);
    }
  }

  lemma {:induction false} WholeArray(cfg: Config, text: string, slots: seq<Slot>, end: End, rest: string)
    requires SlotsOk(cfg, true, slots) && EndOk(cfg, slots == [], end)
    requires Peek(text) == '[' && text[1..] == ShowSlots(cfg, true, slots, end, "]" + rest)
    requires ParseArrayBody(cfg, SkipWs(text[1..])) == Done(SlotEvents(cfg, true, slots) + [EndArray(|slots|)], rest)
    ensures var t := Array(slots, end);
            && TreeOk(cfg, t) && text == ShowTree(cfg, t, rest) && ParseValue(cfg, text) == Done(TreeEvents(cfg, t), rest)
  {
    hide ParseValue, ParseArrayBody, ShowSlots, SlotEvents, SkipWs;
    ArrayIs(cfg, text);
    Front('[', text);
  }

  lemma {:induction false} ArrayOf(cfg: Config, text: string) returns (t: Tree)
    requires Peek(text) == '[' && ParseValue(cfg, text).Done?
    ensures var r := ParseValue(cfg, text);
            TreeOk(cfg, t) && Follows(t, r.rest) && text == ShowTree(cfg, t, r.rest) && TreeEvents(cfg, t) == r.events
    decreases |text|, 0
  {
    hide ParseValue, ParseElements, TreeOk, ShowTree, TreeEvents, ShowSlots, SkipWs;
    ArrayIs(cfg, text);
    BodiesAre(cfg, SkipWs(text[1..]));
    var slots, end := [], Plain;
    if Peek(SkipWs(text[1..])) == ']' {
      end := EmptyOf(cfg, true, text[1..], ']');
      assert [] + [EndArray(0)] == [EndArray(0)];
    } else {
      slots, end := ElementsOf(cfg, text[1..], 0);
    }
    WholeArray(cfg, text, slots, end, ParseValue(cfg, text).rest);
    t := Array(slots, end);
  }

  lemma {:induction false} WholeObject(cfg: Config, text: string, slots: seq<Slot>, end: End, rest: string)
    requires SlotsOk(cfg, false, slots) && EndOk(cfg, slots == [], end)
    requires Peek(text) == '{' && text[1..] == ShowSlots(cfg, false, slots, end, "}" + rest)
    requires ParseObjectBody(cfg, SkipWs(text[1..])) == Done(SlotEvents(cfg, false, slots) + [EndObject(|slots|)], rest)
    ensures var t := Object(slots, end);
            && TreeOk(cfg, t) && text == ShowTree(cfg, t, rest) && ParseValue(cfg, text) == Done(TreeEvents(cfg, t), rest)
  {
    hide ParseValue, ParseObjectBody, ShowSlots, SlotEvents, SkipWs;
    ObjectIs(cfg, text);
    Front('{', text);
  }

  lemma {:induction false} ObjectOf(cfg: Config, text: string) returns (t: Tree)
    requires Peek(text) == '{' && ParseValue(cfg, text).Done?
    ensures var r := ParseValue(cfg, text);
            TreeOk(cfg, t) && Follows(t, r.rest) && text == ShowTree(cfg, t, r.rest) && TreeEvents(cfg, t) == r.events
    decreases |text|, 0
  {
    hide ParseValue, ParseMembers, TreeOk, ShowTree, TreeEvents, ShowSlots, SkipWs;
    ObjectIs(cfg, text);
    BodiesAre(cfg, SkipWs(text[1..]));
    var slots, end := [], Plain;
    if Peek(SkipWs(text[1..])) == '}' {
      end := EmptyOf(cfg, false, text[1..], '}');
      assert [] + [EndObject(0)] == [EndObject(0)];
    } else {
      slots, end := MembersOf(cfg, text[1..], 0);
    }
    WholeObject(cfg, text, slots, end, ParseValue(cfg, text).rest);
    t := Object(slots, end);
  }

  /** Nothing but white space before a closing bracket. */
  lemma {:induction false} EmptyOf(cfg: Config, inArray: bool, text: string, close: char) returns (end: End)
    requires Peek(SkipWs(text)) == close && close != '\0'
    ensures end.Blanks? && AllBlank(end.ws) && text == ShowSlots(cfg, inArray, [], end, [close] + SkipWs(text)[1..])
  {
    var ws := BlanksOf(text);
    Front(close, SkipWs(text));
    end := Blanks(ws);
  }

  lemma {:induction false} Prepended(slot: Slot, slots: seq<Slot>)
    ensures [slot] + slots != [] && ([slot] + slots)[0] == slot && ([slot] + slots)[1..] == slots
  {
  }

  lemma {:induction false} ElementsOf(cfg: Config, text: string, n: nat) returns (slots: seq<Slot>, end: End)
    requires ParseElements(cfg, SkipWs(text), n).Done?
    ensures var r := ParseElements(cfg, SkipWs(text), n);
            && slots != [] && SlotsOk(cfg, true, slots) && EndOk(cfg, false, end)
            && text == ShowSlots(cfg, true, slots, end, "]" + r.rest)
            && r.events == SlotEvents(cfg, true, slots) + [EndArray(n + |slots|)]
    decreases |SkipWs(text)|, 2
  {
    hide ParseValue, ParseElements, ShowTree, ShowSlots, SkipWs;
    var start := SkipWs(text);
    ElementsIs(cfg, start, n);
    var v := ParseValue(cfg, start);
    var before := BlanksOf(text);
    var t := TreeOf(cfg, start);
    var after := BlanksOf(v.rest);
    var slot := Slot(before, Unnamed, t, after);
    var others;
    others, end := AfterElementOf(cfg, SkipWs(v.rest), n + 1);
    var rest := ParseElements(cfg, start, n).rest;
    slots := [slot] + others;
    Prepended(slot, others);
    SlotsShown(cfg, true, slots, end, "]" + rest);
    EventsGrouped(SlotEvent(cfg, true, slot), SlotEvents(cfg, true, others), [EndArray(n + |slots|)]);
  }

  lemma {:induction false} AfterElementOf(cfg: Config, text: string, n: nat) returns (slots: seq<Slot>, end: End)
    requires ParseAfterElement(cfg, text, n).Done?
    ensures var r := ParseAfterElement(cfg, text, n);
            && SlotsOk(cfg, true, slots) && EndOk(cfg, false, end) && text == Tail(cfg, true, slots, end, "]" + r.rest)
            && r.events == SlotEvents(cfg, true, slots) + [EndArray(n + |slots|)]
    decreases |text|, 0
  {
    hide ParseElements, ShowSlots;
    var r := ParseAfterElement(cfg, text, n);
    slots, end := [], Plain;
    assert [] + [EndArray(n)] == [EndArray(n)];
    if Peek(text) == ',' {
      Front(',', text);
      if cfg.trailingCommas && Peek(SkipWs(text[1..])) == ']' {
        end := EmptyOf(cfg, true, text[1..], ']');
      } else {
        slots, end := ElementsOf(cfg, text[1..], n);
      }
    } else {
      Front(']', text);
    }
  }

  lemma {:induction false} MembersOf(cfg: Config, text: string, n: nat) returns (slots: seq<Slot>, end: End)
    requires ParseMembers(cfg, SkipWs(text), n).Done?
    ensures var r := ParseMembers(cfg, SkipWs(text), n);
            && slots != [] && SlotsOk(cfg, false, slots) && EndOk(cfg, false, end)
            && text == ShowSlots(cfg, false, slots, end, "}" + r.rest)
            && r.events == SlotEvents(cfg, false, slots) + [EndObject(n + |slots|)]
    decreases |SkipWs(text)|, 3
  {
    hide ParseMember, ParseMembers, ShowTree, ShowSlots, SkipWs;
    var start := SkipWs(text);
    MembersIs(cfg, start, n);
    var v := ParseMember(cfg, start);
    var before := BlanksOf(text);
    var name, t := MemberOf(cfg, start);
    var after := BlanksOf(v.rest);
    var slot := Slot(before, name, t, after);
    var others;
    others, end := AfterMemberOf(cfg, SkipWs(v.rest), n + 1);
    var rest := ParseMembers(cfg, start, n).rest;
    slots := [slot] + others;
    Prepended(slot, others);
    SlotsShown(cfg, false, slots, end, "}" + rest);
    EventsGrouped(SlotEvent(cfg, false, slot), SlotEvents(cfg, false, others), [EndObject(n + |slots|)]);
  }

  lemma {:induction false} MemberOf(cfg: Config, text: string) returns (name: Name, t: Tree)
    requires ParseMember(cfg, text).Done?
    ensures var r := ParseMember(cfg, text);
            && name.Named? && NameOk(false, name) && TreeOk(cfg, t) && Follows(t, r.rest)
            && text == ShowName(false, name, ShowTree(cfg, t, r.rest))
            && r.events == [Key(PiecesMean(name.parts))] + TreeEvents(cfg, t)
    decreases |text|, 2
  {
    hide ParseValue, ShowTree, ScanString, ShowString, SkipWs;
    var parts := WordsOf(cfg, text);
    var rest := ScanString(text).rest;
    var gap := BlanksOf(rest);
    var colon := SkipWs(rest);
    Front(':', colon);
    var space := BlanksOf(colon[1..]);
    t := TreeOf(cfg, SkipWs(colon[1..]));
    name := Named(parts, gap, space);
  }

  lemma {:induction false} AfterMemberOf(cfg: Config, text: string, n: nat) returns (slots: seq<Slot>, end: End)
    requires ParseAfterMember(cfg, text, n).Done?
    ensures var r := ParseAfterMember(cfg, text, n);
            && SlotsOk(cfg, false, slots) && EndOk(cfg, false, end) && text == Tail(cfg, false, slots, end, "}" + r.rest)
            && r.events == SlotEvents(cfg, false, slots) + [EndObject(n + |slots|)]
    decreases |text|, 0
  {
    hide ParseMembers, ShowSlots;
    var r := ParseAfterMember(cfg, text, n);
    slots, end := [], Plain;
    assert [] + [EndObject(n)] == [EndObject(n)];
    if Peek(text) == ',' {
      Front(',', text);
      if cfg.trailingCommas && Peek(SkipWs(text[1..])) == '}' {
        end := EmptyOf(cfg, false, text[1..], '}');
      } else {
        slots, end := MembersOf(cfg, text[1..], n);
      }
    } else {
      Front('}', text);
    }
  }

  // ---- whole texts ----

  /** White space, a tree, and white space, unless the parser is to stop after the root. */
  predicate Document(cfg: Config, text: string, before: string, t: Tree, after: string, rest: string)
    requires TreeOk(cfg, t)
  {
    && AllBlank(before) && AllBlank(after) && text == before + ShowTree(cfg, t, after + rest)
    && Follows(t, after + rest) && (if cfg.stopWhenDone then after == "" else Peek(rest) == '\0')
  }

  ghost predicate Derives(cfg: Config, text: string, events: seq<Event>, rest: string) {
    exists before, t, after :: TreeOk(cfg, t) && Document(cfg, text, before, t, after, rest) && events == TreeEvents(cfg, t)
  }

  lemma {:induction false} DerivedIsAccepted(cfg: Config, text: string, before: string, t: Tree, after: string, rest: string)
    requires TreeOk(cfg, t) && Document(cfg, text, before, t, after, rest)
    ensures Recursive(cfg, text) == Accepted(TreeEvents(cfg, t), rest)
  {
    hide ParseValue, ShowTree, SkipWs;
    TreeReads(cfg, t, after + rest);
    Skipped(before, ShowTree(cfg, t, after + rest));
    if cfg.stopWhenDone {
      assert after + rest == rest;
    } else {
      Skipped(after, rest);
    }
  }

  lemma {:induction false} AcceptedIsDerived(cfg: Config, text: string)
    requires Recursive(cfg, text).Accepted?
    ensures Derives(cfg, text, Recursive(cfg, text).events, Recursive(cfg, text).rest)
  {
    hide ParseValue, ShowTree, SkipWs;
    var start := SkipWs(text);
    var before := BlanksOf(text);
    var t := TreeOf(cfg, start);
    var tail := ParseValue(cfg, start).rest;
    var after := "";
    if cfg.stopWhenDone {
      assert "" + tail == tail;
    } else {
      after := BlanksOf(tail);
    }
    assert Document(cfg, text, before, t, after, Recursive(cfg, text).rest);
  }

  /** All three parsers accept a text, with these events, if and only if the grammar derives it from a tree with these events. */
  lemma {:induction false} AcceptedIff(cfg: Config, text: string, events: seq<Event>, rest: string)
    ensures Recursive(cfg, text) == Accepted(events, rest) <==> Derives(cfg, text, events, rest)
    ensures JsonMachine.Iterative(cfg, text) == Accepted(events, rest) <==> Derives(cfg, text, events, rest)
    ensures JsonPull.Pull(cfg, text, JsonMachine.StartState, [], []) == Accepted(events, rest) <==> Derives(cfg, text, events, rest)
  {
    hide Recursive, Document;
    JsonPull.SameLanguage(cfg, text);
    if Recursive(cfg, text).Accepted? { AcceptedIsDerived(cfg, text); }
    if Derives(cfg, text, events, rest) {
      var before, t, after :| TreeOk(cfg, t) && Document(cfg, text, before, t, after, rest) && events == TreeEvents(cfg, t);
      DerivedIsAccepted(cfg, text, before, t, after, rest);
    }
  }
}
