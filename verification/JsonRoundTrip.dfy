/**
 Printing and parsing are inverse: the text that either writer prints of a value, in any format, parses to events
 that build the same value.
 */
module JsonRoundTrip {
  import opened Text
  import opened JsonScan
  import opened JsonGrammar
  import opened JsonDom
  import opened JsonWriter

  // ---- strings ----

  lemma {:induction false} SimpleEscapeReads(c: char, e: char, more: string, sofar: string)
    requires Escape(c) == ['\\', e] && Unescape(e) == Just(c)
    ensures ScanChars(Escape(c) + more, sofar) == ScanChars(more, sofar + [c])
  {
    var text := ['\\', e] + more;
    assert text[1..][0] == e && text[2..] == more;
    assert ScanEscape(text) == Ok([c], more);
  }

  lemma {:induction false} HexDigitReads(d: nat)
    requires d < 16
    ensures HexDigit(HexChar(d)) == SomeNat(d)
  {
  }

  lemma {:induction false} HexEscapeReads(c: char, more: string, sofar: string)
    requires c < ' ' && Escape(c) == ['\\', 'u', '0', '0', HexChar(c as int / 16), HexChar(c as int % 16)]
    ensures ScanChars(Escape(c) + more, sofar) == ScanChars(more, sofar + [c])
  {
    var text := Escape(c) + more;
    var rest := text[2..];
    HexDigitReads(c as int / 16);
    HexDigitReads(c as int % 16);
    assert text[1..][0] == 'u';
    assert rest[0] == '0' && rest[1] == '0' && rest[2] == HexChar(c as int / 16) && rest[3] == HexChar(c as int % 16);
    assert Hex4(rest) == SomeNat(c as int);
    assert rest[4..] == more;
    assert ScanEscape(text) == Ok([c], more);
  }

  lemma {:induction false} PlainReads(c: char, more: string, sofar: string)
    requires c >= ' ' && c != '\"' && c != '\\'
    ensures ScanChars([c] + more, sofar) == ScanChars(more, sofar + [c])
  {
    assert ([c] + more)[1..] == more;
  }

  lemma {:induction false} CharReads(c: char, more: string, sofar: string)
    ensures ScanChars(Escape(c) + more, sofar) == ScanChars(more, sofar + [c])
  {
    if c == '\"' { SimpleEscapeReads(c, '\"', more, sofar); }
    else if c == '\\' { SimpleEscapeReads(c, '\\', more, sofar); }
    else if c as int == 8 { SimpleEscapeReads(c, 'b', more, sofar); }
    else if c as int == 9 { SimpleEscapeReads(c, 't', more, sofar); }
    else if c as int == 10 { SimpleEscapeReads(c, 'n', more, sofar); }
    else if c as int == 12 { SimpleEscapeReads(c, 'f', more, sofar); }
    else if c as int == 13 { SimpleEscapeReads(c, 'r', more, sofar); }
    else if c < ' ' { HexEscapeReads(c, more, sofar); }
    else { PlainReads(c, more, sofar); }
  }

  lemma {:induction false} Rebracketed(a: string, b: string, c: string)
    ensures a + b + c == a + (b + c)
  {
  }

  lemma {:induction false} QuoteEnds(rest: string, sofar: string)
    ensures ScanChars("\"" + rest, sofar) == Ok(sofar, rest)
  {
    assert ("\"" + rest)[1..] == rest;
  }

  lemma {:induction false} EscapesRead(s: string, rest: string, sofar: string)
    ensures ScanChars(Escapes(s) + ("\"" + rest), sofar) == Ok(sofar + s, rest)
    decreases |s|
  {
    hide Escape, ScanChars;
    var end := "\"" + rest;
    if s == "" {
      QuoteEnds(rest, sofar);
      assert "" + end == end && sofar + "" == sofar;
    } else {
      var first, others := Escape(s[0]), Escapes(s[1..]);
      Rebracketed(first, others, end);
      CharReads(s[0], others + end, sofar);
      EscapesRead(s[1..], rest, sofar + [s[0]]);
      assert (sofar + [s[0]]) + s[1..] == sofar + s;
    }
  }

  /** Every string, with any characters whatever, survives quoting. */
  lemma {:induction false} QuoteReads(s: string, rest: string)
    ensures Peek(Quote(s) + rest) == '\"' && ScanString(Quote(s) + rest) == Ok(s, rest)
  {
    var text := Quote(s) + rest;
    assert text[1..] == Escapes(s) + ("\"" + rest);
    EscapesRead(s, rest, "");
    assert "" + s == s;
  }

  // ---- numbers ----

  /** What follows does not continue a number. */
  predicate Delimited(rest: string) {
    var c := Peek(rest);
    !IsDigit(c) && c != '.' && c != 'e' && c != 'E'
  }

  lemma {:induction false} DecReads(n: nat, rest: string)
    requires Delimited(rest)
    ensures IntegerPart(Dec(n) + rest) == Dec(n) && (Dec(n) + rest)[|Dec(n)|..] == rest
    ensures ValueFrom(Dec(n), 0) == n && Dec(n) != "" && Peek(Dec(n) + rest) != '-' && IsDigit(Peek(Dec(n) + rest))
  {
    DecIs(n);
    DigitRunIs(Dec(n), rest);
  }

  /** The narrowest event for the digits of a number is the event that a reader reports for it. */
  lemma {:induction false} EventMatches(n: int)
    requires 0 - TWO63 <= n < TWO64
    ensures Number(n).bits < TWO64 && Integer(Number(n)) == n
    ensures IntegerEvent(n < 0, if n < 0 then 0 - n else n) == SomeEvent(EventOf(Number(n), Reading))
  {
    IntegerIs(n);
  }

  lemma {:induction false} NumberScans(cfg: Config, text: string, unsigned: string, digits: string, rest: string)
    requires unsigned == if Peek(text) == '-' then text[1..] else text
    requires digits == IntegerPart(unsigned) && digits != "" && unsigned[|digits|..] == rest && Delimited(rest)
    requires IntegerEvent(Peek(text) == '-', ValueFrom(digits, 0)).SomeEvent?
    ensures ScanNumber(cfg, text) == Ok(IntegerEvent(Peek(text) == '-', ValueFrom(digits, 0)).ev, rest)
  {
    assert ScanFraction(rest) == Ok(false, rest) && ScanExponent(rest) == Ok(false, rest);
  }

  lemma {:induction false} NaturalReads(cfg: Config, n: nat, rest: string)
    requires Delimited(rest) && IntegerEvent(false, n).SomeEvent?
    ensures ScanNumber(cfg, Dec(n) + rest) == Ok(IntegerEvent(false, n).ev, rest) && IsDigit(Peek(Dec(n) + rest))
  {
    DecReads(n, rest);
    NumberScans(cfg, Dec(n) + rest, Dec(n) + rest, Dec(n), rest);
  }

  lemma {:induction false} NegativeReads(cfg: Config, n: nat, rest: string)
    requires Delimited(rest) && IntegerEvent(true, n).SomeEvent?
    ensures ScanNumber(cfg, "-" + Dec(n) + rest) == Ok(IntegerEvent(true, n).ev, rest) && Peek("-" + Dec(n) + rest) == '-'
  {
    var text := "-" + Dec(n) + rest;
    DecReads(n, rest);
    assert text[1..] == Dec(n) + rest && text[0] == '-';
    NumberScans(cfg, text, Dec(n) + rest, Dec(n), rest);
  }

  lemma {:induction false} NumberReads(cfg: Config, n: int, rest: string)
    requires Delimited(rest) && 0 - TWO63 <= n < TWO64
    ensures ScanNumber(cfg, Itoa.Signed(n) + rest) == Ok(EventOf(Number(n), Reading), rest)
    ensures var c := Peek(Itoa.Signed(n) + rest); c == '-' || IsDigit(c)
  {
    EventMatches(n);
    if n < 0 { NegativeReads(cfg, 0 - n, rest); } else { NaturalReads(cfg, n, rest); }
  }

  // ---- scalars ----

  lemma {:induction false} WordReads(word: string, rest: string, ev: Event)
    requires '\0' !in word
    ensures Expect(word + rest, word, ev) == Ok(ev, rest)
  {
    if word == "" {
      assert word + rest == rest;
    } else {
      assert (word + rest)[1..] == word[1..] + rest;
      WordReads(word[1..], rest, ev);
    }
  }

  /** The characters a value can begin with. */
  predicate Begins(c: char) {
    c == 'n' || c == 't' || c == 'f' || c == '\"' || c == '-' || IsDigit(c) || c == '[' || c == '{'
  }

  lemma {:induction false} ScalarReads(cfg: Config, f: Format, v: Value, d: nat, rest: string)
    requires Proper(v) && DoubleFree(v) && !v.ArrayValue? && !v.ObjectValue? && Delimited(rest)
    ensures var text := ValueText(f, v, d) + rest;
            Begins(Peek(text)) && ParseValue(cfg, text) == Done(Events(v, Reading), rest)
  {
    var text := ValueText(f, v, d) + rest;
    match v
    case NullValue =>
      assert text[1..] == "ull" + rest;
      WordReads("ull", rest, NullEvent);
    case BoolValue(b) =>
      assert text[1..] == (if b then "rue" else "alse") + rest;
      WordReads(if b then "rue" else "alse", rest, Bool(b));
    case NumberValue(_, _) =>
      NumberReads(cfg, Integer(v), rest);
    case StringValue(s) =>
      QuoteReads(s, rest);
  }

  // ---- white space ----

  predicate AllWs(ws: string) {
    forall i | 0 <= i < |ws| :: IsWs(ws[i])
  }

  lemma {:induction false} SkipsWs(ws: string, text: string)
    requires AllWs(ws)
    ensures SkipWs(ws + text) == SkipWs(text)
  {
    if ws == "" {
      assert ws + text == text;
    } else {
      assert (ws + text)[1..] == ws[1..] + text;
      SkipsWs(ws[1..], text);
    }
  }

  lemma {:induction false} RepeatWs(c: char, n: nat)
    requires IsWs(c)
    ensures AllWs(Repeat(c, n))
  {
    if n > 0 { RepeatWs(c, n - 1); }
  }

  /** The white space of a prefix, after its comma or colon. */
  function Space(f: Format, depth: nat, inArray: bool, count: nat): string {
    if f.Compact? then ""
    else if inArray then (if f.singleLineArray then (if count > 0 then " " else "") else "\n" + Indent(f, depth))
    else if count % 2 == 1 then " "
    else "\n" + Indent(f, depth)
  }

  /** A prefix is a comma or a colon, unless it is the first of its level, and then white space. */
  lemma {:induction false} PrefixIs(f: Format, depth: nat, inArray: bool, count: nat)
    requires Usable(f)
    ensures AllWs(Space(f, depth, inArray, count))
    ensures Prefix(f, depth, inArray, count) ==
            (if count == 0 then "" else if inArray || count % 2 == 0 then "," else ":") + Space(f, depth, inArray, count)
  {
    if f.Pretty? {
      RepeatWs(f.indentChar, depth * f.indentCount);
    }
  }

  lemma {:induction false} ClosingIs(f: Format, depth: nat, inArray: bool, empty: bool)
    requires Usable(f)
    ensures AllWs(Closing(f, depth, inArray, empty))
  {
    if f.Pretty? {
      RepeatWs(f.indentChar, depth * f.indentCount);
    }
  }

  // ---- the grammar on texts with white space ----

  /** A text at which a value begins. */
  predicate AtBegin(text: string) {
    Begins(Peek(text))
  }

  /** After a bracket, a comma or a colon, white space is skipped. */
  lemma {:induction false} Opens(c: char, ws: string, more: string)
    requires AllWs(ws) && !IsWs(Peek(more))
    ensures var text := [c] + (ws + more); Peek(text) == c && SkipWs(text[1..]) == more && (!IsWs(c) ==> SkipWs(text) == text)
  {
    var text := [c] + (ws + more);
    SkipsWs(ws, more);
    assert text[1..] == ws + more;
  }

  lemma {:induction false} Ends(ws: string, c: char, rest: string)
    requires AllWs(ws) && !IsWs(c)
    ensures var text := SkipWs(ws + ([c] + rest)); Peek(text) == c && text == [c] + rest && text[1..] == rest
  {
    SkipsWs(ws, [c] + rest);
    assert ([c] + rest)[1..] == rest;
  }

  lemma {:induction false} ParsesEmptyArray(cfg: Config, text: string, ws: string, rest: string)
    requires AllWs(ws) && text == "[" + (ws + ("]" + rest))
    ensures ParseValue(cfg, text) == Done([StartArray] + [EndArray(0)], rest)
  {
    Opens('[', ws, "]" + rest);
    Ends("", ']', rest);
  }

  lemma {:induction false} ParsesArray(cfg: Config, text: string, space: string, more: string, events: seq<Event>, rest: string)
    requires AllWs(space) && text == "[" + (space + more)
    requires AtBegin(more) && ParseElements(cfg, more, 0) == Done(events, rest)
    ensures AtBegin(text) && ParseValue(cfg, text) == Done([StartArray] + events, rest)
  {
    hide ParseValue, ParseElements, SkipWs;
    Opens('[', space, more);
    ParsesArrayBody(cfg, text, more, events, rest);
  }

  lemma {:induction false} ParsesArrayBody(cfg: Config, text: string, more: string, events: seq<Event>, rest: string)
    requires Peek(text) == '[' && SkipWs(text[1..]) == more
    requires AtBegin(more) && ParseElements(cfg, more, 0) == Done(events, rest)
    ensures ParseValue(cfg, text) == Done([StartArray] + events, rest)
  {
    hide ParseValue, ParseElements, SkipWs;
    ArrayIs(cfg, text);
    BodiesAre(cfg, more);
  }

  lemma {:induction false} ParsesElement(cfg: Config, text: string, n: nat, events: seq<Event>, tail: string, others: seq<Event>, rest: string)
    requires ParseValue(cfg, text) == Done(events, tail) && ParseAfterElement(cfg, SkipWs(tail), n + 1) == Done(others, rest)
    ensures ParseElements(cfg, text, n) == Done(events + others, rest)
  {
    ElementsIs(cfg, text, n);
  }

  lemma {:induction false} ParsesNextElement(cfg: Config, text: string, space: string, more: string, n: nat, r: Parsed)
    requires AllWs(space) && text == "," + (space + more) && AtBegin(more) && ParseElements(cfg, more, n) == r
    ensures ParseAfterElement(cfg, SkipWs(text), n) == r
  {
    hide ParseElements, ParseAfterElement, SkipWs;
    Opens(',', space, more);
    ParsesNextElementBody(cfg, text, more, n, r);
  }

  lemma {:induction false} ParsesNextElementBody(cfg: Config, text: string, more: string, n: nat, r: Parsed)
    requires Peek(text) == ',' && SkipWs(text[1..]) == more && AtBegin(more) && ParseElements(cfg, more, n) == r
    ensures ParseAfterElement(cfg, text, n) == r
  {
  }

  lemma {:induction false} ParsesEnds(cfg: Config, rest: string, n: nat)
    ensures ParseAfterElement(cfg, "]" + rest, n) == Done([EndArray(n)], rest)
    ensures ParseAfterMember(cfg, "}" + rest, n) == Done([EndObject(n)], rest)
  {
    assert ("]" + rest)[1..] == rest && ("}" + rest)[1..] == rest;
  }

  lemma {:induction false} ParsesEmptyObject(cfg: Config, text: string, ws: string, rest: string)
    requires AllWs(ws) && text == "{" + (ws + ("}" + rest))
    ensures ParseValue(cfg, text) == Done([StartObject] + [EndObject(0)], rest)
  {
    Opens('{', ws, "}" + rest);
    Ends("", '}', rest);
  }

  lemma {:induction false} ParsesObject(cfg: Config, text: string, space: string, more: string, events: seq<Event>, rest: string)
    requires AllWs(space) && text == "{" + (space + more)
    requires Peek(more) == '\"' && ParseMembers(cfg, more, 0) == Done(events, rest)
    ensures AtBegin(text) && ParseValue(cfg, text) == Done([StartObject] + events, rest)
  {
    Opens('{', space, more);
    ParsesObjectBody(cfg, text, more, events, rest);
  }

  lemma {:induction false} ParsesObjectBody(cfg: Config, text: string, more: string, events: seq<Event>, rest: string)
    requires Peek(text) == '{' && SkipWs(text[1..]) == more
    requires Peek(more) == '\"' && ParseMembers(cfg, more, 0) == Done(events, rest)
    ensures ParseValue(cfg, text) == Done([StartObject] + events, rest)
  {
    ObjectIs(cfg, text);
    BodiesAre(cfg, more);
  }

  lemma {:induction false} ParsesMember(cfg: Config, name: string, ws: string, value: string, events: seq<Event>, tail: string)
    requires AllWs(ws) && AtBegin(value) && ParseValue(cfg, value) == Done(events, tail)
    ensures Peek(Quote(name) + (":" + (ws + value))) == '\"'
    ensures ParseMember(cfg, Quote(name) + (":" + (ws + value))) == Done([Key(name)] + events, tail)
  {
    QuoteReads(name, ":" + (ws + value));
    Opens(':', ws, value);
  }

  lemma {:induction false} ParsesMembers(cfg: Config, text: string, n: nat, events: seq<Event>, tail: string, others: seq<Event>, rest: string)
    requires ParseMember(cfg, text) == Done(events, tail) && ParseAfterMember(cfg, SkipWs(tail), n + 1) == Done(others, rest)
    ensures ParseMembers(cfg, text, n) == Done(events + others, rest)
  {
    MembersIs(cfg, text, n);
  }

  lemma {:induction false} ParsesNextMember(cfg: Config, text: string, space: string, more: string, n: nat, r: Parsed)
    requires AllWs(space) && text == "," + (space + more) && Peek(more) == '\"' && ParseMembers(cfg, more, n) == r
    ensures ParseAfterMember(cfg, SkipWs(text), n) == r
  {
    hide ParseMembers, ParseAfterMember, SkipWs;
    Opens(',', space, more);
    ParsesNextMemberBody(cfg, text, more, n, r);
  }

  lemma {:induction false} ParsesNextMemberBody(cfg: Config, text: string, more: string, n: nat, r: Parsed)
    requires Peek(text) == ',' && SkipWs(text[1..]) == more && Peek(more) == '\"' && ParseMembers(cfg, more, n) == r
    ensures ParseAfterMember(cfg, text, n) == r
  {
  }

  // ---- the layout of arrays and objects ----

  /** The text of an array from element `i` on, with what follows the array. */
  function ArrayTail(f: Format, es: seq<Value>, i: nat, d: nat, rest: string): string
    requires ProperElements(es)
  {
    if es == [] then Closing(f, d, true, i == 0) + ("]" + rest)
    else
      (if i == 0 then "" else ",") + (Space(f, d + 1, true, i) + (ValueText(f, es[0], d + 1) + ArrayTail(f, es[1..], i + 1, d, rest)))
  }

  lemma {:induction false} Grouped(a: string, b: string, c: string, d: string, e: string)
    ensures a + b + c + d + e == a + (b + (c + (d + e)))
  {
  }

  lemma {:induction false} ArrayTailIs(f: Format, es: seq<Value>, i: nat, d: nat, rest: string)
    requires ProperElements(es) && Usable(f)
    ensures ElementsText(f, es, i, d + 1) + (Closing(f, d, true, i + |es| == 0) + ("]" + rest)) == ArrayTail(f, es, i, d, rest)
  {
    hide ValueText, Space, Closing;
    var end := Closing(f, d, true, i + |es| == 0) + ("]" + rest);
    if es == [] {
      assert "" + end == end;
    } else {
      ArrayTailIs(f, es[1..], i + 1, d, rest);
      PrefixIs(f, d + 1, true, i);
      Grouped(if i == 0 then "" else ",", Space(f, d + 1, true, i), ValueText(f, es[0], d + 1), ElementsText(f, es[1..], i + 1, d + 1), end);
    }
  }

  lemma {:induction false} Enclosed(a: string, body: string, end: string, b: string, rest: string)
    ensures a + body + end + b + rest == a + (body + (end + (b + rest)))
  {
  }

  lemma {:induction false} ArrayText(f: Format, es: seq<Value>, d: nat, rest: string)
    requires ProperElements(es) && Usable(f)
    ensures ValueText(f, ArrayValue(es), d) + rest == "[" + ArrayTail(f, es, 0, d, rest)
  {
    ArrayTailIs(f, es, 0, d, rest);
    Enclosed("[", ElementsText(f, es, 0, d + 1), Closing(f, d, true, es == []), "]", rest);
  }

  function ObjectTail(f: Format, ms: seq<Member>, i: nat, d: nat, rest: string): string
    requires ProperMembers(ms)
  {
    if ms == [] then Closing(f, d, false, i == 0) + ("}" + rest)
    else
      (if i == 0 then "" else ",") +
      (Space(f, d + 1, false, 2 * i) + (Entry(f, ms[0], i, d) + ObjectTail(f, ms[1..], i + 1, d, rest)))
  }

  /** A member after its prefix. */
  function Entry(f: Format, member: Member, i: nat, d: nat): string
    requires ProperMember(member)
  {
    Quote(member.name.s) + (":" + (Space(f, d + 1, false, 2 * i + 1) + ValueText(f, member.value, d + 1)))
  }

  lemma {:induction false} EntryGrouped(p: string, q: string, space: string, v: string)
    ensures p + q + (":" + space) + v == p + (q + (":" + (space + v)))
  {
  }

  lemma {:induction false} EntryBefore(q: string, space: string, v: string, tail: string)
    ensures q + (":" + (space + v)) + tail == q + (":" + (space + (v + tail)))
  {
  }

  lemma {:induction false} EventsGrouped(a: seq<Event>, b: seq<Event>, c: seq<Event>)
    ensures a + (b + c) == a + b + c
  {
  }

  lemma {:induction false} MemberTextIs(f: Format, member: Member, i: nat, d: nat)
    requires ProperMember(member) && Usable(f)
    ensures MemberText(f, member, i, d + 1) == (if i == 0 then "" else ",") + Space(f, d + 1, false, 2 * i) + Entry(f, member, i, d)
  {
    PrefixIs(f, d + 1, false, 2 * i);
    PrefixIs(f, d + 1, false, 2 * i + 1);
    assert Prefix(f, d + 1, false, 2 * i + 1) == ":" + Space(f, d + 1, false, 2 * i + 1);
    var p, q, v := (if i == 0 then "" else ",") + Space(f, d + 1, false, 2 * i), Quote(member.name.s), ValueText(f, member.value, d + 1);
    var space := Space(f, d + 1, false, 2 * i + 1);
    EntryGrouped(p, q, space, v);
  }

  lemma {:induction false} ObjectTailIs(f: Format, ms: seq<Member>, i: nat, d: nat, rest: string)
    requires ProperMembers(ms) && Usable(f)
    ensures MembersText(f, ms, i, d + 1) + (Closing(f, d, false, i + |ms| == 0) + ("}" + rest)) == ObjectTail(f, ms, i, d, rest)
  {
    hide Prefix, Closing, MemberText, Entry, Space;
    var end := Closing(f, d, false, i + |ms| == 0) + ("}" + rest);
    if ms == [] {
      assert "" + end == end;
    } else {
      ObjectTailIs(f, ms[1..], i + 1, d, rest);
      MemberTextIs(f, ms[0], i, d);
      Grouped(if i == 0 then "" else ",", Space(f, d + 1, false, 2 * i), Entry(f, ms[0], i, d), MembersText(f, ms[1..], i + 1, d + 1), end);
    }
  }

  lemma {:induction false} ObjectText(f: Format, ms: seq<Member>, d: nat, rest: string)
    requires ProperMembers(ms) && Usable(f)
    ensures ValueText(f, ObjectValue(ms), d) + rest == "{" + ObjectTail(f, ms, 0, d, rest)
  {
    ObjectTailIs(f, ms, 0, d, rest);
    Enclosed("{", MembersText(f, ms, 0, d + 1), Closing(f, d, false, ms == []), "}", rest);
  }

  /** What comes after a value inside an array or object does not continue it. */
  lemma {:induction false} TailsDelimited(f: Format, es: seq<Value>, ms: seq<Member>, i: nat, d: nat, rest: string)
    requires ProperElements(es) && ProperMembers(ms) && Usable(f) && i > 0
    ensures Delimited(ArrayTail(f, es, i, d, rest)) && Delimited(ObjectTail(f, ms, i, d, rest))
  {
    ClosingIs(f, d, true, false);
    ClosingIs(f, d, false, false);
  }

  // ---- values ----

  lemma {:induction false} ValueReads(cfg: Config, f: Format, v: Value, d: nat, rest: string)
    requires Proper(v) && DoubleFree(v) && Usable(f) && Delimited(rest)
    ensures AtBegin(ValueText(f, v, d) + rest) && ParseValue(cfg, ValueText(f, v, d) + rest) == Done(Events(v, Reading), rest)
    decreases v, 0
  {
    match v
    case ArrayValue(es) => ArrayReads(cfg, f, es, d, rest);
    case ObjectValue(ms) => ObjectReads(cfg, f, ms, d, rest);
    case _ => ScalarReads(cfg, f, v, d, rest);
  }

  lemma {:induction false} ArrayTailReads(cfg: Config, f: Format, es: seq<Value>, d: nat, rest: string, events: seq<Event>, tail: string)
    requires ProperElements(es) && Usable(f) && es != []
    requires AtBegin(FirstElement(f, es, 0, d, rest)) && ParseElements(cfg, FirstElement(f, es, 0, d, rest), 0) == Done(events, tail)
    ensures var text := "[" + ArrayTail(f, es, 0, d, rest); AtBegin(text) && ParseValue(cfg, text) == Done([StartArray] + events, tail)
  {
    PrefixIs(f, d + 1, true, 0);
    ArrayTailOpens(f, es, 0, d, rest);
    ParsesArray(cfg, "[" + ArrayTail(f, es, 0, d, rest), Space(f, d + 1, true, 0), FirstElement(f, es, 0, d, rest), events, tail);
  }

  lemma {:induction false} EmptyArrayReads(cfg: Config, f: Format, d: nat, rest: string)
    requires Usable(f)
    ensures var text := "[" + ArrayTail(f, [], 0, d, rest);
            AtBegin(text) && ParseValue(cfg, text) == Done([StartArray] + ([] + [EndArray(0)]), rest)
  {
    ClosingIs(f, d, true, true);
    ParsesEmptyArray(cfg, "[" + ArrayTail(f, [], 0, d, rest), Closing(f, d, true, true), rest);
    assert [] + [EndArray(0)] == [EndArray(0)];
  }

  lemma {:induction false} ArrayBodyReads(cfg: Config, f: Format, es: seq<Value>, d: nat, rest: string)
    requires ProperElements(es) && DoubleFreeElements(es) && Usable(f)
    ensures var text := "[" + ArrayTail(f, es, 0, d, rest);
            AtBegin(text) && ParseValue(cfg, text) == Done([StartArray] + (ElementEvents(es, Reading) + [EndArray(|es|)]), rest)
    decreases es, 2
  {
    if es == [] {
      EmptyArrayReads(cfg, f, d, rest);
    } else {
      ElementReads(cfg, f, es, 0, d, rest, |es|);
      ArrayTailReads(cfg, f, es, d, rest, ElementEvents(es, Reading) + [EndArray(|es|)], rest);
    }
  }

  lemma {:induction false} ArrayReads(cfg: Config, f: Format, es: seq<Value>, d: nat, rest: string)
    requires ProperElements(es) && DoubleFreeElements(es) && Usable(f)
    ensures var text := ValueText(f, ArrayValue(es), d) + rest;
            AtBegin(text) && ParseValue(cfg, text) == Done(Events(ArrayValue(es), Reading), rest)
    decreases es, 3
  {
    ArrayBodyReads(cfg, f, es, d, rest);
    ArrayText(f, es, d, rest);
    EventsGrouped([StartArray], ElementEvents(es, Reading), [EndArray(|es|)]);
    Same(cfg, "[" + ArrayTail(f, es, 0, d, rest), ValueText(f, ArrayValue(es), d) + rest,
         [StartArray] + (ElementEvents(es, Reading) + [EndArray(|es|)]), Events(ArrayValue(es), Reading), rest);
  }

  /** The text of an array from the first character of an element on. */
  function FirstElement(f: Format, es: seq<Value>, i: nat, d: nat, rest: string): string
    requires ProperElements(es) && es != []
  {
    ValueText(f, es[0], d + 1) + ArrayTail(f, es[1..], i + 1, d, rest)
  }

  lemma {:induction false} ArrayTailOpens(f: Format, es: seq<Value>, i: nat, d: nat, rest: string)
    requires ProperElements(es) && es != []
    ensures ArrayTail(f, es, i, d, rest) == (if i == 0 then "" else ",") + (Space(f, d + 1, true, i) + FirstElement(f, es, i, d, rest))
    ensures i == 0 ==> ArrayTail(f, es, i, d, rest) == Space(f, d + 1, true, i) + FirstElement(f, es, i, d, rest)
  {
    var all := Space(f, d + 1, true, i) + FirstElement(f, es, i, d, rest);
    assert "" + all == all;
  }

  lemma {:induction false} ElementReads(cfg: Config, f: Format, es: seq<Value>, i: nat, d: nat, rest: string, count: nat)
    requires ProperElements(es) && DoubleFreeElements(es) && Usable(f) && es != [] && count == i + |es|
    ensures AtBegin(FirstElement(f, es, i, d, rest))
    ensures ParseElements(cfg, FirstElement(f, es, i, d, rest), i) == Done(ElementEvents(es, Reading) + [EndArray(count)], rest)
    decreases es, 1
  {
    var tail, end := ArrayTail(f, es[1..], i + 1, d, rest), [EndArray(count)];
    TailsDelimited(f, es[1..], [], i + 1, d, rest);
    ValueReads(cfg, f, es[0], d + 1, tail);
    ElementsRead(cfg, f, es[1..], i + 1, d, rest, count);
    ParsesElement(cfg, FirstElement(f, es, i, d, rest), i, Events(es[0], Reading), tail, ElementEvents(es[1..], Reading) + end, rest);
    EventsGrouped(Events(es[0], Reading), ElementEvents(es[1..], Reading), end);
  }

  /** From the comma, or the closing bracket, on. */
  lemma {:induction false} ElementsRead(cfg: Config, f: Format, es: seq<Value>, i: nat, d: nat, rest: string, count: nat)
    requires ProperElements(es) && DoubleFreeElements(es) && Usable(f) && i > 0 && count == i + |es|
    ensures ParseAfterElement(cfg, SkipWs(ArrayTail(f, es, i, d, rest)), i) == Done(ElementEvents(es, Reading) + [EndArray(count)], rest)
    decreases es, 3
  {
    if es == [] {
      ClosingIs(f, d, true, false);
      Ends(Closing(f, d, true, false), ']', rest);
      ParsesEnds(cfg, rest, i);
      assert [] + [EndArray(i)] == [EndArray(i)];
    } else {
      var space, more := Space(f, d + 1, true, i), FirstElement(f, es, i, d, rest);
      PrefixIs(f, d + 1, true, i);
      ElementReads(cfg, f, es, i, d, rest, count);
      ArrayTailOpens(f, es, i, d, rest);
      ParsesNextElement(cfg, ArrayTail(f, es, i, d, rest), space, more, i, Done(ElementEvents(es, Reading) + [EndArray(count)], rest));
    }
  }

  lemma {:induction false} ObjectTailReads(cfg: Config, f: Format, ms: seq<Member>, d: nat, rest: string, events: seq<Event>, tail: string)
    requires ProperMembers(ms) && Usable(f) && ms != []
    requires Peek(FirstEntry(f, ms, 0, d, rest)) == '\"' && ParseMembers(cfg, FirstEntry(f, ms, 0, d, rest), 0) == Done(events, tail)
    ensures var text := "{" + ObjectTail(f, ms, 0, d, rest); AtBegin(text) && ParseValue(cfg, text) == Done([StartObject] + events, tail)
  {
    PrefixIs(f, d + 1, false, 0);
    ObjectTailOpens(f, ms, 0, d, rest);
    ParsesObject(cfg, "{" + ObjectTail(f, ms, 0, d, rest), Space(f, d + 1, false, 0), FirstEntry(f, ms, 0, d, rest), events, tail);
  }

  lemma {:induction false} Same(cfg: Config, s: string, t: string, a: seq<Event>, b: seq<Event>, rest: string)
    requires s == t && a == b && AtBegin(s) && ParseValue(cfg, s) == Done(a, rest)
    ensures AtBegin(t) && ParseValue(cfg, t) == Done(b, rest)
  {
  }

  lemma {:induction false} EmptyObjectReads(cfg: Config, f: Format, d: nat, rest: string)
    requires Usable(f)
    ensures var text := "{" + ObjectTail(f, [], 0, d, rest);
            AtBegin(text) && ParseValue(cfg, text) == Done([StartObject] + ([] + [EndObject(0)]), rest)
  {
    ClosingIs(f, d, false, true);
    ParsesEmptyObject(cfg, "{" + ObjectTail(f, [], 0, d, rest), Closing(f, d, false, true), rest);
    assert [] + [EndObject(0)] == [EndObject(0)];
  }

  lemma {:induction false} ObjectBodyReads(cfg: Config, f: Format, ms: seq<Member>, d: nat, rest: string)
    requires ProperMembers(ms) && DoubleFreeMembers(ms) && Usable(f)
    ensures var text := "{" + ObjectTail(f, ms, 0, d, rest);
            AtBegin(text) && ParseValue(cfg, text) == Done([StartObject] + (MemberEvents(ms, Reading) + [EndObject(|ms|)]), rest)
    decreases ms, 3
  {
    if ms == [] {
      EmptyObjectReads(cfg, f, d, rest);
    } else {
      MembersRead(cfg, f, ms, 0, d, rest, |ms|);
      ObjectTailReads(cfg, f, ms, d, rest, MemberEvents(ms, Reading) + [EndObject(|ms|)], rest);
    }
  }

  lemma {:induction false} ObjectReads(cfg: Config, f: Format, ms: seq<Member>, d: nat, rest: string)
    requires ProperMembers(ms) && DoubleFreeMembers(ms) && Usable(f)
    ensures var text := ValueText(f, ObjectValue(ms), d) + rest;
            AtBegin(text) && ParseValue(cfg, text) == Done(Events(ObjectValue(ms), Reading), rest)
    decreases ms, 4
  {
    ObjectBodyReads(cfg, f, ms, d, rest);
    ObjectText(f, ms, d, rest);
    EventsGrouped([StartObject], MemberEvents(ms, Reading), [EndObject(|ms|)]);
    Same(cfg, "{" + ObjectTail(f, ms, 0, d, rest), ValueText(f, ObjectValue(ms), d) + rest,
         [StartObject] + (MemberEvents(ms, Reading) + [EndObject(|ms|)]), Events(ObjectValue(ms), Reading), rest);
  }

  /** The text of an object from the name of a member on. */
  function FirstEntry(f: Format, ms: seq<Member>, i: nat, d: nat, rest: string): string
    requires ProperMembers(ms) && ms != []
  {
    Entry(f, ms[0], i, d) + ObjectTail(f, ms[1..], i + 1, d, rest)
  }

  lemma {:induction false} ObjectTailOpens(f: Format, ms: seq<Member>, i: nat, d: nat, rest: string)
    requires ProperMembers(ms) && ms != []
    ensures ObjectTail(f, ms, i, d, rest) == (if i == 0 then "" else ",") + (Space(f, d + 1, false, 2 * i) + FirstEntry(f, ms, i, d, rest))
    ensures i == 0 ==> ObjectTail(f, ms, i, d, rest) == Space(f, d + 1, false, 2 * i) + FirstEntry(f, ms, i, d, rest)
  {
    var all := Space(f, d + 1, false, 2 * i) + FirstEntry(f, ms, i, d, rest);
    assert "" + all == all;
  }

  lemma {:induction false} EntryReads(cfg: Config, f: Format, member: Member, i: nat, d: nat, tail: string)
    requires ProperMember(member) && DoubleFreeMember(member) && Usable(f) && Delimited(tail)
    ensures var text := Entry(f, member, i, d) + tail;
            Peek(text) == '\"' && ParseMember(cfg, text) == Done(MemberEvent(member, Reading), tail)
    decreases member
  {
    var q, space, v := Quote(member.name.s), Space(f, d + 1, false, 2 * i + 1), ValueText(f, member.value, d + 1);
    PrefixIs(f, d + 1, false, 2 * i + 1);
    ValueReads(cfg, f, member.value, d + 1, tail);
    ParsesMember(cfg, member.name.s, space, v + tail, Events(member.value, Reading), tail);
    EntryBefore(q, space, v, tail);
  }

  lemma {:induction false} MembersRead(cfg: Config, f: Format, ms: seq<Member>, i: nat, d: nat, rest: string, count: nat)
    requires ProperMembers(ms) && DoubleFreeMembers(ms) && Usable(f) && ms != [] && count == i + |ms|
    ensures Peek(FirstEntry(f, ms, i, d, rest)) == '\"'
    ensures ParseMembers(cfg, FirstEntry(f, ms, i, d, rest), i) == Done(MemberEvents(ms, Reading) + [EndObject(count)], rest)
    decreases ms, 1
  {
    var tail, end := ObjectTail(f, ms[1..], i + 1, d, rest), [EndObject(count)];
    TailsDelimited(f, [], ms[1..], i + 1, d, rest);
    EntryReads(cfg, f, ms[0], i, d, tail);
    OtherMembersRead(cfg, f, ms[1..], i + 1, d, rest, count);
    ParsesMembers(cfg, FirstEntry(f, ms, i, d, rest), i, MemberEvent(ms[0], Reading), tail, MemberEvents(ms[1..], Reading) + end, rest);
    EventsGrouped(MemberEvent(ms[0], Reading), MemberEvents(ms[1..], Reading), end);
  }

  /** From the comma, or the closing brace, on. */
  lemma {:induction false} OtherMembersRead(cfg: Config, f: Format, ms: seq<Member>, i: nat, d: nat, rest: string, count: nat)
    requires ProperMembers(ms) && DoubleFreeMembers(ms) && Usable(f) && i > 0 && count == i + |ms|
    ensures ParseAfterMember(cfg, SkipWs(ObjectTail(f, ms, i, d, rest)), i) == Done(MemberEvents(ms, Reading) + [EndObject(count)], rest)
    decreases ms, 2
  {
    if ms == [] {
      ClosingIs(f, d, false, false);
      Ends(Closing(f, d, false, false), '}', rest);
      ParsesEnds(cfg, rest, i);
      assert [] + [EndObject(i)] == [EndObject(i)];
    } else {
      var space, more := Space(f, d + 1, false, 2 * i), FirstEntry(f, ms, i, d, rest);
      PrefixIs(f, d + 1, false, 2 * i);
      MembersRead(cfg, f, ms, i, d, rest, count);
      ObjectTailOpens(f, ms, i, d, rest);
      ParsesNextMember(cfg, ObjectTail(f, ms, i, d, rest), space, more, i, Done(MemberEvents(ms, Reading) + [EndObject(count)], rest));
    }
  }

  // ---- the law ----

  lemma {:induction false} RootAccepted(cfg: Config, text: string, events: seq<Event>)
    requires AtBegin(text) && ParseValue(cfg, text) == Done(events, "")
    ensures Recursive(cfg, text) == Accepted(events, "")
  {
    assert SkipWs(text) == text && Peek(text) != '\0';
  }

  lemma {:induction false} TextAccepted(cfg: Config, f: Format, v: Value)
    requires Proper(v) && DoubleFree(v) && Usable(f)
    ensures Recursive(cfg, ValueText(f, v, 0)) == Accepted(Events(v, Reading), "")
  {
    var text := ValueText(f, v, 0);
    ValueReads(cfg, f, v, 0, "");
    assert text + "" == text;
    RootAccepted(cfg, text, Events(v, Reading));
  }

  /**
   Whatever the format, the text of a value is accepted, all of it is read, and the events build the same value;
   the writer prints that text from the value's own events and from the reader's alike.
   */
  lemma {:induction false} PrintedTextParses(cfg: Config, f: Format, v: Value)
    requires Proper(v) && DoubleFree(v) && Usable(f)
    ensures Recursive(cfg, ValueText(f, v, 0)) == Accepted(Events(v, Reading), "")
    ensures Build([], Events(v, Reading)) == Stack([v])
    ensures WriteAll(Writing(f), FRESH, Events(v, Accepting)) == Wrote(Bottom(true), ValueText(f, v, 0))
    ensures WriteAll(Writing(f), FRESH, Events(v, Reading)) == Wrote(Bottom(true), ValueText(f, v, 0))
  {
    TextAccepted(cfg, f, v);
    EventsBuildValue(v, Reading);
    EventsWriteText(f, v, Accepting);
    EventsWriteText(f, v, Reading);
  }

  /** Two values that are printed alike are the same value. */
  lemma {:induction false} PrintingIsInjective(f: Format, g: Format, v: Value, w: Value)
    requires Proper(v) && DoubleFree(v) && Usable(f) && Proper(w) && DoubleFree(w) && Usable(g)
    requires ValueText(f, v, 0) == ValueText(g, w, 0)
    ensures v == w
  {
    var cfg := Config(false, false, (s: string) => TooBig);
    PrintedTextParses(cfg, f, v);
    PrintedTextParses(cfg, g, w);
    assert [v][0] == [w][0];
  }
}
