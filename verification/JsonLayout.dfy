/**
 The layout of printed text, independent of the writer: what a formatter makes of any text that reads it character by
 character, drops the white space outside of strings, and knows no more than the brackets that are open.
 */
module JsonLayout {
  import opened JsonScan
  import opened JsonDom
  import opened JsonWriter
  import opened JsonRoundTrip

  // ---- the formatter ----

  datatype Open = Outermost | Bracket(inArray: bool, around: Open)

  datatype Within = Outside | Quoted | Escaped

  /** The brackets that are open, whether nothing has come since the last was opened, and where in a string this is. */
  datatype Place = Place(open: Open, first: bool, within: Within)

  const START := Place(Outermost, false, Outside)

  function Level(open: Open): nat {
    if open.Outermost? then 0 else 1 + Level(open.around)
  }

  /** What stands between these brackets takes a line for each element or member. */
  predicate Broken(f: Format, open: Open) {
    f.Pretty? && open.Bracket? && !(open.inArray && f.singleLineArray)
  }

  function Line(f: Format, level: nat): string {
    if f.Compact? then "" else "\n" + seq(level * f.indentCount, _ => f.indentChar)
  }

  /** The first thing after an opening bracket begins a line. */
  function Opening(f: Format, p: Place): string {
    if p.first && Broken(f, p.open) then Line(f, Level(p.open)) else ""
  }

  /** So does the closing bracket, one level further out, unless there is nothing between the brackets. */
  function Ending(f: Format, p: Place): string {
    if !p.first && Broken(f, p.open) then Line(f, Level(p.open.around)) else ""
  }

  /** What follows a comma or a colon. */
  function Gap(f: Format, open: Open, c: char): string {
    if c == ',' && Broken(f, open) then Line(f, Level(open))
    else if (c == ',' || c == ':') && f.Pretty? then " "
    else ""
  }

  function Around(open: Open): Open {
    if open.Bracket? then open.around else open
  }

  /** What is written for a character. */
  function Copy(f: Format, p: Place, c: char): string {
    if !p.within.Outside? then [c]
    else if IsWs(c) then ""
    else if c == ']' || c == '}' then Ending(f, p) + [c]
    else Opening(f, p) + [c] + Gap(f, p.open, c)
  }

  function Go(p: Place, c: char): Place {
    if p.within.Escaped? then Place(p.open, p.first, Quoted)
    else if p.within.Quoted? then Place(p.open, p.first, if c == '\"' then Outside else if c == '\\' then Escaped else Quoted)
    else if IsWs(c) then p
    else if c == ']' || c == '}' then Place(Around(p.open), false, Outside)
    else if c == '[' || c == '{' then Place(Bracket(c == '[', p.open), true, Outside)
    else Place(p.open, false, if c == '\"' then Quoted else Outside)
  }

  function Relaid(f: Format, text: string, p: Place): string {
    if text == "" then "" else Copy(f, p, text[0]) + Relaid(f, text[1..], Go(p, text[0]))
  }

  // ---- pieces of a text ----

  /** Wherever it stands, the formatter turns one piece into the other, and goes from one place to the other. */
  ghost predicate Turns(f: Format, p: Place, a: string, x: string, q: Place) {
    forall rest :: Relaid(f, a + rest, p) == x + Relaid(f, rest, q)
  }

  lemma {:induction false} CharTurns(f: Format, p: Place, c: char)
    ensures Turns(f, p, [c], Copy(f, p, c), Go(p, c))
  {
    hide Copy, Go;
    forall rest ensures Relaid(f, [c] + rest, p) == Copy(f, p, c) + Relaid(f, rest, Go(p, c)) {
      assert ([c] + rest)[0] == c && ([c] + rest)[1..] == rest;
    }
  }

  lemma {:induction false} NothingTurns(f: Format, p: Place)
    ensures Turns(f, p, "", "", p)
  {
    hide Relaid;
    forall rest ensures Relaid(f, "" + rest, p) == "" + Relaid(f, rest, p) {
      assert "" + rest == rest;
      assert "" + Relaid(f, rest, p) == Relaid(f, rest, p);
    }
  }

  lemma {:induction false} Grouped(a: string, b: string, c: string)
    ensures (a + b) + c == a + (b + c)
  {
  }

  lemma {:induction false} TurnsThen(f: Format, p: Place, a: string, x: string, q: Place, b: string, y: string, r: Place)
    requires Turns(f, p, a, x, q) && Turns(f, q, b, y, r)
    ensures Turns(f, p, a + b, x + y, r)
  {
    hide Relaid;
    forall rest ensures Relaid(f, (a + b) + rest, p) == (x + y) + Relaid(f, rest, r) {
      var more := b + rest;
      assert Relaid(f, a + more, p) == x + Relaid(f, more, q);
      assert Relaid(f, b + rest, q) == y + Relaid(f, rest, r);
      Grouped(a, b, rest);
      Grouped(x, y, Relaid(f, rest, r));
    }
  }

  lemma {:induction false} BlankTurns(f: Format, p: Place, ws: string)
    requires AllWs(ws) && p.within.Outside?
    ensures Turns(f, p, ws, "", p)
  {
    hide Turns;
    if ws == "" {
      NothingTurns(f, p);
    } else {
      CharTurns(f, p, ws[0]);
      BlankTurns(f, p, ws[1..]);
      TurnsThen(f, p, [ws[0]], "", p, ws[1..], "", p);
      assert ws == [ws[0]] + ws[1..] && "" == "" + "";
    }
  }

  function At(open: Open, first: bool): Place {
    Place(open, first, Outside)
  }

  /** The letters of literals and numerals. */
  predicate Letter(c: char) {
    'a' <= c <= 'z' || '0' <= c <= '9' || c == '-'
  }

  predicate Letters(s: string) {
    forall i | 0 <= i < |s| :: Letter(s[i])
  }

  lemma {:induction false} LettersTurn(f: Format, open: Open, s: string)
    requires Letters(s)
    ensures Turns(f, At(open, false), s, s, At(open, false))
  {
    hide Turns;
    var p := At(open, false);
    if s == "" {
      NothingTurns(f, p);
    } else {
      var c := s[0];
      CharTurns(f, p, c);
      assert Opening(f, p) + [c] + "" == [c];
      LettersTurn(f, open, s[1..]);
      TurnsThen(f, p, [c], [c], p, s[1..], s[1..], p);
      assert s == [c] + s[1..];
    }
  }

  lemma {:induction false} WordTurns(f: Format, open: Open, first: bool, s: string)
    requires Letters(s) && s != ""
    ensures Turns(f, At(open, first), s, Opening(f, At(open, first)) + s, At(open, false))
  {
    hide Turns;
    var p, q, c := At(open, first), At(open, false), s[0];
    CharTurns(f, p, c);
    LettersTurn(f, open, s[1..]);
    var o := Opening(f, p);
    assert Copy(f, p, c) == o + [c];
    TurnsThen(f, p, [c], o + [c], q, s[1..], s[1..], q);
    assert s == [c] + s[1..] && o + [c] + s[1..] == o + s;
  }

  // ---- strings ----

  function InString(open: Open): Place {
    Place(open, false, Quoted)
  }

  lemma {:induction false} PairTurns(f: Format, open: Open, e: char)
    ensures Turns(f, InString(open), ['\\', e], ['\\', e], InString(open))
  {
    hide Turns;
    var p := InString(open);
    CharTurns(f, p, '\\');
    CharTurns(f, Go(p, '\\'), e);
    TurnsThen(f, p, ['\\'], ['\\'], Go(p, '\\'), [e], [e], p);
    assert ['\\'] + [e] == ['\\', e];
  }

  lemma {:induction false} HexTurns(f: Format, open: Open, a: char, b: char)
    requires a != '\"' && a != '\\' && b != '\"' && b != '\\'
    ensures Turns(f, InString(open), ['\\', 'u', '0', '0', a, b], ['\\', 'u', '0', '0', a, b], InString(open))
  {
    hide Turns;
    var p := InString(open);
    PairTurns(f, open, 'u');
    CharTurns(f, p, '0');
    CharTurns(f, p, a);
    CharTurns(f, p, b);
    TurnsThen(f, p, ['\\', 'u'], ['\\', 'u'], p, ['0'], ['0'], p);
    TurnsThen(f, p, ['\\', 'u'] + ['0'], ['\\', 'u'] + ['0'], p, ['0'], ['0'], p);
    var u := ['\\', 'u'] + ['0'] + ['0'];
    TurnsThen(f, p, u, u, p, [a], [a], p);
    TurnsThen(f, p, u + [a], u + [a], p, [b], [b], p);
    assert u + [a] + [b] == ['\\', 'u', '0', '0', a, b];
  }

  lemma {:induction false} EscapeTurns(f: Format, open: Open, c: char)
    ensures Turns(f, InString(open), Escape(c), Escape(c), InString(open))
  {
    hide Turns;
    var s := Escape(c);
    if |s| == 1 {
      CharTurns(f, InString(open), c);
    } else if |s| == 2 {
      PairTurns(f, open, s[1]);
    } else {
      HexTurns(f, open, s[4], s[5]);
    }
  }

  lemma {:induction false} EscapesTurn(f: Format, open: Open, s: string)
    ensures Turns(f, InString(open), Escapes(s), Escapes(s), InString(open))
  {
    hide Turns, Escape;
    var p := InString(open);
    if s == "" {
      NothingTurns(f, p);
    } else {
      EscapeTurns(f, open, s[0]);
      EscapesTurn(f, open, s[1..]);
      TurnsThen(f, p, Escape(s[0]), Escape(s[0]), p, Escapes(s[1..]), Escapes(s[1..]), p);
    }
  }

  lemma {:induction false} QuoteTurns(f: Format, open: Open, first: bool, s: string)
    ensures Turns(f, At(open, first), Quote(s), Opening(f, At(open, first)) + Quote(s), At(open, false))
  {
    hide Turns, Escapes;
    var p, q, e := At(open, first), InString(open), Escapes(s);
    var o := Opening(f, p);
    CharTurns(f, p, '\"');
    assert Copy(f, p, '\"') == o + "\"";
    EscapesTurn(f, open, s);
    CharTurns(f, q, '\"');
    TurnsThen(f, p, "\"", o + "\"", q, e, e, q);
    TurnsThen(f, p, "\"" + e, o + "\"" + e, q, "\"", "\"", At(open, false));
    assert o + "\"" + e + "\"" == o + Quote(s);
  }

  // ---- what goes before values and before closing brackets ----

  lemma {:induction false} LineIs(f: Format, level: nat)
    requires f.Pretty?
    ensures Line(f, level) == "\n" + Indent(f, level)
  {
    RepeatIs(f.indentChar, level * f.indentCount);
  }

  lemma {:induction false} RepeatIs(c: char, n: nat)
    ensures Repeat(c, n) == seq(n, _ => c)
  {
    if n > 0 {
      RepeatIs(c, n - 1);
      assert seq(n, _ => c) == [c] + seq(n - 1, _ => c);
    }
  }

  lemma {:induction false} PrefixMeans(f: Format, open: Open, n: nat)
    requires open.Bracket?
    ensures var c := if open.inArray || n % 2 == 0 then ',' else ':';
            Prefix(f, Level(open), open.inArray, n) == if n == 0 then Opening(f, At(open, true)) else [c] + Gap(f, open, c)
  {
    hide Indent, Line;
    if f.Pretty? { LineIs(f, Level(open)); }
  }

  lemma {:induction false} PrefixTurns(f: Format, g: Format, open: Open, n: nat, d: nat)
    requires Usable(g) && open.Bracket?
    ensures var p := At(open, n == 0);
            Turns(f, p, Prefix(g, d, open.inArray, n), if n == 0 then "" else Prefix(f, Level(open), open.inArray, n), p)
  {
    hide Turns, Prefix, Space, Gap, Opening;
    var p, space := At(open, n == 0), Space(g, d, open.inArray, n);
    PrefixIs(g, d, open.inArray, n);
    PrefixMeans(f, open, n);
    BlankTurns(f, p, space);
    if n == 0 {
      assert "" + space == space;
    } else {
      var c := if open.inArray || n % 2 == 0 then ',' else ':';
      CharTurns(f, p, c);
      var x := [c] + Gap(f, open, c);
      assert Copy(f, p, c) == x by { NotFresh(f, p, c); }
      TurnsThen(f, p, [c], x, p, space, "", p);
      assert x + "" == x;
    }
  }

  lemma {:induction false} NotFresh(f: Format, p: Place, c: char)
    requires !p.first && p.within.Outside? && (c == ',' || c == ':')
    ensures Copy(f, p, c) == [c] + Gap(f, p.open, c)
  {
    hide Gap;
    assert Opening(f, p) == "";
  }

  /** A value or name with what goes before it. */
  lemma {:induction false} ItemTurns(f: Format, g: Format, open: Open, n: nat, d: nat, a: string, x: string)
    requires Usable(g) && open.Bracket?
    requires var p := At(open, n == 0); Turns(f, p, a, Opening(f, p) + x, At(open, false))
    ensures Turns(f, At(open, n == 0), Prefix(g, d, open.inArray, n) + a, Prefix(f, Level(open), open.inArray, n) + x, At(open, false))
  {
    hide Turns, Prefix, Gap;
    var p := At(open, n == 0);
    var before, o := Prefix(f, Level(open), open.inArray, n), Opening(f, p);
    PrefixTurns(f, g, open, n, d);
    PrefixMeans(f, open, n);
    TurnsThen(f, p, Prefix(g, d, open.inArray, n), if n == 0 then "" else before, p, a, o + x, At(open, false));
    if n == 0 {
      assert "" + (o + x) == before + x;
    } else {
      assert o == "" && before + ("" + x) == before + x;
    }
  }

  lemma {:induction false} ClosingMeans(f: Format, open: Open, empty: bool)
    requires open.Bracket?
    ensures Closing(f, Level(open.around), open.inArray, empty) == Ending(f, At(open, empty))
  {
    hide Indent, Line;
    if f.Pretty? { LineIs(f, Level(open.around)); }
  }

  /** A closing bracket with what goes before it. */
  lemma {:induction false} ClosingTurns(f: Format, g: Format, inArray: bool, open: Open, empty: bool, d: nat, c: char)
    requires Usable(g) && c == if inArray then ']' else '}'
    ensures Turns(f, At(Bracket(inArray, open), empty), Closing(g, d, inArray, empty) + [c],
                  Closing(f, Level(open), inArray, empty) + [c], At(open, false))
  {
    hide Turns, Closing, Ending;
    var p := At(Bracket(inArray, open), empty);
    ClosingIs(g, d, inArray, empty);
    ClosingMeans(f, p.open, empty);
    BlankTurns(f, p, Closing(g, d, inArray, empty));
    CharTurns(f, p, c);
    var x := Closing(f, Level(open), inArray, empty) + [c];
    TurnsThen(f, p, Closing(g, d, inArray, empty), "", p, [c], x, At(open, false));
    assert "" + x == x;
  }

  // ---- values ----

  lemma {:induction false} SignedLetters(n: int)
    ensures Letters(Itoa.Signed(n)) && Itoa.Signed(n) != ""
  {
    hide Text.Dec;
    Text.DecIs(if n < 0 then 0 - n else n);
  }

  lemma {:induction false} ScalarTurns(f: Format, g: Format, v: Value, d: nat, open: Open, first: bool)
    requires Proper(v) && DoubleFree(v) && !v.ArrayValue? && !v.ObjectValue?
    ensures Turns(f, At(open, first), ValueText(g, v, d), Opening(f, At(open, first)) + ValueText(f, v, Level(open)), At(open, false))
  {
    hide Turns, Opening;
    match v
    case StringValue(s) => QuoteTurns(f, open, first, s);
    case NumberValue(_, _) =>
      SignedLetters(Integer(v));
      WordTurns(f, open, first, Itoa.Signed(Integer(v)));
    case NullValue => WordTurns(f, open, first, "null");
    case BoolValue(b) => WordTurns(f, open, first, if b then "true" else "false");
    case _ =>
  }

  lemma {:induction false} ValueTurns(f: Format, g: Format, v: Value, d: nat, open: Open, first: bool)
    requires Proper(v) && DoubleFree(v) && Usable(g)
    ensures Turns(f, At(open, first), ValueText(g, v, d), Opening(f, At(open, first)) + ValueText(f, v, Level(open)), At(open, false))
    decreases v, 0
  {
    hide Turns, Opening, Closing, ElementsText, MembersText;
    match v
    case ArrayValue(es) =>
      ElementsTurn(f, g, es, 0, d + 1, Bracket(true, open));
      Enclosed(f, g, true, open, first, d, es == [], ElementsText(g, es, 0, d + 1), ElementsText(f, es, 0, Level(open) + 1));
    case ObjectValue(ms) =>
      MembersTurn(f, g, ms, 0, d + 1, Bracket(false, open));
      Enclosed(f, g, false, open, first, d, ms == [], MembersText(g, ms, 0, d + 1), MembersText(f, ms, 0, Level(open) + 1));
    case _ => ScalarTurns(f, g, v, d, open, first);
  }

  function Left(inArray: bool): char {
    if inArray then '[' else '{'
  }

  function Right(inArray: bool): char {
    if inArray then ']' else '}'
  }

  lemma {:induction false} Enclosed(f: Format, g: Format, inArray: bool, open: Open, first: bool, d: nat, empty: bool, a: string, x: string)
    requires Usable(g) && Turns(f, At(Bracket(inArray, open), true), a, x, At(Bracket(inArray, open), empty))
    ensures Turns(f, At(open, first), [Left(inArray)] + a + Closing(g, d, inArray, empty) + [Right(inArray)],
                  Opening(f, At(open, first)) + ([Left(inArray)] + x + Closing(f, Level(open), inArray, empty) + [Right(inArray)]),
                  At(open, false))
  {
    hide Turns, Closing, Opening;
    var p, q, l, r := At(open, first), At(Bracket(inArray, open), true), [Left(inArray)], [Right(inArray)];
    var o, c, e := Opening(f, p), Closing(g, d, inArray, empty), Closing(f, Level(open), inArray, empty);
    CharTurns(f, p, l[0]);
    assert Copy(f, p, l[0]) == o + l && Go(p, l[0]) == q;
    ClosingTurns(f, g, inArray, open, empty, d, r[0]);
    TurnsThen(f, p, l, o + l, q, a, x, At(Bracket(inArray, open), empty));
    TurnsThen(f, p, l + a, o + l + x, At(Bracket(inArray, open), empty), c + r, e + r, At(open, false));
    assert l + a + (c + r) == l + a + c + r;
    assert o + l + x + (e + r) == o + (l + x + e + r);
  }

  lemma {:induction false} ElementsTurn(f: Format, g: Format, es: seq<Value>, i: nat, d: nat, open: Open)
    requires ProperElements(es) && DoubleFreeElements(es) && Usable(g) && open.Bracket? && open.inArray
    ensures Turns(f, At(open, i == 0), ElementsText(g, es, i, d), ElementsText(f, es, i, Level(open)), At(open, i == 0 && es == []))
    decreases es, 1
  {
    hide Turns, Opening, Prefix, ValueText;
    var p, q := At(open, i == 0), At(open, false);
    if es == [] {
      NothingTurns(f, p);
    } else {
      ValueTurns(f, g, es[0], d, open, i == 0);
      ItemTurns(f, g, open, i, d, ValueText(g, es[0], d), ValueText(f, es[0], Level(open)));
      ElementsTurn(f, g, es[1..], i + 1, d, open);
      TurnsThen(f, p, Prefix(g, d, true, i) + ValueText(g, es[0], d), Prefix(f, Level(open), true, i) + ValueText(f, es[0], Level(open)), q,
                ElementsText(g, es[1..], i + 1, d), ElementsText(f, es[1..], i + 1, Level(open)), q);
    }
  }

  lemma {:induction false} MemberTurns(f: Format, g: Format, member: Member, i: nat, d: nat, open: Open)
    requires ProperMember(member) && DoubleFreeMember(member) && Usable(g) && open.Bracket? && !open.inArray
    ensures Turns(f, At(open, i == 0), MemberText(g, member, i, d), MemberText(f, member, i, Level(open)), At(open, false))
    decreases member, 0
  {
    hide Turns, Opening, Prefix, ValueText, Quote;
    var p, q, name, v, l := At(open, i == 0), At(open, false), Quote(member.name.s), member.value, Level(open);
    QuoteTurns(f, open, i == 0, member.name.s);
    ItemTurns(f, g, open, 2 * i, d, name, name);
    ValueTurns(f, g, v, d, open, false);
    ItemTurns(f, g, open, 2 * i + 1, d, ValueText(g, v, d), ValueText(f, v, l));
    TurnsThen(f, p, Prefix(g, d, false, 2 * i) + name, Prefix(f, l, false, 2 * i) + name, q,
              Prefix(g, d, false, 2 * i + 1) + ValueText(g, v, d), Prefix(f, l, false, 2 * i + 1) + ValueText(f, v, l), q);
    Paired(Prefix(g, d, false, 2 * i), name, Prefix(g, d, false, 2 * i + 1), ValueText(g, v, d));
    Paired(Prefix(f, l, false, 2 * i), name, Prefix(f, l, false, 2 * i + 1), ValueText(f, v, l));
  }

  lemma {:induction false} MembersTurn(f: Format, g: Format, ms: seq<Member>, i: nat, d: nat, open: Open)
    requires ProperMembers(ms) && DoubleFreeMembers(ms) && Usable(g) && open.Bracket? && !open.inArray
    ensures Turns(f, At(open, i == 0), MembersText(g, ms, i, d), MembersText(f, ms, i, Level(open)), At(open, i == 0 && ms == []))
    decreases ms, 1
  {
    hide Turns, MemberText;
    var p, q := At(open, i == 0), At(open, false);
    if ms == [] {
      NothingTurns(f, p);
    } else {
      MemberTurns(f, g, ms[0], i, d, open);
      MembersTurn(f, g, ms[1..], i + 1, d, open);
      TurnsThen(f, p, MemberText(g, ms[0], i, d), MemberText(f, ms[0], i, Level(open)), q,
                MembersText(g, ms[1..], i + 1, d), MembersText(f, ms[1..], i + 1, Level(open)), q);
    }
  }

  /** In whatever format a value was printed, the formatter makes of it the text that is printed in the other format. */
  lemma {:induction false} Reformatted(f: Format, g: Format, v: Value)
    requires Proper(v) && DoubleFree(v) && Usable(g)
    ensures Relaid(f, ValueText(g, v, 0), START) == ValueText(f, v, 0)
  {
    hide ValueText, Relaid;
    ValueTurns(f, g, v, 0, Outermost, false);
    var a, x := ValueText(g, v, 0), ValueText(f, v, 0);
    assert Relaid(f, a + "", START) == (Opening(f, START) + x) + Relaid(f, "", At(Outermost, false));
    assert Relaid(f, "", At(Outermost, false)) == "" by { NothingRelaid(f, START); }
    assert a + "" == a && ("" + x) + "" == x;
  }

  lemma {:induction false} NothingRelaid(f: Format, p: Place)
    ensures Relaid(f, "", p) == ""
  {
  }
}
