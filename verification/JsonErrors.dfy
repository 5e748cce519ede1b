/**
 Which error a parser reports, and where: one for everything that can be missing, whatever comes before and after.
 */
module JsonErrors {
  import opened Text
  import opened JsonScan
  import opened JsonEscapes
  import opened JsonLexemes
  import opened JsonGrammar
  import opened JsonSyntax

  /** A character that is not white space, nor one of these. */
  predicate Other(c: char, expected: string) {
    !Blank(c) && c !in expected
  }

  lemma {:induction false} OtherIs(c: char, expected: string)
    requires Other(c, expected)
    ensures !IsWs(c) && forall i | 0 <= i < |expected| :: c != expected[i]
  {
  }

  /** Behind an opening brace and white space: neither a name nor the closing brace. */
  lemma {:induction false} MissName(cfg: Config, ws: string, c: char, rest: string)
    requires AllBlank(ws) && Other(c, "\"}")
    ensures ParseValue(cfg, "{" + (ws + ([c] + rest))) == Failed([StartObject], ObjectMissName, [c] + rest)
  {
    hide SkipWs;
    OtherIs(c, "\"}");
    var text := "{" + (ws + ([c] + rest));
    Behind('{', ws + ([c] + rest));
    Skipped(ws, [c] + rest);
    ObjectIs(cfg, text);
    BodiesAre(cfg, [c] + rest);
    assert [StartObject] + [] == [StartObject];
  }

  /** Behind a name: no colon. */
  lemma {:induction false} MissColon(cfg: Config, before: string, parts: seq<Part>, gap: string, c: char, rest: string)
    requires AllBlank(before) && AllReadable(parts) && AllBlank(gap) && Other(c, ":")
    ensures ParseValue(cfg, "{" + (before + ("\"" + ShowString(parts, gap + ([c] + rest)))))
         == Failed([StartObject, Key(PiecesMean(parts))], ObjectMissColon, [c] + rest)
  {
    hide SkipWs, ScanChars, ShowString;
    OtherIs(c, ":");
    var name := "\"" + ShowString(parts, gap + ([c] + rest));
    Behind('{', before + name);
    Skipped(before, name);
    Skipped(gap, [c] + rest);
    Behind('\"', ShowString(parts, gap + ([c] + rest)));
    PiecesRead(parts, gap + ([c] + rest), "");
    assert "" + PiecesMean(parts) == PiecesMean(parts);
    ObjectIs(cfg, "{" + (before + name));
    BodiesAre(cfg, name);
    assert [StartObject] + [Key(PiecesMean(parts))] == [StartObject, Key(PiecesMean(parts))];
  }

  /** Behind an element: neither a comma nor the closing bracket. */
  lemma {:induction false} MissBracket(cfg: Config, s: Slot, c: char, rest: string)
    requires SlotOk(cfg, true, s) && Other(c, ",]") && Follows(s.value, s.after + ([c] + rest))
    ensures ParseValue(cfg, "[" + ShowSlot(cfg, true, s, [c] + rest))
         == Failed([StartArray] + SlotEvent(cfg, true, s), ArrayMissCommaOrSquareBracket, [c] + rest)
  {
    hide SkipWs, ParseValue, ParseElements;
    OtherIs(c, ",]");
    var tail, entry := [c] + rest, Entry(cfg, true, s, [c] + rest);
    Behind('[', ShowSlot(cfg, true, s, tail));
    TreeReads(cfg, s.value, s.after + tail);
    Skipped(s.before, entry);
    Skipped(s.after, tail);
    ArrayIs(cfg, "[" + ShowSlot(cfg, true, s, tail));
    BodiesAre(cfg, entry);
    ElementsIs(cfg, entry, 0);
    assert SlotEvent(cfg, true, s) + [] == SlotEvent(cfg, true, s);
  }

  /** Behind a member: neither a comma nor the closing brace. */
  lemma {:induction false} MissBrace(cfg: Config, s: Slot, c: char, rest: string)
    requires SlotOk(cfg, false, s) && Other(c, ",}") && Follows(s.value, s.after + ([c] + rest))
    ensures ParseValue(cfg, "{" + ShowSlot(cfg, false, s, [c] + rest))
         == Failed([StartObject] + SlotEvent(cfg, false, s), ObjectMissCommaOrCurlyBracket, [c] + rest)
  {
    hide SkipWs, ParseValue, ParseMembers, ParseMember, ShowTree;
    OtherIs(c, ",}");
    var tail, entry := [c] + rest, Entry(cfg, false, s, [c] + rest);
    Behind('{', ShowSlot(cfg, false, s, tail));
    OneMember(cfg, s, tail);
    Skipped(s.before, entry);
    Skipped(s.after, tail);
    ObjectIs(cfg, "{" + ShowSlot(cfg, false, s, tail));
    BodiesAre(cfg, entry);
    MembersIs(cfg, entry, 0);
    assert SlotEvent(cfg, false, s) + [] == SlotEvent(cfg, false, s);
  }

  lemma {:induction false} OneMember(cfg: Config, s: Slot, tail: string)
    requires SlotOk(cfg, false, s) && Follows(s.value, s.after + tail)
    ensures var text := Entry(cfg, false, s, tail);
            Peek(text) == '\"' && ParseMember(cfg, text) == Done(SlotEvent(cfg, false, s), s.after + tail)
  {
    hide ParseValue, ScanChars, ShowString, ShowTree, SkipWs;
    TreeReads(cfg, s.value, s.after + tail);
    NameReads(s.name, ShowTree(cfg, s.value, s.after + tail));
  }

  /** Behind the root: more than white space. */
  lemma {:induction false} RootNotSingular(cfg: Config, before: string, t: Tree, after: string, c: char, rest: string)
    requires AllBlank(before) && TreeOk(cfg, t) && AllBlank(after) && Other(c, "\0") && Follows(t, after + ([c] + rest))
    requires !cfg.stopWhenDone
    ensures Recursive(cfg, before + ShowTree(cfg, t, after + ([c] + rest)))
         == Rejected(TreeEvents(cfg, t), DocumentRootNotSingular, [c] + rest)
  {
    hide ParseValue, ShowTree, SkipWs;
    OtherIs(c, "\0");
    TreeReads(cfg, t, after + ([c] + rest));
    Skipped(before, ShowTree(cfg, t, after + ([c] + rest)));
    Skipped(after, [c] + rest);
  }

  /** Nothing but white space. */
  lemma {:induction false} Empty(cfg: Config, ws: string)
    requires AllBlank(ws)
    ensures Recursive(cfg, ws) == Rejected([], DocumentEmpty, "")
  {
    Skipped(ws, "");
    assert ws + "" == ws;
  }

  /** A character that begins no value. */
  lemma {:induction false} InvalidValue(cfg: Config, c: char, rest: string)
    requires c !in "ntf\"[{-" && !IsDigit(c)
    ensures ParseValue(cfg, [c] + rest) == Failed([], ValueInvalid, [c] + rest)
  {
    forall i | 0 <= i < 7 ensures c != "ntf\"[{-"[i] { }
    assert c != "ntf\"[{-"[0] && c != "ntf\"[{-"[1] && c != "ntf\"[{-"[2] && c != "ntf\"[{-"[3];
    assert c != "ntf\"[{-"[4] && c != "ntf\"[{-"[5] && c != "ntf\"[{-"[6];
    assert IntegerPart([c] + rest) == "";
  }

  /** A literal that breaks off is invalid from there on. */
  lemma {:induction false} InvalidLiteral(cfg: Config, word: string, k: nat, rest: string)
    requires (word == "null" || word == "true" || word == "false") && 1 <= k < |word| && Peek(rest) != word[k]
    ensures ParseValue(cfg, word[..k] + rest) == Failed([], ValueInvalid, rest)
  {
    hide Expect;
    var front, back := word[1..k], word[k..];
    var ev := if word == "null" then NullEvent else Bool(word == "true");
    var text := word[..k] + rest;
    assert text[0] == word[0] && text[1..] == front + rest && front + back == word[1..];
    assert word[1..] == if word == "null" then "ull" else if word == "true" then "rue" else "alse";
    NoNull(word);
    LiteralBreaks(front, back, rest, ev);
  }

  lemma {:induction false} NoNull(word: string)
    requires word == "null" || word == "true" || word == "false"
    ensures '\0' !in word && '\0' !in word[1..]
  {
  }

  lemma {:induction false} LiteralBreaks(front: string, back: string, rest: string, ev: Event)
    requires back != "" && '\0' !in front + back && Peek(rest) != back[0]
    ensures Expect(front + rest, front + back, ev) == Err(ValueInvalid, rest)
    decreases |front|
  {
    if front == "" {
      assert front + rest == rest && front + back == back;
    } else {
      assert (front + rest)[1..] == front[1..] + rest && (front + back)[1..] == front[1..] + back;
      assert forall c | c in front[1..] + back :: c in front + back;
      LiteralBreaks(front[1..], back, rest, ev);
    }
  }

  /** Behind the decimal point: no digit. */
  lemma {:induction false} MissFraction(cfg: Config, minus: bool, digits: string, rest: string)
    requires NumeralOk(Numeral(minus, digits, "", NoExponent)) && !IsDigit(Peek(rest))
    ensures ScanNumber(cfg, ShowNumeral(Numeral(minus, digits, "", NoExponent), "." + rest)) == Err(NumberMissFraction, rest)
  {
    hide ValueFrom, IntegerEvent, IntegerPart;
    var n := Numeral(minus, digits, "", NoExponent);
    UnsignedIs(n, "." + rest);
    IntegerReads(digits, "." + rest);
    Behind('.', rest);
  }

  /** Behind the exponent and its sign: no digit. */
  lemma {:induction false} MissExponent(cfg: Config, minus: bool, digits: string, fraction: string, sign: string, rest: string)
    requires NumeralOk(Numeral(minus, digits, fraction, NoExponent)) && !IsDigit(Peek(rest))
    requires sign == "+" || sign == "-" || (sign == "" && Peek(rest) != '+' && Peek(rest) != '-')
    ensures ScanNumber(cfg, ShowNumeral(Numeral(minus, digits, fraction, NoExponent), "e" + (sign + rest)))
         == Err(NumberMissExponent, rest)
  {
    hide ValueFrom, IntegerEvent, IntegerPart, ScanFraction, ShowFraction;
    var n, tail := Numeral(minus, digits, fraction, NoExponent), "e" + (sign + rest);
    Behind('e', sign + rest);
    UnsignedIs(n, tail);
    FractionFront(fraction, tail);
    IntegerReads(digits, ShowFraction(fraction, tail));
    FractionReads(fraction, tail);
    if sign == "" { assert sign + rest == rest; } else { assert (sign + rest)[1..] == rest && (sign + rest)[0] == sign[0]; }
  }

  lemma {:induction false} FractionFront(fraction: string, rest: string)
    requires !IsDigit(Peek(rest))
    ensures !IsDigit(Peek(ShowFraction(fraction, rest)))
  {
  }

  /** Inside a string: a control character, or the end of the text. */
  lemma {:induction false} StringBreaks(parts: seq<Part>, rest: string)
    requires AllReadable(parts)
    ensures Peek(rest) == '\0' ==> ScanChars(ShowPieces(parts, rest), "") == Err(StringMissQuotationMark, rest)
    ensures 0 < Peek(rest) as int < 32 ==> ScanChars(ShowPieces(parts, rest), "") == Err(StringInvalidEncoding, rest)
    ensures Peek(rest) == '\\' && ScanEscape(rest).Err? ==>
              ScanChars(ShowPieces(parts, rest), "") == Err(ScanEscape(rest).code, ScanEscape(rest).at)
  {
    var s := PiecesPassed(parts, rest, "");
  }

  lemma {:induction false} PiecesPassed(parts: seq<Part>, rest: string, sofar: string) returns (s: string)
    requires AllReadable(parts)
    ensures ScanChars(ShowPieces(parts, rest), sofar) == ScanChars(rest, s)
    decreases |parts|
  {
    hide ScanChars, ShowPiece, PieceMeans, Readable;
    s := sofar;
    if parts != [] {
      PieceReads(parts[0], ShowPieces(parts[1..], rest), sofar);
      s := PiecesPassed(parts[1..], rest, sofar + PieceMeans(parts[0]));
    }
  }

  /** The upper half of a surrogate pair without a lower half behind it. */
  lemma {:induction false} SurrogateBreaks(digits: string, cp: nat, more: string)
    requires WritesFour(digits, cp) && 0xD800 <= cp <= 0xDBFF && (Peek(more) != '\\' || Peek(more[1..]) != 'u')
    ensures var text := ['\\', 'u'] + (digits + more); ScanEscape(text) == Err(StringUnicodeSurrogateInvalid, text)
  {
    hide Hex4;
    FourLong(digits, cp);
    BehindU(digits + more);
    FourThen(digits, more);
    Hex4Iff(digits + more, cp);
  }

  lemma {:induction false} LowerHalfBreaks(digits: string, cp: nat, low: string, n: nat, more: string)
    requires WritesFour(digits, cp) && 0xD800 <= cp <= 0xDBFF && WritesFour(low, n) && !(0xDC00 <= n <= 0xDFFF)
    ensures var text := ['\\', 'u'] + (digits + (['\\', 'u'] + (low + more))); ScanEscape(text) == Err(StringUnicodeSurrogateInvalid, text)
  {
    FourLong(digits, cp);
    FourLong(low, n);
    hide Hex4, WritesFour;
    var tail := ['\\', 'u'] + (low + more);
    BehindU(digits + tail);
    FourThen(digits, tail);
    Hex4Iff(digits + tail, cp);
    BehindU(low + more);
    FourThen(low, more);
    Hex4Iff(low + more, n);
  }

  /** A number that floating point cannot hold. */
  lemma {:induction false} TooBigNumber(cfg: Config, n: Numeral, rest: string)
    requires NumeralOk(n) && Stops(n, rest) && NumberEvent(cfg, n).NoEvent?
    ensures ScanNumber(cfg, ShowNumeral(n, rest)) == Err(NumberTooBig, ShowNumeral(n, rest))
  {
    hide ScanNumber, IntegerEvent, NumeralMeans, ValueFrom, ShowNumeral;
    NumeralScans(cfg, n, rest);
    ShownThen(n, rest);
    var text := ShowNumeral(n, rest);
    assert text[..|text| - |rest|] == ShowNumeral(n, "");
    var exact := if n.fraction != "" || n.exponent.Power? then NoEvent else IntegerEvent(n.minus, ValueFrom(n.digits, 0));
    if exact.SomeEvent? { EventMeans(cfg, n, exact.ev); }
    match cfg.fp(ShowNumeral(n, ""))
    case TooBig =>
    case Finite(bits) => EventMeans(cfg, n, Double(bits));
  }
}
