/**
 Numbers and strings as RFC 8259 writes them, sections 6 and 7: the parser reads exactly the texts that its grammar
 derives.
 */
module JsonLexemes {
  import opened Text
  import opened JsonScan
  import opened JsonEscapes

  // ---- numbers ----

  datatype Exponent = NoExponent | Power(e: char, sign: string, digits: string)

  /** An integer part, a fraction unless it is empty, and an exponent. */
  datatype Numeral = Numeral(minus: bool, digits: string, fraction: string, exponent: Exponent)

  predicate SomeDigits(s: string) {
    s != "" && AllDigits(s)
  }

  predicate ExponentOk(x: Exponent) {
    x.Power? ==> (x.e == 'e' || x.e == 'E') && (x.sign == "" || x.sign == "+" || x.sign == "-") && SomeDigits(x.digits)
  }

  /** No leading zero. */
  predicate NumeralOk(n: Numeral) {
    SomeDigits(n.digits) && (n.digits[0] == '0' ==> n.digits == "0") && AllDigits(n.fraction) && ExponentOk(n.exponent)
  }

  function ShowExponent(x: Exponent, rest: string): string {
    if x.NoExponent? then rest
    else if x.sign == "" then [x.e] + (x.digits + rest)
    else [x.e] + (x.sign + (x.digits + rest))
  }

  function ShowFraction(fraction: string, rest: string): string {
    if fraction == "" then rest else "." + (fraction + rest)
  }

  function ShowUnsigned(n: Numeral, rest: string): string {
    n.digits + ShowFraction(n.fraction, ShowExponent(n.exponent, rest))
  }

  /** The text of a number, and what follows it. */
  function ShowNumeral(n: Numeral, rest: string): string {
    if n.minus then "-" + ShowUnsigned(n, rest) else ShowUnsigned(n, rest)
  }

  /** What follows does not continue the number. */
  predicate Stops(n: Numeral, rest: string) {
    var c := Peek(rest);
    if n.exponent.Power? then !IsDigit(c)
    else
      c != 'e' && c != 'E'
      && if n.fraction != "" then !IsDigit(c) else c != '.' && (n.digits == "0" || !IsDigit(c))
  }

  /** An integer is reported in the narrowest type that holds it, any other number as the floating-point number it is. */
  predicate NumeralMeans(cfg: Config, n: Numeral, ev: Event)
    requires NumeralOk(n)
  {
    var v: int := if n.minus then 0 - ValueFrom(n.digits, 0) else ValueFrom(n.digits, 0);
    var narrow := -0x8000_0000 <= v < 0x1_0000_0000;
    var wide := -0x8000_0000_0000_0000 <= v < 0x1_0000_0000_0000_0000;
    if n.fraction == "" && n.exponent.NoExponent? && wide then
      ev == if n.minus then (if narrow then Int(v) else Int64(v)) else if narrow then Uint(v) else Uint64(v)
    else ev.Double? && cfg.fp(ShowNumeral(n, "")) == Finite(ev.bits)
  }

  lemma {:induction false} ShownThen(n: Numeral, rest: string)
    ensures ShowNumeral(n, rest) == ShowNumeral(n, "") + rest
  {
    ExponentThen(n.exponent, rest);
    var x, x' := ShowExponent(n.exponent, rest), ShowExponent(n.exponent, "");
    assert ShowFraction(n.fraction, x) == ShowFraction(n.fraction, x') + rest;
    assert ShowUnsigned(n, rest) == ShowUnsigned(n, "") + rest;
  }

  lemma {:induction false} ExponentThen(x: Exponent, rest: string)
    ensures ShowExponent(x, rest) == ShowExponent(x, "") + rest
  {
  }

  lemma {:induction false} DigitsThen(s: string, rest: string)
    requires SomeDigits(s)
    ensures IsDigit(Peek(s + rest)) && (s + rest)[|s|..] == rest
  {
  }

  lemma {:induction false} ExponentReads(x: Exponent, rest: string)
    requires ExponentOk(x) && if x.Power? then !IsDigit(Peek(rest)) else Peek(rest) != 'e' && Peek(rest) != 'E'
    ensures ScanExponent(ShowExponent(x, rest)) == Ok(x.Power?, rest)
  {
    if x.Power? {
      var text := ShowExponent(x, rest);
      DigitsThen(x.digits, rest);
      DigitRunIs(x.digits, rest);
      assert text[1..] == if x.sign == "" then x.digits + rest else x.sign + (x.digits + rest);
      if x.sign != "" { assert text[1..][0] == x.sign[0] && text[1..][1..] == x.digits + rest; }
    }
  }

  lemma {:induction false} FractionReads(fraction: string, rest: string)
    requires AllDigits(fraction) && if fraction == "" then Peek(rest) != '.' else !IsDigit(Peek(rest))
    ensures ScanFraction(ShowFraction(fraction, rest)) == Ok(fraction != "", rest)
  {
    if fraction != "" {
      DigitsThen(fraction, rest);
      DigitRunIs(fraction, rest);
      assert ("." + (fraction + rest))[1..] == fraction + rest;
    }
  }

  lemma {:induction false} IntegerReads(digits: string, rest: string)
    requires SomeDigits(digits) && (digits[0] == '0' ==> digits == "0") && (digits == "0" || !IsDigit(Peek(rest)))
    ensures IntegerPart(digits + rest) == digits && (digits + rest)[|digits|..] == rest
  {
    if digits != "0" { DigitRunIs(digits, rest); }
  }

  /** What follows the integer part does not continue it. */
  lemma {:induction false} AfterDigits(n: Numeral, rest: string)
    requires NumeralOk(n) && Stops(n, rest)
    ensures var x := ShowExponent(n.exponent, rest);
            && (if n.fraction == "" then Peek(x) != '.' else !IsDigit(Peek(x)))
            && (n.digits == "0" || !IsDigit(Peek(ShowFraction(n.fraction, x))))
  {
  }

  lemma {:induction false} EventMeans(cfg: Config, n: Numeral, ev: Event)
    requires NumeralOk(n)
    ensures var exact := if n.fraction != "" || n.exponent.Power? then NoEvent else IntegerEvent(n.minus, ValueFrom(n.digits, 0));
            NumeralMeans(cfg, n, ev) <==>
            if exact.SomeEvent? then ev == exact.ev else ev.Double? && cfg.fp(ShowNumeral(n, "")) == Finite(ev.bits)
  {
    hide ValueFrom, ShowNumeral;
  }

  /** The scanner at the front of a numeral. */
  lemma {:induction false} NumeralScans(cfg: Config, n: Numeral, rest: string)
    requires NumeralOk(n) && Stops(n, rest)
    ensures var text := ShowNumeral(n, rest);
            var exact := if n.fraction != "" || n.exponent.Power? then NoEvent else IntegerEvent(n.minus, ValueFrom(n.digits, 0));
            |rest| <= |text| && ScanNumber(cfg, text) == NumberEnd(cfg, text, exact, rest)
  {
    hide ShowExponent, ShowFraction, ScanFraction, ScanExponent, NumberEnd, IntegerEvent, ValueFrom, IntegerPart;
    var text, x := ShowNumeral(n, rest), ShowExponent(n.exponent, rest);
    var tail := ShowFraction(n.fraction, x);
    AfterDigits(n, rest);
    StopsExponent(n, rest);
    IntegerReads(n.digits, tail);
    FractionReads(n.fraction, x);
    ExponentReads(n.exponent, rest);
    ShownThen(n, rest);
    UnsignedIs(n, rest);
  }

  lemma {:induction false} StopsExponent(n: Numeral, rest: string)
    requires Stops(n, rest)
    ensures if n.exponent.Power? then !IsDigit(Peek(rest)) else Peek(rest) != 'e' && Peek(rest) != 'E'
  {
  }

  lemma {:induction false} UnsignedIs(n: Numeral, rest: string)
    requires NumeralOk(n)
    ensures var text := ShowNumeral(n, rest);
            (Peek(text) == '-' <==> n.minus) && (if n.minus then text[1..] else text) == ShowUnsigned(n, rest)
  {
    var u := ShowUnsigned(n, rest);
    assert u[0] == n.digits[0];
    assert ("-" + u)[1..] == u;
  }

  /** However a number is written, it is read as what it means. */
  lemma {:induction false} NumeralReads(cfg: Config, n: Numeral, ev: Event, rest: string)
    requires NumeralOk(n) && Stops(n, rest) && NumeralMeans(cfg, n, ev)
    ensures ScanNumber(cfg, ShowNumeral(n, rest)) == Ok(ev, rest)
  {
    hide ScanNumber, IntegerEvent, NumeralMeans, ValueFrom, ShowNumeral;
    NumeralScans(cfg, n, rest);
    EventMeans(cfg, n, ev);
    ShownThen(n, rest);
    var text := ShowNumeral(n, rest);
    assert text[..|text| - |rest|] == ShowNumeral(n, "");
  }

  // ---- and nothing else is read as a number ----

  lemma {:induction false} RunOf(text: string)
    ensures text == DigitRun(text) + text[|DigitRun(text)|..]
    ensures IsDigit(Peek(text)) ==> SomeDigits(DigitRun(text)) && DigitRun(text)[0] == text[0]
  {
  }

  lemma {:induction false} ExponentOf(text: string) returns (x: Exponent)
    requires ScanExponent(text).Ok?
    ensures var r := ScanExponent(text);
            ExponentOk(x) && text == ShowExponent(x, r.rest) && (x.Power? <==> r.value)
            && if x.Power? then !IsDigit(Peek(r.rest)) else Peek(r.rest) != 'e' && Peek(r.rest) != 'E'
  {
    x := NoExponent;
    if Peek(text) == 'e' || Peek(text) == 'E' {
      var more := text[1..];
      assert text == [text[0]] + more;
      if Peek(more) == '+' || Peek(more) == '-' {
        RunOf(more[1..]);
        x := Power(text[0], [more[0]], DigitRun(more[1..]));
        assert more == [more[0]] + more[1..];
      } else {
        RunOf(more);
        x := Power(text[0], "", DigitRun(more));
      }
    }
  }

  lemma {:induction false} FractionOf(text: string) returns (fraction: string)
    requires ScanFraction(text).Ok?
    ensures var r := ScanFraction(text);
            AllDigits(fraction) && text == ShowFraction(fraction, r.rest) && (fraction != "" <==> r.value)
            && if fraction == "" then Peek(r.rest) != '.' else !IsDigit(Peek(r.rest))
  {
    fraction := "";
    if Peek(text) == '.' {
      RunOf(text[1..]);
      fraction := DigitRun(text[1..]);
      assert text == "." + text[1..];
    }
  }

  lemma {:induction false} IntegerOf(text: string) returns (digits: string)
    requires IntegerPart(text) != ""
    ensures digits == IntegerPart(text) && SomeDigits(digits) && (digits[0] == '0' ==> digits == "0")
    ensures text == digits + text[|digits|..] && (digits == "0" || !IsDigit(Peek(text[|digits|..])))
  {
    digits := IntegerPart(text);
    RunOf(text);
    assert Peek(text) == text[0];
  }

  /** Every number that is read is written by the grammar. */
  lemma {:induction false} NumeralOf(cfg: Config, text: string) returns (n: Numeral)
    requires ScanNumber(cfg, text).Ok?
    ensures var r := ScanNumber(cfg, text);
            NumeralOk(n) && Stops(n, r.rest) && text == ShowNumeral(n, r.rest) && NumeralMeans(cfg, n, r.value)
  {
    hide ScanFraction, ScanExponent, ShowFraction, ShowExponent, IntegerEvent, ValueFrom, IntegerPart, NumberEnd, NumeralMeans, Stops;
    var minus := Peek(text) == '-';
    var unsigned := if minus then text[1..] else text;
    var digits := IntegerOf(unsigned);
    var tail := unsigned[|digits|..];
    var fraction := FractionOf(tail);
    var more := ScanFraction(tail).rest;
    var exponent := ExponentOf(more);
    var rest := ScanExponent(more).rest;
    n := Numeral(minus, digits, fraction, exponent);
    if minus { assert text == "-" + unsigned; }
    assert text == ShowNumeral(n, rest);
    PartsStop(n, more, rest);
    ScannedMeans(cfg, n, rest, ScanNumber(cfg, text));
  }

  lemma {:induction false} PartsStop(n: Numeral, more: string, rest: string)
    requires if n.exponent.Power? then !IsDigit(Peek(rest)) else Peek(rest) != 'e' && Peek(rest) != 'E'
    requires more == ShowExponent(n.exponent, rest)
    requires if n.fraction == "" then Peek(more) != '.' else !IsDigit(Peek(more))
    requires n.digits == "0" || !IsDigit(Peek(ShowFraction(n.fraction, more)))
    ensures Stops(n, rest)
  {
  }

  lemma {:induction false} ScannedMeans(cfg: Config, n: Numeral, rest: string, r: Scan<Event>)
    requires NumeralOk(n) && Stops(n, rest) && r == ScanNumber(cfg, ShowNumeral(n, rest)) && r.Ok?
    ensures r.rest == rest && NumeralMeans(cfg, n, r.value)
  {
    hide ScanNumber, IntegerEvent, NumeralMeans, ValueFrom, ShowNumeral;
    NumeralScans(cfg, n, rest);
    EventMeans(cfg, n, r.value);
    ShownThen(n, rest);
    var text := ShowNumeral(n, rest);
    assert text[..|text| - |rest|] == ShowNumeral(n, "");
  }

  // ---- strings ----

  /** The parts that the parser reads: those of the grammar, and the lower half of a surrogate pair on its own. */
  predicate Readable(p: Part) {
    PartOk(p) || (p.Unicode? && WritesFour(p.digits, p.cp) && 0xDC00 <= p.cp <= 0xDFFF)
  }

  /** The text of a part, and what follows it. */
  function ShowPiece(p: Part, rest: string): string
    requires Readable(p)
  {
    match p
    case Raw(c) => [c] + rest
    case Short(i) => ['\\', LETTERS[i]] + rest
    case Unicode(digits, _) => ['\\', 'u'] + (digits + rest)
    case Pair(high, low, _) => ['\\', 'u'] + (high + (['\\', 'u'] + (low + rest)))
  }

  /** A code point is its UTF-8 sequence. */
  function PieceMeans(p: Part): string
    requires Readable(p)
  {
    match p
    case Raw(c) => [c]
    case Short(i) => [MEANT[i] as char]
    case Unicode(_, cp) => Encode(cp)
    case Pair(_, _, cp) => Encode(cp)
  }

  /** What is appended for an escaped code point is well-formed, and encodes it. */
  lemma {:induction false} PieceIsUtf8(p: Part)
    requires PartOk(p) && (p.Unicode? || p.Pair?)
    ensures Utf8.Grammatical(PieceMeans(p)) && Utf8.CodePoint(PieceMeans(p)) == p.cp
  {
    hide Utf8.Grammatical, Utf8.CodePoint, Encode;
    Utf8.EncodedIs(p.cp);
  }

  predicate AllReadable(ps: seq<Part>) {
    forall i | 0 <= i < |ps| :: Readable(ps[i])
  }

  function ShowPieces(ps: seq<Part>, rest: string): string
    requires AllReadable(ps)
  {
    if ps == [] then rest else ShowPiece(ps[0], ShowPieces(ps[1..], rest))
  }

  function PiecesMean(ps: seq<Part>): string
    requires AllReadable(ps)
  {
    if ps == [] then "" else PieceMeans(ps[0]) + PiecesMean(ps[1..])
  }

  /** A string after its opening quote. */
  function ShowString(ps: seq<Part>, rest: string): string
    requires AllReadable(ps)
  {
    ShowPieces(ps, "\"" + rest)
  }

  lemma {:induction false} QuoteCloses(rest: string, sofar: string)
    ensures ScanChars("\"" + rest, sofar) == Ok(sofar, rest)
  {
    assert ("\"" + rest)[1..] == rest;
  }

  lemma {:induction false} PieceReads(p: Part, rest: string, sofar: string)
    requires Readable(p)
    ensures ScanChars(ShowPiece(p, rest), sofar) == ScanChars(rest, sofar + PieceMeans(p))
  {
    hide ScanEscape, Encode, WritesFour;
    match p
    case Raw(c) => assert ([c] + rest)[1..] == rest;
    case Short(i) => ShortReads(i, rest);
    case Unicode(digits, cp) => OneUnicode(digits, cp, rest);
    case Pair(high, low, cp) => TwoUnicodes(high, low, cp, rest);
  }

  lemma {:induction false} PiecesRead(ps: seq<Part>, rest: string, sofar: string)
    requires AllReadable(ps)
    ensures ScanChars(ShowString(ps, rest), sofar) == Ok(sofar + PiecesMean(ps), rest)
    decreases |ps|
  {
    hide ScanChars, ShowPiece, PieceMeans, Readable;
    if ps == [] {
      QuoteCloses(rest, sofar);
      assert sofar + "" == sofar;
    } else {
      PieceReads(ps[0], ShowString(ps[1..], rest), sofar);
      PiecesRead(ps[1..], rest, sofar + PieceMeans(ps[0]));
      assert sofar + PieceMeans(ps[0]) + PiecesMean(ps[1..]) == sofar + (PieceMeans(ps[0]) + PiecesMean(ps[1..]));
    }
  }

  lemma {:induction false} HexSplit(text: string)
    requires Hex4(text).SomeNat?
    ensures |text| >= 4 && WritesFour(text[..4], Hex4(text).n) && text == text[..4] + text[4..]
  {
    Hex4Iff(text, Hex4(text).n);
  }

  lemma {:induction false} LetterOf(e: char) returns (i: nat)
    requires Unescape(e).Just?
    ensures i < 8 && e == LETTERS[i] && Unescape(e).c == MEANT[i] as char
  {
    i := match e
      case '\"' => 0
      case '\\' => 1
      case '/' => 2
      case 'b' => 3
      case 'f' => 4
      case 'n' => 5
      case 'r' => 6
      case _ => 7;
  }

  lemma {:induction false} EscapeOf(text: string) returns (p: Part)
    requires Peek(text) == '\\' && ScanEscape(text).Ok?
    ensures var r := ScanEscape(text); Readable(p) && text == ShowPiece(p, r.rest) && r.value == PieceMeans(p)
  {
    hide Encode, WritesFour, Hex4;
    var e, more := Peek(text[1..]), text[2..];
    assert text == ['\\', e] + more;
    if Unescape(e).Just? {
      var i := LetterOf(e);
      p := Short(i);
    } else {
      HexSplit(more);
      var hi := Hex4(more).n;
      if 0xD800 <= hi <= 0xDBFF {
        var tail := more[4..];
        assert tail == ['\\', 'u'] + tail[2..];
        HexSplit(tail[2..]);
        var lo := Hex4(tail[2..]).n;
        PairOf(hi, lo);
        p := Pair(more[..4], tail[2..][..4], (hi - 0xD800) * 1024 + (lo - 0xDC00) + 0x10000);
        assert tail[2..][4..] == tail[6..];
      } else {
        p := Unicode(more[..4], hi);
      }
    }
  }

  lemma {:induction false} PairOf(hi: nat, lo: nat)
    requires 0xD800 <= hi <= 0xDBFF && 0xDC00 <= lo <= 0xDFFF
    ensures var cp := (hi - 0xD800) * 1024 + (lo - 0xDC00) + 0x10000;
            cp <= 0x10FFFF && 0xD800 + (cp - 0x10000) / 1024 == hi && 0xDC00 + (cp - 0x10000) % 1024 == lo
  {
  }

  /** Every string that is read is written by readable parts. */
  lemma {:induction false} StringOf(text: string, sofar: string) returns (ps: seq<Part>)
    requires ScanChars(text, sofar).Ok?
    ensures var r := ScanChars(text, sofar); AllReadable(ps) && text == ShowString(ps, r.rest) && r.value == sofar + PiecesMean(ps)
    decreases |text|
  {
    hide ScanEscape, ShowPiece, PieceMeans;
    var r := ScanChars(text, sofar);
    var c := Peek(text);
    if c == '\"' {
      ps := [];
      assert text == "\"" + text[1..] && sofar + "" == sofar;
    } else {
      assert text != "" && c != '\0';
      var p, x, tail := Raw(c), [c], text[1..];
      if c == '\\' {
        p := EscapeOf(text);
        x := ScanEscape(text).value;
        tail := ScanEscape(text).rest;
      } else {
        RawOf(c, text);
      }
      var others := StringOf(tail, sofar + x);
      ps := [p] + others;
      assert ps[1..] == others;
      assert sofar + x + PiecesMean(others) == sofar + (x + PiecesMean(others));
    }
  }

  lemma {:induction false} RawOf(c: char, text: string)
    requires text != "" && text[0] == c && c as int >= 32 && c as int != 34 && c as int != 92
    ensures Readable(Raw(c)) && ShowPiece(Raw(c), text[1..]) == text && PieceMeans(Raw(c)) == [c]
  {
  }

  /** A string is read, with its meaning, if and only if it is a quote, readable parts, and another quote. */
  lemma {:induction false} StringIff(text: string, s: string, rest: string)
    requires Peek(text) == '\"'
    ensures ScanString(text) == Ok(s, rest)
       <==> exists ps :: AllReadable(ps) && text == "\"" + ShowString(ps, rest) && s == PiecesMean(ps)
  {
    hide ScanChars, ShowString, PiecesMean;
    assert text == "\"" + text[1..];
    if ScanString(text) == Ok(s, rest) {
      var ps := StringOf(text[1..], "");
      assert "" + PiecesMean(ps) == PiecesMean(ps);
    }
    forall ps | AllReadable(ps) && text == "\"" + ShowString(ps, rest) && s == PiecesMean(ps)
      ensures ScanString(text) == Ok(s, rest)
    {
      assert text[1..] == ShowString(ps, rest);
      PiecesRead(ps, rest, "");
      assert "" + s == s;
    }
  }

  /** A number is read, as an event, if and only if a numeral of the grammar writes it that means the event and ends there. */
  lemma {:induction false} NumberIff(cfg: Config, text: string, ev: Event, rest: string)
    ensures ScanNumber(cfg, text) == Ok(ev, rest)
       <==> exists n :: NumeralOk(n) && Stops(n, rest) && text == ShowNumeral(n, rest) && NumeralMeans(cfg, n, ev)
  {
    hide ScanNumber, ShowNumeral, NumeralOk, NumeralMeans, Stops;
    if ScanNumber(cfg, text) == Ok(ev, rest) {
      var n := NumeralOf(cfg, text);
    }
    forall n | NumeralOk(n) && Stops(n, rest) && text == ShowNumeral(n, rest) && NumeralMeans(cfg, n, ev)
      ensures ScanNumber(cfg, text) == Ok(ev, rest)
    {
      NumeralReads(cfg, n, ev, rest);
    }
  }
}
