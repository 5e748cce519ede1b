/**
 The scalar level of JSON: white space, literals, strings and numbers, read from the front of the remaining text.
 */
module JsonScan {
  import opened Text

  datatype ErrorCode =
    | DocumentEmpty | DocumentRootNotSingular | ValueInvalid
    | ObjectMissName | ObjectMissColon | ObjectMissCommaOrCurlyBracket | ArrayMissCommaOrSquareBracket
    | StringUnicodeEscapeInvalidHex | StringUnicodeSurrogateInvalid | StringEscapeInvalid
    | StringMissQuotationMark | StringInvalidEncoding
    | NumberTooBig | NumberMissFraction | NumberMissExponent

  datatype Event =
    | NullEvent
    | Bool(b: bool)
    | Int(n: int) | Uint(n: int) | Int64(n: int) | Uint64(n: int) | Double(bits: int)
    | String(s: string)
    | StartObject | Key(s: string) | EndObject(count: nat)
    | StartArray | EndArray(count: nat)

  /** A scalar and the text after it, or an error and the text that remains at its offset. */
  datatype Scan<T> = Ok(value: T, rest: string) | Err(code: ErrorCode, at: string)

  /** The value of a numeral with a fraction, an exponent or too many digits; floating point is not modelled. */
  datatype FpValue = TooBig | Finite(bits: int)

  datatype Config = Config(trailingCommas: bool, stopWhenDone: bool, fp: string -> FpValue)

  // ---- white space and literals ----

  predicate IsWs(c: char) {
    c == ' ' || c == '\n' || c == '\r' || c == '\t'
  }

  function SkipWs(text: string): (rest: string)
    ensures |rest| <= |text| && SuffixOf(rest, text) && !IsWs(Peek(rest))
  {
    if IsWs(Peek(text)) then SkipWs(text[1..]) else text
  }

  /** Consumes the letters of `word` one by one and stops at the first that differs. */
  function Expect(text: string, word: string, ev: Event): (r: Scan<Event>)
    requires '\0' !in word
    ensures r.Ok? ==> |r.rest| <= |text|
  {
    if word == "" then Ok(ev, text)
    else if Peek(text) == word[0] then Expect(text[1..], word[1..], ev)
    else Err(ValueInvalid, text)
  }

  // ---- strings ----

  function Unescape(e: char): MaybeChar {
    match e
    case '\"' => Just('\"')
    case '/' => Just('/')
    case '\\' => Just('\\')
    case 'b' => Just(8 as char)
    case 'f' => Just(12 as char)
    case 'n' => Just(10 as char)
    case 'r' => Just(13 as char)
    case 't' => Just(9 as char)
    case _ => Nothing
  }

  datatype MaybeNat = NoNat | SomeNat(n: nat)

  function HexDigit(c: char): (d: MaybeNat)
    ensures d.SomeNat? ==> d.n < 16
  {
    if '0' <= c <= '9' then SomeNat(c as int - '0' as int)
    else if 'A' <= c <= 'F' then SomeNat(c as int - 'A' as int + 10)
    else if 'a' <= c <= 'f' then SomeNat(c as int - 'a' as int + 10)
    else NoNat
  }

  /** Four hexadecimal digits. */
  function Hex4(text: string): (h: MaybeNat)
    ensures h.SomeNat? ==> |text| >= 4 && h.n < 0x10000
  {
    if |text| < 4 then NoNat
    else
      var a, b, c, d := HexDigit(text[0]), HexDigit(text[1]), HexDigit(text[2]), HexDigit(text[3]);
      if a.NoNat? || b.NoNat? || c.NoNat? || d.NoNat? then NoNat
      else SomeNat(4096 * a.n + 256 * b.n + 16 * c.n + d.n)
  }

  /** The UTF-8 code units of a code point, as characters below 256. */
  function Encode(cp: nat): string
    requires cp <= 0x10FFFF
  {
    if cp <= 0x7F then [cp as char]
    else if cp <= 0x7FF then [(0xC0 + cp / 64) as char, (0x80 + cp % 64) as char]
    else if cp <= 0xFFFF then
      [(0xE0 + cp / 4096) as char, (0x80 + cp / 64 % 64) as char, (0x80 + cp % 64) as char]
    else
      [(0xF0 + cp / 262144) as char, (0x80 + cp / 4096 % 64) as char, (0x80 + cp / 64 % 64) as char, (0x80 + cp % 64) as char]
  }

  /** The escape that begins with the backslash at the front of `text`. */
  function ScanEscape(text: string): (r: Scan<string>)
    requires Peek(text) == '\\'
    ensures r.Ok? ==> |r.rest| < |text|
  {
    var e := Peek(text[1..]);
    if Unescape(e).Just? then Ok([Unescape(e).c], text[2..])
    else if e == 'u' then
      var rest := text[2..];
      var hi := Hex4(rest);
      if hi.NoNat? then Err(StringUnicodeEscapeInvalidHex, text)
      else if 0xD800 <= hi.n <= 0xDBFF then
        var tail := rest[4..];
        if Peek(tail) != '\\' || Peek(tail[1..]) != 'u' then Err(StringUnicodeSurrogateInvalid, text)
        else
          var lo := Hex4(tail[2..]);
          if lo.NoNat? then Err(StringUnicodeEscapeInvalidHex, text)
          else if lo.n < 0xDC00 || lo.n > 0xDFFF then Err(StringUnicodeSurrogateInvalid, text)
          else Ok(Encode((hi.n - 0xD800) * 1024 + (lo.n - 0xDC00) + 0x10000), tail[6..])
      else Ok(Encode(hi.n), rest[4..])
    else Err(StringEscapeInvalid, text)
  }

  /** The characters of a string up to its closing quote, after those read so far. */
  function ScanChars(text: string, sofar: string): (r: Scan<string>)
    ensures r.Ok? ==> |r.rest| < |text|
    decreases |text|
  {
    var c := Peek(text);
    if c == '\\' then
      match ScanEscape(text)
      case Err(code, at) => Err(code, at)
      case Ok(s, rest) => ScanChars(rest, sofar + s)
    else if c == '\"' then Ok(sofar, text[1..])
    else if c == '\0' then Err(StringMissQuotationMark, text)
    else if c < ' ' then Err(StringInvalidEncoding, text)
    else ScanChars(text[1..], sofar + [c])
  }

  function ScanString(text: string): (r: Scan<string>)
    requires Peek(text) == '\"'
    ensures r.Ok? ==> |r.rest| < |text|
  {
    ScanChars(text[1..], "")
  }

  // ---- numbers ----

  datatype MaybeEvent = NoEvent | SomeEvent(ev: Event)

  /** The narrowest event for an integer; none if it does not fit into 64 bits. */
  function IntegerEvent(minus: bool, v: nat): MaybeEvent {
    if minus then
      if v <= 0x8000_0000 then SomeEvent(Int(0 - v))
      else if v <= 0x8000_0000_0000_0000 then SomeEvent(Int64(0 - v))
      else NoEvent
    else if v < 0x1_0000_0000 then SomeEvent(Uint(v))
    else if v < 0x1_0000_0000_0000_0000 then SomeEvent(Uint64(v))
    else NoEvent
  }

  /** The digits of the integer part: a single zero, or a run that does not begin with zero. */
  function IntegerPart(text: string): (s: string)
    ensures AllDigits(s) && |s| <= |text| && s == text[..|s|] && (s != "" <==> IsDigit(Peek(text)))
  {
    if Peek(text) == '0' then "0" else DigitRun(text)
  }

  /** The optional fraction: where the text goes on, and whether there was one. */
  function ScanFraction(text: string): (r: Scan<bool>)
    ensures r.Ok? ==> |r.rest| <= |text|
  {
    if Peek(text) != '.' then Ok(false, text)
    else if !IsDigit(Peek(text[1..])) then Err(NumberMissFraction, text[1..])
    else Ok(true, text[1..][|DigitRun(text[1..])|..])
  }

  function ScanExponent(text: string): (r: Scan<bool>)
    ensures r.Ok? ==> |r.rest| <= |text|
  {
    if Peek(text) != 'e' && Peek(text) != 'E' then Ok(false, text)
    else
      var signed := text[1..];
      var digits := if Peek(signed) == '+' || Peek(signed) == '-' then signed[1..] else signed;
      if !IsDigit(Peek(digits)) then Err(NumberMissExponent, digits)
      else Ok(true, digits[|DigitRun(digits)|..])
  }

  /** A number that ends before `rest`: exact, or left to floating point. */
  function NumberEnd(cfg: Config, text: string, exact: MaybeEvent, rest: string): (r: Scan<Event>)
    requires |rest| <= |text|
    ensures r.Ok? ==> r.rest == rest
  {
    if exact.SomeEvent? then Ok(exact.ev, rest)
    else
      match cfg.fp(text[..|text| - |rest|])
      case TooBig => Err(NumberTooBig, text)
      case Finite(bits) => Ok(Double(bits), rest)
  }

  /** A number from the end of its integer part on. */
  function NumberAfter(cfg: Config, text: string, exact: MaybeEvent, tail: string): (r: Scan<Event>)
    requires |tail| <= |text|
    ensures r.Ok? ==> |r.rest| <= |tail|
  {
    match ScanFraction(tail)
    case Err(code, at) => Err(code, at)
    case Ok(fraction, rest1) =>
      match ScanExponent(rest1)
      case Err(code, at) => Err(code, at)
      case Ok(exponent, rest) => NumberEnd(cfg, text, if fraction || exponent then NoEvent else exact, rest)
  }

  function ScanNumber(cfg: Config, text: string): (r: Scan<Event>)
    ensures r.Ok? ==> |r.rest| < |text|
  {
    var minus := Peek(text) == '-';
    var unsigned := if minus then text[1..] else text;
    var digits := IntegerPart(unsigned);
    if digits == "" then Err(ValueInvalid, unsigned)
    else NumberAfter(cfg, text, IntegerEvent(minus, ValueFrom(digits, 0)), unsigned[|digits|..])
  }

  function ScanScalar(cfg: Config, text: string): (r: Scan<Event>)
    ensures r.Ok? ==> |r.rest| < |text|
  {
    match Peek(text)
    case 'n' => Expect(text[1..], "ull", NullEvent)
    case 't' => Expect(text[1..], "rue", Bool(true))
    case 'f' => Expect(text[1..], "alse", Bool(false))
    case '\"' =>
      (match ScanString(text)
       case Err(code, at) => Err(code, at)
       case Ok(s, rest) => Ok(String(s), rest))
    case _ => ScanNumber(cfg, text)
  }
}
