/**
 What escapes mean, written out: every way of writing a string is read as what it says, and every percent-encoded octet.
 */
module JsonEscapes {
  import opened Text
  import opened JsonScan
  import opened Utf8
  import JsonPointer
  import JsonWriter

  // ---- hexadecimal digits, in either case ----

  const LOWER := "0123456789abcdef"
  const UPPER := "0123456789ABCDEF"

  /** The character is the digit `d`. */
  predicate Writes(c: char, d: nat) {
    d < 16 && (c == LOWER[d] || c == UPPER[d])
  }

  predicate WritesFour(s: string, n: nat) {
    && |s| == 4 && n < 0x10000
    && Writes(s[0], n / 4096) && Writes(s[1], n / 256 % 16) && Writes(s[2], n / 16 % 16) && Writes(s[3], n % 16)
  }

  lemma {:induction false} HexDigitIff(c: char, d: nat)
    ensures HexDigit(c) == SomeNat(d) <==> Writes(c, d)
  {
  }

  lemma {:induction false} LastDigitOf(n: nat, q: nat, d: nat)
    requires d < 16
    ensures n == 16 * q + d <==> n / 16 == q && n % 16 == d
  {
  }

  lemma {:induction false} FourDigits(a: nat, b: nat, c: nat, d: nat, n: nat)
    requires a < 16 && b < 16 && c < 16 && d < 16
    ensures n == 4096 * a + 256 * b + 16 * c + d
       <==> n < 0x10000 && n / 4096 == a && n / 256 % 16 == b && n / 16 % 16 == c && n % 16 == d
  {
    LastDigitOf(n, 256 * a + 16 * b + c, d);
    LastDigitOf(n / 16, 16 * a + b, c);
    LastDigitOf(n / 256, a, b);
    assert n / 16 / 16 == n / 256 && n / 256 / 16 == n / 4096;
    if n < 0x10000 && n / 4096 == a && n / 256 % 16 == b { assert n / 256 == 16 * a + b; }
  }

  /** Four digits are read as `n` exactly if they write it. */
  lemma {:induction false} Hex4Iff(text: string, n: nat)
    requires |text| >= 4
    ensures Hex4(text) == SomeNat(n) <==> WritesFour(text[..4], n)
  {
    var a, b, c, d := HexDigit(text[0]), HexDigit(text[1]), HexDigit(text[2]), HexDigit(text[3]);
    HexDigitIff(text[0], n / 4096); HexDigitIff(text[1], n / 256 % 16);
    HexDigitIff(text[2], n / 16 % 16); HexDigitIff(text[3], n % 16);
    if a.SomeNat? && b.SomeNat? && c.SomeNat? && d.SomeNat? { FourDigits(a.n, b.n, c.n, d.n, n); }
  }

  // ---- the parts a string can be written in ----

  /** The letters that stand behind a backslash, and the characters they mean. */
  const LETTERS := "\"\\/bfnrt"
  const MEANT: seq<nat> := [34, 92, 47, 8, 12, 10, 13, 9]

  datatype Part = Raw(c: char) | Short(i: nat) | Unicode(digits: string, cp: nat) | Pair(high: string, low: string, cp: nat)

  predicate PartOk(p: Part) {
    match p
    case Raw(c) => c as int >= 32 && c as int != 34 && c as int != 92
    case Short(i) => i < 8
    case Unicode(digits, cp) => WritesFour(digits, cp) && !(0xD800 <= cp <= 0xDFFF)
    case Pair(high, low, cp) =>
      && 0x10000 <= cp <= 0x10FFFF
      && WritesFour(high, 0xD800 + (cp - 0x10000) / 1024) && WritesFour(low, 0xDC00 + (cp - 0x10000) % 1024)
  }

  lemma {:induction false} ShortReads(i: nat, more: string)
    requires i < 8
    ensures ScanEscape(['\\', LETTERS[i]] + more) == Ok([MEANT[i] as char], more)
  {
    var text := ['\\', LETTERS[i]] + more;
    assert text[1..][0] == LETTERS[i] && text[2..] == more;
  }

  lemma {:induction false} BehindU(rest: string)
    ensures var text := ['\\', 'u'] + rest; Peek(text) == '\\' && Peek(text[1..]) == 'u' && text[2..] == rest && Unescape('u').Nothing?
  {
  }

  lemma {:induction false} FourThen(digits: string, more: string)
    requires |digits| == 4
    ensures (digits + more)[..4] == digits && (digits + more)[4..] == more && |digits + more| >= 4
  {
  }

  /** One escape of four digits that is not the upper half of a pair. */
  lemma {:induction false} OneUnicode(digits: string, cp: nat, more: string)
    requires WritesFour(digits, cp) && !(0xD800 <= cp <= 0xDBFF)
    ensures ScanEscape(['\\', 'u'] + (digits + more)) == Ok(Encode(cp), more)
  {
    hide Hex4, Encode;
    BehindU(digits + more);
    FourThen(digits, more);
    Hex4Iff(digits + more, cp);
  }

  /** Two escapes of four digits that write a pair. */
  lemma {:induction false} TwoUnicodes(high: string, low: string, cp: nat, more: string)
    requires PartOk(Pair(high, low, cp))
    ensures ScanEscape(['\\', 'u'] + (high + (['\\', 'u'] + (low + more)))) == Ok(Encode(cp), more)
  {
    hide Encode, ScanEscape, WritesFour;
    Halves(cp);
    TwoHalves(high, low, (cp - 0x10000) / 1024, (cp - 0x10000) % 1024, more);
  }

  lemma {:induction false} TwoHalves(high: string, low: string, hi: nat, lo: nat, more: string)
    requires hi < 1024 && lo < 1024 && WritesFour(high, 0xD800 + hi) && WritesFour(low, 0xDC00 + lo)
    ensures ScanEscape(['\\', 'u'] + (high + (['\\', 'u'] + (low + more)))) == Ok(Encode(hi * 1024 + lo + 0x10000), more)
  {
    hide Hex4, Encode, ScanEscape, WritesFour;
    FourLong(high, 0xD800 + hi);
    FourLong(low, 0xDC00 + lo);
    var tail := ['\\', 'u'] + (low + more);
    FourThen(high, tail);
    Hex4Iff(high + tail, 0xD800 + hi);
    FourThen(low, more);
    Hex4Iff(low + more, 0xDC00 + lo);
    PairScans(high + tail, low + more, 0xD800 + hi, 0xDC00 + lo);
  }

  lemma {:induction false} FourLong(s: string, n: nat)
    requires WritesFour(s, n)
    ensures |s| == 4
  {
  }

  lemma {:induction false} Halves(cp: nat)
    requires 0x10000 <= cp <= 0x10FFFF
    ensures var hi, lo := (cp - 0x10000) / 1024, (cp - 0x10000) % 1024; hi < 1024 && lo < 1024 && hi * 1024 + lo + 0x10000 == cp
  {
  }

  lemma {:induction false} PairScans(rest: string, last: string, hi: nat, lo: nat)
    requires Hex4(rest) == SomeNat(hi) && Hex4(last) == SomeNat(lo) && 0xD800 <= hi <= 0xDBFF && 0xDC00 <= lo <= 0xDFFF
    requires rest[4..] == ['\\', 'u'] + last
    ensures ScanEscape(['\\', 'u'] + rest) == Ok(Encode((hi - 0xD800) * 1024 + (lo - 0xDC00) + 0x10000), last[4..])
  {
    hide Hex4, Encode;
    BehindU(rest);
    BehindU(last);
    assert rest[4..][6..] == last[4..];
  }

  /** Any other letter behind a backslash, and anything but four digits behind `\u`, is an error. */
  lemma {:induction false} EscapeRefused(c: char, more: string)
    ensures c !in LETTERS && c != 'u' ==> ScanEscape(['\\', c] + more) == Err(StringEscapeInvalid, ['\\', c] + more)
    ensures c == 'u' && (|more| < 4 || forall n :: !WritesFour(more[..4], n))
            ==> ScanEscape(['\\', c] + more) == Err(StringUnicodeEscapeInvalidHex, ['\\', c] + more)
  {
    var text := ['\\', c] + more;
    assert text[1..][0] == c && text[2..] == more;
    if c !in LETTERS {
      forall i | 0 <= i < 8 ensures c != LETTERS[i] { }
      assert c != LETTERS[0] && c != LETTERS[1] && c != LETTERS[2] && c != LETTERS[3];
      assert c != LETTERS[4] && c != LETTERS[5] && c != LETTERS[6] && c != LETTERS[7];
    }
    if |more| >= 4 && Hex4(more).SomeNat? { Hex4Iff(more, Hex4(more).n); }
  }

  /** Half of a surrogate pair, the lower one, passes alone, and what is appended is not well-formed. */
  lemma {:induction false} LoneSurrogate(digits: string, cp: nat, more: string)
    requires WritesFour(digits, cp) && 0xDC00 <= cp <= 0xDFFF
    ensures var r := ScanEscape(['\\', 'u'] + (digits + more)); r.Ok? && r.rest == more && !Sequence(r.value)
  {
    hide ScanEscape, Encode, Sequence, WritesFour;
    OneUnicode(digits, cp, more);
    LowerHalfIllFormed(cp);
  }

  lemma {:induction false} LowerHalfIllFormed(cp: nat)
    requires 0xDC00 <= cp <= 0xDFFF
    ensures !Sequence(Encode(cp))
  {
    hide Sequence;
    var s := Encode(cp);
    SequenceIsGrammatical(s);
    assert |s| == 3 && s[0] as int == 0xED && s[1] as int >= 0xA0;
  }

  // ---- percent-encoded octets ----

  /** A percent sign and two digits, in either case, are the octet they write, and nothing else is one. */
  lemma {:induction false} PercentIff(a: char, b: char, n: nat, more: string)
    requires n < 256
    ensures JsonPointer.TakeOctet(['%', a, b] + more) == JsonPointer.Octet(n as char) <==> Writes(a, n / 16) && Writes(b, n % 16)
  {
    HexDigitIff(a, n / 16);
    HexDigitIff(b, n % 16);
    var x, y := HexDigit(a), HexDigit(b);
    if x.SomeNat? && y.SomeNat? { assert 16 * x.n + y.n == n <==> x.n == n / 16 && y.n == n % 16; }
  }

  /** Letters, digits, and the marks - . _ ~ need no encoding, as section 2.3 of RFC 3986 has it; everything else does. */
  lemma {:induction false} UnreservedIff(c: char)
    ensures var n := c as int;
            JsonPointer.NeedPercentEncode(c)
            <==> !(65 <= n <= 90 || 97 <= n <= 122 || 48 <= n <= 57 || n == 45 || n == 46 || n == 95 || n == 126)
  {
  }

  // ---- white space ----

  /** Space, tab, line feed, carriage return. */
  predicate Blank(c: char) {
    var n := c as int; n == 32 || n == 9 || n == 10 || n == 13
  }

  /** Blanks are skipped, in any number, and nothing else is. */
  lemma {:induction false} BlanksSkipped(ws: string, rest: string)
    requires forall i | 0 <= i < |ws| :: Blank(ws[i])
    ensures SkipWs(ws + rest) == SkipWs(rest)
    ensures rest != "" && !Blank(rest[0]) ==> SkipWs(rest) == rest
  {
    if ws == "" {
      assert ws + rest == rest;
    } else {
      assert (ws + rest)[1..] == ws[1..] + rest && (ws + rest)[0] == ws[0];
      BlanksSkipped(ws[1..], rest);
    }
  }

  // ---- how the writer escapes ----

  /** Quotes, backslashes and some control characters are escaped by their letter. */
  lemma {:induction false} LetterEscape(c: char, i: nat)
    requires i < 8 && i != 2 && c as int == MEANT[i]
    ensures JsonWriter.Escape(c) == ['\\', LETTERS[i]]
  {
    assert c == MEANT[i] as char;
  }

  /** The other control characters are escaped in four digits, and nothing else is escaped. */
  lemma {:induction false} OtherEscape(c: char)
    requires forall i | 0 <= i < 8 && i != 2 :: c as int != MEANT[i]
    ensures c as int >= 32 ==> JsonWriter.Escape(c) == [c]
    ensures c as int < 32 ==> JsonWriter.Escape(c) == ['\\', 'u', '0', '0', UPPER[c as int / 16], UPPER[c as int % 16]]
  {
    assert c as int != MEANT[0] && c as int != MEANT[1] && c as int != MEANT[3] && c as int != MEANT[4];
    assert c as int != MEANT[5] && c as int != MEANT[6] && c as int != MEANT[7];
    if c as int < 32 { UpperIs(c as int / 16); UpperIs(c as int % 16); }
  }

  lemma {:induction false} UpperIs(d: nat)
    requires d < 16
    ensures JsonWriter.HexChar(d) == UPPER[d]
  {
  }
}
