/**
 Reading text from the front: the remaining text is a string, and reading past its end yields a null character.
 Also decimal numerals.
 */
module Text {

  datatype MaybeChar = Nothing | Just(c: char)

  function Peek(text: string): char {
    if text == [] then '\0' else text[0]
  }

  ghost predicate SuffixOf(rest: string, text: string) {
    |rest| <= |text| && rest == text[|text| - |rest|..]
  }

  lemma {:induction false} SuffixTransitive(a: string, b: string, c: string)
    requires SuffixOf(a, b) && SuffixOf(b, c)
    ensures SuffixOf(a, c)
  {
  }

  // ---- decimal numerals ----

  predicate IsDigit(c: char) {
    '0' <= c <= '9'
  }

  predicate AllDigits(s: string) {
    forall i | 0 <= i < |s| :: IsDigit(s[i])
  }

  /** The number that `s` writes in decimal after the digits read so far, whose value is `r`. */
  function ValueFrom(s: string, r: nat): nat
    requires AllDigits(s)
  {
    if s == [] then r else ValueFrom(s[1..], 10 * r + (s[0] as int - '0' as int))
  }

  lemma {:induction false} ValueGrows(s: string, r: nat)
    requires AllDigits(s)
    ensures ValueFrom(s, r) >= r
  {
    if s != [] { ValueGrows(s[1..], 10 * r + (s[0] as int - '0' as int)); }
  }

  lemma {:induction false} ValueSnoc(s: string, d: char, r: nat)
    requires AllDigits(s) && IsDigit(d)
    ensures AllDigits(s + [d]) && ValueFrom(s + [d], r) == 10 * ValueFrom(s, r) + (d as int - '0' as int)
  {
    if s == [] {
      assert (s + [d])[1..] == [];
    } else {
      assert (s + [d])[1..] == s[1..] + [d];
      ValueSnoc(s[1..], d, 10 * r + (s[0] as int - '0' as int));
    }
  }

  /** What unsigned 32-bit arithmetic makes of a numeral. */
  function Wrapped(s: string): nat {
    if AllDigits(s) then ValueFrom(s, 0) % 0x1_0000_0000 else 0
  }

  lemma {:induction false} WrapsOnce(v: nat, d: nat)
    ensures (10 * (v % 0x1_0000_0000) + d) % 0x1_0000_0000 == (10 * v + d) % 0x1_0000_0000
  {
    var q := v / 0x1_0000_0000;
    assert 10 * v + d == 10 * (v % 0x1_0000_0000) + d + (10 * q) * 0x1_0000_0000;
  }

  /** One more digit in unsigned arithmetic. */
  lemma {:induction false} WrappedStep(s: string, i: nat)
    requires i < |s| && AllDigits(s)
    ensures Wrapped(s[..i + 1]) == (10 * Wrapped(s[..i]) + (s[i] as int - '0' as int)) % 0x1_0000_0000
  {
    assert s[..i] + [s[i]] == s[..i + 1];
    ValueSnoc(s[..i], s[i], 0);
    WrapsOnce(ValueFrom(s[..i], 0), s[i] as int - '0' as int);
  }

  function DigitChar(d: nat): (c: char)
    requires d < 10
    ensures IsDigit(c) && c as int - '0' as int == d
  {
    ('0' as int + d) as char
  }

  /** The canonical decimal numeral of `n`. */
  function Dec(n: nat): string {
    if n < 10 then [DigitChar(n)] else Dec(n / 10) + [DigitChar(n % 10)]
  }

  /** A canonical numeral consists of digits, has the value it writes, and has no superfluous leading zero. */
  lemma {:induction false} DecIs(n: nat)
    ensures AllDigits(Dec(n)) && ValueFrom(Dec(n), 0) == n
    ensures Dec(n) != "" && (Dec(n)[0] == '0' <==> n == 0)
  {
    if n >= 10 {
      DecIs(n / 10);
      ValueSnoc(Dec(n / 10), DigitChar(n % 10), 0);
    } else {
      assert ValueFrom([DigitChar(n)], 0) == ValueFrom([], n);
    }
  }

  lemma {:induction false} DecSnoc(n: nat, d: nat)
    requires n > 0 && d < 10
    ensures Dec(10 * n + d) == Dec(n) + [DigitChar(d)]
  {
    assert (10 * n + d) / 10 == n && (10 * n + d) % 10 == d;
  }

  /** The longest prefix of digits. */
  function DigitRun(text: string): (s: string)
    ensures AllDigits(s) && |s| <= |text| && s == text[..|s|] && !IsDigit(Peek(text[|s|..]))
  {
    if !IsDigit(Peek(text)) then ""
    else
      var s := DigitRun(text[1..]);
      assert text[1..][|s|..] == text[1 + |s|..];
      [text[0]] + s
  }

  lemma {:induction false} DigitRunIs(s: string, rest: string)
    requires AllDigits(s) && !IsDigit(Peek(rest))
    ensures DigitRun(s + rest) == s && (s + rest)[|s|..] == rest
  {
    if s == "" {
      assert s + rest == rest;
    } else {
      assert (s + rest)[1..] == s[1..] + rest;
      DigitRunIs(s[1..], rest);
    }
  }
}
