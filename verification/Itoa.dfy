/**
 Integer to decimal: digits in pairs from a table, four at a time, with the leading zeros left out.
 The words are proved to write the canonical numeral.
 */
module Itoa {
  import opened Text
  import Limbs

  /** The table of the hundred two-digit numerals, one after the other. */
  function Lut(i: nat): char
    requires i < 200
  {
    if i % 2 == 0 then DigitChar(i / 2 / 10) else DigitChar(i / 2 % 10)
  }

  /** Four digits, with leading zeros. */
  function Four(c: nat): string
    requires c < 10000
  {
    [DigitChar(c / 1000), DigitChar(c / 100 % 10), DigitChar(c / 10 % 10), DigitChar(c % 10)]
  }

  /** The digits of a number below ten thousand, singly and in pairs. */
  lemma {:induction false} DigitPairs(c: nat)
    requires c < 10000
    ensures c / 100 < 100 && c / 100 / 10 == c / 1000 && c / 1000 < 10
    ensures c % 100 / 10 == c / 10 % 10 && c % 100 % 10 == c % 10
  {
  }

  lemma {:induction false} LutPair(d: nat)
    requires d < 100
    ensures Lut(d * 2) == DigitChar(d / 10) && Lut(d * 2 + 1) == DigitChar(d % 10)
  {
    assert d * 2 / 2 == d && (d * 2 + 1) / 2 == d && d * 2 % 2 == 0 && (d * 2 + 1) % 2 == 1;
  }

  lemma {:induction false} Quotients(n: nat)
    ensures n / 10 / 10 == n / 100 && n / 100 / 10 == n / 1000 && n / 1000 / 10 == n / 10000
    ensures var r := n % 10000;
            n / 1000 % 10 == r / 1000 && n / 100 % 10 == r / 100 % 10 && n / 10 % 10 == r / 10 % 10 && n % 10 == r % 10
  {
    var q, r := n / 10000, n % 10000;
    assert n == 10000 * q + r;
    assert n / 1000 == 10 * q + r / 1000;
    assert n / 100 == 100 * q + r / 100;
    assert n / 10 == 1000 * q + r / 10;
  }

  lemma {:induction false} DecStep(n: nat)
    ensures n >= 10 ==> Dec(n) == Dec(n / 10) + [DigitChar(n % 10)]
    ensures n < 10 ==> Dec(n) == [DigitChar(n)]
  {
  }

  lemma {:induction false} DecFour(n: nat)
    requires n >= 10000
    ensures Dec(n) == Dec(n / 10000) + Four(n % 10000)
  {
    Quotients(n);
    DecStep(n);
    DecStep(n / 10);
    DecStep(n / 100);
    DecStep(n / 1000);
    Appended(Dec(n / 10000), DigitChar(n / 1000 % 10), DigitChar(n / 100 % 10), DigitChar(n / 10 % 10), DigitChar(n % 10));
  }

  lemma {:induction false} Appended(s: string, a: char, b: char, c: char, d: char)
    ensures s + [a] + [b] + [c] + [d] == s + [a, b, c, d]
  {
  }

  lemma {:induction false} DecEight(n: nat)
    requires n >= 100000000
    ensures var r := n % 100000000; Dec(n) == Dec(n / 100000000) + Four(r / 10000) + Four(r % 10000)
  {
    DecFour(n);
    DecFour(n / 10000);
    var q, r := n / 100000000, n % 100000000;
    assert n == 100000000 * q + r;
    assert n / 10000 == 10000 * q + r / 10000;
    assert n / 10000 / 10000 == q && n / 10000 % 10000 == r / 10000 && n % 10000 == r % 10000;
  }

  lemma {:induction false} DecSixteen(n: nat)
    requires n >= 10000000000000000
    ensures var r := n % 10000000000000000;
            Dec(n) == Dec(n / 10000000000000000) + Four(r / 100000000 / 10000) + Four(r / 100000000 % 10000)
                      + Four(r % 100000000 / 10000) + Four(r % 100000000 % 10000)
  {
    DecEight(n);
    DecEight(n / 100000000);
    var q, r := n / 10000000000000000, n % 10000000000000000;
    assert n == 10000000000000000 * q + r;
    assert n / 100000000 == 100000000 * q + r / 100000000;
    assert n / 100000000 / 100000000 == q && n / 100000000 % 100000000 == r / 100000000 && n % 100000000 == r % 100000000;
  }

  /** The digits of a number below ten thousand that are not leading zeros. */
  lemma {:induction false} DecSmall(b: nat)
    requires b < 10000
    ensures b >= 1000 ==> Dec(b) == [DigitChar(b / 1000), DigitChar(b / 100 % 10), DigitChar(b / 10 % 10), DigitChar(b % 10)]
    ensures 100 <= b < 1000 ==> Dec(b) == [DigitChar(b / 100), DigitChar(b / 10 % 10), DigitChar(b % 10)]
    ensures 10 <= b < 100 ==> Dec(b) == [DigitChar(b / 10), DigitChar(b % 10)]
    ensures b < 10 ==> Dec(b) == [DigitChar(b)]
  {
    Quotients(b);
    DecStep(b);
    DecStep(b / 10);
    DecStep(b / 100);
    DecStep(b / 1000);
  }

  lemma {:induction false} LutFour(b: nat) returns (p: char, q: char, r: char, t: char)
    requires b < 10000
    ensures Lut(b / 100 * 2) == p && Lut(b / 100 * 2 + 1) == q && Lut(b % 100 * 2) == r && Lut(b % 100 * 2 + 1) == t
    ensures Four(b) == [p, q, r, t]
  {
    DigitPairs(b);
    LutPair(b / 100);
    LutPair(b % 100);
    p, q, r, t := DigitChar(b / 1000), DigitChar(b / 100 % 10), DigitChar(b / 10 % 10), DigitChar(b % 10);
  }

  lemma {:induction false} DecDigits(b: nat, p: char, q: char, r: char, t: char)
    requires b < 10000 && Four(b) == [p, q, r, t]
    ensures Dec(b) == if b >= 1000 then [p, q, r, t] else if b >= 100 then [q, r, t] else if b >= 10 then [r, t] else [t]
  {
    DecSmall(b);
    assert Four(b)[0] == p && Four(b)[1] == q && Four(b)[2] == r && Four(b)[3] == t;
  }

  /** The four digits as the table gives them, and the numeral they make. */
  lemma {:induction false} SmallDigits(b: nat) returns (p: char, q: char, r: char, t: char)
    requires b < 10000
    ensures Lut(b / 100 * 2) == p && Lut(b / 100 * 2 + 1) == q && Lut(b % 100 * 2) == r && Lut(b % 100 * 2 + 1) == t
    ensures Dec(b) == if b >= 1000 then [p, q, r, t] else if b >= 100 then [q, r, t] else if b >= 10 then [r, t] else [t]
  {
    p, q, r, t := LutFour(b);
    DecDigits(b, p, q, r, t);
  }

  /** The word that holds a signed number, and the two's complement of a word. */
  function Word(value: int, modulus: nat): nat
    requires 0 <= value + modulus && value < modulus
  {
    if value < 0 then value + modulus else value
  }

  function Complement(u: nat, modulus: nat): nat
    requires u < modulus
  {
    if u == 0 then 0 else modulus - u
  }

  /** What a word writes into its buffer, digit by digit. */
  class Buffer {
    var text: string

    constructor ()
      ensures text == ""
    {
      text := "";
    }

    method Put(c: char)
      modifies this
      ensures text == old(text) + [c]
    {
      text := text + [c];
    }

    /** The four digits of `c` from the table. */
    method PutFour(c: nat)
      requires c < 10000
      modifies this
      ensures text == old(text) + Four(c)
    {
      var d1, d2 := c / 100 * 2, c % 100 * 2;
      ghost var p, q, r, t := LutFour(c);
      Appended(text, p, q, r, t);
      Put(Lut(d1));
      Put(Lut(d1 + 1));
      Put(Lut(d2));
      Put(Lut(d2 + 1));
    }

    /** The digits of `b` from the table, those before its first significant digit left out. */
    method PutSmall(b: nat)
      requires b < 10000
      modifies this
      ensures text == old(text) + Dec(b)
    {
      hide Lut, Dec, DigitChar, Four;
      var d1, d2 := b / 100 * 2, b % 100 * 2;
      ghost var p, q, r, t := SmallDigits(b);
      if b >= 1000 { Put(Lut(d1)); }
      if b >= 100 { Put(Lut(d1 + 1)); }
      if b >= 10 { Put(Lut(d2)); }
      Put(Lut(d2 + 1));
    }

    method U32toa(value: nat)
      requires value < 0x1_0000_0000
      modifies this
      ensures text == old(text) + Dec(value)
    {
      hide Dec, Lut, Four;
      if value < 10000 {
        PutSmall(value);
      } else if value < 100000000 {
        var b, c := value / 10000, value % 10000;
        DecFour(value);
        PutSmall(b);
        PutFour(c);
      } else {
        var a, rest := value / 100000000, value % 100000000;
        DecSmall(a);
        if a >= 10 {
          var i := a * 2;
          LutPair(a);
          Put(Lut(i));
          Put(Lut(i + 1));
        } else {
          Put(DigitChar(a));
        }
        assert text == old(text) + Dec(a);
        var b, c := rest / 10000, rest % 10000;
        DecEight(value);
        PutFour(b);
        PutFour(c);
      }
    }

    method I32toa(value: int)
      requires -0x8000_0000 <= value < 0x8000_0000
      modifies this
      ensures text == old(text) + Signed(value)
    {
      hide Dec;
      var u := Word(value, 0x1_0000_0000);
      if value < 0 {
        Put('-');
        u := Complement(u, 0x1_0000_0000);
      }
      U32toa(u);
    }

    /** The digits above the lowest sixteen. */
    method PutHead(a: nat)
      requires a < 1845
      modifies this
      ensures text == old(text) + Dec(a)
    {
      DecSmall(a);
      if a < 10 {
        Put(DigitChar(a));
      } else if a < 100 {
        LutPair(a);
        Put(Lut(a * 2));
        Put(Lut(a * 2 + 1));
      } else if a < 1000 {
        DigitPairs(a);
        LutPair(a % 100);
        Put(DigitChar(a / 100));
        Put(Lut(a % 100 * 2));
        Put(Lut(a % 100 * 2 + 1));
      } else {
        PutFour(a);
      }
    }

    method U64toa(value: nat)
      requires value < 0x1_0000_0000_0000_0000
      modifies this
      ensures text == old(text) + Dec(value)
    {
      hide Dec, DigitChar, Lut;
      if value < 100000000 {
        if value < 10000 {
          PutSmall(value);
        } else {
          DecFour(value);
          PutSmall(value / 10000);
          PutFour(value % 10000);
        }
      } else if value < 10000000000000000 {
        var v0, v1 := value / 100000000, value % 100000000;
        DecEight(value);
        if v0 >= 10000 {
          DecFour(v0);
          PutSmall(v0 / 10000);
          PutFour(v0 % 10000);
        } else {
          PutSmall(v0);
        }
        PutFour(v1 / 10000);
        PutFour(v1 % 10000);
      } else {
        var a, rest := value / 10000000000000000, value % 10000000000000000;
        PutHead(a);
        var v0, v1 := rest / 100000000, rest % 100000000;
        DecSixteen(value);
        PutFour(v0 / 10000);
        PutFour(v0 % 10000);
        PutFour(v1 / 10000);
        PutFour(v1 % 10000);
      }
    }

    method I64toa(value: int)
      requires -0x8000_0000_0000_0000 <= value < 0x8000_0000_0000_0000
      modifies this
      ensures text == old(text) + Signed(value)
    {
      hide Dec;
      var u := Word(value, 0x1_0000_0000_0000_0000);
      if value < 0 {
        Put('-');
        u := Complement(u, 0x1_0000_0000_0000_0000);
      }
      U64toa(u);
    }
  }

  /** The canonical numeral of an integer. */
  function Signed(n: int): string {
    if n < 0 then "-" + Dec(0 - n) else Dec(n)
  }

  // ---- the room that the writer reserves ----

  /** A numeral has at most `k` digits if and only if the number is below the power. */
  lemma {:induction false} DecLength(n: nat, k: nat)
    requires k >= 1
    ensures |Dec(n)| <= k <==> n < Limbs.Pow(10, k)
    decreases k
  {
    if k > 1 {
      if n >= 10 { DecLength(n / 10, k - 1); } else { DecLength(n, k - 1); }
      assert n / 10 < Limbs.Pow(10, k - 1) <==> n < 10 * Limbs.Pow(10, k - 1);
    }
  }

  lemma {:induction false} Powers()
    ensures Limbs.Pow(10, 9) == 1000000000 && Limbs.Pow(10, 10) == 10000000000
    ensures Limbs.Pow(10, 18) == 1000000000000000000 && Limbs.Pow(10, 19) == 10000000000000000000
    ensures Limbs.Pow(10, 20) == 100000000000000000000
  {
  }

  /** No integer needs more characters than the writer reserves, 10, 11, 20 and 21; only of the last one is always left. */
  lemma {:induction false} RoomSuffices(n: int)
    ensures 0 <= n < 0x1_0000_0000 ==> |Dec(n)| <= 10
    ensures 0 - 0x8000_0000 <= n < 0x8000_0000 ==> |Signed(n)| <= 11
    ensures 0 <= n < 0x1_0000_0000_0000_0000 ==> |Dec(n)| <= 20
    ensures 0 - 0x8000_0000_0000_0000 <= n < 0x8000_0000_0000_0000 ==> |Signed(n)| <= 20
  {
    var m := if n < 0 then -n else n;
    Powers();
    DecLength(m, 10);
    DecLength(m, 19);
    DecLength(m, 20);
  }

  /** The longest of them need all of it. */
  lemma {:induction false} RoomNeeded()
    ensures |Dec(0xFFFF_FFFF)| == 10 && |Signed(0 - 0x8000_0000)| == 11
    ensures |Dec(0xFFFF_FFFF_FFFF_FFFF)| == 20 && |Signed(0 - 0x8000_0000_0000_0000)| == 20
  {
    hide Dec;
    Powers();
    RoomSuffices(0xFFFF_FFFF);
    RoomSuffices(0 - 0x8000_0000);
    RoomSuffices(0xFFFF_FFFF_FFFF_FFFF);
    RoomSuffices(0 - 0x8000_0000_0000_0000);
    DecLength(0xFFFF_FFFF, 9);
    DecLength(0x8000_0000, 9);
    DecLength(0xFFFF_FFFF_FFFF_FFFF, 19);
    DecLength(0x8000_0000_0000_0000, 18);
  }
}
