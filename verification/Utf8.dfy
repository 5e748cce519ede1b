/**
 UTF-8: the table that classifies code units, and the sequences it accepts, which are exactly the encoded scalar values.
 */
module Utf8 {
  import opened JsonScan

  /** The class of a code unit; each class of trailing units is a bit of its own. */
  function GetRange(c: char): bv8 {
    var u := c as int;
    if u < 0x80 then 0
    else if u < 0x90 then 0x10
    else if u < 0xA0 then 0x40
    else if u < 0xC0 then 0x20
    else if u < 0xC2 then 8
    else if u < 0xE0 then 2
    else if u == 0xE0 then 10
    else if u == 0xED then 4
    else if u < 0xF0 then 3
    else if u == 0xF0 then 11
    else if u < 0xF4 then 6
    else if u == 0xF4 then 5
    else 8
  }

  /** How many code units follow, and which classes the first of them may be of. */
  datatype Lead = Lead(tails: nat, mask: bv8) | NoLead

  const ANY_TAIL: bv8 := 0x70

  function LeadOf(c: char): (l: Lead)
    ensures l.Lead? ==> l.tails <= 3 && c as int < 256
  {
    var range := GetRange(c);
    if c as int < 0x80 then Lead(0, ANY_TAIL)
    else if range == 2 then Lead(1, ANY_TAIL)
    else if range == 3 then Lead(2, ANY_TAIL)
    else if range == 4 then Lead(2, 0x50)
    else if range == 5 then Lead(3, 0x10)
    else if range == 6 then Lead(3, ANY_TAIL)
    else if range == 10 then Lead(2, 0x20)
    else if range == 11 then Lead(3, 0x60)
    else NoLead
  }

  predicate IsTail(c: char, mask: bv8) {
    GetRange(c) & mask != 0
  }

  predicate TailsOf(s: string, mask: bv8) {
    s == "" || (IsTail(s[0], mask) && TailsOf(s[1..], ANY_TAIL))
  }

  /** One sequence that the table accepts. */
  predicate Sequence(s: string) {
    s != "" && LeadOf(s[0]).Lead? && |s| == 1 + LeadOf(s[0]).tails && TailsOf(s[1..], LeadOf(s[0]).mask)
  }

  /** A code point that is not a surrogate. */
  predicate Scalar(cp: nat) {
    cp < 0xD800 || 0xE000 <= cp <= 0x10FFFF
  }

  lemma {:induction false} TailIs(c: char)
    ensures IsTail(c, ANY_TAIL) <==> 0x80 <= c as int < 0xC0
    ensures IsTail(c, 0x50) <==> 0x80 <= c as int < 0xA0
    ensures IsTail(c, 0x10) <==> 0x80 <= c as int < 0x90
    ensures IsTail(c, 0x20) <==> 0xA0 <= c as int < 0xC0
    ensures IsTail(c, 0x60) <==> 0x90 <= c as int < 0xC0
  {
  }

  lemma {:induction false} TailsAre(s: string, mask: bv8)
    requires 1 <= |s| <= 3
    ensures TailsOf(s, mask) <==> IsTail(s[0], mask) && forall i | 1 <= i < |s| :: IsTail(s[i], ANY_TAIL)
  {
    if |s| > 1 { TailsAre(s[1..], ANY_TAIL); }
  }

  /** The same in numbers, as the grammar of section 4 of RFC 3629 has it. */
  predicate Grammatical(s: string) {
    && 1 <= |s| <= 4 && (forall i | 1 <= i < |s| :: 0x80 <= s[i] as int < 0xC0)
    && var u := s[0] as int;
       if |s| == 1 then u < 0x80
       else if |s| == 2 then 0xC2 <= u < 0xE0
       else if |s| == 3 then 0xE0 <= u < 0xF0 && (u == 0xE0 ==> s[1] as int >= 0xA0) && (u == 0xED ==> (s[1] as int) < 0xA0)
       else 0xF0 <= u < 0xF5 && (u == 0xF0 ==> s[1] as int >= 0x90) && (u == 0xF4 ==> (s[1] as int) < 0x90)
  }

  /** The code point of a sequence of this many units, without regard to their classes. */
  function CodePoint(s: string): nat
    requires 1 <= |s| <= 4 && forall i | 0 <= i < |s| :: s[i] as int < 256
  {
    var u := s[0] as int;
    if |s| == 1 then u
    else if |s| == 2 then u % 32 * 64 + s[1] as int % 64
    else if |s| == 3 then u % 16 * 4096 + s[1] as int % 64 * 64 + s[2] as int % 64
    else u % 8 * 262144 + s[1] as int % 64 * 4096 + s[2] as int % 64 * 64 + s[3] as int % 64
  }

  /** Which code units lead, in numbers. */
  lemma {:induction false} LeadIs(c: char)
    ensures var u, l := c as int, LeadOf(c);
            && (u < 0x80 ==> l == Lead(0, ANY_TAIL))
            && (0x80 <= u < 0xC2 || u >= 0xF5 ==> l == NoLead)
            && (0xC2 <= u < 0xE0 ==> l == Lead(1, ANY_TAIL))
            && (0xE0 <= u < 0xF0 ==> l == Lead(2, if u == 0xE0 then 0x20 else if u == 0xED then 0x50 else ANY_TAIL))
            && (0xF0 <= u < 0xF5 ==> l == Lead(3, if u == 0xF0 then 0x60 else if u == 0xF4 then 0x10 else ANY_TAIL))
  {
  }

  lemma {:induction false} SequenceIsGrammatical(s: string)
    ensures Sequence(s) <==> Grammatical(s)
  {
    if s != "" {
      LeadIs(s[0]);
      if 2 <= |s| <= 4 && LeadOf(s[0]).Lead? {
        TailIs(s[1]);
        TailsAre(s[1..], LeadOf(s[0]).mask);
        forall i | 2 <= i < |s| ensures IsTail(s[i], ANY_TAIL) <==> 0x80 <= s[i] as int < 0xC0 { TailIs(s[i]); }
        assert forall i | 2 <= i < |s| :: s[1..][i - 1] == s[i];
      }
    }
  }

  lemma {:induction false} Digits64(hi: nat, lo: nat)
    requires lo < 64
    ensures (hi * 64 + lo) / 64 == hi && (hi * 64 + lo) % 64 == lo
  {
  }

  lemma {:induction false} TwoUnits(a: nat, b: nat)
    requires 0xC2 <= a < 0xE0 && 0x80 <= b < 0xC0
    ensures var cp := a % 32 * 64 + b % 64;
            0x7F < cp <= 0x7FF && 0xC0 + cp / 64 == a && 0x80 + cp % 64 == b
  {
    Digits64(a % 32, b % 64);
  }

  lemma {:induction false} ThreeUnits(a: nat, b: nat, c: nat)
    requires 0xE0 <= a < 0xF0 && 0x80 <= b < 0xC0 && 0x80 <= c < 0xC0
    requires (a == 0xE0 ==> b >= 0xA0) && (a == 0xED ==> b < 0xA0)
    ensures var cp := a % 16 * 4096 + b % 64 * 64 + c % 64;
            && 0x7FF < cp <= 0xFFFF && Scalar(cp)
            && 0xE0 + cp / 4096 == a && 0x80 + cp / 64 % 64 == b && 0x80 + cp % 64 == c
  {
    Digits64(a % 16, b % 64);
    Digits64(a % 16 * 64 + b % 64, c % 64);
  }

  lemma {:induction false} FourUnits(a: nat, b: nat, c: nat, d: nat)
    requires 0xF0 <= a < 0xF5 && 0x80 <= b < 0xC0 && 0x80 <= c < 0xC0 && 0x80 <= d < 0xC0
    requires (a == 0xF0 ==> b >= 0x90) && (a == 0xF4 ==> b < 0x90)
    ensures var cp := a % 8 * 262144 + b % 64 * 4096 + c % 64 * 64 + d % 64;
            && 0xFFFF < cp <= 0x10FFFF
            && 0xF0 + cp / 262144 == a && 0x80 + cp / 4096 % 64 == b && 0x80 + cp / 64 % 64 == c && 0x80 + cp % 64 == d
  {
    Digits64(a % 8, b % 64);
    Digits64(a % 8 * 64 + b % 64, c % 64);
    Digits64((a % 8 * 64 + b % 64) * 64 + c % 64, d % 64);
  }

  lemma {:induction false} GrammaticalIsEncoded(s: string)
    requires Grammatical(s)
    ensures Scalar(CodePoint(s)) && Encode(CodePoint(s)) == s
  {
    if |s| == 2 {
      TwoUnits(s[0] as int, s[1] as int);
    } else if |s| == 3 {
      ThreeEncoded(s);
    } else if |s| == 4 {
      FourEncoded(s);
    }
  }

  lemma {:induction false} ThreeEncoded(s: string)
    requires Grammatical(s) && |s| == 3
    ensures Scalar(CodePoint(s)) && Encode(CodePoint(s)) == s
  {
    ThreeUnits(s[0] as int, s[1] as int, s[2] as int);
  }

  lemma {:induction false} FourEncoded(s: string)
    requires Grammatical(s) && |s| == 4
    ensures Scalar(CodePoint(s)) && Encode(CodePoint(s)) == s
  {
    FourUnits(s[0] as int, s[1] as int, s[2] as int, s[3] as int);
  }

  lemma {:induction false} EncodedIsGrammatical(cp: nat)
    requires Scalar(cp)
    ensures Grammatical(Encode(cp))
  {
  }

  lemma {:induction false} Marked(n: nat)
    ensures n < 64 ==> (0x80 + n) % 64 == n
    ensures n < 32 ==> (0xC0 + n) % 32 == n
    ensures n < 16 ==> (0xE0 + n) % 16 == n
    ensures n < 8 ==> (0xF0 + n) % 8 == n
  {
  }

  /** The encoding of a scalar value has its code point. */
  lemma {:induction false} EncodedIs(cp: nat)
    requires Scalar(cp)
    ensures Grammatical(Encode(cp)) && CodePoint(Encode(cp)) == cp
  {
    EncodedIsGrammatical(cp);
    Marked(cp % 64);
    Marked(cp / 64 % 64);
    Marked(cp / 4096 % 64);
    Marked(cp / 64);
    Marked(cp / 4096);
    Marked(cp / 262144);
    Quotients(cp);
  }

  lemma {:induction false} Quotients(n: nat)
    ensures n == n / 64 * 64 + n % 64 == n / 4096 * 4096 + n / 64 % 64 * 64 + n % 64
    ensures n == n / 262144 * 262144 + n / 4096 % 64 * 4096 + n / 64 % 64 * 64 + n % 64
  {
    var q := n / 64;
    assert q / 64 == n / 4096 && q / 64 / 64 == n / 262144;
    assert q == 64 * (q / 64) + q % 64 && q / 64 == 64 * (q / 64 / 64) + q / 64 % 64;
  }

  /** The table accepts exactly the encodings of scalar values. */
  lemma {:induction false} SequenceIffEncoded(s: string)
    ensures Sequence(s) <==> exists cp :: Scalar(cp) && s == Encode(cp)
  {
    SequenceIsGrammatical(s);
    if Grammatical(s) {
      GrammaticalIsEncoded(s);
      assert s == Encode(CodePoint(s));
    }
    if cp :| Scalar(cp) && s == Encode(cp) { EncodedIsGrammatical(cp); }
  }

  /** A string of encoded scalar values. */
  ghost predicate WellFormed(s: string)
    decreases |s|
  {
    s == "" || exists cp, n :: Scalar(cp) && 0 < n <= |s| && s[..n] == Encode(cp) && WellFormed(s[n..])
  }

  /** The length of the sequence at the front, or zero. */
  function SequenceLength(s: string): (n: nat)
    ensures n <= |s| && (n > 0 ==> Sequence(s[..n]))
  {
    if s == "" || LeadOf(s[0]).NoLead? then 0
    else
      var n := 1 + LeadOf(s[0]).tails;
      if n <= |s| && Sequence(s[..n]) then n else 0
  }

  lemma {:induction false} SequenceLengthIs(s: string, n: nat)
    requires n <= |s| && Sequence(s[..n])
    ensures SequenceLength(s) == n
  {
  }

  lemma {:induction false} WellFormedStep(s: string)
    requires s != ""
    ensures WellFormed(s) <==> SequenceLength(s) > 0 && WellFormed(s[SequenceLength(s)..])
  {
    if WellFormed(s) {
      var cp, n :| Scalar(cp) && 0 < n <= |s| && s[..n] == Encode(cp) && WellFormed(s[n..]);
      SequenceIffEncoded(s[..n]);
      SequenceLengthIs(s, n);
    }
    var n := SequenceLength(s);
    if n > 0 && WellFormed(s[n..]) {
      SequenceIffEncoded(s[..n]);
      var cp :| Scalar(cp) && s[..n] == Encode(cp);
    }
  }
}
