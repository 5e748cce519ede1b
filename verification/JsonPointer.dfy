/**
 JSON Pointer: names are escaped twice, for the pointer and for the URI fragment, and parsing gives them back.
 */
module JsonPointer {
  import opened Text
  import opened JsonScan
  import opened Utf8
  import JsonWriter

  datatype PointerError = NoError | TokenMustBeginWithSolidus | InvalidEscape | InvalidPercentEncoding | CharacterMustPercentEncode

  // ---- percent encoding ----

  /** All characters but the unreserved ones of section 2.3 of RFC 3986. */
  predicate NeedPercentEncode(c: char) {
    !(IsDigit(c) || 'A' <= c <= 'Z' || 'a' <= c <= 'z' || c == '-' || c == '.' || c == '_' || c == '~')
  }

  function Percent(c: char): string
    requires c as int < 256
  {
    ['%', JsonWriter.HexChar(c as int / 16), JsonWriter.HexChar(c as int % 16)]
  }

  predicate Bytes(s: string) {
    forall i | 0 <= i < |s| :: s[i] as int < 256
  }

  function PercentAll(s: string): string
    requires Bytes(s)
  {
    if s == "" then "" else Percent(s[0]) + PercentAll(s[1..])
  }

  datatype Taken = Octet(c: char) | NotOctet

  /** One triplet of a percent sign and two hexadecimal digits. */
  function TakeOctet(text: string): (t: Taken)
    ensures t.Octet? ==> |text| >= 3 && t.c as int < 256
  {
    if |text| < 3 || text[0] != '%' then NotOctet
    else
      var a, b := HexDigit(text[1]), HexDigit(text[2]);
      if a.NoNat? || b.NoNat? then NotOctet else Octet((16 * a.n + b.n) as char)
  }

  datatype Decoded = Units(s: string, rest: string) | BadPercent

  function TakeOctets(text: string, n: nat): (d: Decoded)
    ensures d.Units? ==> |d.s| == n && |text| >= 3 * n && d.rest == text[3 * n..]
  {
    if n == 0 then Units("", text)
    else
      var t := TakeOctet(text);
      if t.NotOctet? then BadPercent
      else
        match TakeOctets(text[3..], n - 1)
        case BadPercent => BadPercent
        case Units(s, rest) => Units([t.c] + s, rest)
  }

  /** The percent-encoded sequence at the front of a text. */
  function Decode(text: string): (d: Decoded)
    ensures d.Units? ==> d.s != "" && Sequence(d.s) && |d.rest| < |text|
  {
    var t := TakeOctet(text);
    if t.NotOctet? || LeadOf(t.c).NoLead? then BadPercent
    else
      var d := TakeOctets(text, 1 + LeadOf(t.c).tails);
      if d.Units? && Sequence(d.s) then d else BadPercent
  }

  /** Decoding by the first octet. */
  lemma {:induction false} DecodeIs(text: string)
    ensures var t := TakeOctet(text);
            && (t.NotOctet? || LeadOf(t.c).NoLead? ==> Decode(text) == BadPercent)
            && (t.Octet? && t.c as int < 0x80 ==> Decode(text) == Units([t.c], text[3..]))
            && (t.Octet? && LeadOf(t.c).Lead? ==>
                  var d := TakeOctets(text, 1 + LeadOf(t.c).tails);
                  Decode(text) == if d.Units? && TailsOf(d.s[1..], LeadOf(t.c).mask) then d else BadPercent)
  {
    var t := TakeOctet(text);
    if t.Octet? && LeadOf(t.c).Lead? {
      var d := TakeOctets(text, 1 + LeadOf(t.c).tails);
      if d.Units? { assert d.s[0] == t.c; }
      if t.c as int < 0x80 { assert TakeOctets(text[3..], 0) == Units("", text[3..]) && [t.c][1..] == "" && d.s == [t.c]; }
    }
  }

  lemma {:induction false} SeveralUnits(s: string)
    requires Sequence(s) && |s| > 1
    ensures !IsDigit(s[0])
  {
    LeadIs(s[0]);
  }

  // ---- parsing ----

  /** A name and the text after it, or an error and the text at its offset. */
  datatype Named = Name(s: string, rest: string) | BadName(code: PointerError, at: string)

  function PrependTo(s: string, n: Named): Named {
    match n
    case BadName(_, _) => n
    case Name(t, rest) => Name(s + t, rest)
  }

  /** A name up to the next slash. */
  function ScanName(text: string, uri: bool): (n: Named)
    ensures n.Name? ==> |n.rest| <= |text| && (n.rest == "" || n.rest[0] == '/')
    decreases |text|, 0
  {
    if text == "" || text[0] == '/' then Name("", text)
    else if uri && text[0] == '%' then
      match Decode(text)
      case BadPercent => BadName(InvalidPercentEncoding, text)
      case Units(s, rest) => if |s| == 1 then ScanEscaped(s[0], rest, uri) else PrependTo(s, ScanName(rest, uri))
    else if uri && NeedPercentEncode(text[0]) then BadName(CharacterMustPercentEncode, text)
    else
      ScanEscaped(text[0], text[1..], uri)
  }

  /** A name whose first character is `c`, perhaps a tilde that escapes the next one. */
  function ScanEscaped(c: char, rest: string, uri: bool): (n: Named)
    ensures n.Name? ==> |n.rest| <= |rest| && (n.rest == "" || n.rest[0] == '/')
    decreases |rest|, 1
  {
    if c != '~' then PrependTo([c], ScanName(rest, uri))
    else if Peek(rest) == '0' then PrependTo("~", ScanName(rest[1..], uri))
    else if Peek(rest) == '1' then PrependTo("/", ScanName(rest[1..], uri))
    else BadName(InvalidEscape, rest)
  }

  /** A character that is neither percent-encoded nor has to be. */
  lemma {:induction false} PlainScanned(text: string, uri: bool)
    requires text != "" && text[0] != '/' && !(uri && text[0] == '%')
    ensures ScanName(text, uri)
         == if uri && NeedPercentEncode(text[0]) then BadName(CharacterMustPercentEncode, text) else ScanEscaped(text[0], text[1..], uri)
  {
  }

  datatype Tokens = Tokens(names: seq<string>) | BadTokens(code: PointerError, at: string)

  function AddTokens(names: seq<string>, t: Tokens): Tokens {
    match t
    case BadTokens(_, _) => t
    case Tokens(others) => Tokens(names + others)
  }

  function ScanTokens(text: string, uri: bool): Tokens
    requires text == "" || text[0] == '/'
    decreases |text|
  {
    if text == "" then Tokens([])
    else
      match ScanName(text[1..], uri)
      case BadName(code, at) => BadTokens(code, at)
      case Name(s, rest) => AddTokens([s], ScanTokens(rest, uri))
  }

  function ParsePointer(source: string): Tokens {
    var uri := Peek(source) == '#';
    var text := if uri then source[1..] else source;
    if text != "" && text[0] != '/' then BadTokens(TokenMustBeginWithSolidus, text) else ScanTokens(text, uri)
  }

  // ---- printing ----

  datatype Shown = Shown(text: string) | NotUtf8

  function Before(s: string, shown: Shown): Shown {
    match shown
    case NotUtf8 => NotUtf8
    case Shown(text) => Shown(s + text)
  }

  lemma {:induction false} SequenceBytes(s: string)
    requires Sequence(s)
    ensures Bytes(s)
  {
    SequenceIsGrammatical(s);
  }

  function ShowName(name: string, uri: bool): Shown
    decreases |name|
  {
    if name == "" then Shown("")
    else if name[0] == '~' then Before("~0", ShowName(name[1..], uri))
    else if name[0] == '/' then Before("~1", ShowName(name[1..], uri))
    else if uri && NeedPercentEncode(name[0]) then
      var n := SequenceLength(name);
      if n == 0 then NotUtf8
      else
        SequenceBytes(name[..n]);
        Before(PercentAll(name[..n]), ShowName(name[n..], uri))
    else Before([name[0]], ShowName(name[1..], uri))
  }

  function ShowNames(names: seq<string>, uri: bool): Shown {
    if names == [] then Shown("")
    else
      match ShowName(names[0], uri)
      case NotUtf8 => NotUtf8
      case Shown(text) => Before("/" + text, ShowNames(names[1..], uri))
  }

  function ShowPointer(names: seq<string>, uri: bool): Shown {
    if uri then Before("#", ShowNames(names, uri)) else ShowNames(names, uri)
  }

  // ---- parsing what was printed ----

  lemma {:induction false} OctetReads(c: char, rest: string)
    requires c as int < 256
    ensures TakeOctet(Percent(c) + rest) == Octet(c) && (Percent(c) + rest)[3..] == rest
  {
    var text := Percent(c) + rest;
    assert text[0] == '%' && text[1] == Percent(c)[1] && text[2] == Percent(c)[2];
    assert HexDigit(text[1]) == SomeNat(c as int / 16) && HexDigit(text[2]) == SomeNat(c as int % 16);
  }

  lemma {:induction false} Grouped(a: string, b: string, c: string)
    ensures (a + b) + c == a + (b + c)
  {
  }

  lemma {:induction false} OctetsRead(s: string, rest: string)
    requires Bytes(s)
    ensures TakeOctets(PercentAll(s) + rest, |s|) == Units(s, rest)
  {
    hide Percent, TakeOctet;
    if s == "" {
      assert PercentAll(s) + rest == rest;
    } else {
      Grouped(Percent(s[0]), PercentAll(s[1..]), rest);
      OctetReads(s[0], PercentAll(s[1..]) + rest);
      OctetsRead(s[1..], rest);
    }
  }

  lemma {:induction false} SequenceReads(s: string, rest: string)
    requires Sequence(s)
    ensures Bytes(s) && Decode(PercentAll(s) + rest) == Units(s, rest) && Peek(PercentAll(s) + rest) == '%'
  {
    SequenceBytes(s);
    Grouped(Percent(s[0]), PercentAll(s[1..]), rest);
    OctetReads(s[0], PercentAll(s[1..]) + rest);
    OctetsRead(s, rest);
  }

  lemma {:induction false} PlainReads(c: char, t: string, uri: bool)
    requires c != '/' && c != '~' && !(uri && NeedPercentEncode(c))
    ensures ScanName([c] + t, uri) == PrependTo([c], ScanName(t, uri))
  {
    assert ([c] + t)[1..] == t;
  }

  lemma {:induction false} TildeReads(d: char, t: string, uri: bool)
    requires d == '0' || d == '1'
    ensures ScanName(['~', d] + t, uri) == PrependTo(if d == '0' then "~" else "/", ScanName(t, uri))
  {
    var text := ['~', d] + t;
    assert text[1..] == [d] + t && text[1..][1..] == t;
  }

  lemma {:induction false} PercentReads(s: string, t: string)
    requires Sequence(s) && s[0] != '~'
    ensures Bytes(s) && ScanName(PercentAll(s) + t, true) == PrependTo(s, ScanName(t, true))
  {
    SequenceReads(s, t);
    if |s| == 1 { assert s == [s[0]]; }
  }

  lemma {:induction false} NoName(rest: string, uri: bool)
    requires rest == "" || rest[0] == '/'
    ensures ScanName(rest, uri) == Name("", rest)
  {
  }

  lemma {:induction false} NameReads(name: string, uri: bool, rest: string)
    requires ShowName(name, uri).Shown? && (rest == "" || rest[0] == '/')
    ensures ScanName(ShowName(name, uri).text + rest, uri) == Name(name, rest)
    decreases |name|
  {
    hide ScanName, PercentAll;
    if name == "" {
      NoName(rest, uri);
      assert "" + rest == rest;
    } else if uri && name[0] != '/' && NeedPercentEncode(name[0]) {
      var n := SequenceLength(name);
      var s, others := name[..n], name[n..];
      PercentReads(s, ShowName(others, uri).text + rest);
      NameReads(others, uri, rest);
      Grouped(PercentAll(s), ShowName(others, uri).text, rest);
      assert s + others == name;
    } else {
      var others := name[1..];
      NameReads(others, uri, rest);
      CharacterReads(name[0], ShowName(others, uri).text, uri, rest);
      assert [name[0]] + others == name;
    }
  }

  /** What a character that is not percent-encoded is printed as. */
  function Escape(c: char): string {
    if c == '~' then "~0" else if c == '/' then "~1" else [c]
  }

  lemma {:induction false} CharacterReads(c: char, t: string, uri: bool, rest: string)
    requires c == '/' || !(uri && NeedPercentEncode(c))
    ensures ScanName((Escape(c) + t) + rest, uri) == PrependTo([c], ScanName(t + rest, uri))
  {
    Grouped(Escape(c), t, rest);
    if c == '~' {
      TildeReads('0', t + rest, uri);
    } else if c == '/' {
      TildeReads('1', t + rest, uri);
    } else {
      PlainReads(c, t + rest, uri);
    }
  }

  lemma {:induction false} NamesStart(names: seq<string>, uri: bool)
    requires ShowNames(names, uri).Shown?
    ensures var text := ShowNames(names, uri).text; text == "" || text[0] == '/'
  {
  }

  lemma {:induction false} TokenReads(s: string, t: string, rest: string, uri: bool)
    requires (rest == "" || rest[0] == '/') && ScanName(t + rest, uri) == Name(s, rest)
    ensures var text := ("/" + t) + rest;
            text[0] == '/' && ScanTokens(text, uri) == AddTokens([s], ScanTokens(rest, uri))
  {
    assert (("/" + t) + rest)[1..] == t + rest;
  }

  lemma {:induction false} NamesRead(names: seq<string>, uri: bool)
    requires ShowNames(names, uri).Shown?
    ensures var text := ShowNames(names, uri).text;
            (text == "" || text[0] == '/') && ScanTokens(text, uri) == Tokens(names)
  {
    hide ShowName, ScanName;
    if names != [] {
      var rest, t := ShowNames(names[1..], uri).text, ShowName(names[0], uri).text;
      NamesStart(names[1..], uri);
      NamesRead(names[1..], uri);
      NameReads(names[0], uri, rest);
      TokenReads(names[0], t, rest, uri);
      assert [names[0]] + names[1..] == names;
    }
  }

  /** Parsing a printed pointer, in either form, gives its names back. */
  lemma {:induction false} PointerRoundTrip(names: seq<string>, uri: bool)
    requires ShowPointer(names, uri).Shown?
    ensures ParsePointer(ShowPointer(names, uri).text) == Tokens(names)
  {
    var text := ShowNames(names, uri).text;
    NamesRead(names, uri);
    if uri {
      assert ("#" + text)[1..] == text;
    }
  }

  lemma {:induction false} PlainShows(names: seq<string>)
    ensures ShowNames(names, false).Shown?
  {
    if names != [] {
      PlainNameShows(names[0]);
      PlainShows(names[1..]);
    }
  }

  lemma {:induction false} PlainNameShows(name: string)
    ensures ShowName(name, false).Shown?
  {
    if name != "" { PlainNameShows(name[1..]); }
  }

  lemma {:induction false} AsciiIsSequence(s: string)
    requires s != "" && s[0] as int < 0x80
    ensures SequenceLength(s) == 1
  {
    assert s[..1] == [s[0]] && [s[0]][1..] == "";
  }

  lemma {:induction false} UriNameShows(name: string)
    ensures ShowName(name, true).Shown? <==> WellFormed(name)
    decreases |name|
  {
    if name != "" {
      WellFormedStep(name);
      if name[0] != '/' && NeedPercentEncode(name[0]) {
        if SequenceLength(name) > 0 { UriNameShows(name[SequenceLength(name)..]); }
      } else {
        AsciiIsSequence(name);
        UriNameShows(name[1..]);
      }
    }
  }

  /** The plain form can always be printed, the form of a URI fragment if and only if all names are well-formed UTF-8. */
  lemma {:induction false} PointerShows(names: seq<string>, uri: bool)
    ensures ShowPointer(names, uri).Shown? <==> !uri || forall i | 0 <= i < |names| :: WellFormed(names[i])
  {
    if !uri {
      PlainShows(names);
    } else {
      UriShows(names);
    }
  }

  lemma {:induction false} UriShows(names: seq<string>)
    ensures ShowNames(names, true).Shown? <==> forall i | 0 <= i < |names| :: WellFormed(names[i])
  {
    if names != [] {
      UriNameShows(names[0]);
      UriShows(names[1..]);
      assert forall i | 1 <= i < |names| :: names[i] == names[1..][i - 1];
      if forall i | 0 <= i < |names[1..]| :: WellFormed(names[1..][i]) {
        forall i | 1 <= i < |names| ensures WellFormed(names[i]) { assert names[i] == names[1..][i - 1]; }
      }
    }
  }

  // ---- counting tokens ----

  function Slashes(text: string): nat {
    if text == "" then 0 else (if text[0] == '/' then 1 else 0) + Slashes(text[1..])
  }

  lemma {:induction false} OctetHasNoSlash(text: string)
    requires TakeOctet(text).Octet?
    ensures Slashes(text) == Slashes(text[3..])
  {
    assert text[1..][1..] == text[2..] && text[2..][1..] == text[3..];
    assert text[1..][0] == text[1] != '/' && text[2..][0] == text[2] != '/';
    assert Slashes(text[1..]) == Slashes(text[2..]) == Slashes(text[3..]);
  }

  lemma {:induction false} OctetsHaveNoSlash(text: string, n: nat)
    requires TakeOctets(text, n).Units?
    ensures Slashes(text) == Slashes(TakeOctets(text, n).rest)
  {
    if n > 0 {
      OctetHasNoSlash(text);
      OctetsHaveNoSlash(text[3..], n - 1);
    }
  }

  lemma {:induction false} NameHasNoSlash(text: string, uri: bool)
    requires ScanName(text, uri).Name?
    ensures Slashes(text) == Slashes(ScanName(text, uri).rest)
    decreases |text|, 0
  {
    if text == "" || text[0] == '/' {
    } else if uri && text[0] == '%' {
      var d := Decode(text);
      OctetsHaveNoSlash(text, 1 + LeadOf(TakeOctet(text).c).tails);
      if |d.s| == 1 { EscapedHasNoSlash(d.s[0], d.rest, uri); } else { NameHasNoSlash(d.rest, uri); }
    } else {
      EscapedHasNoSlash(text[0], text[1..], uri);
    }
  }

  lemma {:induction false} EscapedHasNoSlash(c: char, rest: string, uri: bool)
    requires ScanEscaped(c, rest, uri).Name?
    ensures Slashes(rest) == Slashes(ScanEscaped(c, rest, uri).rest)
    decreases |rest|, 1
  {
    if c != '~' { NameHasNoSlash(rest, uri); } else { NameHasNoSlash(rest[1..], uri); }
  }

  lemma {:induction false} TokensAreSlashes(text: string, uri: bool)
    requires (text == "" || text[0] == '/') && ScanTokens(text, uri).Tokens?
    ensures |ScanTokens(text, uri).names| == Slashes(text)
    decreases |text|
  {
    if text != "" {
      NameHasNoSlash(text[1..], uri);
      TokensAreSlashes(ScanName(text[1..], uri).rest, uri);
    }
  }

  /** There are as many tokens as slashes. */
  lemma {:induction false} TokenCount(source: string)
    requires ParsePointer(source).Tokens?
    ensures |ParsePointer(source).names| == Slashes(source)
  {
    var uri := Peek(source) == '#';
    TokensAreSlashes(if uri then source[1..] else source, uri);
  }

  // ---- array indices ----

  const SIZES := 0x1_0000_0000
  const INVALID_INDEX := 0xFFFF_FFFF

  /** Conversion in 32 bits: a wrapped number that is smaller than the one before is noticed, any other is not. */
  function IndexFrom(s: string, n: nat): (index: nat)
    requires AllDigits(s) && n < SIZES
    ensures index < SIZES
  {
    if s == "" then n
    else
      var m := (n * 10 + (s[0] as int - '0' as int)) % SIZES;
      if m < n then INVALID_INDEX else IndexFrom(s[1..], m)
  }

  predicate IsNumber(s: string) {
    AllDigits(s) && s != "" && !(|s| > 1 && s[0] == '0')
  }

  function Index(s: string): (index: nat)
    ensures index < SIZES
  {
    if IsNumber(s) then IndexFrom(s, 0) else INVALID_INDEX
  }

  lemma {:induction false} IndexFromIs(s: string, n: nat)
    requires AllDigits(s) && ValueFrom(s, n) < SIZES
    ensures n < SIZES && IndexFrom(s, n) == ValueFrom(s, n)
  {
    if s != "" {
      IndexStep(s, n);
      IndexFromIs(s[1..], 10 * n + (s[0] as int - '0' as int));
    }
  }

  /** The index of a number is the number if and only if it fits into 32 bits. */
  lemma {:induction false} IndexExactIff(s: string)
    requires IsNumber(s)
    ensures Index(s) == ValueFrom(s, 0) <==> ValueFrom(s, 0) < SIZES
  {
    if ValueFrom(s, 0) < SIZES { IndexFromIs(s, 0); }
  }

  /** Adding digit `i` leaves less than there was before, which is the test for a wrap-around. */
  predicate Shrinks(s: string, i: nat)
    requires i < |s|
  {
    Wrapped(s[..i + 1]) < Wrapped(s[..i])
  }

  predicate ShrinksFrom(s: string, i: nat) {
    exists j | i <= j < |s| :: Shrinks(s, j)
  }

  lemma {:induction false} IndexFromWraps(s: string, i: nat)
    requires AllDigits(s) && i <= |s|
    ensures IndexFrom(s[i..], Wrapped(s[..i])) == if ShrinksFrom(s, i) then INVALID_INDEX else Wrapped(s)
    decreases |s| - i
  {
    if i == |s| {
      assert s[..i] == s;
    } else {
      WrappedStep(s, i);
      IndexFromWraps(s, i + 1);
      assert s[i..][1..] == s[i + 1..] && s[i..][0] == s[i];
      assert ShrinksFrom(s, i) <==> Shrinks(s, i) || ShrinksFrom(s, i + 1);
    }
  }

  /** The index of a number is the number modulo 2^32, unless some digit leaves less than there was before. */
  lemma {:induction false} IndexIs(s: string)
    requires IsNumber(s)
    ensures Index(s) == if ShrinksFrom(s, 0) then INVALID_INDEX else Wrapped(s)
  {
    assert s[0..] == s && s[..0] == "";
    IndexFromWraps(s, 0);
  }

  /** One digit more than fits: the wrap is noticed exactly when it leaves less than there was before. */
  lemma {:induction false} IndexOfNext(n: nat, d: nat)
    requires 0 < n < SIZES && d < 10
    ensures IsNumber(Dec(10 * n + d))
    ensures var m := (10 * n + d) % SIZES; Index(Dec(10 * n + d)) == if m < n then INVALID_INDEX else m
  {
    hide Dec, ValueFrom;
    var s, t := Dec(n), [DigitChar(d)];
    DecIs(10 * n + d);
    DecIs(n);
    DecSnoc(n, d);
    IndexSplits(s, t, 0);
    assert t[1..] == "";
  }

  /** A wrap that goes unnoticed: 5000000000 becomes 705032704. */
  lemma {:induction false} IndexWraps(n: nat)
    requires n == 5000000000
    ensures IsNumber(Dec(n)) && Index(Dec(n)) == 705032704
  {
    IndexOfNext(n / 10, 0);
  }

  lemma {:induction false} IndexStep(s: string, n: nat)
    requires s != "" && AllDigits(s) && ValueFrom(s, n) < SIZES
    ensures var m := 10 * n + (s[0] as int - '0' as int);
            n <= m < SIZES && AllDigits(s[1..]) && ValueFrom(s[1..], m) == ValueFrom(s, n) && IndexFrom(s, n) == IndexFrom(s[1..], m)
  {
    ValueGrows(s, n);
    ValueGrows(s[1..], 10 * n + (s[0] as int - '0' as int));
  }

  lemma {:induction false} IndexSplits(s: string, t: string, n: nat)
    requires AllDigits(s) && AllDigits(t) && ValueFrom(s, n) < SIZES
    ensures AllDigits(s + t) && n < SIZES && IndexFrom(s + t, n) == IndexFrom(t, ValueFrom(s, n))
  {
    hide IndexFrom;
    if s == "" {
      assert s + t == t;
    } else {
      var m := 10 * n + (s[0] as int - '0' as int);
      IndexStep(s, n);
      IndexSplits(s[1..], t, m);
      assert (s + t)[1..] == s[1..] + t && (s + t)[0] == s[0];
      FirstStep(s + t, n);
    }
  }

  lemma {:induction false} FirstStep(s: string, n: nat)
    requires s != "" && AllDigits(s) && 10 * n + (s[0] as int - '0' as int) < SIZES
    ensures AllDigits(s[1..]) && IndexFrom(s, n) == IndexFrom(s[1..], 10 * n + (s[0] as int - '0' as int))
  {
  }

  // ---- one step at a time ----

  lemma {:induction false} PrependTwice(s: string, t: string, n: Named)
    ensures PrependTo(s, PrependTo(t, n)) == PrependTo(s + t, n)
  {
    if n.Name? { Grouped(s, t, n.s); }
  }

  lemma {:induction false} OneMoreOctet(text: string, n: nat)
    ensures TakeOctets(text, n + 1) ==
            match TakeOctets(text, n)
            case BadPercent => BadPercent
            case Units(s, rest) => if TakeOctet(rest).NotOctet? then BadPercent else Units(s + [TakeOctet(rest).c], rest[3..])
  {
    hide TakeOctet;
    var t := TakeOctet(text);
    if t.Octet? {
      if n == 0 {
        assert TakeOctets(text[3..], 0) == Units("", text[3..]);
      } else {
        OneMoreOctet(text[3..], n - 1);
        var d := TakeOctets(text[3..], n - 1);
        if d.Units? && TakeOctet(d.rest).Octet? {
          Grouped([t.c], d.s, [TakeOctet(d.rest).c]);
        }
      }
    }
  }

  lemma {:induction false} StreamStep(source: string, i: nat, src: nat, n: nat, units: string)
    requires i <= |source| && src <= |source| && TakeOctets(source[i..], n) == Units(units, source[src..])
    ensures TakeOctets(source[i..], n + 1) ==
            match TakeOctet(source[src..])
            case NotOctet => BadPercent
            case Octet(c) => Units(units + [c], source[src + 3..])
  {
    OneMoreOctet(source[i..], n);
    if TakeOctet(source[src..]).Octet? { assert source[src..][3..] == source[src + 3..]; }
  }

  lemma {:induction false} OneMoreTail(s: string, mask: bv8, c: char)
    ensures TailsOf(s + [c], mask) <==> TailsOf(s, mask) && IsTail(c, if s == "" then mask else ANY_TAIL)
  {
    if s == "" {
      assert (s + [c])[1..] == "";
    } else {
      assert (s + [c])[1..] == s[1..] + [c];
      OneMoreTail(s[1..], ANY_TAIL, c);
    }
  }

  lemma {:induction false} SlashesStep(source: string, i: nat)
    requires i < |source|
    ensures Slashes(source[i..]) == (if source[i] == '/' then 1 else 0) + Slashes(source[i + 1..])
  {
    assert source[i..][1..] == source[i + 1..];
  }

  lemma {:induction false} AddTwice(names: seq<string>, s: string, t: Tokens)
    ensures AddTokens(names, AddTokens([s], t)) == AddTokens(names + [s], t)
  {
    if t.Tokens? { assert (names + [s]) + t.names == names + ([s] + t.names); }
  }

  lemma {:induction false} BeforeTwice(a: string, b: string, shown: Shown)
    ensures Before(a, Before(b, shown)) == Before(a + b, shown)
  {
    if shown.Shown? { Grouped(a, b, shown.text); }
  }

  lemma {:induction false} OnePercent(s: string, i: nat)
    requires Bytes(s) && i < |s|
    ensures PercentAll(s[i..]) == Percent(s[i]) + PercentAll(s[i + 1..])
  {
    assert s[i..][1..] == s[i + 1..];
  }

  // ---- the object ----

  /** A token: where its name is in the buffer, and its index. */
  datatype Token = Token(start: nat, length: nat, index: nat)

  class Pointer {
    var nameBuffer: array<char>
    var tokens: array<Token>
    var parseErrorCode: PointerError
    var parseErrorOffset: nat

    constructor ()
      ensures parseErrorCode == NoError && tokens.Length == 0 && HoldsAll([])
    {
      nameBuffer, tokens := new char[0], new Token[0];
      parseErrorCode, parseErrorOffset := NoError, 0;
    }

    /** The token's name is in the buffer, followed by a null character. */
    static predicate Holds(buffer: seq<char>, t: Token, name: string) {
      && t.start + t.length < |buffer| && buffer[t.start..t.start + t.length] == name
      && buffer[t.start + t.length] == '\0' && t.index == Index(name)
    }

    ghost predicate HoldsAll(names: seq<string>)
      reads this, nameBuffer, tokens
    {
      tokens.Length == |names| && forall k | 0 <= k < |names| :: Holds(nameBuffer[..], tokens[k], names[k])
    }

    /** Takes one octet off the stream; a stream that has failed yields null characters. */
    static method Take(source: string, i: nat, valid: bool) returns (c: char, i': nat, valid': bool)
      requires i <= |source|
      ensures valid && TakeOctet(source[i..]).Octet? ==> valid' && c == TakeOctet(source[i..]).c && i' == i + 3 <= |source|
      ensures !(valid && TakeOctet(source[i..]).Octet?) ==> !valid' && c == '\0' && i' == i
    {
      c, i', valid' := '\0', i, false;
      if valid && i + 3 <= |source| && source[i] == '%' {
        var a, b := HexDigit(source[i + 1]), HexDigit(source[i + 2]);
        if a.SomeNat? && b.SomeNat? {
          c, i', valid' := (16 * a.n + b.n) as char, i + 3, true;
        }
      }
    }

    /** The stream has taken `n` octets, those in `units`, or has failed. */
    static ghost predicate Stream(source: string, i: nat, n: nat, src: nat, valid: bool, units: string) {
      && i <= |source| && src <= |source|
      && if valid then src == i + 3 * n && TakeOctets(source[i..], n) == Units(units, source[src..])
         else TakeOctets(source[i..], n) == BadPercent
    }

    /** Takes one more octet and puts it into the buffer. */
    method PutOctet(source: string, i: nat, src0: nat, valid0: bool, name: nat, n: nat) returns (c: char, src: nat, valid: bool)
      requires name + n < nameBuffer.Length && Stream(source, i, n, src0, valid0, nameBuffer[name..name + n])
      modifies nameBuffer
      ensures nameBuffer[..name + n] == old(nameBuffer[..name + n]) && nameBuffer[name + n] == c && (!valid ==> c == '\0')
      ensures Stream(source, i, n + 1, src, valid, nameBuffer[name..name + n + 1])
    {
      ghost var was := nameBuffer[name..name + n];
      if valid0 { StreamStep(source, i, src0, n, was); } else { OneMoreOctet(source[i..], n); }
      c, src, valid := Take(source, src0, valid0);
      nameBuffer[name + n] := c;
      assert nameBuffer[name..name + n + 1] == was + [c];
    }

    /** The units after the first: all are taken, whatever they are. */
    method DecodeTails(source: string, i: nat, src0: nat, name: nat, lead: Lead) returns (result: bool, src: nat, valid: bool, len: nat)
      requires name + 4 <= nameBuffer.Length && lead.Lead? && lead.tails <= 3
      requires Stream(source, i, 1, src0, true, nameBuffer[name..name + 1])
      modifies nameBuffer
      ensures nameBuffer[..name + 1] == old(nameBuffer[..name + 1]) && len == 1 + lead.tails
      ensures Stream(source, i, len, src, valid, nameBuffer[name..name + len])
      ensures result <==> TailsOf(nameBuffer[name + 1..name + len], lead.mask)
    {
      hide TakeOctets, GetRange;
      result, src, valid, len := true, src0, true, 1;
      var mask := lead.mask;
      while len < 1 + lead.tails
        invariant 1 <= len <= 1 + lead.tails && mask == if len == 1 then lead.mask else ANY_TAIL
        invariant nameBuffer[..name + 1] == old(nameBuffer[..name + 1])
        invariant Stream(source, i, len, src, valid, nameBuffer[name..name + len])
        invariant result <==> TailsOf(nameBuffer[name + 1..name + len], lead.mask)
      {
        ghost var all := nameBuffer[..name + len];
        var c;
        c, src, valid := PutOctet(source, i, src, valid, name, len);
        OneMoreTail(all[name + 1..], lead.mask, c);
        assert nameBuffer[..name + 1] == all[..name + 1];
        assert nameBuffer[name + 1..name + len + 1] == all[name + 1..] + [c];
        result, mask, len := result && IsTail(c, mask), ANY_TAIL, len + 1;
      }
    }

    /** Copies one percent-encoded sequence to the buffer, its invalid parts included, and tells whether it was valid. */
    method DecodePercent(source: string, i: nat, name: nat) returns (ok: bool, i': nat, len: nat)
      requires i <= |source| && name < nameBuffer.Length && (i + 3 <= |source| ==> name + 4 <= nameBuffer.Length)
      modifies nameBuffer
      ensures nameBuffer[..name] == old(nameBuffer[..name])
      ensures match Decode(source[i..])
              case BadPercent => !ok
              case Units(s, rest) =>
                && ok && len == |s| && i' == i + 3 * len <= |source| && source[i'..] == rest
                && name + len <= nameBuffer.Length && nameBuffer[name..name + len] == s
    {
      hide Decode, LeadOf, TailsOf, TakeOctets, TakeOctet;
      ghost var text := source[i..];
      DecodeIs(text);
      assert nameBuffer[name..name] == "";
      NoneTaken(source, i);
      var c, src, valid := PutOctet(source, i, i, true, name, 0);
      OneTaken(source, i, src, valid, nameBuffer[name..name + 1]);
      ok, i', len := valid, src, 1;
      if c as int >= 0x80 {
        ok := false;
        var lead := LeadOf(c);
        if lead.Lead? {
          ghost var front := nameBuffer[..name + 1];
          ok, i', valid, len := DecodeTails(source, i, src, name, lead);
          ok := ok && valid;
          assert nameBuffer[..name] == front[..name];
          assert nameBuffer[name..name + len][1..] == nameBuffer[name + 1..name + len];
        }
      }
    }

    static lemma {:induction false} NoneTaken(source: string, i: nat)
      requires i <= |source|
      ensures Stream(source, i, 0, i, true, "")
    {
    }

    static lemma {:induction false} OneTaken(source: string, i: nat, src: nat, valid: bool, units: string)
      requires Stream(source, i, 1, src, valid, units) && |units| == 1
      ensures TakeOctet(source[i..]) == if valid then Octet(units[0]) else NotOctet
      ensures valid ==> source[src..] == source[i..][3..]
    {
      OneMoreOctet(source[i..], 0);
    }

    /** The character at `i`, or what its percent-encoding or escape stands for, and where the next one is. */
    method Unescape(source: string, c0: char, i0: nat) returns (code: PointerError, c: char, i: nat)
      requires i0 <= |source|
      ensures i0 <= i <= i0 + 1 && i <= |source|
      ensures forall uri :: ScanEscaped(c0, source[i0..], uri) ==
                if code == NoError then PrependTo([c], ScanName(source[i..], uri)) else BadName(code, source[i..])
      ensures code == NoError || code == InvalidEscape
    {
      code, c, i := NoError, c0, i0;
      if c == '~' {
        if i < |source| {
          c := source[i];
          if c == '0' || c == '1' {
            c := if c == '0' then '~' else '/';
            i := i + 1;
            assert source[i0..][1..] == source[i..];
          } else {
            code := InvalidEscape;
          }
        } else {
          code := InvalidEscape;
        }
      }
    }

    /** What percent-encoding stands for: one character, or several units, which are in the buffer. */
    method ReadPercent(source: string, i0: nat, name: nat) returns (ok: bool, i: nat, len: nat)
      requires nameBuffer.Length == |source| && i0 < |source| && source[i0] == '%' && name + 2 <= i0
      modifies nameBuffer
      ensures nameBuffer[..name] == old(nameBuffer[..name])
      ensures !ok ==> ScanName(source[i0..], true) == BadName(InvalidPercentEncoding, source[i0..])
      ensures ok ==> 0 < len && i0 + len < i <= |source| && name + len <= nameBuffer.Length
      ensures ok && len == 1 ==> ScanName(source[i0..], true) == ScanEscaped(nameBuffer[name], source[i..], true)
      ensures ok && len > 1 ==>
        && ScanName(source[i0..], true) == PrependTo(nameBuffer[name..name + len], ScanName(source[i..], true))
        && !IsDigit(nameBuffer[name])
    {
      ok, i, len := DecodePercent(source, i0, name);
      if ok {
        ghost var s := nameBuffer[name..name + len];
        assert Decode(source[i0..]) == Units(s, source[i..]);
        assert s[0] == nameBuffer[name];
        if len > 1 { SeveralUnits(s); }
      }
    }

    /** One character, or the units that a percent-encoded sequence puts into the buffer if there are several. */
    method ReadUnits(source: string, uri: bool, i0: nat, name: nat) returns (code: PointerError, c: char, i: nat, len: nat)
      requires nameBuffer.Length == |source| && i0 < |source| && source[i0] != '/' && name + (if uri then 2 else 1) <= i0
      modifies nameBuffer
      ensures nameBuffer[..name] == old(nameBuffer[..name])
      ensures code != NoError ==> i == i0 && ScanName(source[i0..], uri) == BadName(code, source[i0..])
      ensures code == NoError ==> i0 < i <= |source| && i0 + len <= i && len > 0
      ensures code == NoError && len == 1 ==> ScanName(source[i0..], uri) == ScanEscaped(c, source[i..], uri)
      ensures code == NoError && len > 1 ==>
        && name + len <= nameBuffer.Length && !IsDigit(nameBuffer[name])
        && ScanName(source[i0..], uri) == PrependTo(nameBuffer[name..name + len], ScanName(source[i..], uri))
    {
      hide ScanName, ScanEscaped, PrependTo, Decode, NeedPercentEncode;
      code, c, i, len := NoError, source[i0], i0, 1;
      if !(uri && c == '%') { PlainScanned(source[i0..], uri); }
      if uri && c == '%' {
        var ok, j, n := ReadPercent(source, i0, name);
        if ok {
          c, i, len := nameBuffer[name], j, n;
        } else {
          code := InvalidPercentEncoding;
        }
      } else if uri && NeedPercentEncode(c) {
        code := CharacterMustPercentEncode;
      } else {
        i := i0 + 1;
        assert source[i0..][1..] == source[i..];
      }
    }

    /** One character, unescaped and put into the buffer. */
    method PutCharacter(source: string, c0: char, i0: nat, start: nat, name: nat, uri: bool) returns (code: PointerError, i: nat, digit: bool)
      requires i0 <= |source| && start <= name < nameBuffer.Length
      modifies nameBuffer
      ensures nameBuffer[..name] == old(nameBuffer[..name]) && i0 <= i <= |source|
      ensures code != NoError ==> ScanEscaped(c0, source[i0..], uri) == BadName(code, source[i..])
      ensures code == NoError ==>
        && ScanEscaped(c0, source[i0..], uri) == PrependTo(nameBuffer[name..name + 1], ScanName(source[i..], uri))
        && digit == IsDigit(nameBuffer[name])
    {
      var c;
      code, c, i := Unescape(source, c0, i0);
      digit := IsDigit(c);
      nameBuffer[name] := c;
      assert nameBuffer[name..name + 1] == [c];
    }

    /** The next part of a name, put into the buffer. */
    method PutUnits(source: string, uri: bool, i0: nat, start: nat, name: nat) returns (code: PointerError, i: nat, len: nat, digit: bool)
      requires nameBuffer.Length == |source| && i0 < |source| && source[i0] != '/'
      requires start <= name && name + (if uri then 2 else 1) <= i0
      modifies nameBuffer
      ensures nameBuffer[..name] == old(nameBuffer[..name]) && i <= |source|
      ensures code != NoError ==> ScanName(source[i0..], uri) == BadName(code, source[i..])
      ensures code == NoError ==>
        && 0 < len && i0 + len <= i && name + len <= nameBuffer.Length && (digit <==> AllDigits(nameBuffer[name..name + len]))
        && ScanName(source[i0..], uri) == PrependTo(nameBuffer[name..name + len], ScanName(source[i..], uri))
    {
      var c;
      code, c, i, len := ReadUnits(source, uri, i0, name);
      digit := false;
      if code == NoError {
        if len == 1 { code, i, digit := PutCharacter(source, c, i, start, name, uri); }
        if code == NoError { assert nameBuffer[name..name + len][0] == nameBuffer[name]; }
      }
    }

    /** One name, copied to the buffer from `start` on; the buffer has room for it and for the null character after it. */
    method ParseName(source: string, uri: bool, i0: nat, start: nat)
      returns (code: PointerError, i: nat, name: nat, isNumber: bool)
      requires nameBuffer.Length == |source| && i0 <= |source| && start + (if uri then 2 else 1) <= i0
      modifies nameBuffer
      ensures nameBuffer[..start] == old(nameBuffer[..start]) && i <= |source|
      ensures match ScanName(source[i0..], uri)
              case BadName(error, at) => code == error != NoError && source[i..] == at
              case Name(s, rest) =>
                && code == NoError && source[i..] == rest && start <= name && name + (if uri then 2 else 1) <= i
                && nameBuffer[start..name] == s && isNumber == AllDigits(s)
    {
      ghost var goal := ScanName(source[i0..], uri);
      code, i, name, isNumber := NoError, i0, start, true;
      while i < |source| && source[i] != '/'
        invariant i0 <= i <= |source| && start <= name && name + (if uri then 2 else 1) <= i
        invariant code == NoError && nameBuffer[..start] == old(nameBuffer[..start])
        invariant isNumber == AllDigits(nameBuffer[start..name])
        invariant goal == PrependTo(nameBuffer[start..name], ScanName(source[i..], uri))
      {
        ghost var was := nameBuffer[start..name];
        var len, digit;
        code, i, len, digit := PutUnits(source, uri, i, start, name);
        assert nameBuffer[start..name] == nameBuffer[..name][start..] == was;
        if code != NoError { return; }
        AddUnits(nameBuffer[..], start, name, name + len, ScanName(source[i..], uri));
        isNumber, name := isNumber && digit, name + len;
      }
    }

    /** A name grows by what follows it in the buffer. */
    static lemma {:induction false} AddUnits(buffer: seq<char>, start: nat, name: nat, next: nat, n: Named)
      requires start <= name < next <= |buffer|
      ensures PrependTo(buffer[start..name], PrependTo(buffer[name..next], n)) == PrependTo(buffer[start..next], n)
      ensures AllDigits(buffer[start..next]) <==> AllDigits(buffer[start..name]) && AllDigits(buffer[name..next])
      ensures AllDigits(buffer[name..next]) ==> IsDigit(buffer[name])
      ensures next == name + 1 ==> (AllDigits(buffer[name..next]) <==> IsDigit(buffer[name]))
    {
      var s, t, u := buffer[start..name], buffer[name..next], buffer[start..next];
      assert u == s + t;
      PrependTwice(s, t, n);
      assert forall k | 0 <= k < |s| :: s[k] == u[k];
      assert forall k | 0 <= k < |t| :: t[k] == u[|s| + k];
    }

    /** The index of a name in the buffer. */
    method ParseIndex(start: nat, length: nat, allDigits: bool) returns (index: nat)
      requires start + length <= nameBuffer.Length && allDigits == AllDigits(nameBuffer[start..start + length])
      ensures index == Index(nameBuffer[start..start + length])
    {
      ghost var s := nameBuffer[start..start + length];
      index := INVALID_INDEX;
      if allDigits && length != 0 && !(length > 1 && nameBuffer[start] == '0') {
        assert s[0] == nameBuffer[start];
        var n, j := 0, 0;
        while j < length
          invariant j <= length && n < SIZES && IndexFrom(s[j..], n) == IndexFrom(s, 0)
        {
          assert s[j..][1..] == s[j + 1..] && s[j] == nameBuffer[start + j];
          var m := (n * 10 + (nameBuffer[start + j] as int - '0' as int)) % SIZES;
          if m < n { return; }
          n, j := m, j + 1;
        }
        index := n;
      }
    }

    method CountSlashes(source: string) returns (count: nat)
      ensures count == Slashes(source)
    {
      count := 0;
      for k := 0 to |source|
        invariant count + Slashes(source[k..]) == Slashes(source)
      {
        SlashesStep(source, k);
        if source[k] == '/' { count := count + 1; }
      }
    }

    /** One token, from its slash on. */
    method ParseToken(source: string, uri: bool, i0: nat, start: nat, token: nat) returns (code: PointerError, i: nat, name: nat)
      requires nameBuffer.Length == |source| && i0 < |source| && source[i0] == '/' && token < tokens.Length
      requires start + (if uri then 1 else 0) <= i0
      modifies nameBuffer, tokens
      ensures nameBuffer[..start] == old(nameBuffer[..start])
      ensures forall k | 0 <= k < tokens.Length && k != token :: tokens[k] == old(tokens[k])
      ensures i <= |source|
      ensures match ScanName(source[i0 + 1..], uri)
              case BadName(error, at) => code == error != NoError && source[i..] == at
              case Name(s, rest) =>
                && code == NoError && i0 < i && source[i..] == rest && start < name && name + (if uri then 1 else 0) <= i
                && tokens[token].start + tokens[token].length < name && Holds(nameBuffer[..], tokens[token], s)
    {
      hide ScanName, Index;
      var isNumber;
      code, i, name, isNumber := ParseName(source, uri, i0 + 1, start);
      if code == NoError {
        ghost var s := nameBuffer[start..name];
        nameBuffer[name] := '\0';
        assert nameBuffer[start..start + (name - start)] == s;
        var index := ParseIndex(start, name - start, isNumber);
        tokens[token] := Token(start, name - start, index);
        name := name + 1;
      }
    }

    /** The first tokens hold these names in the part of the buffer before `end`. */
    static predicate Front(buffer: seq<char>, ts: seq<Token>, names: seq<string>, end: nat) {
      |names| <= |ts| && forall k | 0 <= k < |names| :: ts[k].start + ts[k].length < end && Holds(buffer, ts[k], names[k])
    }

    static lemma {:induction false} HoldsStill(was: seq<char>, now: seq<char>, name: nat, t: Token, s: string)
      requires name <= |was| == |now| && was[..name] == now[..name] && t.start + t.length < name && Holds(was, t, s)
      ensures Holds(now, t, s)
    {
      assert was[t.start..t.start + t.length] == was[..name][t.start..t.start + t.length];
      assert now[t.start..t.start + t.length] == now[..name][t.start..t.start + t.length];
      assert was[t.start + t.length] == was[..name][t.start + t.length];
      assert now[t.start + t.length] == now[..name][t.start + t.length];
    }

    static lemma {:induction false} FrontGrows(was: seq<char>, now: seq<char>, before: seq<Token>, after: seq<Token>,
                                               names: seq<string>, s: string, start: nat, end: nat)
      requires start <= |was| == |now| && was[..start] == now[..start] && start <= end && Front(was, before, names, start)
      requires |before| == |after| > |names| && forall k | 0 <= k < |before| && k != |names| :: after[k] == before[k]
      requires after[|names|].start + after[|names|].length < end && Holds(now, after[|names|], s)
      ensures Front(now, after, names + [s], end)
    {
      forall k | 0 <= k < |names| ensures Holds(now, after[k], (names + [s])[k]) {
        HoldsStill(was, now, start, before[k], names[k]);
      }
    }

    /** All the tokens, from the first slash on. */
    method ParseTokens(source: string, uri: bool, i0: nat) returns (code: PointerError, i: nat)
      requires nameBuffer.Length == |source| && i0 == (if uri then 1 else 0) <= |source| && (i0 < |source| ==> source[i0] == '/')
      requires tokens.Length == Slashes(source[i0..])
      modifies nameBuffer, tokens
      ensures i <= |source|
      ensures match ScanTokens(source[i0..], uri)
              case Tokens(names) => code == NoError && HoldsAll(names)
              case BadTokens(error, at) => code == error != NoError && source[i..] == at
    {
      ghost var names: seq<string> := [];
      var name: nat, token := 0, 0;
      code, i := NoError, i0;
      while i < |source|
        invariant code == NoError && i <= |source| && (i < |source| ==> source[i] == '/') && name + (if uri then 1 else 0) <= i
        invariant token == |names| && token + Slashes(source[i..]) == tokens.Length
        invariant Front(nameBuffer[..], tokens[..], names, name)
        invariant ScanTokens(source[i0..], uri) == AddTokens(names, ScanTokens(source[i..], uri))
      {
        ghost var text, was, before, start := source[i..], nameBuffer[..], tokens[..], name;
        SlashesStep(source, i);
        assert text[1..] == source[i + 1..];
        code, i, name := ParseToken(source, uri, i, name, token);
        if code != NoError { return; }
        ghost var s := ScanName(text[1..], uri).s;
        NameHasNoSlash(text[1..], uri);
        FrontGrows(was, nameBuffer[..], before, tokens[..], names, s, start, name);
        AddTwice(names, s, ScanTokens(source[i..], uri));
        names, token := names + [s], token + 1;
      }
      assert source[i..] == "";
    }

    /** Parses a pointer: afterwards the object holds exactly its names, or the error and where it is. */
    method Parse(source: string)
      requires tokens.Length == 0
      modifies this
      ensures match ParsePointer(source)
              case Tokens(names) => parseErrorCode == NoError && HoldsAll(names)
              case BadTokens(code, at) =>
                && parseErrorCode == code != NoError && tokens.Length == 0
                && parseErrorOffset <= |source| && source[parseErrorOffset..] == at
    {
      var tokenCount := CountSlashes(source);
      tokens, nameBuffer := new Token[tokenCount], new char[|source|];
      var uri := |source| > 0 && source[0] == '#';
      var i := if uri then 1 else 0;
      assert source[i..] == if uri then source[1..] else source;
      var code := TokenMustBeginWithSolidus;
      if i == |source| || source[i] == '/' {
        code, i := ParseTokens(source, uri, i);
      }
      parseErrorCode := code;
      if code != NoError {
        tokens, nameBuffer := new Token[0], new char[0];
        parseErrorOffset := i;
      }
    }

    /** Whether the units from `j` on begin with a valid sequence, and how many were read; after the name there are null characters. */
    static method Validate(name: string, j: nat) returns (ok: bool, n: nat)
      requires j < |name|
      ensures SequenceLength(name[j..]) == (if ok then n else 0) && n > 0
    {
      var c := name[j];
      n := 1;
      if c as int < 0x80 {
        AsciiIsSequence(name[j..]);
        return true, n;
      }
      var lead := LeadOf(c);
      if lead.NoLead? { return false, n; }
      var mask := lead.mask;
      ok := true;
      while n < 1 + lead.tails
        invariant 1 <= n <= 1 + lead.tails && mask == if n == 1 then lead.mask else ANY_TAIL
        invariant j + n > |name| ==> !ok
        invariant j + n <= |name| ==> (ok <==> TailsOf(name[j + 1..j + n], lead.mask))
      {
        c := if j + n < |name| then name[j + n] else '\0';
        if j + n < |name| {
          OneMoreTail(name[j + 1..j + n], lead.mask, c);
          assert name[j + 1..j + n + 1] == name[j + 1..j + n] + [c];
        }
        ok, mask, n := ok && IsTail(c, mask), ANY_TAIL, n + 1;
      }
      if j + n <= |name| {
        assert name[j..][..n] == name[j..j + n] && name[j..j + n][1..] == name[j + 1..j + n];
      }
    }

    static method PutPercent(os0: string, s: string) returns (os: string)
      requires Bytes(s)
      ensures os == os0 + PercentAll(s)
    {
      os := os0;
      for i := 0 to |s|
        invariant os + PercentAll(s[i..]) == os0 + PercentAll(s)
      {
        OnePercent(s, i);
        Grouped(os, Percent(s[i]), PercentAll(s[i + 1..]));
        os := os + Percent(s[i]);
      }
      assert os + PercentAll(s[|s|..]) == os;
    }

    /** What is printed for the character at `j`, or for the sequence that begins there. */
    static method StringifyUnits(name: string, j: nat, uri: bool) returns (ok: bool, part: string, j': nat)
      requires j < |name|
      ensures ok ==> j < j' <= |name|
      ensures ShowName(name[j..], uri) == if ok then Before(part, ShowName(name[j'..], uri)) else NotUtf8
    {
      hide PercentAll, WellFormed;
      var c := name[j];
      assert name[j..][1..] == name[j + 1..] && name[j..][0] == c;
      ok, part, j' := true, [c], j + 1;
      if c == '~' {
        part := "~0";
      } else if c == '/' {
        part := "~1";
      } else if uri && NeedPercentEncode(c) {
        var n;
        ok, n := Validate(name, j);
        if ok {
          var s := name[j..j + n];
          assert name[j..][..n] == s && name[j..][n..] == name[j + n..];
          SequenceBytes(s);
          part := PutPercent("", s);
          assert "" + PercentAll(s) == PercentAll(s);
          j' := j + n;
        }
      }
    }

    /** Prints one name. */
    static method StringifyName(os0: string, name: string, uri: bool) returns (ok: bool, os: string)
      ensures match ShowName(name, uri)
              case NotUtf8 => !ok
              case Shown(text) => ok && os == os0 + text
    {
      ghost var goal := Before(os0, ShowName(name, uri));
      var j := 0;
      ok, os := true, os0;
      while j < |name|
        invariant j <= |name| && ok && goal == Before(os, ShowName(name[j..], uri))
      {
        var part;
        ok, part, j := StringifyUnits(name, j, uri);
        if !ok { return; }
        BeforeTwice(os, part, ShowName(name[j..], uri));
        os := os + part;
      }
      assert os + "" == os;
    }

    /** Prints the pointer, unless it is to be a URI fragment and a name is not well-formed. */
    method Stringify(uri: bool, ghost names: seq<string>) returns (ok: bool, os: string)
      requires HoldsAll(names)
      ensures match ShowPointer(names, uri)
              case NotUtf8 => !ok
              case Shown(text) => ok && os == text
    {
      ghost var goal := ShowPointer(names, uri);
      ok, os := true, if uri then "#" else "";
      assert names[0..] == names;
      if !uri && goal.Shown? { assert "" + goal.text == goal.text; }
      for k := 0 to tokens.Length
        invariant ok && goal == Before(os, ShowNames(names[k..], uri))
      {
        var t := tokens[k];
        assert Holds(nameBuffer[..], t, names[k]);
        var name := nameBuffer[t.start..t.start + t.length];
        assert name == nameBuffer[..][t.start..t.start + t.length] == names[k] && names[k..][0] == name;
        assert names[k..][1..] == names[k + 1..];
        ghost var was, shown := os, ShowName(name, uri);
        ok, os := StringifyName(os + "/", name, uri);
        if !ok { return; }
        BeforeTwice(was, "/" + shown.text, ShowNames(names[k + 1..], uri));
        Grouped(was, "/", shown.text);
      }
      assert os + "" == os;
    }
  }

  /** Prints names and parses the text again, in either form: the names come back. */
  method RoundTrip(pointer: Pointer, names: seq<string>, uri: bool) returns (ok: bool, text: string, again: Pointer)
    requires pointer.HoldsAll(names)
    ensures ok <==> !uri || forall i | 0 <= i < |names| :: WellFormed(names[i])
    ensures ok ==> again.parseErrorCode == NoError && again.HoldsAll(names)
  {
    again := new Pointer();
    ok, text := pointer.Stringify(uri, names);
    PointerShows(names, uri);
    if ok {
      PointerRoundTrip(names, uri);
      again.Parse(text);
    }
  }
}
