/**
 JSON Pointers as RFC 6901 writes them, sections 3 and 6: the parser accepts exactly what its grammar derives, in plain
 and in URI fragment form, and evaluates the escapes as it says.
 */
module PointerSyntax {
  import opened Text
  import opened JsonEscapes
  import opened JsonPointer

  /** A character that stands for itself, a percent-encoded sequence, or a tilde and the digit behind it. */
  datatype Glyph = Plain(c: char) | Coded(text: string, units: string) | Tilde(text: string, d: char)

  /** Every octet is written as a percent sign and two hexadecimal digits, in either case. */
  predicate Triplets(text: string, units: string) {
    |text| == 3 * |units| && forall i | 0 <= i < |units| :: Triplet(text[3 * i], text[3 * i + 1], text[3 * i + 2], units[i])
  }

  predicate Triplet(p: char, a: char, b: char, u: char) {
    u as int < 256 && p == '%' && Writes(a, u as int / 16) && Writes(b, u as int % 16)
  }

  predicate GlyphOk(g: Glyph, uri: bool) {
    match g
    case Plain(c) => c != '/' && c != '~' && !(uri && NeedPercentEncode(c))
    case Coded(text, units) => uri && Triplets(text, units) && Utf8.Grammatical(units) && units != "~"
    case Tilde(text, d) => (text == "~" || (uri && Triplets(text, "~"))) && (d == '0' || d == '1')
  }

  function ShowGlyph(g: Glyph, rest: string): string {
    match g
    case Plain(c) => [c] + rest
    case Coded(text, _) => text + rest
    case Tilde(text, d) => text + ([d] + rest)
  }

  /** `~0` is the tilde, `~1` the slash. */
  function GlyphMeans(g: Glyph): string {
    match g
    case Plain(c) => [c]
    case Coded(_, units) => units
    case Tilde(_, d) => if d == '0' then "~" else "/"
  }

  predicate AllOk(gs: seq<Glyph>, uri: bool) {
    forall i | 0 <= i < |gs| :: GlyphOk(gs[i], uri)
  }

  function ShowGlyphs(gs: seq<Glyph>, rest: string): string {
    if gs == [] then rest else ShowGlyph(gs[0], ShowGlyphs(gs[1..], rest))
  }

  function GlyphsMean(gs: seq<Glyph>): string {
    if gs == [] then "" else GlyphMeans(gs[0]) + GlyphsMean(gs[1..])
  }

  /** A slash in front of every name. */
  function ShowSource(tokens: seq<seq<Glyph>>): string {
    if tokens == [] then "" else "/" + ShowGlyphs(tokens[0], ShowSource(tokens[1..]))
  }

  function NamesOf(tokens: seq<seq<Glyph>>): seq<string> {
    if tokens == [] then [] else [GlyphsMean(tokens[0])] + NamesOf(tokens[1..])
  }

  predicate TokensOk(tokens: seq<seq<Glyph>>, uri: bool) {
    forall i | 0 <= i < |tokens| :: AllOk(tokens[i], uri)
  }

  // ---- octets ----

  lemma {:induction false} TripletTaken(p: char, a: char, b: char, u: char, rest: string)
    ensures TakeOctet([p, a, b] + rest) == Octet(u) <==> Triplet(p, a, b, u)
  {
    if p == '%' && u as int < 256 {
      assert u as int as char == u;
      PercentIff(a, b, u as int, rest);
    }
  }

  lemma {:induction false} TripletsSplit(text: string, units: string)
    requires Triplets(text, units) && units != ""
    ensures Triplet(text[0], text[1], text[2], units[0]) && Triplets(text[3..], units[1..])
  {
    forall i | 0 <= i < |units[1..]|
      ensures Triplet(text[3..][3 * i], text[3..][3 * i + 1], text[3..][3 * i + 2], units[1..][i])
    {
      assert Triplet(text[3 * (i + 1)], text[3 * (i + 1) + 1], text[3 * (i + 1) + 2], units[i + 1]);
    }
    assert Triplet(text[3 * 0], text[3 * 0 + 1], text[3 * 0 + 2], units[0]);
  }

  lemma {:induction false} TripletsRead(text: string, units: string, rest: string)
    requires Triplets(text, units)
    ensures TakeOctets(text + rest, |units|) == Units(units, rest)
    decreases |units|
  {
    hide TakeOctet, Triplet;
    if units == "" {
      assert text + rest == rest;
    } else {
      TripletsSplit(text, units);
      TripletTaken(text[0], text[1], text[2], units[0], text[3..] + rest);
      assert text + rest == [text[0], text[1], text[2]] + (text[3..] + rest);
      assert (text + rest)[3..] == text[3..] + rest;
      TripletsRead(text[3..], units[1..], rest);
      assert units == [units[0]] + units[1..];
    }
  }

  lemma {:induction false} OctetOf(text: string)
    requires TakeOctet(text).Octet?
    ensures |text| >= 3 && Triplet(text[0], text[1], text[2], TakeOctet(text).c)
  {
    assert text == [text[0], text[1], text[2]] + text[3..];
    TripletTaken(text[0], text[1], text[2], TakeOctet(text).c, text[3..]);
  }

  lemma {:induction false} TripletsOf(text: string, n: nat)
    requires TakeOctets(text, n).Units?
    ensures Triplets(text[..3 * n], TakeOctets(text, n).s)
  {
    hide TakeOctet, Triplet;
    if n > 0 {
      OctetOf(text);
      TripletsOf(text[3..], n - 1);
      var s := TakeOctets(text, n).s;
      forall i | 0 <= i < n ensures Triplet(text[3 * i], text[3 * i + 1], text[3 * i + 2], s[i]) {
        if i > 0 {
          var j, tail := i - 1, text[3..][..3 * (n - 1)];
          assert Triplet(tail[3 * j], tail[3 * j + 1], tail[3 * j + 2], s[1..][j]);
        }
      }
    }
  }

  // ---- what the grammar writes is read ----

  lemma {:induction false} CodedReads(text: string, units: string, rest: string)
    requires Triplets(text, units) && Utf8.Grammatical(units)
    ensures Decode(text + rest) == Units(units, rest) && Peek(text + rest) == '%'
  {
    hide TakeOctet, Triplet, Utf8.Grammatical, Utf8.Sequence;
    NotEmpty(units);
    TripletsSplit(text, units);
    TripletIs(text[0], text[1], text[2], units[0]);
    TripletTaken(text[0], text[1], text[2], units[0], text[3..] + rest);
    assert text + rest == [text[0], text[1], text[2]] + (text[3..] + rest);
    TripletsRead(text, units, rest);
    Utf8.SequenceIsGrammatical(units);
    SequenceLead(units);
  }

  lemma {:induction false} NotEmpty(units: string)
    requires Utf8.Grammatical(units)
    ensures units != ""
  {
  }

  lemma {:induction false} TripletIs(p: char, a: char, b: char, u: char)
    requires Triplet(p, a, b, u)
    ensures p == '%'
  {
  }

  lemma {:induction false} SequenceLead(units: string)
    requires Utf8.Sequence(units) && units != ""
    ensures Utf8.LeadOf(units[0]).Lead? && |units| == 1 + Utf8.LeadOf(units[0]).tails
  {
  }

  lemma {:induction false} GlyphReads(g: Glyph, uri: bool, rest: string)
    requires GlyphOk(g, uri)
    ensures ScanName(ShowGlyph(g, rest), uri) == PrependTo(GlyphMeans(g), ScanName(rest, uri))
  {
    hide Decode, Triplets, Utf8.Grammatical;
    match g
    case Plain(c) => PlainReads(c, rest, uri);
    case Coded(text, units) => CodedGlyphReads(text, units, rest);
    case Tilde(text, d) => TildeGlyphReads(text, d, uri, rest);
  }

  lemma {:induction false} CodedGlyphReads(text: string, units: string, rest: string)
    requires Triplets(text, units) && Utf8.Grammatical(units) && units != "~"
    ensures ScanName(text + rest, true) == PrependTo(units, ScanName(rest, true))
  {
    hide Decode, Triplets, Utf8.Grammatical;
    CodedReads(text, units, rest);
    if |units| == 1 { assert units == [units[0]]; }
  }

  lemma {:induction false} TildeGlyphReads(text: string, d: char, uri: bool, rest: string)
    requires (text == "~" || (uri && Triplets(text, "~"))) && (d == '0' || d == '1')
    ensures ScanName(text + ([d] + rest), uri) == PrependTo(if d == '0' then "~" else "/", ScanName(rest, uri))
  {
    hide Decode, Triplets;
    if text == "~" {
      assert text + ([d] + rest) == ['~', d] + rest;
      TildeReads(d, rest, uri);
    } else {
      CodedReads(text, "~", [d] + rest);
      assert ([d] + rest)[1..] == rest;
    }
  }

  lemma {:induction false} GlyphsRead(gs: seq<Glyph>, uri: bool, rest: string)
    requires AllOk(gs, uri) && (rest == "" || rest[0] == '/')
    ensures ScanName(ShowGlyphs(gs, rest), uri) == Name(GlyphsMean(gs), rest)
    decreases |gs|
  {
    hide ScanName, ShowGlyph, GlyphMeans, GlyphOk;
    if gs == [] {
      NoName(rest, uri);
    } else {
      GlyphReads(gs[0], uri, ShowGlyphs(gs[1..], rest));
      GlyphsRead(gs[1..], uri, rest);
    }
  }

  lemma {:induction false} SourceReads(tokens: seq<seq<Glyph>>, uri: bool)
    requires TokensOk(tokens, uri)
    ensures ScanTokens(ShowSource(tokens), uri) == Tokens(NamesOf(tokens))
  {
    hide ScanName, ShowGlyphs, GlyphsMean, AllOk;
    if tokens != [] {
      var rest := ShowSource(tokens[1..]);
      var text := "/" + ShowGlyphs(tokens[0], rest);
      assert text[1..] == ShowGlyphs(tokens[0], rest);
      GlyphsRead(tokens[0], uri, rest);
      SourceReads(tokens[1..], uri);
    }
  }

  // ---- and nothing else is ----

  lemma {:induction false} CodedOf(text: string) returns (coded: string)
    requires Decode(text).Units?
    ensures var d := Decode(text); Triplets(coded, d.s) && Utf8.Grammatical(d.s) && text == coded + d.rest
  {
    hide TakeOctet, Triplet, Utf8.Grammatical, Utf8.Sequence;
    var n := |Decode(text).s|;
    TripletsOf(text, n);
    coded := text[..3 * n];
    Utf8.SequenceIsGrammatical(Decode(text).s);
  }

  /** The tilde, however written, and the digit behind it; or any other character. */
  lemma {:induction false} EscapedOf(c: char, rest: string, uri: bool, before: string) returns (g: Glyph, tail: string)
    requires ScanEscaped(c, rest, uri).Name?
    requires if c == '~' then before == "~" || (uri && Triplets(before, "~"))
             else (before == [c] && GlyphOk(Plain(c), uri)) || GlyphOk(Coded(before, [c]), uri)
    ensures GlyphOk(g, uri) && before + rest == ShowGlyph(g, tail) && |tail| <= |rest|
    ensures ScanName(tail, uri).Name? && ScanEscaped(c, rest, uri) == PrependTo(GlyphMeans(g), ScanName(tail, uri))
  {
    hide Triplets, ScanName, Utf8.Grammatical;
    if c == '~' {
      var d := Peek(rest);
      g, tail := Tilde(before, d), rest[1..];
      assert rest == [d] + tail;
    } else if before == [c] && GlyphOk(Plain(c), uri) {
      g, tail := Plain(c), rest;
    } else {
      g, tail := Coded(before, [c]), rest;
    }
  }

  lemma {:induction false} GlyphOf(text: string, uri: bool) returns (g: Glyph, tail: string)
    requires text != "" && text[0] != '/' && ScanName(text, uri).Name?
    ensures GlyphOk(g, uri) && text == ShowGlyph(g, tail) && |tail| < |text|
    ensures ScanName(tail, uri).Name? && ScanName(text, uri) == PrependTo(GlyphMeans(g), ScanName(tail, uri))
  {
    hide Triplets, ScanEscaped, Utf8.Grammatical;
    var c := text[0];
    if uri && c == '%' {
      var coded := CodedOf(text);
      var d := Decode(text);
      if |d.s| == 1 {
        assert d.s == [d.s[0]];
        if d.s[0] == '~' { assert d.s == "~"; }
        g, tail := EscapedOf(d.s[0], d.rest, uri, coded);
      } else {
        g, tail := Coded(coded, d.s), d.rest;
      }
    } else {
      assert text == [c] + text[1..];
      g, tail := EscapedOf(c, text[1..], uri, [c]);
    }
  }

  lemma {:induction false} GlyphsOf(text: string, uri: bool) returns (gs: seq<Glyph>)
    requires ScanName(text, uri).Name?
    ensures var r := ScanName(text, uri); AllOk(gs, uri) && text == ShowGlyphs(gs, r.rest) && r.s == GlyphsMean(gs)
    decreases |text|
  {
    hide ShowGlyph, GlyphMeans, GlyphOk, ScanName;
    gs := [];
    if text == "" || text[0] == '/' {
      NoName(text, uri);
    } else {
      var g, tail := GlyphOf(text, uri);
      var others := GlyphsOf(tail, uri);
      gs := [g] + others;
      assert gs[1..] == others;
    }
  }

  lemma {:induction false} SourceOf(text: string, uri: bool) returns (tokens: seq<seq<Glyph>>)
    requires (text == "" || text[0] == '/') && ScanTokens(text, uri).Tokens?
    ensures TokensOk(tokens, uri) && text == ShowSource(tokens) && ScanTokens(text, uri).names == NamesOf(tokens)
    decreases |text|
  {
    hide ScanName, ShowGlyphs, GlyphsMean, AllOk;
    tokens := [];
    if text != "" {
      var gs := GlyphsOf(text[1..], uri);
      var others := SourceOf(ScanName(text[1..], uri).rest, uri);
      tokens := [gs] + others;
      assert tokens[1..] == others && text == "/" + text[1..];
    }
  }

  /** The text, behind the number sign of a fragment, is that of these tokens. */
  predicate Writing(source: string, tokens: seq<seq<Glyph>>) {
    if Peek(source) == '#' then TokensOk(tokens, true) && source == "#" + ShowSource(tokens)
    else TokensOk(tokens, false) && source == ShowSource(tokens)
  }

  /** A pointer is parsed to these names if and only if the grammar derives it from tokens that mean them. */
  lemma {:induction false} PointerIff(source: string, names: seq<string>)
    ensures ParsePointer(source) == Tokens(names) <==> exists tokens :: Writing(source, tokens) && names == NamesOf(tokens)
  {
    hide ScanTokens, TokensOk, ShowSource, NamesOf;
    var uri := Peek(source) == '#';
    var text := if uri then source[1..] else source;
    if uri { assert source == "#" + text; }
    if ParsePointer(source) == Tokens(names) {
      var tokens := SourceOf(text, uri);
      assert Writing(source, tokens);
    }
    forall tokens | Writing(source, tokens) && names == NamesOf(tokens) ensures ParsePointer(source) == Tokens(names) {
      if uri { assert ("#" + ShowSource(tokens))[1..] == ShowSource(tokens); }
      SlashFirst(tokens);
      SourceReads(tokens, uri);
    }
  }

  lemma {:induction false} SlashFirst(tokens: seq<seq<Glyph>>)
    ensures ShowSource(tokens) == "" || ShowSource(tokens)[0] == '/'
  {
  }

  // ---- how pointers are printed ----

  predicate UpperTriplets(text: string, units: string) {
    |text| == 3 * |units| && forall i | 0 <= i < |units| :: UpperTriplet(text[3 * i], text[3 * i + 1], text[3 * i + 2], units[i])
  }

  predicate UpperTriplet(p: char, a: char, b: char, u: char) {
    u as int < 256 && p == '%' && a == UPPER[u as int / 16] && b == UPPER[u as int % 16]
  }

  /** Nothing is percent-encoded that need not be, and what is has upper-case digits. */
  predicate Canonical(g: Glyph) {
    match g
    case Plain(c) => true
    case Coded(text, units) => units != "" && NeedPercentEncode(units[0]) && UpperTriplets(text, units)
    case Tilde(text, _) => text == "~"
  }

  predicate AllCanonical(gs: seq<Glyph>) {
    forall i | 0 <= i < |gs| :: Canonical(gs[i])
  }

  predicate TokensCanonical(tokens: seq<seq<Glyph>>) {
    forall i | 0 <= i < |tokens| :: AllCanonical(tokens[i])
  }

  lemma {:induction false} PercentIsUpper(c: char)
    requires c as int < 256
    ensures |Percent(c)| == 3 && UpperTriplet(Percent(c)[0], Percent(c)[1], Percent(c)[2], c)
    ensures Triplet(Percent(c)[0], Percent(c)[1], Percent(c)[2], c)
  {
    UpperIs(c as int / 16);
    UpperIs(c as int % 16);
  }

  lemma {:induction false} PercentsAre(s: string)
    requires Bytes(s)
    ensures UpperTriplets(PercentAll(s), s) && Triplets(PercentAll(s), s)
  {
    hide Percent, UpperTriplet, Triplet;
    if s != "" {
      PercentIsUpper(s[0]);
      PercentsAre(s[1..]);
      var text, tail := PercentAll(s), PercentAll(s[1..]);
      forall i | 0 <= i < |s|
        ensures UpperTriplet(text[3 * i], text[3 * i + 1], text[3 * i + 2], s[i])
        ensures Triplet(text[3 * i], text[3 * i + 1], text[3 * i + 2], s[i])
      {
        if i > 0 {
          var j := i - 1;
          assert UpperTriplet(tail[3 * j], tail[3 * j + 1], tail[3 * j + 2], s[1..][j]);
          assert Triplet(tail[3 * j], tail[3 * j + 1], tail[3 * j + 2], s[1..][j]);
        }
      }
    }
  }

  /** The glyph that is printed for the front of a name, and the name after it. */
  lemma {:induction false} GlyphPrinted(name: string, uri: bool) returns (g: Glyph, others: string)
    requires name != "" && ShowName(name, uri).Shown?
    ensures GlyphOk(g, uri) && Canonical(g) && |others| < |name| && name == GlyphMeans(g) + others
    ensures ShowName(others, uri).Shown?
    ensures forall rest :: ShowName(name, uri).text + rest == ShowGlyph(g, ShowName(others, uri).text + rest)
  {
    hide PercentAll, Triplets, UpperTriplets, Utf8.Grammatical, Utf8.Sequence, NeedPercentEncode;
    var c := name[0];
    if c == '~' || c == '/' {
      g, others := Tilde("~", if c == '~' then '0' else '1'), name[1..];
      assert name == [c] + others;
    } else if uri && NeedPercentEncode(c) {
      var n := Utf8.SequenceLength(name);
      var units := name[..n];
      SequenceBytes(units);
      PercentsAre(units);
      Utf8.SequenceIsGrammatical(units);
      g, others := Coded(PercentAll(units), units), name[n..];
      assert name == units + others && units[0] == c;
    } else {
      g, others := Plain(c), name[1..];
      assert name == [c] + others;
    }
    var t := ShowName(others, uri).text;
    forall rest ensures ShowName(name, uri).text + rest == ShowGlyph(g, t + rest) {
      match g
      case Plain(_) => assert [c] + t + rest == [c] + (t + rest);
      case Coded(coded, _) => assert coded + t + rest == coded + (t + rest);
      case Tilde(_, d) => assert ['~', d] + t + rest == "~" + ([d] + (t + rest));
    }
  }

  lemma {:induction false} NamePrinted(name: string, uri: bool, rest: string) returns (gs: seq<Glyph>)
    requires ShowName(name, uri).Shown?
    ensures AllOk(gs, uri) && AllCanonical(gs) && GlyphsMean(gs) == name && ShowName(name, uri).text + rest == ShowGlyphs(gs, rest)
    decreases |name|
  {
    hide GlyphOk, Canonical, ShowGlyph, GlyphMeans;
    gs := [];
    if name == "" {
      assert ShowName(name, uri).text + rest == rest;
    } else {
      var g, others := GlyphPrinted(name, uri);
      var more := NamePrinted(others, uri, rest);
      gs := [g] + more;
      assert gs[1..] == more;
    }
  }

  lemma {:induction false} NamesPrinted(names: seq<string>, uri: bool) returns (tokens: seq<seq<Glyph>>)
    requires ShowNames(names, uri).Shown?
    ensures TokensOk(tokens, uri) && TokensCanonical(tokens) && NamesOf(tokens) == names && ShowNames(names, uri).text == ShowSource(tokens)
  {
    hide ShowName, AllOk, AllCanonical, ShowGlyphs, GlyphsMean;
    tokens := [];
    if names != [] {
      var more := NamesPrinted(names[1..], uri);
      var gs := NamePrinted(names[0], uri, ShowSource(more));
      tokens := [gs] + more;
      assert tokens[1..] == more && names == [names[0]] + names[1..];
      assert ShowNames(names, uri).text == "/" + (ShowName(names[0], uri).text + ShowSource(more));
    }
  }

  /** What is printed for names, in either form, is their canonical writing. */
  lemma {:induction false} PrintedIsCanonical(names: seq<string>, uri: bool)
    requires ShowPointer(names, uri).Shown?
    ensures exists tokens :: TokensOk(tokens, uri) && TokensCanonical(tokens) && NamesOf(tokens) == names
                             && ShowPointer(names, uri).text == (if uri then "#" else "") + ShowSource(tokens)
  {
    hide TokensOk, TokensCanonical, NamesOf, ShowSource, ShowNames;
    var tokens := NamesPrinted(names, uri);
    assert "" + ShowSource(tokens) == ShowSource(tokens);
  }

  // ---- errors ----

  lemma {:induction false} GlyphsPassed(gs: seq<Glyph>, uri: bool, rest: string)
    requires AllOk(gs, uri) && ScanName(rest, uri).BadName?
    ensures ScanName(ShowGlyphs(gs, rest), uri) == ScanName(rest, uri)
    decreases |gs|
  {
    hide ScanName, ShowGlyph, GlyphMeans, GlyphOk;
    if gs != [] {
      GlyphReads(gs[0], uri, ShowGlyphs(gs[1..], rest));
      GlyphsPassed(gs[1..], uri, rest);
    }
  }

  /** After anything that can be read: a tilde before something else than 0 or 1, a percent sign that begins no sequence. */
  lemma {:induction false} NameBreaks(gs: seq<Glyph>, uri: bool, rest: string)
    requires AllOk(gs, uri)
    ensures Peek(rest) != '0' && Peek(rest) != '1' ==> ScanName(ShowGlyphs(gs, "~" + rest), uri) == BadName(InvalidEscape, rest)
    ensures uri && (forall text, units, more :: Triplets(text, units) && Utf8.Grammatical(units) ==> "%" + rest != text + more)
        ==> ScanName(ShowGlyphs(gs, "%" + rest), uri) == BadName(InvalidPercentEncoding, "%" + rest)
  {
    hide Triplets, Utf8.Grammatical, ScanEscaped, Decode, ShowGlyphs;
    var tilde, percent := "~" + rest, "%" + rest;
    if Peek(rest) != '0' && Peek(rest) != '1' {
      TildeBreaks(rest, uri);
      GlyphsPassed(gs, uri, tilde);
    }
    if uri && forall text, units, more :: Triplets(text, units) && Utf8.Grammatical(units) ==> percent != text + more {
      if Decode(percent).Units? {
        var coded := CodedOf(percent);
        assert false;
      }
      GlyphsPassed(gs, uri, percent);
    }
  }

  lemma {:induction false} TildeBreaks(rest: string, uri: bool)
    requires Peek(rest) != '0' && Peek(rest) != '1'
    ensures ScanName("~" + rest, uri) == BadName(InvalidEscape, rest)
  {
    PlainScanned("~" + rest, uri);
    assert ("~" + rest)[1..] == rest;
  }

  /** In a fragment, characters that are not unreserved have to be percent-encoded. */
  lemma {:induction false} CharacterBreaks(gs: seq<Glyph>, c: char, rest: string)
    requires AllOk(gs, true) && c != '/' && c != '%' && NeedPercentEncode(c)
    ensures ScanName(ShowGlyphs(gs, [c] + rest), true) == BadName(CharacterMustPercentEncode, [c] + rest)
  {
    PlainScanned([c] + rest, true);
    GlyphsPassed(gs, true, [c] + rest);
  }

  /** Where no name begins with a slash. */
  lemma {:induction false} NoSlash(source: string)
    ensures ParsePointer(source) == BadTokens(TokenMustBeginWithSolidus, source)
            <== source != "" && source[0] != '/' && source[0] != '#'
    ensures source != "" && source[0] != '/' ==> ParsePointer("#" + source) == BadTokens(TokenMustBeginWithSolidus, source)
  {
    assert ("#" + source)[1..] == source;
  }
}
