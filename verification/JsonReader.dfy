/**
 The reader object: a stream, a handler that records events, and a parse result, all updated in place.
 Every method is proved against the grammar or the machine.
 */
module JsonReader {
  import opened Text
  import opened JsonScan
  import opened JsonGrammar
  import opened JsonMachine
  import opened JsonPull

  datatype ParseResult = NoError | Error(code: ErrorCode, at: string)

  // ---- word arithmetic ----

  const WORD32 := 0x1_0000_0000
  const WORD64 := 0x1_0000_0000_0000_0000

  /** The two's complement of an unsigned word, read as a signed one. */
  function Negate(word: nat, modulus: nat): int
    requires 0 < modulus && word < modulus
  {
    var complement := (modulus - word) % modulus;
    if 2 * complement >= modulus then complement - modulus else complement
  }

  lemma {:induction false} NegateIs(word: nat, modulus: nat)
    requires 2 * word <= modulus && 0 < modulus
    ensures Negate(word, modulus) == 0 - word
  {
    if word == 0 { assert modulus % modulus == 0; }
  }

  function DigitValue(c: char): nat
    requires IsDigit(c)
  {
    c as int - '0' as int
  }

  /** Reading one digit of a run. */
  lemma {:induction false} DigitRunStep(text: string, r: nat)
    ensures IsDigit(Peek(text)) ==> ValueFrom(DigitRun(text), r) == ValueFrom(DigitRun(text[1..]), 10 * r + DigitValue(text[0]))
    ensures IsDigit(Peek(text)) ==> text[|DigitRun(text)|..] == text[1..][|DigitRun(text[1..])|..]
    ensures !IsDigit(Peek(text)) ==> DigitRun(text) == "" && text[|DigitRun(text)|..] == text && ValueFrom(DigitRun(text), r) == r
  {
    if IsDigit(Peek(text)) {
      assert DigitRun(text)[1..] == DigitRun(text[1..]);
    }
  }

  /** The run of digits at the front of `was`, of which those before `now` have been read and amount to `r`. */
  ghost predicate Reads(was: string, now: string, r: nat) {
    && ValueFrom(DigitRun(was), 0) == ValueFrom(DigitRun(now), r)
    && was[|DigitRun(was)|..] == now[|DigitRun(now)|..]
  }

  lemma {:induction false} ReadsStep(was: string, now: string, r: nat)
    requires Reads(was, now, r)
    ensures IsDigit(Peek(now)) ==> Reads(was, now[1..], 10 * r + DigitValue(now[0]))
    ensures !IsDigit(Peek(now)) ==> ValueFrom(DigitRun(was), 0) == r && was[|DigitRun(was)|..] == now
  {
    DigitRunStep(now, r);
  }

  lemma {:induction false} ReadsBeyond(was: string, now: string, r: nat)
    requires Reads(was, now, r) && IsDigit(Peek(now))
    ensures ValueFrom(DigitRun(was), 0) >= 10 * r + DigitValue(now[0])
  {
    DigitRunStep(now, r);
    ValueGrows(DigitRun(now[1..]), 10 * r + DigitValue(now[0]));
  }

  /** The largest magnitude that fits into a word: of the negative numbers, or of the unsigned ones. */
  function Limit(minus: bool, modulus: nat): nat
    requires 0 < modulus
  {
    if minus then modulus / 2 else modulus - 1
  }

  /** One more digit in a word that wraps around. */
  function Accumulate(i: nat, c: char, modulus: nat): nat
    requires IsDigit(c) && 0 < modulus
  {
    (i * 10 % modulus + DigitValue(c)) % modulus
  }

  lemma {:induction false} NoWrap(i: nat, c: char, limit: nat, modulus: nat)
    requires IsDigit(c) && 10 * i + DigitValue(c) <= limit < modulus
    ensures Accumulate(i, c, modulus) == 10 * i + DigitValue(c)
  {
    SmallMod(i * 10, modulus);
    SmallMod(i * 10 + DigitValue(c), modulus);
  }

  function Most32(minus: bool): nat {
    if minus then 214748364 else 429496729
  }

  function Most64(minus: bool): nat {
    if minus then 0x0CCC_CCCC_CCCC_CCCC else 0x1999_9999_9999_9999
  }

  function LastDigit(minus: bool): char {
    if minus then '8' else '5'
  }

  /** The two comparisons before each multiplication are the guard against wrap-around, with nothing to spare. */
  lemma {:induction false} GuardExact(minus: bool, i: nat, c: char)
    requires IsDigit(c)
    ensures (i > Most32(minus) || (i == Most32(minus) && c > LastDigit(minus))) <==> 10 * i + DigitValue(c) > Limit(minus, WORD32)
    ensures (i > Most64(minus) || (i == Most64(minus) && c > LastDigit(minus))) <==> 10 * i + DigitValue(c) > Limit(minus, WORD64)
  {
  }

  lemma {:induction false} SmallMod(x: nat, modulus: nat)
    requires x < modulus
    ensures x % modulus == x
  {
    var q := x / modulus;
    assert x == modulus * q + x % modulus;
    assert q <= 0 || modulus * q >= modulus;
  }

  /** The first `i` hexadecimal digits. */
  function HexPrefix(text: string, i: nat): (h: MaybeNat)
    requires i <= |text|
  {
    if i == 0 then SomeNat(0)
    else if HexPrefix(text, i - 1).NoNat? || HexDigit(text[i - 1]).NoNat? then NoNat
    else SomeNat(16 * HexPrefix(text, i - 1).n + HexDigit(text[i - 1]).n)
  }

  lemma {:induction false} HexPrefixIs(text: string)
    requires |text| >= 4
    ensures HexPrefix(text, 4) == Hex4(text)
  {
    assert HexPrefix(text, 1) == HexDigit(text[0]);
    assert HexPrefix(text, 2) == if HexPrefix(text, 1).NoNat? || HexDigit(text[1]).NoNat? then NoNat else SomeNat(16 * HexPrefix(text, 1).n + HexDigit(text[1]).n);
    assert HexPrefix(text, 3) == if HexPrefix(text, 2).NoNat? || HexDigit(text[2]).NoNat? then NoNat else SomeNat(16 * HexPrefix(text, 2).n + HexDigit(text[2]).n);
  }

  lemma {:induction false} HexPrefixFails(text: string, i: nat, j: nat)
    requires i <= j <= |text| && HexPrefix(text, i).NoNat?
    ensures HexPrefix(text, j).NoNat?
  {
    if i < j { HexPrefixFails(text, i, j - 1); }
  }

  /** What is left to parse, `r`, completes what has been reported, `done`, to the whole. */
  ghost predicate Completes(whole: Parsed, done: seq<Event>, r: Parsed) {
    whole == Prepend(done, r)
  }

  lemma {:induction false} CompletesMore(whole: Parsed, done: seq<Event>, first: seq<Event>, r: Parsed)
    requires Completes(whole, done, Prepend(first, r))
    ensures Completes(whole, done + first, r)
  {
    assert done + (first + r.events) == (done + first) + r.events;
  }

  lemma {:induction false} Longer(was: seq<Event>, done: seq<Event>, more: seq<Event>) returns (all: seq<Event>)
    ensures all == done + more && (was + done) + more == was + all
  {
    all := done + more;
    assert (was + done) + more == was + all;
  }

  lemma {:induction false} ReportedWhole(result: ParseResult, input: string, events: seq<Event>, was: seq<Event>, whole: Parsed, done: seq<Event>, r: Parsed)
    requires Completes(whole, done, r) && Reported(result, input, events, was + done, r)
    ensures Reported(result, input, events, was, whole)
  {
    ReportedThen(result, input, events, was, done, r);
  }

  function NameAndColon(text: string): Parsed {
    if Peek(text) != '\"' then Failed([], ObjectMissName, text)
    else
      match ScanString(text)
      case Err(code, at) => Failed([], code, at)
      case Ok(name, rest) =>
        var colon := SkipWs(rest);
        if Peek(colon) != ':' then Failed([Key(name)], ObjectMissColon, colon) else Done([Key(name)], SkipWs(colon[1..]))
  }

  lemma {:induction false} MemberIs(cfg: Config, text: string)
    ensures JsonGrammar.ParseMember(cfg, text) ==
            match NameAndColon(text)
            case Failed(evs, code, at) => Failed(evs, code, at)
            case Done(evs, rest) => Prepend(evs, JsonGrammar.ParseValue(cfg, rest))
  {
  }

  /** What follows an element: another one, the end, or an error. */
  lemma {:induction false} AfterElementIs(cfg: Config, text: string, n: nat)
    ensures Peek(text) == ',' ==>
      ParseAfterElement(cfg, text, n) ==
      if cfg.trailingCommas && Peek(SkipWs(text[1..])) == ']' then Done([EndArray(n)], SkipWs(text[1..])[1..])
      else JsonGrammar.ParseElements(cfg, SkipWs(text[1..]), n)
    ensures Peek(text) == ']' ==> ParseAfterElement(cfg, text, n) == Done([EndArray(n)], text[1..])
    ensures Peek(text) != ',' && Peek(text) != ']' ==> ParseAfterElement(cfg, text, n) == Failed([], ArrayMissCommaOrSquareBracket, text)
  {
  }

  /** One letter of a literal. */
  lemma {:induction false} ExpectLetter(text: string, word: string, ev: Event)
    requires '\0' !in word
    ensures word != "" && Peek(text) == word[0] ==> Expect(text, word, ev) == Expect(text[1..], word[1..], ev)
    ensures word != "" && Peek(text) != word[0] ==> Expect(text, word, ev) == Err(ValueInvalid, text)
    ensures word == "" ==> Expect(text, word, ev) == Ok(ev, text)
  {
  }

  /** The reader's state after scanning something that ends in one event. */
  predicate Scanned(result: ParseResult, input: string, events: seq<Event>, was: seq<Event>, r: Scan<Event>) {
    match r
    case Ok(ev, rest) => result == NoError && input == rest && events == was + [ev]
    case Err(code, at) => result == Error(code, at) && events == was
  }

  predicate Reported(result: ParseResult, input: string, events: seq<Event>, was: seq<Event>, r: Parsed) {
    match r
    case Done(evs, rest) => result == NoError && input == rest && events == was + evs
    case Failed(evs, code, at) => result == Error(code, at) && events == was + evs
  }

  lemma {:induction false} ReportedThen(result: ParseResult, input: string, events: seq<Event>, was: seq<Event>, first: seq<Event>, r: Parsed)
    requires Reported(result, input, events, was + first, r)
    ensures Reported(result, input, events, was, Prepend(first, r))
  {
    assert (was + first) + r.events == was + (first + r.events);
  }

  /** What a whole parse has left behind in the reader. */
  predicate Finished(result: ParseResult, input: string, events: seq<Event>, o: Outcome) {
    match o
    case Accepted(evs, rest) => result == NoError && events == evs && input == rest
    case Rejected(evs, code, at) => result == Error(code, at) && events == evs
  }

  /** The reader after a transition, where `d` is the state that the transition returned. */
  predicate Stepped(result: ParseResult, input: string, events: seq<Event>, stack: seq<Frame>, d: State, t: Transition, was: seq<Event>) {
    match t
    case To(state, rest, stack', evs) =>
      result == NoError && d == state && input == rest && stack == stack' && events == was + evs
    case Bad(code, at) => result == Error(code, at) && d == ErrorState && events == was
    case NoEntry => result == NoError && d == ErrorState && events == was
  }

  /** Where the table predicts a scalar, parsing a value scans one. */
  lemma {:induction false} ScalarIs(cfg: Config, text: string)
    requires IsScalar(Tokenize(Peek(text)))
    ensures JsonGrammar.ParseValue(cfg, text) ==
            match ScanScalar(cfg, text)
            case Err(code, at) => Failed([], code, at)
            case Ok(ev, rest) => Done([ev], rest)
  {
  }

  /** One turn of the main loop. */
  lemma {:induction false} RunStep(cfg: Config, text: string, s: State, stack: seq<Frame>, events: seq<Event>)
    requires Peek(text) != '\0'
    ensures Run(cfg, text, s, stack, events) ==
            match Next(cfg, text, s, stack)
            case NoEntry => Rejected(events, HandleError(s), text)
            case Bad(code, at) => Rejected(events, code, at)
            case To(next, rest, stack', evs) => Resume(cfg, rest, next, stack', events + evs)
  {
  }

  /** A pulled token keeps the stack discipline; only a delimiter reports nothing. */
  lemma {:induction false} PulledStep(cfg: Config, token: string, state: State, stack: seq<Frame>)
    requires Stacked(state, stack) && Between(state) && state != FinishState
    ensures var t := NextToken(cfg, token, state, stack);
            t.To? ==> Stacked(t.state, t.stack) && Between(t.state)
    ensures var t := NextToken(cfg, token, state, stack);
            t.To? ==> |t.events| == if IsDelimiter(Predict(state, Tokenize(Peek(token)))) then 0 else 1
  {
    if token != [] {
      NextStacked(cfg, token, state, stack);
    } else if Predict(state, NumberToken) != ErrorState {
      assert Scalar(cfg, Predict(state, NumberToken), token, stack) == Bad(ValueInvalid, token);
    }
  }

  /** The root value has been parsed: what remains is the end of the document. */
  lemma {:induction false} RootIs(result: ParseResult, input: string, events: seq<Event>, cfg: Config, text: string)
    requires Peek(SkipWs(text)) != '\0' && Reported(result, input, events, [], JsonGrammar.ParseValue(cfg, SkipWs(text)))
    ensures result == NoError ==> Recursive(cfg, text) == AfterRoot(cfg, events, input)
    ensures result != NoError ==> Recursive(cfg, text) == Rejected(events, result.code, result.at)
  {
    var r := JsonGrammar.ParseValue(cfg, SkipWs(text));
    assert [] + r.events == r.events;
  }

  /** One token of the whole pulled run. */
  lemma {:induction false} PullStep(cfg: Config, text: string, s: State, stack: seq<Frame>, events: seq<Event>)
    requires Peek(text) != '\0'
    ensures Pull(cfg, text, s, stack, events) ==
            match NextToken(cfg, SkipWs(text), s, stack)
            case NoEntry => Rejected(events, HandleError(s), SkipWs(text))
            case Bad(code, at) => Rejected(events, code, at)
            case To(next, rest, stack', evs) =>
              if next == FinishState then AfterRoot(cfg, events + evs, rest) else Pull(cfg, rest, next, stack', events + evs)
  {
  }

  /** The event for an integer whose magnitude is in one of the words, unless it needs floating point. */
  function Exact(minus: bool, i: nat, i64: nat, use64bit: bool, useDouble: bool): MaybeEvent
    requires i < WORD32 && i64 < WORD64
  {
    if useDouble then NoEvent
    else if use64bit then SomeEvent(if minus then Int64(Negate(i64, WORD64)) else Uint64(i64))
    else SomeEvent(if minus then Int(Negate(i, WORD32)) else Uint(i))
  }

  class Reader {
    const cfg: Config
    var input: string
    var events: seq<Event>
    var result: ParseResult
    var stack: seq<Frame>
    var state: State

    constructor (cfg: Config, text: string)
      ensures this.cfg == cfg && input == text && events == [] && stack == []
      ensures result == NoError && state == StartState
    {
      this.cfg := cfg;
      input, events, stack, result, state := text, [], [], NoError, StartState;
    }

    // ---- the stream ----

    method Take() returns (c: char)
      requires input != ""
      modifies `input
      ensures input == old(input)[1..] && c == old(input)[0]
    {
      c := input[0];
      input := input[1..];
    }

    method Consume(c: char) returns (b: bool)
      requires c != '\0'
      modifies `input
      ensures b <==> Peek(old(input)) == c
      ensures input == if b then old(input)[1..] else old(input)
    {
      b := Peek(input) == c;
      if b { var _ := Take(); }
    }

    method SkipWhitespace()
      modifies `input
      ensures input == SkipWs(old(input))
    {
      while IsWs(Peek(input))
        invariant SkipWs(input) == SkipWs(old(input))
        decreases |input|
      {
        var _ := Take();
      }
    }

    method Fail(code: ErrorCode, at: string)
      modifies `result
      ensures result == Error(code, at)
    {
      result := Error(code, at);
    }

    // ---- literals ----

    method ParseNull()
      requires Peek(input) == 'n' && result == NoError
      modifies `input, `events, `result
      ensures Scanned(result, input, events, old(events), Expect(old(input)[1..], "ull", NullEvent))
    {
      var _ := Take();
      ExpectLetter(input, "ull", NullEvent);
      var b := Consume('u');
      if b {
        ExpectLetter(input, "ull"[1..], NullEvent);
        b := Consume('l');
      }
      if b {
        ExpectLetter(input, "ull"[2..], NullEvent);
        b := Consume('l');
      }
      if b { ExpectLetter(input, "ull"[3..], NullEvent); }
      if b { events := events + [NullEvent]; } else { Fail(ValueInvalid, input); }
    }

    method ParseTrue()
      requires Peek(input) == 't' && result == NoError
      modifies `input, `events, `result
      ensures Scanned(result, input, events, old(events), Expect(old(input)[1..], "rue", Bool(true)))
    {
      var _ := Take();
      ExpectLetter(input, "rue", Bool(true));
      var b := Consume('r');
      if b {
        ExpectLetter(input, "rue"[1..], Bool(true));
        b := Consume('u');
      }
      if b {
        ExpectLetter(input, "rue"[2..], Bool(true));
        b := Consume('e');
      }
      if b { ExpectLetter(input, "rue"[3..], Bool(true)); }
      if b { events := events + [Bool(true)]; } else { Fail(ValueInvalid, input); }
    }

    method ParseFalse()
      requires Peek(input) == 'f' && result == NoError
      modifies `input, `events, `result
      ensures Scanned(result, input, events, old(events), Expect(old(input)[1..], "alse", Bool(false)))
    {
      var _ := Take();
      ExpectLetter(input, "alse", Bool(false));
      var b := Consume('a');
      if b {
        ExpectLetter(input, "alse"[1..], Bool(false));
        b := Consume('l');
      }
      if b {
        ExpectLetter(input, "alse"[2..], Bool(false));
        b := Consume('s');
      }
      if b {
        ExpectLetter(input, "alse"[3..], Bool(false));
        b := Consume('e');
      }
      if b { ExpectLetter(input, "alse"[4..], Bool(false)); }
      if b { events := events + [Bool(false)]; } else { Fail(ValueInvalid, input); }
    }

    // ---- strings ----

    method ParseHex4(escape: string) returns (codepoint: nat)
      requires result == NoError
      modifies `input, `result
      ensures match Hex4(old(input))
              case NoNat => result == Error(StringUnicodeEscapeInvalidHex, escape)
              case SomeNat(n) => codepoint == n && result == NoError && input == old(input)[4..]
    {
      codepoint := 0;
      for i := 0 to 4
        invariant i <= |old(input)| && input == old(input)[i..] && result == NoError
        invariant HexPrefix(old(input), i) == SomeNat(codepoint)
      {
        var c := Peek(input);
        codepoint := codepoint * 16;
        if '0' <= c <= '9' {
          codepoint := codepoint + c as int - '0' as int;
        } else if 'A' <= c <= 'F' {
          codepoint := codepoint + c as int - ('A' as int - 10);
        } else if 'a' <= c <= 'f' {
          codepoint := codepoint + c as int - ('a' as int - 10);
        } else {
          Fail(StringUnicodeEscapeInvalidHex, escape);
          ghost var text := old(input);
          if |text| >= 4 {
            HexPrefixIs(text);
            HexPrefixFails(text, i + 1, 4);
          }
          return;
        }
        var _ := Take();
      }
      HexPrefixIs(old(input));
    }

    /** One escape, from its backslash on. */
    method ParseEscape() returns (os: string)
      requires result == NoError && Peek(input) == '\\'
      modifies `input, `result
      ensures match ScanEscape(old(input))
              case Err(code, at) => result == Error(code, at)
              case Ok(s, rest) => os == s && result == NoError && input == rest
    {
      var escape := input;
      var _ := Take();
      os := "";
      var e := Peek(input);
      if Unescape(e).Just? {
        var _ := Take();
        os := [Unescape(e).c];
      } else if e == 'u' {
        var _ := Take();
        var codepoint := ParseHex4(escape);
        if result != NoError { return; }
        if 0xD800 <= codepoint <= 0xDBFF {
          var b := Consume('\\');
          if b { b := Consume('u'); }
          if !b {
            Fail(StringUnicodeSurrogateInvalid, escape);
            return;
          }
          var codepoint2 := ParseHex4(escape);
          if result != NoError { return; }
          if codepoint2 < 0xDC00 || codepoint2 > 0xDFFF {
            Fail(StringUnicodeSurrogateInvalid, escape);
            return;
          }
          codepoint := (codepoint - 0xD800) * 1024 + (codepoint2 - 0xDC00) + 0x10000;
        }
        os := Encode(codepoint);
      } else {
        Fail(StringEscapeInvalid, escape);
      }
    }

    method ParseStringToStream() returns (os: string)
      requires result == NoError
      modifies `input, `result
      ensures match ScanChars(old(input), "")
              case Err(code, at) => result == Error(code, at)
              case Ok(s, rest) => os == s && result == NoError && input == rest
    {
      os := "";
      while true
        invariant result == NoError && ScanChars(input, os) == ScanChars(old(input), "")
        decreases |input|
      {
        var c := Peek(input);
        if c == '\\' {
          var s := ParseEscape();
          if result != NoError { return; }
          os := os + s;
        } else if c == '\"' {
          var _ := Take();
          return;
        } else if c < ' ' {
          Fail(if c == '\0' then StringMissQuotationMark else StringInvalidEncoding, input);
          return;
        } else {
          var d := Take();
          os := os + [d];
        }
      }
    }

    method ParseString(isKey: bool)
      requires result == NoError && Peek(input) == '\"'
      modifies `input, `events, `result
      ensures Scanned(result, input, events, old(events), match ScanString(old(input))
                      case Err(code, at) => Err(code, at)
                      case Ok(s, rest) => Ok(if isKey then Key(s) else String(s), rest))
    {
      var _ := Take();
      var s := ParseStringToStream();
      if result != NoError { return; }
      events := events + [if isKey then Key(s) else String(s)];
    }

    // ---- numbers ----

    /**
     Reads digits into a 32-bit word and stops before the digit that would not fit.
     */
    method ParseInt32(minus: bool) returns (i: nat, use64bit: bool)
      requires '1' <= Peek(input) <= '9'
      modifies `input
      ensures Reads(old(input), input, i) && i <= Limit(minus, WORD32)
      ensures use64bit <==> IsDigit(Peek(input))
      ensures use64bit ==> 10 * i + DigitValue(input[0]) > Limit(minus, WORD32)
    {
      ghost var was := input;
      use64bit := false;
      ReadsStep(was, was, 0);
      var c := Take();
      i := DigitValue(c);
      while IsDigit(Peek(input))
        invariant Reads(was, input, i) && i <= Limit(minus, WORD32)
        decreases |input|
      {
        GuardExact(minus, i, Peek(input));
        if i >= Most32(minus) {
          if i != Most32(minus) || Peek(input) > LastDigit(minus) {
            use64bit := true;
            return;
          }
        }
        ReadsStep(was, input, i);
        NoWrap(i, Peek(input), Limit(minus, WORD32), WORD32);
        c := Take();
        i := Accumulate(i, c, WORD32);
      }
    }

    /** The same with a 64-bit word. */
    method ParseInt64(minus: bool, i: nat, ghost was: string) returns (i64: nat, useDouble: bool)
      requires Reads(was, input, i) && i <= Limit(minus, WORD32) && IsDigit(Peek(input))
      requires 10 * i + DigitValue(input[0]) > Limit(minus, WORD32)
      modifies `input
      ensures Reads(was, input, i64) && Limit(minus, WORD32) < i64 <= Limit(minus, WORD64)
      ensures useDouble <==> IsDigit(Peek(input))
      ensures useDouble ==> 10 * i64 + DigitValue(input[0]) > Limit(minus, WORD64)
    {
      hide ValueFrom, DigitRun, Accumulate;
      i64 := i;
      useDouble := false;
      while IsDigit(Peek(input))
        invariant Reads(was, input, i64) && i64 <= Limit(minus, WORD64)
        invariant i64 > Limit(minus, WORD32) || (i64 == i && input == old(input))
        decreases |input|
      {
        GuardExact(minus, i64, Peek(input));
        if i64 >= Most64(minus) {
          if i64 != Most64(minus) || Peek(input) > LastDigit(minus) {
            useDouble := true;
            return;
          }
        }
        ReadsStep(was, input, i64);
        NoWrap(i64, Peek(input), Limit(minus, WORD64), WORD64);
        var c := Take();
        i64 := Accumulate(i64, c, WORD64);
      }
    }

    method SkipDigits()
      modifies `input
      ensures input == old(input)[|DigitRun(old(input))|..]
    {
      while IsDigit(Peek(input))
        invariant old(input)[|DigitRun(old(input))|..] == input[|DigitRun(input)|..]
        decreases |input|
      {
        DigitRunStep(input, 0);
        var _ := Take();
      }
      DigitRunStep(input, 0);
    }

    method ParseFraction() returns (present: bool)
      requires result == NoError
      modifies `input, `result
      ensures match ScanFraction(old(input))
              case Err(code, at) => result == Error(code, at)
              case Ok(b, rest) => present == b && result == NoError && input == rest
    {
      present := Consume('.');
      if present {
        if !IsDigit(Peek(input)) {
          Fail(NumberMissFraction, input);
        } else {
          SkipDigits();
        }
      }
    }

    method ParseExponent() returns (present: bool)
      requires result == NoError
      modifies `input, `result
      ensures match ScanExponent(old(input))
              case Err(code, at) => result == Error(code, at)
              case Ok(b, rest) => present == b && result == NoError && input == rest
    {
      present := Consume('e');
      if !present { present := Consume('E'); }
      if present {
        var plus := Consume('+');
        if !plus { var _ := Consume('-'); }
        if !IsDigit(Peek(input)) {
          Fail(NumberMissExponent, input);
        } else {
          SkipDigits();
        }
      }
    }

    /** The integer part: its digits are read, and its value is in the words unless it fits neither. */
    method ParseIntegerPart(minus: bool) returns (i: nat, i64: nat, use64bit: bool, useDouble: bool)
      requires IsDigit(Peek(input))
      modifies `input
      ensures input == old(input)[|IntegerPart(old(input))|..]
      ensures i < WORD32 && i64 < WORD64
      ensures IntegerEvent(minus, ValueFrom(IntegerPart(old(input)), 0)) == Exact(minus, i, i64, use64bit, useDouble)
    {
      ghost var was := input;
      i, i64, use64bit, useDouble := 0, 0, false, false;
      if Peek(input) == '0' {
        var _ := Take();
        assert ValueFrom("0", 0) == ValueFrom("", 0);
      } else {
        i, use64bit := ParseInt32(minus);
        if use64bit {
          i64, useDouble := ParseInt64(minus, i, was);
        }
      }
      if useDouble {
        ReadsBeyond(was, input, i64);
        SkipDigits();
      } else if use64bit {
        ReadsStep(was, input, i64);
        if minus { NegateIs(i64, WORD64); }
      } else {
        if was[0] != '0' { ReadsStep(was, input, i); }
        if minus { NegateIs(i, WORD32); }
      }
    }

    /** Reports the number whose text began at `start` and whose value is in the words, unless it needs floating point. */
    method EmitNumber(start: string, minus: bool, i: nat, i64: nat, use64bit: bool, useDouble: bool)
      requires result == NoError && |input| <= |start| && i < WORD32 && i64 < WORD64
      modifies `events, `result
      ensures Scanned(result, input, events, old(events), NumberEnd(cfg, start, Exact(minus, i, i64, use64bit, useDouble), input))
    {
      if useDouble {
        match cfg.fp(start[..|start| - |input|]) {
          case TooBig => Fail(NumberTooBig, start);
          case Finite(bits) => events := events + [Double(bits)];
        }
      } else if use64bit {
        events := events + [if minus then Int64(Negate(i64, WORD64)) else Uint64(i64)];
      } else {
        events := events + [if minus then Int(Negate(i, WORD32)) else Uint(i)];
      }
    }

    /** From the end of the integer part on. */
    method ParseAfterDigits(start: string, minus: bool, i: nat, i64: nat, use64bit: bool, useDouble: bool)
      requires result == NoError && |input| <= |start| && i < WORD32 && i64 < WORD64
      modifies `input, `events, `result
      ensures Scanned(result, input, events, old(events), NumberAfter(cfg, start, Exact(minus, i, i64, use64bit, useDouble), old(input)))
    {
      var fraction := ParseFraction();
      if result == NoError {
        var exponent := ParseExponent();
        if result == NoError {
          EmitNumber(start, minus, i, i64, use64bit, useDouble || fraction || exponent);
        }
      }
    }

    method ParseNumber()
      requires result == NoError
      modifies `input, `events, `result
      ensures Scanned(result, input, events, old(events), ScanNumber(cfg, old(input)))
    {
      var start := input;
      var minus := Consume('-');
      if !IsDigit(Peek(input)) {
        Fail(ValueInvalid, input);
      } else {
        var i, i64, use64bit, useDouble := ParseIntegerPart(minus);
        ParseAfterDigits(start, minus, i, i64, use64bit, useDouble);
      }
    }

    method ParseScalar()
      requires result == NoError
      modifies `input, `events, `result
      ensures Scanned(result, input, events, old(events), ScanScalar(cfg, old(input)))
    {
      match Peek(input) {
        case 'n' => ParseNull();
        case 't' => ParseTrue();
        case 'f' => ParseFalse();
        case '\"' => ParseString(false);
        case _ => ParseNumber();
      }
    }

    // ---- recursive descent ----

    method ParseValue()
      requires result == NoError
      modifies `input, `events, `result
      ensures Reported(result, input, events, old(events), JsonGrammar.ParseValue(cfg, old(input)))
      decreases |input|, 1
    {
      match Peek(input) {
        case '{' => ParseObject();
        case '[' => ParseArray();
        case _ => ParseScalar();
      }
    }

    /** A name and a colon. */
    method ParseName()
      requires result == NoError
      modifies `input, `events, `result
      ensures Reported(result, input, events, old(events), NameAndColon(old(input)))
      ensures result == NoError ==> |input| < |old(input)|
    {
      hide ScanString, SkipWs;
      if Peek(input) == '\"' {
        ParseString(true);
        if result == NoError {
          SkipWhitespace();
          var b := Consume(':');
          if b { SkipWhitespace(); } else { Fail(ObjectMissColon, input); }
        }
      } else {
        Fail(ObjectMissName, input);
      }
    }

    /** One member: a name, a colon and a value. */
    method ParseMember()
      requires result == NoError
      modifies `input, `events, `result
      ensures Reported(result, input, events, old(events), JsonGrammar.ParseMember(cfg, old(input)))
      decreases |input|, 2
    {
      MemberIs(cfg, input);
      ghost var first := NameAndColon(input);
      ParseName();
      if result == NoError {
        ghost var value := JsonGrammar.ParseValue(cfg, input);
        ParseValue();
        ReportedThen(result, input, events, old(events), first.events, value);
      }
    }

    /** After a member: whether there is another, or else the end of the object. */
    method AfterMember(memberCount: nat) returns (more: bool)
      requires result == NoError
      modifies `input, `events, `result
      ensures more ==> result == NoError && events == old(events) && |input| < |old(input)|
      ensures more ==> ParseAfterMember(cfg, old(input), memberCount) == JsonGrammar.ParseMembers(cfg, input, memberCount)
      ensures !more ==> Reported(result, input, events, old(events), ParseAfterMember(cfg, old(input), memberCount))
    {
      more := false;
      match Peek(input) {
        case ',' =>
          var _ := Take();
          SkipWhitespace();
        case '}' =>
          var _ := Take();
          events := events + [EndObject(memberCount)];
          return;
        case _ =>
          Fail(ObjectMissCommaOrCurlyBracket, input);
          return;
      }
      if cfg.trailingCommas {
        if Peek(input) == '}' {
          events := events + [EndObject(memberCount)];
          var _ := Take();
          return;
        }
      }
      more := true;
    }

    method ParseObject()
      requires result == NoError && Peek(input) == '{'
      modifies `input, `events, `result
      ensures Reported(result, input, events, old(events), JsonGrammar.ParseValue(cfg, old(input)))
      decreases |input|, 0
    {
      var _ := Take();
      events := events + [StartObject];
      SkipWhitespace();
      ghost var body := JsonGrammar.ParseObjectBody(cfg, input);
      ParseObjectBody();
      ReportedThen(result, input, events, old(events), [StartObject], body);
    }

    method ParseObjectBody()
      requires result == NoError
      modifies `input, `events, `result
      ensures Reported(result, input, events, old(events), JsonGrammar.ParseObjectBody(cfg, old(input)))
      decreases |input|, 4
    {
      var empty := Consume('}');
      if empty {
        events := events + [EndObject(0)];
      } else {
        ParseMembers();
      }
    }

    /** The loop, from the first member on. */
    method ParseMembers()
      requires result == NoError
      modifies `input, `events, `result
      ensures Reported(result, input, events, old(events), JsonGrammar.ParseMembers(cfg, old(input), 0))
      decreases |input|, 3
    {
      hide JsonGrammar.ParseMember, SkipWs;
      ghost var was, whole, done := events, JsonGrammar.ParseMembers(cfg, input, 0), [];
      var memberCount, more := 0, true;
      while more
        invariant more ==> result == NoError && events == was + done && |input| <= |old(input)|
        invariant more ==> Completes(whole, done, JsonGrammar.ParseMembers(cfg, input, memberCount))
        invariant !more ==> Reported(result, input, events, was, whole)
        decreases more, |input|
      {
        ghost var member := JsonGrammar.ParseMember(cfg, input);
        MembersIs(cfg, input, memberCount);
        ParseMember();
        if result != NoError {
          assert Reported(result, input, events, was + done, member);
          ReportedThen(result, input, events, was, done, member);
          return;
        }
        memberCount := memberCount + 1;
        SkipWhitespace();
        ghost var tail := ParseAfterMember(cfg, input, memberCount);
        CompletesMore(whole, done, member.events, tail);
        done := Longer(was, done, member.events);
        more := AfterMember(memberCount);
        if !more {
          assert Reported(result, input, events, was + done, tail);
          ReportedWhole(result, input, events, was, whole, done, tail);
        }
      }
    }

    /** After an element: whether there is another, or else the end of the array. */
    method AfterElement(elementCount: nat) returns (more: bool)
      requires result == NoError
      modifies `input, `events, `result
      ensures more ==> result == NoError && events == old(events) && |input| < |old(input)|
      ensures more ==> ParseAfterElement(cfg, old(input), elementCount) == JsonGrammar.ParseElements(cfg, input, elementCount)
      ensures !more ==> Reported(result, input, events, old(events), ParseAfterElement(cfg, old(input), elementCount))
    {
      AfterElementIs(cfg, input, elementCount);
      more := false;
      var comma := Consume(',');
      if comma {
        SkipWhitespace();
        if cfg.trailingCommas && Peek(input) == ']' {
          events := events + [EndArray(elementCount)];
          var _ := Take();
        } else {
          more := true;
        }
      } else {
        var end := Consume(']');
        if end {
          events := events + [EndArray(elementCount)];
        } else {
          Fail(ArrayMissCommaOrSquareBracket, input);
        }
      }
    }

    method ParseArray()
      requires result == NoError && Peek(input) == '['
      modifies `input, `events, `result
      ensures Reported(result, input, events, old(events), JsonGrammar.ParseValue(cfg, old(input)))
      decreases |input|, 0
    {
      var _ := Take();
      events := events + [StartArray];
      SkipWhitespace();
      ghost var body := JsonGrammar.ParseArrayBody(cfg, input);
      ParseArrayBody();
      ReportedThen(result, input, events, old(events), [StartArray], body);
    }

    method ParseArrayBody()
      requires result == NoError
      modifies `input, `events, `result
      ensures Reported(result, input, events, old(events), JsonGrammar.ParseArrayBody(cfg, old(input)))
      decreases |input|, 4
    {
      var empty := Consume(']');
      if empty {
        events := events + [EndArray(0)];
      } else {
        ParseElements();
      }
    }

    /** The loop, from the first element on. */
    method ParseElements()
      requires result == NoError
      modifies `input, `events, `result
      ensures Reported(result, input, events, old(events), JsonGrammar.ParseElements(cfg, old(input), 0))
      decreases |input|, 3
    {
      hide JsonGrammar.ParseValue, SkipWs;
      ghost var was, whole, done := events, JsonGrammar.ParseElements(cfg, input, 0), [];
      var elementCount, more := 0, true;
      while more
        invariant more ==> result == NoError && events == was + done && |input| <= |old(input)|
        invariant more ==> Completes(whole, done, JsonGrammar.ParseElements(cfg, input, elementCount))
        invariant !more ==> Reported(result, input, events, was, whole)
        decreases more, |input|
      {
        ghost var value := JsonGrammar.ParseValue(cfg, input);
        ElementsIs(cfg, input, elementCount);
        ParseValue();
        if result != NoError {
          assert Reported(result, input, events, was + done, value);
          ReportedThen(result, input, events, was, done, value);
          return;
        }
        elementCount := elementCount + 1;
        SkipWhitespace();
        ghost var tail := ParseAfterElement(cfg, input, elementCount);
        CompletesMore(whole, done, value.events, tail);
        done := Longer(was, done, value.events);
        more := AfterElement(elementCount);
        if !more {
          assert Reported(result, input, events, was + done, tail);
          ReportedWhole(result, input, events, was, whole, done, tail);
        }
      }
    }

    /** After the root: nothing but white space may follow, unless the parser is to stop. */
    method ParseEnd()
      requires result == NoError
      modifies `input, `result
      ensures Finished(result, input, events, AfterRoot(cfg, events, old(input)))
    {
      if !cfg.stopWhenDone {
        SkipWhitespace();
        if Peek(input) != '\0' {
          Fail(DocumentRootNotSingular, input);
        }
      }
    }

    method Parse()
      requires events == []
      modifies `input, `events, `result
      ensures Finished(result, input, events, Recursive(cfg, old(input)))
    {
      result := NoError;
      SkipWhitespace();
      if Peek(input) == '\0' {
        Fail(DocumentEmpty, input);
      } else {
        ParseValue();
        RootIs(result, input, events, cfg, old(input));
        if result == NoError { ParseEnd(); }
      }
    }

    // ---- the iterative parser ----

    /** Carries out the transition that the table predicts and returns the state it leads to. */
    method Transit(src: State, dst: State) returns (d: State)
      requires result == NoError && Stacked(src, stack) && Between(src)
      requires dst == Predict(src, Tokenize(Peek(input)))
      modifies `input, `events, `result, `stack
      ensures Stepped(result, input, events, stack, d, NextToken(cfg, old(input), src, old(stack)), old(events))
      ensures NextToken(cfg, old(input), src, old(stack)).NoEntry? ==> input == old(input)
    {
      hide ScanString, SkipWs, JsonGrammar.ParseValue, ScanScalar, Open, Delimit, Close;
      match dst {
        case ErrorState =>
          d := dst;
        case ObjectInitialState =>
          d := Push(src, dst);
        case ArrayInitialState =>
          d := Push(src, dst);
        case MemberKeyState =>
          ParseString(true);
          d := if result != NoError then ErrorState else dst;
        case KeyValueDelimiterState =>
          var _ := Take();
          d := dst;
        case MemberValueState =>
          ScalarIs(cfg, input);
          ParseValue();
          d := if result != NoError then ErrorState else dst;
        case ElementState =>
          ScalarIs(cfg, input);
          ParseValue();
          d := if result != NoError then ErrorState else dst;
        case MemberDelimiterState =>
          d := Count(dst);
        case ElementDelimiterState =>
          d := Count(dst);
        case ObjectFinishState =>
          if !cfg.trailingCommas && src == MemberDelimiterState {
            Fail(ObjectMissName, input);
            d := ErrorState;
          } else {
            d := Pop(src == MemberValueState, true);
          }
        case ArrayFinishState =>
          if !cfg.trailingCommas && src == ElementDelimiterState {
            Fail(ValueInvalid, input);
            d := ErrorState;
          } else {
            d := Pop(src == ElementState, false);
          }
        case ValueState =>
          ScalarIs(cfg, input);
          ParseValue();
          d := if result != NoError then ErrorState else FinishState;
      }
    }

    /** Enters an object or array: the state to return to is pushed, with a count of zero. */
    method Push(src: State, dst: State) returns (d: State)
      requires result == NoError && input != ""
      modifies `input, `events, `stack
      ensures Stepped(result, input, events, stack, d, Open(src, dst, old(input), old(stack)), old(events))
    {
      var n := src;
      if src == ArrayInitialState || src == ElementDelimiterState {
        n := ElementState;
      } else if src == KeyValueDelimiterState {
        n := MemberValueState;
      }
      stack := stack + [Frame(n, 0)];
      events := events + [if dst == ObjectInitialState then StartObject else StartArray];
      var _ := Take();
      d := dst;
    }

    /** Counts a member or element at its comma. */
    method Count(dst: State) returns (d: State)
      requires result == NoError && input != "" && stack != []
      modifies `input, `stack
      ensures Stepped(result, input, events, stack, d, Delimit(dst, old(input), old(stack)), events)
    {
      var _ := Take();
      var top := stack[|stack| - 1];
      stack := stack[..|stack| - 1] + [Frame(top.state, top.count + 1)];
      d := dst;
    }

    /** Leaves an object or array and restores the state recorded when it was entered. */
    method Pop(counted: bool, isObject: bool) returns (d: State)
      requires result == NoError && input != "" && stack != []
      modifies `input, `events, `stack
      ensures Stepped(result, input, events, stack, d, Close(old(input), old(stack), counted, isObject), old(events))
    {
      var top := stack[|stack| - 1];
      stack := stack[..|stack| - 1];
      var c := top.count;
      if counted { c := c + 1; }
      d := top.state;
      if d == StartState { d := FinishState; }
      events := events + [if isObject then EndObject(c) else EndArray(c)];
      var _ := Take();
    }

    method ReportError(src: State)
      modifies `result
      ensures result == if old(result) != NoError then old(result) else Error(HandleError(src), input)
    {
      if result != NoError { return; }
      Fail(HandleError(src), input);
    }

    method IterativeParse()
      requires events == [] && stack == []
      modifies `input, `events, `result, `stack
      ensures Finished(result, input, events, Iterative(cfg, old(input))) && stack == []
    {
      result := NoError;
      var s := StartState;
      SkipWhitespace();
      ghost var whole := Run(cfg, input, s, stack, events);
      while Peek(input) != '\0'
        invariant result == NoError && Stacked(s, stack) && Between(s)
        invariant Run(cfg, input, s, stack, events) == whole
        decreases |input|
      {
        ghost var text, below, was := input, stack, events;
        NextStacked(cfg, input, s, stack);
        var d := Transit(s, Predict(s, Tokenize(Peek(input))));
        RunStep(cfg, text, s, below, was);
        if d == ErrorState {
          ReportError(s);
          stack := [];
          return;
        }
        s := d;
        if cfg.stopWhenDone && s == FinishState {
          stack := [];
          return;
        }
        SkipWhitespace();
      }
      if s != FinishState {
        ReportError(s);
      }
      stack := [];
    }

    // ---- token by token ----

    method IterativeParseInit()
      modifies `result, `state
      ensures result == NoError && state == StartState
    {
      result := NoError;
      state := StartState;
    }

    /** What is left to be pulled from here on. */
    function Remaining(): Outcome
      reads this
    {
      Pull(cfg, input, state, stack, events)
    }

    /** One turn of the loop: one token; tells whether it was a delimiter. */
    method PullToken() returns (d: State, delimiter: bool)
      requires result == NoError && Stacked(state, stack) && Between(state) && state != FinishState && Peek(input) != '\0'
      modifies `input, `events, `result, `stack, `state
      ensures d == ErrorState ==> result.Error? && old(Remaining()) == Rejected(events, result.code, result.at)
      ensures d == ErrorState ==> events == old(events)
      ensures d != ErrorState ==> result == NoError && d == state && Stacked(state, stack) && Between(state)
      ensures d != ErrorState ==> |input| < |old(input)|
      ensures d != ErrorState ==> old(events) <= events && |events| == |old(events)| + (if delimiter then 0 else 1)
      ensures d == FinishState ==> !delimiter && old(Remaining()) == AfterRoot(cfg, events, input)
      ensures d != ErrorState && d != FinishState ==> Remaining() == old(Remaining())
    {
      hide ScanString, JsonGrammar.ParseValue, Tokenize, Predict, Run;
      ghost var text := input;
      SkipWhitespace();
      PullStep(cfg, text, state, stack, events);
      PulledStep(cfg, input, state, stack);
      var n := Predict(state, Tokenize(Peek(input)));
      d := Transit(state, n);
      delimiter := IsDelimiter(n);
      if d == ErrorState {
        ReportError(state);
      } else {
        state := d;
      }
    }

    /**
     One call: parses up to the next token that the handler is told about.
     Every call takes one step of the whole run: what was left to be pulled is what is left afterwards, or the outcome.
     */
    method IterativeParseNext() returns (ok: bool)
      requires result == NoError && Stacked(state, stack) && Between(state) && state != FinishState
      modifies `input, `events, `result, `stack, `state
      ensures ok ==> result == NoError && Stacked(state, stack) && Between(state) && |input| < |old(input)|
      ensures ok ==> old(events) <= events && |events| == |old(events)| + 1
      ensures ok && state != FinishState ==> Remaining() == old(Remaining())
      ensures ok && state == FinishState ==> old(Remaining()) == Accepted(events, input)
      ensures !ok ==> result.Error? && old(Remaining()) == Rejected(events, result.code, result.at)
    {
      hide Pull, HandleError;
      while Peek(input) != '\0'
        invariant result == NoError && Stacked(state, stack) && Between(state) && state != FinishState
        invariant events == old(events) && |input| <= |old(input)| && Remaining() == old(Remaining())
        decreases |input|
      {
        var d, delimiter := PullToken();
        if d == FinishState || d == ErrorState {
          if d == FinishState { ParseEnd(); }
          return result == NoError;
        }
        if !delimiter {
          return true;
        }
      }
      PullEnds(cfg, input, state, stack, events);
      stack := [];
      ReportError(state);
      ok := false;
    }

    /** Calls until parsing is complete or fails. */
    method ParseByToken()
      requires events == [] && stack == []
      modifies `input, `events, `result, `stack, `state
      ensures Finished(result, input, events, Pull(cfg, old(input), StartState, [], []))
    {
      IterativeParseInit();
      ghost var whole := Remaining();
      while state != FinishState
        invariant result == NoError && Stacked(state, stack) && Between(state)
        invariant if state == FinishState then whole == Accepted(events, input) else Remaining() == whole
        decreases |input|
      {
        var ok := IterativeParseNext();
        if !ok { return; }
      }
    }
  }
}
