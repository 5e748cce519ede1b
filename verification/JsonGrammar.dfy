/**
 The recursive-descent parser, as functions from the remaining text to the events it emits.
 */
module JsonGrammar {
  import opened Text
  import opened JsonScan

  datatype Parsed = Done(events: seq<Event>, rest: string) | Failed(events: seq<Event>, code: ErrorCode, at: string)

  function Prepend(events: seq<Event>, r: Parsed): Parsed {
    match r
    case Done(evs, rest) => Done(events + evs, rest)
    case Failed(evs, code, at) => Failed(events + evs, code, at)
  }

  function ParseValue(cfg: Config, text: string): (r: Parsed)
    ensures r.Done? ==> |r.rest| < |text|
    decreases |text|, 0
  {
    match Peek(text)
    case '{' => Prepend([StartObject], ParseObjectBody(cfg, SkipWs(text[1..])))
    case '[' => Prepend([StartArray], ParseArrayBody(cfg, SkipWs(text[1..])))
    case _ =>
      match ScanScalar(cfg, text)
      case Err(code, at) => Failed([], code, at)
      case Ok(ev, rest) => Done([ev], rest)
  }

  function ParseObjectBody(cfg: Config, text: string): (r: Parsed)
    ensures r.Done? ==> |r.rest| < |text|
    decreases |text|, 3
  {
    if Peek(text) == '}' then Done([EndObject(0)], text[1..]) else ParseMembers(cfg, text, 0)
  }

  /** The members of an object from the next name on, `n` having been parsed. */
  function ParseMembers(cfg: Config, text: string, n: nat): (r: Parsed)
    ensures r.Done? ==> |r.rest| < |text|
    decreases |text|, 2
  {
    if Peek(text) != '\"' then Failed([], ObjectMissName, text)
    else
      match ScanString(text)
      case Err(code, at) => Failed([], code, at)
      case Ok(name, rest) =>
        var colon := SkipWs(rest);
        if Peek(colon) != ':' then Failed([Key(name)], ObjectMissColon, colon)
        else Prepend([Key(name)], ParseMemberValue(cfg, SkipWs(colon[1..]), n))
  }

  function ParseMemberValue(cfg: Config, text: string, n: nat): (r: Parsed)
    ensures r.Done? ==> |r.rest| < |text|
    decreases |text|, 1
  {
    match ParseValue(cfg, text)
    case Failed(events, code, at) => Failed(events, code, at)
    case Done(events, rest) => Prepend(events, ParseAfterMember(cfg, SkipWs(rest), n + 1))
  }

  function ParseAfterMember(cfg: Config, text: string, n: nat): (r: Parsed)
    ensures r.Done? ==> |r.rest| < |text|
    decreases |text|, 0
  {
    if Peek(text) == ',' then
      var next := SkipWs(text[1..]);
      if cfg.trailingCommas && Peek(next) == '}' then Done([EndObject(n)], next[1..]) else ParseMembers(cfg, next, n)
    else if Peek(text) == '}' then Done([EndObject(n)], text[1..])
    else Failed([], ObjectMissCommaOrCurlyBracket, text)
  }

  function ParseArrayBody(cfg: Config, text: string): (r: Parsed)
    ensures r.Done? ==> |r.rest| < |text|
    decreases |text|, 3
  {
    if Peek(text) == ']' then Done([EndArray(0)], text[1..]) else ParseElements(cfg, text, 0)
  }

  /** The elements of an array from the next value on, `n` having been parsed. */
  function ParseElements(cfg: Config, text: string, n: nat): (r: Parsed)
    ensures r.Done? ==> |r.rest| < |text|
    decreases |text|, 1
  {
    match ParseValue(cfg, text)
    case Failed(events, code, at) => Failed(events, code, at)
    case Done(events, rest) => Prepend(events, ParseAfterElement(cfg, SkipWs(rest), n + 1))
  }

  function ParseAfterElement(cfg: Config, text: string, n: nat): (r: Parsed)
    ensures r.Done? ==> |r.rest| < |text|
    decreases |text|, 0
  {
    if Peek(text) == ',' then
      var next := SkipWs(text[1..]);
      if cfg.trailingCommas && Peek(next) == ']' then Done([EndArray(n)], next[1..]) else ParseElements(cfg, next, n)
    else if Peek(text) == ']' then Done([EndArray(n)], text[1..])
    else Failed([], ArrayMissCommaOrSquareBracket, text)
  }

  lemma {:induction false} ObjectIs(cfg: Config, text: string)
    requires Peek(text) == '{'
    ensures ParseValue(cfg, text) == Prepend([StartObject], ParseObjectBody(cfg, SkipWs(text[1..])))
  {
  }

  lemma {:induction false} ArrayIs(cfg: Config, text: string)
    requires Peek(text) == '['
    ensures ParseValue(cfg, text) == Prepend([StartArray], ParseArrayBody(cfg, SkipWs(text[1..])))
  {
  }

  lemma {:induction false} BodiesAre(cfg: Config, text: string)
    ensures Peek(text) != '}' ==> ParseObjectBody(cfg, text) == ParseMembers(cfg, text, 0)
    ensures Peek(text) != ']' ==> ParseArrayBody(cfg, text) == ParseElements(cfg, text, 0)
  {
  }

  /** One member: a name, a colon and a value. */
  function ParseMember(cfg: Config, text: string): Parsed {
    if Peek(text) != '\"' then Failed([], ObjectMissName, text)
    else
      match ScanString(text)
      case Err(code, at) => Failed([], code, at)
      case Ok(name, rest) =>
        var colon := SkipWs(rest);
        if Peek(colon) != ':' then Failed([Key(name)], ObjectMissColon, colon)
        else Prepend([Key(name)], ParseValue(cfg, SkipWs(colon[1..])))
  }

  lemma {:induction false} PrependTwice(a: seq<Event>, b: seq<Event>, r: Parsed)
    ensures Prepend(a, Prepend(b, r)) == Prepend(a + b, r)
  {
    assert a + (b + r.events) == (a + b) + r.events;
  }

  /** The loop over members: one member and what follows it. */
  lemma {:induction false} MembersIs(cfg: Config, text: string, n: nat)
    ensures ParseMembers(cfg, text, n) ==
            match ParseMember(cfg, text)
            case Failed(evs, code, at) => Failed(evs, code, at)
            case Done(evs, rest) => Prepend(evs, ParseAfterMember(cfg, SkipWs(rest), n + 1))
    ensures ParseMember(cfg, text).Done? ==> |ParseMember(cfg, text).rest| < |text|
  {
    if Peek(text) == '\"' {
      match ScanString(text)
      case Err(_, _) =>
      case Ok(name, rest) =>
        var colon := SkipWs(rest);
        if Peek(colon) == ':' {
          var v := ParseValue(cfg, SkipWs(colon[1..]));
          if v.Done? { PrependTwice([Key(name)], v.events, ParseAfterMember(cfg, SkipWs(v.rest), n + 1)); }
        }
    }
  }

  lemma {:induction false} ElementsIs(cfg: Config, text: string, n: nat)
    ensures ParseElements(cfg, text, n) ==
            match ParseValue(cfg, text)
            case Failed(evs, code, at) => Failed(evs, code, at)
            case Done(evs, rest) => Prepend(evs, ParseAfterElement(cfg, SkipWs(rest), n + 1))
  {
  }

  /** What a whole parse reports: the events, and either the text left over or an error and the text at its offset. */
  datatype Outcome = Accepted(events: seq<Event>, rest: string) | Rejected(events: seq<Event>, code: ErrorCode, at: string)

  function Recursive(cfg: Config, text: string): Outcome {
    var start := SkipWs(text);
    if Peek(start) == '\0' then Rejected([], DocumentEmpty, start)
    else
      match ParseValue(cfg, start)
      case Failed(events, code, at) => Rejected(events, code, at)
      case Done(events, rest) => AfterRoot(cfg, events, rest)
  }

  /** The end of a document, unless the parser is to stop after the root. */
  function AfterRoot(cfg: Config, events: seq<Event>, rest: string): Outcome {
    if cfg.stopWhenDone then Accepted(events, rest)
    else
      var end := SkipWs(rest);
      if Peek(end) != '\0' then Rejected(events, DocumentRootNotSingular, end) else Accepted(events, end)
  }
}
