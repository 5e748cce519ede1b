/**
 The iterative parser: a table-driven pushdown machine, and the proof that it agrees with recursive descent.
 */
module JsonMachine {
  import opened Text
  import opened JsonScan
  import opened JsonGrammar

  datatype State =
    | FinishState | ErrorState | StartState
    | ObjectInitialState | MemberKeyState | MemberValueState | ObjectFinishState
    | ArrayInitialState | ElementState | ArrayFinishState
    | ValueState
    | ElementDelimiterState | MemberDelimiterState | KeyValueDelimiterState

  datatype Token =
    | LeftBracket | RightBracket | LeftCurlyBracket | RightCurlyBracket | Comma | Colon
    | StringToken | FalseToken | TrueToken | NullToken | NumberToken

  function Tokenize(c: char): Token {
    match c
    case '[' => LeftBracket
    case ']' => RightBracket
    case '{' => LeftCurlyBracket
    case '}' => RightCurlyBracket
    case ',' => Comma
    case ':' => Colon
    case '\"' => StringToken
    case 'f' => FalseToken
    case 't' => TrueToken
    case 'n' => NullToken
    case _ => NumberToken
  }

  predicate IsScalar(t: Token) {
    t.StringToken? || t.FalseToken? || t.TrueToken? || t.NullToken? || t.NumberToken?
  }

  /** The parsing table: current state and lookahead token to candidate state. */
  function Predict(s: State, t: Token): State {
    match s
    case StartState =>
      if t.LeftBracket? then ArrayInitialState
      else if t.LeftCurlyBracket? then ObjectInitialState
      else if IsScalar(t) then ValueState else ErrorState
    case ObjectInitialState =>
      if t.RightCurlyBracket? then ObjectFinishState
      else if t.StringToken? then MemberKeyState else ErrorState
    case MemberKeyState => if t.Colon? then KeyValueDelimiterState else ErrorState
    case MemberValueState =>
      if t.RightCurlyBracket? then ObjectFinishState
      else if t.Comma? then MemberDelimiterState else ErrorState
    case ArrayInitialState =>
      if t.LeftBracket? then ArrayInitialState
      else if t.RightBracket? then ArrayFinishState
      else if t.LeftCurlyBracket? then ObjectInitialState
      else if IsScalar(t) then ElementState else ErrorState
    case ElementState =>
      if t.RightBracket? then ArrayFinishState
      else if t.Comma? then ElementDelimiterState else ErrorState
    case ElementDelimiterState =>
      if t.LeftBracket? then ArrayInitialState
      else if t.RightBracket? then ArrayFinishState
      else if t.LeftCurlyBracket? then ObjectInitialState
      else if IsScalar(t) then ElementState else ErrorState
    case MemberDelimiterState =>
      if t.RightCurlyBracket? then ObjectFinishState
      else if t.StringToken? then MemberKeyState else ErrorState
    case KeyValueDelimiterState =>
      if t.LeftBracket? then ArrayInitialState
      else if t.LeftCurlyBracket? then ObjectInitialState
      else if IsScalar(t) then MemberValueState else ErrorState
    case _ => ErrorState
  }

  /** What the machine pushes for an open object or array: the state to return to, and the count so far. */
  datatype Frame = Frame(state: State, count: nat)

  datatype Transition =
    | To(state: State, rest: string, stack: seq<Frame>, events: seq<Event>)
    | Bad(code: ErrorCode, at: string)
    | NoEntry

  /** The state that counts a finished value in the context `src`. */
  function Return(src: State): State {
    match src
    case ArrayInitialState => ElementState
    case ElementDelimiterState => ElementState
    case KeyValueDelimiterState => MemberValueState
    case _ => src
  }

  function Open(src: State, dst: State, text: string, stack: seq<Frame>): (r: Transition)
    requires text != []
    ensures r.To?
  {
    To(dst, text[1..], stack + [Frame(Return(src), 0)], [if dst == ObjectInitialState then StartObject else StartArray])
  }

  function Scalar(cfg: Config, dst: State, text: string, stack: seq<Frame>): Transition {
    match ScanScalar(cfg, text)
    case Err(code, at) => Bad(code, at)
    case Ok(ev, rest) => To(dst, rest, stack, [ev])
  }

  /** Leaves an object or array whose last value, if `counted`, has yet to be counted. */
  function Close(text: string, stack: seq<Frame>, counted: bool, isObject: bool): (r: Transition)
    requires text != []
    ensures r.To? <==> stack != []
  {
    if stack == [] then NoEntry
    else
      var top := stack[|stack| - 1];
      var c := if counted then top.count + 1 else top.count;
      To(if top.state == StartState then FinishState else top.state, text[1..], stack[..|stack| - 1],
         [if isObject then EndObject(c) else EndArray(c)])
  }

  function Delimit(dst: State, text: string, stack: seq<Frame>): (r: Transition)
    requires text != []
    ensures r.To? <==> stack != []
  {
    if stack == [] then NoEntry
    else
      var top := stack[|stack| - 1];
      To(dst, text[1..], stack[..|stack| - 1] + [Frame(top.state, top.count + 1)], [])
  }

  /** Carries out the predicted transition. */
  function Transit(cfg: Config, src: State, dst: State, text: string, stack: seq<Frame>): (r: Transition)
    requires text != [] && (dst.MemberKeyState? ==> Peek(text) == '\"')
    ensures r.To? ==> |r.rest| < |text|
  {
    match dst
    case ErrorState => NoEntry
    case ObjectInitialState => Open(src, dst, text, stack)
    case ArrayInitialState => Open(src, dst, text, stack)
    case MemberKeyState =>
      (match ScanString(text)
       case Err(code, at) => Bad(code, at)
       case Ok(name, rest) => To(dst, rest, stack, [Key(name)]))
    case KeyValueDelimiterState => To(dst, text[1..], stack, [])
    case MemberValueState => Scalar(cfg, dst, text, stack)
    case ElementState => Scalar(cfg, dst, text, stack)
    case MemberDelimiterState => Delimit(dst, text, stack)
    case ElementDelimiterState => Delimit(dst, text, stack)
    case ObjectFinishState =>
      if !cfg.trailingCommas && src == MemberDelimiterState then Bad(ObjectMissName, text)
      else Close(text, stack, src == MemberValueState, true)
    case ArrayFinishState =>
      if !cfg.trailingCommas && src == ElementDelimiterState then Bad(ValueInvalid, text)
      else Close(text, stack, src == ElementState, false)
    case _ => Scalar(cfg, FinishState, text, stack)
  }

  /** The error reported when no transition applies in a state. */
  function HandleError(s: State): ErrorCode {
    match s
    case StartState => DocumentEmpty
    case FinishState => DocumentRootNotSingular
    case ObjectInitialState => ObjectMissName
    case MemberDelimiterState => ObjectMissName
    case MemberKeyState => ObjectMissColon
    case MemberValueState => ObjectMissCommaOrCurlyBracket
    case KeyValueDelimiterState => ValueInvalid
    case ArrayInitialState => ValueInvalid
    case ElementDelimiterState => ValueInvalid
    case _ => ArrayMissCommaOrSquareBracket
  }

  function Next(cfg: Config, text: string, state: State, stack: seq<Frame>): (r: Transition)
    requires text != []
    ensures r.To? ==> |r.rest| < |text|
  {
    Transit(cfg, state, Predict(state, Tokenize(Peek(text))), text, stack)
  }

  /** The main loop. */
  function Run(cfg: Config, text: string, state: State, stack: seq<Frame>, events: seq<Event>): Outcome
    decreases |text|
  {
    if Peek(text) == '\0' then
      if state == FinishState then Accepted(events, text) else Rejected(events, HandleError(state), text)
    else
      match Next(cfg, text, state, stack)
      case NoEntry => Rejected(events, HandleError(state), text)
      case Bad(code, at) => Rejected(events, code, at)
      case To(next, rest, stack', evs) =>
        if cfg.stopWhenDone && next == FinishState then Accepted(events + evs, rest)
        else Run(cfg, SkipWs(rest), next, stack', events + evs)
  }

  function Iterative(cfg: Config, text: string): Outcome {
    Run(cfg, SkipWs(text), StartState, [], [])
  }

  // ---- the machine simulates recursive descent ----

  /** The machine after a step that produced `state`. */
  function Resume(cfg: Config, rest: string, state: State, stack: seq<Frame>, events: seq<Event>): Outcome {
    if cfg.stopWhenDone && state == FinishState then Accepted(events, rest)
    else Run(cfg, SkipWs(rest), state, stack, events)
  }

  /** The states in which a value is expected. */
  predicate ExpectsValue(s: State) {
    s.StartState? || s.ArrayInitialState? || s.ElementDelimiterState? || s.KeyValueDelimiterState?
  }

  function AfterValue(s: State): State {
    if s.StartState? then FinishState else Return(s)
  }

  /** What the machine should do where recursive descent, from here, gives `r` and then goes on in `state`. */
  ghost predicate Agrees(o: Outcome, cfg: Config, r: Parsed, state: State, stack: seq<Frame>, events: seq<Event>) {
    match r
    case Failed(evs, code, at) => o == Rejected(events + evs, code, at)
    case Done(evs, rest) => o == Resume(cfg, rest, state, stack, events + evs)
  }

  lemma {:induction false} AgreesPrepend(o: Outcome, cfg: Config, first: seq<Event>, r: Parsed, state: State, stack: seq<Frame>, events: seq<Event>)
    requires Agrees(o, cfg, r, state, stack, events + first)
    ensures Agrees(o, cfg, Prepend(first, r), state, stack, events)
  {
    assert events + first + r.events == events + (first + r.events);
  }

  predicate Stray(c: char) {
    c == ']' || c == '}' || c == ',' || c == ':'
  }

  /** Where a closing bracket is not an option for the recursive parser. */
  predicate AtValue(cfg: Config, text: string, s: State) {
    && ExpectsValue(s)
    && (s.ArrayInitialState? ==> Peek(text) != ']')
    && (s.ElementDelimiterState? && cfg.trailingCommas ==> Peek(text) != ']')
    && (s.StartState? ==> Peek(text) != '\0' && !Stray(Peek(text)))
  }

  // Single steps of the machine.

  lemma {:induction false} Takes(cfg: Config, text: string, s: State, stack: seq<Frame>, events: seq<Event>, next: State, rest: string, stack': seq<Frame>, evs: seq<Event>)
    requires Peek(text) != '\0' && Next(cfg, text, s, stack) == To(next, rest, stack', evs)
    ensures Run(cfg, text, s, stack, events) == Resume(cfg, rest, next, stack', events + evs)
  {
  }

  lemma {:induction false} Stops(cfg: Config, text: string, s: State, stack: seq<Frame>, events: seq<Event>)
    requires Peek(text) != '\0' && Predict(s, Tokenize(Peek(text))) == ErrorState
    ensures Run(cfg, text, s, stack, events) == Rejected(events, HandleError(s), text)
  {
    assert Next(cfg, text, s, stack) == NoEntry;
  }

  lemma {:induction false} NextOpen(cfg: Config, text: string, s: State, stack: seq<Frame>)
    requires ExpectsValue(s)
    ensures Peek(text) == '{' ==>
      Next(cfg, text, s, stack) == To(ObjectInitialState, text[1..], stack + [Frame(Return(s), 0)], [StartObject])
    ensures Peek(text) == '[' ==>
      Next(cfg, text, s, stack) == To(ArrayInitialState, text[1..], stack + [Frame(Return(s), 0)], [StartArray])
  {
  }

  lemma {:induction false} NextScalar(cfg: Config, text: string, s: State, stack: seq<Frame>)
    requires ExpectsValue(s) && Peek(text) != '\0' && IsScalar(Tokenize(Peek(text)))
    ensures Next(cfg, text, s, stack) == Scalar(cfg, AfterValue(s), text, stack)
  {
  }

  lemma {:induction false} NextComma(cfg: Config, text: string, s: State, below: seq<Frame>, ret: State, n: nat)
    requires s.MemberValueState? || s.ElementState?
    requires Peek(text) == ','
    ensures Next(cfg, text, s, below + [Frame(ret, n)])
         == To(if s.ElementState? then ElementDelimiterState else MemberDelimiterState, text[1..], below + [Frame(ret, n + 1)], [])
  {
    assert (below + [Frame(ret, n)])[..|below|] == below;
  }

  lemma {:induction false} NextCloseObject(cfg: Config, text: string, s: State, below: seq<Frame>, ret: State, n: nat)
    requires s.ObjectInitialState? || s.MemberValueState? || (s.MemberDelimiterState? && cfg.trailingCommas)
    requires Peek(text) == '}'
    ensures Next(cfg, text, s, below + [Frame(ret, n)])
         == To(Closed(ret), text[1..], below, [EndObject(if s.MemberValueState? then n + 1 else n)])
  {
    assert (below + [Frame(ret, n)])[..|below|] == below;
  }

  lemma {:induction false} NextCloseArray(cfg: Config, text: string, s: State, below: seq<Frame>, ret: State, n: nat)
    requires s.ArrayInitialState? || s.ElementState? || (s.ElementDelimiterState? && cfg.trailingCommas)
    requires Peek(text) == ']'
    ensures Next(cfg, text, s, below + [Frame(ret, n)])
         == To(Closed(ret), text[1..], below, [EndArray(if s.ElementState? then n + 1 else n)])
  {
    assert (below + [Frame(ret, n)])[..|below|] == below;
  }

  /** At the end of the text, or on a token that begins no value, both parsers call the value invalid. */
  lemma {:induction false} NoValueAgrees(cfg: Config, text: string, s: State, stack: seq<Frame>, events: seq<Event>)
    requires AtValue(cfg, text, s) && (Peek(text) == '\0' || Stray(Peek(text)))
    ensures Run(cfg, text, s, stack, events) == Rejected(events, ValueInvalid, text)
    ensures ParseValue(cfg, text) == Failed([], ValueInvalid, text)
  {
    if Peek(text) == '\0' {
    } else if Peek(text) == ']' && s.ElementDelimiterState? {
      assert Next(cfg, text, s, stack) == Bad(ValueInvalid, text);
    } else {
      Stops(cfg, text, s, stack, events);
    }
  }

  lemma {:induction false} ScalarAgrees(cfg: Config, text: string, s: State, stack: seq<Frame>, events: seq<Event>)
    requires ExpectsValue(s) && Peek(text) != '\0' && IsScalar(Tokenize(Peek(text)))
    ensures Agrees(Run(cfg, text, s, stack, events), cfg, ParseValue(cfg, text), AfterValue(s), stack, events)
  {
    NextScalar(cfg, text, s, stack);
    match ScanScalar(cfg, text)
    case Err(code, at) => assert events + [] == events;
    case Ok(ev, rest) => Takes(cfg, text, s, stack, events, AfterValue(s), rest, stack, [ev]);
  }

  lemma {:induction false} ObjectAgrees(cfg: Config, text: string, s: State, stack: seq<Frame>, events: seq<Event>)
    requires AtValue(cfg, text, s) && Peek(text) == '{'
    ensures Agrees(Run(cfg, text, s, stack, events), cfg, ParseValue(cfg, text), AfterValue(s), stack, events)
    decreases |text|, 0, 0
  {
    var o, body := Run(cfg, text, s, stack, events), SkipWs(text[1..]);
    NextOpen(cfg, text, s, stack);
    Takes(cfg, text, s, stack, events, ObjectInitialState, text[1..], stack + [Frame(Return(s), 0)], [StartObject]);
    ObjectBodyAgrees(cfg, body, Return(s), stack, events + [StartObject]);
    AgreesPrepend(o, cfg, [StartObject], ParseObjectBody(cfg, body), AfterValue(s), stack, events);
  }

  lemma {:induction false} ArrayAgrees(cfg: Config, text: string, s: State, stack: seq<Frame>, events: seq<Event>)
    requires AtValue(cfg, text, s) && Peek(text) == '['
    ensures Agrees(Run(cfg, text, s, stack, events), cfg, ParseValue(cfg, text), AfterValue(s), stack, events)
    decreases |text|, 0, 0
  {
    var o, body := Run(cfg, text, s, stack, events), SkipWs(text[1..]);
    NextOpen(cfg, text, s, stack);
    Takes(cfg, text, s, stack, events, ArrayInitialState, text[1..], stack + [Frame(Return(s), 0)], [StartArray]);
    ArrayBodyAgrees(cfg, body, Return(s), stack, events + [StartArray]);
    AgreesPrepend(o, cfg, [StartArray], ParseArrayBody(cfg, body), AfterValue(s), stack, events);
  }

  lemma {:induction false} ValueAgrees(cfg: Config, text: string, s: State, stack: seq<Frame>, events: seq<Event>)
    requires AtValue(cfg, text, s)
    ensures Agrees(Run(cfg, text, s, stack, events), cfg, ParseValue(cfg, text), AfterValue(s), stack, events)
    decreases |text|, 0
  {
    if Peek(text) == '{' {
      ObjectAgrees(cfg, text, s, stack, events);
    } else if Peek(text) == '[' {
      ArrayAgrees(cfg, text, s, stack, events);
    } else if Peek(text) == '\0' || Stray(Peek(text)) {
      NoValueAgrees(cfg, text, s, stack, events);
      assert events + [] == events;
    } else {
      ScalarAgrees(cfg, text, s, stack, events);
    }
  }

  /** The state the machine returns to when a frame that recorded `ret` is closed. */
  function Closed(ret: State): State {
    if ret.StartState? then FinishState else ret
  }

  lemma {:induction false} ObjectBodyAgrees(cfg: Config, text: string, ret: State, stack: seq<Frame>, events: seq<Event>)
    ensures Agrees(Run(cfg, text, ObjectInitialState, stack + [Frame(ret, 0)], events), cfg,
                   ParseObjectBody(cfg, text), Closed(ret), stack, events)
    decreases |text|, 3
  {
    if Peek(text) == '}' {
      NextCloseObject(cfg, text, ObjectInitialState, stack, ret, 0);
      Takes(cfg, text, ObjectInitialState, stack + [Frame(ret, 0)], events, Closed(ret), text[1..], stack, [EndObject(0)]);
    } else {
      MembersAgree(cfg, text, 0, ObjectInitialState, ret, stack, events);
    }
  }

  lemma {:induction false} NoNameAgrees(cfg: Config, text: string, s: State, stack: seq<Frame>, events: seq<Event>)
    requires s.ObjectInitialState? || s.MemberDelimiterState?
    requires s.ObjectInitialState? || cfg.trailingCommas ==> Peek(text) != '}'
    requires Peek(text) != '\"'
    ensures Run(cfg, text, s, stack, events) == Rejected(events, ObjectMissName, text)
  {
    if Peek(text) == '\0' {
    } else if Peek(text) == '}' {
      assert Next(cfg, text, s, stack) == Bad(ObjectMissName, text);
    } else {
      Stops(cfg, text, s, stack, events);
    }
  }

  lemma {:induction false} NextName(cfg: Config, text: string, s: State, stack: seq<Frame>)
    requires s.ObjectInitialState? || s.MemberDelimiterState?
    requires Peek(text) == '\"'
    ensures match ScanString(text)
            case Err(code, at) => Next(cfg, text, s, stack) == Bad(code, at)
            case Ok(name, rest) => Next(cfg, text, s, stack) == To(MemberKeyState, rest, stack, [Key(name)])
  {
  }

  lemma {:induction false} NextColon(cfg: Config, text: string, stack: seq<Frame>)
    requires Peek(text) == ':'
    ensures Next(cfg, text, MemberKeyState, stack) == To(KeyValueDelimiterState, text[1..], stack, [])
  {
  }

  lemma {:induction false} MembersAgree(cfg: Config, text: string, n: nat, s: State, ret: State, stack: seq<Frame>, events: seq<Event>)
    requires s.ObjectInitialState? || s.MemberDelimiterState?
    requires s.ObjectInitialState? || cfg.trailingCommas ==> Peek(text) != '}'
    ensures Agrees(Run(cfg, text, s, stack + [Frame(ret, n)], events), cfg, ParseMembers(cfg, text, n), Closed(ret), stack, events)
    decreases |text|, 2
  {
    var all := stack + [Frame(ret, n)];
    assert events + [] == events;
    if Peek(text) != '\"' {
      NoNameAgrees(cfg, text, s, all, events);
    } else {
      NextName(cfg, text, s, all);
      match ScanString(text)
      case Err(code, at) =>
      case Ok(name, rest) =>
        Takes(cfg, text, s, all, events, MemberKeyState, rest, all, [Key(name)]);
        ColonAgrees(cfg, SkipWs(rest), n, name, ret, stack, events);
    }
  }

  /** What recursive descent does after the name of a member. */
  function ParseColon(cfg: Config, text: string, name: string, n: nat): Parsed {
    if Peek(text) != ':' then Failed([Key(name)], ObjectMissColon, text)
    else Prepend([Key(name)], ParseMemberValue(cfg, SkipWs(text[1..]), n))
  }

  lemma {:induction false} NoColonAgrees(cfg: Config, text: string, n: nat, name: string, next: State, below: seq<Frame>, stack: seq<Frame>, events: seq<Event>)
    requires Peek(text) != ':'
    ensures Agrees(Run(cfg, text, MemberKeyState, stack, events + [Key(name)]), cfg, ParseColon(cfg, text, name, n), next, below, events)
  {
    if Peek(text) != '\0' { Stops(cfg, text, MemberKeyState, stack, events + [Key(name)]); }
  }

  lemma {:induction false} ColonAgrees(cfg: Config, text: string, n: nat, name: string, ret: State, stack: seq<Frame>, events: seq<Event>)
    ensures Agrees(Run(cfg, text, MemberKeyState, stack + [Frame(ret, n)], events + [Key(name)]), cfg,
                   ParseColon(cfg, text, name, n), Closed(ret), stack, events)
    decreases |text|, 2
  {
    var all, evs := stack + [Frame(ret, n)], events + [Key(name)];
    var o := Run(cfg, text, MemberKeyState, all, evs);
    if Peek(text) == ':' {
      var value := SkipWs(text[1..]);
      NextColon(cfg, text, all);
      Takes(cfg, text, MemberKeyState, all, evs, KeyValueDelimiterState, text[1..], all, []);
      assert evs + [] == evs;
      MemberValueAgrees(cfg, value, n, ret, stack, evs);
      AgreesPrepend(o, cfg, [Key(name)], ParseMemberValue(cfg, value, n), Closed(ret), stack, events);
    } else {
      NoColonAgrees(cfg, text, n, name, Closed(ret), stack, all, events);
    }
  }

  lemma {:induction false} MemberValueAgrees(cfg: Config, text: string, n: nat, ret: State, stack: seq<Frame>, events: seq<Event>)
    ensures Agrees(Run(cfg, text, KeyValueDelimiterState, stack + [Frame(ret, n)], events), cfg,
                   ParseMemberValue(cfg, text, n), Closed(ret), stack, events)
    decreases |text|, 1
  {
    var o := Run(cfg, text, KeyValueDelimiterState, stack + [Frame(ret, n)], events);
    ValueAgrees(cfg, text, KeyValueDelimiterState, stack + [Frame(ret, n)], events);
    var r := ParseValue(cfg, text);
    if r.Done? {
      AfterMemberAgrees(cfg, SkipWs(r.rest), n, ret, stack, events + r.events);
      AgreesPrepend(o, cfg, r.events, ParseAfterMember(cfg, SkipWs(r.rest), n + 1), Closed(ret), stack, events);
    }
  }

  lemma {:induction false} AfterMemberAgrees(cfg: Config, text: string, n: nat, ret: State, stack: seq<Frame>, events: seq<Event>)
    ensures Agrees(Run(cfg, text, MemberValueState, stack + [Frame(ret, n)], events), cfg,
                   ParseAfterMember(cfg, text, n + 1), Closed(ret), stack, events)
    decreases |text|, 0
  {
    var all, s := stack + [Frame(ret, n)], MemberValueState;
    assert events + [] == events;
    if Peek(text) == ',' {
      var next, all' := SkipWs(text[1..]), stack + [Frame(ret, n + 1)];
      NextComma(cfg, text, s, stack, ret, n);
      Takes(cfg, text, s, all, events, MemberDelimiterState, text[1..], all', []);
      if cfg.trailingCommas && Peek(next) == '}' {
        NextCloseObject(cfg, next, MemberDelimiterState, stack, ret, n + 1);
        Takes(cfg, next, MemberDelimiterState, all', events, Closed(ret), next[1..], stack, [EndObject(n + 1)]);
      } else {
        MembersAgree(cfg, next, n + 1, MemberDelimiterState, ret, stack, events);
      }
    } else if Peek(text) == '}' {
      NextCloseObject(cfg, text, s, stack, ret, n);
      Takes(cfg, text, s, all, events, Closed(ret), text[1..], stack, [EndObject(n + 1)]);
    } else if Peek(text) != '\0' {
      Stops(cfg, text, s, all, events);
    }
  }

  lemma {:induction false} ArrayBodyAgrees(cfg: Config, text: string, ret: State, stack: seq<Frame>, events: seq<Event>)
    ensures Agrees(Run(cfg, text, ArrayInitialState, stack + [Frame(ret, 0)], events), cfg,
                   ParseArrayBody(cfg, text), Closed(ret), stack, events)
    decreases |text|, 3
  {
    if Peek(text) == ']' {
      NextCloseArray(cfg, text, ArrayInitialState, stack, ret, 0);
      Takes(cfg, text, ArrayInitialState, stack + [Frame(ret, 0)], events, Closed(ret), text[1..], stack, [EndArray(0)]);
    } else {
      ElementsAgree(cfg, text, 0, ArrayInitialState, ret, stack, events);
    }
  }

  lemma {:induction false} ElementsAgree(cfg: Config, text: string, n: nat, s: State, ret: State, stack: seq<Frame>, events: seq<Event>)
    requires s.ArrayInitialState? || s.ElementDelimiterState?
    requires s.ArrayInitialState? || cfg.trailingCommas ==> Peek(text) != ']'
    ensures Agrees(Run(cfg, text, s, stack + [Frame(ret, n)], events), cfg, ParseElements(cfg, text, n), Closed(ret), stack, events)
    decreases |text|, 1
  {
    var o := Run(cfg, text, s, stack + [Frame(ret, n)], events);
    ValueAgrees(cfg, text, s, stack + [Frame(ret, n)], events);
    var r := ParseValue(cfg, text);
    if r.Done? {
      AfterElementAgrees(cfg, SkipWs(r.rest), n, ret, stack, events + r.events);
      AgreesPrepend(o, cfg, r.events, ParseAfterElement(cfg, SkipWs(r.rest), n + 1), Closed(ret), stack, events);
    }
  }

  lemma {:induction false} AfterElementAgrees(cfg: Config, text: string, n: nat, ret: State, stack: seq<Frame>, events: seq<Event>)
    ensures Agrees(Run(cfg, text, ElementState, stack + [Frame(ret, n)], events), cfg,
                   ParseAfterElement(cfg, text, n + 1), Closed(ret), stack, events)
    decreases |text|, 0
  {
    var all, s := stack + [Frame(ret, n)], ElementState;
    assert events + [] == events;
    if Peek(text) == ',' {
      var next, all' := SkipWs(text[1..]), stack + [Frame(ret, n + 1)];
      NextComma(cfg, text, s, stack, ret, n);
      Takes(cfg, text, s, all, events, ElementDelimiterState, text[1..], all', []);
      if cfg.trailingCommas && Peek(next) == ']' {
        NextCloseArray(cfg, next, ElementDelimiterState, stack, ret, n + 1);
        Takes(cfg, next, ElementDelimiterState, all', events, Closed(ret), next[1..], stack, [EndArray(n + 1)]);
      } else {
        ElementsAgree(cfg, next, n + 1, ElementDelimiterState, ret, stack, events);
      }
    } else if Peek(text) == ']' {
      NextCloseArray(cfg, text, s, stack, ret, n);
      Takes(cfg, text, s, all, events, Closed(ret), text[1..], stack, [EndArray(n + 1)]);
    } else if Peek(text) != '\0' {
      Stops(cfg, text, s, all, events);
    }
  }

  lemma {:induction false} StrayRejected(cfg: Config, start: string)
    requires Stray(Peek(start))
    ensures Run(cfg, start, StartState, [], []) == Rejected([], DocumentEmpty, start)
    ensures ParseValue(cfg, start) == Failed([], ValueInvalid, start)
  {
    Stops(cfg, start, StartState, [], []);
  }

  /**
   The two parsers report the same: the same events and the same text left over, or the same events, error code
   and offset.  Only a stray first token is called an empty document by one and an invalid value by the other.
   */
  lemma {:induction false} ParsersAgree(cfg: Config, text: string)
    ensures !Stray(Peek(SkipWs(text))) ==> Iterative(cfg, text) == Recursive(cfg, text)
    ensures Stray(Peek(SkipWs(text))) ==> Iterative(cfg, text) == Rejected([], DocumentEmpty, SkipWs(text))
    ensures Stray(Peek(SkipWs(text))) ==> Recursive(cfg, text) == Rejected([], ValueInvalid, SkipWs(text))
  {
    var start := SkipWs(text);
    if Stray(Peek(start)) {
      StrayRejected(cfg, start);
    } else if Peek(start) != '\0' {
      ValueAgrees(cfg, start, StartState, [], []);
      RootAgrees(cfg, start);
    }
  }

  /** After the root both parsers do the same. */
  lemma {:induction false} RootAgrees(cfg: Config, start: string)
    requires Agrees(Run(cfg, start, StartState, [], []), cfg, ParseValue(cfg, start), FinishState, [], [])
    ensures Run(cfg, start, StartState, [], []) == match ParseValue(cfg, start)
                                                   case Failed(events, code, at) => Rejected(events, code, at)
                                                   case Done(events, rest) => AfterRoot(cfg, events, rest)
  {
    var r := ParseValue(cfg, start);
    assert [] + r.events == r.events;
    if r.Done? && !cfg.stopWhenDone {
      var end := SkipWs(r.rest);
      if Peek(end) != '\0' { Stops(cfg, end, FinishState, [], r.events); }
    }
  }
}
