/**
 Token-by-token parsing: the machine advanced one call at a time, and its agreement with the main loop.
 Also the stack discipline that makes every pop legal.
 */
module JsonPull {
  import opened Text
  import opened JsonScan
  import opened JsonGrammar
  import opened JsonMachine

  // ---- the stack never underflows ----

  /** The stack is empty exactly outside all objects and arrays, and only its bottom frame returns to the root. */
  predicate Stacked(state: State, stack: seq<Frame>) {
    && (stack == [] <==> state.StartState? || state.FinishState?)
    && (forall i | 0 <= i < |stack| :: stack[i].state.StartState? <==> i == 0)
    && (forall i | 0 < i < |stack| :: stack[i].state.ElementState? || stack[i].state.MemberValueState?)
  }

  /** The states between two tokens. */
  predicate Between(s: State) {
    !s.ErrorState? && !s.ObjectFinishState? && !s.ArrayFinishState? && !s.ValueState?
  }

  /** Every transition keeps the discipline and finds the frames it pops. */
  lemma {:induction false} NextStacked(cfg: Config, text: string, state: State, stack: seq<Frame>)
    requires text != [] && Stacked(state, stack) && Between(state)
    ensures var t := Next(cfg, text, state, stack);
            t.To? ==> Stacked(t.state, t.stack) && Between(t.state)
    ensures Next(cfg, text, state, stack).NoEntry? ==> Predict(state, Tokenize(Peek(text))) == ErrorState
  {
  }

  // ---- pulling tokens ----

  predicate IsDelimiter(s: State) {
    s.ElementDelimiterState? || s.MemberDelimiterState? || s.KeyValueDelimiterState?
  }

  /** The transition on the next token; at the end of the text the lookahead counts as a number. */
  function NextToken(cfg: Config, text: string, state: State, stack: seq<Frame>): (r: Transition)
    ensures r.To? ==> |r.rest| < |text|
  {
    if text != [] then Next(cfg, text, state, stack)
    else if Predict(state, NumberToken) == ErrorState then NoEntry
    else Scalar(cfg, Predict(state, NumberToken), text, stack)
  }

  /** All the calls until parsing is complete, one after the other. */
  function Pull(cfg: Config, text: string, state: State, stack: seq<Frame>, events: seq<Event>): Outcome
    decreases |text|
  {
    if Peek(text) == '\0' then
      if state == FinishState then Accepted(events, text) else Rejected(events, HandleError(state), text)
    else
      var token := SkipWs(text);
      match NextToken(cfg, token, state, stack)
      case NoEntry => Rejected(events, HandleError(state), token)
      case Bad(code, at) => Rejected(events, code, at)
      case To(next, rest, stack', evs) =>
        if next == FinishState then AfterRoot(cfg, events + evs, rest)
        else Pull(cfg, rest, next, stack', events + evs)
  }

  lemma {:induction false} PullEnds(cfg: Config, text: string, state: State, stack: seq<Frame>, events: seq<Event>)
    requires Peek(text) == '\0' && state != FinishState
    ensures Pull(cfg, text, state, stack, events) == Rejected(events, HandleError(state), text)
  {
  }

  /** White space and then the end of the text. */
  predicate Blank(text: string) {
    Peek(text) != '\0' && Peek(SkipWs(text)) == '\0'
  }

  /** Pulling all tokens agrees with the main loop, except on a text of white space only. */
  lemma {:induction false} PullAgrees(cfg: Config, text: string, state: State, stack: seq<Frame>, events: seq<Event>)
    requires Stacked(state, stack) && Between(state) && state != FinishState
    ensures !(state == StartState && Blank(text)) ==>
      Pull(cfg, text, state, stack, events) == Run(cfg, SkipWs(text), state, stack, events)
    ensures state == StartState && Blank(text) ==>
      Pull(cfg, text, state, stack, events) == Rejected(events, ValueInvalid, SkipWs(text))
    decreases |text|
  {
    var token := SkipWs(text);
    if Peek(text) == '\0' {
    } else if Peek(token) == '\0' {
      EndAgrees(cfg, token, state, stack);
    } else {
      var t := Next(cfg, token, state, stack);
      NextStacked(cfg, token, state, stack);
      if t.To? {
        Takes(cfg, token, state, stack, events, t.state, t.rest, t.stack, t.events);
        if t.state == FinishState {
          RootEnds(cfg, t.rest, events + t.events);
        } else {
          NotStart(cfg, token, state, stack);
          PullAgrees(cfg, t.rest, t.state, t.stack, events + t.events);
        }
      }
    }
  }

  /** At the end of the text the lookahead is an error or begins no value. */
  lemma {:induction false} EndAgrees(cfg: Config, token: string, state: State, stack: seq<Frame>)
    requires Peek(token) == '\0' && Between(state) && state != FinishState
    ensures var t := NextToken(cfg, token, state, stack);
            t == NoEntry || (t == Bad(ValueInvalid, token) && (state == StartState || HandleError(state) == ValueInvalid))
    ensures state == StartState ==> NextToken(cfg, token, state, stack) == Bad(ValueInvalid, token)
  {
    assert Tokenize(Peek(token)) == NumberToken;
  }

  lemma {:induction false} NotStart(cfg: Config, text: string, state: State, stack: seq<Frame>)
    requires text != [] && Stacked(state, stack) && Between(state)
    ensures var t := Next(cfg, text, state, stack); t.To? ==> t.state != StartState
  {
  }

  lemma {:induction false} RootEnds(cfg: Config, rest: string, events: seq<Event>)
    ensures Resume(cfg, rest, FinishState, [], events) == AfterRoot(cfg, events, rest)
  {
    var end := SkipWs(rest);
    if !cfg.stopWhenDone && Peek(end) != '\0' { Stops(cfg, end, FinishState, [], events); }
  }

  /** All three ways of parsing report the same for every text that has a first token which can begin a value. */
  lemma {:induction false} AllParsersAgree(cfg: Config, text: string)
    ensures !Blank(text) ==> Pull(cfg, text, StartState, [], []) == Iterative(cfg, text)
    ensures Blank(text) ==> Pull(cfg, text, StartState, [], []) == Rejected([], ValueInvalid, SkipWs(text))
    ensures !Blank(text) && !Stray(Peek(SkipWs(text))) ==> Pull(cfg, text, StartState, [], []) == Recursive(cfg, text)
  {
    PullAgrees(cfg, text, StartState, [], []);
    ParsersAgree(cfg, text);
  }

  /** In particular they accept the same texts with the same events. */
  lemma {:induction false} SameLanguage(cfg: Config, text: string)
    ensures Recursive(cfg, text).Accepted? <==> Iterative(cfg, text).Accepted?
    ensures Recursive(cfg, text).Accepted? <==> Pull(cfg, text, StartState, [], []).Accepted?
    ensures Recursive(cfg, text).Accepted? ==>
      Recursive(cfg, text) == Iterative(cfg, text) == Pull(cfg, text, StartState, [], [])
  {
    AllParsersAgree(cfg, text);
    ParsersAgree(cfg, text);
    if Blank(text) {
      assert Iterative(cfg, text) == Rejected([], DocumentEmpty, SkipWs(text));
    }
  }
}
