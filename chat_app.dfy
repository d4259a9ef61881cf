/**
 * The exchange coordinator of the chat view: `sendMessage` turns the draft
 * into one request/response cycle over the conversation store. The network
 * round trip (`fetch` and `res.json()`) is not modelled; its result arrives
 * as an `Outcome`, either the parsed reply body or the message of whatever
 * was thrown inside the `try` block.
 */
module ChatApp {

  import opened Optional
  import opened Text
  import opened ChatSlice

  // The reply body, as far as `data?.response?.choices?.[0]?.message?.content`
  // looks into it. `None` at a level stands for a value that is `null`,
  // `undefined` or absent, or that has no such property.

  datatype ChoiceMessage = ChoiceMessage(content: Option<string>)

  datatype Choice = Choice(message: Option<ChoiceMessage>)

  datatype Completion = Completion(choices: Option<seq<Option<Choice>>>)

  datatype Body = Body(response: Option<Completion>)

  /** What the request settles with: the parsed body (`data`, itself possibly
      `null`) or the message of the error caught by the `catch` block. */
  datatype Outcome = Failure(message: string) | Success(data: Option<Body>)

  /** Shown when the reply holds no usable text. */
  const Placeholder := "No response text."

  /** `data?.response?.choices?.[0]?.message?.content`: the reply text when
      every step of the path is there, `None` as soon as one is missing
      (both directions: `ContentAtPath`). */
  function ContentAt(data: Option<Body>): (r: Option<string>)
    ensures r.Some? ==>
      && data.Some? && data.value.response.Some?
      && data.value.response.value.choices.Some?
      && data.value.response.value.choices.value != []
      && data.value.response.value.choices.value[0].Some?
      && data.value.response.value.choices.value[0].value.message.Some?
      && data.value.response.value.choices.value[0].value.message.value.content == r
  {
    match data
    case None => None
    case Some(body) =>
      match body.response
      case None => None
      case Some(completion) =>
        match completion.choices
        case None => None
        case Some(choices) =>
          if choices == [] then None
          else
            match choices[0]
            case None => None
            case Some(choice) =>
              match choice.message
              case None => None
              case Some(message) => message.content
  }

  /** The assistant's text on success: the trimmed content, or the
      placeholder when there is no content or it trims to nothing. What is
      shown is never blank and is already trimmed. */
  function ReplyText(data: Option<Body>): (r: string)
    ensures r != [] && Trim(r) == r
  {
    match ContentAt(data)
    case Some(text) =>
      var t := Trim(text);
      if t != [] then
        TrimIdempotent(text);
        t
      else
        PlaceholderIsTrimmed();
        Placeholder
    case None =>
      PlaceholderIsTrimmed();
      Placeholder
  }

  lemma PlaceholderIsTrimmed()
    ensures Trim(Placeholder) == Placeholder
  {
    assert !IsSpace(Placeholder[0]) && !IsSpace(Placeholder[|Placeholder| - 1]);
    assert [] + Placeholder + [] == Placeholder;
    TrimUnique([], Placeholder, []);
  }

  /** Content with white space around a core that starts and ends with a
      non-space character is shown as exactly that core. */
  lemma ReplyTextOfContent(data: Option<Body>, before: string, core: string, after: string)
    requires ContentAt(data) == Some(before + core + after)
    requires AllSpace(before) && AllSpace(after)
    requires core != [] && !IsSpace(core[0]) && !IsSpace(core[|core| - 1])
    ensures ReplyText(data) == core
  {
    TrimUnique(before, core, after);
  }

  /** Missing content, at whatever level of the path, and content that is
      all white space both give the placeholder. */
  lemma ReplyTextFallback(data: Option<Body>)
    requires ContentAt(data).None? || AllSpace(ContentAt(data).value)
    ensures ReplyText(data) == Placeholder
  {
  }

  /** The path is followed exactly: the content is found if and only if
      every level down to `content` is present and `choices` is non-empty. */
  lemma ContentAtPath(data: Option<Body>, text: string)
    ensures ContentAt(data) == Some(text) <==>
      exists choices: seq<Option<Choice>> ::
        && data == Some(Body(Some(Completion(Some(choices)))))
        && choices != []
        && choices[0] == Some(Choice(Some(ChoiceMessage(Some(text)))))
  {
    if ContentAt(data) == Some(text) {
      var choices := data.value.response.value.choices.value;
      assert data == Some(Body(Some(Completion(Some(choices)))));
    }
  }

  /** A reply body with one choice whose content is `text`. */
  function ReplyWith(text: string): Option<Body>
  {
    Some(Body(Some(Completion(Some([Some(Choice(Some(ChoiceMessage(Some(text)))))])))))
  }

  /** A reply whose content is `"Hi"` is shown as `"Hi"`. */
  lemma ReplyTextOfHi()
    ensures ReplyText(ReplyWith("Hi")) == "Hi"
  {
    assert "Hi" == [] + "Hi" + [];
    ReplyTextOfContent(ReplyWith("Hi"), [], "Hi", []);
  }

  /** A reply whose content is `" Hi\n"` is shown as `"Hi"`. */
  lemma ReplyTextOfPaddedHi()
    ensures ReplyText(ReplyWith(" Hi\n")) == "Hi"
  {
    assert " Hi\n" == " " + "Hi" + "\n";
    ReplyTextOfContent(ReplyWith(" Hi\n"), " ", "Hi", "\n");
  }

  /** A body without `response` (as in `{}`), a `null` body and content that
      is only white space all give the placeholder. */
  lemma ReplyTextOfNoText()
    ensures ReplyText(Some(Body(None))) == Placeholder
    ensures ReplyText(None) == Placeholder
    ensures ReplyText(ReplyWith(" \t")) == Placeholder
  {
    assert AllSpace(" \t");
  }

  /** The assistant message that settles an exchange: never empty, and on
      success already trimmed. */
  function AssistantContent(o: Outcome): (r: string)
    ensures r != []
    ensures o.Success? ==> Trim(r) == r
    ensures o.Failure? ==> |r| == 7 + |o.message| && r[..7] == "Error: " && r[7..] == o.message
  {
    match o
    case Success(data) => ReplyText(data)
    case Failure(message) => "Error: " + message
  }

  /** The actions that `sendMessage` dispatches, in order, for the draft
      `input` when the request settles with `o`. */
  function Exchange(input: string, o: Outcome): (r: seq<Action>)
    ensures r == [] <==> AllSpace(input)
    ensures r != [] ==> |r| >= 4 && r[1] == SetLoading(true) && r[|r| - 1] == SetLoading(false)
  {
    if Trim(input) == [] then []
    else [AddMessage(Message(User, input)), SetLoading(true)] + Settle(o) + [SetLoading(false)]
  }

  /** An exchange appends nothing for a blank draft and otherwise exactly
      the user message and then the assistant message. */
  lemma ExchangeAppends(input: string, o: Outcome)
    ensures Appended(Exchange(input, o)) ==
      if AllSpace(input) then [] else [Message(User, input), Message(Assistant, AssistantContent(o))]
  {
    if !AllSpace(input) {
      var user := AddMessage(Message(User, input));
      var front := [user, SetLoading(true)];
      AppendedConcat([user], [SetLoading(true)]);
      assert front == [user] + [SetLoading(true)];
      AppendedConcat(front, Settle(o));
      AppendedConcat(front + Settle(o), [SetLoading(false)]);
    }
  }

  /** The actions that consume the outcome: record a failure, then append
      the assistant message. */
  function Settle(o: Outcome): (r: seq<Action>)
    ensures Appended(r) == [Message(Assistant, AssistantContent(o))]
    ensures r[|r| - 1] == AddMessage(Message(Assistant, AssistantContent(o)))
    ensures |r| == (if o.Failure? then 2 else 1)
  {
    var record := if o.Failure? then [SetError(Some(o.message))] else [];
    var reply := [AddMessage(Message(Assistant, AssistantContent(o)))];
    AppendedConcat(record, reply);
    record + reply
  }

  /** A draft that is empty or all white space dispatches nothing. */
  lemma ExchangeOfBlank(input: string, o: Outcome)
    ensures Exchange(input, o) == [] <==> AllSpace(input)
  {
  }

  /** While the request is outstanding the user message is in the
      transcript and the in-flight flag is set; up to that point nothing
      depends on how the request settles. */
  lemma ExchangeInFlight(s: ChatState, input: string, o: Outcome, o': Outcome)
    requires !AllSpace(input)
    ensures |Exchange(input, o)| >= 2
    ensures Exchange(input, o)[..2] == Exchange(input, o')[..2]
    ensures var t := Apply(s, Exchange(input, o)[..2]);
            && t.chatHistory == s.chatHistory + [Message(User, input)]
            && t.loading
            && t.error == s.error
  {
    var user := AddMessage(Message(User, input));
    var front := [user, SetLoading(true)];
    var rest, rest' := Settle(o) + [SetLoading(false)], Settle(o') + [SetLoading(false)];
    assert Exchange(input, o) == front + rest && (front + rest)[..2] == front;
    assert Exchange(input, o') == front + rest' && (front + rest')[..2] == front;
    ApplySnoc(s, [], user);
    ApplySnoc(s, [user], SetLoading(true));
  }

  /** Consuming the outcome and lowering the flag appends the assistant
      message, clears `loading` and records the error only on failure. */
  lemma SettleEffect(t: ChatState, o: Outcome)
    ensures var u := Apply(t, Settle(o) + [SetLoading(false)]);
            && u.chatHistory == t.chatHistory + [Message(Assistant, AssistantContent(o))]
            && !u.loading
            && u.error == (if o.Failure? then Some(o.message) else t.error)
  {
    var reply := AddMessage(Message(Assistant, AssistantContent(o)));
    var middle := if o.Failure? then [SetError(Some(o.message))] else [];
    if o.Failure? {
      ApplySnoc(t, [], SetError(Some(o.message)));
    } else {
      assert Apply(t, middle) == t;
    }
    ApplySnoc(t, middle, reply);
    ApplySnoc(t, middle + [reply], SetLoading(false));
    assert Settle(o) == middle + [reply];
  }

  /** After the exchange settles the transcript has grown by exactly the user
      message (with the draft as typed, untrimmed) and then one assistant
      message, the in-flight flag is clear, and the last error is written
      only when the request failed. */
  lemma ExchangeSettles(s: ChatState, input: string, o: Outcome)
    requires !AllSpace(input)
    ensures var t := Apply(s, Exchange(input, o));
            && t.chatHistory == s.chatHistory + [Message(User, input), Message(Assistant, AssistantContent(o))]
            && !t.loading
            && t.error == (if o.Failure? then Some(o.message) else s.error)
  {
    var user := AddMessage(Message(User, input));
    var front := [user, SetLoading(true)];
    var rest := Settle(o) + [SetLoading(false)];
    ApplySnoc(s, [], user);
    ApplySnoc(s, [user], SetLoading(true));
    assert Exchange(input, o) == front + rest;
    ApplyConcat(s, front, rest);
    var mid := Apply(s, front);
    assert mid.chatHistory == s.chatHistory + [Message(User, input)];
    SettleEffect(mid, o);
    assert s.chatHistory + [Message(User, input)] + [Message(Assistant, AssistantContent(o))]
        == s.chatHistory + [Message(User, input), Message(Assistant, AssistantContent(o))];
  }

  /** What the failing request leaves behind: the error is recorded and the
      assistant message is `"Error: "` followed by that same text. */
  lemma ExchangeFails(s: ChatState, input: string, message: string)
    requires !AllSpace(input)
    ensures var t := Apply(s, Exchange(input, Failure(message)));
            && t.error == Some(message)
            && |t.chatHistory| == |s.chatHistory| + 2
            && t.chatHistory[|s.chatHistory| + 1] == Message(Assistant, "Error: " + message)
  {
    ExchangeSettles(s, input, Failure(message));
  }

  /** Transcript entries alternate user, assistant, user, ... and come in
      complete pairs. */
  predicate Paired(h: seq<Message>)
  {
    && |h| % 2 == 0
    && forall k :: 0 <= k < |h| ==> h[k].role == (if k % 2 == 0 then User else Assistant)
  }

  /** A user message followed by an assistant message extends a paired
      transcript to a paired transcript. */
  lemma PairedAppend(h: seq<Message>, question: Message, answer: Message)
    requires Paired(h)
    requires question.role == User && answer.role == Assistant
    ensures Paired(h + [question, answer])
  {
    var h' := h + [question, answer];
    var n := |h|;
    assert n % 2 == 0;
    forall k | 0 <= k < |h'|
      ensures h'[k].role == (if k % 2 == 0 then User else Assistant)
    {
      if k < n {
        assert h'[k] == h[k];
      } else if k == n {
        assert h'[k] == question;
      } else {
        assert k == n + 1;
        assert h'[k] == answer;
      }
    }
  }

  /** One press of "Send" with its draft and the way its request settles. */
  datatype Turn = Turn(input: string, outcome: Outcome)

  /** The state after a series of exchanges, each settled before the next
      one starts. */
  function Session(s: ChatState, turns: seq<Turn>): ChatState
    decreases |turns|
  {
    if turns == [] then s
    else Session(Apply(s, Exchange(turns[0].input, turns[0].outcome)), turns[1..])
  }

  /** One settled exchange on a settled store with a paired transcript
      appends a whole user/assistant pair (or nothing) and leaves nothing in
      flight. */
  lemma ExchangeKeepsPaired(s: ChatState, input: string, o: Outcome)
    requires Paired(s.chatHistory) && !s.loading
    ensures var t := Apply(s, Exchange(input, o));
            && Paired(t.chatHistory)
            && (|t.chatHistory| == |s.chatHistory| || |t.chatHistory| == |s.chatHistory| + 2)
            && t.chatHistory[..|s.chatHistory|] == s.chatHistory
            && !t.loading
  {
    var t := Apply(s, Exchange(input, o));
    if AllSpace(input) {
      ExchangeOfBlank(input, o);
      assert t == s;
    } else {
      ExchangeSettles(s, input, o);
      PairedAppend(s.chatHistory, Message(User, input), Message(Assistant, AssistantContent(o)));
      assert t.chatHistory[..|s.chatHistory|] == s.chatHistory;
    }
  }

  /** Settled exchanges never interleave: starting from a settled store
      whose transcript is paired, every series of exchanges keeps the
      transcript paired, keeps what was there, and leaves nothing in
      flight. */
  lemma {:induction false} SessionStaysPaired(s: ChatState, turns: seq<Turn>)
    requires Paired(s.chatHistory) && !s.loading
    ensures var t := Session(s, turns);
            && Paired(t.chatHistory)
            && |t.chatHistory| >= |s.chatHistory|
            && t.chatHistory[..|s.chatHistory|] == s.chatHistory
            && !t.loading
    decreases |turns|
  {
    if turns != [] {
      var next := Apply(s, Exchange(turns[0].input, turns[0].outcome));
      ExchangeKeepsPaired(s, turns[0].input, turns[0].outcome);
      SessionStaysPaired(next, turns[1..]);
      var t := Session(next, turns[1..]);
      assert t.chatHistory[..|s.chatHistory|] == t.chatHistory[..|next.chatHistory|][..|s.chatHistory|];
    }
  }

  /** Every session of the chat view, from the store's initial state, has a
      paired transcript and nothing left in flight. */
  lemma SessionFromStart(turns: seq<Turn>)
    ensures Paired(Session(InitialState, turns).chatHistory)
    ensures !Session(InitialState, turns).loading
  {
    SessionStaysPaired(InitialState, turns);
  }

  /** The chat view: the draft in the text area and the store it dispatches to. */
  class App {
    var input: string
    const store: ChatStore

    /** The draft starts empty. */
    constructor (store: ChatStore)
      ensures this.store == store && input == ""
    {
      this.store := store;
      input := "";
    }

    /** Typing in the text area replaces the draft. */
    method SetInput(text: string)
      modifies this
      ensures input == text
    {
      input := text;
    }

    /** The part of `sendMessage` before the request is awaited. A blank
        draft changes nothing and issues no request (`None`). Otherwise the
        untrimmed draft is appended as the user message, `loading` is
        raised, the draft is cleared, and the draft as it was is the prompt
        of the request now outstanding. */
    method BeginSend() returns (prompt: Option<string>)
      modifies this, store
      ensures AllSpace(old(input)) ==>
        && prompt == None
        && input == old(input)
        && store.State() == old(store.State())
        && store.log == old(store.log)
      ensures !AllSpace(old(input)) ==>
        && prompt == Some(old(input))
        && input == ""
        && store.log == old(store.log) + [AddMessage(Message(User, old(input))), SetLoading(true)]
        && store.chatHistory == old(store.chatHistory) + [Message(User, old(input))]
        && store.loading
        && store.error == old(store.error)
    {
      if Trim(input) == [] {
        return None;
      }
      // The draft as this call sees it; clearing the text area does not change it.
      var sent := input;
      store.AddMessage(Message(User, sent));
      store.SetLoading(true);
      input := "";
      prompt := Some(sent);
    }

    /** The part of `sendMessage` after the request settles with `outcome`:
        the assistant's reply (or the error, which is also recorded) is
        appended and `loading` is lowered. It does not touch the draft, so
        whatever was typed while the request was outstanding stays. */
    method FinishSend(outcome: Outcome)
      modifies store
      ensures store.log == old(store.log) + Settle(outcome) + [SetLoading(false)]
      ensures store.chatHistory == old(store.chatHistory) + [Message(Assistant, AssistantContent(outcome))]
      ensures !store.loading
      ensures store.error == (if outcome.Failure? then Some(outcome.message) else old(store.error))
    {
      match outcome {
        case Success(data) =>
          var botText := ReplyText(data);
          store.AddMessage(Message(Assistant, botText));
        case Failure(message) =>
          store.SetError(Some(message));
          store.AddMessage(Message(Assistant, "Error: " + message));
      }
      store.SetLoading(false);
    }

    /** `sendMessage`, for a request that settles with `outcome` and with no
        typing while it is outstanding. It dispatches exactly
        `Exchange(draft, outcome)`, in order, and returns the prompt of the
        request it issues (`None`: no request). */
    method SendMessage(outcome: Outcome) returns (prompt: Option<string>)
      modifies this, store
      ensures store.log == old(store.log) + Exchange(old(input), outcome)
      ensures store.State() == Apply(old(store.State()), Exchange(old(input), outcome))
      ensures AllSpace(old(input)) ==>
        && prompt == None
        && input == old(input)
        && store.State() == old(store.State())
      ensures !AllSpace(old(input)) ==>
        && prompt == Some(old(input))
        && input == ""
        && store.chatHistory == old(store.chatHistory)
             + [Message(User, old(input)), Message(Assistant, AssistantContent(outcome))]
        && !store.loading
        && store.error == (if outcome.Failure? then Some(outcome.message) else old(store.error))
    {
      ghost var start := store.State();
      ghost var draft := input;
      prompt := BeginSend();
      if prompt.Some? {
        FinishSend(outcome);
        ExchangeSettles(start, draft, outcome);
      }
    }
  }

}
