/**
 * The conversation store: the `chat` slice of the client's Redux store.
 * Its state is the transcript (`chatHistory`), the in-flight flag
 * (`loading`) and the last error (`error`, `null` when there is none), and
 * it has exactly three mutations. `Reduce` is the slice's exported reducer,
 * a function from a state and an action to the next state; `ChatStore` is
 * the same state as the reducers see it, a draft that they mutate in place.
 */
module ChatSlice {

  import opened Optional

  datatype Role = User | Assistant

  /** One transcript entry; never changed once appended. */
  datatype Message = Message(role: Role, content: string)

  datatype ChatState = ChatState(chatHistory: seq<Message>, loading: bool, error: Option<string>)

  /** The slice's `initialState`. */
  const InitialState := ChatState([], false, None)

  /** The slice's three action creators. */
  datatype Action =
    | AddMessage(message: Message)
    | SetLoading(flag: bool)
    | SetError(text: Option<string>)

  /** The slice reducer. Only `AddMessage` touches the transcript, and it
      only ever appends: the old transcript is a prefix of the new one. */
  function Reduce(s: ChatState, a: Action): (r: ChatState)
    ensures r.chatHistory == (if a.AddMessage? then s.chatHistory + [a.message] else s.chatHistory)
    ensures r.loading == (if a.SetLoading? then a.flag else s.loading)
    ensures r.error == (if a.SetError? then a.text else s.error)
  {
    match a
    case AddMessage(m) => s.(chatHistory := s.chatHistory + [m])
    case SetLoading(b) => s.(loading := b)
    case SetError(e) => s.(error := e)
  }

  /** The state after dispatching `actions` in order, starting from `s`. */
  function Apply(s: ChatState, actions: seq<Action>): ChatState
    decreases |actions|
  {
    if actions == [] then s else Apply(Reduce(s, actions[0]), actions[1..])
  }

  /** The messages that `actions` append, in dispatch order. */
  function Appended(actions: seq<Action>): seq<Message>
  {
    if actions == [] then []
    else (if actions[0].AddMessage? then [actions[0].message] else []) + Appended(actions[1..])
  }

  /** The messages appended by two batches are those of the first, then
      those of the second. */
  lemma {:induction false} AppendedConcat(xs: seq<Action>, ys: seq<Action>)
    ensures Appended(xs + ys) == Appended(xs) + Appended(ys)
    decreases |xs|
  {
    if xs == [] {
      assert xs + ys == ys;
    } else {
      assert (xs + ys)[0] == xs[0];
      assert (xs + ys)[1..] == xs[1..] + ys;
      AppendedConcat(xs[1..], ys);
    }
  }

  /** Dispatching two batches in turn is dispatching their concatenation. */
  lemma {:induction false} ApplyConcat(s: ChatState, xs: seq<Action>, ys: seq<Action>)
    ensures Apply(s, xs + ys) == Apply(Apply(s, xs), ys)
    decreases |xs|
  {
    if xs == [] {
      assert xs + ys == ys;
    } else {
      assert (xs + ys)[0] == xs[0];
      assert (xs + ys)[1..] == xs[1..] + ys;
      ApplyConcat(Reduce(s, xs[0]), xs[1..], ys);
    }
  }

  /** Dispatching one more action is one more step of the reducer. */
  lemma ApplySnoc(s: ChatState, actions: seq<Action>, a: Action)
    ensures Apply(s, actions + [a]) == Reduce(Apply(s, actions), a)
  {
    ApplyConcat(s, actions, [a]);
    assert [a][1..] == [];
  }

  /** The transcript is append-only: whatever is dispatched, the new
      transcript is the old one followed by exactly the messages of the
      `AddMessage` actions, in dispatch order. */
  lemma {:induction false} HistoryAppendOnly(s: ChatState, actions: seq<Action>)
    ensures Apply(s, actions).chatHistory == s.chatHistory + Appended(actions)
    decreases |actions|
  {
    if actions != [] {
      var t := Reduce(s, actions[0]);
      HistoryAppendOnly(t, actions[1..]);
      var front := if actions[0].AddMessage? then [actions[0].message] else [];
      assert t.chatHistory == s.chatHistory + front;
      assert s.chatHistory + front + Appended(actions[1..]) == s.chatHistory + (front + Appended(actions[1..]));
    }
  }

  /** `setLoading(b)` applied twice is `setLoading(b)` applied once. */
  lemma SetLoadingIdempotent(s: ChatState, b: bool)
    ensures Reduce(Reduce(s, SetLoading(b)), SetLoading(b)) == Reduce(s, SetLoading(b))
  {
  }

  /** The store as the slice's reducers see it: one object whose fields the
      reducers assign (Immer turns those assignments into a new state).
      `log` records, for the proofs only, every action dispatched to it. */
  class ChatStore {
    var chatHistory: seq<Message>
    var loading: bool
    var error: Option<string>
    ghost var log: seq<Action>

    function State(): ChatState
      reads this
    {
      ChatState(chatHistory, loading, error)
    }

    /** The store starts from `initialState`. */
    constructor ()
      ensures chatHistory == [] && !loading && error == None
      ensures State() == InitialState
      ensures log == []
    {
      chatHistory := [];
      loading := false;
      error := None;
      log := [];
    }

    /** `addMessage`: push `m` onto the transcript. Any content is accepted,
        the empty string included, and nothing else changes. */
    method AddMessage(m: Message)
      modifies this
      ensures chatHistory == old(chatHistory) + [m]
      ensures loading == old(loading) && error == old(error)
      ensures State() == Reduce(old(State()), Action.AddMessage(m))
      ensures log == old(log) + [Action.AddMessage(m)]
    {
      chatHistory := chatHistory + [m];
      log := log + [Action.AddMessage(m)];
    }

    /** `setLoading`: replace the in-flight flag and nothing else. */
    method SetLoading(b: bool)
      modifies this
      ensures loading == b
      ensures chatHistory == old(chatHistory) && error == old(error)
      ensures State() == Reduce(old(State()), Action.SetLoading(b))
      ensures log == old(log) + [Action.SetLoading(b)]
    {
      loading := b;
      log := log + [Action.SetLoading(b)];
    }

    /** `setError`: replace the last error (`None` clears it) and nothing
        else; in particular no message is appended. */
    method SetError(e: Option<string>)
      modifies this
      ensures error == e
      ensures chatHistory == old(chatHistory) && loading == old(loading)
      ensures State() == Reduce(old(State()), Action.SetError(e))
      ensures log == old(log) + [Action.SetError(e)]
    {
      error := e;
      log := log + [Action.SetError(e)];
    }
  }

}
