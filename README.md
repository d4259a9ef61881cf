# llm-ui chat client: conversation store and exchange coordinator

A model of the two pieces of the `llm-ui` chat client that hold state and
logic:

- the **conversation store**, the `chat` slice of the Redux store: the
  transcript `chatHistory`, the in-flight flag `loading` and the last `error`,
  with the three reducers `addMessage`, `setLoading` and `setError`;
- the **exchange coordinator** `sendMessage` of the chat view: it skips a
  blank draft, appends the user message, raises `loading`, clears the draft,
  waits for the request, appends the assistant's reply or an error message,
  and lowers `loading`.

Files:

- `option.dfy` (module `Optional`): `Option`, standing for `null`/`undefined`.
- `text.dfy` (module `Text`): `String.prototype.trim`, with the ECMAScript
  WhiteSpace and LineTerminator characters, as an index scan from both ends
  (`SkipFront`, `SkipBack`). The lemmas show that `trim` is determined by
  what it keeps (`TrimUnique`) and is idempotent.
- `chat_slice.dfy` (module `ChatSlice`): the state value `ChatState`, the
  `initialState`, the three actions and the slice reducer `Reduce`; `Apply`
  replays a series of dispatched actions. The class `ChatStore` is the state
  as the reducers mutate it in place: one field per state field and one
  `modifies this` method per reducer, each stating its whole new state. A
  ghost field `log` records every action dispatched to the store, in order.
- `chat_app.dfy` (module `ChatApp`): the reply-body shape read by
  `data?.response?.choices?.[0]?.message?.content`, the reply-text
  extraction `ReplyText`, the request `Outcome`, the action sequence
  `Exchange` that one `sendMessage` call dispatches, and the class `App`,
  which holds the draft `input` and the store. `App` has `sendMessage` in
  two halves split at the awaited request (`BeginSend`, `FinishSend`) and
  `SendMessage`, which runs one after the other.

`App.BeginSend` returns the prompt of the request it issues, or `None` when
the draft was blank, and states the store while that request is outstanding:
the user message appended, `loading` true, `error` untouched, the draft
cleared. `App.FinishSend` takes the request's outcome as a parameter and
does not touch the draft, so text typed while the request was outstanding
is kept. Each half states the actions it dispatches to the store's `log`.
`App.SendMessage` states that the whole call dispatches exactly
`Exchange(old(input), outcome)`, in order, and that the new store is the
replay of those actions. It also states the end state directly. The lemmas
about `Exchange` state the rest:

- the snapshot while the request is outstanding (`ExchangeInFlight`);
- the settled state (`ExchangeSettles`);
- that a transcript of user/assistant pairs stays one across any series of
  settled exchanges (`SessionStaysPaired`).

The success path of `sendMessage` keeps the previous `error`. The reducer
`setError` accepts `null`, but `sendMessage` never dispatches it, and nothing
else in the client dispatches `setError`. A failure therefore stays recorded
after later successful exchanges. The model keeps this behaviour, as the code has it.

A non-success HTTP status is not a failure in this code. The code only
catches what `fetch` or `res.json()` throw. A non-2xx response whose body
parses as JSON therefore takes the success path. Its body then usually lacks
the reply path, so the user sees `"No response text."`. In the model such a
response is a `Success` outcome, as the code has it, although one would
expect an HTTP error to be reported as an error.

## Model

| member | source | states |
|---|---|---|
| `Text.Trim` | src/App.tsx:40 | `trim()` yields the empty string exactly when the text is all white space; otherwise the result starts and ends with a non-space character |
| `Text.TrimIsSlice` | src/App.tsx:58 | what `trim()` keeps is a contiguous slice of the text with only white space before and after it |
| `Text.TrimUnique` | src/App.tsx:58 | white space around a core that starts and ends with a non-space character is exactly what `trim()` removes, so `trim()` returns that core |
| `Text.TrimIdempotent` | src/App.tsx:58 | trimming an already trimmed text changes nothing |
| `ChatSlice.Reduce` | src/slices/chatSlice.tsx:24-34 | only `addMessage` changes the transcript, and it appends exactly its payload message at the end; `setLoading` sets only `loading`; `setError` sets only `error` |
| `ChatSlice.ApplyConcat` | src/slices/chatSlice.tsx:24-34 | dispatching two series of actions one after the other gives the same state as dispatching their concatenation |
| `ChatSlice.HistoryAppendOnly` | src/slices/chatSlice.tsx:25-27 | after any series of dispatches the new transcript is the old one followed by exactly the payloads of the `addMessage` actions, in dispatch order |
| `ChatSlice.AppendedConcat` | src/slices/chatSlice.tsx:25-27 | the messages appended by two batches dispatched in turn are those of the first batch followed by those of the second |
| `ChatSlice.SetLoadingIdempotent` | src/slices/chatSlice.tsx:28-30 | `setLoading(b)` twice gives the same state as `setLoading(b)` once |
| `ChatSlice.ChatStore.constructor` | src/slices/chatSlice.tsx:15-19 | the store starts with an empty transcript, `loading` false and `error` null, and nothing dispatched |
| `ChatSlice.ChatStore.AddMessage` | src/slices/chatSlice.tsx:25-27 | appends the message to the transcript for any content, the empty string included, leaves `loading` and `error` unchanged, and logs one `addMessage` |
| `ChatSlice.ChatStore.SetLoading` | src/slices/chatSlice.tsx:28-30 | sets `loading` to the payload, leaves the transcript and `error` unchanged, and logs one `setLoading` |
| `ChatSlice.ChatStore.SetError` | src/slices/chatSlice.tsx:31-33 | sets `error` to the payload, null included, and leaves the transcript and `loading` unchanged; no message is appended; logs one `setError` |
| `ChatApp.ReplyText` | src/App.tsx:57-59 | the assistant text shown on success is never empty and is already trimmed |
| `ChatApp.ContentAt` | src/App.tsx:58 | defines the optional chain `data?.response?.choices?.[0]?.message?.content`; content is found only when the body, `response`, `choices`, a first choice and its `message` are all present, and it is that `message`'s `content` |
| `ChatApp.ContentAtPath` | src/App.tsx:58 | the optional chain finds content `c` exactly when the body, `response`, `choices`, a first choice, its `message` and `content == c` are all present |
| `ChatApp.ReplyTextOfContent` | src/App.tsx:57-58 | when the content is white space around a core that starts and ends with a non-space character, the assistant text is exactly that core |
| `ChatApp.ReplyTextFallback` | src/App.tsx:57-59 | a missing level anywhere on the path, or content that is all white space, gives exactly `"No response text."` |
| `ChatApp.ReplyTextOfHi` | src/App.tsx:57-58 | a reply whose content is `"Hi"` is shown as `"Hi"` |
| `ChatApp.ReplyTextOfPaddedHi` | src/App.tsx:57-58 | a reply whose content is `" Hi\n"` is shown as `"Hi"` |
| `ChatApp.ReplyTextOfNoText` | src/App.tsx:57-59 | a `null` body, a body without `response` (as `{}`) and white-space-only content all give `"No response text."` |
| `ChatApp.AssistantContent` | src/App.tsx:57-67 | defines the assistant message that settles an exchange: the reply text on success, `"Error: "` and the caught message on failure; it is never empty, is already trimmed on success, and on failure is exactly the 7-character prefix `"Error: "` followed by the message |
| `ChatApp.Settle` | src/App.tsx:57-67 | defines the dispatches that consume the outcome: `setError` only on failure, then `addMessage`; exactly one message, the assistant one, is appended and it is the last action |
| `ChatApp.Exchange` | src/App.tsx:40-70 | defines the whole dispatch sequence of one `sendMessage` call; it is empty exactly for a blank draft, and otherwise has at least four actions, the second raising `loading` and the last lowering it |
| `ChatApp.ExchangeAppends` | src/App.tsx:44-67 | an exchange appends no message for a blank draft and otherwise exactly the untrimmed user message and then the assistant message |
| `ChatApp.ExchangeOfBlank` | src/App.tsx:40 | `sendMessage` dispatches nothing exactly when the draft is empty or all white space |
| `ChatApp.ExchangeInFlight` | src/App.tsx:44-47 | before the outcome is consumed, the user message (the untrimmed draft) has been appended and `loading` is true, `error` is untouched, and the dispatches so far do not depend on the outcome |
| `ChatApp.SettleEffect` | src/App.tsx:57-70 | from any state, consuming the outcome and lowering the flag appends exactly the assistant message, leaves `loading` false, and sets `error` to the failure message on failure and keeps it on success |
| `ChatApp.ExchangeSettles` | src/App.tsx:44-70 | after settlement the transcript has grown by exactly the user message and then one assistant message with the outcome's content; `loading` is false; `error` is the failure message on failure and unchanged on success |
| `ChatApp.ExchangeFails` | src/App.tsx:63-67 | a failure with message `m` leaves `error == m` and, as the second new entry, an assistant message whose content is exactly `"Error: " + m` |
| `ChatApp.PairedAppend` | src/App.tsx:44-45 | a user message and then an assistant message appended to a transcript of user/assistant pairs leave a transcript of such pairs |
| `ChatApp.ExchangeKeepsPaired` | src/App.tsx:39-71 | one exchange on a settled store whose transcript is user/assistant pairs appends one whole pair or nothing, keeps the old transcript, and leaves `loading` false |
| `ChatApp.SessionStaysPaired` | src/App.tsx:39-71 | across any series of settled exchanges the transcript stays user/assistant pairs, the old transcript is kept, and `loading` ends false |
| `ChatApp.SessionFromStart` | src/App.tsx:39-71 | from the initial store, every series of settled exchanges leaves a paired transcript and `loading` false |
| `ChatApp.App.constructor` | src/App.tsx:19 | the draft starts empty |
| `ChatApp.App.SetInput` | src/App.tsx:118 | typing replaces the draft |
| `ChatApp.App.BeginSend` | src/App.tsx:39-53 | a blank draft changes nothing, dispatches nothing and sends no request; otherwise it dispatches `addMessage` of the untrimmed draft and then `setLoading(true)`, clears the draft, and the draft as it was is the prompt; while the request is outstanding the user message is the last entry, `loading` is true and `error` is unchanged |
| `ChatApp.App.FinishSend` | src/App.tsx:56-70 | on success dispatches `addMessage` of the reply text; on failure `setError` of the message and then `addMessage` of `"Error: "` and the message; then `setLoading(false)`; the draft is not touched |
| `ChatApp.App.SendMessage` | src/App.tsx:39-71 | one call with no typing while the request is outstanding dispatches exactly `Exchange(draft, outcome)`, in order; a blank draft changes nothing and sends no request; otherwise the raw draft is the prompt, the draft is cleared, and the store ends with the user and assistant messages appended, `loading` false and `error` set only on failure |

## Left out

- The network round trip is not modelled: `fetch`, `JSON.stringify` and `res.json()` (src/App.tsx:50-56). The request settles with an `Outcome` parameter. A rejection of `fetch` or of `res.json()`, including a body that is not JSON, is `Failure` with the caught error's message. The base address and `/ask_llm` path are not modelled.
- Content that is present but not a string is folded into `Failure`. Calling `.trim` on it throws a `TypeError` inside the `try`, which lands in the `catch` branch. A thrown value whose `message` is not a string is not modelled either: `Failure` always carries a string.
- A value that is present but of the wrong type at an intermediate level reads as missing, as the optional chain does for such values. This covers a string where an object is expected, among others. A non-array `choices` indexed by `[0]` is not modelled.
- JavaScript strings are sequences of UTF-16 code units, and `string` here is a sequence of Unicode scalar values. A lone surrogate, which `JSON.parse` accepts in a reply, cannot be represented. `trim` is unaffected, because every white-space character is a single code unit outside the surrogate range.
- `IsSpace` uses the `Zs` space separators of current Unicode. Character sets of other Unicode versions are not modelled.
- The missing-backend-URL check only logs to the console (src/App.tsx:41-43). It is not modelled.
- Overlapping `sendMessage` calls are not modelled. The code prevents them only by disabling the button. The await is the boundary between `BeginSend` and `FinishSend`, between which the draft may be edited (`SetInput`), but no scheduler interleaves a second call there.
- Rendering is not modelled: the JSX, the inline styles, role-based alignment and the button's `disabled={loading}` (src/App.tsx:73-131). Neither are the scroll-to-bottom ref and effect (src/App.tsx:23, 31-37).
- The Redux wiring is not modelled: `useSelector`, `useDispatch`, the `RootState` stub and Immer's proxying. The store bootstrap and DOM mount in src/index.tsx are left out too. `src/store` is not part of this model.
