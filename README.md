# Spirit Animal Quiz: conversation protocol in Dafny

The quiz runs a conversation with a generative model. The browser keeps the whole
transcript, a list of `user`/`model` turns. It sends the transcript to `POST /api/quiz`
on every step. The server wraps it behind a fixed prompt and a canned acknowledgement. It
sends the last turn's text as the new message. Then it cuts a candidate JSON text out of
the model's free-form reply and returns it parsed.

This project models the two sequential pieces of that protocol and proves their properties:

- **Server** (`server.dfy`, built on `js_strings.dfy`, `turns.dfy` and `options.dfy`, which holds the `Option` type used throughout):
  - the choice of the outgoing message;
  - the outbound history;
  - the extraction of the JSON text from the reply. It has three branches: a "```json" fence,
    a brace-depth scan from the first `{`, or the text passed through unchanged.
  - The brace scan is the handler's `for` loop, written as a method with invariants
    (`Server.ScanBraces`). The whole extraction is a method (`Server.Extract`), proved equal
    to the function `Server.Extracted`, which the lemmas are about.
- **Browser** (`client.dfy`): the module-level `conversationHistory` array, as a class
  `QuizClient.Client` with a `seq<Turn>` field. Its methods push turns (`GetNextStep`,
  `StartQuiz`) or reset them (`StartOver`, `Retake`). Each method's new state is tied to the
  functions `Sent`/`AfterStep`, and the screen it ends on to `ScreenAfter`. The lemmas about a
  whole session are stated over those functions.
- **Protocol** (`protocol.dfy`): how the browser's transcript decides the server's outgoing
  message.

The network round trip is an input: `QuizClient.Reply` is either `Failed` or `Received(data)`.
The model's reply text is a plain argument of `Server.Extract`.

The model follows the code as written:

- The server forwards whatever `JSON.parse` returns. There is no question/result shape check.
- There is no extraction error. A reply with neither a fence nor a `{` passes through
  unchanged. A `{` whose depth never returns to 0 yields the empty string. `JSON.parse` then
  fails on the empty string. It fails on a pass-through text unless that text is itself JSON
  (`null`, a number, an array, a string).
- The browser, not the server, appends the turns. The model turn holds `JSON.stringify` of the
  parsed data, not the raw reply.
- A failed call does not roll back the answer turn pushed before the request.
- Starting the quiz does not clear the history. Only start-over and retake do.
- After the first call and n answered calls, every reply received, the transcript has length 1 + 2n.
- The endpoint `POST /api/quiz` is declared at server.js:127.

## Model

| member | source | states |
|---|---|---|
| JsStrings.IndexOf | server.js:166-168 | `indexOf`: -1 exactly when the pattern occurs nowhere; otherwise an index where it occurs, with no occurrence before it |
| JsStrings.Includes | server.js:164 | `includes` holds exactly when some occurrence exists |
| JsStrings.Trim | server.js:170-172 | `trim` returns a contiguous slice of the input; everything cut off on either side is ECMAScript whitespace; a non-empty result neither starts nor ends with whitespace |
| JsStrings.TrimKeepsTrimmed | server.js:170-172 | trimming a text that neither starts nor ends with whitespace returns it unchanged |
| Server.UserMessage | server.js:152 | the sent message is "Start the quiz." for an empty history; otherwise it is the first part's text of the last turn; it is absent (the TypeError that ends in HTTP 500) exactly when that turn has no part |
| Server.OutboundHistory | server.js:131-143 | the chat history is the prompt as a user turn, then the canned model turn, then the caller's turns in order and unmodified, so its length is the history's length + 2 |
| Server.MessageRepeatsLastTurn | server.js:131-154 | for a non-empty history, the sent message is the text of the last turn already in the chat history, so the model gets it twice in a row; for an empty history the chat holds only the two fixed turns |
| Server.ScanBraces | server.js:177-188 | the brace loop ends right after the first position where the depth counted from `start` is back to 0; it stays at `start` exactly when the depth never returns to 0 |
| Server.BraceEndSpec | server.js:178-188 | the functional form of the loop gives the same end: the first return to depth 0, or `start` when there is none |
| Server.Extract | server.js:160-190 | the extraction as the handler runs it equals `Extracted`, the reference definition the lemmas below are about |
| Server.FenceBranch | server.js:164-174 | with a "```json" present, the result is the trimmed text between the first "```json" and the first "```" after it, or the trimmed rest of the text when no closing fence follows |
| Server.FencePriority | server.js:164-176 | once the reply holds a "```json", prefixing it with any noise free of backticks, braces included, leaves the result unchanged: the brace scan never runs |
| Server.BraceBranchBalanced | server.js:176-189 | without a fence, when the scan from the first `{` closes, the result is the slice of the input starting at that `{` and ending with a `}`; its depth is 0 and positive on every proper prefix, so it is the shortest balanced span |
| Server.BraceBranchUnbalanced | server.js:179-189 | without a fence and with a `{`, the result is empty exactly when the depth from the first `{` never returns to 0 |
| Server.NoMatchUnchanged | server.js:161 | a reply with neither "```json" nor `{` is returned unchanged |
| Server.BareObjectUnchanged | server.js:176-189 | a fence-free text that is one balanced object (depth first 0 at its last character) is returned unchanged |
| Server.FencedObjectUnchanged | server.js:164-189 | a balanced object without backticks extracts to itself, both bare and wrapped in "```json" … "```" |
| Server.ProseAroundObject | server.js:176-189 | prose without braces before a balanced object, and anything after it (a second object included), are dropped: the result is exactly the first object |
| QuizClient.Sent | public/script.js:20-26 | the sent history only extends the old one: the old history is a prefix, the length grows by one exactly when the answer is truthy, and the added turn is the user turn "My answer is: " + answer |
| QuizClient.AfterStep | public/script.js:20-47 | a call only appends to the history: the old history is a prefix; the answer turn (if any) comes first, the model turn (only on a received reply) last, and the length grows by 0, 1 or 2 accordingly |
| QuizClient.ScreenAfter | public/script.js:44-62 | type "question" shows the question, with start-over exactly when the history is longer than 2; type "result" shows the result; any other type shows neither; a failure or JSON `null` data ends on the error screen |
| QuizClient.Client.constructor | public/script.js:6 | the history starts empty |
| QuizClient.Client.GetNextStep | public/script.js:19-58 | the new history is `AfterStep` of the old one, so a failure keeps the pushed answer turn and adds no model turn; the screen is `ScreenAfter` of the new history |
| QuizClient.Client.StartQuiz | public/script.js:10-17 | starting is a call without an answer that keeps the existing history and appends to it |
| QuizClient.Client.StartOver | public/script.js:87-92 | start-over empties the history |
| QuizClient.Client.Retake | public/script.js:138-143 | retake empties the history |
| QuizClient.FailedCallKeepsAnswer | public/script.js:20-57 | a failed call with a truthy answer leaves exactly the old history plus the answer turn and ends on the error screen |
| QuizClient.SessionShape | public/script.js:19-47 | from empty, a first call without an answer gives length 1, and each later answered call adds exactly its answer turn and then its model turn, so n answered calls give length 1 + 2n |
| QuizClient.SessionAlternates | public/script.js:19-47 | in such a session the roles alternate: model turns at even positions, user turns at odd ones |
| QuizClient.StartOverAfterFirstQuestion | public/script.js:62 | in such a session the start-over control is hidden on the first question and shown on every later one |
| Protocol.AnswerIsSentMessage | server.js:152 | an answered call makes the server send "My answer is: " + answer; the first call on an empty history makes it send "Start the quiz." |
| Protocol.StartWithoutResetResendsReply | public/script.js:10-17 | starting a quiz again on a non-empty session history would make the server send the last model turn's JSON text as the user's message; the page does not reach that state, since the start button is hidden on the first click (public/script.js:11) and shown again only after the history is emptied (public/script.js:91, public/script.js:142) |

## Left out

- Express setup, security headers, CORS, rate limiting, static files and body parsing (server.js:1-55, server.js:204-206): framework plumbing.
- The quiz prompt text (server.js:57-125) is a parameter of `Server.OutboundHistory`. The generation settings (server.js:144-149) are not modelled.
- The model service (`startChat`, `sendMessage`, `response.text()`): a foreign service. Its reply text is an input.
- `JSON.parse` and `res.json` (server.js:194), and the HTTP 500 path (server.js:195-200): a library parser and the HTTP response. The extracted text is where the model stops.
- Logging (server.js:158, server.js:192, server.js:196-198).
- `fetch`, DOM updates, HTML templates, event wiring, share/clipboard/alert (public/script.js:1-17, public/script.js:29-41, public/script.js:64-136): UI and network I/O. The page is reduced to `QuizClient.Screen`.
- Errors thrown while rendering malformed data (for instance a question without `options`) are not modelled. `ScreenAfter` assumes rendering succeeds.
- Async scheduling: each call is one sequential step whose network outcome is a parameter.
- Characters are Dafny's Unicode scalar values. JavaScript indexes strings by UTF-16 code units, so indices differ for text outside the Basic Multilingual Plane.
- Brace counting does not skip string literals, as in the source. A `{` or `}` inside a JSON string value moves the count.
- The visibility of the start-over button is not a precondition of `StartOver`. The source only attaches that handler when the history was longer than 2 at display time.
