# Chat relay: a verified model

This project models the message-relay core of a small browser chat
application. A Node/Express server (`server.js`) handles `POST /api/chat`:

- it rate-limits each client key with a fixed window;
- it rejects a malformed request;
- it merges the history the browser sends into a process-wide conversation
  store, without repeating the last stored turn;
- it appends the user's message;
- it then answers. With no API key configured, the answer comes from a
  keyword-matching responder. With a key, it calls a generative-language
  API up to three times with exponential backoff, and falls back to the
  responder when the last attempt throws.

The browser script (`public/script.js`) contributes four pieces:

- the HTML escaper for displayed text;
- the 500-entry local message buffer;
- the 60-entry history sent with each message;
- the submit check.

Modules, one per component:

- `Seqs`: `slice(-n)`.
- `JsText`: `trim`, `toLowerCase`, `includes`.
- `Fallback`: `ruleBasedReply`.
- `Conversation`: turns, `safeText`, `trimServerHistory` and the merge rule.
- `Normalize`: `normalizeClientItem` over parsed JSON values.
- `RateLimit`: `checkRateLimit`.
- `Upstream`: the retry loop, with one abstract outcome per attempt.
- `Server`: the handler as a pure function `Handled`/`Serve`, plus a
  `ChatServer` class whose methods update `chatHistory` and `rateMap` in
  place. Each method is proved equal to the pure function.
- `Client`: the browser pieces, including a `LocalLog` class for the local
  buffer.
- `Relay`: what the server stores when the browser sends a message.

The browser saves a message before it builds the history it sends, so that
history already ends with the message. The server merges that entry and then
pushes the message again, so every submitted message is stored twice in a
row (`Relay.SubmittedMessageStoredTwice`).

The handler's 500 cases follow the code. A non-retryable HTTP error, an HTTP
error on the last attempt, and a missing reply text on the last attempt each
answer 500 without falling back. Only an exception thrown on the last attempt
reaches the rule-based reply. A design-level reading in which every upstream
failure degrades to the fallback is therefore not what the code does, and
the model follows the code.

## Model

| member | source | states |
|---|---|---|
| Seqs.KeepLast | server.js:46 | `slice(-n)`: the result has `min(n, length)` elements and is the suffix of the input |
| JsText.Trim | server.js:105 | `trim`: the result is a contiguous slice of the input; everything dropped before and after it is whitespace; it neither starts nor ends with whitespace; it is empty exactly when the input is all whitespace |
| JsText.TrimIdempotent | server.js:105 | trimming twice gives the same as trimming once |
| JsText.TrimOfTight | server.js:105 | a non-empty string with no whitespace at either end is its own trim |
| JsText.LowerCaseOfLower | server.js:34 | a string of lower-case ASCII letters and spaces is unchanged by `toLowerCase` |
| JsText.LowerCase | server.js:34 | `toLowerCase`, character by character: the result is at least as long as the input and at most twice as long |
| JsText.Contains | server.js:36 | `includes(k)` is true exactly when `k` occurs at some index |
| JsText.ContainsLonger | server.js:38 | a string that contains `k + tail` contains `k` |
| JsText.MissingFirstChar | server.js:36 | a keyword whose first character is absent cannot occur |
| Fallback.RuleBasedReply | server.js:33-42 | the reply is never empty and is at most 200 characters long |
| Fallback.RuleBasedReplyCanned | server.js:35-41 | the reply is always one of the seven canned replies |
| Fallback.FirstMatch | server.js:36-41 | the first-match reading returns the default or the reply of a row at or after the starting row |
| Fallback.Folded | server.js:34 | the message lower-cased and trimmed, the form every keyword test looks at; `Fallback.BlankGetsPrompt` and `Fallback.GreetingFirst` state what the responder does with it |
| Fallback.RuleBasedReplyIsFirstMatch | server.js:33-42 | the responder returns the prompt for a message that is empty after lower-casing and trimming; otherwise it returns the reply of the first matching row in the priority order hello/hi, help, project(s), github, thank(s), or the demo deflection when no row matches |
| Fallback.BlankGetsPrompt | server.js:34-35 | an all-whitespace message gets the prompt |
| Fallback.LowerCaseKeepsWhitespace | server.js:34 | lower-casing leaves all-whitespace text unchanged |
| Fallback.GreetingFirst | server.js:36 | any message whose folded form contains "hi" is greeted, whatever follows |
| Fallback.ThisIsGreeted | server.js:36 | "this" is greeted, because "hi" is a substring test |
| Fallback.PluralTestsRedundant | server.js:38-40 | the second tests, for "projects" and for "thanks", never change the outcome |
| Fallback.ProjectQuestion | server.js:36-38 | a message with "project" and no earlier keyword gets the project reply |
| Fallback.NoKeywordStartDeflected | server.js:36-41 | a non-empty message without any keyword's first letter gets the demo deflection |
| Conversation.SafeText | server.js:50-55 | the result is at most 20000 characters and is a suffix of the input; it is the input itself when that fits, and exactly the last 20000 characters otherwise; "" gives "" |
| Conversation.SafeTextIdempotent | server.js:50-55 | capping twice is capping once |
| Conversation.MaxTotalEntries | server.js:20-22 | the turn bound is twice the exchange count; it is 20 when `MAX_HISTORY` is unset, and always even and at least 2 |
| Conversation.TrimmedHistoryProperties | server.js:44-48 | after trimming there are at most `cap` turns, and they are a suffix of the old history; trimming changes nothing within the cap and is idempotent |
| Conversation.TrimmedHistory | server.js:44-48 | the store after `trimServerHistory`; its properties are stated by `Conversation.TrimmedHistoryProperties` |
| Conversation.TrimmedHistoryCapped | server.js:44-48 | trimming keeps every stored text within the character cap |
| Conversation.PushUnlessLast | server.js:134-139 | one merge step either leaves the store as it was or appends the item, and the item is always last afterwards |
| Conversation.MergeInto | server.js:133-140 | the push loop over the normalized turns; its properties are stated by `Conversation.MergeIntoProperties`, `Conversation.MergeAddsOnlyItems` and `Conversation.MergeFreshItems` |
| Conversation.MergeIntoProperties | server.js:133-140 | the merge only appends: the old store is a prefix of the result, at most one turn is added per item, the last item ends up last, and no appended turn equals the turn before it |
| Conversation.MergeIntoLast | server.js:133-140 | after merging a non-empty list, its last item is the last stored turn |
| Conversation.MergeAddsOnlyItems | server.js:133-140 | every appended turn is one of the items |
| Conversation.ReplayLastAddsNothing | server.js:134-137 | a client replaying the last stored turn adds nothing |
| Conversation.MergeFreshItems | server.js:133-140 | items are all appended when none repeats its predecessor and the first differs from the last stored turn |
| Conversation.ReplayOfTwoTurnsRepeats | server.js:133-140 | deduplication looks only at the last turn, so replaying a stored two-turn history appends both turns again |
| Normalize.NormalizeClientItemProperties | server.js:89-108 | an entry is dropped exactly when it is not an object or its chosen text is blank. A kept entry has the mapped role and the trimmed text passed through `safeText`: that text is non-empty, within the cap, a suffix of the trimmed text, equal to it within the cap and exactly its last 20000 characters above the cap, and it does not end in whitespace |
| Normalize.NormalizeClientItem | server.js:89-108 | `normalizeClientItem`; its contract is stated by `Normalize.NormalizeClientItemProperties` |
| Normalize.RoleLabel | server.js:91 | the label as a string: `role` when truthy, else `who` when truthy, else the empty string; `Normalize.LabelOf` and `Normalize.UpperCaseLabel` state how it is mapped |
| Normalize.RoleOf | server.js:91-97 | the role a label maps to; `Normalize.LabelOf`, `Normalize.UserLabel`, `Normalize.AssistantLabel` and `Normalize.UpperCaseLabel` state it for the labels the browser sends and for upper-case ones |
| Normalize.RawContent | server.js:99-103 | the chosen text before trimming; `Normalize.EmptyContentWins` and `Normalize.NonStringTextStringified` state the order of choice and the stringified fallback |
| Normalize.NormalizeAll | server.js:128-132 | the first loop yields at most one turn per entry |
| Normalize.NormalizeAllCapped | server.js:128-132 | every normalized turn has a non-empty text within the cap |
| Normalize.UserLabel | server.js:91-97 | the label "user" gives `user` |
| Normalize.AssistantLabel | server.js:93-94 | the label "assistant" gives `model` |
| Normalize.LabelOf | server.js:91-97 | a lower-case label gives `model` exactly when it is one of the four model labels |
| Normalize.UpperCaseLabel | server.js:91-94 | the label "BOT" gives `model`, because the label is lower-cased first |
| Normalize.NonStringTextStringified | server.js:99-103 | an entry with no string `content`/`text`/`message` is stored as the whole entry stringified, as a user turn when it has no label |
| Normalize.EmptyContentWins | server.js:100-106 | an empty string `content` is chosen over a non-empty `text`, and the entry is dropped |
| RateLimit.NextRecord | server.js:61-71 | a missing record, or a window older than one hour (strictly), restarts at count 1 from `now`; otherwise the count goes up by one and the window start is kept |
| RateLimit.CountsWithinWindow | server.js:61-71 | calls that all fall within the first call's window leave the record `{n, first time}` |
| RateLimit.AdmittedIffWithinQuota | server.js:61-71 | within one window, a call is admitted exactly when at most 150 calls have been made |
| RateLimit.WindowElapsedResets | server.js:64-70 | once the window has passed, the next call restarts at 1 and is admitted |
| RateLimit.RejectedCallsCount | server.js:63-70 | a rejected call still counts, so later calls in the same window are rejected too |
| Upstream.BackoffDoubles | server.js:185 | the first wait is 800 ms, and each wait doubles the one before |
| Upstream.Backoff | server.js:185 | the wait after a retried attempt; `Upstream.BackoffDoubles` states its values |
| Upstream.TransientMessage | server.js:183 | the regular-expression test for "overload" or "temporar" ignoring case; `Upstream.TransientMessageIgnoresCase` states what it accepts |
| Upstream.TransientMessageIgnoresCase | server.js:183 | a message is transient exactly when "overload" or "temporar" is spelt in it with each letter in either case |
| Upstream.UpperCaseOverloadIsTransient | server.js:183 | a message containing "OVERLOADED" is transient |
| Upstream.CapitalisedTemporaryIsTransient | server.js:183 | a message containing "Temporarily" is transient |
| Upstream.Decide | server.js:178-224 | one attempt's decision. The last attempt never retries. An HTTP error is retried when it is a 429, a 503 or a transient message and not the last attempt, and otherwise answers 500 with its own message. A response without reply text is retried before the last attempt and answers 500 "No reply from Gemini" on it. A reply needs an ok status and a non-empty text. A thrown error is retried before the last attempt, and on it gives up to the fallback carrying that error |
| Upstream.AbortFlagIrrelevant | server.js:213-215 | whether the exception was an abort never changes the decision |
| Upstream.RetryRun | server.js:166-225 | the loop waits at most twice in all, and its k-th wait is `800 * 2 ** k` |
| Upstream.CallUpstream | server.js:166-225 | the imperative loop computes the reference run: the same result and the same waits, fewer than three waits, the k-th being `800 * 2 ** k` |
| Upstream.ExhaustedOnlyAfterLastThrow | server.js:211-225 | the loop falls through to the fallback only when the last attempt threw. It then carries that exception as the last error, and a wait followed every earlier attempt |
| Upstream.LoopEnds | server.js:166-225 | some attempt always ends the loop, since the last one never retries |
| Upstream.RunEndsAt | server.js:166-225 | the loop's result is the one decided by the attempt that ends it, after exactly one wait for each earlier attempt |
| Upstream.TwoOverloadsThenReply | server.js:183-209 | two 503s and then a reply give that reply after waits of 800 and 1600 ms |
| Upstream.PlainHttpErrorIsFinal | server.js:183-192 | a non-retryable HTTP error ends the loop at once with a server error |
| Upstream.ThreeThrowsGiveUp | server.js:211-232 | three thrown errors reach the fallback with the last one as the error, after waits of 800 and 1600 ms |
| Server.UpstreamContents | server.js:156-160 | the payload has one entry per stored turn, with the same role and the text passed through `safeText` |
| Server.UpstreamContentsIsHistory | server.js:156-160 | since stored texts are already capped, the payload is the stored history itself |
| Server.Merged | server.js:127-141 | the store after the merge step; `Server.WithUserTurnCapped` and `Relay.MergedThenStoredTwice` state its properties |
| Server.WithUserTurn | server.js:127-145 | the store once the user turn is pushed and trimmed; `Server.WithUserTurnEnds` and `Server.WithUserTurnCapped` state its properties |
| Server.UpstreamAnswer | server.js:178-232 | the answer a finished loop gives; `Server.ServerErrorFromRetryLoop`, `Server.GeminiExactlyOnSuccess` and `Server.FallbackOnlyAfterLastThrow` state it in terms of the attempts |
| Server.WithAnswer | server.js:148-232 | the store after the answer; `Server.WithAnswerEnds` and `Server.WithAnswerCapped` state its properties |
| Server.Handled | server.js:114-232 | the handler for a given answer function; `Server.RateLimitFirst`, `Server.RefusedLeaveHistory`, `Server.AnsweredEndsWithExchange` and `Server.HandledKeepsGood` state its properties |
| Server.Serve | server.js:114-232 | the whole handler; `Server.NoKeyAnswersByRules` and `Server.KeyAnswersByRetryLoop` state its answers, and `Server.ChatServer.Handle` is proved to compute it |
| Server.ModelAnswer | server.js:148-232 | an admitted, valid message gets a 200 or a 500, never a 400 or a 429 |
| Server.RateLimitFirst | server.js:116-124 | every request writes its client's record first, and no other client's record changes. The answer is 429 exactly when the record is over quota, and 400 exactly when the record is within quota but the message is not a non-empty string; otherwise the request gets its answer |
| Server.RefusedLeaveHistory | server.js:116-124 | 429 and 400 leave the conversation unchanged |
| Server.WithUserTurnEnds | server.js:143-145 | after the push and trim, the user turn is last and the store is within its bound |
| Server.WithUserTurnCapped | server.js:126-145 | the merge, the push and the trim keep every stored text within the cap |
| Server.WithAnswerEnds | server.js:148-232 | a 200 appends exactly one model turn, directly after the user turn, and keeps the store within its bound; a 500 stores nothing more |
| Server.WithAnswerCapped | server.js:206-208 | storing the answer keeps every text within the cap |
| Server.AnsweredEndsWithExchange | server.js:143-232 | for an admitted, valid request, a 200 leaves the user turn followed by the model turn holding the reply; otherwise the user turn is last. The store stays within its bound |
| Server.HandledKeepsGood | server.js:114-238 | every request keeps the store within its bound and every stored text within the cap |
| Server.NoKeyAnswersByRules | server.js:114-153 | without a key the upstream is never consulted: any two sets of upstream outcomes give the same answer and the same new state. An admitted, valid request always gets a 200 with the rule-based reply, provider "fallback" and no error |
| Server.KeyAnswersByRetryLoop | server.js:165-232 | with a key, an admitted valid request is answered by the attempt that ends the loop: its reply text with provider "gemini", a 500 exactly when that attempt is an unusable response, and after a thrown error (on the last attempt only) the rule-based reply carrying that error |
| Server.ServerErrorFromRetryLoop | server.js:178-204 | the answer is a 500 exactly when the attempt that ends the loop is an HTTP error or a response without reply text. An HTTP error answers with its own message and is not retryable unless it came on the last attempt; a missing reply answers "No reply from Gemini" and comes only on the last attempt |
| Server.GeminiExactlyOnSuccess | server.js:195-209 | a 200 says "gemini" exactly when the attempt that ends the loop is an ok response with reply text, and it then answers that text with no error |
| Server.FallbackOnlyAfterLastThrow | server.js:211-232 | the fallback reply is given only after an exception on the last attempt, and carries that exception as its error |
| Server.NormalizeClientHistory | server.js:128-132 | the loop computes the normalized list: kept entries in order, dropped ones left out |
| Server.ChatServer.constructor | server.js:20-30 | start-up: an empty store and rate map, the turn bound from `MAX_HISTORY`, the key flag |
| Server.ChatServer.TrimServerHistory | server.js:44-48 | the store becomes its trimmed form; the rate map is unchanged |
| Server.ChatServer.CheckRateLimit | server.js:61-71 | the client's record is replaced by its next record, and only that record changes; the result says whether it is within quota; the store is unchanged |
| Server.ChatServer.MergeNormalized | server.js:133-140 | the push loop computes the merge of the normalized turns into the store |
| Server.ChatServer.StoreUserTurn | server.js:127-145 | the store becomes the merged history plus the capped user turn, trimmed |
| Server.ChatServer.StoreModelTurn | server.js:206-208 | the store becomes the old store plus the model turn, trimmed |
| Server.ChatServer.Reply | server.js:148-232 | the reply branch computes the pure answer for the message and the outcomes |
| Server.ChatServer.Handle | server.js:114-238 | the handler's response and new state are those of the pure `Serve`, and the state invariant is kept |
| Client.EscapeHtml | public/script.js:84-87 | escaping never shortens the text |
| Client.EscapeHtmlAppend | public/script.js:86 | escaping works character by character, in order: it distributes over concatenation |
| Client.EscapeHtmlOfPlain | public/script.js:86 | text without any of the five special characters is unchanged |
| Client.UnescapeEscapeHtml | public/script.js:84-87 | decoding the entities recovers the original text exactly, for every string |
| Client.DecodableIsSafe | public/script.js:86 | text the decoder accepts has no raw `< > " '`, and every `&` in it begins an entity |
| Client.EscapeHtmlIsSafe | public/script.js:86 | escaped text has no raw `< > " '`, and every `&` in it begins one of the five entities |
| Client.SavedProperties | public/script.js:99-103 | after saving there are at most 500 entries and the new entry is last; the rest is the most recent part of the old buffer, in order; nothing is dropped while there is room |
| Client.Saved | public/script.js:99-103 | the buffer after `saveLocal`; `Client.SavedProperties` states its properties |
| Client.LocalLog.constructor | public/script.js:82 | a browser with nothing stored starts with an empty log |
| Client.LocalLog.SaveLocal | public/script.js:99-103 | the buffer becomes the old buffer plus the entry, cut to its last 500 |
| Client.BuildHistoryForServer | public/script.js:123-129 | the sent history has `min(60, length)` entries |
| Client.SentHistoryCorresponds | public/script.js:123-129 | entry i of the sent history comes from the matching entry of the last 60 local ones: its role is "user" exactly when that entry's author is the user, "assistant" otherwise, and its content is that entry's text |
| Client.SentHistoryEndsWithMessage | public/script.js:242-256 | the history sent with a message ends with that message as a user entry |
| Client.SubmittedText | public/script.js:279-284 | input that is blank after trimming is not sent; otherwise the non-empty trimmed text is sent |
| Client.SubmittedIsTrimmed | public/script.js:279-284 | the sent text has no whitespace at either end, so trimming it again changes nothing |
| Client.LocalLog.PrepareRequest | public/script.js:240-256 | the message is saved before the history is built, so the history is built from the buffer that already holds it |
| Relay.ToClientItems | public/script.js:256 | the server receives one `{ role, content }` object per sent entry, in order |
| Relay.SubmittedEntryNormalizes | server.js:89-108 | the browser's entry for a submitted message normalizes to exactly the user turn the server pushes for it |
| Relay.NormalizeAllLast | server.js:128-132 | a kept last entry is the last normalized turn |
| Relay.PushedTwice | server.js:143-145 | pushing a turn onto a store that already ends with it leaves it twice at the end, whatever the trim |
| Relay.TwiceAfterAnswer | server.js:148-232 | storing the answer keeps the doubled turn: just before the reply turn on a 200, and as the last two turns otherwise |
| Relay.MergedThenStoredTwice | server.js:127-145 | merging a list that ends with a turn, pushing that turn and storing any answer leaves the turn twice in a row |
| Relay.SentHistoryEndsWithUserTurn | public/script.js:240-256 | the history sent with a submitted message normalizes to a list that ends with the message's own user turn |
| Relay.EchoStoredTwice | server.js:127-145 | an incoming history that ends with the message's user turn leaves that turn doubled once the message and its answer are stored |
| Relay.EchoedTurnStoredTwice | server.js:114-238 | an admitted message whose client history already ends with its own user turn is stored twice in a row |
| Relay.SubmittedMessageStoredTwice | public/script.js:240-256 | every submitted message that the server admits is stored twice in a row, whatever the answer: just before the reply turn on a 200, and as the last two turns otherwise |

## Left out

- Express setup, CORS, static files, `/ping` and `app.listen` (server.js:4-14, 112, 241-249): these are framework wiring. The key check and `MAX_HISTORY` are parameters; the other configuration reads are not modelled.
- `getClientIp` (server.js:57-59): a request carries its client key directly.
- `Date.now()`: each request carries its time as `now`.
- `fetchWithTimeout`, `wait` and the timers (server.js:73-86): one abstract outcome stands for each attempt, a timeout is a thrown error with the abort flag set, and the waits are recorded as values rather than slept.
- The upstream request body, URL and JSON parsing. The error message an HTTP error carries (server.js:180) is part of its abstract outcome, and neither the `raw` body (kept in the last error and in both 500s) nor the `provider: "gemini"` field of the 500s at server.js:191 and server.js:202 is modelled: `InternalError` carries only the message.
- Logging (`console.*`).
- Concurrency: the source can interleave requests at each `await` on the shared store and rate map. The model handles one request at a time, atomically.
- Normalize.NormalizeClientItem: history entries whose conversion to a string throws are not modelled. Two inputs do this. A truthy `role` or `who` whose `toString` is not callable, such as `{"role": {"toString": 0}, "content": "x"}`, throws at server.js:91. An entry without a string text whose `String(item)` throws, such as `{"toString": 0}`, throws at server.js:103. The source then reaches the outer `catch` (server.js:234-237) and answers 500, after the rate record is written and before anything is pushed. In the model every JSON value has a string form, so such an entry is normalized and stored instead.
- The outer `catch` (server.js:234-237) is not modelled: apart from the entries listed above, no modelled step throws. `InternalError` stands only for the 500s returned at server.js:191 and server.js:202.
- Server.ChatServer.Handle: it stores the answer's text through `safeText` in one place for all 200s. The source pushes the rule-based replies unchanged, which is the same turn, because those replies are at most 200 characters (`Fallback.RuleBasedReply`, `Conversation.SafeText`).
- JsText.LowerCase: only `A`-`Z`, U+0130 and U+212A are lower-cased; every other character stays as it is. Lower-cased text is only compared with ASCII keywords and labels, or tested for blankness. No other character lower-cases to an ASCII letter or to whitespace, so those uses come out the same.
- Conversation.SafeText: lengths count Unicode scalar values, not UTF-16 code units, and only string arguments are modelled.
- Conversation.MaxTotalEntries: it takes `MAX_HISTORY` as a natural number, with 0 for unset or not a number. A negative, fractional or infinite setting is not modelled; with an infinite one (such as `1e400`) the source never trims the store.
- Request shape: `message` is modelled as a JSON value and `history` as present only when it is an array. A body that is not an object is treated like a body without these properties.
- Browser: the page animations, speech, PDF export, DOM rendering (`renderMessage`, `loadHistory`), `localStorage` persistence, the clear button, and the `fetch` in `sendMessage` with the handling of its response (public/script.js:28-76, 89-97, 105-118, 134-235, 259-277, 289-385). These are UI work and browser APIs.
- Client.EscapeHtml: modelled on strings only. Callers pass strings, for which `String(t)` changes nothing.
