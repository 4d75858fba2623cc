# PreventiveMedBot `/chat` reply cleaning, in Dafny

PreventiveMedBot is an Express server. It forwards a user's message to an
OpenAI chat-completion endpoint and returns the completion to a browser client.
This project models the two parts of `server.js` that hold logic:

- `cleanAIResponse`, the transform applied to every completion before it is
  returned. A falsy input becomes a fixed apology. Otherwise the transform
  deletes the code-fence markers `` ```json `` and `` ``` ``, then every `{`, `}`
  and `"`. It then collapses each whitespace run into one space and trims the
  result (module `CleanResponse`, file `clean_response.dfy`).
- The decision rule of the `POST /chat` handler, which picks the reply's status
  and JSON body. It uses the request's `message` and the result of the
  completion call. That result is an input to the model, because the call
  itself is not modelled (module `ChatRoute`, file `chat_route.dfy`).

Both are pure, so the model is made of datatypes, functions and lemmas. The
JavaScript semantics the transform relies on are in module `JsText`
(`js_text.dfy`):

- the `\s` class, written out as the ECMAScript WhiteSpace and LineTerminator
  code points, which are also the characters `trim()` strips;
- `trim`;
- the truthiness of an optional string and `text || fallback`.

The same module defines two reference notions: the words of a text (its
maximal stretches without whitespace) and the joining of words with single
spaces. The central theorem, `CleanResponse.CleanIsJoinedWords`, states what
the transform computes for a truthy input. The result is the words of the input
after the fence pass and the brace pass, joined by single spaces. The shape
properties follow from that theorem: no brace or quote, no whitespace at either
end, and only single ASCII spaces.

Two facts about the `POST /chat` handler shape the model of its decision rule:

- The handler rejects a message only when it is falsy. It does not trim, so a
  whitespace-only message is forwarded to the completion endpoint.
- Every upstream failure, whether a non-OK status or a thrown error, is
  answered with status 500.

## Model

| member | source | states |
|---|---|---|
| `JsText.Falsy` | server.js:20 | `!text` on an optional string: only an absent or null value and "" are falsy; every non-empty string, whitespace-only included, is truthy |
| `JsText.IsSpace` | server.js:24 | the `\s` class contains the ASCII space, tab, line feed and carriage return, no letter or digit, no brace, double quote or backtick, and only characters of the Basic Multilingual Plane |
| `JsText.Or` | server.js:64 | the JavaScript or-operator on an optional string gives the fallback exactly when the value is absent, null or "", and otherwise the value itself, which is then non-empty |
| `JsText.TrimStart` | server.js:25 | the result is a suffix of the input, everything removed is whitespace, and it does not start with whitespace |
| `JsText.TrimEnd` | server.js:25 | the result is a prefix of the input, everything removed is whitespace, and it does not end with whitespace |
| `JsText.Trim` | server.js:25 | `trim()` never lengthens its input and leaves no whitespace at either end |
| `CleanResponse.StripFences` | server.js:22 | the fence pass (one left-to-right scan, `` ```json `` tried before `` ``` ``) never lengthens the text and every character of its result occurs in the input |
| `CleanResponse.StripFencesOnlyDeletes` | server.js:22 | the fence pass only deletes: its result is a subsequence of its input |
| `CleanResponse.StripFencesCopiesHead` | server.js:22 | a first character that is not a backtick is copied, and the rest of the text is scanned on |
| `CleanResponse.StripFencesLeavesNoFence` | server.js:22 | no three consecutive backticks are left in the result, so no fence survives the pass, whatever the input |
| `CleanResponse.StripFencesKeepsFenceFree` | server.js:22 | text holding no three consecutive backticks passes the fence pass unchanged, so inline code such as `` `x` `` keeps its backticks |
| `CleanResponse.StripFencesFixedPoints` | server.js:22 | the fence pass leaves a text unchanged exactly when the text holds no fence |
| `CleanResponse.StripFencesDeletesFirstMatch` | server.js:22 | after a fence-free prefix, a match is deleted whole and the scan resumes right after it: `` ```json `` is always the match where it occurs, and `` ``` `` is one when not followed by "json"; with the fixed-point lemma this fixes the pass on every input |
| `CleanResponse.StripFencesCopiesFenceFreePrefix` | server.js:22 | text before the first fence is copied unchanged: a fence-free prefix that does not end in a backtick is kept, and the scan goes on after it |
| `CleanResponse.StripFencesKeepsOthers` | server.js:22 | every character other than a backtick or a letter of "json" occurs in the result exactly as often as in the input |
| `CleanResponse.DropBracesAndQuotes` | server.js:23 | the brace pass leaves no `{`, `}` or `"`, never lengthens the text and every character of its result occurs in the input |
| `CleanResponse.DropBracesAndQuotesOnlyDeletes` | server.js:23 | the brace pass only deletes: its result is a subsequence of its input |
| `CleanResponse.DropBracesAndQuotesKeepsOthers` | server.js:23 | every character other than a brace or a double quote occurs in the result exactly as often as in the input |
| `CleanResponse.DropBracesAndQuotesAppend` | server.js:23 | the brace pass distributes over concatenation, so it keeps the order of what it does not delete |
| `CleanResponse.CollapseSpaces` | server.js:24 | replacing each whitespace run by one space never lengthens the text |
| `CleanResponse.CleanAIResponse` | server.js:19-26 | a falsy input (absent, null or "") gives exactly the apology; a truthy input gives a result no longer than the input |
| `CleanResponse.NormalizeIsJoinWords` | server.js:24-25 | collapsing whitespace runs and then trimming gives exactly the words of the text joined by single spaces |
| `CleanResponse.CleanIsJoinedWords` | server.js:19-26 | for a truthy input the reply is the words of the fence-free, brace-free text joined by single spaces |
| `CleanResponse.CleanHasNoBraceOrQuote` | server.js:21-25 | for a truthy input the result contains no `{`, `}` or `"` |
| `CleanResponse.CleanIsSingleSpaced` | server.js:24-25 | for a truthy input the result has no leading or trailing whitespace, every whitespace character is an ASCII space, and no two are adjacent |
| `CleanResponse.ApologyIsClean` | server.js:20 | the apology has the same shape as any cleaned text: no brace or quote, single spaces, trimmed |
| `CleanResponse.StripFencesOfMarkup` | server.js:22 | on text made only of fences, braces, quotes and whitespace, the fence pass leaves only braces, quotes and whitespace |
| `CleanResponse.CleanOfMarkupIsEmpty` | server.js:20-25 | a non-empty input made only of fences, braces, quotes and whitespace cleans to "", not to the apology, because the falsy test runs before cleaning |
| `CleanResponse.StripFencesWithoutBacktick` | server.js:22 | text without a backtick passes the fence pass unchanged |
| `CleanResponse.DropBracesAndQuotesIdentity` | server.js:23 | text without braces or quotes passes the brace pass unchanged |
| `CleanResponse.CleanKeepsCleanText` | server.js:21-25 | a non-empty, single-spaced text without fences, braces or quotes is returned unchanged |
| `CleanResponse.CleanKeepsPlainText` | server.js:21-25 | a non-empty input with no backtick, brace, quote or whitespace is returned unchanged, so a bare "json" survives |
| `CleanResponse.CleanIdempotent` | server.js:21-25 | cleaning a truthy result again returns it unchanged when it is non-empty and holds no fence |
| `CleanResponse.CleanDropsJsonFence` | server.js:22 | `` ```json `` followed by plain text loses both the fence and the word "json" |
| `CleanResponse.CleanFenceIsCaseSensitive` | server.js:22 | the fence match is case-sensitive: `` ```JSON `` followed by plain text loses only the backticks |
| `CleanResponse.FenceSplitByBraceSurvives` | server.js:22-23 | the fence pass runs before the brace pass, so a fence split by a brace survives: `` `{`` `` cleans to `` ``` `` |
| `CleanResponse.BareFenceCleansToEmpty` | server.js:20-22 | a bare `` ``` `` is truthy and cleans to "" |
| `CleanResponse.CleanNotAlwaysIdempotent` | server.js:21-25 | cleaning is not idempotent on every input: cleaning the result for `` `{`` `` a second time changes it |
| `ChatRoute.Truthy` | server.js:32 | `!userMessage` on a JSON value: undefined and null are falsy, objects and arrays are truthy, a boolean is its own truth value, a number is truthy exactly when non-zero, and a string exactly when `JsText.Falsy` says it is truthy |
| `ChatRoute.Receive` | server.js:30-57 | a falsy message is answered 400 "No message provided." without building a request; a truthy one becomes the fixed system instruction followed by the message unchanged |
| `ChatRoute.Complete` | server.js:61-77 | the status is 200, with a `reply` body, exactly when the call succeeded; otherwise 500 with the fixed error text and details |
| `ChatRoute.HandleChat` | server.js:29-78 | the handler answers 400 with "No message provided." exactly for a falsy message, and its body kind always matches its status: a `reply` with 200, an error with details with 500 |
| `ChatRoute.HandleChatStatus` | server.js:30-77 | the status is always 200, 400 or 500: 400 exactly for a falsy message, 200 exactly for a truthy message and a successful call, and 500 exactly for a truthy message and a failed call |
| `ChatRoute.FalsyMessageNeverForwarded` | server.js:30-34 | a falsy message gets the same 400 reply whatever the completion call would return, so the call plays no part |
| `ChatRoute.WhitespaceMessageForwarded` | server.js:30-34 | a whitespace-only message is truthy and is forwarded unchanged, not rejected |
| `ChatRoute.UpstreamFailureDetails` | server.js:63-76 | a non-OK call gives 500 with the upstream's error message as details, or "Failed to fetch from OpenAI API" when it has none; a thrown error gives its own message as details |
| `ChatRoute.MissingContentGivesApology` | server.js:67-70 | a successful call without content is answered 200 with the apology, because "" is passed to the cleaning |
| `ChatRoute.ReplyIsCleanedContent` | server.js:67-70 | a successful call with content replies with the content's words, with fences, braces and quotes removed and single spaces between words, never longer than the content |
| `ChatRoute.EveryReplyIsClean` | server.js:19-26 | every 200 reply, the apology included, has no brace or quote and is single-spaced |

## Left out

- The browser client, `public/js/app.js`: DOM updates and its own `fetch` calls.
- Express setup, middleware, static file serving, the `GET /` route and
  `app.listen` (server.js:2-13, 80-87): framework wiring.
- The HTTP request to the completion endpoint and the parsing of its JSON body
  (server.js:37-61). Their outcome is the `Upstream` input: success with
  optional content, a non-OK status with an optional error message, or a
  thrown exception with its message. The model identifier and the API key sent
  with the request are configuration and are not modelled.
- Environment loading with dotenv and the `console.error` logging: no logic.
- Asynchronous control flow: each request is a single sequential decision.
- Strings are sequences of Unicode scalar values, not UTF-16 code units. Lone
  surrogates cannot be represented. Lengths count characters, not code units.
  No whitespace or deleted character lies outside the Basic Multilingual
  Plane, so the transform is otherwise the same.
- A `content` that is neither a string nor falsy would make `replace` throw,
  and the handler would answer 500. The model types content as an optional
  string.
- A request without a parsed JSON body (`req.body` undefined) is not modelled.
  The model starts from the value of `req.body.message`, with JSON numbers as
  reals: only their truthiness matters.
