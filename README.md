# Notifyy relay — a Dafny model of `server.js`

Notifyy relays notifications to Telegram users. A caller sends `GET` or `POST /out` with a title, a message, an optional URL (and, for POST, an optional code block) and one or more access tokens in `user`. The server builds one Markdown text. It sends that text to the chat of every token found in its in-memory directory `users`. The GET handler answers 204 when something was sent and 400 otherwise; the POST handler as written reads an undeclared global instead, so it throws or answers 204 (see Findings). The directory is filled at startup from stored rows (`loadUsers`). A chat that writes to the bot is registered: it is handed the first token whose stored username is strictly equal to its own, or a newly generated one. A chat without a username therefore receives the token of another chat without one (see Findings).

The model has four modules:

- `Wrappers` (`wrappers.dfy`): `Option` for values JavaScript may leave `undefined`, and `Result` for early error answers.
- `Compose` (`compose.dfy`): `formatString`, `buildMessage` (an imperative method), the code block's case-insensitive backslash-n replacement and its quote replacement, and the trailing URL. Each handler's text is also characterised as its parts joined by single newlines.
- `Recipients` (`recipients.dfy`): the directory as a class `Directory` with a `users` map field. `Register` models the Telegram `message` handler. `LoadRows` models the row loop of `loadUsers`, specified by the fold `Overlay`. `FindTokenAsWritten` models the `for…in` scan for an existing username as written, and `FindToken` the corrected scan that `Register` uses.
- `Relay` (`relay.dfy`): the `app.all('/out')` validator, the fan-out loop (`FanOut`, specified by `Deliveries` and the reference filter `KnownTokens`), the two handlers with the corrected POST status, and the POST handler as written (`HandlePostAsWritten`).

Outgoing Telegram messages are values of type `Send(chatId, text, markdown)` that the handlers return. They are not performed.

Three facts about `server.js` that the model keeps:

- There is no de-duplication and no rate limit: every known token is sent to, on every request (lines 168 and 200).
- `user`, `title`, `message` and `url` are read only from the query, and `code` only from the body.
- Line 186 replaces `"` by `"`, which changes nothing.

## Model

| member | source | states |
|---|---|---|
| `Compose.FormatString` | server.js:96-102 | the text comes back unchanged, because the `<`, `>` and `&` escapes are commented out |
| `Compose.BuildMessage` | server.js:104-134 | title only gives `*title*`; message only gives the message; both give `*title*` + newline + message; neither gives the empty text; and the result is always the present parts joined by single newlines, with no separator before the first |
| `Compose.UnescapeNewlines` | server.js:185 | the case-insensitive replacement of backslash-n and backslash-N by a newline never lengthens the code, and leaves code without such a sequence unchanged |
| `Compose.UnescapeLeavesNoEscape` | server.js:185 | after the global replacement no backslash is followed by `n` or `N` |
| `Compose.CapitalEscapeIsReplaced` | server.js:185 | the `i` flag makes backslash-N a newline too: `C:\New` becomes `C:`, a newline and `ew` |
| `Compose.UnescapeEscape` | server.js:185 | the replacement inverts writing each newline as backslash-n, for every text without a literal backslash-n or backslash-N |
| `Compose.EscapeUnescape` | server.js:185 | writing each newline back as backslash-n restores any code that had no raw newline and no backslash-N (escaping writes the lower-case form) |
| `Compose.ReplaceChar` | server.js:186 | a global one-character replacement keeps the length and changes exactly the matching positions |
| `Compose.QuoteReplacementIsIdentity` | server.js:186 | replacing `"` by `"` leaves every text unchanged |
| `Compose.CodeBlockContent` | server.js:184-188 | the code block is a fence line, the code with every backslash-n and backslash-N turned into a newline, then a closing fence; the quote replacement adds no change |
| `Compose.GetTextLines` | server.js:155-160 | with a title or message present, the GET text is the title, message and URL lines joined by single newlines, with the URL last |
| `Compose.PostTextLines` | server.js:182-192 | with a title or message present, the POST text is the title and message lines, then the code block, then the URL, joined by single newlines |
| `Compose.PostWithoutCodeIsGet` | server.js:184-192 | without a code block, POST sends the same text as GET |
| `Recipients.OverlayKeepsUnnamed` | server.js:78-83 | loading rows leaves every key that no row names exactly as it was, present or absent |
| `Recipients.OverlayLastRowWins` | server.js:78-83 | a token's entry after loading is the one from the last row naming it, so later rows overwrite earlier ones |
| `Recipients.OverlayKeys` | server.js:78-83 | the keys after loading are the old keys plus the tokens of the rows |
| `Recipients.FindTokenAsWritten` | server.js:248-253 | the scan as written returns the first key, in the order `for…in` visits them, whose stored username is strictly equal to the sender's, two absent usernames included, and returns none exactly when no entry's username equals the sender's |
| `Recipients.UnnamedSenderGetsForeignToken` | server.js:248-253 | run by chat 2 without a username against a directory holding the username-less entries of chats 1 and 3, in that order, the scan as written returns chat 1's token, and the corrected scan returns none |
| `Recipients.FindToken` | server.js:248-253 | the scan returns a token whose entry carries the sender's username, and returns none exactly when no entry does; a sender without a username is never matched |
| `Recipients.RegistrationIsIdempotent` | server.js:248-258 | once a sender with a username has been added, a later scan for that username finds a token, so no second token is issued |
| `Recipients.Directory.constructor` | server.js:13 | the directory starts empty |
| `Recipients.Directory.Register` | server.js:242-263 | with a matching entry: replies "Welcome back" with that token, stores nothing and leaves `users` unchanged; without one: sets `users[newToken]` to the sender's chat id and username, leaves every other key unchanged (no freshness check, so a colliding token is overwritten), hands that row to `storeUser` and replies "Congrats" with the new token |
| `Recipients.Directory.LoadRows` | server.js:78-83 | `users` becomes the old directory overwritten by rows 0 to `total_rows - 1` in order; when `total_rows` exceeds the rows present, the missing row throws after all present rows are applied |
| `Relay.Validate` | server.js:136-152 | 400 exactly when title and message are both absent or empty, or `user` is absent or the empty string; otherwise a string `user` becomes the one-element list and a list is kept as is |
| `Relay.KnownTokens` | server.js:162-171 | the kept tokens are directory keys taken from the list, never more than listed |
| `Relay.Deliveries` | server.js:162-171 | at most one send per listed token, each carrying the composed text in Markdown mode |
| `Relay.DeliveriesFollowKnownTokens` | server.js:162-171 | the i-th send goes to the chat of the i-th known token in list order, with the same text for every recipient |
| `Relay.KnownTokensOccurrences` | server.js:162-171 | each known token is sent to as often as it is listed, and unknown tokens are skipped |
| `Relay.KnownTokensAppend` | server.js:162-171 | the filter splits over concatenation, so repeated tokens are not deduplicated |
| `Relay.RepeatedTokenSentTwice` | server.js:162-171 | a known token listed twice receives two identical sends |
| `Relay.NoDeliveriesIffNoneKnown` | server.js:162-178 | nothing is sent exactly when no listed token is a directory key |
| `Relay.FanOut` | server.js:162-171 | the loop's sends are exactly `Deliveries`, and `messageSent` holds exactly when some listed token is known |
| `Relay.Status` | server.js:173-178 | 204 exactly when something was sent, 400 exactly when nothing was |
| `Relay.HandleGet` | server.js:154-179 | invalid requests answer 400 and send nothing; valid ones send the GET text to every known token in order; the answer is 204 exactly when the request is valid and some listed token is known, otherwise 400 |
| `Relay.ComposePost` | server.js:181-192 | the POST text is the message, then the code block when `code` is non-empty, then the URL when non-empty |
| `Relay.HandlePost` | server.js:181-211 | invalid requests answer 400 and send nothing; valid ones send the POST text (with code block) to every known token in order; the answer is 204 exactly when some listed token is known (the corrected rule, see Findings) |
| `Relay.PostReplyAsWritten` | server.js:199-210 | as written, the POST handler never answers 400 after validation: it throws when the undeclared global was never set, and answers 204 once any POST has set it |
| `Relay.HandlePostAsWritten` | server.js:181-211 | a refused request answers 400, sends nothing and leaves the global as it was; a valid one sends the POST text to every known token in order, never answers 400, throws exactly when no token is known and no earlier POST created the global, and leaves the global defined exactly when it was or a token was known |
| `Relay.PostStatusCounterexample` | server.js:199-210 | concrete requests against a directory with one token: a POST to an unknown token throws on a fresh process; after a POST to the known token, the same unknown-token POST answers 204 with nothing sent, while GET answers it with 400 |

## Findings

| source | as written | input that shows it | evidently intended | confidence | as-written member | corrected member |
|---|---|---|---|---|---|---|
| server.js:194-210 | the POST handler never declares `messageSent`; its loop assigns `true` to a process-wide global and its final test reads that global | a POST whose tokens are all unknown: on a fresh process the read throws a ReferenceError; after any earlier POST that reached a known token it answers 204 though nothing was sent | 204 exactly when some listed token is known, otherwise 400, as the GET handler does with its local `let messageSent = false` | high, not executed | `Relay.PostStatusCounterexample` | `Relay.HandlePost` |
| server.js:248-253 | an existing entry is found by `===` on usernames; Telegram leaves `username` undefined for chats without one, and `undefined === undefined` holds | chat 2 without a username writes to the bot while the directory holds chat 1's entry, also without a username: chat 2 is sent chat 1's access token | a sender is only handed a token stored under its own username; a sender without a username is registered anew | medium, not executed | `Recipients.FindTokenAsWritten` | `Recipients.FindToken` |

## Left out

- HTTP routing and Express (`app.use`, `app.all`, `app.get`, `app.post`, `listen`) are left out: each handler is a method from query values to a status and a list of sends.
- The Telegram client (construction, polling, `sendMessage`) is left out: a send is a `Send` value returned to the caller and is never performed.
- The HTTPS request of `storeUser` is left out: `Register` returns the stored record as a `Row` and does not write it.
- The request, chunk accumulation and `JSON.parse` of `loadUsers` are left out: `LoadRows` takes the parsed rows and `total_rows`.
- `randomstring.generate()` is nondeterministic, so `Register` takes the new token as a parameter.
- The startup checks of the environment (token length under 45, missing database credentials, `process.exit`) are configuration glue and are left out.
- Logging is left out, including the `console.err` call, which is not a function.
- Query values that JavaScript turns into arrays or objects (a repeated `title`, say) are left out: title, message, URL and code are optional strings, and `user` is a string or a list of strings.
- Property lookup on inherited names is left out: `users[token]` for a token such as `constructor` finds a member of `Object.prototype` and counts as known in JavaScript, whereas the model treats `users` as a plain map.
- What follows the `TypeError` in `loadUsers` is left out: the process stops on the uncaught exception, and the model only reports `completed == false` with the rows applied so far.
- Express's error response to the `ReferenceError` of the POST handler is left out: `PostReplyAsWritten` stops at the throw.
- The interleaving of the asynchronous `loadUsers` completion with registrations is left out: each operation runs to completion.
- Recipients.FindTokenAsWritten: the order in which `for…in` visits the keys (integer-like keys ascending, then insertion order) is a parameter `keys`; the model does not derive it from the history of `users`.
- Recipients.FindToken: when several entries match, JavaScript returns the first in its key order; the model returns some matching token and does not fix which.
- Recipients.Directory.Register: uses the corrected match of `FindToken`, so a sender without a username is always registered anew (see Findings).
- Relay.HandlePost: states the corrected status rule, not the one the code as written produces (see Findings; `PostReplyAsWritten` models the latter).
