# Local chat server with accounts — a Dafny model

The system is a small Flask chat front end for a locally running Ollama model
server. A visitor is either anonymous or logged in.

- **Conversation store.** SQLite tables `users`, `conversations` and
  `messages`, managed by `DatabaseManager`.
- **Credential store.** Tables `users_auth` and `user_profiles`, managed by
  `AuthManager`. Passwords are checked with bcrypt, or with a legacy SHA-256
  hex digest that is migrated to bcrypt on the first successful login.
- **The `chat` route.** Rate-limits the client, validates the message, picks a
  conversation and stores the user's message.
- **The `index` route.** Either asks the model for a reply and stores it (the
  generate path), or shows a conversation (the display path).

This project models that core in Dafny:

- **The tables** are sequences of rows in insertion order. Each row carries its
  AUTOINCREMENT id.
- **The managers** are classes whose methods reassign those sequences.
- **Session and rate limiter.** The session's `user_id` entry is an object
  field, and the rate limiter's `request_times` dictionary is a `map` field.
- **Validators, the stream fold, the prompt and the escape chain** are
  functions, with lemmas about them.

Modules, one per file:

| file | module | models |
|---|---|---|
| `wrappers.dfy` | `Wrappers` | `Option` |
| `text.dfy` | `Text` | `str.strip`, `str.replace`, `str(n)`, `int(s)` |
| `validation.dfy` | `Validation` | `validate_input`, `validate_model`, `validate_conversation_id` |
| `ratelimit.dfy` | `RateLimit` | `check_rate_limit` |
| `ordering.dfy` | `Ordering` | `ORDER BY … DESC`, `LIMIT`, `reversed` |
| `chatstore.dfy` | `ChatStore` | `DatabaseManager` |
| `inference.dfy` | `Inference` | the stream fold and error texts of `generate_response`, the prompt of `index` |
| `markup.dfy` | `Markup` | the `& < >` escape chain of `format_code_blocks` |
| `sessions.dfy` | `Sessions` | the session's `user_id` entry |
| `auth.dfy` | `Auth` | `AuthManager`, `get_current_user` |
| `server.dfy` | `Server` | `get_user_id`, `chat`, `index` |

Conventions used throughout:

- **Clock and process id.** Every writing operation takes the clock as a
  parameter `now`; it stands for `CURRENT_TIMESTAMP`, `datetime('now')` and
  `int(time.time())`. One reading serves a whole request: in `chat` and
  `index` the same `now` is the rate limiter's time, the second in the
  anonymous id and in a new `chat_` id, and every timestamp the request
  writes, although the code reads the clock afresh for each. No modelled
  property depends on the readings differing. The process id is a parameter `pid`.
- **Row order.** Rows are ordered by their timestamp, with ties broken by row
  id, i.e. by insertion order.
- **Hashes are symbolic and collision-free.**
  - `BcryptBytes(salt, p)` is what `bcrypt.hashpw` returns.
  - `BcryptText(salt, p)` is that value decoded to text.
  - `LegacyHex(p)` is the SHA-256 hex digest.
  - The random salt is a parameter.
- **Collaborators are parameters.**
  - Backend availability is a boolean.
  - The backend reply is a function from prompt and model to a `Reply`.
  - The code-block formatter is a function.
  - A database error that matters to a caller is a boolean fault flag: `fails`
    on `create_conversation`, `migrationFails` on the migration inside login.

Behaviour of the code worth noting:

- **Duplicate check.** `register_user` refuses a username or email that
  exists in any row, active or not.
- **No credential check in `get_user_id`.** It accepts any `auth_user_…`
  session string without consulting the credential store.
- **Backend errors are persisted.** The generate path of `index` stores the
  backend's `Error: …` text as the assistant's message.

## Model

| member | source | states |
|---|---|---|
| Text.Strip | server.py:88 | `strip()` yields a middle slice of its input; everything cut on either side is whitespace and the result neither starts nor ends with whitespace |
| Text.RemoveChar | server.py:88 | `replace('\x00', '')` leaves no NUL, keeps every other character and changes nothing when there is no NUL |
| Text.RemoveCharCounts | server.py:88 | after `replace('\x00', '')` every character other than NUL occurs exactly as often as before, and NUL not at all |
| Text.RemoveCharConcat | server.py:88 | removing NULs from a concatenation removes them from each part |
| Text.RemoveAll | auth.py:307 | `replace('auth_user_', '')`: occurrences are removed left to right without overlapping; its properties are `Text.RemoveAllAbsent` and `Auth.StripAuthPrefix` |
| Text.ParseInt | auth.py:307 | `int()` of text: surrounding whitespace is ignored and the rest is parsed by `Text.ParseStripped` |
| Text.RemoveAllAbsent | auth.py:307 | `replace('auth_user_', '')` leaves a string without the prefix's first letter unchanged |
| Text.IntToString | server.py:553 | `str(n)` is a non-empty digit string, with a leading `-` for a negative `n` |
| Text.NatToString | server.py:561 | `str(n)` of a non-negative integer (the clock reading in an id) is a non-empty digit string that starts with `0` only for `n = 0`, which gives `"0"` |
| Text.StripStartsAtFirstNonSpace | server.py:88 | the slice `strip()` keeps begins at the first non-whitespace character, with only whitespace before and after it |
| Text.ParseStripped | auth.py:307 | `int()` of stripped text succeeds only when the text ends with a digit, and text without a leading `-` gives a non-negative value |
| Text.SignedRoundTrip | auth.py:307 | parsing `str(n)` yields `n` for every integer, negative ones included |
| Text.IntToStringRoundTrip | auth.py:307 | `int(str(n)) == n` for every integer |
| Validation.ValidateInput | server.py:82-106 | `validate_input` gives `None` exactly for empty input, for cleaned text over the limit and for cleaned text the denylist matches; otherwise it gives exactly the cleaned text, which then has no NUL, fits the limit and matches no pattern |
| Validation.ValidatedInputIsTrimmedSlice | server.py:88 | an accepted text is a whitespace-bounded slice of the input with its NULs removed |
| Validation.CleanIsTrimmedSlice | server.py:88 | `data.strip().replace('\x00', '')` is a slice of the input bounded by whitespace on both sides, with its NULs removed |
| Validation.Clean | server.py:88 | the cleaning step: whitespace stripped first, NULs removed after |
| Validation.Dangerous | server.py:95-104 | the four patterns, each searched anywhere in the text; its properties are the `…Refused` lemmas |
| Validation.ValidateModel | server.py:108-110 | a model name is allowed exactly when it is one of the three listed names |
| Validation.WhitespaceOnlyInput | server.py:84-92 | non-empty whitespace-only input is accepted as the empty string whenever the limit is not negative |
| Validation.NulShieldsSpace | server.py:88 | NULs are removed only after stripping: cleaning `"\0" + t` gives `t` itself, leading whitespace included, for any NUL-free `t` not ending in whitespace |
| Validation.ValidateInputKeepsShieldedSpace | server.py:82-106 | `"\0" + t` is accepted as `t`, leading whitespace kept, whenever `t` fits the limit and matches no pattern (so `"\0 hi"` yields `" hi"`) |
| Validation.NoMatchInShortText | server.py:95-104 | a text shorter than every pattern's shortest match and with no `o`/`O` matches none of the four patterns |
| Validation.CleanOfTrimmed | server.py:88 | stripped, NUL-free text is left unchanged by the cleaning step |
| Validation.RefusedWhenDangerous | server.py:102-104 | a cleaned text that any pattern matches is refused, whatever the limit |
| Validation.ClosingTagAfter | server.py:96 | `.*?</script>` matches whenever a closing tag follows without an intervening newline |
| Validation.ScriptElementRefused | server.py:96 | `<script>` + body + `</script>` is refused, whatever the limit, for every body without a newline or NUL |
| Validation.ScriptUrlRefused | server.py:97 | `javascript:` in any letter case, followed by any NUL-free text not ending in whitespace, is refused whatever the limit |
| Validation.HandlerAttribute | server.py:99 | `on\w+\s*=` matches `on`, a word, optional whitespace and `=` |
| Validation.EventHandlerAfter | server.py:99-104 | a handler attribute anywhere in the text is found, since the search tries every offset |
| Validation.EventHandlerRefused | server.py:99 | `<img on<word><whitespace>=<tail>` is refused for every word, whitespace run and NUL-free tail not ending in whitespace |
| Validation.DefaultModelIsAllowed | server.py:108-110 | `validate_model` is membership in the three allowed names, and the default model is one of them |
| Validation.IdRun | server.py:118 | the greedy `[a-zA-Z0-9_-]*` run stops at the first other character |
| Validation.ValidateConversationId | server.py:112-118 | an accepted id starts with an id character |
| Validation.ConversationIdAccepts | server.py:112-118 | an id is accepted iff it is a non-empty run of `[A-Za-z0-9_-]`, optionally followed by a single newline |
| Validation.PathLikeIdRefused | server.py:118 | `../etc` is refused |
| Validation.TrailingNewlineAccepted | server.py:118 | `abc\n` is accepted, because `$` matches before a final newline |
| Validation.GeneratedIdIsValid | server.py:826 | every `chat_<time>` id is a valid conversation id |
| RateLimit.Recent | server.py:53 | the purge keeps exactly the timestamps inside the window, each as many times as it occurred, and drops every other one |
| RateLimit.RecentConcat | server.py:53 | purging a concatenated history purges each part in turn |
| RateLimit.RecentIdempotent | server.py:53 | purging twice at the same moment removes nothing more |
| RateLimit.RecentAppend | server.py:53 | purging an extended history purges the old part and keeps a recent newcomer |
| RateLimit.RecentLater | server.py:50-53 | a purge at an earlier moment followed by one at a later moment equals one purge at the later moment |
| RateLimit.RateLimiter.constructor | server.py:44 | the table starts empty |
| RateLimit.RateLimiter.CheckRateLimit | server.py:47-61 | refuses iff at least `max_requests` recent requests remain; records `now` only when admitting; the client's list then holds at most `max_requests`; other clients' entries are untouched; the bound on every list is preserved |
| Ordering.Insert | server.py:253 | inserting into a newest-first sequence keeps it newest-first and adds exactly one element |
| Ordering.SortNewestFirst | server.py:280 | `ORDER BY … DESC` gives a newest-first permutation of its input |
| Ordering.Reverse | server.py:266 | `reversed` puts element `k` at position `n-1-k` |
| Ordering.Limit | server.py:254 | `LIMIT n` is the first `n` rows, or all of them when `n` is negative or large |
| Ordering.ReverseNewestFirst | server.py:266 | reversing a newest-first sequence gives an oldest-first one |
| Ordering.ReverseOfPrefix | server.py:254-266 | reversing the first `n` rows gives the last `n` rows of the reversed sequence |
| Ordering.SortOfAscending | server.py:253 | a strictly ascending sequence sorts to its own reverse |
| ChatStore.MessagesIn | server.py:252 | the messages of one conversation: exactly the rows with that id |
| ChatStore.DropMessagesOf | server.py:303 | deleting the messages of a set of ids keeps exactly the rows of other ids |
| ChatStore.RowsOwnedBy | server.py:279 | exactly the conversation rows of one owner |
| ChatStore.DropRowsOwnedBy | server.py:326 | deleting one owner's rows keeps exactly the rows of other owners |
| ChatStore.DropRowsWithId | server.py:305 | deleting by conversation id keeps exactly the rows with other ids |
| ChatStore.MessagesInConcat | server.py:252 | the filter keeps table order: the messages of a concatenation are those of each part, in turn |
| ChatStore.DropMessagesOfConcat | server.py:303 | the delete keeps table order: the survivors of a concatenation are those of each part, in turn |
| ChatStore.RowsOwnedByConcat | server.py:279 | the owner filter keeps table order across a concatenation |
| ChatStore.DropRowsOwnedByConcat | server.py:326 | the delete by owner keeps table order across a concatenation |
| ChatStore.DropRowsWithIdConcat | server.py:305 | the delete by conversation id keeps table order across a concatenation |
| ChatStore.ConversationIdsOf | server.py:318-319 | the ids read before the deletion loop are exactly the ids of the owner's rows |
| ChatStore.CountOwned | server.py:338-343 | the count is positive iff some row pairs the id with the owner |
| ChatStore.Touch | server.py:229-233 | `updated_at` changes on every row with the id and on no other row |
| ChatStore.TouchUser | server.py:188 | `last_active` changes on the user's row and on no other |
| ChatStore.NameFor | server.py:196 | a truthy username is used as given; otherwise `User_` plus the first eight characters of the id |
| ChatStore.History | server.py:243-266 | the full history of a conversation is an oldest-first permutation of its messages |
| ChatStore.MessagesInAscending | server.py:252 | filtering a strictly ascending table keeps it strictly ascending |
| ChatStore.HistoryInInsertionOrder | server.py:253 | when the clock never goes back, the history is the messages in insertion order |
| ChatStore.DropMessagesNone | server.py:322-323 | deleting the messages of no ids changes nothing |
| ChatStore.DropMessagesTwice | server.py:322-323 | two message deletions in a row equal one deletion of the union of their ids |
| ChatStore.DropRowsWithIdTwice | server.py:305 | deleting conversation rows by id twice equals deleting them once |
| ChatStore.NewestAreHistorySuffix | server.py:249-266 | the newest `limit` messages, reversed, are the last entries of the history, oldest first |
| ChatStore.NewestBelong | server.py:252 | every message returned belongs to the requested conversation |
| ChatStore.ClearStep | server.py:322-323 | one turn of the deletion loop extends the set of cleared ids by one |
| ChatStore.DeleteIdempotent | server.py:297-310 | deleting a conversation twice leaves the tables as deleting it once |
| ChatStore.DatabaseManager.constructor | server.py:127-168 | three empty tables satisfying the store invariant |
| ChatStore.DatabaseManager.GetOrCreateUser | server.py:177-203 | returns the given id; refreshes an existing user's `last_active`; otherwise appends one user under the fallback name; the other tables are untouched |
| ChatStore.DatabaseManager.CreateConversation | server.py:205-218 | appends exactly one row, with no uniqueness or owner check; on a database error it reports failure and writes nothing |
| ChatStore.DatabaseManager.AddMessage | server.py:220-241 | appends exactly one message and bumps `updated_at` on every conversation row with that id, whether or not one exists; users are untouched |
| ChatStore.DatabaseManager.GetConversationMessages | server.py:243-269 | at most `limit` messages (all when `limit` is negative), all from the conversation, oldest first, forming a suffix of its full history |
| ChatStore.DatabaseManager.GetUserConversations | server.py:271-295 | exactly the user's rows, as a permutation, most recently updated first |
| ChatStore.DatabaseManager.ConversationBelongsToUser | server.py:333-346 | true iff some row pairs the id with the user |
| ChatStore.DatabaseManager.DeleteConversation | server.py:297-310 | removes every message and every row with the id, whoever owns them, and reports success even when nothing matched |
| ChatStore.DatabaseManager.ClearUserConversations | server.py:312-331 | removes the messages of every id the user owns, including another owner's messages under a shared id, then the user's rows; afterwards the user owns no rows and every other owner's row remains |
| Inference.CollectedStopsAtDone | server.py:414-415 | nothing after the first record marked done is read |
| Inference.CollectedConcat | server.py:408-413 | without a done record, two stretches of the stream contribute their texts in turn |
| Inference.Collected | server.py:408-415 | the text the stream loop accumulates: blank and undecodable lines are skipped, each object's `response` is appended, and reading stops after a record marked done |
| Inference.AccumulateStream | server.py:407-418 | the loop computes exactly the reference fold |
| Inference.ReplyText | server.py:405-429 | every reply other than a 200 yields a text starting with `Error: ` |
| Inference.GenerateResponse | server.py:379-429 | `generate_response` returns the stripped accumulated text for a 200 reply and the matching error text otherwise |
| Inference.ContextConcat | server.py:591 | joining two runs of turns puts one newline between their contexts |
| Inference.Context | server.py:591 | `"\n".join(f"{role}: {content}" ...)`: one `role: content` line per turn, separated by newlines |
| Inference.BuildPrompt | server.py:596 | the prompt is the context, `\n\nUser: `, the message and `\nAssistant:`, in that order |
| Markup.ReplaceCharConcat | server.py:492 | `replace` of one character distributes over concatenation |
| Markup.EscapeChainOfChar | server.py:492 | on one character the chain produces that character's entity |
| Markup.EscapeChainIsEachwise | server.py:492 | because `&` goes first, the chain equals escaping each character once |
| Markup.EscapeChain | server.py:492 | the escape chain of `format_code_blocks`: `&` first, then `<`, then `>` |
| Markup.EscapedHasNoBrackets | server.py:505 | the escaped code contains no `<` and no `>` |
| Markup.UnescapeEscape | server.py:492 | unescaping the chain's output gives back the code |
| Auth.HashPassword | auth.py:64-67 | `hash_password` returns bytes |
| Auth.DecodeHash | auth.py:124 | decoding a bcrypt hash yields its text form |
| Auth.DecodedHashVerifies | auth.py:64-82 | a stored decoded hash accepts exactly its own password under bcrypt and nothing under the legacy check |
| Auth.BytesHashNeverVerifies | auth.py:69-82 | an undecoded bytes hash is refused by both checks for every password |
| Auth.FindFirst | auth.py:205-213 | the row `fetchone` returns: the first row satisfying the condition, or a report that no row does |
| Auth.FindActiveByName | auth.py:152-157 | the login lookup finds an active row with the username, or reports that none exists |
| Auth.FindById | auth.py:262-266 | the lookup of `change_password` finds a row with the id, active or not, or reports none |
| Auth.FindActiveById | auth.py:205-213 | the lookup of `get_user_by_id` finds an active row with the id, or reports none |
| Auth.VerifyPassword | auth.py:69-74 | `bcrypt.checkpw` succeeds only for a stored text hash of the same password; stored bytes make `.encode` raise and the check fails |
| Auth.VerifyLegacy | auth.py:76-82 | the SHA-256 comparison succeeds only for the legacy hex digest of the same password |
| Auth.FirstProfile | auth.py:209 | the LEFT JOIN finds one of the user's profiles, or none exists |
| Auth.Coalesce | auth.py:240-242 | `COALESCE(?, column)` takes a supplied value and otherwise keeps the column |
| Auth.UpdateProfiles | auth.py:238-245 | every profile row of the user takes the supplied fields and the new `updated_at`; other rows are unchanged |
| Auth.PathFor | auth.py:163-189 | bcrypt is tried first; the legacy check only when bcrypt refuses |
| Auth.MigrationThenReplay | auth.py:84-100 | a legacy match is taken through the legacy branch; its migrated hash is then taken through the bcrypt branch; a bytes hash is refused |
| Auth.AuthManager.constructor | auth.py:25-56 | two empty tables satisfying the credential invariant |
| Auth.AuthManager.RegisterUser | auth.py:106-144 | refused with nothing written iff any row, active or not, has the username or the email; otherwise one credential (decoded bcrypt hash) and one profile named after the user are appended |
| Auth.AuthManager.LoginUser | auth.py:146-197 | succeeds iff an active row with the username exists and the password verifies under bcrypt, or under the legacy check with a successful migration. A bcrypt login changes only `last_login`; a legacy login also stores a fresh decoded bcrypt hash. Every failure returns `(False, None, None)` and writes nothing |
| Auth.AuthManager.GetUserById | auth.py:199-229 | a user is returned iff an active row has the id. Its id, username, email, `created_at` and `last_login` are those of the first such row. Its display name, avatar and preferences are those of the user's first profile, and all three are empty when there is no profile |
| Auth.AuthManager.UpdateUserProfile | auth.py:231-253 | reports `False` and writes nothing iff no argument is truthy; otherwise COALESCE-updates every profile row of the user and reports `True` even when none exists |
| Auth.AuthManager.ChangePassword | auth.py:255-285 | "User not found" when no row has the id (active or not); "Current password is incorrect" with nothing written when bcrypt refuses the old password; otherwise stores the undecoded new hash |
| Auth.AuthManager.ChangePasswordDecoded | auth.py:255-281 | the same checks, but the new hash is stored decoded |
| Auth.GetCurrentUser | auth.py:300-313 | no entry, or a value that is neither a string nor an integer, gives no user. An integer is looked up by id. A string starting with `auth_user_` fails with a `ValueError` exactly when the text left after removing every `auth_user_` does not parse as an integer, and is otherwise looked up by the parsed id. Another string gives no user |
| Auth.StripAuthPrefix | auth.py:307 | removing `auth_user_` from `auth_user_<n>` leaves the digits of `n` |
| Auth.NormalisedSessionResolvesAlike | auth.py:306-311 | the `auth_user_<n>` form and the integer `n` resolve to the same user |
| Auth.ChangePasswordLocksOut | auth.py:275-278 | after a successful change, neither the new nor the old password logs in, and a second change is refused |
| Auth.ChangePasswordDecodedKeepsLogin | auth.py:275-281 | with the corrected change, the new password logs in and the old one does not |
| Auth.LegacyLoginMigrates | auth.py:176-187 | a legacy user logs in, is migrated to bcrypt, and logs in again through the bcrypt branch with the hash left in place |
| Server.AnonymousId | server.py:561 | an anonymous id starts with `anon_user_` |
| Server.AnonymousIdIsNotAuthenticated | server.py:548 | an anonymous id never starts with `auth_user_` |
| Server.ResolvedUserId | server.py:542-566 | a logged-in string is kept; an integer becomes `auth_user_<n>`; anything else becomes a fresh anonymous id |
| Server.SessionAfter | server.py:546-558 | a logged-in string stays; an integer is rewritten to `auth_user_<n>`; anything else is removed |
| Server.SessionAfterIsSettled | server.py:546-558 | after one call the session is empty or holds a logged-in id, and a second call changes nothing and resolves the same id |
| Server.GetUserId | server.py:542-566 | returns the resolved id and leaves the session as `SessionAfter` says. Only the anonymous case writes `users`: it registers the fresh id, or refreshes it when present, without storing it in the session (`UsersAfterResolve`). Conversations and messages are untouched |
| Server.UsersAfterResolve | server.py:556-566 | the `users` table after `get_user_id`: unchanged for a logged-in id or an integer, otherwise the anonymous id registered or refreshed |
| Server.ModelOrDefault | server.py:814-815 | the model used is always allowed; an allowed request value is kept |
| Server.ConversationOrDefault | server.py:817-818 | the id used is the sentinel or a valid request value; a valid request value is kept |
| Server.NewConversationId | server.py:826 | a new conversation's id is valid and is not the sentinel |
| Server.ChatDecision | server.py:806-833 | an invalid or empty message redirects with the raw fields. An unreachable backend, and only that, redirects with the fallback conversation and model. Otherwise the validated message is posted with the fallback model to a valid conversation; a new one, named from the clock, exactly when the conversation field is absent, invalid or the sentinel |
| Server.TurnsOf | server.py:590 | each recent message contributes its role and content |
| Server.Chat | server.py:795-837 | a rate-limited request writes nothing else. Otherwise the outcome is `ChatDecision`, the session is settled, and `users` changes as `get_user_id` changes it. Only a posted message writes conversations and messages: first the new conversation owned by the resolved user, when the conversation field was absent, invalid or the sentinel and creation succeeded, then exactly one user message |
| Server.GenerateTurn | server.py:586-610 | the generate path stores exactly one assistant message, the formatted backend text (an error text included) for the prompt built from the two most recent messages, touches the conversation's rows and answers the redirect, with no ownership check |
| Server.DisplayPage | server.py:617-632 | a named conversation is shown iff the user owns it, otherwise a redirect to the default view; the sentinel shows the user's most recently updated conversation (which the user owns), or an empty page |
| Server.Index | server.py:569-633 | on both paths the session is settled and `users` changes as `get_user_id` changes it: unchanged for a logged-in or integer session, otherwise the fresh anonymous id is registered, or refreshed when present (`UsersAfterResolve`). A page carries the fallback model. Generate path: stores exactly one assistant message, the formatted backend text (an error text included) for a prompt built from the two most recent messages, with no ownership check. Display path: writes no conversation or message; a named conversation is shown iff the user owns it, otherwise it redirects to the default view; the sentinel shows the user's most recently updated conversation, or an empty page |
| Server.GeneratePath | server.py:583-586 | `index` generates exactly when `generate_response` is `1` and the user message validates to non-empty text |

## Left out

- The Ollama HTTP client is left out: the requests, `check_connection`, `get_available_models` and `stream_response`. The backend's availability and its reply are parameters of `chat` and `index`.
- Inference.Collected: a JSON line that decodes to something other than an object, a `response` value that is not a string, and bytes that are not UTF-8 (whose `UnicodeDecodeError` would escape `generate_response`) are not modelled; a line is blank, undecodable JSON, or an object.
- Inference.GenerateResponse: the system prompt and the sampling options sent with the request are not modelled; they do not affect the modelled control flow.
- The block and inline recognition of `format_code_blocks`, its HTML output and its fallback formatting are left out as presentation only; the formatter is a parameter of `Server.Index`, and only its `& < >` escape chain is modelled.
- Flask is left out: routing, templates, `flash`, the redirect URLs as strings, security headers, the secret key and `login_required`. Outcomes are datatypes naming the redirect or page.
- Routes other than `chat` and `index` are not modelled as handlers: login, register, logout, profile, the `/api` routes, `new_chat`, `clear_history` and `status`. They call the modelled store and auth operations directly.
- Server.Chat: the `except` branch (a server-error redirect) is not modelled, because no modelled step raises.
- Server.Index: the `except` around the generate path and the list of available models are not modelled.
- The thread lock of the rate limiter is left out; the limiter is modelled sequentially.
- RateLimit.RateLimiter.CheckRateLimit: integer time stands for `time.time()`'s floating-point seconds.
- SQLite is left out.
  - Exceptions are not modelled, apart from the two fault flags. This includes the `Registration failed`, `Failed to change password` and login-error paths of `AuthManager`.
  - The `title` column is never written by the core, so it is not modelled.
  - Timestamps are integers.
- ChatStore.DatabaseManager.GetConversationMessages: rows with equal timestamps are ordered by row id; SQLite leaves their order unspecified.
- Auth.AuthManager.GetUserById: with several profiles, the first in table order is the one joined; SQLite does not specify which row `fetchone` returns.
- Auth.HashPassword: bcrypt and SHA-256 are symbolic and collision-free. bcrypt's 72-byte truncation and `gensalt` randomness are not modelled; the salt is a parameter.
- Text.ParseInt: `int()` is modelled on ASCII digits with an optional sign and surrounding whitespace; underscores and non-ASCII digits are not accepted.
- Validation.Dangerous: `re.IGNORECASE` and `\w` are modelled on ASCII letters and digits only.
- Validation.ValidateInput: a non-string argument is not modelled; form and query fields are always strings.
- Server.GetUserId: a boolean session value is modelled as `OtherValue`. Python treats it as an `int`, so `get_user_id` would rewrite `True` to `auth_user_True`.
- Auth.GetCurrentUser: a boolean session value is modelled as `OtherValue` and gives no user. Python treats it as an `int`, so `True` would look up user 1.
- Server.ModelOrDefault: `DEFAULT_MODEL` is fixed to `phi3:latest`. The code reads it from the `DEFAULT_MODEL` environment variable (server.py:79); set to a name outside `ALLOWED_MODELS`, it makes `chat` (server.py:815) fall back to a model that is not allowed.
- Validation.DefaultModelIsAllowed: holds only for the built-in default `phi3:latest`; an environment-supplied `DEFAULT_MODEL` need not be allowed.
- The bootstrap script that downloads a model and the database maintenance command-line tool are not part of this model. They consist of network retries, file copies, exports and a cleanup that repeats `clear_user_conversations`.

## Findings

| source | as written | input that shows it | evidently intended | confidence | as-written member | corrected member |
|---|---|---|---|---|---|---|
| auth.py:275-278 | `change_password` stores the bytes returned by `hash_password` without `.decode('utf-8')`, unlike `register_user` (auth.py:124) and `migrate_password` (auth.py:96). `verify_password` then fails on `.encode` of the stored bytes and returns `False`, and the legacy comparison of text with bytes is `False`. | Register `alice` / `secret1`, call `change_password(1, "secret1", "secret2")`, then log in as `alice` with `secret2`: the login fails. Logging in with `secret1`, or calling `change_password` a second time, also fails. | Store the decoded hash, so that the new password logs in | not executed; high | Auth.ChangePasswordLocksOut | Auth.AuthManager.ChangePasswordDecoded |
