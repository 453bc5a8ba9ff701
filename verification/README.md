# sic — a Dafny model of the token-exfiltration server

`sic` ("Sequential Import Chaining") is a small HTTP server that leaks a secret
token from a page through CSS. A `/staging` request hands the victim a list of
`@import` lines. Each line points at a `/polling` URL for the session id and a
probe index. A poll is held open until the recovered token for that id is long
enough; it is then answered with one CSS fragment per character of the
charset. A fragment that matches makes the victim's browser fetch a `/callback`
URL. That callback stores the longer token and wakes every held poll.

This project models the pure logic of the single source file `src/main.rs`,
module by module:

- `Text`: Rust's `str::replace` (leftmost, non-overlapping matches; an empty
  pattern matches at every boundary) and the joining of fragments.
- `Numbers`: `u32`, the truncating `as u32` cast, and `String::len` as a UTF-8
  byte count. Also `u32::to_string` and `str::parse::<u32>` (optional `+`,
  digits only, must fit in 32 bits).
- `CssEscape`: `escape_for_css`. `EscapeChain` is the chain of 31 replace
  calls as written, a table of (pattern, replacement) rules applied in order.
  `Escape` is a per-character map that puts a backslash before each special
  character. `ApplyRulesEscapes` proves the chain equals the map: the
  backslash rule runs first, and no later rule matches a character an earlier
  rule inserted. `Unescape` decodes escapes as section 4.3.7 of CSS Syntax
  Module Level 3 describes (a backslash followed by a code point that is not a
  hex digit or a newline stands for that code point), and it inverts `Escape`.
- `Template`: `process_template`. `ProcessTemplate` is the loop; `Render` joins
  the per-character fragments in charset order.
- `StateMap`: the configuration, the token registry (`get_token`,
  `insert_or_update_token`) and the wait queue.
- `LongPoll`: `GeneratedCssFuture::poll` and the callback branch, as
  sequential steps. `Follow` describes a parked poller's life as callbacks
  arrive.
- `Routing`: `parse_query_params` (starting from decoded pairs) and
  `service_handler`.

The model follows the code on these points:

- The wait queue is never drained. A poll that is not ready pushes its task
  onto the queue (src/main.rs:140-141), and the callback only reads the queue
  to notify each task (src/main.rs:98-102); nothing ever pops it. So a task can
  be queued more than once and the queue only grows.
  `RepeatedParkDuplicates` and `RunQueueGrows` state this.
- A missing `len` on `/staging` does not give a 500 response. It reaches
  `unwrap()` and panics. Only a `len` that is present but does not parse
  gives the 500 response. Missing `id`, `len` or `token` on `/polling` and
  `/callback`, and an unparsable `len` on `/polling`, also panic. The model
  returns `Panicked(<parameter>)` for these cases instead of answering 400.
- The length compared in `poll` is the token's UTF-8 byte count, truncated to
  32 bits, not its character count. `PollAsciiToken` shows the two agree on
  ASCII tokens.

## Model

| member | source | states |
|---|---|---|
| Text.ReplaceAbsent | src/main.rs:269-272 | a replace whose non-empty pattern does not occur leaves the string unchanged |
| Numbers.AsU32 | src/main.rs:134 | the `as u32` cast keeps lengths below 2^32 and never increases a length |
| Numbers.Utf8LenBounds | src/main.rs:134 | `len()` counts between one and four bytes per character, and one per character exactly when the string is ASCII |
| Numbers.ParseU32 | src/main.rs:55 | `parse::<u32>` succeeds exactly when the input, after one optional `+`, is a non-empty run of ASCII digits whose value is below 2^32, and then gives that value; the empty string and a leading `-` are rejected |
| Numbers.ParseU32RejectsNonDigits | src/main.rs:55 | `parse::<u32>` rejects `1a` and `+-1` |
| Numbers.ParseU32Overflow | src/main.rs:55 | `parse::<u32>` accepts 4294967295 and rejects 4294967296 |
| Numbers.ParseU32LeadingZeros | src/main.rs:55 | `parse::<u32>` reads `007` as 7 |
| Numbers.DecimalRoundTrip | src/main.rs:73 | `to_string` of a `u32` parses back to the same value, with or without a leading `+` |
| CssEscape.EscapeChain | src/main.rs:298-330 | the 31-call replace chain equals the per-character escape map |
| CssEscape.ChainEscapesSpecials | src/main.rs:299-329 | rule i of the chain escapes the i-th special character, no character is escaped twice, and the backslash comes first |
| CssEscape.ApplyRulesEscapes | src/main.rs:298-330 | any chain that escapes characters one at a time, backslash first, acts as the per-character map |
| CssEscape.EscapeSingle | src/main.rs:299-329 | a special character becomes a backslash and the character; any other character is copied |
| CssEscape.EscapeAppend | src/main.rs:298-330 | escaping is character by character: it distributes over concatenation |
| CssEscape.EscapeLength | src/main.rs:298-330 | output length is input length plus the number of special characters |
| CssEscape.EscapeIdentity | src/main.rs:298-330 | the output equals the input exactly when the input has no special character |
| CssEscape.EscapeCountDoubles | src/main.rs:299 | every inserted backslash is itself special, so the output holds twice as many special characters |
| CssEscape.EscapeTwice | src/main.rs:299 | escaping twice changes the result exactly when the input holds a special character (not idempotent) |
| CssEscape.EscapeSpecialTwice | src/main.rs:299 | a special character escaped twice is three backslashes and the character |
| CssEscape.EscapeRoundTrip | src/main.rs:298-330 | decoding CSS escapes of the escaped string gives back the original string |
| Template.ProcessTemplate | src/main.rs:263-276 | the loop's result is the per-character fragments joined in charset order |
| Template.RenderAppend | src/main.rs:266-273 | one more charset character appends exactly the fragment for candidate `known + c` |
| Template.RenderEmptyCharset | src/main.rs:263-276 | an empty charset renders the empty string |
| Template.RenderWithoutMarkers | src/main.rs:263-276 | a template with neither marker is repeated once per charset character |
| Template.TokenMarkerFragment | src/main.rs:272 | the token marker is replaced by the escaped candidate |
| Template.CallbackMarkerFragment | src/main.rs:268-271 | the callback marker is replaced by the callback URL of the candidate |
| StateMap.GetToken | src/main.rs:168-170 | a token is returned exactly when one is stored for the id, and it is the stored token |
| StateMap.InsertOrUpdate | src/main.rs:172-174 | after an upsert the id reads back the new value (replacement, not append), other ids read as before, and the id set only gains this id |
| StateMap.InsertAllLastWins | src/main.rs:172-174 | after a run of upserts each id holds the value of its last upsert, or its earlier value if none named it |
| StateMap.NeverInserted | src/main.rs:168-170 | an id no upsert named reads as absent |
| LongPoll.Poll | src/main.rs:128-143 | Ready exactly when the token's byte length cast to u32 reaches `len` (always for `len` 0), with the registry and queue unchanged and the payload rendered from the current token; otherwise the task is appended to the back of the queue and nothing else changes |
| LongPoll.PollAsciiToken | src/main.rs:129-134 | for an ASCII token, Ready exactly when the token has at least `len` characters |
| LongPoll.PollUnknownId | src/main.rs:129-132 | an id with no token reads as the empty token: Ready only for `len` 0, with the payload for the empty prefix |
| LongPoll.Callback | src/main.rs:96-102 | the callback stores the token for its id, leaves other ids alone, keeps the queue and notifies every queued task in order (none when the queue is empty) |
| LongPoll.RunRegistry | src/main.rs:96 | over any run of requests the registry is the fold of the callbacks' upserts; polls never write it |
| LongPoll.RunQueueGrows | src/main.rs:140-142 | over any run of requests the old queue stays a prefix of the new one: no task is ever removed |
| LongPoll.RepeatedParkDuplicates | src/main.rs:140-142 | a task that polls twice without the token growing is queued twice |
| LongPoll.CallbackResolvesNewlySatisfied | src/main.rs:96-102 | a callback notifies every parked waiter, and a waiter's next poll is Ready exactly when the callback was for its id with a long enough token |
| LongPoll.FollowResolvesAtFirstSatisfying | src/main.rs:128-143 | a parked poller resolves right after the first callback that stores a long enough token for its id, and never if there is none |
| Routing.ParseQueryParams | src/main.rs:35-45 | a key is present exactly when some pair names it, and then its value is that of the last such pair |
| Routing.StagingPayload | src/main.rs:70-74 | the loop's payload is the `@import` lines for probe indices 0 to len-1 joined in order |
| Routing.Handle | src/main.rs:49-116 | any method or path other than GET on the three routes gives 404 with an empty body and no state change; only `/callback` writes the registry; no request shrinks the queue |
| Routing.StagingResponse | src/main.rs:53-77 | GET `/staging` with a parsable `len` answers 200 with exactly `len` lines, line i being `@import url(<polling URL for i>);` |
| Routing.StagingBadLength | src/main.rs:55-61 | GET `/staging` whose `len` does not parse answers 500 with `Missing <b>len</b> parameter on staging.` |
| Routing.MissingParameters | src/main.rs:53-94 | a missing `len` on staging, a missing `id` on polling or callback, a missing or unparsable `len` on polling, and a missing `token` on callback end in a panic naming that parameter |
| Routing.CallbackThenPoll | src/main.rs:91-106 | a callback storing a long enough token, then a poll on its id, answers at once with the payload rendered from that token, one fragment per charset character |

## Left out

- The hyper server, `service_fn`, the boxed futures and `main` (src/main.rs:177-261) are left out: they are I/O and runtime plumbing. This includes clap argument parsing, reading the template file, the `polling_host != callback_host` assertion and the two listeners.
- The locks (`Arc<RwLock<..>>`) and the futures executor are left out. The model is sequential: a task is an opaque number and a notification is the list of woken tasks. Interleavings, and so the check-then-park race, are not modelled.
- `craft_polling_url` and `craft_callback_url` are left out because they are built on the `url` crate. They are function-valued fields of `Config`; percent-encoding (section 5.2 of the WHATWG URL Standard) is not modelled.
- `parse_query_params` URL-parses the request URI and percent-decodes its query with the `url` crate. The model starts from the list of decoded pairs.
- The random session id (`rand::thread_rng`) is left out; it is the `freshId` parameter of `Routing.Handle`.
- The `println!` of the callback branch is left out, because it is output only.
- Routing.StagingResponse: assumes no polling URL contains a line feed, since that depends on the `url` crate's serializer, which is not modelled.
- Template.CallbackMarkerFragment: assumes the callback URL does not contain the token marker, since that also depends on the `url` crate's percent-encoding.
- CssEscape.EscapeRoundTrip: `Unescape` decodes only the escape form the escaper produces; hex escapes, escaped newlines and a trailing backslash decode to None. Unescaped CR, FF, LF and NUL decode as themselves in `Unescape`, unlike in a CSS parser: CSS preprocessing turns CR, FF and CRLF into LF and NUL into U+FFFD, and a raw LF inside a string token makes a bad string. `escape_for_css` escapes none of these four characters, so the round trip says nothing about how a browser reads a token that contains them.
