# Anthropic manifold relay and usage-reporting bot, modelled in Dafny

The model covers two Open WebUI functions.

**`anthropic_manifold.py`** forwards a chat request to the Anthropic Messages API. It keeps track of token usage along the way.

- **Before sending**, it:
  - strips the provider prefix from the model id;
  - validates and re-packs the message content (at most 5 images, at most 100 MB of base64 data);
  - estimates the input tokens;
  - reports a "Requested..." usage record.
- **Streaming.** The response is relayed line by line by `stream_generator`:
  - each text delta is re-emitted as an OpenAI-style chunk;
  - the buffered text is counted at most once per second, for a non-persisting "Streaming..." report;
  - on every way out of the loop, the `finally` block flushes the buffer and makes exactly one persisting usage call. The ways out are: the lines run out, a `message_stop` event, the client closing the stream, or any other exception.
- **Non-streaming.** The content's texts are concatenated. Usage reported by the API is preferred over the local estimate.

**`usage_reporting_bot.py`** answers chat commands:

- `/help`, `/balance`, `/usage_stats …`, `/run_sql …` and `/ask …`;
- the three `/usage_stats` forms are recognised by regular expressions;
- privileged commands are restricted to admins and to the addresses listed in `SUPERUSERS`;
- `/run_sql` queries are guarded, and their results are rendered as a fixed-width table truncated to `MAX_SQL_ROWS`;
- usage queries are filtered by a WHERE clause built from optional filters.

The modules follow the program's structure:

| module | file | what it models |
|---|---|---|
| `Wrappers` | wrappers.dfy | `Option` and `Result` |
| `Text` | text.dfy | the Python string operations the code uses: `strip`, `split`, `join`, `find`, `count`, `<` padding, `str(int)`, `re.IGNORECASE` folding |
| `Json` | json.dfy | `json.dumps` string escaping (ASCII-only output) and its inverse; the delta chunk and `data: [DONE]` |
| `Translator` | translator.dfy | one upstream line → the texts it forwards and whether the loop goes on, breaks or raises |
| `Relay` | relay.dfy | `stream_generator` as a state machine; `Run` is the whole generator |
| `RelayProps` | relay_props.dfy | what a run forwards, how it ends, and what it accounts, over all upstreams and consumers |
| `Request` | request.dfy | model id, `process_image`, content validation, input estimate, non-streaming path, `pipe` |
| `Commands` | commands.dfy | `is_superuser`, the command router and its regular expressions, authorisation, `print_help` |
| `Sql` | sql.dfy | the `run_sql_command` guard and report |
| `Table` | table.dfy | the fixed-width table the bot renders in three places |
| `Where` | where.dfy | the WHERE clause and parameters of `get_usage_stats` |

Collaborators the code calls but does not define are parameters of the model:

- `count_tokens`, `json.loads`, `get_messages_content`, `pop_system_message`, the database, and the moment the client goes away.
- Clock readings come in with each line, as whole seconds.

The validation loop takes the image reader as a parameter. `Validate` passes `ProcessImage`. The limit lemmas hold for every reader that fails on the same URLs and counts the same data length (`Request.ReadsImages`). `Request.ProcessImageReads` proves that `ProcessImage` is such a reader.

## Model

| member | source | states |
|---|---|---|
| Json.UnescapeEscape | src/functions/anthropic_manifold.py:244 | decoding the JSON string escaping of any text, astral characters included (as surrogate pairs), gives the text back |
| Json.Hex4RoundTrip | src/functions/anthropic_manifold.py:244 | the four hex digits of a `\uXXXX` escape read back as the code unit they encode |
| Json.ChunkRoundTrip | src/functions/anthropic_manifold.py:244 | the delta carried by a chunk can be read back from it, and the `[DONE]` marker carries no delta |
| Translator.MessageTextsSpec | src/functions/anthropic_manifold.py:254-259 | a `message` event whose items all have a type forwards exactly its text items' texts in order and continues; one with a bad item raises |
| Translator.SkippedLinesAreHarmless | src/functions/anthropic_manifold.py:235-263 | empty lines, lines without the `data: ` prefix after stripping, and payloads that fail JSON decoding forward nothing and do not end the loop |
| Translator.MalformedEventRaises | src/functions/anthropic_manifold.py:239-261 | a decoded payload with no usable `type` or `text` is not absorbed like a decode error: it raises |
| Translator.StopOnlyOnMessageStop | src/functions/anthropic_manifold.py:251-252 | the loop breaks exactly on a well-formed `message_stop` line, and that line forwards nothing |
| Relay.Forward | src/functions/anthropic_manifold.py:243-259 | each text is appended to the buffer before its chunk is yielded; a close at that yield leaves it buffered; counters and reports are untouched |
| Relay.Tick | src/functions/anthropic_manifold.py:265-283 | after at least a second, the buffer is counted exactly once into the total, reported without persisting, and cleared; otherwise nothing changes |
| Relay.Run | src/functions/anthropic_manifold.py:226-318 | every run ends with exactly one persisting call, the last one, with status Completed or Stopped as the loop finished or not and the flushed total; every forwarded text is counted exactly once; reported totals never decrease |
| RelayProps.RunFollowsScan | src/functions/anthropic_manifold.py:233-297 | the forwarded deltas are the upstream texts up to the first break or raise, cut at the client's close; the run completes iff it breaks on `message_stop` or the lines run out cleanly, and it raises iff a line or the transport faults |
| RelayProps.ForwardFollowsTexts | src/functions/anthropic_manifold.py:243-259 | forwarding a line's texts yields them in order up to and including the one at which the client closes |
| RelayProps.SkippedLineChangesNothing | src/functions/anthropic_manifold.py:235-263 | a skipped line changes neither what is forwarded nor how the stream ends |
| RelayProps.ScanStopsAtFirstStop | src/functions/anthropic_manifold.py:234-252 | nothing after the first line that breaks or raises is read |
| RelayProps.MessageStopCompletes | src/functions/anthropic_manifold.py:251-286 | a `message_stop` reached with the client reading reads exactly that many lines, sends `[DONE]` last, and persists as Completed |
| RelayProps.ClientCloseIsAccounted | src/functions/anthropic_manifold.py:288-313 | a client closing at delta k receives exactly the first k+1 deltas, and the persisting Stopped call counts all of them, buffered or not |
| RelayProps.FaultIsFinalizedThenRaised | src/functions/anthropic_manifold.py:293-313 | a faulting line is finalised as Stopped and persisted, the exception is re-raised, and `[DONE]` is never sent |
| RelayProps.TokenConservation | src/functions/anthropic_manifold.py:265-303 | for an additive counter, the persisted total equals the count of all text forwarded |
| RelayProps.ChunksCarryDeltas | src/functions/anthropic_manifold.py:244-286 | the client receives one chunk per delta, carrying that delta, then `[DONE]` iff the loop finished |
| Request.ModelId | src/functions/anthropic_manifold.py:118 | the id is the model name after its first `.`, or the whole name without one |
| Request.ModelIdOfPrefixed | src/functions/anthropic_manifold.py:118 | a provider prefix without a dot is stripped off exactly |
| Request.ProcessImage | src/functions/anthropic_manifold.py:385-401 | any URL not starting with `data:image` is passed through by reference; a `data:image` URL is accepted iff it has a comma |
| Request.ProcessImageSplits | src/functions/anthropic_manifold.py:386-388 | an accepted data URL's data is what follows its first comma, and its media type is the one the header before that comma names (after `data:`, up to the next `:` or `;`) |
| Request.ProcessImageReads | src/functions/anthropic_manifold.py:385-401 | `process_image` fails exactly on the URLs the limits call unpackable, and the data it returns is as long as the data the size limit counts |
| Request.ProcessDataUrl | src/functions/anthropic_manifold.py:385-396 | the data URL built from a media type and data gives back that media type and data |
| Request.ValidateWithinLimits | src/functions/anthropic_manifold.py:128-162 | the content is accepted iff every part is readable, there are at most 5 images, every image URL can be unpacked, and the base64 sizes total at most 100 MB |
| Request.ValidateKeepsMessages | src/functions/anthropic_manifold.py:128-162 | accepted messages keep their number and roles, and plain content becomes one text block, whatever the image reader |
| Request.ValidateCarriesParts | src/functions/anthropic_manifold.py:130-154 | list content is re-packed part by part: texts as text blocks, each image as what the image reader (`process_image`, or any reader that agrees with it on failures and sizes) makes of its URL, other parts dropped |
| Request.NonStream | src/functions/anthropic_manifold.py:348-370 | the answer is the concatenated text items, persisted once as Completed, with the API's usage figures when present and the local estimate otherwise |
| Request.NonStreamMatchesStream | src/functions/anthropic_manifold.py:350-352 | the non-streaming text equals what the streaming path forwards for the same `message` event |
| Request.Pipe | src/functions/anthropic_manifold.py:101-370 | no API key, invalid content, a bad status and success are told apart exactly; the first report is "Requested..." with the input estimate; a bad status makes no further call; a streamed reply is the relay run over the reply's lines, and any other reply is settled by the non-streaming path, both with that same estimate |
| Request.PipeInputTokens | src/functions/anthropic_manifold.py:177-180 | every usage report of a request carries the token count of the messages as received, system message included, plus one per message; only a non-streaming reply's final report takes the API's `input_tokens` instead, when present |
| Request.PersistOnce | src/functions/anthropic_manifold.py:186-370 | a request that reaches a relay or a well-formed answer persists exactly once; every other request persists nothing |
| Commands.IsSuperuser | src/functions/usage_reporting_bot.py:80-91 | admins always qualify; anyone else iff their email equals a stripped entry of the comma-separated list |
| Commands.SuperuserOfList | src/functions/usage_reporting_bot.py:86 | for a list written out as comma-joined entries, a non-admin qualifies iff their address is one of the entries |
| Commands.DefaultSuperusers | src/functions/usage_reporting_bot.py:40-43 | with the default empty list, only an empty email qualifies besides admins |
| Commands.OptionalDays | src/functions/usage_reporting_bot.py:112-113 | when the rest of the command is one or more spaces, digits and a `d`, the report covers that many days; with no such match, 30 |
| Commands.DaysSuffix | src/functions/usage_reporting_bot.py:112-113 | ` Nd` reads back as N days |
| Commands.ParseRender | src/functions/usage_reporting_bot.py:100-146 | every command written in its canonical form is routed back to itself |
| Commands.DaysDefaultTo30 | src/functions/usage_reporting_bot.py:112-132 | each `/usage_stats` form without a day count defaults to 30 days |
| Commands.Authorize | src/functions/usage_reporting_bot.py:105-146 | privileged actions only for superusers; per-user reports only for superusers or the user themself; the refusal text exactly for non-superusers asking for something privileged; and each permitted command gets its own action: the balance, the all-users or per-user report for its days and address, the query, the question, or the help |
| Commands.DispatchOfRendered | src/functions/usage_reporting_bot.py:100-146 | any command written in its canonical form is answered with exactly the action authorisation assigns it, by the code as written and by the corrected router alike |
| Commands.HelpText | src/functions/usage_reporting_bot.py:148-164 | everyone gets the basic help; superusers get exactly the admin section after it |
| Commands.HelpIsNotDenial | src/functions/usage_reporting_bot.py:146-164 | the help and the invalid-command answer are never the refusal text |
| Commands.HelpExampleOwn | src/functions/usage_reporting_bot.py:151 | the help's `/usage_stats 30d` example is routed to the caller's own 30-day report |
| Commands.HelpExampleAll | src/functions/usage_reporting_bot.py:158 | the help's `/usage_stats all 45d` example is routed to the all-users 45-day report |
| Commands.OwnerStartingWithAllIsRefused | src/functions/usage_reporting_bot.py:112-118 | as written, a non-superuser whose address starts with `all` is refused their own report |
| Commands.FixedServesOwner | src/functions/usage_reporting_bot.py:120-125 | with `all` matched as a whole word, every user gets their own report, with or without a day count |
| Commands.FixedKeepsAllUsers | src/functions/usage_reporting_bot.py:112-113 | the canonical all-users commands, with and without a day count, are still routed to the all-users report by the corrected router |
| Commands.FixedChangesOnlyGluedAll | src/functions/usage_reporting_bot.py:112-130 | the corrected router routes a command differently from the code as written exactly when `all` is glued to more text after the keyword; the code as written takes those for the all-users report and the correction never does (so `/usage_stats all7d` becomes the caller's own 30-day report) |
| Commands.GluedDayCount | src/functions/usage_reporting_bot.py:112-130 | `/usage_stats all7d` is the all-users report for 30 days as written, and the caller's own 30-day report with the correction |
| Sql.Guard | src/functions/usage_reporting_bot.py:496-511 | a query is refused as non-SELECT iff its stripped text starts with neither `SELECT` nor `PRAGMA TABLE_` in any case; accepted iff it is also at most one statement; an accepted query is the stripped text ending in its only semicolon |
| Sql.GuardIdempotent | src/functions/usage_reporting_bot.py:496-511 | a guarded query passes the guard again unchanged |
| Sql.Shown | src/functions/usage_reporting_bot.py:532 | `rows[:m]` is a prefix of the rows, of length `min(m, n)`, or `max(n + m, 0)` for negative `m` |
| Sql.Report | src/functions/usage_reporting_bot.py:519-556 | no rows gives the no-results message; otherwise the results heading, the table of the shown rows, and the truncation note at the end iff some row is not shown |
| Sql.ReportShowsRows | src/functions/usage_reporting_bot.py:530-547 | the report's table, read back line by line, is the header line, the separator and one line per shown row between two fences; row i shows in column j the row's value under header j, or an empty cell where it has none, at the column's offset |
| Sql.RunSql | src/functions/usage_reporting_bot.py:494-561 | only a guarded single statement reaches the database; a refused query answers its error text; a database exception propagates |
| Sql.DefaultLimitTruncates | src/functions/usage_reporting_bot.py:45-48 | with the default limit of 200, a longer result is the heading, the table of its first 200 rows, and the note saying so |
| Table.Columns | src/functions/usage_reporting_bot.py:539 | `zip(headers, *rows)` yields as many columns as the shortest of the header and the rows |
| Table.ColumnWidth | src/functions/usage_reporting_bot.py:539 | a column is as wide as its longest cell, header included, and some cell attains it |
| Table.JoinLayout | src/functions/usage_reporting_bot.py:543-546 | joining fixed-width cells puts cell j at its offset with the separator just before it, and the line is as long as the widths and separators together |
| Table.LinesAligned | src/functions/usage_reporting_bot.py:542-547 | the header, separator and every row line have the same length, and each cell sits left-justified at its column's offset |
| Table.SeparatorShape | src/functions/usage_reporting_bot.py:544 | the separator line is a dash run per column joined by `-|-` |
| Table.RenderReadsBack | src/functions/usage_reporting_bot.py:542-547 | when no cell holds a line break, the rendered table splits at its line breaks into the opening fence, the header line, the separator, one line per row, and the closing fence |
| Where.Build | src/functions/usage_reporting_bot.py:204-219 | the conditions appear in the order address, start, end, each iff its filter is given (an empty address counts as none), with their parameters bound; the end bound is one day later |
| Where.ClauseOfFilters | src/functions/usage_reporting_bot.py:207-223 | for each of the eight combinations of filters, the clause text: `WHERE` and the given conditions in order with `AND` between neighbours, or nothing without filters |
| Where.BuildSelects | src/functions/usage_reporting_bot.py:204-224 | every placeholder is bound, and a row is selected iff its address matches and its timestamp lies in `[start, end + 1 day)` |
| Where.ReportWindow | src/functions/usage_reporting_bot.py:402-407 | a single-user report selects that user's rows from `days` days before now to one day after now |
| Where.AllUsersWindow | src/functions/usage_reporting_bot.py:295-300 | the all-users report has no address condition and selects the same window |
| Where.EmptyEmailSelectsEveryone | src/functions/usage_reporting_bot.py:207 | a report asked for the empty address builds the all-users query and selects every user's rows in the window |

## Left out

- HTTP, the event emitter, and logging (`print`) are not modelled. The upstream reply is a status and an already-read body.
- `raise_for_status` is not modelled separately. Any status other than 200 is one failure path. The source has two checks (lines 219 and 221) that both raise before any relay exists.
- UTF-8 decoding and `json.loads` are parameters.
  - A line that is not UTF-8 is one `Line` case.
  - A decoded value is classified by the branch it takes.
- `count_tokens`, `get_messages_content` and `pop_system_message` come from other modules (usage_tracking_util is not part of this model). They are parameters. Token conservation assumes the counter is additive.
- Time is a whole-second reading that comes with each line. Floating-point clock values are not modelled.
- The `sys.modules` check for the cost-tracking module (lines 105-111) and the pricing data are not modelled.
- Sampling parameters and the system prompt in the payload (lines 165-175) are not modelled. The payload keeps the model id, the messages and the stream flag.
- Request.ValidateWithinLimits: the image size `len(data) * 3 / 4` is a float in the source. The model compares `3 * len` with `4 * 100 MB` exactly, which agrees with the float for all realistic lengths.
- Messages are assumed to have a `role`. An image part is assumed to have its `image_url.url`. The source raises KeyError without them.
- The generator being closed before it ever starts is not modelled. Every consumer starts iterating.
- The regex `\d` is modelled as ASCII digits, while Python's `str` patterns also accept other Unicode digits.
- `re.IGNORECASE` is modelled as ASCII folding plus `ſ`≡`s`. That is exact for the letters in `SELECT` and `PRAGMA TABLE_`.
- `get_balance`, the report generators' pandas aggregation and exchange rates, and `/ask` (natural language to SQL) are not modelled. They are external services or presentation over the database.
- Database values are taken as already turned into text (`str(...)` in the source).
- Where.ReportWindow: a day count that takes `now - days` outside the range of Python's `datetime` makes line 403 raise OverflowError. The model computes a window for any count, because Dafny's integers are unbounded (so does its helper `Where.ReportFilters`). `timedelta` itself raises past 999,999,999 days.
- Where.AllUsersWindow: the same OverflowError at line 296 is not modelled.
- Where.EmptyEmailSelectsEveryone: the same OverflowError at line 403 is not modelled.
- Commands.OptionalDays: `int()` on lines 113, 122 and 130 raises ValueError, on Python 3.11 and later, for a digit run longer than 4300 characters. The model reads any length.
- A command is assumed present. When there is no user message, `get_last_user_message` (line 95) gives `None`, and `re.match` on line 112 raises TypeError.
- Sql.ReportShowsRows: the cell-by-cell reading assumes no column name or value contains a line break. A value with one spreads over several lines in the source too.
- `count_tokens` and `calculate_costs_update_status_and_persist` are assumed never to raise. In the source, one raising inside the loop (lines 268-281) would go to `except Exception` (line 293). One raising in `finally` (lines 301-313) would replace the way the generator ends.

Two behaviours of the code worth noting:

- A bad HTTP status raises before the relay is created. No persisting call is made for that request.
- A client that closes the stream at the `[DONE]` chunk is finalised as Completed, because `stream_completed` is already set. A cancellation is not always Stopped.

## Findings

| source | as written | input that shows it | evidently intended | confidence | as-written member | corrected member |
|---|---|---|---|---|---|---|
| src/functions/usage_reporting_bot.py:112 | `re.match(r"/usage_stats\s+all(?:\s+(\d+)d)?", command)` matches any command whose argument merely starts with `all` | a non-admin with email `allan@example.com` sends `/usage_stats allan@example.com` and is refused; an admin sending it gets the all-users report | `all` recognised only as a whole word, so the per-user pattern on line 120 sees the address | not executed | Commands.OwnerStartingWithAllIsRefused | Commands.FixedServesOwner |
