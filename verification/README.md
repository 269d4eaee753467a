# Mind It — a verified model of the reminder bot's core

Mind It is a WhatsApp reminder bot. This project models, in Dafny, the parts of it that decide
what happens to a message or a reminder:

- **The Meta webhook parser** (`api/webhook.js`). `processMessage` recognises the fixed commands
  (greeting, help, list, a confirmation word) on the lower-cased, trimmed text. Otherwise it looks
  for `<tarefa> as <H[:.]MM>[h|hr|hrs]`, and `validarHora` turns the hour into `HH:MM` or
  rejects it. Module `Webhook`; the regular expression is modelled by hand (`Connective`,
  `ShortestTask`, `FindAs`, `TokenAt`).
- **The Twilio server** (`api/index.js`; `index.js` carries the same code at lines 71-246).
  - `processMessage` routes a text.
  - `/novo <tarefa> # <HH:MM>` creates a daily reminder (`criarLembrete`).
  - `/lista` lists the sender's active reminders (`listarLembretes`).
  - A scheduler running every minute sends the `lembretes` rows that are due and moves them on
    by a day.

  Modules `Server` (routing, parsing, the `Database` class holding the `usuarios` and `lembretes`
  tables) and `Lembretes` (the rows and the scheduler's sweep).
- **The two reminder dispatchers.**
  - `api/cron-recurrent.js` fetches the pending, unconfirmed `reminders` in a ±2 minute window,
    earliest first. It skips a reminder whose escalation parent is confirmed and frames the
    message by `recurrence_count`. A delivered reminder becomes `sent`. After a permission error
    (`permission`/`#10`) the reminder is rescheduled 5 minutes later. Then it expires the stale
    pending rows and reports counts.
  - `api/check-reminders.js` shifts the clock back 3 hours and fetches the pending reminders in a
    ±1 minute window. It marks the delivered ones `sent` and reports one result per reminder.

  Modules `Reminders` (the table, the window query, the row updates), `RecurrentCron` and
  `CheckReminders`.

Supporting modules:
- `JsText` models the JavaScript string operations the code relies on: `trim`, `toLowerCase`,
  `includes`, `indexOf`, first-only `replace`, `split`, `parseInt`, `toString` and `padStart`.
- `Clock` models instants as integer milliseconds with fixed 24-hour days.
- `Sorting` is an insertion sort used for the `ORDER BY` clauses.

The database, WhatsApp and Twilio are outside the model. Every query, update and send outcome is
an input:
- booleans such as `queryOk` and `upsertOk`;
- functions such as `sendOk: nat -> bool`;
- a `World` value holding the dispatcher's oracles.

Each store is a class with `seq` fields. The handler loops are methods with loop invariants. Each
handler method is proved equal to a specification function (`SweepResult`, `RunTable`,
`RunResponse`, `ListReply`). The properties are lemmas about those functions.

## Model

| member | source | states |
|---|---|---|
| JsText.Trim | api/webhook.js:109 | `trim()` returns a contiguous piece of the text; everything cut on either side is white space, and neither end of the result is white space |
| JsText.TrimOfTrimmed | api/webhook.js:144 | a text with no white space at either end is its own trim |
| JsText.ToLower | api/webhook.js:109 | `toLowerCase()` keeps the length and lowers each character on its own |
| JsText.ToLowerIdempotent | api/index.js:65 | lowering twice is lowering once |
| JsText.NormalizedIsLower | api/index.js:65 | every character of `toLowerCase().trim()` is already lower case |
| JsText.IndexOf | api/webhook.js:186 | `indexOf` returns the first position at or after the start where the pattern occurs, or -1 when it occurs nowhere there |
| JsText.IncludesIff | api/index.js:83 | `includes(p)` holds exactly when `p` occurs at some index |
| JsText.ReplaceFirst | api/index.js:101 | `replace(p, q)` with a string pattern replaces only the first occurrence, and returns the text unchanged when there is none |
| JsText.Split | api/index.js:96 | `split(c)` yields one more part than there are separators, no part contains the separator, and joining the parts gives the text back |
| JsText.SplitFewerThanTwo | api/index.js:96-99 | `split('#')` yields fewer than two parts exactly when there is no `#` |
| JsText.SplitHead | api/index.js:101 | the first part of a split is the text up to the first separator, or all of it when there is none |
| JsText.Decimal | api/webhook.js:204-205 | `toString()` of a natural number is its decimal digits with no leading zero, and `parseInt` reads it back as the number |
| JsText.Pad2 | api/webhook.js:204-205 | `toString().padStart(2, '0')` has at least two digits (exactly two below 100) and reads back as the number |
| Sorting.SortBy | api/index.js:169 | ordering is a permutation of its input, and sorted when the order is total |
| Sorting.StrLeTotal | api/index.js:169 | string order (the order of `hora`) is total |
| Webhook.SpaceRunEnd | api/webhook.js:139 | `\s+` is matched greedily: the run is white space and stops at the first other character |
| Webhook.ConnectiveIsShape | api/webhook.js:139 | the connective `\s+as\s+` followed by a digit is found exactly when it is present, and at the only position it can end |
| Webhook.ShortestTask | api/webhook.js:139 | the lazy task group `(.+?)` takes the shortest task that the connective can follow; no shorter one fits |
| Webhook.FindAs | api/webhook.js:139-140 | the match starts at the leftmost position where the pattern fits and takes the shortest task there; no match means no position fits |
| Webhook.TokenAt | api/webhook.js:139-144 | the captured hour is a substring of the text of the shape `\d{1,2}([:.]\d{2})?`, and the longest one at its position: a second hour digit and a `[:.]\d{2}` minutes group are always taken when present (`x as 9:30` captures `9:30`, not `9`) |
| Webhook.HourDigits | api/webhook.js:194 | the hour part of a token is one or two digits |
| Webhook.NormalizeToken | api/webhook.js:186-191 | after the first `.` becomes `:` and a token with no `:` gains `:00`, the text is the hour digits, `:` and two minute digits |
| Webhook.ValidarHora | api/webhook.js:183-213 | accepts exactly when hours ≤ 23 and minutes ≤ 59, and then returns the zero-padded hours, `:` and the zero-padded minutes of the same numbers |
| Webhook.ValidarHoraOutput | api/webhook.js:204-207 | an accepted hour is `HH:MM`, five characters, and has the token's hour and minute values |
| Webhook.ValidarHoraIdempotent | api/webhook.js:186-207 | validating an accepted result again returns it unchanged |
| Webhook.DotReadsAsColon | api/webhook.js:186 | `H.MM` and `H:MM` validate to the same result |
| Webhook.WholeHour | api/webhook.js:189-191 | a token with no separator reads as whole hours with minutes `00` |
| Webhook.ClassifyPrecedence | api/webhook.js:105-172 | each fixed command is chosen exactly when the normalised text is one of its words. The pattern is tried only on a text that is no command word. An accepted reminder carries an `HH:MM` hour |
| Webhook.CommandWordsDisjoint | api/webhook.js:112-132 | the greeting, help, list and confirmation word lists share no word, so the order in which they are tested never decides the command |
| Webhook.NoCommandNoPattern | api/webhook.js:166-171 | a text with no command word and no letter `a` is not recognised |
| Server.RoutePrecedence | api/index.js:64-92 | each route is taken exactly when its test holds on the lower-cased, trimmed text and no earlier test does: greeting, `/novo` prefix, `/lista`, `/ajuda`, confirm substrings, cancel substrings, fallback |
| Server.ConfirmWinsOverCancel | api/index.js:83-89 | a text containing both `confirmar` and `cancelar` is a confirmation |
| Server.MatchesHoraMeaning | api/index.js:104 | the anchored hour pattern accepts exactly one or two digits worth at most 23, a colon, and two digits worth at most 59 |
| Server.HoraFields | api/index.js:122-126 | the hour and minute read from an accepted `HH:MM` are within 0-23 and 0-59 |
| Server.FormatErrorIffNoHash | api/index.js:96-99 | the format error is returned exactly when the text has no `#` |
| Server.OnlySecondPartIsTheHour | api/index.js:101-106 | text after a second `#` does not affect the result of parsing |
| Server.SameFirstParts | api/index.js:96-102 | two texts whose first two `#` parts agree parse alike |
| Server.NovoTask | api/index.js:65-101 | the stored task is the first part with its `/novo` prefix removed, then trimmed, and it is entirely lower case |
| Server.NextExecution | api/index.js:121-131 | the next execution has the requested hour and minute, is not before now and is less than a day after now |
| Server.NextExecutionIsFirst | api/index.js:127-131 | no instant between now and the next execution has the same time of day: it is the first such instant |
| Server.NewLembrete | api/index.js:133-146 | the inserted row is `ativo`, `diario`, has `hora` equal to the input plus `:00`, the task, the user, no attempts, and a next execution at that hour within the coming day |
| Server.UsersWith | api/index.js:108-119 | the users selected by phone number are exactly those with that number |
| Server.UsersWithAtMostOne | api/index.js:108-119 | under the unique phone number there is at most one such user |
| Server.SingleUserFound | api/index.js:156-162 | `.single()` finds the user that has the number |
| Server.UpsertSingle | api/index.js:108-119 | after the upsert there is exactly one user with the number, registered now; an existing user keeps its id and every other user is untouched |
| Server.UpsertNew | api/index.js:108-119 | an unknown number adds a user with a fresh id |
| Server.UpsertExisting | api/index.js:108-119 | a known number keeps its user's id and only refreshes `data_cadastro` |
| Server.ActiveOf | api/index.js:164-171 | the listed rows are exactly the user's `ativo` rows |
| Server.Listed | api/index.js:164-171 | the list is a permutation of the user's `ativo` rows, ordered by `hora` |
| Server.EntriesPrefix | api/index.js:179-182 | each entry appended by the loop extends the list text, numbered from 1 |
| Server.RenderList | api/index.js:177-184 | the `forEach` builds the header, one numbered entry per reminder and the footer |
| Server.Database.UpsertUsuario | api/index.js:108-119 | the users become the upsert result, the reminders are untouched, and the returned user is the single one with the number |
| Server.Database.InsertLembrete | api/index.js:133-146 | the reminder is appended and nothing else changes |
| Server.Database.CriarLembrete | api/index.js:94-152 | a format error, an invalid hour or a failed upsert writes nothing and gives its reply. After an upsert, a failed insert leaves the user and gives the error reply. Otherwise the new row is appended and the created reply names the task and hour |
| Server.Database.ListarLembretes | index.js:163-200 | the reply is the error text, the empty-list text, or the rendered list of the user's active rows |
| Server.Database.Sweep | api/index.js:438-481 | a failed query changes nothing; otherwise the reminders become the sweep result and the users are untouched |
| Server.Database.ProcessMessage | index.js:71-99 | only `/novo` can write. Greeting, `/lista`, `/ajuda`, confirm, cancel and fallback give their reply and change nothing. A `/novo` gives the format or hour error and changes nothing when the normalised text does not parse, the creation error and changes nothing when the upsert fails, and otherwise stores the upserted user; then it appends the new reminder and gives the created reply, or gives the creation error when the insert fails |
| Lembretes.DueRows | api/index.js:444-449 | the fetched rows are exactly those with `proxima_execucao ≤ now`, status `ativo` and fewer than 3 attempts |
| Lembretes.FirstFailure | api/index.js:455-462 | the sweep stops at the first send that throws: all sends before it succeed |
| Lembretes.SweepChangesOnlyDueRows | api/index.js:455-477 | only due rows change. A changed row has one more attempt, is one day later when `diario` (otherwise at the same time), and is otherwise equal |
| Lembretes.SweepAbortsAtFirstFailure | api/index.js:455-480 | a row changes exactly when it was fetched before the first failing send and its update was stored; the failing row and every later one are unchanged |
| Lembretes.SweepKeepsIds | api/index.js:470-476 | a sweep keeps every row's id, so the primary key holds |
| Lembretes.SentWasDue | index.js:209-214 | a row the sweep sent was due |
| Lembretes.Sweeps | index.js:203-246 | repeated sweeps keep the rows and their ids |
| Lembretes.AtMostThreeSends | api/index.js:449-474 | over any number of sweeps whose updates are stored, every send adds one attempt, so a row is sent at most 3 minus its starting attempts times |
| Reminders.Select | api/cron-recurrent.js:65-80 | the selected rows are exactly the `pending` rows (and unconfirmed, when asked) with `scheduled_time` in the inclusive window |
| Reminders.Fetch | api/cron-recurrent.js:65-81 | the fetched rows are exactly the matching rows, in ascending `scheduled_time`, each once |
| Reminders.SortUnique | api/check-reminders.js:49 | ordering keeps ids distinct |
| Reminders.ApplyKeepsIdentity | api/cron-recurrent.js:112-197 | no update changes a row's id, user, task or parent, and none unconfirms a row |
| Reminders.ClockTextReadsBack | api/cron-recurrent.js:148-149 | the printed time is five characters `HH:MM`, and its fields read back as the instant's hour (below 24) and minute (below 60) |
| RecurrentCron.WithId | api/cron-recurrent.js:102-107 | the parent lookup returns exactly the rows with the parent's id, at most one under the primary key |
| RecurrentCron.ParentConfirmedIff | api/cron-recurrent.js:109-110 | the parent counts as confirmed exactly when a row with the parent id is confirmed |
| RecurrentCron.FramingByCount | api/cron-recurrent.js:132-145 | count 0 (and any negative count) gives the plain header, 1 the second notice, and every count ≥ 2 the last notice; only the two later ones add an urgency line |
| RecurrentCron.GroupSharesCancelHint | api/cron-recurrent.js:157 | the cancel hint names the group root, so a follow-up and its root print the same hint |
| RecurrentCron.Judge | api/cron-recurrent.js:101-211 | each fetched reminder gets exactly one outcome, under its own id |
| RecurrentCron.JudgeVerdict | api/cron-recurrent.js:101-211 | a reminder is skipped exactly when it has a parent whose lookup returned a confirmed row. Otherwise it is sent exactly when delivered, retried later, with the note `Usuário não ativo, tentando em 5 minutos`, exactly when refused with an error containing `permission` or `#10`, and failed, carrying the service's error, exactly on any other refusal |
| RecurrentCron.EffectOnOwnRow | api/cron-recurrent.js:112-197 | processing a reminder leaves its own row in the settled state for its outcome |
| RecurrentCron.EffectFrame | api/cron-recurrent.js:112-197 | processing a reminder touches no row with another id |
| RecurrentCron.Loop | api/cron-recurrent.js:97-214 | the loop keeps the table's length and records one result per fetched reminder |
| RecurrentCron.LoopFrame | api/cron-recurrent.js:97-214 | the results carry the fetched ids in order. The loop keeps every id and every confirmed flag, and leaves rows that were not fetched unchanged |
| RecurrentCron.LoopPrefix | api/cron-recurrent.js:97-129 | the i-th verdict is taken on the table as the earlier iterations left it |
| RecurrentCron.LoopSettles | api/cron-recurrent.js:97-211 | each fetched row ends in the settled state of its own outcome: cancelled when skipped, sent when delivered, rescheduled on a permission error, unchanged when failed or not stored |
| RecurrentCron.ExpireKeepsIds | api/cron-recurrent.js:217-226 | expiry keeps the primary key |
| RecurrentCron.SettledNotStale | api/cron-recurrent.js:57-59 | a reminder fetched in this run is never expired by the same run |
| RecurrentCron.TallySum | api/cron-recurrent.js:233-235 | sent, retry, failed and skipped results together are all results |
| RecurrentCron.RunTableRows | api/cron-recurrent.js:65-226 | after a run each fetched row is in its settled state and every other row is only subject to expiry |
| RecurrentCron.ConfirmedRowsUntouched | api/cron-recurrent.js:65-226 | a confirmed row is never changed by a run |
| RecurrentCron.ConfirmedParentSkips | api/cron-recurrent.js:101-128 | a fetched reminder whose parent is confirmed is recorded as skipped and never sent |
| RecurrentCron.RetryIsDueAgain | api/cron-recurrent.js:187-197 | a stored retry keeps the reminder pending, adds exactly one to `recurrence_count`, moves it to now + 5 minutes, and puts it inside the next window; nothing caps the count |
| RecurrentCron.ReportAddsUp | api/cron-recurrent.js:233-253 | the total is the number fetched, and sent + retry + failed is at most the total |
| RecurrentCron.Process | api/cron-recurrent.js:99-211 | one iteration returns the verdict on the current table and applies exactly its effect |
| RecurrentCron.RunCron | api/cron-recurrent.js:52-264 | the handler leaves the table in the specified state and returns the specified response (total, counts and one id/status/error entry per reminder); a failed query changes nothing |
| CheckReminders.Due | api/check-reminders.js:21-49 | the fetched rows are exactly the `pending` rows within a minute of now − 3 h, whatever their `confirmed`, in ascending `scheduled_time` |
| CheckReminders.MessageShowsTaskAndTime | api/check-reminders.js:82-91 | the message contains the reminder's task and its `HH:MM` time, each at the place the template gives it |
| CheckReminders.MessageDeterminesTaskAndTime | api/check-reminders.js:82-91 | two reminders get the same message only when they have the same task and the same printed time |
| CheckReminders.Judge | api/check-reminders.js:96-141 | a reminder succeeds exactly when its message was delivered, whether or not its update was stored |
| CheckReminders.TallySplit | api/check-reminders.js:145-146 | successes and failures together are all results |
| CheckReminders.ReportAddsUp | api/check-reminders.js:145-161 | a report has sent + failed = total = the number fetched, one detail per reminder in fetch order, and is only given when something was fetched |
| CheckReminders.OnlyDeliveredRowsChange | api/check-reminders.js:63-131 | a row changes exactly when it was fetched, delivered and its update stored; it then becomes `sent` with `sent_at` and `updated_at` now, and nothing else changes |
| CheckReminders.ResponseIgnoresUpdates | api/check-reminders.js:98-122 | the response does not depend on whether the `sent` updates were stored |
| CheckReminders.Process | api/check-reminders.js:77-141 | one iteration returns that reminder's outcome and marks only a delivered, stored row sent |
| CheckReminders.SendAll | api/check-reminders.js:75-142 | the loop returns the results of every reminder and leaves the table as the closed form states; a failure never stops it |
| CheckReminders.RunCheck | api/check-reminders.js:15-172 | the handler leaves the table in the specified state and returns the specified response; with nothing due it changes nothing |

## Left out

- HTTP routing, the Express app, CORS, the HTML and JSON status pages, and the Meta webhook
  handshake and payload unpacking. These are transport.
- Sending: `sendWhatsAppMessage`, `client.messages.create` and the WhatsApp Business call become
  inputs. A send succeeds or fails by an oracle. The webhook's template replies are not
  modelled: it answers every case with the same template.
- Webhook.Classify: the webhook only logs a parsed reminder. Saving it is a comment in the code,
  so the model returns the classification and stores nothing.
- The `node-cron` and Vercel scheduling, logging, and the environment and configuration checks.
  One run is one method call.
- The supabase query builder. Queries, upserts and updates are filters and updates on sequences,
  and each result (`error` or not) is an input. The `users!inner` join and `usuarios(telefone)`
  lookups are taken to succeed.
- Real `Date` arithmetic. Instants are integer milliseconds, days are 24 hours, there is no time
  zone or DST, and `getHours`/`getMinutes` read the UTC clock. The several `new Date()` calls of
  one run are one `now`. `setHours(h, m, 0)` keeps the milliseconds of now, as the code does.
- Text. Strings are sequences of code points rather than UTF-16 units. `toLowerCase` folds only
  Latin-1 letters. `trim` and `\s` know ECMAScript's white space (tab, vertical tab, form feed, space, U+00A0, U+FEFF and the Zs code points U+1680, U+2000-U+200A, U+202F, U+205F and U+3000) and its line terminators.
- Webhook.ValidarHora requires the `\d{1,2}([:.]\d{2})?` shape, because the webhook only passes
  it tokens matched by its regular expression. Other strings (and the `try`/`catch`) are not
  modelled.
- Server.Listed assumes the `lembretes.hora` column holds text, and no file here shows the
  schema. The model stores the text `hora + ':00'`, orders it by code points and lists its first
  five characters. If the column is a Postgres `time`, the database sorts chronologically and
  reads the value back zero-padded. The model then differs for a single-digit hour: `9:00:00`
  sorts after `10:00:00` and is listed as `9:00:`, where a `time` column gives `09:00`. A text
  collation other than code-point order is not modelled either.
- Server.NewLembrete assumes the `tentativas` column defaults to 0. The insert does not write
  it. The sweep's `tentativas < 3` filter, and so Lembretes.AtMostThreeSends, rest on this
  default.
- Lembretes.DueRows takes the due rows in table order. The scheduler's query has no `ORDER BY`,
  so the database may return them in any order. Lembretes.SweepAbortsAtFirstFailure holds for
  the order the model fixes: which rows precede the first failed send depends on that order.
- Lembretes.AtMostThreeSends assumes the updates were stored and the attempts start at most 3.
- RecurrentCron.Judge: a send that fails with no error text makes `includes` throw in the code.
  The model always has an error text.
- Reminders.Fetch orders rows with the same `scheduled_time` in one fixed way; the database fixes
  no order for such ties. In cron-recurrent the order matters: a skipped reminder is written
  back `confirmed`, and later reminders are judged against the table as it then stands. The
  model's properties hold for its order of ties, and stability of the sort is not proved.
- RecurrentCron.RunResponse keeps the total, the three counts and, per entry, the id, the status
  and the error text. It leaves out the following:
  - `expired_cleaned`, since it reads a count the update never asks for;
  - the `message` summary text and the `timestamp`;
  - each entry's `reason` on a skip, its `recurrence` on a send, and its `phone`. The phone
    comes from the `users` join, which is outside the model.
- CheckReminders.Response keeps the error text, the nothing-due case, and the total, sent and
  failed counts with one entry per reminder. It leaves out the `message` texts (`Despertador
  executado! …` and `Nenhum lembrete…`), the `timestamp`, and each entry's `phone`.
- The send oracles take the reminder, not the message text. Each dispatcher's `Message` builds
  the text. RecurrentCron.FramingByCount and RecurrentCron.GroupSharesCancelHint state what the
  escalating text shows. CheckReminders.MessageShowsTaskAndTime and
  CheckReminders.MessageDeterminesTaskAndTime state what the plain text shows.
- CheckReminders.Judge: an exception inside an iteration is an oracle outcome (`Raised`). Which
  statement throws is not modelled.
- Behaviour with no code in these files is not modelled. This covers relative times ("em N
  minutos"), day words, creating escalation chains, confirming or cancelling a whole group,
  relative labels in lists, and button replies.
- `api/cron.js`, `api/cron-job.js`, `api/status.js` and `api/lembretes-pwa.js`. They return
  canned or read-only answers.
