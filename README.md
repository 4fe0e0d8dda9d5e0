# Planner backend core in Dafny

This project models the core of a planner backend written with NestJS and
Prisma. The backend keeps users, tasks, time blocks and pomodoro sessions. It
also asks a language-model completion service to break a task into subtasks.
The model covers these parts:

- **YandexGpt**: the newer subtask generator, `generateSubtasks`. It checks the
  credentials, then the task name, then sends the request. It cleans each reply
  line of list markers and splits it at the bar character into a name and a priority keyword.
  It drops unnamed lines and removes repeated names the way a JavaScript `Map`
  does. Call failures are sorted into unauthorized and unavailable.
- **AiService**: the older breakdown service. It has a fixed two-message prompt
  and a three-strategy reply parser. The first strategy takes the first
  `[`…`]` span as a JSON array. The second takes the reply's lines without
  markers. The third, used when the JSON does not parse, keeps the colon-free
  lines. A loop then creates one task per name.
- **TaskService**: the task table. Lookups are scoped to the owner. It has
  create, partial update and delete. `breakdownTask` writes the generated
  subtasks as one batch of child rows. As written, the batch hands the store
  whole `{name, priority}` pairs for the `name` column, so the store refuses
  it; Findings has both versions.
- **TimeBlockService**: the time-block table, including the all-or-nothing
  `updateOrder` transaction.
- **PomodoroService**: get-or-create of today's session with its zeroed
  rounds, plus session and round updates.
- **UserService**: lookups, the profile statistics, registration with a hashed
  password, and settings updates.
- **UserDtoRules**: the validation rules of the settings form, including the
  `HH:MM` start-time pattern and the password length as validator.js measures it.

The shared modules are:

- Store: entities and the `Database` class, whose tables are sequence fields.
- Text: JavaScript `trim`, `split` and `includes`, and `toLowerCase` on the
  Basic Latin and Cyrillic capitals.
- JsonArray: the array-of-strings part of `JSON.parse`, escaped surrogate
  pairs included.
- Seqs: order-preserving filter, count and find.
- Wrappers: `Option` and `Result`.
- Completion: chat messages.

The store is one object whose tables the service methods update in place. A
method's `modifies` clause names the tables it writes. Queries are functions
that read the object. Identifiers come from one counter, `nextId`, so they
increase along every table.

`Database.Valid` is the store's invariant:

- identifiers are unique and increasing in every table and below `nextId`;
- no two users share an email;
- every task, block and session has an existing owner;
- every round points at an identifier already handed out.

Every state-changing method keeps this invariant and states its whole new
state.

The environment becomes parameters:

- The completion call becomes an outcome parameter: a reply text, an HTTP
  status, no response, or another failure.
- The clock becomes a timestamp parameter, in milliseconds.
- The argon2 `hash` and class-validator's `IsEmail` become function parameters.

## Model

| member | source | states |
|---|---|---|
| YandexGpt.BuildRequest | src/yandexgpt/yandexgpt.service.ts:56-84 | the model address is `gpt://`, the catalog id and `/yandexgpt`; the request holds two messages, system then user; the system text is the fixed instruction and the user text is the fixed Russian prefix followed by the task name |
| YandexGpt.BuildRequestInjective | src/yandexgpt/yandexgpt.service.ts:56-84 | different catalogs or different task names give different requests |
| YandexGpt.CleanLine | src/yandexgpt/yandexgpt.service.ts:92 | the marker stripping and trim of one reply line (defined, no contract; `CleanLineStrips` and `CleanLineEnds` state it) |
| YandexGpt.CleanLineStrips | src/yandexgpt/yandexgpt.service.ts:92 | a cleaned line is the line after its whole leading run of `-`, `•`, digits, `.` and white space, with trailing white space cut |
| YandexGpt.CleanLineEnds | src/yandexgpt/yandexgpt.service.ts:92 | a non-empty cleaned line starts with no marker character and ends with no white space |
| YandexGpt.HasAnyOfThree | src/yandexgpt/yandexgpt.service.ts:104-115 | the keyword-list test used by the priority table is the three `includes` disjunction of the source |
| YandexGpt.PriorityOfIsTable | src/yandexgpt/yandexgpt.service.ts:100-116 | the priority is the first row of the table (high words, then low words) whose keywords occur in the lower-cased field, otherwise medium |
| YandexGpt.PriorityOfCases | src/yandexgpt/yandexgpt.service.ts:100-116 | three if-and-only-ifs: high exactly when a high keyword occurs (so high wins over low); low exactly when only a low keyword occurs; medium exactly when neither occurs |
| YandexGpt.PriorityOf | src/yandexgpt/yandexgpt.service.ts:100-116 | the keyword test on the lower-cased field (defined, no contract; `PriorityOfIsTable` and `PriorityOfCases` state it) |
| YandexGpt.ParseLine | src/yandexgpt/yandexgpt.service.ts:96-122 | the name and priority of one line (defined, no contract; `ParseLineName`, `ParseLineIgnoresLaterFields` and `ParseLineNoBar` state it) |
| YandexGpt.ParseLineName | src/yandexgpt/yandexgpt.service.ts:96-99 | for a line with a bar character, the name is the trimmed text before the first bar |
| YandexGpt.ParseLineIgnoresLaterFields | src/yandexgpt/yandexgpt.service.ts:96-118 | fields after the second are ignored, and a line of a name, a bar and a field gives the trimmed name with the priority of the trimmed field |
| YandexGpt.ParseLineNoBar | src/yandexgpt/yandexgpt.service.ts:119-122 | a line without a bar character becomes that whole line with medium priority |
| YandexGpt.CleanAll | src/yandexgpt/yandexgpt.service.ts:92 | every line is cleaned, in order, and none is lost |
| YandexGpt.ParseAll | src/yandexgpt/yandexgpt.service.ts:94-123 | every kept line is parsed, in order |
| YandexGpt.ParseReply | src/yandexgpt/yandexgpt.service.ts:90-124 | no parsed subtask has an empty name |
| YandexGpt.ParseReplySingle | src/yandexgpt/yandexgpt.service.ts:90-124 | a clean one-line reply yields that line's subtask, unless its name is empty |
| YandexGpt.ParseReplyOneLine | src/yandexgpt/yandexgpt.service.ts:90-124 | a clean one-line reply of a name, a bar and a field, with a non-blank name yields exactly one subtask: the trimmed name with the field's priority |
| YandexGpt.Names | src/yandexgpt/yandexgpt.service.ts:127-129 | lists the subtasks' names in order, one per subtask |
| YandexGpt.InsertKeys | src/yandexgpt/yandexgpt.service.ts:128 | `map.set` keeps the keys distinct and makes them exactly the names seen so far |
| YandexGpt.InsertValues | src/yandexgpt/yandexgpt.service.ts:128 | after `map.set`, each key holds the subtask of its last occurrence |
| YandexGpt.InsertOrder | src/yandexgpt/yandexgpt.service.ts:128 | after `map.set`, the keys stay in first-insertion order |
| YandexGpt.Build | src/yandexgpt/yandexgpt.service.ts:128 | the map built from the list has distinct keys, exactly the names of the list, in first-occurrence order, each holding its last subtask |
| YandexGpt.Dedup | src/yandexgpt/yandexgpt.service.ts:127-129 | `values()` of the map is never longer than the input, and its names are the map's keys in order |
| YandexGpt.DedupNames | src/yandexgpt/yandexgpt.service.ts:127-129 | the output has one entry per distinct name, and its names are exactly the input's names |
| YandexGpt.DedupValues | src/yandexgpt/yandexgpt.service.ts:127-129 | the entry kept for a name is that name's last occurrence in the input |
| YandexGpt.DedupOrder | src/yandexgpt/yandexgpt.service.ts:127-129 | the entries come in the order in which their names first appear |
| YandexGpt.BuildDistinct | src/yandexgpt/yandexgpt.service.ts:127-129 | a list whose names are already distinct keeps its names and their order |
| YandexGpt.DedupIdempotent | src/yandexgpt/yandexgpt.service.ts:127-129 | removing duplicates twice is removing them once |
| YandexGpt.DedupSingle | src/yandexgpt/yandexgpt.service.ts:127-129 | a single subtask passes the `Map` unchanged |
| YandexGpt.SubtasksOneLine | src/yandexgpt/yandexgpt.service.ts:86-131 | a clean one-line reply of a non-blank name, a bar and a field yields exactly that one subtask |
| YandexGpt.Subtasks | src/yandexgpt/yandexgpt.service.ts:86-131 | the answer to a reply has distinct, non-empty names and is no longer than the parsed line list |
| YandexGpt.GenerateSubtasks | src/yandexgpt/yandexgpt.service.ts:42-175 | missing credentials fail with service-unavailable before any request and before the name check; a blank name gives `[]` with no request; otherwise exactly one request is sent; a reply without text gives `[]`; HTTP 401/403 gives unauthorized; no response gives service-unavailable; every other failure gives the generic service-unavailable |
| AiService.CreatePrompt | src/ai/ai.service.ts:116-127 | two messages, the fixed system text then a user message that is the prefix, the task name and a closing double quote |
| AiService.CreatePromptInjective | src/ai/ai.service.ts:116-127 | different task names give different prompts |
| AiService.BracketSpan | src/ai/ai.service.ts:146 | the lazy pattern finds a span exactly when the text has a `[` with a later `]`; the span runs from the first `[` to the first `]` after it |
| AiService.LazyMatchUnique | src/ai/ai.service.ts:146 | the match of the pattern is unique |
| AiService.JsonMatch | src/ai/ai.service.ts:146-147 | there is a match exactly when a bracket pair exists, and it is the text of the lazy span |
| AiService.UnmarkAll | src/ai/ai.service.ts:154 | every line loses its marker run and is trimmed, in order |
| AiService.CleanItems | src/ai/ai.service.ts:150-155 | the second strategy yields only non-empty items, each the unmarked form of one of the reply's lines |
| AiService.ColonFreeItems | src/ai/ai.service.ts:159-162 | the third strategy yields no more items than lines, each the unmarked form of a line without `:` |
| AiService.ParseSubtasksFromResponse | src/ai/ai.service.ts:134-174 | fails with "Failed to parse AI response" exactly when the text is missing or empty or the chosen strategy yields nothing; otherwise returns that strategy's items |
| AiService.ParseNonEmpty | src/ai/ai.service.ts:165-169 | a successful parse is never empty |
| AiService.EscapeCharNoBracket | src/ai/ai.service.ts:148 | JSON-escaping a character other than `]` writes no `]` |
| AiService.EscapeNoBracket | src/ai/ai.service.ts:148 | escaping a string without `]` writes no `]` |
| AiService.RenderItemsNoBracket | src/ai/ai.service.ts:148 | the items of an array of `]`-free strings contain no `]` |
| AiService.ReplyWithArray | src/ai/ai.service.ts:146-169 | a reply with a JSON array of `]`-free strings, after text without `[`, matches exactly that array and parses to its strings |
| AiService.CandidatesArray | src/ai/ai.service.ts:146-148 | when the match parses, the candidates are the parsed strings |
| AiService.CandidatesWithoutBracket | src/ai/ai.service.ts:147-156 | a reply without `[` is read by the line strategy |
| AiService.UnmarkClean | src/ai/ai.service.ts:153-154 | a clean item survives the blank filter, the marker stripping and the trim unchanged |
| AiService.CleanItemsOfCleanLines | src/ai/ai.service.ts:150-155 | clean lines pass the second strategy unchanged |
| AiService.ReplyOfLines | src/ai/ai.service.ts:150-169 | a reply made of clean lines without `[` parses back to exactly those lines |
| AiService.MatchAfter | src/ai/ai.service.ts:146 | after text without `[`, a bracketed text without `]` inside is the match |
| AiService.UnquotedArrayFails | src/ai/ai.service.ts:148 | the model's parse fails for a bracketed body that does not start with a quote, space or `]`; `JSON.parse` throws there too unless the body is JSON of another shape (see JSON under Left out) |
| AiService.KeptByCatch | src/ai/ai.service.ts:161 | a non-blank line without `:` passes the third strategy's filter |
| AiService.DroppedByCatch | src/ai/ai.service.ts:161 | a line with `:` is dropped by the third strategy's filter |
| AiService.DashItems | src/ai/ai.service.ts:159-162 | a line with `:` followed by a line holding only `-` leaves one empty item, because the third strategy has no final empty filter |
| AiService.CandidatesCatch | src/ai/ai.service.ts:147-163 | when the match does not parse, the third strategy applies |
| AiService.BracketFirstLineCaught | src/ai/ai.service.ts:146-163 | when the first bracketed text does not start an array of strings, the third strategy reads the reply |
| AiService.CatchKeepsEmptyItem | src/ai/ai.service.ts:146-169 | the reply `[x]` plus a line with only `-`, where `x` has a colon and no quote anywhere (so it is no JSON text), parses to the single empty name |
| AiService.Candidates | src/ai/ai.service.ts:146-162 | the three strategies (defined, no contract): the parsed array when the match parses, the line strategy when there is no match, the colon-free strategy otherwise |
| AiService.Unmark | src/ai/ai.service.ts:154 | the marker stripping and trim of one line (defined, no contract; `UnmarkClean` states it) |
| AiService.Generate | src/ai/ai.service.ts:78-109 | a failed call gives no names, and generated names are never empty |
| AiService.SubtaskRowsFields | src/ai/ai.service.ts:54-62 | row `k` carries name `k`, the given priority or medium, is not completed, has the caller's owner and is dated now |
| AiService.SubtaskRowsStep | src/ai/ai.service.ts:54-63 | one more loop step appends the row for the next name with the next identifier |
| AiService.CreateAll | src/ai/ai.service.ts:53-66 | one create per name, in order: with an existing user the created rows are `SubtaskRows` and are appended to the table; with an unknown user the first create fails and nothing is written |
| AiService.Plan | src/ai/ai.service.ts:42-50 | a blank or empty name fails with the empty-name cause; otherwise a failed generation fails; otherwise the names are the generated, non-empty list |
| AiService.BreakdownTask | src/ai/ai.service.ts:40-71 | a prompt is built only for a non-blank name; every refusal surfaces as a bad request and changes nothing; on success the table gains exactly the subtask rows |
| TaskService.GetById | src/task/task.service.ts:13-24 | a task is found exactly when one matches both the id and the user |
| TaskService.GetAll | src/task/task.service.ts:26-28 | exactly the user's tasks |
| TaskService.Create | src/task/task.service.ts:30-41 | an unknown user is refused with nothing written; otherwise the table gains one row with the dto's fields, the column defaults and a fresh identifier |
| TaskService.Patched | src/task/task.service.ts:43-51 | an update keeps the row's identifier and owner |
| TaskService.PatchedFields | src/task/task.service.ts:43-51 | every supplied field is written and every omitted field is kept |
| TaskService.PatchedIdempotent | src/task/task.service.ts:43-51 | an empty patch changes nothing, and applying a patch twice equals applying it once |
| TaskService.Update | src/task/task.service.ts:43-51 | only the first row matching both id and user changes, to the patched row; with no match `NotFound` and nothing changes |
| TaskService.Delete | src/task/task.service.ts:53-59 | the row with this id is removed whoever owns it and returned, and no row with that id remains; with no match `NotFound` |
| TaskService.Children | src/task/task.service.ts:77-83 | one child row per name |
| TaskService.ChildrenInherit | src/task/task.service.ts:77-83 | each child carries its name in order, the parent's owner and date, is not completed, and has a fresh identifier |
| TaskService.InsertChildren | src/task/task.service.ts:76-90 | the batch appends exactly the children to the table |
| TaskService.ValidateNames | src/task/task.service.ts:77-83 | the store accepts the batch's `name` values exactly when every one is a string, and then takes them in order; otherwise it refuses with an invalid-value error |
| TaskService.CreateMany | src/task/task.service.ts:77-84 | all or nothing: a refused batch writes nothing; an accepted one appends one child per value and reports the count |
| TaskService.PairValuesRefused | src/task/task.service.ts:77-83 | a non-empty batch of generated pairs is refused |
| TaskService.TextValuesAccepted | src/task/task.service.ts:77-83 | a batch of names is accepted with exactly those names |
| TaskService.BreakdownTaskAsWritten | src/task/task.service.ts:60-91 | the source's `breakdownTask`: the same guards as below, but a non-empty answer is refused by the store as an invalid value and nothing is written |
| TaskService.BuyMilkReply | src/yandexgpt/yandexgpt.service.ts:86-131 | the one-line reply `Buy milk `, a bar character, ` high` gives the one subtask `Buy milk` of high priority |
| TaskService.BuyMilkBatch | src/task/task.service.ts:77-83 | that subtask's pair is refused by the batch as written, and its name is accepted by the corrected batch |
| TaskService.BreakdownTask | src/task/task.service.ts:60-91 | the corrected `breakdownTask`: a missing task is refused with no request and no write; generation errors pass through with no write; an empty answer returns the task and writes nothing; otherwise one child per generated subtask, carrying its name, is written in one batch, and the parent is unchanged |
| TimeBlockService.InsertByOrderSorted | src/time-block/time-block.service.ts:14-16 | inserting into a sorted list keeps it sorted by order and adds exactly the block |
| TimeBlockService.SortByOrder | src/time-block/time-block.service.ts:14-16 | the result is sorted by order and is a permutation of the input |
| TimeBlockService.GetAll | src/time-block/time-block.service.ts:9-21 | exactly the user's blocks, as a permutation, in non-decreasing order |
| TimeBlockService.Create | src/time-block/time-block.service.ts:23-46 | the block is written exactly when its user exists and any supplied task exists; a task is linked exactly when one is supplied; otherwise `NotFound` and nothing is written |
| TimeBlockService.PatchedBlock | src/time-block/time-block.service.ts:48-59 | an update keeps the block's identifier and owner |
| TimeBlockService.PatchedBlockFields | src/time-block/time-block.service.ts:48-59 | supplied fields are written and omitted ones kept; an empty patch changes nothing |
| TimeBlockService.Update | src/time-block/time-block.service.ts:48-59 | only the block matching both id and user changes; no match gives `NotFound`, a missing task gives a foreign-key error, and neither writes |
| TimeBlockService.Delete | src/time-block/time-block.service.ts:61-68 | only the block matching both id and user is removed and returned; with no match `NotFound` |
| TimeBlockService.Reorder | src/time-block/time-block.service.ts:72-77 | the table after the batch keeps its length (`ReorderPositions`, `ReorderKeeps` and `ReorderIdempotent` state the rest) |
| TimeBlockService.Placed | src/time-block/time-block.service.ts:72-77 | placing a block never changes its identifier, owner or task |
| TimeBlockService.PlacedStep | src/time-block/time-block.service.ts:72-77 | one more id in the list changes only the placement of that id's block, which gets the new position |
| TimeBlockService.WrittenAt | src/time-block/time-block.service.ts:73-76 | with unique identifiers, the update for an id finds exactly the block with that id |
| TimeBlockService.ReorderStep | src/time-block/time-block.service.ts:72-77 | one more update of the batch moves the table to the placement for one more id |
| TimeBlockService.Unlisted | src/time-block/time-block.service.ts:73-76 | an id that names no block makes the whole list invalid |
| TimeBlockService.AllListedStep | src/time-block/time-block.service.ts:72-77 | a found id extends the list of valid ids by one |
| TimeBlockService.ApplyOrder | src/time-block/time-block.service.ts:72-77 | the batch fails with `NotFound` exactly when some id names no block; otherwise the staged table is `Reorder(rows, ids)` and update `i` returned block `ids[i]` at position `i` |
| TimeBlockService.UpdateOrder | src/time-block/time-block.service.ts:70-79 | all or nothing: if some id names no block, `NotFound` and no position changes; otherwise block `ids[i]` gets position `i` (the last one for a repeated id), unlisted blocks are unchanged, and the owner is not checked |
| TimeBlockService.ReorderIdempotent | src/time-block/time-block.service.ts:70-79 | repeating `updateOrder` with the same list changes nothing more |
| TimeBlockService.ReorderPositions | src/time-block/time-block.service.ts:70-79 | for distinct ids, block `ids[i]` ends at position `i` and a block not listed is unchanged |
| TimeBlockService.ReorderKeeps | src/time-block/time-block.service.ts:70-79 | reordering keeps every block's identifier and owner |
| PomodoroService.RoundsOf | src/pomodoro/pomodoro.service.ts:19-23 | exactly the rounds of the session |
| PomodoroService.RoundsOfAscending | src/pomodoro/pomodoro.service.ts:19-23 | a session's rounds come in ascending id order |
| PomodoroService.GetTodaySession | src/pomodoro/pomodoro.service.ts:9-26 | no session exactly when none of the user's sessions was created on or after today's start; otherwise one such session with its rounds |
| PomodoroService.TodaySessionSameDay | src/pomodoro/pomodoro.service.ts:10-16 | the answer is the same at every instant of one day |
| PomodoroService.RoundCount | src/pomodoro/pomodoro.service.ts:51 | `Array.from` makes `intervalsCount` rounds, or none for a negative count |
| PomodoroService.ZeroRoundsFields | src/pomodoro/pomodoro.service.ts:49-54 | every new round belongs to the session, has zero seconds, is not completed, and the identifiers increase |
| PomodoroService.InsertSession | src/pomodoro/pomodoro.service.ts:47-59 | the session table gains one session owned by the user, created now |
| PomodoroService.InsertRounds | src/pomodoro/pomodoro.service.ts:49-54 | the round table gains exactly the zeroed rounds |
| PomodoroService.RoundsOfNew | src/pomodoro/pomodoro.service.ts:60-64 | the rounds of a new session are exactly the rounds written with it |
| PomodoroService.TodayAfterInsert | src/pomodoro/pomodoro.service.ts:29-65 | after inserting today's first session, today's session is the new one with its rounds |
| PomodoroService.TodayAfterCreate | src/pomodoro/pomodoro.service.ts:29-65 | the same fact on the store after the two inserts |
| PomodoroService.Create | src/pomodoro/pomodoro.service.ts:28-66 | returns today's session unchanged and writes nothing when there is one; an unknown user gives `NotFound` with no write; otherwise one session and `intervalsCount` zero rounds are written; after success, today's session is the result, so a second call the same day adds nothing |
| PomodoroService.CreateNew | src/pomodoro/pomodoro.service.ts:47-65 | the new session and its `n` zero rounds are appended, and it becomes today's session |
| PomodoroService.PatchedSession | src/pomodoro/pomodoro.service.ts:68-76 | an update keeps the session's identifier, owner and creation time, and writes completion only when supplied |
| PomodoroService.Update | src/pomodoro/pomodoro.service.ts:68-76 | only the session matching both id and user changes; otherwise `NotFound` and nothing changes |
| PomodoroService.PatchedRound | src/pomodoro/pomodoro.service.ts:78-85 | an update keeps the round's identifier and session |
| PomodoroService.PatchedRoundFields | src/pomodoro/pomodoro.service.ts:78-85 | only supplied fields change; an empty patch changes nothing |
| PomodoroService.UpdateRound | src/pomodoro/pomodoro.service.ts:78-85 | the round is matched by id alone and patched; otherwise `NotFound` and nothing changes |
| PomodoroService.DeleteSession | src/pomodoro/pomodoro.service.ts:87-94 | only the session matching both id and user is removed and returned; otherwise `NotFound` |
| UserService.GetById | src/user/user.service.ts:15-24 | a user is found exactly when one has the id, together with exactly that user's tasks |
| UserService.GetByEmail | src/user/user.service.ts:26-32 | no user exactly when the email is absent or nobody has it, so a failed lookup is a null and not an error |
| UserService.GetByEmailUnique | src/user/user.service.ts:26-32 | with unique emails, the lookup returns the one user with the email |
| UserService.Public | src/user/user.service.ts:73-77 | the profile's user has every column of the row except the password |
| UserService.GetProfile | src/user/user.service.ts:38-84 | an unknown user fails; otherwise the stored user without the password, with their tasks, and four statistics in the order Total, Completed, Today, Week, counting the user's tasks, their completed tasks, and their tasks since today's start and since the start of the day seven days earlier |
| UserService.ProfileOrdering | src/user/user.service.ts:42-70 | Completed ≤ Total, Today ≤ Week and Week ≤ Total |
| UserService.NewUser | src/user/user.service.ts:86-91 | the row carries the email, an empty name and the hash of the password, not the password |
| UserService.Create | src/user/user.service.ts:86-96 | a repeated email is refused with nothing written; otherwise exactly the new row is appended |
| UserService.CreateKeepsValid | src/user/user.service.ts:93-95 | appending a user with a fresh identifier and email keeps identifiers increasing and emails unique |
| UserService.Applied | src/user/user.service.ts:98-114 | an update keeps the user's identifier |
| UserService.AppliedFields | src/user/user.service.ts:98-104 | the password is re-hashed only when one is supplied; each supplied field (email, name, password, start time, work and break intervals) is written and each omitted one kept; an empty form changes nothing |
| UserService.AppliedAsWritten | src/user/user.service.ts:98-109 | the write as the source passes it keeps the user's identifier when it succeeds |
| UserService.IntervalCountRejected | src/user/user.service.ts:98-109 | a valid form setting `intervalCount` to 4 makes the write as written fail |
| UserService.AppliedIntervalCount | src/user/user.service.ts:98-109 | the corrected write stores the interval count in `intervalsCount`, and agrees with the write as written on every form without it |
| UserService.Update | src/user/user.service.ts:98-115 | an unknown user gives `NotFound` and an email another user has gives a unique violation, neither writing; otherwise the form is written over the row and only the name and email are returned |
| UserService.FindOther | src/user/user.service.ts:105-109 | finds another row with the email exactly when one exists |
| UserService.UpdateKeepsValid | src/user/user.service.ts:105-109 | rewriting a row with the same identifier and an unused email keeps the store's invariant |
| UserDtoRules.DigitRoundTrip | src/user/dto/user.dto.ts:47-51 | reading a digit character and writing it back gives the character |
| UserDtoRules.TwoDigitsOf | src/user/dto/user.dto.ts:47-51 | two digit characters read as a number below 100 and write back as themselves |
| UserDtoRules.MatchesIsClock | src/user/dto/user.dto.ts:47-51 | every text the pattern accepts is a clock time: hours 0–23 in one or two digits, `:`, minutes 00–59 |
| UserDtoRules.ClockMatches | src/user/dto/user.dto.ts:47-51 | every such clock time is accepted by the pattern |
| UserDtoRules.StartTimeIff | src/user/dto/user.dto.ts:47-51 | the pattern accepts a text exactly when it is a clock time |
| UserDtoRules.StartTimeAccepted | src/user/dto/user.dto.ts:47-51 | "9:05" and "23:59" pass |
| UserDtoRules.StartTimeRejected | src/user/dto/user.dto.ts:47-51 | "24:00", "7:5" and "12:60" fail |
| UserDtoRules.UserDtoValid | src/user/dto/user.dto.ts:12-52 | the form's rules (defined, no contract; `OmittedFieldsPass` states it) |
| UserDtoRules.LongEnough | src/user/dto/user.dto.ts:39-44 | `MinLength(6)`: the validator.js length is at least six (defined, no contract; `PasswordLengths` states it) |
| UserDtoRules.ValidatorLength | src/user/dto/user.dto.ts:39-44 | the validator.js length is never more than the number of characters |
| UserDtoRules.ValidatorLengthSplit | src/user/dto/user.dto.ts:39-44 | the length plus the number of variation selectors U+FE0E and U+FE0F is the number of characters |
| UserDtoRules.ValidatorLengthAppend | src/user/dto/user.dto.ts:39-44 | the length of two strings joined is the sum of their lengths |
| UserDtoRules.ValidatorLengthSnoc | src/user/dto/user.dto.ts:39-44 | a variation selector adds nothing to the length; any other character, however many UTF-16 units it takes, adds one |
| UserDtoRules.ValidatorLengthPlain | src/user/dto/user.dto.ts:39-44 | without variation selectors the length is the number of characters |
| UserDtoRules.PasswordLengths | src/user/dto/user.dto.ts:39-44 | three emoji are too short although they take six UTF-16 units, and six letters are long enough |
| UserDtoRules.OmittedFieldsPass | src/user/dto/user.dto.ts:12-52 | the empty form is valid, and removing any one field never makes a valid form invalid |
| JsonArray.Parse | src/ai/ai.service.ts:148 | `JSON.parse` on arrays of strings (defined, no contract; `ParseRender` and `PairStep` state it) |
| JsonArray.HexCode | src/ai/ai.service.ts:148 | four hexadecimal digits write a number below 0x10000 |
| JsonArray.UnicodeEscape | src/ai/ai.service.ts:148 | a `\uXXXX` escape reads as the character with that code, which is in the Basic Multilingual Plane |
| JsonArray.PairChar | src/ai/ai.service.ts:148 | a high and a low surrogate half stand together for a character outside the Basic Multilingual Plane |
| JsonArray.Hex4Code | src/ai/ai.service.ts:148 | four written hexadecimal digits read back as their number |
| JsonArray.PairCharHalves | src/ai/ai.service.ts:148 | splitting a character into its UTF-16 halves and joining them gives it back |
| JsonArray.PairTextDecodes | src/ai/ai.service.ts:148 | the twelve-character escape of a character's surrogate pair reads as that character |
| JsonArray.PairStep | src/ai/ai.service.ts:148 | inside a string literal, an escaped surrogate pair reads back as the one character it encodes |
| JsonArray.ParseCharsEscape | src/ai/ai.service.ts:148 | a written string literal reads back as its value and leaves the text after it |
| JsonArray.ParseCharsStep | src/ai/ai.service.ts:148 | one written character, plain or escaped, reads back as itself |
| JsonArray.ParseRender | src/ai/ai.service.ts:148 | `JSON.parse` of a written array of strings gives back the strings |
| Text.TrimSlice | src/yandexgpt/yandexgpt.service.ts:92 | `trim` keeps a contiguous slice and cuts only white space from either end |
| Text.TrimIdempotent | src/yandexgpt/yandexgpt.service.ts:96 | trimming twice is trimming once |
| Text.TrimEmptyIff | src/ai/ai.service.ts:42 | a string trims to empty exactly when it consists of white space |
| Text.Split | src/yandexgpt/yandexgpt.service.ts:91 | `split` gives at least one piece, no piece holds the separator, and joining the pieces gives the text back |
| Text.SplitJoin | src/yandexgpt/yandexgpt.service.ts:91-96 | splitting the join of separator-free pieces gives the pieces back |
| Text.SplitAtFirst | src/yandexgpt/yandexgpt.service.ts:96-99 | the first piece is the text before the first separator, and the rest is the split of what follows it |
| Text.Contains | src/yandexgpt/yandexgpt.service.ts:104-115 | `includes` holds exactly when the text occurs at some position |
| Text.ContainsChar | src/ai/ai.service.ts:161 | looking for `":"` is looking for the character |
| Text.Trim | src/yandexgpt/yandexgpt.service.ts:92 | `trim` (defined, no contract; `TrimSlice`, `TrimIdempotent` and `TrimEmptyIff` state it) |
| Text.Lower | src/yandexgpt/yandexgpt.service.ts:100 | `toLowerCase` keeps the length; it lowers only Basic Latin and Cyrillic capitals (see Left out) |
| Store.StartOfDay | src/pomodoro/pomodoro.service.ts:10-15 | the start of the day is a midnight at or before the instant and less than a day before it |
| Store.StartOfDaySameDay | src/pomodoro/pomodoro.service.ts:10-15 | every instant of one day has the same start of day |
| Store.StartOfDayMonotone | src/user/user.service.ts:51-52 | a later instant never has an earlier start of day |
| Store.Database.UserById | src/pomodoro/pomodoro.service.ts:34-43 | finds a user exactly when one has the id |

## Left out

- Transport: the HTTP clients, headers, timeouts and generation options are not modelled. The completion call is an outcome parameter, and loggers are dropped.
- Clock: `new Date()` is a timestamp parameter. date-fns `startOfDay` in `getProfile` works in local time, but the model uses midnight UTC, as pomodoro does with its ISO date. The older service's loop calls `new Date()` once per created task; the model dates all the rows of one call with the same timestamp.
- AiService.ParseSubtasksFromResponse: only arrays of strings are parsed. A bracketed text that is valid JSON of another shape, such as `[1, 2]`, `[null]` or `[{"a": "b"}]`, is a parse failure in the model, which then applies the third strategy. The source instead returns those non-string values as the subtasks without throwing.
- JsonArray.Parse: a lone surrogate escape such as `\uD800` not followed by its other half is accepted by `JSON.parse`, but a Dafny `char` cannot hold it, so the model's parse fails there.
- AiService.BreakdownTask: the catch wraps every error message in "Failed to break down task: …". The model keeps the cause, not the message text.
- AiService.Plan: the `NothingGenerated` cause cannot occur, because `Generate` never yields an empty list. The source's empty-list check is kept all the same.
- AiService: the missing-configuration check in the constructor only logs, so it is not modelled.
- AiService.CreateAll: `create` returns a row whenever it succeeds, so the `if (createdTask)` filter never drops one. In the model only an unknown user makes `create` fail. Then the first create fails, the loop stops with the error, and nothing is written.
- TaskService.BreakdownTask: `skipDuplicates` is not modelled. The task table has no unique column but the identifier, so it has no effect on these rows.
- TaskService.BreakdownTask: it states the corrected batch, one name per generated subtask, with the priority dropped. The source hands the store whole `{name, priority}` pairs for the `name` column, which the store refuses; `TaskService.BreakdownTaskAsWritten` models that, and Findings has the row.
- Tasks: category, tags and parent linkage are not modelled, because no code shown implements them.
- Time blocks: the included `task` row in the replies is not modelled. The time-block and pomodoro dto files are not part of this model. The patches carry only the fields the services use: order and task link; session completion; round seconds and completion.
- TimeBlockService.Create: identifiers are naturals, so the empty-string `taskId` that the source treats as no link has no counterpart.
- TimeBlockService.GetAll: the store's order between blocks of equal position is unspecified. The model uses a stable insertion sort.
- Users: the user table's schema is not part of this model. The settings columns take the constructor's defaults. `getAll` is a plain read of the table and is not modelled.
- UserService.GetByEmail: `.catch(() => null)` turns every store error into null. The model has no store errors on reads, so it returns null for a missing email or no match.
- UserService.GetProfile: for an unknown user `getByID` gives `null`, and the destructuring `const { ...profile } = …` at src/user/user.service.ts:39 throws a `TypeError` on it. The model gives an error there and does not model the exception's type.
- UserService.Update: it is stated for the corrected write, which stores `intervalCount` in `intervalsCount`; Findings has the write as written.
- UserService: `hash` and `IsEmail` are function parameters, because argon2 and class-validator are libraries.
- Text.Lower: JavaScript's `toLowerCase` lowers every cased character. The model lowers only the Basic Latin and Cyrillic capitals, because the priority keywords are English and Russian. A field with other capitals, such as Greek ones, may get a different priority in the source.
- Store errors: the messages the store raises are not modelled, only their kind (`NotFound`, `ForeignKeyViolation`, `UniqueViolation`, `UnknownArgument`, `InvalidValue`). Deletes do not cascade to blocks or rounds.
- Numbers: numeric fields are integers. Floating point settings are not modelled.
- `src/auth/auth.service.ts` and the controllers are not part of this model.

## Findings

| source | as written | input that shows it | evidently intended | confidence | as-written member | corrected member |
|---|---|---|---|---|---|---|
| src/user/user.service.ts:98-114 | `update` passes the form as the write's data. The form's field is `intervalCount`, but the user column read elsewhere is `intervalsCount`, so the store rejects the unknown argument | `{intervalCount: 4}`, which the form's rules accept | the interval count is stored in `intervalsCount` | not executed; moderate (the user schema is not visible) | UserService.IntervalCountRejected | UserService.Update |
| src/task/task.service.ts:76-90 | `generateSubtasks` returns its `{name, priority}` objects cast to `string[]` (src/yandexgpt/yandexgpt.service.ts:127-131), and `createMany` puts each object into the `name` column, so Prisma refuses the batch and nothing is written | a task whose reply is the line `Buy milk `, a bar character, ` high` (`TaskService.BuyMilkReply`, `TaskService.BuyMilkBatch`) | one child row per subtask, named by the subtask's name | not executed; high (the type check of the `name` column is Prisma's) | TaskService.BreakdownTaskAsWritten | TaskService.BreakdownTask |
