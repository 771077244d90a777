# Clerk webhook sync and loggers: a Dafny model

This project models the core of a TanStack web-app starter:

- **The `webhooks.clerk` procedure** (`ClerkWebhook`, `webhooks.dfy`).
  - It checks that the webhook secret is configured.
  - It has Svix verify the raw body against the `svix-id`, `svix-timestamp` and `svix-signature` headers.
  - It then mirrors Clerk's `user.created`, `user.updated` and `user.deleted` events into the `users` table.
  - It also pushes the local row id back to Clerk as the user's `externalId`.
  - The handler is a method of class `Server`. The class owns the table (`users: seq<User>`) and a ghost log of the outbound `updateUser` calls (`clerkCalls`).
  - Each database statement is a pure function on the table. It yields the new rows, or is refused with the table left unchanged when the result would break a unique column.
- **The `users` schema** (`Users`, `users.dfy`).
  - It defines the row type and the generated `"user_" + nanoid` primary key.
  - The table invariant says the primary key, `clerk_user_id` and `email` are unique, and every id was generated.
  - NOT NULL holds by construction, since a Dafny string cannot be null. A name may be `""`.
- **The Vite build logger** (`ViteLogger`, `vite_logger.dfy`).
  - `stripAnsi` is modelled as the left-to-right scan that `String.replace` with a global regex performs.
  - `formatLog` takes the timestamp as a parameter.
  - Class `LogFile` holds the shared write queue, the `isWriting` flag and the log file's contents. Its methods are `queueLog`, `flushLogs` and `flushLogsSync`.
  - Class `Logger` is the object `createViteLogger` returns. It has `info`, `warn`, `error` and the one-shot `warnOnce`.
- **The browser logger** (`ClientLogger`, `logger_client.dfy`). This covers the argument-shape dispatch of `createLogFunction`, the development/production switch, and the `levels` tables.

The model follows the code in three places where a reader might expect otherwise:

- A failed Clerk `updateUser` call fails the whole request. There is no `try`/`catch` around it at `apps/web/src/orpc/router/webhooks.ts:76` or `:121`. The row already written stays in the table; it is not rolled back.
- `user.updated` for a Clerk id with no row does not end in a defined no-op or "not found". The UPDATE changes nothing. Then `updatedUser.id` is read on `undefined` at `webhooks.ts:112`, before the guard at `webhooks.ts:117`, so the request fails (`UpdatedUserUndefined`). No Clerk call is made.
- JavaScript truthiness is kept:
  - an empty secret counts as missing;
  - an empty first email address counts as no email;
  - an empty or absent `user.deleted` id fails;
  - on update, an empty or null name leaves the column unchanged;
  - on create, only a null name becomes `""`.

## Model

| member | source | states |
|---|---|---|
| `Users.GenerateId` | packages/db/src/schema/users.ts:5-7 | A generated id starts with "user_" and the rest of it is exactly the nanoid. |
| `ClerkWebhook.Verified` | apps/web/src/orpc/router/webhooks.ts:26-47 | A missing or empty secret yields no event, whatever the delivery. With a non-empty secret the event is exactly what Svix verification returns for that secret, body and headers. |
| `ClerkWebhook.PrimaryEmail` | apps/web/src/orpc/router/webhooks.ts:54-56 | An email is found if and only if there is a first address and it is non-empty. The email found is that first address. |
| `ClerkWebhook.NewUser` | apps/web/src/orpc/router/webhooks.ts:64-69 | The inserted row carries the generated id, the event's Clerk id and the email. Each name is the event's value, or "" when it is null. |
| `ClerkWebhook.Truthy` | apps/web/src/orpc/router/webhooks.ts:105-106 | A name is present if and only if it is given and non-empty, and then it is the given name. |
| `ClerkWebhook.PatchFor` | apps/web/src/orpc/router/webhooks.ts:103-107 | The `set` object always holds the email. It holds a first or last name if and only if the event's value is non-empty, and then it holds that value. |
| `ClerkWebhook.Server.HandleClerk` | apps/web/src/orpc/router/webhooks.ts:22-145 | Secret missing or empty: fails before verification and changes nothing. Verification rejected: fails and changes nothing. Created, updated and deleted events have the effects of their branches. Any other type returns "Event processed" and changes nothing. Only a verified created, updated or deleted event can change the table. The table invariant is kept. |
| `ClerkWebhook.Server.OnCreated` | apps/web/src/orpc/router/webhooks.ts:52-86 | No first email: "No email found", nothing changes. A taken id, Clerk id or email: refused, nothing changes. Otherwise exactly one row is appended: the event's Clerk id, the first email, the names or "" when null. Exactly one `updateUser(clerkId, newId)` call is made. If it fails, the request fails and the row stays. |
| `ClerkWebhook.Server.OnUpdated` | apps/web/src/orpc/router/webhooks.ts:88-127 | No email: fails, nothing changes. No row for the Clerk id: fails on `updatedUser.id`, nothing changes, no Clerk call. Email held by another row: refused, nothing changes. Otherwise the table is the partial update of the old one. Clerk is called only when the row id differs from the Clerk id, and that call's failure fails the request. |
| `ClerkWebhook.Server.OnDeleted` | apps/web/src/orpc/router/webhooks.ts:129-141 | A non-empty id deletes the rows with that Clerk id and succeeds with "User <id> deleted". No id or an empty one: "No user ID found", nothing changes. Never calls Clerk. |
| `ClerkWebhook.Insert` | apps/web/src/orpc/router/webhooks.ts:62-70 | An accepted insert yields the old rows plus the new row, and the result meets every unique constraint. |
| `ClerkWebhook.InsertAcceptedIff` | packages/db/src/schema/users.ts:5-11 | On a table meeting its constraints, an insert is refused if and only if the row's id, Clerk id or email is already present. |
| `ClerkWebhook.DuplicateCreateRejected` | apps/web/src/orpc/router/webhooks.ts:62-70 | After a row for a Clerk id is inserted, a second insert with the same Clerk id is refused, so redelivery cannot create a second row. |
| `ClerkWebhook.UpdateWhere` | apps/web/src/orpc/router/webhooks.ts:101-109 | The update keeps the number of rows. |
| `ClerkWebhook.UpdateWhereAt` | apps/web/src/orpc/router/webhooks.ts:101-109 | Row by row: a row whose Clerk id matches is patched, and every other row is unchanged. |
| `ClerkWebhook.PartialUpdate` | apps/web/src/orpc/router/webhooks.ts:103-108 | The matched row always takes the event's email. It takes a first or last name only when the event's value is non-empty; otherwise it keeps the old one. Its id and Clerk id are untouched, and so is every other row. |
| `ClerkWebhook.UpdateWhereNoMatch` | apps/web/src/orpc/router/webhooks.ts:101-109 | An update for a Clerk id that no row carries leaves the table as it was. |
| `ClerkWebhook.UpdateWhereIdempotent` | apps/web/src/orpc/router/webhooks.ts:101-109 | Applying the same patch twice gives the same rows as applying it once. |
| `ClerkWebhook.Update` | apps/web/src/orpc/router/webhooks.ts:101-109 | An accepted UPDATE yields the patched rows, and they meet every unique constraint. |
| `ClerkWebhook.UpdateAcceptedIff` | packages/db/src/schema/users.ts:8-11 | On a table meeting its constraints, the UPDATE is refused if and only if a row matches and another row already has the new email. |
| `ClerkWebhook.UpdateIdempotent` | apps/web/src/orpc/router/webhooks.ts:101-109 | Replaying an accepted `user.updated` statement is accepted again and yields the same table. |
| `ClerkWebhook.UpdateWhereKeepsKeys` | apps/web/src/orpc/router/webhooks.ts:103-107 | The update never changes a row's id or Clerk id: the `set` object holds only email and names. |
| `ClerkWebhook.UpdateValid` | packages/db/src/schema/users.ts:4-12 | An accepted update keeps the table invariant, including the generated ids. |
| `ClerkWebhook.FirstIndexOf` | apps/web/src/orpc/router/webhooks.ts:101-109 | It finds a row if and only if some row carries the Clerk id. The row found carries that id, and none before it does. This is the row `.returning()` reports first. |
| `ClerkWebhook.UpdateKeepsPosition` | apps/web/src/orpc/router/webhooks.ts:109-117 | The returned row sits at the same position before and after the update, so its id is the one the row had. |
| `ClerkWebhook.DeleteWhere` | apps/web/src/orpc/router/webhooks.ts:133 | The delete never adds rows. |
| `ClerkWebhook.DeleteWhereMembers` | apps/web/src/orpc/router/webhooks.ts:133 | A row survives the delete if and only if it was in the table and its Clerk id differs from the one deleted. |
| `ClerkWebhook.DeleteWhereAbsent` | apps/web/src/orpc/router/webhooks.ts:132-136 | Deleting a Clerk id that no row carries changes nothing. |
| `ClerkWebhook.DeleteWhereCount` | packages/db/src/schema/users.ts:8 | With unique Clerk ids, the delete removes exactly one row when the id is present and none otherwise. |
| `ClerkWebhook.DeleteWhereValid` | packages/db/src/schema/users.ts:4-12 | The delete keeps the table invariant. |
| `ViteLogger.ParamRun` | apps/web/vite-logger.ts:65 | It returns the length of the longest run of `[0-9;]` characters at the head of the string. |
| `ViteLogger.MatchAt` | apps/web/vite-logger.ts:65 | A reported match is a whole `ESC [ [0-9;]* m` run at the head of the string. |
| `ViteLogger.MatchAtComplete` | apps/web/vite-logger.ts:65 | Whenever a prefix is such a run, it is the match reported. The regex therefore matches there if and only if the scan says so, and the match length is unique. |
| `ViteLogger.StripAnsi` | apps/web/vite-logger.ts:62-66 | The output is never longer than the input. |
| `ViteLogger.StripAnsiNoEscape` | apps/web/vite-logger.ts:62-66 | A string without an ESC character comes back unchanged. |
| `ViteLogger.StripAnsiChars` | apps/web/vite-logger.ts:65 | Every character of the output occurs in the input. |
| `ViteLogger.StripAnsiDeletesWholeRuns` | apps/web/vite-logger.ts:65 | The input splits into kept characters and whole `ESC [ [0-9;]* m` runs. The output is exactly the kept characters, in order. No character is kept where a run begins, so every run the scan meets is removed. |
| `ViteLogger.StripAnsiRemovesRun` | apps/web/vite-logger.ts:65 | A whole run at the head of the input is removed, and the rest is stripped as if the run were not there. |
| `ViteLogger.StripAnsiKeepsPlainText` | apps/web/vite-logger.ts:65 | ESC-free text at the head of the input is kept unchanged, followed by the stripped rest. |
| `ViteLogger.StripAnsiRemovesEveryRun` | apps/web/vite-logger.ts:61-66 | ESC-free text pieces with a colour code after each come back as the text pieces alone, joined in order: every code is stripped and all text is kept. |
| `ViteLogger.SinglePassNotIdempotent` | apps/web/vite-logger.ts:65 | One pass is not idempotent: `ESC ESC [ m [ m` becomes `ESC [ m`, and a second pass gives `""`. |
| `ViteLogger.ToUpper` | apps/web/vite-logger.ts:78 | Upper-casing keeps the length and maps each character to its upper-case form. |
| `ViteLogger.LevelTags` | apps/web/vite-logger.ts:78 | The tags written are INFO, WARN and ERROR. |
| `ViteLogger.FormatLog` | apps/web/vite-logger.ts:75-79 | The entry is `[timestamp]`, then ` [`, then the upper-cased level name, and it ends with the message, with colour codes removed, and a newline. Its length is that of its parts plus the seven fixed characters. |
| `ViteLogger.FormatLogOneLine` | apps/web/vite-logger.ts:75-79 | A log entry starts with `[timestamp]`. Given a timestamp and message without a newline, the entry ends with its only newline. The message, with colour codes removed, sits right before that newline. |
| `ViteLogger.ErrorText` | apps/web/vite-logger.ts:99 | The text always begins with the message. It is the message alone if and only if no error is given. With an error, a newline follows the message, then the error's stack, or "undefined" when the error has no stack. |
| `ViteLogger.JoinAppend` | apps/web/vite-logger.ts:49 | Joining two batches in turn writes the same text as joining them together, so successive flushes keep entry order. |
| `ViteLogger.JoinLength` | apps/web/vite-logger.ts:130 | The joined text is as long as all entries together: nothing is dropped or added. |
| `ViteLogger.LogFile.constructor` | apps/web/vite-logger.ts:24-25 | The queue starts empty and no write is in progress. The file keeps whatever an earlier run left in it. |
| `ViteLogger.LogFile.Clear` | apps/web/vite-logger.ts:28-38 | The file is emptied when the write succeeds and left as it was otherwise. |
| `ViteLogger.LogFile.QueueLog` | apps/web/vite-logger.ts:69-72 | The entry is appended at the back of the queue, and the earlier entries keep their order. |
| `ViteLogger.LogFile.FlushLogs` | apps/web/vite-logger.ts:41-59 | Nothing happens while a write is in progress or when the queue is empty. Otherwise the queue is emptied and its entries, joined in order, are appended to the file. A failed append loses that batch. |
| `ViteLogger.LogFile.FlushLogsSync` | apps/web/vite-logger.ts:127-137 | It appends the joined queue and empties it only when the append succeeds. An empty queue or a failed append changes nothing. |
| `ViteLogger.Logger.constructor` | apps/web/vite-logger.ts:82-124 | The logger starts without a warning given. The log file is emptied when the clearing write succeeds and keeps its old contents when it fails. The queue and the `isWriting` flag are untouched. |
| `ViteLogger.Logger.Info` | apps/web/vite-logger.ts:86-90 | The raw message goes to the console, and the formatted INFO line goes to the back of the queue. |
| `ViteLogger.Logger.Warn` | apps/web/vite-logger.ts:92-96 | The raw message goes to the console, and the formatted WARN line goes to the back of the queue. |
| `ViteLogger.Logger.Error` | apps/web/vite-logger.ts:98-104 | The queued entry is `msg + "\n" + stack` when an error is given and `msg` otherwise. The console gets the message, then the error. |
| `ViteLogger.Logger.WarnOnce` | apps/web/vite-logger.ts:114-120 | The first call warns once and sets `hasWarned`. Every later call changes nothing. Over any sequence of calls, at most one warning comes from `warnOnce`. |
| `ClientLogger.LogArgs` | apps/web/src/lib/logger/logger.client.ts:33-53 | It logs if and only if in development and the first argument is a string or a non-null object. A string is logged alone. An object followed by a string is logged as (string, object). An object followed by anything else is logged alone. |
| `ClientLogger.LogArgsFirstTwo` | apps/web/src/lib/logger/logger.client.ts:38 | Only the first two arguments matter. |
| `ClientLogger.StringFirstLoggedAlone` | apps/web/src/lib/logger/logger.client.ts:40-42 | A string first argument is logged alone, whatever follows it. |
| `ClientLogger.ConsoleMethodOf` | apps/web/src/lib/logger/logger.client.ts:59-64 | `error` and `fatal` both go to `console.error`. Each other level has a console method of its own: trace to `console.trace`, debug to `console.log`, info to `console.info`, warn to `console.warn`. |
| `ClientLogger.Log` | apps/web/src/lib/logger/logger.client.ts:57-64 | Outside development every log method is a no-op. In development the call goes to the level's console method, with the arguments `LogArgs` chooses. |
| `ClientLogger.LabelsInvertValues` | apps/web/src/lib/logger/logger.client.ts:72-89 | `levels.values` has one key per level name, and `levels.labels` is its inverse in both directions. |
| `ClientLogger.ValuesIncrease` | apps/web/src/lib/logger/logger.client.ts:73-80 | The values strictly increase in the order trace < debug < info < warn < error < fatal. |
| `ClientLogger.ChildIsSameLogger` | apps/web/src/lib/logger/logger.client.ts:70-92 | `child()` is the same logger and logs the same way. `isLevelEnabled` returns the development flag whatever the level. It is true exactly when `level` is not "silent". |

## Left out

- Svix signature verification (`wh.verify`) is a foreign HMAC library. It is the parameter `verify`, a function from the secret, the raw body and the three headers to an event or a rejection. Replay windows and timing are not modelled.
- Clerk's `updateUser` is a network call. The model records each attempted call in the ghost `clerkCalls` and takes its outcome as the parameter `clerkSucceeds`. `CLERK_SECRET_KEY` is not modelled.
- The random part of a new id (`nanoid`) is a parameter. A collision with an existing id is refused like any other unique violation.
- SQLite and Drizzle are modelled as an in-memory sequence of rows:
  - row order carries no meaning;
  - the model does not say which unique column SQLite names in its error;
  - the statement's atomicity is assumed.
- The server logger calls inside the handler (`logger.info`, `logger.error`) change no state and are not modelled. `apps/web/src/lib/logger/logger.server.ts` is not part of this model.
- oRPC/zod input parsing is left out; the model takes the three header strings as given.
- Vite logger scheduling (`setImmediate`, `fs.promises.appendFile`, `process.on` handlers) is left out:
  - each flush is one atomic step, so `isWriting` is never seen set between steps;
  - the re-flush that `flushLogs` schedules is not modelled, and neither is the flush that `queueLog` schedules: a caller runs `FlushLogs`;
  - file-system failures are boolean parameters.
- The rest of the Vite logger is also left out:
  - creating the log directory;
  - the console side of failures;
  - `clearScreen` (only `console.clear`);
  - `hasErrorLogged`, which always returns false.
- `ViteLogger.ToUpper`: upper-cases ASCII letters only, not all of Unicode. `toUpperCase` is applied to the fixed lower-case level names, so this changes nothing.
- Client logger: `silent`, `bindings`, `flush` and `version` are constants or no-ops and are not modelled. A JavaScript number is a `real`.
- Configuration, authentication and UI are not part of this model: `env.ts`, `auth.ts`, `auth-client.ts`, `vite.config.ts`, the database bootstrap files, and the route and component files.
