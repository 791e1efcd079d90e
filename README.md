# Valentine chat and login gate — a Dafny model

This project models the three pieces of sequential logic in the Valentine-special
app:

- **The socket relay** (`server/index.ts`). A new socket gets a history window of stored
  messages. An incoming message is normalised (`text || null`, `imageUrl || null`), written
  to the `Message` table, and only then emitted to every connected socket, the sender
  included. `/api/upload` checks that a file was sent and stores it as `<timestamp>-<name>`.
  Module `Relay`, class `Relay.Server`.
- **The chat view** (`components/Chat.tsx`). It loads the history window. Realtime INSERTs
  are merged into the list, de-duplicated by `id`. The view also holds the send guard, the
  image-upload flow and the case-insensitive "is this my message" test. Module
  `ChatClient`, class `ChatClient.ChatView`. This view talks to the Supabase table directly,
  not through the socket relay. Both read and write the same `Message` table.
- **The login gate** (`App.tsx`). `handleLogin` checks the credentials, counts failed
  attempts and picks a hint. The navigation buttons pick the active tab. Module `App`,
  class `App.AppState`.

Shared modules:

- `Messages`: the `Message` record, the ordered table and the history windows.
- `Naming`: the `<timestamp>-<name>` object names and their decimal round trip.
- `Text`: ASCII `trim()` and `toLowerCase()`.
- `Options`: the nullable value.

The database table is a sequence of rows in creation order. The store assigns `id` by
auto-increment and `createdAt` from its clock. So that sequence ascends in `id` and never
goes back in `createdAt` (`Messages.StoreOrdered`). The model takes `ORDER BY createdAt ASC`
to leave that sequence as it is (see "Left out" for rows with equal timestamps). The store-assigned fields, whether a write, query or upload succeeds, and
`Date.now()` are all parameters.

Behaviour as written that a reader might not expect:

- History is the oldest 50 messages, not the newest (see Findings).
- A failed write is only logged. The sender gets no error back.
- The disconnect handler only logs. No connection registry with unregister logic is modelled.
- A message with neither text nor image is accepted.

## Model

| member | source | states |
|---|---|---|
| `Text.Trim` | App.tsx:29 | the result is a slice of the input with only whitespace cut off before and after it; it has no whitespace at either end, and it is empty exactly when the input is all whitespace |
| `Text.TrimIgnoresPadding` | App.tsx:29 | whitespace added on either side does not change the result of `trim()` |
| `Text.TrimIdempotent` | components/Chat.tsx:80-84 | the text `sendMessage` inserts is already in trimmed form: trimming it again changes nothing |
| `Text.ToLower` | App.tsx:29 | lower-casing keeps the length and maps each character through ASCII lower-casing |
| `Text.LowerForgetsCase` | components/Chat.tsx:159 | lower-casing an upper-cased string gives the same result as lower-casing the original |
| `Naming.DecimalString` | server/index.ts:33 | the printed timestamp is a non-empty run of digits with no leading zero |
| `Naming.FileName` | server/index.ts:33 | the stored name `<now>-<name>`: its first dash is the one right after the timestamp, and everything before it is digits, whatever dashes `name` holds |
| `Naming.DecimalRoundTrip` | server/index.ts:33 | reading back the printed timestamp gives the timestamp |
| `Naming.FileNameRoundTrip` | server/index.ts:33 | splitting `<now>-<name>` at its first dash gives back the timestamp numeral and the original name, even when the name contains dashes |
| `Naming.FileNameInjective` | components/Chat.tsx:97 | two uploads with a different timestamp or a different name never get the same object name |
| `Messages.OldestWindow` | server/index.ts:64-67 | the history query as written: the first min(50, n) rows, in store order, ascending when the store is |
| `Messages.OldestIsEarliest` | server/index.ts:64-67 | on an ordered store every message in the window as written is no later than every message left out of it |
| `Messages.LatestWindow` | server/index.ts:62 | the window the comment asks for: the last min(50, n) rows, oldest first |
| `Messages.OldestWindowMissesNewest` | server/index.ts:62-67 | once the store holds more than 50 messages, the newest one is not in the history sent |
| `Messages.LatestWindowHasNewest` | server/index.ts:62 | the corrected window always holds the newest message |
| `Messages.WindowsAgreeIffSmall` | server/index.ts:62-67 | the two windows are equal exactly when the store holds at most 50 messages |
| `Messages.SixtyMessagesHistory` | server/index.ts:62-68 | with 60 stored messages the history holds ids 1–50, where the intended window holds ids 11–60 |
| `Relay.OrNull` | server/index.ts:78-79 | a stored field is null exactly when the incoming field is absent or empty; otherwise it is the incoming text, which is then non-empty |
| `Relay.Normalise` | server/index.ts:76-82 | the written row carries the store's id and timestamp, the normalised text and image, and the sender unchanged |
| `Relay.EmitAll` | server/index.ts:83 | `io.emit` keeps the set of connected sockets, and each socket's inbox grows by exactly one event, which is the emitted one |
| `Relay.EmitAllReachesEverySocket` | server/index.ts:83 | a broadcast reaches every connected socket and no other, once each, appended after what that socket had already received |
| `Relay.EmptyMessageIsNotRejected` | server/index.ts:74-83 | a payload whose text and image are each absent or empty becomes a row with both fields null under the store's id, which is still written |
| `Relay.Server.Connect` | server/index.ts:59-74 | only the new socket gets the `init` history (the oldest-50 window), and the store is unchanged; when loading history fails, the socket is still connected but has received nothing |
| `Relay.Server.OnMessage` | server/index.ts:74-87 | on success the normalised row is appended to the store, then emitted once to every socket including the sender; on failure neither the store nor any inbox changes; the store stays ordered |
| `Relay.Server.InsertedElsewhere` | components/Chat.tsx:83-86 | a row another client writes to the `Message` table is stored after the last row, and no socket's inbox changes: the server emits nothing for it |
| `Relay.Upload` | server/index.ts:25-56 | no file gives 400 'No file provided' and no storage call; otherwise the file is stored as `<now>-<originalname>` and the reply is 200 with the URL, 500 with the storage error's message, or 500 'Upload failed'; the status is 200 exactly when a file was sent and stored |
| `Relay.UploadKeepsOriginalName` | server/index.ts:33-39 | the name handed to storage splits back into the timestamp and the original file name |
| `Relay.HelloScenario` | server/index.ts:59-87 | two sockets connect to an empty store; one sends "hi" as "shfq"; both receive `{id 1, text "hi", imageUrl null, sender "shfq"}` after an empty history |
| `ChatClient.HasId` | components/Chat.tsx:63 | true exactly when some message in the list has the id |
| `ChatClient.Merge` | components/Chat.tsx:61-65 | the de-duplicating updater: the list keeps every earlier entry in place, grows by at most one, and afterwards holds the message's id |
| `ChatClient.MergeKnownId` | components/Chat.tsx:61-63 | a message whose id is already in the list leaves the list unchanged |
| `ChatClient.MergeNewId` | components/Chat.tsx:64 | a message with a new id is appended at the end: the length grows by one and every earlier entry stays in place |
| `ChatClient.MergeKeepsAndContains` | components/Chat.tsx:61-65 | after a merge the id is present and the old list is a prefix of the new one |
| `ChatClient.MergeIdempotent` | components/Chat.tsx:61-65 | merging the same message twice gives the same list as merging it once |
| `ChatClient.MergeKeepsIdsDistinct` | components/Chat.tsx:61-65 | if ids are pairwise distinct before a merge, they are pairwise distinct after it |
| `ChatClient.IsMine` | components/Chat.tsx:159 | a message is mine exactly when its sender has the same length as `userName` and matches it character by character, ignoring ASCII case |
| `ChatClient.IsMineDependsOnlyOnLowerCase` | components/Chat.tsx:159 | two senders whose lower-cased forms are equal are both mine or both not |
| `ChatClient.IsMineIgnoresCase` | components/Chat.tsx:159 | writing the sender in capitals does not change whether the message is mine |
| `ChatClient.SendDisabled` | components/Chat.tsx:235 | the send button is disabled exactly when the input is all whitespace |
| `ChatClient.ChatView.constructor` | components/Chat.tsx:24-26 | the view starts with an empty list, empty input and not uploading |
| `ChatClient.ChatView.EditInput` | components/Chat.tsx:228 | typing sets `input` and changes nothing else |
| `ChatClient.ChatView.LoadMessages` | components/Chat.tsx:36-49 | when data comes back, it replaces the whole list with the oldest-50 window, at most 50 messages, ascending; on error the list is unchanged; ids stay distinct |
| `ChatClient.ChatView.OnInsert` | components/Chat.tsx:59-66 | a realtime insert sets the list to the de-duplicating merge and keeps the ids distinct |
| `ChatClient.ChatView.SendMessage` | components/Chat.tsx:78-89 | blank input inserts nothing and leaves `input` unchanged; otherwise it inserts `{text: trimmed input, sender: userName}` and clears `input`; the list itself is untouched |
| `ChatClient.ChatView.HandleImageUpload` | components/Chat.tsx:91-121 | no file changes nothing; otherwise one upload named `<now>-<name>` is made and `isUploading` is false at the end; an image row is inserted exactly when the upload succeeded |
| `App.AfterFailure` | App.tsx:41-55 | one more failure takes a counter n < 5 to n + 1 and a counter at 5 back to 0, so the counter stays within 0..5 |
| `App.FailureMessage` | App.tsx:46-55 | a failure that finds the counter at n < 5 shows hint n+1; at 5 it shows "Take a breath…" |
| `App.CounterAfter` | App.tsx:41-55 | after any number of failures the counter is at most 5 |
| `App.CounterIsFailuresModSix` | App.tsx:41-55 | after k failures from a fresh page the counter is k mod 6 |
| `App.HintsArePeriodic` | App.tsx:41-55 | six more failures give the same counter and the same message: the hints repeat with period 6 |
| `App.SixthFailureResets` | App.tsx:52-54 | on a fresh page the sixth failure shows "Take a breath…" and the counter returns to 0 |
| `App.PaddedPasswordFails` | App.tsx:29 | the password is compared exactly, so " 301220" is rejected whatever the name |
| `App.NameIgnoresCaseAndPadding` | App.tsx:29 | capitals and surrounding whitespace in the name do not change the login verdict |
| `App.CredentialsOk` | App.tsx:26-29 | the login test; it never passes a blank name, nor any password but exactly 301220 |
| `App.CredentialsOkIffListed` | App.tsx:26-29 | login succeeds exactly when the lower-cased name, without surrounding whitespace, is one of shfq, sfq, shafaque, shafq and the password is exactly 301220 |
| `App.AppState.constructor` | App.tsx:13-21 | initial state: empty name and password, Home tab, counter 0, no error, not shaking, no welcome |
| `App.AppState.EditUserName` | App.tsx:85 | typing a name sets `userName` only |
| `App.AppState.EditPassword` | App.tsx:97 | typing a password sets `password` only |
| `App.AppState.HandleLogin` | App.tsx:25-57 | on success `showWelcome` becomes true and the counter, message and shake are unchanged; on failure the card shakes, the counter steps as `AfterFailure` and the message is `FailureMessage` of the old counter; 0 ≤ counter ≤ 5 is kept |
| `App.ExactlyOneTabActive` | App.tsx:207-225 | of the four navigation buttons (Home, Letter, Gallery, Chat), exactly one is drawn active in every state: the one whose tab is `activeTab` |
| `App.AppState.SelectTab` | App.tsx:206-229 | a navigation button makes its own tab the active one, and no other tab is active |
| `App.SixWrongLogins` | App.tsx:41-55 | six wrong logins in a row on a fresh page leave the counter at 0, showing "Take a breath…" |

## Findings

| source | as written | input that shows it | evidently intended | confidence | as-written member | corrected member |
|---|---|---|---|---|---|---|
| server/index.ts:62-67 | `orderBy createdAt asc, take 50` sends the OLDEST 50 messages; the same query is at components/Chat.tsx:38-42 | a store holding 60 messages with ids 1..60: the history is ids 1–50 and never includes message 60 | "the last 50 messages": ids 11–60, oldest first | not executed; high | `Messages.SixtyMessagesHistory` (with `Messages.OldestWindow`, `Messages.OldestWindowMissesNewest`) | `Messages.LatestWindow` (with `Messages.LatestWindowHasNewest`, `Messages.WindowsAgreeIffSmall`) |

`Relay.Server.Connect` and `ChatClient.ChatView.LoadMessages` keep the window as written
(`Messages.OldestWindow`), because that is what the two handlers send. The corrected
`Messages.LatestWindow` and its properties are proved beside it.

## Left out

- `Relay.Server.OnMessage` and `Relay.Server.InsertedElsewhere`: assume the store-assigned `id` and `createdAt` of a new row are
  greater than (or, for `createdAt`, not before) those of the last row. This stands for the
  database's auto-increment and clock. The database schema is not part of this model.
- `Messages.OldestWindow`: takes rows with equal `createdAt` to come back in `id` order, so
  the window is the first 50 rows of the store. Neither query adds an `id` tie-break, and the
  database does not promise an order for equal keys. When rows 50 and 51 share a timestamp, the
  real query may return a different set. `Messages.OldestIsEarliest` states only what holds
  either way: the window holds the earliest timestamps.
- `ChatClient.ChatView.LoadMessages`: assumes the table it queries is ordered as
  `Messages.StoreOrdered` says, for the same reason.
- Unicode: `trim()` and `toLowerCase()` are modelled on ASCII only. Trimming removes space,
  tab, LF, CR, VT and FF. Lower-casing maps only 'A'..'Z'.
- Timers: the 3000 ms delay before `isStarted`, the 500 ms shake reset, and the 100 ms
  scroll. `Date.now()` is a parameter.
- Connection status: `isConnected` from the realtime subscription status. It only drives
  the header indicator.
- Transports: socket.io, Prisma, Supabase (client, storage, realtime), express, multer
  and CORS. They are replaced by the `rows` and `inboxes` fields, and by
  success/failure parameters.
- Asynchrony: handlers are modelled as atomic steps. Interleavings are not modelled, such
  as a broadcast reaching a socket before its `init`. Per-socket delivery failures are not
  modelled either.
- Disconnect: the `disconnect` handler only logs. Removing the socket from socket.io's own
  set is library behaviour, not part of this source.
- `getPublicUrl`: the public URL is part of the storage outcome parameter. It is not built
  from the bucket name.
- Insert errors in the chat view: the insert request is recorded in `inserts` whatever
  Supabase answers. The source only logs the answer.
- Clearing the hidden file input after an upload (`fileInputRef.current.value = ''`) is a
  DOM side effect and is not modelled.
- Presentation: JSX rendering, framer-motion, confetti, scrolling, `formatTime`, the
  password visibility toggle, `Scene3D`, `FloatingHearts`, `Gallery`, `LoveLetter` and the
  Gemini call in `services/gemini.ts`.
