# Chat-Anwendung: the event stream and its store reads, in Dafny

The chat backend pushes new messages to each connected browser over
Server-Sent Events. `HandleEvents` (handler.go) opens a stream, and it keeps a
cursor: the timestamp of the newest message it has fetched, which starts at
Go's zero time. In a loop, it:

- checks whether the client went away;
- asks the store for every message newer than the cursor (`GetMessagesSince`
  in dbconnect.go);
- moves the cursor to the last message's timestamp;
- writes one `data: <json>\n\n` event per message, sleeps one second, and
  starts again.

A failed store read ends the stream with an error text.

This project models that loop and the store functions it depends on, and
proves what they promise.

- **Structs** (structs.dfy): the `Message` record, with timestamps as
  integers and `ZeroTime` for Go's zero `time.Time`. It also defines the two
  timestamp orders.
- **DbConnect** (dbconnect.dfy): the `messages` table as a sequence in
  insertion order.
  - The SQL engine's `WHERE timestamp > $1` and `ORDER BY timestamp` are
    functions (`Newer`, `SortByTime`, `SelectSince`, `SelectAll`).
  - The driver's `rows.Next()`/`rows.Scan` loop is a method (`CollectRows`).
    A `Fault` value says where the driver fails.
  - `GetMessagesSince` and `GetMessages` are proved against the query
    functions. They use the row loop with the iteration error checked (see
    "Findings"); `GetMessagesSinceAsWritten` is the read exactly as
    dbconnect.go writes it.
  - `GetUsernameByID` and `InsertMessage` are functions over a users map and
    over the store.
- **EventStream** (eventstream.dfy): the event-stream format of section 9.2
  of the WHATWG HTML Living Standard. It covers the frame the server writes
  and the way a receiving `EventSource` reads data fields back
  (section 9.2.6). It is the independent reference against which the
  handler's framing is proved: a client reads back exactly the JSON texts, in
  order.
- **Handler** (handler.dfy): one loop iteration, specified as the function
  `Iterate` on a `Session` value. A run of iterations is `Replay`.
  - `StreamSession` is the handler's per-connection state as a class, with
    the fields `cursor`, `out`, `status` and `open` and the response
    `headers`.
  - Its `Step` and `Run` methods are proved equal to `Iterate` and `Replay`.
  - The loop's properties are lemmas about `Iterate` and `Replay`:
    - the cursor never moves back;
    - a non-empty batch moves it strictly forward;
    - rows are fetched at most once, and in timestamp order;
    - an empty poll is a no-op;
    - cancellation and store errors end the loop;
    - no message read is left behind, while new rows are stamped by a
      clock that only moves forward;
    - with no store fault and no dropped write, the client reads every
      fetched row once, in the order fetched.
  - Two ghost fields carry the invariant: the sequence of messages fetched so
    far, and the store as last read.

The JSON encoder (`json.Marshal`'s string quoting) and RFC 3339 date
formatting (section 5.6 of RFC 3339) are given to a session as functions in
an `Encoding`. Framing is proved under the one property relied on, that
quoting never yields a raw line break.

The model follows the code as written, also where it departs from the usual
design of such a loop. The one exception is the row loop of the store reads,
which the handler model uses in corrected form; "Findings" gives both
versions.

- The cursor moves to the batch's last timestamp before any event is written,
  not after the batch is pushed.
- A failed write or marshal is ignored and the loop goes on. It does not end
  the session.
- A store error after events were sent cannot change the status. The `200`
  is already out, and the error text lands in the event stream as raw body
  bytes.
- The one-second sleep is not interrupted by a disconnect. Cancellation is
  only seen at the top of an iteration.

## Model

| member | source | states |
|---|---|---|
| `Structs.ReverseAscending` | dbconnect.go:51 | reversing a list in ascending timestamp order gives descending order, as `ORDER BY timestamp DESC` yields |
| `DbConnect.Newer` | dbconnect.go:71 | `WHERE timestamp > $1` keeps a message iff it is stored and strictly newer than the bound; equal timestamps are excluded |
| `DbConnect.NewerCount` | dbconnect.go:71 | the filter keeps every copy of a newer row and no copy of any other row |
| `DbConnect.SortByTime` | dbconnect.go:71 | `ORDER BY timestamp` yields the same rows (as a multiset) in non-decreasing timestamp order |
| `DbConnect.SortByTimeKeepsAscending` | dbconnect.go:71 | rows already in timestamp order come back from the sort unchanged |
| `DbConnect.SelectSince` | dbconnect.go:71 | the query of `GetMessagesSince` returns rows in ascending timestamp order, and a message is among them iff it is stored with a timestamp after the bound |
| `DbConnect.SelectSinceCount` | dbconnect.go:71 | that query returns each newer stored row exactly as often as it is stored, so nothing is duplicated or dropped |
| `DbConnect.SelectAll` | dbconnect.go:51 | the query of `GetMessages` returns every stored row (as a multiset), newest first |
| `DbConnect.CollectRows` | dbconnect.go:78-87 | the row loop returns the rows in the order the query yields them, or an error and no partial list when a scan or the iteration fails; an empty result is an empty list and no error |
| `DbConnect.CollectRowsAsWritten` | dbconnect.go:78-87 | as written, without `rows.Err()`: an iteration failure before row k returns the first k rows as a success, and a scan failure returns an error |
| `DbConnect.GetMessagesSince` | dbconnect.go:70-88 | succeeds iff the driver does not fail; on success returns exactly the stored messages newer than `t`, oldest first; a failed query or scan gives its error and no list |
| `DbConnect.GetMessagesSinceAsWritten` | dbconnect.go:70-88 | the read as written: a failed query or scan gives its error, an iteration failure before row k returns the first k rows of the poll as a success, and any success is a leading part of the poll |
| `DbConnect.GetMessages` | dbconnect.go:50-68 | succeeds iff the driver does not fail; on success returns every stored message, newest first |
| `DbConnect.GetUsernameByID` | dbconnect.go:119-127 | never fails: the stored name when the user exists, the placeholder `Unbekannt` otherwise |
| `DbConnect.InsertMessage` | dbconnect.go:42-47 | appends one message carrying the clock value, not the argument's own timestamp; leaves the store's earlier rows unchanged; an exec failure gives an error |
| `DbConnect.FirstPollReturnsHistory` | handler.go:64-73 | from the zero-time cursor the first poll returns the whole stored history (as a multiset) when every timestamp is after the zero time |
| `DbConnect.FirstPollOfOrderedHistory` | dbconnect.go:71 | a history stored in timestamp order, with every timestamp after the zero time, comes back from the first poll whole and in stored order |
| `DbConnect.SelectSinceOfOrderedStore` | dbconnect.go:71 | on a store in timestamp order the query is an order-preserving filter |
| `DbConnect.EmptyPollIffNothingNewer` | dbconnect.go:71 | a poll is empty iff no stored message is newer than the cursor |
| `DbConnect.InsertAfterCursorIsPolled` | dbconnect.go:44-45 | a message inserted with a clock value after the cursor is in the next poll |
| `DbConnect.InsertAtOrBeforeCursorIsNeverPolled` | dbconnect.go:44-45 | a message inserted with a clock value at or before the cursor is never returned from that cursor or any later one |
| `EventStream.Frame` | handler.go:92 | a frame is one field line holding the payload, followed by the blank line that ends the event; the field line has no line break when the payload has none |
| `EventStream.ParseFrame` | handler.go:92 | an event-stream reader reads exactly the payload back from one `data: <payload>\n\n` frame and returns to its start state |
| `EventStream.ParseFrames` | handler.go:83-92 | a reader reads back every payload, in order, from a run of frames |
| `Handler.Commit` | handler.go:76 | the first status sent sticks: once a status is out, a later one does not replace it |
| `Handler.EventJson` | handler.go:84-90 | the event's JSON object (content, RFC 3339 time, sender name from `GetUsernameByID`) holds no raw line break when the quoting never emits one |
| `Handler.EventJsons` | handler.go:83-90 | the `json.Marshal` of each message in the `range` loop: one JSON text per message, in batch order, each that message's event JSON |
| `Handler.JsonObject` | handler.go:84-90 | the marshalled map is a brace-delimited object that stays on one line when its three values do |
| `Handler.EventFrame` | handler.go:92 | a client reads one message's frame as exactly one event whose data is that message's JSON |
| `Handler.MissingSenderEventJson` | dbconnect.go:122-124 | a message whose sender has no row still gets its JSON, with the quoted placeholder `Unbekannt` as the user name |
| `Handler.ClientReadsSenderNames` | handler.go:83-92 | a client reading a batch's frames gets one event per message; the event of message i names its sender's stored name, or the placeholder when the sender has no row |
| `Handler.EventFrames` | handler.go:83-92 | one frame per message of the batch, in batch order, each `data: <json>\n\n` |
| `Handler.Written` | handler.go:92 | the frames that reach the client when the ignored `fmt.Fprintf` error is abstracted as a whole iteration's writes being dropped: none when writes fail, otherwise one frame per message in batch order |
| `Handler.ClientReadsBatch` | handler.go:83-92 | a client reading a batch's frames receives one event per message, in batch order, whose data is that message's JSON |
| `Handler.NextCursor` | handler.go:81-82 | the cursor after a successful poll: unchanged when the batch is empty, otherwise the last message's timestamp, which is at least every timestamp of an ascending batch |
| `Handler.CursorAdvances` | handler.go:81-82 | a non-empty batch's last timestamp is after the cursor and is the newest in the batch |
| `Handler.NoRedelivery` | handler.go:82 | once the cursor reaches a batch's last timestamp, no message of that batch comes back from a later poll on any later store |
| `Handler.FetchBound` | handler.go:73-82 | what was fetched up to the cursor plus the next poll never exceeds the store: each stored row is fetched at most as often as stored |
| `Handler.PollFails` | handler.go:73-74 | the store read fails only when the driver faults, and always when the query itself fails |
| `Handler.PollKeepsConsistent` | handler.go:73-82 | a successful poll on a store that only grew keeps the invariant: the cursor is the newest timestamp fetched, rows are fetched in timestamp order, nothing is fetched more often than stored; the cursor moves strictly forward iff the batch is non-empty |
| `Handler.PartialPollKeepsConsistent` | handler.go:81-82 | fetching only the leading rows of a poll, as a read cut short does, still keeps the session invariant |
| `Handler.Received` | handler.go:81-97 | a successful poll keeps the loop going, adds one body write per message unless writes fail, commits a status when the batch is non-empty, and changes neither cursor nor status when it is empty |
| `Handler.Iterate` | handler.go:66-101 | one iteration: the cursor never moves back, the body and the fetched messages only grow, and the loop goes on iff there was no cancellation and no store error |
| `Handler.IterateKeepsConsistent` | handler.go:66-101 | every iteration on a growing store keeps the session invariant |
| `Handler.CancelledIterationOnlyCloses` | handler.go:67-70 | a cancelled iteration queries and writes nothing; only the loop ends |
| `Handler.FailedPollWritesNoEvent` | handler.go:74-78 | a store error ends the loop with at most the error text written: no event, cursor unchanged, status 500 unless one was already sent |
| `Handler.EmptyPollIsNoop` | handler.go:81-100 | with nothing newer than the cursor the iteration writes nothing and leaves cursor and status unchanged |
| `Handler.NonEmptyPollAdvancesCursor` | handler.go:81-82 | a non-empty batch moves the cursor strictly forward, to the batch's last timestamp, and commits status 200 unless one was already sent |
| `Handler.FetchedNeverPolledAgain` | handler.go:73-82 | at-most-once fetching: no message fetched so far comes back from a poll from the current cursor, whatever the store holds by then |
| `Handler.ClientReadsIteration` | handler.go:81-97 | what the client reads from one successful iteration's writes is the JSON of each fetched message, in order |
| `Handler.NoMessageSkipped` | handler.go:73-82 | when every row already read at or before the cursor was fetched and every new row carries a timestamp after the cursor, every stored message is either fetched already or in the next poll |
| `Handler.IterateKeepsNoneSkipped` | handler.go:66-101 | an iteration leaves no message read behind, provided the rows added since the last read are stamped after the cursor |
| `Handler.ReplayKeepsNoneSkipped` | handler.go:66-102 | over any run on a growing store whose new rows are stamped by a clock that only moves forward, every message read at or before the cursor has been fetched (its write may still have been dropped; see `Handler.Written` under "Left out") |
| `Handler.Opened` | handler.go:64 | a freshly opened stream has sent nothing, has no status yet, keeps looping, and satisfies both session invariants |
| `Handler.HistoryScenario` | handler.go:64-100 | a fresh session on an ordered history sends all of it in order with status 200 and sets the cursor to the newest timestamp; the next poll sends nothing; a cancellation then ends the loop |
| `Handler.FirstPollSendsHistory` | handler.go:64-97 | from the zero-time cursor the first iteration writes the frames of the whole ordered history |
| `Handler.SecondPollSendsNothing` | handler.go:73-81 | once the cursor is at the newest timestamp, the next poll on the same store changes nothing |
| `Handler.ReplayKeepsConsistent` | handler.go:66-102 | over any run of iterations on a growing store, the session invariant (at-most-once, in-order fetching, cursor = newest fetched) holds |
| `Handler.Replay` | handler.go:66-102 | the loop over a run of iterations, stopping at the first that ends it: the cursor never moves back and the body and the fetched messages only grow |
| `Handler.IterateWritesFetched` | handler.go:81-92 | an iteration whose store read does not fault and whose writes all succeed writes the frame of every row it fetches: a body holding the frames of the rows fetched before still holds exactly the frames of the rows fetched |
| `Handler.ReplayWritesFetched` | handler.go:66-102 | over a run of such iterations, the body stays exactly the frames of the rows fetched, in the order fetched |
| `Handler.ClientReadsRun` | handler.go:66-102 | from a freshly opened stream, with no store fault and no dropped write, the client reads the JSON of every fetched row, once each and in the order fetched |
| `Handler.CancellationEndsReplay` | handler.go:66-70 | a cancellation anywhere in a run ends the loop |
| `Handler.OpenReplayHadNoCancellation` | handler.go:66-70 | a run that ends with the loop still going saw no cancellation |
| `Handler.ReadTiedRows` | dbconnect.go:79-87 | with the row loop as written, a poll of two rows sharing a timestamp whose iteration fails before the second returns only the first row, as a success |
| `Handler.TruncatedPollLosesTiedMessage` | dbconnect.go:79-87 | a freshly opened session handles that partial read as a successful poll (`Received`, the iteration's success path): it sends the first row's event with status 200 and moves its cursor to the shared timestamp; the second row is in the store as read but never fetched, the invariant that nothing read is left behind fails, and no later poll returns the row |
| `Handler.LeftBehind` | dbconnect.go:71 | a row read, stamped at or before the cursor and not fetched, is never returned by a poll from the cursor |
| `Handler.StreamSession.constructor` | handler.go:48-64 | a non-GET request gets 405 and the error text with no stream; a GET gets the four event-stream headers and the state `Opened` (no status yet, a cursor at the zero time) |
| `Handler.StreamSession.Step` | handler.go:66-101 | one iteration in place: the new state is `Iterate` of the old one, and the invariant is kept |
| `Handler.StreamSession.FailPoll` | handler.go:74-78 | `http.Error` then return: status 500 unless already sent, the error text appended unless the write fails, loop ended |
| `Handler.StreamSession.Advance` | handler.go:81-82 | given the poll or a leading part of it, the cursor moves to the batch's last timestamp before anything is written, and the invariant is kept |
| `Handler.StreamSession.WriteEvents` | handler.go:83-97 | the `range` loop appends each message's frame in batch order (nothing if writes fail) and commits 200 on the first write |
| `Handler.StreamSession.Write` | handler.go:92 | one body write commits status 200 if none was sent and appends the text unless the write fails |
| `Handler.StreamSession.Run` | handler.go:66-102 | the loop over a finite run of iterations: the new state is `Replay` of the old one, and the invariant is kept |

## Left out

- The frontend (frontend/script.js), the request-logging middleware
  (middleware.go) and the server wiring (server.go, backend/server.go) are
  not part of this model. They are browser UI, logging and process setup.
- `ConnectToDB` and the password functions are left out. `InsertUser`,
  `ValidateUser` and `HandleLogin` are thin calls into bcrypt.
- The other handlers are left out: `HandleGetMessages`, `HandleCreateUser`
  and `HandleCreateMessage` are thin CRUD over `database/sql` and
  `encoding/json`.
- Time and concurrency are not modelled:
  - the one-second `time.Sleep`;
  - `Flush`;
  - the `r.Context().Done()` channel, which becomes a `cancelled` flag per
    iteration;
  - the log output.
- The unbounded `for` loop is modelled as a finite sequence of iterations
  (`Tick`s). Its infinite continuation is not.
- JSON string escaping and RFC 3339 date rendering are parameters
  (`Encoding`), not modelled. `json.Marshal` on a map of strings cannot fail,
  so its ignored error has no path.
- Handler.Tick: a failed write drops all the body writes of one iteration
  at once. The transport failing part-way through a batch is not modelled.
- Handler.StreamSession.FailPoll: the header changes `http.Error` makes
  (content type `text/plain`, `nosniff`) are not modelled on this path. The
  session's headers are fixed when it opens.
- DbConnect.GetUsernameByID: only the missing-row case is modelled (the
  users table is a map). Any other lookup error yields the same placeholder
  in the code.
- DbConnect.SortByTime: SQL leaves the order of equal timestamps open, and
  the model fixes it as store order (a stable sort). `SortByTime`,
  `SelectSince` and `SelectAll` themselves state only sortedness, membership
  and the multiset of rows. Every contract that equates a result with
  `SelectSince` inherits the choice: `GetMessagesSince`, `Iterate`, the
  ordered-store lemmas and the tied-rows scenario. The lost row in
  "Findings" does not depend on it, because whichever tied row comes second
  is the one lost.
- DbConnect.GetMessagesSince: uses the row loop with `rows.Err()` checked
  (`CollectRows`), not the loop as written. An iteration failure therefore
  gives an error, and the modelled handler (`Iterate`, `StreamSession.Step`)
  ends the stream with status 500. `HandleEvents` as written would instead
  send the rows read so far and go on. That behaviour is modelled
  separately by `GetMessagesSinceAsWritten` and
  `TruncatedPollLosesTiedMessage`.
- DbConnect.GetMessages: uses the same corrected row loop. On an iteration
  failure, dbconnect.go:59-67 as written returns the newest rows read so far
  with a nil error; the model returns an error.
- Handler.ReplayKeepsNoneSkipped: holds only while new rows are stamped
  after every earlier row. `time.Now()` can repeat a stamp (and the database
  may truncate it), and a row inserted at or before the cursor is never
  polled, as `InsertAtOrBeforeCursorIsNeverPolled` shows.
- Handler.Written: a message whose write is dropped still counts as
  fetched. The cursor still moves past it, as handler.go:82 moves it before
  handler.go:92 ignores the `Fprintf` error, so that connection never sends
  it again. The invariants that speak of fetched rows (`SessionConsistent`,
  `NoneSkipped`) therefore do not say the client received them;
  `ClientReadsRun` says so only for runs with no dropped write and no store
  fault.
- Timestamps are integers. PostgreSQL's microsecond truncation of
  `time.Now()` and time zones are not modelled.
- The event-stream reader covers `data` fields, comments and the `event`,
  `id` and `retry` fields (which it ignores), with CR, LF and CRLF line ends.
  It does not cover a leading byte-order mark, `id`/`retry` semantics or
  reconnection.

## Findings

| source | as written | input that shows it | evidently intended | confidence | as-written member | corrected member |
|---|---|---|---|---|---|---|
| dbconnect.go:79-87 | the `for rows.Next()` loop never checks `rows.Err()` (nor does the same loop of `GetMessages`), so a driver failure during iteration ends the loop early and the rows read so far return with a nil error | two stored rows with timestamp 5; the iteration fails before the second row; `HandleEvents` sends the first, moves its cursor to 5, and no later `GetMessagesSince(5)` returns the second row (`Handler.TruncatedPollLosesTiedMessage`) | an iteration error is reported like a scan error, with no partial list, so the cursor does not move and no message read is left behind (`Handler.IterateKeepsNoneSkipped`, `Handler.ReplayKeepsNoneSkipped`) | medium, not executed | `DbConnect.GetMessagesSinceAsWritten` | `DbConnect.CollectRows` |
