/** The Server-Sent Events endpoint of handler.go (`HandleEvents`): one
    session per connection, holding a timestamp cursor, that polls the store
    for newer messages and writes one framed event per message. */
module Handler {
  import opened Structs
  import opened DbConnect
  import opened EventStream

  /** The two encoders the handler relies on: the string quoting of
      `json.Marshal` and `time.Format(time.RFC3339)`. Neither is modelled;
      a session is given them. */
  datatype Encoding = Encoding(quote: string -> string, formatTime: int -> string)

  /** `json.Marshal` escapes every control character, so a quoted string
      never holds a raw line end. */
  ghost predicate SingleLine(enc: Encoding) {
    forall s :: NoLineBreak(enc.quote(s))
  }

  const NotCommitted: int := 0
  const StatusOK: int := 200
  const StatusMethodNotAllowed: int := 405
  const StatusInternalServerError: int := 500

  /** Bodies written by `http.Error`, which ends its message with a newline. */
  const MethodNotAllowedBody: string := "Nur GET-Anfragen sind erlaubt\n"
  const StoreErrorBody: string := "Fehler beim Abrufen neuer Nachrichten\n"

  /** The headers `http.Error` sets on a response not yet committed. */
  const ErrorHeaders: map<string, string> := map[
    "Content-Type" := "text/plain; charset=utf-8",
    "X-Content-Type-Options" := "nosniff"]

  const SseHeaders: map<string, string> := map[
    "Content-Type" := "text/event-stream",
    "Cache-Control" := "no-cache",
    "Connection" := "keep-alive",
    "Access-Control-Allow-Origin" := "*"]

  /** The status line is sent once: the first `WriteHeader`, or the first
      body write (which implies 200), fixes it. */
  function Commit(status: int, code: int): (s: int)
    requires code != NotCommitted
    ensures s != NotCommitted
    ensures status != NotCommitted ==> s == status
  {
    if status == NotCommitted then code else status
  }

  // ---------------------------------------------------------------------
  // Events

  /** The JSON text `json.Marshal` makes of the event's map (keys in sorted
      order): the message's content, its RFC 3339 time and its sender's
      name. */
  function EventJson(enc: Encoding, users: map<int, string>, m: Message): (json: string)
    ensures SingleLine(enc) ==> NoLineBreak(json)
  {
    var content := enc.quote(m.content);
    var time := enc.quote(enc.formatTime(m.timestamp));
    var name := enc.quote(GetUsernameByID(users, m.senderId));
    JsonObject(content, time, name)
  }

  /** A JSON object with the three keys, given their values' JSON texts:
      it is one line when the values are, and it is delimited by braces. */
  function JsonObject(content: string, time: string, name: string): (json: string)
    ensures NoLineBreak(content) && NoLineBreak(time) && NoLineBreak(name) ==> NoLineBreak(json)
    ensures |json| > 1 && json[0] == '{' && json[|json| - 1] == '}'
  {
    var k1, k2, k3, k4 := "{\"content\":", ",\"timestamp\":", ",\"username\":", "}";
    assert NoLineBreak(content) && NoLineBreak(time) && NoLineBreak(name)
        ==> NoLineBreak(k1 + content + k2 + time + k3 + name + k4) by {
      if NoLineBreak(content) && NoLineBreak(time) && NoLineBreak(name) {
        assert NoLineBreak(k1) && NoLineBreak(k2) && NoLineBreak(k3) && NoLineBreak(k4);
        NoLineBreakConcat(k1, content);
        NoLineBreakConcat(k1 + content, k2);
        NoLineBreakConcat(k1 + content + k2, time);
        NoLineBreakConcat(k1 + content + k2 + time, k3);
        NoLineBreakConcat(k1 + content + k2 + time + k3, name);
        NoLineBreakConcat(k1 + content + k2 + time + k3 + name, k4);
      }
    }
    k1 + content + k2 + time + k3 + name + k4
  }

  function EventJsons(enc: Encoding, users: map<int, string>, batch: seq<Message>): (r: seq<string>)
    ensures |r| == |batch|
    ensures forall i :: 0 <= i < |batch| ==> r[i] == EventJson(enc, users, batch[i])
  {
    if batch == [] then []
    else EventJsons(enc, users, batch[..|batch| - 1]) + [EventJson(enc, users, batch[|batch| - 1])]
  }

  /** The text `fmt.Fprintf(w, "data: %s\n\n", json)` writes for one message:
      a client reads it as one event whose data is the message's JSON. */
  function EventFrame(enc: Encoding, users: map<int, string>, m: Message): (frame: string)
    ensures SingleLine(enc) ==> Parse(frame, Start) == Parsed([EventJson(enc, users, m)], Start)
  {
    assert SingleLine(enc) ==>
      Parse(Frame(EventJson(enc, users, m)), Start) == Parsed([EventJson(enc, users, m)], Start) by {
      if SingleLine(enc) {
        ParseFrame(EventJson(enc, users, m));
      }
    }
    Frame(EventJson(enc, users, m))
  }

  /** The writes for a batch: one frame per message, in batch order. */
  function EventFrames(enc: Encoding, users: map<int, string>, batch: seq<Message>): (r: seq<string>)
    ensures |r| == |batch|
    ensures forall i :: 0 <= i < |batch| ==> r[i] == EventFrame(enc, users, batch[i])
  {
    Frames(EventJsons(enc, users, batch))
  }

  /** The frames of a batch that reach the client: none when the transport
      drops this iteration's writes. */
  function Written(enc: Encoding, users: map<int, string>, batch: seq<Message>, writeFails: bool): (r: seq<string>)
    ensures writeFails ==> r == []
    ensures !writeFails ==> |r| == |batch| && forall i :: 0 <= i < |batch| ==> r[i] == EventFrame(enc, users, batch[i])
  {
    if writeFails then [] else EventFrames(enc, users, batch)
  }

  /** Writing the frame of message `i` after those of the messages before
      it, following the text already written, gives the frames of the first
      `i + 1` messages. */
  lemma EventFramesSnoc(enc: Encoding, users: map<int, string>, batch: seq<Message>, i: nat, before: seq<string>)
    requires i < |batch|
    ensures before + EventFrames(enc, users, batch[..i]) + [EventFrame(enc, users, batch[i])]
         == before + EventFrames(enc, users, batch[..i + 1])
  {
  }

  lemma EventJsonsSnoc(enc: Encoding, users: map<int, string>, batch: seq<Message>, i: nat)
    requires i < |batch|
    ensures EventJsons(enc, users, batch[..i + 1])
         == EventJsons(enc, users, batch[..i]) + [EventJson(enc, users, batch[i])]
  {
    // A hint only: the proof holds without it, at about four times the cost.
    assert batch[..i + 1][..i] == batch[..i];
  }

  /** An EventSource reading a batch's frames dispatches one `message`
      event per message, in batch order, whose data is that message's JSON;
      a sender whose name cannot be resolved still gets its event. */
  lemma ClientReadsBatch(enc: Encoding, users: map<int, string>, batch: seq<Message>)
    requires SingleLine(enc)
    ensures Parse(Concat(EventFrames(enc, users, batch)), Start)
         == Parsed(EventJsons(enc, users, batch), Start)
  {
    var ds := EventJsons(enc, users, batch);
    forall d | d in ds ensures NoLineBreak(d) {
      var i :| 0 <= i < |ds| && ds[i] == d;
    }
    ParseFrames(ds);
  }

  /** A message whose sender has no row in the users table still gets its
      event; its JSON carries the placeholder name. */
  lemma MissingSenderEventJson(enc: Encoding, users: map<int, string>, m: Message)
    requires m.senderId !in users
    ensures EventJson(enc, users, m)
         == JsonObject(enc.quote(m.content), enc.quote(enc.formatTime(m.timestamp)), enc.quote(Unknown))
  {
  }

  /** A client reading a batch's frames gets one event per message, and the
      event of a message carries its sender's stored name, or the
      placeholder when the sender has no row. */
  lemma ClientReadsSenderNames(enc: Encoding, users: map<int, string>, batch: seq<Message>)
    requires SingleLine(enc)
    ensures var read := Parse(Concat(EventFrames(enc, users, batch)), Start);
      && |read.events| == |batch|
      && (forall i :: 0 <= i < |batch| && batch[i].senderId !in users ==>
            read.events[i] == JsonObject(enc.quote(batch[i].content),
                                         enc.quote(enc.formatTime(batch[i].timestamp)),
                                         enc.quote(Unknown)))
      && (forall i :: 0 <= i < |batch| && batch[i].senderId in users ==>
            read.events[i] == JsonObject(enc.quote(batch[i].content),
                                         enc.quote(enc.formatTime(batch[i].timestamp)),
                                         enc.quote(users[batch[i].senderId])))
  {
    ClientReadsBatch(enc, users, batch);
  }

  // ---------------------------------------------------------------------
  // Polling

  /** What one loop iteration meets: whether the client has gone, the
      store's rows, where the driver fails, the users table for name
      lookups, and whether the transport drops this iteration's writes. */
  datatype Tick = Tick(cancelled: bool, store: seq<Message>, fault: Fault,
                       users: map<int, string>, writeFails: bool)

  /** The store read of an iteration that is not cancelled fails: only
      when the driver faults, and always when the query itself fails. */
  predicate PollFails(t: Tick, cursor: int): (fails: bool)
    ensures fails ==> t.fault != NoFault
    ensures t.fault == QueryFault ==> fails
  {
    Interrupts(t.fault, |SelectSince(t.store, cursor)|)
  }

  /** The store only grows: from what the session last read, and from one
      iteration to the next. */
  ghost predicate AppendOnly(seen: seq<Message>, ticks: seq<Tick>) {
    && (forall i :: 0 <= i < |ticks| ==> seen <= ticks[i].store)
    && (forall i, j :: 0 <= i < j < |ticks| ==> ticks[i].store <= ticks[j].store)
  }

  /** A non-empty poll moves the cursor strictly forward, to the newest
      timestamp of the batch. */
  lemma CursorAdvances(store: seq<Message>, cursor: int)
    requires SelectSince(store, cursor) != []
    ensures var batch := SelectSince(store, cursor);
      && cursor < batch[|batch| - 1].timestamp
      && forall m :: m in batch ==> m.timestamp <= batch[|batch| - 1].timestamp
  {
    LastOfBatch(SelectSince(store, cursor), cursor);
  }

  lemma LastOfBatch(batch: seq<Message>, cursor: int)
    requires batch != [] && Ascending(batch)
    requires forall m :: m in batch ==> m.timestamp > cursor
    ensures cursor < batch[|batch| - 1].timestamp
    ensures forall m :: m in batch ==> m.timestamp <= batch[|batch| - 1].timestamp
  {
  }

  /** No message of a batch comes back from a later poll, on any later
      state of the store, once the cursor has moved to the batch's end. */
  lemma NoRedelivery(store: seq<Message>, cursor: int, later: seq<Message>, laterCursor: int)
    requires SelectSince(store, cursor) != []
    requires laterCursor >= SelectSince(store, cursor)[|SelectSince(store, cursor)| - 1].timestamp
    ensures forall m :: m in SelectSince(store, cursor) ==> m !in SelectSince(later, laterCursor)
  {
    CursorAdvances(store, cursor);
  }

  lemma PrefixMultiset(a: seq<Message>, b: seq<Message>)
    requires a <= b
    ensures multiset(a) <= multiset(b)
  {
    assert b == a + b[|a|..];
  }

  /** What was consumed up to the cursor, together with the poll from the
      cursor, never exceeds the store: each stored row is consumed at most
      as often as it is stored. */
  lemma FetchBound(consumed: seq<Message>, store: seq<Message>, cursor: int)
    requires multiset(consumed) <= multiset(store)
    requires forall m :: m in consumed ==> m.timestamp <= cursor
    ensures multiset(consumed + SelectSince(store, cursor)) <= multiset(store)
  {
    var batch := SelectSince(store, cursor);
    forall m ensures multiset(consumed + batch)[m] <= multiset(store)[m] {
      SelectSinceCount(store, cursor, m);
      if m.timestamp > cursor {
        assert m !in consumed;
      }
    }
  }

  lemma AscendingAcrossCursor(a: seq<Message>, b: seq<Message>, cursor: int)
    requires Ascending(a) && Ascending(b)
    requires forall m :: m in a ==> m.timestamp <= cursor
    requires forall m :: m in b ==> m.timestamp > cursor
    ensures Ascending(a + b)
  {
  }

  /** The session invariant over its ghost history: the cursor is the
      newest timestamp consumed (the zero time before any); consumption is
      in timestamp order; no stored row is consumed more often than it is
      stored. */
  ghost predicate Consistent(consumed: seq<Message>, seen: seq<Message>, cursor: int) {
    && Ascending(consumed)
    && (consumed == [] ==> cursor == ZeroTime)
    && (consumed != [] ==> cursor == consumed[|consumed| - 1].timestamp)
    && multiset(consumed) <= multiset(seen)
  }

  /** The cursor after a successful poll: the last timestamp of the batch,
      or the old cursor when the batch is empty. */
  function NextCursor(batch: seq<Message>, cursor: int): (r: int)
    ensures batch == [] ==> r == cursor
    ensures batch != [] ==> r == batch[|batch| - 1].timestamp
    ensures Ascending(batch) ==> forall m :: m in batch ==> m.timestamp <= r
  {
    if batch == [] then cursor else batch[|batch| - 1].timestamp
  }

  /** A successful poll on a store that has only grown keeps the invariant,
      and moves the cursor strictly forward exactly when the batch is not
      empty. */
  lemma PollKeepsConsistent(consumed: seq<Message>, seen: seq<Message>, cursor: int, store: seq<Message>)
    requires Consistent(consumed, seen, cursor)
    requires seen <= store
    ensures var batch := SelectSince(store, cursor);
      && Consistent(consumed + batch, store, NextCursor(batch, cursor))
      && (batch == [] ==> NextCursor(batch, cursor) == cursor)
      && (batch != [] ==> NextCursor(batch, cursor) > cursor)
  {
    PollFacts(consumed, seen, cursor, store);
  }

  /** Fetching only the leading rows of a poll, as a read the driver cut
      short does, still keeps the invariant. */
  lemma PartialPollKeepsConsistent(consumed: seq<Message>, seen: seq<Message>, cursor: int,
                                   store: seq<Message>, batch: seq<Message>)
    requires Consistent(consumed, seen, cursor)
    requires seen <= store
    requires batch <= SelectSince(store, cursor)
    ensures Consistent(consumed + batch, store, NextCursor(batch, cursor))
  {
    if batch == [] {
      assert consumed + batch == consumed;
      GrowingStoreKeepsConsistent(consumed, seen, cursor, store);
    } else {
      var full := SelectSince(store, cursor);
      PollBounds(consumed, seen, cursor, store);
      PrefixConsistent(consumed, full, store, batch);
    }
  }

  lemma GrowingStoreKeepsConsistent(consumed: seq<Message>, seen: seq<Message>, cursor: int, store: seq<Message>)
    requires Consistent(consumed, seen, cursor)
    requires seen <= store
    ensures Consistent(consumed, store, cursor)
  {
    PrefixMultiset(seen, store);
  }

  /** The rows fetched so far followed by the next poll are in timestamp
      order and within the store. */
  lemma PollBounds(consumed: seq<Message>, seen: seq<Message>, cursor: int, store: seq<Message>)
    requires Consistent(consumed, seen, cursor)
    requires seen <= store
    ensures Ascending(consumed + SelectSince(store, cursor))
    ensures multiset(consumed + SelectSince(store, cursor)) <= multiset(store)
  {
    ConsumedAtOrBeforeCursor(consumed, seen, cursor);
    PrefixMultiset(seen, store);
    FetchBound(consumed, store, cursor);
    AscendingAcrossCursor(consumed, SelectSince(store, cursor), cursor);
  }

  lemma PrefixConsistent(consumed: seq<Message>, full: seq<Message>, store: seq<Message>, batch: seq<Message>)
    requires Ascending(consumed + full) && multiset(consumed + full) <= multiset(store)
    requires batch != [] && batch <= full
    ensures Consistent(consumed + batch, store, batch[|batch| - 1].timestamp)
  {
    var c := consumed + batch;
    assert c == (consumed + full)[..|c|];
    PrefixMultiset(c, consumed + full);
    assert c[|c| - 1] == batch[|batch| - 1];
  }

  lemma PollFacts(consumed: seq<Message>, seen: seq<Message>, cursor: int, store: seq<Message>)
    requires Consistent(consumed, seen, cursor)
    requires seen <= store
    ensures var batch := SelectSince(store, cursor);
      var next := NextCursor(batch, cursor);
      && Ascending(consumed + batch)
      && multiset(consumed + batch) <= multiset(store)
      && (consumed + batch != [] ==> next == (consumed + batch)[|consumed + batch| - 1].timestamp)
      && (consumed + batch == [] ==> next == ZeroTime)
      && (batch == [] ==> next == cursor)
      && (batch != [] ==> next > cursor)
  {
    var batch := SelectSince(store, cursor);
    ConsumedAtOrBeforeCursor(consumed, seen, cursor);
    PrefixMultiset(seen, store);
    FetchBound(consumed, store, cursor);
    AscendingAcrossCursor(consumed, batch, cursor);
    if batch != [] {
      CursorAdvances(store, cursor);
      assert (consumed + batch)[|consumed + batch| - 1] == batch[|batch| - 1];
    } else {
      assert consumed + batch == consumed;
    }
  }

  lemma ConsumedAtOrBeforeCursor(consumed: seq<Message>, seen: seq<Message>, cursor: int)
    requires Consistent(consumed, seen, cursor)
    ensures forall m :: m in consumed ==> m.timestamp <= cursor
  {
  }


  // ---------------------------------------------------------------------
  // One iteration of the loop, on values

  /** The observable state of one connection: the cursor, the body writes
      that reached the client, the status sent, whether the handler still
      loops, and (for the proofs) every message fetched, in write order, and
      the store as the last successful poll read it. */
  datatype Session = Session(cursor: int, out: seq<string>, status: int, open: bool,
                             consumed: seq<Message>, seen: seq<Message>)

  /** A successful poll that returned `batch`: the cursor moves to the
      batch's newest timestamp, then each message's frame is written. */
  function Received(s: Session, t: Tick, enc: Encoding, batch: seq<Message>): (r: Session)
    ensures r.open == s.open
    ensures s.out <= r.out && |r.out| == |s.out| + (if t.writeFails then 0 else |batch|)
    ensures batch != [] ==> r.status != NotCommitted
    ensures batch == [] ==> r.status == s.status && r.cursor == s.cursor
  {
    s.(cursor := NextCursor(batch, s.cursor),
       out := s.out + Written(enc, t.users, batch, t.writeFails),
       status := if batch == [] then s.status else Commit(s.status, StatusOK),
       consumed := s.consumed + batch,
       seen := t.store)
  }

  /** One iteration of the loop. A cancelled request ends it before any
      query or write. A failed store read sends the error response and ends
      the loop. Otherwise the messages newer than the cursor are fetched and
      their frames written. */
  function Iterate(s: Session, t: Tick, enc: Encoding): (r: Session)
    requires s.open
    ensures r.cursor >= s.cursor
    ensures s.out <= r.out
    ensures s.consumed <= r.consumed
    ensures r.open <==> !t.cancelled && !PollFails(t, s.cursor)
  {
    if t.cancelled then s.(open := false)
    else if PollFails(t, s.cursor) then
      s.(open := false,
         status := Commit(s.status, StatusInternalServerError),
         out := s.out + (if t.writeFails then [] else [StoreErrorBody]))
    else
      var batch := SelectSince(t.store, s.cursor);
      assert batch != [] ==> NextCursor(batch, s.cursor) > s.cursor by {
        if batch != [] {
          CursorAdvances(t.store, s.cursor);
        }
      }
      Received(s, t, enc, batch)
  }

  /** The loop over a run of iterations: it stops at the first iteration
      that closes the session. */
  function Replay(s: Session, ticks: seq<Tick>, enc: Encoding): (r: Session)
    ensures r.cursor >= s.cursor
    ensures s.out <= r.out
    ensures s.consumed <= r.consumed
    decreases |ticks|
  {
    if ticks == [] || !s.open then s else Replay(Iterate(s, ticks[0], enc), ticks[1..], enc)
  }

  ghost predicate SessionConsistent(s: Session) {
    Consistent(s.consumed, s.seen, s.cursor)
  }

  // ---------------------------------------------------------------------
  // Properties of the loop

  /** One iteration on a store that has only grown keeps the session
      invariant: the cursor is the newest timestamp fetched, rows are fetched
      in timestamp order, and no stored message is fetched more often than
      it is stored. */
  lemma IterateKeepsConsistent(s: Session, t: Tick, enc: Encoding)
    requires s.open && SessionConsistent(s)
    requires s.seen <= t.store
    ensures SessionConsistent(Iterate(s, t, enc))
    ensures Iterate(s, t, enc).seen in {s.seen, t.store}
    ensures Iterate(s, t, enc).open ==> Iterate(s, t, enc).seen == t.store
  {
    if !t.cancelled && !PollFails(t, s.cursor) {
      PollKeepsConsistent(s.consumed, s.seen, s.cursor, t.store);
    }
  }

  /** A cancelled iteration queries and writes nothing; it only ends the
      loop. */
  lemma CancelledIterationOnlyCloses(s: Session, t: Tick, enc: Encoding)
    requires s.open && t.cancelled
    ensures Iterate(s, t, enc) == s.(open := false)
  {
  }

  /** A failed store read ends the loop with at most the error text written:
      no event, no cursor move, and a status that is 500 unless one was
      already sent. */
  lemma FailedPollWritesNoEvent(s: Session, t: Tick, enc: Encoding)
    requires s.open && !t.cancelled && PollFails(t, s.cursor)
    ensures var r := Iterate(s, t, enc);
      && !r.open && r.cursor == s.cursor && r.consumed == s.consumed
      && (r.out == s.out || r.out == s.out + [StoreErrorBody])
      && (s.status == NotCommitted ==> r.status == StatusInternalServerError)
      && (s.status != NotCommitted ==> r.status == s.status)
  {
  }

  /** A poll that finds nothing newer than the cursor writes nothing and
      leaves the cursor and the status as they are. */
  lemma EmptyPollIsNoop(s: Session, t: Tick, enc: Encoding)
    requires s.open && !t.cancelled && !PollFails(t, s.cursor)
    requires forall m :: m in t.store ==> m.timestamp <= s.cursor
    ensures Iterate(s, t, enc) == s.(seen := t.store)
  {
    EmptyPollIffNothingNewer(t.store, s.cursor);
    assert s.out + [] == s.out;
    assert s.consumed + [] == s.consumed;
  }

  /** A poll that finds something moves the cursor strictly forward, to the
      timestamp of the batch's last message, and commits status 200 unless
      a status went out already. */
  lemma NonEmptyPollAdvancesCursor(s: Session, t: Tick, enc: Encoding)
    requires s.open && !t.cancelled && !PollFails(t, s.cursor)
    requires SelectSince(t.store, s.cursor) != []
    ensures var batch := SelectSince(t.store, s.cursor);
      var r := Iterate(s, t, enc);
      && r.cursor == batch[|batch| - 1].timestamp
      && r.cursor > s.cursor
      && r.status == Commit(s.status, StatusOK)
  {
    CursorAdvances(t.store, s.cursor);
  }

  /** Every message fetched so far is at or before the cursor, so no poll
      from the cursor returns it again, whatever the store holds by then. */
  lemma FetchedNeverPolledAgain(s: Session, store: seq<Message>)
    requires SessionConsistent(s)
    ensures forall m :: m in s.consumed ==> m !in SelectSince(store, s.cursor)
  {
    ConsumedAtOrBeforeCursor(s.consumed, s.seen, s.cursor);
  }

  /** The state of a session a GET request has just opened: nothing sent,
      no status yet, and both session invariants hold from the start. */
  function Opened(): (s: Session)
    ensures s.open && s.out == [] && s.status == NotCommitted
    ensures SessionConsistent(s) && NoneSkipped(s)
  {
    Session(ZeroTime, [], NotCommitted, true, [], [])
  }

  /** A session opened on an ordered history sends every stored message, in
      order, with status 200, and its cursor stops at the newest timestamp;
      the next poll on the unchanged store sends nothing, and a
      cancellation then ends the loop. */
  lemma HistoryScenario(store: seq<Message>, users: map<int, string>, enc: Encoding)
    requires store != [] && Ascending(store)
    requires forall m :: m in store ==> m.timestamp > ZeroTime
    ensures var poll := Tick(false, store, NoFault, users, false);
      var first := Iterate(Opened(), poll, enc);
      var second := Iterate(first, poll, enc);
      && first.out == EventFrames(enc, users, store)
      && first.status == StatusOK
      && first.cursor == store[|store| - 1].timestamp
      && second == first
      && !Iterate(second, poll.(cancelled := true), enc).open
  {
    var poll := Tick(false, store, NoFault, users, false);
    FirstPollSendsHistory(store, users, enc);
    var first := Iterate(Opened(), poll, enc);
    SecondPollSendsNothing(store, first, poll, enc);
  }

  lemma FirstPollSendsHistory(store: seq<Message>, users: map<int, string>, enc: Encoding)
    requires Ascending(store)
    requires forall m :: m in store ==> m.timestamp > ZeroTime
    ensures var first := Iterate(Opened(), Tick(false, store, NoFault, users, false), enc);
      && first.open
      && first.out == EventFrames(enc, users, store)
      && first.status == (if store == [] then NotCommitted else StatusOK)
      && first.cursor == NextCursor(store, ZeroTime)
      && first.seen == store
  {
    FirstPollOfOrderedHistory(store);
    assert [] + EventFrames(enc, users, store) == EventFrames(enc, users, store);
  }

  lemma SecondPollSendsNothing(store: seq<Message>, first: Session, poll: Tick, enc: Encoding)
    requires store != [] && Ascending(store)
    requires first.open && poll.store == store && !poll.cancelled && poll.fault == NoFault
    requires first.cursor == store[|store| - 1].timestamp
    ensures Iterate(first, poll, enc) == first.(seen := store)
  {
    forall m | m in store ensures m.timestamp <= first.cursor {
      var k :| 0 <= k < |store| && store[k] == m;
      assert k <= |store| - 1;
    }
    EmptyPollIsNoop(first, poll, enc);
  }

  /** What the client reads from the writes of one successful iteration is
      the JSON of each message fetched, in order. */
  lemma ClientReadsIteration(s: Session, t: Tick, enc: Encoding)
    requires s.open && SingleLine(enc)
    requires !t.cancelled && !PollFails(t, s.cursor) && !t.writeFails
    ensures var r := Iterate(s, t, enc);
      Parse(Concat(r.out[|s.out|..]), Start)
        == Parsed(EventJsons(enc, t.users, r.consumed[|s.consumed|..]), Start)
  {
    var batch := SelectSince(t.store, s.cursor);
    var r := Iterate(s, t, enc);
    assert r.out[|s.out|..] == EventFrames(enc, t.users, batch);
    assert r.consumed[|s.consumed|..] == batch;
    ClientReadsBatch(enc, t.users, batch);
  }

  /** No message is skipped: if every message the session has read and not
      fetched is newer than the cursor, and the rows added since carry
      timestamps after the cursor, every stored message is fetched already
      or in the next poll. */
  lemma NoMessageSkipped(consumed: seq<Message>, seen: seq<Message>, cursor: int, store: seq<Message>)
    requires seen <= store
    requires forall m :: m in seen && m.timestamp <= cursor ==> m in consumed
    requires forall i :: |seen| <= i < |store| ==> store[i].timestamp > cursor
    ensures forall m :: m in store ==> m in consumed + SelectSince(store, cursor)
  {
    forall m | m in store ensures m in consumed + SelectSince(store, cursor) {
      if m.timestamp <= cursor {
        var k :| 0 <= k < |store| && store[k] == m;
        assert k < |seen|;
        assert seen[k] == m;
      }
    }
  }

  /** Nothing read is left behind: every message of the store as last read
      that is stamped at or before the cursor was fetched. */
  ghost predicate NoneSkipped(s: Session) {
    forall m :: m in s.seen && m.timestamp <= s.cursor ==> m in s.consumed
  }

  /** With a store read that reports iteration errors, an iteration leaves
      nothing behind when the rows added since the last read are stamped
      after the cursor. */
  lemma IterateKeepsNoneSkipped(s: Session, t: Tick, enc: Encoding)
    requires s.open && NoneSkipped(s)
    requires s.seen <= t.store
    requires forall i :: |s.seen| <= i < |t.store| ==> t.store[i].timestamp > s.cursor
    ensures NoneSkipped(Iterate(s, t, enc))
  {
    if !t.cancelled && !PollFails(t, s.cursor) {
      NoMessageSkipped(s.consumed, s.seen, s.cursor, t.store);
    }
  }

  /** The rows `store` adds to `seen` are stamped after the zero time and
      after every row of `seen`, as by a clock that only moves forward. */
  ghost predicate StampedAfter(seen: seq<Message>, store: seq<Message>) {
    forall i :: |seen| <= i < |store| ==>
      store[i].timestamp > ZeroTime && forall m :: m in seen ==> m.timestamp < store[i].timestamp
  }

  /** Every iteration of a run meets rows stamped after those of the store
      the previous iteration read. */
  ghost predicate ClockForward(seen: seq<Message>, ticks: seq<Tick>) {
    && (ticks != [] ==> StampedAfter(seen, ticks[0].store))
    && forall i :: 0 < i < |ticks| ==> StampedAfter(ticks[i - 1].store, ticks[i].store)
  }

  /** The cursor is the zero time or the stamp of a row read, so rows
      stamped after every row read are newer than the cursor. */
  lemma StampedAfterCursor(s: Session, store: seq<Message>)
    requires SessionConsistent(s) && StampedAfter(s.seen, store)
    ensures forall i :: |s.seen| <= i < |store| ==> store[i].timestamp > s.cursor
  {
    if s.consumed != [] {
      var last := s.consumed[|s.consumed| - 1];
      assert last in multiset(s.consumed);
      assert last in multiset(s.seen);
      assert last in s.seen;
    }
  }

  lemma ClockForwardStep(seen: seq<Message>, ticks: seq<Tick>)
    requires ticks != [] && ClockForward(seen, ticks)
    ensures ClockForward(ticks[0].store, ticks[1..])
  {
  }

  /** Over any run on a growing store whose new rows are stamped by a clock
      that only moves forward, nothing read is ever left behind. */
  lemma {:induction false} ReplayKeepsNoneSkipped(s: Session, ticks: seq<Tick>, enc: Encoding)
    requires SessionConsistent(s) && NoneSkipped(s)
    requires AppendOnly(s.seen, ticks) && ClockForward(s.seen, ticks)
    ensures NoneSkipped(Replay(s, ticks, enc))
    decreases |ticks|
  {
    if ticks == [] || !s.open {
      ReplayStops(s, ticks, enc);
    } else {
      var t := ticks[0];
      var next := Iterate(s, t, enc);
      ReplayStep(s, ticks, enc);
      assert s.seen <= t.store;
      StampedAfterCursor(s, t.store);
      IterateKeepsNoneSkipped(s, t, enc);
      IterateKeepsConsistent(s, t, enc);
      if next.open {
        AppendOnlyStep(s.seen, next.seen, ticks);
        ClockForwardStep(s.seen, ticks);
        ReplayKeepsNoneSkipped(next, ticks[1..], enc);
      } else {
        ReplayStops(next, ticks[1..], enc);
      }
    }
  }

  /** Over any run of iterations on a growing store, the invariant holds. */
  lemma {:induction false} ReplayKeepsConsistent(s: Session, ticks: seq<Tick>, enc: Encoding)
    requires SessionConsistent(s)
    requires AppendOnly(s.seen, ticks)
    ensures SessionConsistent(Replay(s, ticks, enc))
    decreases |ticks|
  {
    if ticks != [] && s.open {
      var next := Iterate(s, ticks[0], enc);
      assert Replay(s, ticks, enc) == Replay(next, ticks[1..], enc);
      IterateKeepsConsistent(s, ticks[0], enc);
      AppendOnlyStep(s.seen, next.seen, ticks);
      ReplayKeepsConsistent(next, ticks[1..], enc);
    }
  }

  lemma AppendOnlyStep(seen: seq<Message>, next: seq<Message>, ticks: seq<Tick>)
    requires ticks != [] && AppendOnly(seen, ticks)
    requires next in {seen, ticks[0].store}
    ensures AppendOnly(next, ticks[1..])
  {
  }

  /** A cancellation anywhere in the run ends the loop. */
  lemma CancellationEndsReplay(s: Session, ticks: seq<Tick>, enc: Encoding, k: nat)
    requires k < |ticks| && ticks[k].cancelled
    ensures !Replay(s, ticks, enc).open
  {
    assert ticks[k] in ticks;
    if Replay(s, ticks, enc).open {
      OpenReplayHadNoCancellation(s, ticks, enc);
      assert false;
    }
  }

  lemma ReplayStep(s: Session, ticks: seq<Tick>, enc: Encoding)
    requires ticks != [] && s.open
    ensures Replay(s, ticks, enc) == Replay(Iterate(s, ticks[0], enc), ticks[1..], enc)
  {
  }

  lemma ReplayStops(s: Session, ticks: seq<Tick>, enc: Encoding)
    requires ticks == [] || !s.open
    ensures Replay(s, ticks, enc) == s
  {
  }

  /** A run that ends with the session still open went through every
      iteration without a cancellation. */
  lemma {:induction false} OpenReplayHadNoCancellation(s: Session, ticks: seq<Tick>, enc: Encoding)
    requires Replay(s, ticks, enc).open
    ensures s.open
    ensures forall t :: t in ticks ==> !t.cancelled
    decreases |ticks|
  {
    if ticks == [] || !s.open {
      ReplayStops(s, ticks, enc);
    } else {
      var next := OpenReplayStep(s, ticks, enc);
      OpenReplayHadNoCancellation(next, ticks[1..], enc);
      forall t | t in ticks ensures !t.cancelled {
        if t != ticks[0] {
          assert t in ticks[1..];
        }
      }
    }
  }

  /** The session after the first iteration of a run, and what the rest of
      the run makes of it. */
  lemma OpenReplayStep(s: Session, ticks: seq<Tick>, enc: Encoding) returns (next: Session)
    requires ticks != [] && s.open
    requires Replay(s, ticks, enc).open
    ensures next.open ==> !ticks[0].cancelled
    ensures Replay(next, ticks[1..], enc).open
  {
    next := Iterate(s, ticks[0], enc);
    ReplayStep(s, ticks, enc);
  }

  /** Two rows newer than the zero time, already in order, come back from
      the first poll as they are stored. */
  lemma TiedRowsBatch(m1: Message, m2: Message)
    requires ZeroTime < m1.timestamp <= m2.timestamp
    ensures SelectSince([m1, m2], ZeroTime) == [m1, m2]
  {
    SelectSinceOfOrderedStore([m1, m2], ZeroTime);
    NewerKeepsAllNewer([m1, m2], ZeroTime);
  }

  // ---------------------------------------------------------------------
  // The session

  class StreamSession {
    /** `lastTimestamp`: the timestamp of the newest message fetched. */
    var cursor: int
    /** The body writes that reached the client, in order. */
    var out: seq<string>
    /** The status sent, or NotCommitted while none is. */
    var status: int
    /** The response headers, fixed when the stream is opened. */
    const headers: map<string, string>
    /** The handler is still looping. */
    var open: bool
    /** Every message fetched, in the order its event was written. */
    ghost var consumed: seq<Message>
    /** The store as the last successful poll read it. */
    ghost var seen: seq<Message>

    ghost function State(): Session
      reads this
    {
      Session(cursor, out, status, open, consumed, seen)
    }

    ghost predicate Valid()
      reads this`cursor, this`consumed, this`seen
    {
      Consistent(consumed, seen, cursor)
    }

    /** Opening the stream: anything but GET is refused with 405 before a
        cursor exists; a GET gets the event-stream headers and a cursor at
        the zero time. */
    constructor (requestMethod: string)
      ensures Valid()
      ensures cursor == ZeroTime && consumed == [] && seen == []
      ensures requestMethod == "GET" ==> State() == Opened()
      ensures requestMethod == "GET" ==> open && status == NotCommitted && out == [] && headers == SseHeaders
      ensures requestMethod != "GET" ==>
        !open && status == StatusMethodNotAllowed && out == [MethodNotAllowedBody] && headers == ErrorHeaders
    {
      cursor := ZeroTime;
      consumed := [];
      seen := [];
      if requestMethod != "GET" {
        status := StatusMethodNotAllowed;
        out := [MethodNotAllowedBody];
        headers := ErrorHeaders;
        open := false;
      } else {
        status := NotCommitted;
        out := [];
        headers := SseHeaders;
        open := true;
      }
    }

    /** One iteration of the loop, in place. */
    method Step(t: Tick, enc: Encoding)
      requires Valid() && open
      requires seen <= t.store
      modifies this
      ensures State() == Iterate(old(State()), t, enc)
      ensures Valid()
    {
      if t.cancelled {
        open := false;
        return;
      }
      var r := GetMessagesSince(t.store, cursor, t.fault);
      if r.Err? {
        FailPoll(t.writeFails);
        return;
      }
      Advance(t.store, r.value);
      WriteEvents(enc, t.users, r.value, t.writeFails);
    }

    /** The store read failed: `http.Error` sends status 500 unless a status
        went out already, writes its message, and the handler returns. */
    method FailPoll(writeFails: bool)
      modifies this`status, this`out, this`open
      ensures !open
      ensures status == Commit(old(status), StatusInternalServerError)
      ensures out == old(out) + (if writeFails then [] else [StoreErrorBody])
    {
      status := Commit(status, StatusInternalServerError);
      if !writeFails {
        out := out + [StoreErrorBody];
      }
      open := false;
    }

    /** The store read succeeded with `batch`, the result of the poll or,
        when the driver cut the read short, its leading rows: the cursor
        moves to the batch's last timestamp before any event is written. */
    method Advance(store: seq<Message>, batch: seq<Message>)
      requires Valid()
      requires seen <= store
      requires batch <= SelectSince(store, cursor)
      modifies this`cursor, this`consumed, this`seen
      ensures Valid()
      ensures cursor == NextCursor(batch, old(cursor))
      ensures consumed == old(consumed) + batch
      ensures seen == store
    {
      PartialPollKeepsConsistent(consumed, seen, cursor, store, batch);
      seen := store;
      consumed := consumed + batch;
      cursor := NextCursor(batch, cursor);
    }

    /** The `range` loop over a batch: each message's frame is written and
        flushed; a failed write is ignored. */
    method WriteEvents(enc: Encoding, users: map<int, string>, batch: seq<Message>, writeFails: bool)
      modifies this`out, this`status
      ensures out == old(out) + Written(enc, users, batch, writeFails)
      ensures status == if batch == [] then old(status) else Commit(old(status), StatusOK)
    {
      var i := 0;
      while i < |batch|
        invariant 0 <= i <= |batch|
        invariant writeFails ==> out == old(out)
        invariant !writeFails ==> out == old(out) + EventFrames(enc, users, batch[..i])
        invariant i == 0 ==> status == old(status)
        invariant i > 0 ==> status == Commit(old(status), StatusOK)
      {
        EventFramesSnoc(enc, users, batch, i, old(out));
        Write(EventFrame(enc, users, batch[i]), writeFails);
        i := i + 1;
      }
      assert batch[..i] == batch;
    }

    /** One body write: the first one sends status 200 if no status went
        out yet; a failed write adds nothing to what the client receives. */
    method Write(text: string, fails: bool)
      modifies this`out, this`status
      ensures status == Commit(old(status), StatusOK)
      ensures out == old(out) + (if fails then [] else [text])
    {
      status := Commit(status, StatusOK);
      if !fails {
        out := out + [text];
      }
    }

    /** The handler's loop over the iterations `ticks` offers; it stops at
        the first cancellation or store error. */
    method Run(ticks: seq<Tick>, enc: Encoding)
      requires Valid()
      requires AppendOnly(seen, ticks)
      modifies this
      ensures State() == Replay(old(State()), ticks, enc)
      ensures Valid()
    {
      var i := 0;
      while i < |ticks| && open
        invariant 0 <= i <= |ticks|
        invariant Valid()
        invariant AppendOnly(seen, ticks[i..])
        invariant Replay(State(), ticks[i..], enc) == Replay(old(State()), ticks, enc)
        decreases |ticks| - i
      {
        ghost var before := State();
        var t := ticks[i];
        assert ticks[i..][0] == t && ticks[i..][1..] == ticks[i + 1..];
        Step(t, enc);
        ReplayStep(before, ticks[i..], enc);
        IterateKeepsConsistent(before, t, enc);
        AppendOnlyStep(before.seen, seen, ticks[i..]);
        i := i + 1;
      }
      ReplayStops(State(), ticks[i..], enc);
    }
  }

  // ---------------------------------------------------------------------
  // What the client receives over a run

  /** An iteration whose store read does not fault and whose writes all
      reach the client, with the users table `users`. */
  predicate Unbroken(t: Tick, users: map<int, string>) {
    t.fault == NoFault && !t.writeFails && t.users == users
  }

  /** The frames of two batches one after the other are the frames of the
      joined batch. */
  lemma EventFramesAppend(enc: Encoding, users: map<int, string>, a: seq<Message>, b: seq<Message>)
    ensures EventFrames(enc, users, a) + EventFrames(enc, users, b) == EventFrames(enc, users, a + b)
  {
    var fa, fb, fab := EventFrames(enc, users, a), EventFrames(enc, users, b), EventFrames(enc, users, a + b);
    assert |fa + fb| == |fab|;
    forall i | 0 <= i < |fab| ensures (fa + fb)[i] == fab[i] {
      if i < |a| {
        assert (a + b)[i] == a[i];
      } else {
        assert (a + b)[i] == b[i - |a|];
      }
    }
  }

  /** The body holds the frames of exactly the rows fetched so far. */
  ghost predicate WritesFetched(s: Session, enc: Encoding, users: map<int, string>) {
    s.out == EventFrames(enc, users, s.consumed)
  }

  /** An unbroken iteration writes the frame of every row it fetches, so
      it keeps `WritesFetched`. */
  lemma IterateWritesFetched(s: Session, t: Tick, enc: Encoding, users: map<int, string>)
    requires s.open && Unbroken(t, users)
    requires WritesFetched(s, enc, users)
    ensures WritesFetched(Iterate(s, t, enc), enc, users)
  {
    if !t.cancelled {
      var batch := SelectSince(t.store, s.cursor);
      EventFramesAppend(enc, users, s.consumed, batch);
    }
  }

  lemma UnbrokenTail(ticks: seq<Tick>, users: map<int, string>)
    requires ticks != []
    requires forall i :: 0 <= i < |ticks| ==> Unbroken(ticks[i], users)
    ensures Unbroken(ticks[0], users)
    ensures forall i :: 0 <= i < |ticks[1..]| ==> Unbroken(ticks[1..][i], users)
  {
    forall i | 0 <= i < |ticks[1..]| ensures Unbroken(ticks[1..][i], users) {
      assert ticks[1..][i] == ticks[i + 1];
    }
  }

  /** Over a run of unbroken iterations the body is the frames of exactly
      the rows fetched, in the order fetched. */
  lemma {:induction false} ReplayWritesFetched(s: Session, ticks: seq<Tick>, enc: Encoding, users: map<int, string>)
    requires WritesFetched(s, enc, users)
    requires forall i :: 0 <= i < |ticks| ==> Unbroken(ticks[i], users)
    ensures WritesFetched(Replay(s, ticks, enc), enc, users)
    decreases |ticks|
  {
    if ticks == [] || !s.open {
      ReplayStops(s, ticks, enc);
    } else {
      var next := Iterate(s, ticks[0], enc);
      ReplayStep(s, ticks, enc);
      UnbrokenTail(ticks, users);
      IterateWritesFetched(s, ticks[0], enc, users);
      ReplayWritesFetched(next, ticks[1..], enc, users);
    }
  }

  /** From a freshly opened stream, when no store read faults and no write
      is dropped, the client reads the JSON of every fetched row, once and in
      the order fetched. */
  lemma ClientReadsRun(ticks: seq<Tick>, enc: Encoding, users: map<int, string>)
    requires SingleLine(enc)
    requires forall i :: 0 <= i < |ticks| ==> Unbroken(ticks[i], users)
    ensures var r := Replay(Opened(), ticks, enc);
      Parse(Concat(r.out), Start) == Parsed(EventJsons(enc, users, r.consumed), Start)
  {
    assert WritesFetched(Opened(), enc, users);
    ReplayWritesFetched(Opened(), ticks, enc, users);
    ClientReadsBatch(enc, users, Replay(Opened(), ticks, enc).consumed);
  }

  // ---------------------------------------------------------------------
  // The store read as dbconnect.go writes it

  /** One iteration of a freshly opened session with the store read as
      written: two distinct rows share a timestamp and the driver fails
      before the second. The read returns the first row as a success, which
      the iteration handles like any successful poll (`Received`, what
      `StreamSession.Advance` and `WriteEvents` do in place): the cursor
      moves to the shared timestamp and the first row's event is sent. The
      second row is read but left behind, and no later poll returns it,
      whatever the store holds by then. */
  method TruncatedPollLosesTiedMessage(enc: Encoding, m1: Message, m2: Message) returns (after: Session)
    requires ZeroTime < m1.timestamp == m2.timestamp && m1 != m2
    ensures SelectSince([m1, m2], ZeroTime) == [m1, m2]
    ensures after.open && after.cursor == m2.timestamp && after.status == StatusOK
    ensures after.out == [EventFrame(enc, map[], m1)]
    ensures m2 in after.seen && m2 !in after.consumed
    ensures !NoneSkipped(after)
    ensures forall later :: m2 !in SelectSince(later, after.cursor)
  {
    var store, batch := ReadTiedRows(m1, m2);
    SingleFrame(enc, map[], m1);
    after := Received(Opened(), Tick(false, store, IterationFaultAt(1), map[], false), enc, batch);
    assert after.consumed == [] + batch && after.seen == store;
    LeftBehind(after, m2);
  }

  /** The first poll of a store holding two rows with the same timestamp,
      read as dbconnect.go writes it with the driver failing before the
      second row: a success holding only the first row. */
  method ReadTiedRows(m1: Message, m2: Message) returns (store: seq<Message>, batch: seq<Message>)
    requires ZeroTime < m1.timestamp == m2.timestamp
    ensures store == [m1, m2]
    ensures SelectSince(store, ZeroTime) == store
    ensures batch == [m1]
  {
    store := [m1, m2];
    TiedRowsBatch(m1, m2);
    var r := GetMessagesSinceAsWritten(store, ZeroTime, IterationFaultAt(1));
    assert store[..1] == [m1];
    batch := r.value;
  }

  lemma SingleFrame(enc: Encoding, users: map<int, string>, m: Message)
    ensures [] + Written(enc, users, [m], false) == [EventFrame(enc, users, m)]
  {
    assert [] + EventFrames(enc, users, [m]) == EventFrames(enc, users, [m]);
  }

  /** A row read, stamped at or before the cursor and not fetched, is
      skipped for good: no poll from the cursor returns it. */
  lemma LeftBehind(s: Session, m: Message)
    requires m in s.seen && m.timestamp <= s.cursor && m !in s.consumed
    ensures !NoneSkipped(s)
    ensures forall later :: m !in SelectSince(later, s.cursor)
  {
  }
}
