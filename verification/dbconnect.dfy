/** The store reads and writes of dbconnect.go. The `messages` table is a
    sequence in insertion order; the SQL engine's filtering and sorting are
    functions over it, and the driver's row loop is a method. */
module DbConnect {
  import opened Structs

  datatype DbError = QueryFailed | ScanFailed | IterationFailed | ExecFailed

  datatype Result<T> = Ok(value: T) | Err(error: DbError)

  /** Where the driver fails while one query is answered: `db.Query` itself,
      `rows.Scan` on a given row, or `rows.Next` before a given row. */
  datatype Fault = NoFault | QueryFault | ScanFaultAt(row: nat) | IterationFaultAt(row: nat)

  /** The placeholder name for a sender whose lookup fails. */
  const Unknown: string := "Unbekannt"

  /** True when `fault` stops a query whose result has `n` rows. */
  predicate Interrupts(fault: Fault, n: nat) {
    match fault
    case NoFault => false
    case QueryFault => true
    case ScanFaultAt(k) => k < n
    case IterationFaultAt(k) => k < n
  }

  function ErrorOf(fault: Fault): DbError
    requires fault != NoFault
  {
    match fault
    case QueryFault => QueryFailed
    case ScanFaultAt(_) => ScanFailed
    case IterationFaultAt(_) => IterationFailed
  }

  // ---------------------------------------------------------------------
  // The SQL engine: WHERE timestamp > t, ORDER BY timestamp

  /** The rows of `store` with `timestamp > t`, in store order. */
  function Newer(store: seq<Message>, t: int): (r: seq<Message>)
    ensures forall m :: m in r <==> m in store && m.timestamp > t
  {
    if store == [] then []
    else (if store[0].timestamp > t then [store[0]] else []) + Newer(store[1..], t)
  }

  /** The filter keeps every copy of a newer row and no copy of an older one. */
  lemma {:induction false} NewerCount(store: seq<Message>, t: int, m: Message)
    ensures multiset(Newer(store, t))[m] == if m.timestamp > t then multiset(store)[m] else 0
  {
    if store != [] {
      assert store == [store[0]] + store[1..];
      NewerCount(store[1..], t, m);
    }
  }

  /** Inserts `m` before the first element that is not older than it. */
  function InsertByTime(m: Message, s: seq<Message>): (r: seq<Message>)
    requires Ascending(s)
    ensures Ascending(r)
    ensures multiset(r) == multiset(s) + multiset{m}
  {
    if s == [] || m.timestamp <= s[0].timestamp then
      ConsAscending(m, s);
      [m] + s
    else
      var rest := InsertByTime(m, s[1..]);
      assert s == [s[0]] + s[1..];
      BoundedBelow(s[0].timestamp, s[1..], m, rest);
      ConsAscending(s[0], rest);
      [s[0]] + rest
  }

  lemma ConsAscending(h: Message, s: seq<Message>)
    requires Ascending(s)
    requires s != [] ==> h.timestamp <= s[0].timestamp
    ensures Ascending([h] + s)
  {
  }

  /** Every element of a sequence holding the elements of `s` and `m` is at
      least as new as `t` when they all are. */
  lemma BoundedBelow(t: int, s: seq<Message>, m: Message, r: seq<Message>)
    requires multiset(r) == multiset(s) + multiset{m}
    requires t <= m.timestamp
    requires forall k :: 0 <= k < |s| ==> t <= s[k].timestamp
    ensures forall k :: 0 <= k < |r| ==> t <= r[k].timestamp
  {
    forall k | 0 <= k < |r| ensures t <= r[k].timestamp {
      var x := r[k];
      assert x in multiset(r);
      if x != m {
        assert x in multiset(s);
        var j :| 0 <= j < |s| && s[j] == x;
      }
    }
  }

  /** A stable sort by timestamp: SQL leaves the order of equal timestamps
      open, and this model keeps them in store order. */
  function SortByTime(s: seq<Message>): (r: seq<Message>)
    ensures Ascending(r)
    ensures multiset(r) == multiset(s)
  {
    if s == [] then []
    else
      assert s == [s[0]] + s[1..];
      InsertByTime(s[0], SortByTime(s[1..]))
  }

  /** A store already in timestamp order comes back from the sort unchanged. */
  lemma {:induction false} SortByTimeKeepsAscending(s: seq<Message>)
    requires Ascending(s)
    ensures SortByTime(s) == s
  {
    if s != [] {
      SortByTimeKeepsAscending(s[1..]);
    }
  }

  /** The rows the engine yields for the query of `GetMessagesSince(t)`. */
  function SelectSince(store: seq<Message>, t: int): (r: seq<Message>)
    ensures Ascending(r)
    ensures forall m :: m in r <==> m in store && m.timestamp > t
  {
    var r := SortByTime(Newer(store, t));
    assert forall m :: m in r <==> m in multiset(r);
    r
  }

  /** `GetMessagesSince(t)` yields each stored row newer than `t` as often
      as it is stored, and nothing else. */
  lemma SelectSinceCount(store: seq<Message>, t: int, m: Message)
    ensures multiset(SelectSince(store, t))[m] == if m.timestamp > t then multiset(store)[m] else 0
  {
    NewerCount(store, t, m);
  }

  /** The rows the engine yields for the query of `GetMessages`. */
  function SelectAll(store: seq<Message>): (r: seq<Message>)
    ensures Descending(r)
    ensures multiset(r) == multiset(store)
  {
    ReverseAscending(SortByTime(store));
    Reverse(SortByTime(store))
  }

  // ---------------------------------------------------------------------
  // The driver's row loop

  /** The `for rows.Next() { rows.Scan(...); append }` loop, with the
      iteration error checked after the loop: a failure on any row gives an
      error and no partial list. */
  method CollectRows(rows: seq<Message>, fault: Fault) returns (r: Result<seq<Message>>)
    requires fault != QueryFault
    ensures r.Ok? <==> !Interrupts(fault, |rows|)
    ensures r.Ok? ==> r.value == rows
    ensures r.Err? ==> r.error == ErrorOf(fault)
  {
    var messages: seq<Message> := [];
    var i := 0;
    while i < |rows|
      invariant 0 <= i <= |rows|
      invariant messages == rows[..i]
      invariant forall j :: 0 <= j < i ==> fault != ScanFaultAt(j) && fault != IterationFaultAt(j)
    {
      if fault == IterationFaultAt(i) {
        // rows.Next() reports false; rows.Err() holds the cause
        return Err(IterationFailed);
      }
      if fault == ScanFaultAt(i) {
        return Err(ScanFailed);
      }
      messages := messages + [rows[i]];
      i := i + 1;
    }
    assert rows[..i] == rows;
    return Ok(messages);
  }

  /** The same loop as dbconnect.go writes it: `rows.Err()` is never
      consulted, so an iteration failure ends the loop early and the rows
      read so far come back as a success. */
  method CollectRowsAsWritten(rows: seq<Message>, fault: Fault) returns (r: Result<seq<Message>>)
    requires fault != QueryFault
    ensures fault.IterationFaultAt? && fault.row < |rows| ==> r == Ok(rows[..fault.row])
    ensures fault.ScanFaultAt? && fault.row < |rows| ==> r == Err(ScanFailed)
    ensures !Interrupts(fault, |rows|) ==> r == Ok(rows)
  {
    var messages: seq<Message> := [];
    var i := 0;
    while i < |rows|
      invariant 0 <= i <= |rows|
      invariant messages == rows[..i]
      invariant forall j :: 0 <= j < i ==> fault != ScanFaultAt(j) && fault != IterationFaultAt(j)
    {
      if fault == IterationFaultAt(i) {
        break;
      }
      if fault == ScanFaultAt(i) {
        return Err(ScanFailed);
      }
      messages := messages + [rows[i]];
      i := i + 1;
    }
    if i == |rows| {
      assert rows[..i] == rows;
    }
    return Ok(messages);
  }

  // ---------------------------------------------------------------------
  // The store interface

  /** `GetMessagesSince(t)`: exactly the stored messages newer than `t`,
      oldest first, or an error and no list. */
  method GetMessagesSince(store: seq<Message>, t: int, fault: Fault) returns (r: Result<seq<Message>>)
    ensures r.Ok? <==> !Interrupts(fault, |SelectSince(store, t)|)
    ensures r.Err? ==> r.error == ErrorOf(fault)
    ensures r.Ok? ==> r.value == SelectSince(store, t)
    ensures r.Ok? ==> Ascending(r.value)
    ensures r.Ok? ==> forall m :: m in r.value <==> m in store && m.timestamp > t
  {
    if fault == QueryFault {
      return Err(QueryFailed);
    }
    r := CollectRows(SelectSince(store, t), fault);
  }

  /** `GetMessagesSince(t)` as dbconnect.go writes it, over the row loop
      that never consults `rows.Err()`: an iteration failure returns the
      leading rows of the result as a success. */
  method GetMessagesSinceAsWritten(store: seq<Message>, t: int, fault: Fault) returns (r: Result<seq<Message>>)
    ensures fault == QueryFault ==> r == Err(QueryFailed)
    ensures fault.ScanFaultAt? && fault.row < |SelectSince(store, t)| ==> r == Err(ScanFailed)
    ensures fault.IterationFaultAt? && fault.row < |SelectSince(store, t)| ==> r == Ok(SelectSince(store, t)[..fault.row])
    ensures !Interrupts(fault, |SelectSince(store, t)|) ==> r == Ok(SelectSince(store, t))
    ensures r.Ok? ==> r.value <= SelectSince(store, t)
  {
    if fault == QueryFault {
      return Err(QueryFailed);
    }
    r := CollectRowsAsWritten(SelectSince(store, t), fault);
  }

  /** `GetMessages()`: every stored message, newest first, or an error. */
  method GetMessages(store: seq<Message>, fault: Fault) returns (r: Result<seq<Message>>)
    ensures r.Ok? <==> !Interrupts(fault, |store|)
    ensures r.Err? ==> r.error == ErrorOf(fault)
    ensures r.Ok? ==> Descending(r.value) && multiset(r.value) == multiset(store)
  {
    if fault == QueryFault {
      return Err(QueryFailed);
    }
    r := CollectRows(SelectAll(store), fault);
  }

  /** `GetUsernameByID`: never fails; a missing row (or any other lookup
      error) yields the placeholder. */
  function GetUsernameByID(users: map<int, string>, id: int): (name: string)
    ensures id in users ==> name == users[id]
    ensures id !in users ==> name == Unknown
  {
    if id in users then users[id] else Unknown
  }

  /** `InsertMessage`: appends the message with the clock value `now`; the
      argument's own timestamp is not stored. */
  function InsertMessage(store: seq<Message>, msg: Message, now: int, fails: bool): (r: Result<seq<Message>>)
    ensures r.Ok? <==> !fails
    ensures r.Err? ==> r.error == ExecFailed
    ensures r.Ok? ==> |r.value| == |store| + 1 && r.value[..|store|] == store
    ensures r.Ok? ==> r.value[|store|] == msg.(timestamp := now)
  {
    if fails then Err(ExecFailed)
    else Ok(store + [Message(msg.senderId, msg.content, now)])
  }

  // ---------------------------------------------------------------------
  // Properties of the queries

  /** The first poll, from the zero time, returns the whole history once
      every stored timestamp lies after the zero time. */
  lemma FirstPollReturnsHistory(store: seq<Message>)
    requires forall m :: m in store ==> m.timestamp > ZeroTime
    ensures multiset(SelectSince(store, ZeroTime)) == multiset(store)
  {
    var r := SelectSince(store, ZeroTime);
    forall m ensures multiset(r)[m] == multiset(store)[m] {
      SelectSinceCount(store, ZeroTime, m);
      if m.timestamp <= ZeroTime {
        assert m !in store;
      }
    }
  }

  /** A history stored in timestamp order, all after the zero time, comes
      back from the first poll whole and in that order. */
  lemma FirstPollOfOrderedHistory(store: seq<Message>)
    requires Ascending(store)
    requires forall m :: m in store ==> m.timestamp > ZeroTime
    ensures SelectSince(store, ZeroTime) == store
  {
    SelectSinceOfOrderedStore(store, ZeroTime);
    NewerKeepsAllNewer(store, ZeroTime);
  }

  /** With the store already in timestamp order, the query is an
      order-preserving filter. */
  lemma {:induction false} SelectSinceOfOrderedStore(store: seq<Message>, t: int)
    requires Ascending(store)
    ensures SelectSince(store, t) == Newer(store, t)
  {
    NewerKeepsAscending(store, t);
    SortByTimeKeepsAscending(Newer(store, t));
  }

  lemma {:induction false} NewerKeepsAscending(store: seq<Message>, t: int)
    requires Ascending(store)
    ensures Ascending(Newer(store, t))
  {
    if store != [] {
      NewerKeepsAscending(store[1..], t);
      var rest := Newer(store[1..], t);
      forall x | x in rest ensures store[0].timestamp <= x.timestamp {
        var k :| 0 <= k < |store[1..]| && store[1..][k] == x;
      }
    }
  }

  /** A filter that every row passes returns the store as it is. */
  lemma {:induction false} NewerKeepsAllNewer(store: seq<Message>, t: int)
    requires forall m :: m in store ==> m.timestamp > t
    ensures Newer(store, t) == store
  {
    if store != [] {
      assert store[0] in store;
      assert forall m :: m in store[1..] ==> m in store;
      NewerKeepsAllNewer(store[1..], t);
      assert [store[0]] + store[1..] == store;
    }
  }

  /** A poll comes back empty exactly when nothing stored is newer than the
      cursor. */
  lemma EmptyPollIffNothingNewer(store: seq<Message>, t: int)
    ensures SelectSince(store, t) == [] <==> forall m :: m in store ==> m.timestamp <= t
  {
    var r := SelectSince(store, t);
    if r != [] {
      assert r[0] in r;
    }
  }

  /** A message stored at a time after the cursor is in the next poll. */
  lemma InsertAfterCursorIsPolled(store: seq<Message>, msg: Message, now: int, t: int)
    requires now > t
    ensures InsertMessage(store, msg, now, false).Ok?
    ensures msg.(timestamp := now) in SelectSince(InsertMessage(store, msg, now, false).value, t)
  {
    var s := InsertMessage(store, msg, now, false).value;
    assert s[|store|] in s;
  }

  /** A message stored at a time not after the cursor is never returned by
      a poll from that cursor or any later one. */
  lemma InsertAtOrBeforeCursorIsNeverPolled(store: seq<Message>, msg: Message, now: int, t: int, later: int)
    requires now <= t <= later
    ensures InsertMessage(store, msg, now, false).Ok?
    ensures msg.(timestamp := now) !in SelectSince(InsertMessage(store, msg, now, false).value, later)
  {
  }
}
