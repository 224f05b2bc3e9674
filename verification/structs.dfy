/** The records shared by the store and the handlers (structs.go). */
module Structs {

  /** A stored chat message. A timestamp is an integer instant; `ZeroTime`
      is the instant held by an uninitialised Go `time.Time`. */
  datatype Message = Message(senderId: int, content: string, timestamp: int)

  const ZeroTime: int := 0

  /** Non-decreasing timestamp order, as `ORDER BY timestamp ASC` yields. */
  predicate Ascending(s: seq<Message>) {
    forall i, j :: 0 <= i < j < |s| ==> s[i].timestamp <= s[j].timestamp
  }

  /** Non-increasing timestamp order, as `ORDER BY timestamp DESC` yields. */
  predicate Descending(s: seq<Message>) {
    forall i, j :: 0 <= i < j < |s| ==> s[i].timestamp >= s[j].timestamp
  }

  function Reverse(s: seq<Message>): (r: seq<Message>)
    ensures |r| == |s|
    ensures forall i :: 0 <= i < |s| ==> r[i] == s[|s| - 1 - i]
    ensures multiset(r) == multiset(s)
  {
    if s == [] then []
    else
      assert s == [s[0]] + s[1..];
      Reverse(s[1..]) + [s[0]]
  }

  lemma {:induction false} ReverseAscending(s: seq<Message>)
    requires Ascending(s)
    ensures Descending(Reverse(s))
  {
    var r := Reverse(s);
    forall i, j | 0 <= i < j < |r| ensures r[i].timestamp >= r[j].timestamp {
      assert r[i] == s[|s| - 1 - i] && r[j] == s[|s| - 1 - j];
    }
  }
}
