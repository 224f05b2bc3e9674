/** The text/event-stream wire format of the Server-Sent Events section of
    the WHATWG HTML Living Standard (section 9.2): the framing the server
    writes, and the interpretation a receiving EventSource applies to it
    (section 9.2.6, "Interpreting an event stream"), restricted to what
    reaches a `message` event's `data`. */
module EventStream {

  predicate NoLineBreak(s: string) {
    '\n' !in s && '\r' !in s
  }

  lemma NoLineBreakConcat(a: string, b: string)
    requires NoLineBreak(a) && NoLineBreak(b)
    ensures NoLineBreak(a + b)
  {
  }

  /** One event carrying `data` in a single `data:` field: one field line,
      then the blank line that ends the event. */
  function Frame(data: string): (frame: string)
    ensures |frame| == |data| + 8 && frame[|frame| - 2..] == "\n\n"
    ensures NoLineBreak(data) ==> NoLineBreak(frame[..|frame| - 2])
  {
    var line := "data: " + data;
    assert NoLineBreak(data) ==> NoLineBreak(line) by {
      if NoLineBreak(data) {
        assert NoLineBreak("data: ");
        NoLineBreakConcat("data: ", data);
      }
    }
    assert (line + "\n\n")[..|line|] == line;
    line + "\n\n"
  }

  function Frames(ds: seq<string>): (r: seq<string>)
    ensures |r| == |ds|
    ensures forall i :: 0 <= i < |ds| ==> r[i] == Frame(ds[i])
  {
    if ds == [] then [] else Frames(ds[..|ds| - 1]) + [Frame(ds[|ds| - 1])]
  }

  /** The bytes of successive writes, as they reach the client. */
  function Concat(ss: seq<string>): string {
    if ss == [] then "" else Concat(ss[..|ss| - 1]) + ss[|ss| - 1]
  }

  // ---------------------------------------------------------------------
  // The receiving side

  /** The parser's buffers: the current line, the data buffer, and whether
      the previous character was a CR (so that a following LF belongs to
      the same CRLF line end). */
  datatype Parser = Parser(line: string, data: string, afterCR: bool)

  const Start: Parser := Parser("", "", false)

  datatype Parsed = Parsed(events: seq<string>, state: Parser)

  /** The position of the first colon in `line`, or `|line|` if it has none. */
  function ColonIndex(line: string): (k: nat)
    ensures k <= |line|
    ensures k < |line| ==> line[k] == ':'
    ensures forall j :: 0 <= j < k ==> line[j] != ':'
  {
    if line == [] then 0
    else if line[0] == ':' then 0
    else 1 + ColonIndex(line[1..])
  }

  /** Processes one non-empty line. The field name runs up to the first
      colon; the value follows it, less one leading space. A `data` field
      appends its value and a LF to the data buffer. Comment lines (empty
      field name) and the fields `event`, `id` and `retry` leave the data
      buffer as it is. */
  function ProcessField(line: string, data: string): string {
    var k := ColonIndex(line);
    var value := if k < |line| then line[k + 1..] else "";
    var value' := if value != [] && value[0] == ' ' then value[1..] else value;
    if line[..k] == "data" then data + value' + "\n" else data
  }

  /** A blank line dispatches the data buffer, without its final LF, unless
      the buffer is empty. */
  function Dispatch(data: string): seq<string> {
    if data == "" then []
    else if data[|data| - 1] == '\n' then [data[..|data| - 1]]
    else [data]
  }

  function Consume(p: Parser, c: char): Parsed {
    if c == '\n' && p.afterCR then Parsed([], p.(afterCR := false))
    else if c == '\n' || c == '\r' then
      if p.line == "" then Parsed(Dispatch(p.data), Parser("", "", c == '\r'))
      else Parsed([], Parser("", ProcessField(p.line, p.data), c == '\r'))
    else Parsed([], Parser(p.line + [c], p.data, false))
  }

  /** The events dispatched while `s` is read from state `p`, and the state
      reached. An unterminated event at the end is not dispatched. */
  function Parse(s: string, p: Parser): Parsed {
    if s == [] then Parsed([], p)
    else
      var first := Consume(p, s[0]);
      var rest := Parse(s[1..], first.state);
      Parsed(first.events + rest.events, rest.state)
  }

  // ---------------------------------------------------------------------
  // Properties

  /** Reading `a` and then `b` is reading `a + b`. */
  lemma {:induction false} ParseAppend(a: string, b: string, p: Parser)
    ensures Parse(a + b, p).events == Parse(a, p).events + Parse(b, Parse(a, p).state).events
    ensures Parse(a + b, p).state == Parse(b, Parse(a, p).state).state
  {
    if a == [] {
      assert a + b == b;
    } else {
      var first := Consume(p, a[0]);
      assert (a + b)[0] == a[0];
      assert (a + b)[1..] == a[1..] + b;
      ParseAppend(a[1..], b, first.state);
      var mid := Parse(a[1..], first.state).state;
      assert Parse(a, p).state == mid;
      assert Parse(a + b, p).events
          == first.events + (Parse(a[1..], first.state).events + Parse(b, mid).events);
    }
  }

  /** Text without line ends only extends the current line. */
  lemma {:induction false} ParseLineText(x: string, p: Parser)
    requires x != [] && NoLineBreak(x)
    ensures Parse(x, p) == Parsed([], Parser(p.line + x, p.data, false))
  {
    var q := Consume(p, x[0]).state;
    assert x[0] in x;
    assert q == Parser(p.line + [x[0]], p.data, false);
    if |x| == 1 {
      assert p.line + x == p.line + [x[0]];
    } else {
      assert forall c :: c in x[1..] ==> c in x;
      ParseLineText(x[1..], q);
      assert p.line + [x[0]] + x[1..] == p.line + x;
    }
  }

  /** A `data:` line puts its value, less the one space after the colon,
      into the data buffer. */
  lemma DataLine(data: string)
    ensures ProcessField("data: " + data, "") == data + "\n"
  {
    DataColon(data);
    DataParts(data);
  }

  lemma DataParts(data: string)
    ensures ("data: " + data)[..4] == "data"
    ensures ("data: " + data)[5..] == " " + data
  {
  }

  /** The field name of a `data:` line ends at its fifth character. */
  lemma DataColon(data: string)
    ensures ColonIndex("data: " + data) == 4
  {
    var line := "data: " + data;
    assert line[0] == 'd' && line[1] == 'a' && line[2] == 't' && line[3] == 'a' && line[4] == ':';
  }

  /** The two line ends after a field line: the first ends the line, the
      second is the blank line that dispatches. */
  lemma EventEnd(line: string)
    requires line != ""
    ensures Parse("\n\n", Parser(line, "", false))
         == Parsed(Dispatch(ProcessField(line, "")), Start)
  {
    var afterLine := Parser("", ProcessField(line, ""), false);
    assert Consume(Parser(line, "", false), '\n') == Parsed([], afterLine);
    assert "\n\n"[0] == '\n' && "\n\n"[1..] == "\n";
    assert "\n"[0] == '\n' && "\n"[1..] == "";
  }

  /** A client reads exactly `data` back from one frame, and is ready for
      the next one. */
  lemma ParseFrame(data: string)
    requires NoLineBreak(data)
    ensures Parse(Frame(data), Start) == Parsed([data], Start)
  {
    var line := "data: " + data;
    assert Frame(data) == line + "\n\n";
    assert NoLineBreak(line) by {
      assert "data: "[5] == ' ';
      assert '\n' !in "data: " && '\r' !in "data: ";
    }
    ParseLineText(line, Start);
    assert "" + line == line;
    var st := Parser(line, "", false);
    assert Parse(line, Start) == Parsed([], st);
    ParseAppend(line, "\n\n", Start);
    DataLine(data);
    EventEnd(line);
    assert (data + "\n")[..|data|] == data;
    assert Dispatch(data + "\n") == [data];
  }

  /** A client reads back every payload, in order, from a run of frames. */
  lemma {:induction false} ParseFrames(ds: seq<string>)
    requires forall d :: d in ds ==> NoLineBreak(d)
    ensures Parse(Concat(Frames(ds)), Start) == Parsed(ds, Start)
  {
    if ds != [] {
      var init := ds[..|ds| - 1];
      var last := ds[|ds| - 1];
      assert forall d :: d in init ==> d in ds;
      assert last in ds;
      ParseFrames(init);
      ConcatFramesSnoc(ds);
      ParseAppend(Concat(Frames(init)), Frame(last), Start);
      ParseFrame(last);
      assert init + [last] == ds;
    }
  }

  lemma ConcatFramesSnoc(ds: seq<string>)
    requires ds != []
    ensures Concat(Frames(ds)) == Concat(Frames(ds[..|ds| - 1])) + Frame(ds[|ds| - 1])
  {
  }
}
