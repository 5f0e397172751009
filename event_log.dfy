/**
 * The append-only event log: the line format written by `log_event`, the log file as the
 * daemon sees it, appending one event, and the `/logs` read of the last ten lines.
 */
module EventLog {
  import opened Wrappers
  import opened Text

  /**
   * A timestamp as `str(datetime.now())` renders it ("2024-05-01 13:45:02.123456"):
   * it never holds a closing bracket or a newline.
   */
  type Stamp = s: string | ']' !in s && '\n' !in s

  /** One logged event. */
  datatype Entry = Entry(stamp: string, message: string)

  /** The index of the first `c` in `s`, or `|s|` when there is none. */
  function IndexOf(s: string, c: char): (i: nat)
    ensures i <= |s|
    ensures i < |s| ==> s[i] == c
    ensures forall k :: 0 <= k < i ==> s[k] != c
  {
    if s == [] then 0
    else if s[0] == c then 0
    else 1 + IndexOf(s[1..], c)
  }

  /** Reads a log line `[<stamp>] <message>\n` back into its parts. */
  function ParseLine(line: string): Option<Entry>
  {
    if |line| < 4 || line[0] != '[' || line[|line| - 1] != '\n' then None
    else
      var inner := line[1..|line| - 1];
      var i := IndexOf(inner, ']');
      if i + 1 < |inner| && inner[i + 1] == ' ' then Some(Entry(inner[..i], inner[i + 2..]))
      else None
  }

  /**
   * The line `log_event` writes for `msg` at time `ts`. Its parts can be read back,
   * and it is one complete line whenever the message holds no newline.
   */
  function FormatLine(ts: Stamp, msg: string): (line: string)
    ensures ParseLine(line) == Some(Entry(ts, msg))
    ensures '\n' !in msg ==> IsLine(line)
  {
    var line := "[" + ts + "] " + msg + "\n";
    var inner := ts + "] " + msg;
    assert line[1..|line| - 1] == inner;
    assert IndexOf(inner, ']') == |ts| by {
      assert inner[|ts|] == ']';
      assert forall k :: 0 <= k < |ts| ==> inner[k] == ts[k];
    }
    assert inner[..|ts|] == ts;
    assert inner[|ts| + 2..] == msg;
    assert '\n' !in msg ==> IsLine(line) by {
      if '\n' !in msg {
        forall k | 0 <= k < |line| - 1 ensures line[k] != '\n' {
          if 1 <= k <= |ts| { assert line[k] == ts[k - 1]; }
          if |ts| + 3 <= k { assert line[k] == msg[k - |ts| - 3]; }
        }
      }
    }
    line
  }

  /**
   * The log file at its fixed path. A missing file is created on the first append when
   * its directory allows it; an existing one may deny reading or appending.
   */
  datatype LogFile =
    | Missing(creatable: bool)
    | Present(content: string, readable: bool, writable: bool)

  /** The text of the file; a missing file holds none. */
  function Content(f: LogFile): string
  {
    if f.Missing? then [] else f.content
  }

  /** The events in the file, as `readlines()` would give them. */
  function Lines(f: LogFile): seq<string>
  {
    ReadLines(Content(f))
  }

  /** `open(LOG_PATH, "a")` succeeds. */
  predicate CanAppend(f: LogFile)
  {
    if f.Missing? then f.creatable else f.writable
  }

  /**
   * Appending `line` in "a" mode: None when the open raises. The old text is kept
   * unchanged in front of the line; a missing file becomes a file holding just the line.
   */
  function Append(f: LogFile, line: string): (r: Option<LogFile>)
    ensures r.Some? <==> CanAppend(f)
    ensures r.Some? ==> r.value.Present? && Content(r.value) == Content(f) + line
    ensures r.Some? && f.Missing? ==> r.value == Present(line, true, true)
    ensures r.Some? && f.Present? ==> r.value.readable == f.readable && r.value.writable == f.writable
    ensures r.Some? && IsLine(line) && Terminated(Content(f)) ==> Lines(r.value) == Lines(f) + [line]
    ensures r.Some? && IsLine(line) && Terminated(Content(f)) ==> Terminated(Content(r.value))
  {
    match f
    case Missing(creatable) =>
      if creatable then
        assert [] + line == line;
        assert IsLine(line) ==> ReadLines(line) == [line] by {
          if IsLine(line) { ReadLinesAppendLine([], line); }
        }
        Some(Present(line, true, true))
      else None
    case Present(content, readable, writable) =>
      if writable then
        assert IsLine(line) && Terminated(content) ==>
                 ReadLines(content + line) == ReadLines(content) + [line] by {
          if IsLine(line) && Terminated(content) { ReadLinesAppendLine(content, line); }
        }
        Some(Present(content + line, readable, writable))
      else None
  }

  /** The number of lines `/logs` returns at most. */
  const MaxShown := 10

  /** The fixed start of the `/logs` error body; the exception's text follows it. */
  const ReadErrorPrefix := "Error leyendo el log: "

  /** A response body with its HTTP status. */
  datatype Response = Response(body: string, status: int)

  /**
   * `GET /logs`: the last (at most ten) lines of the file, joined, with 200; or 500 with
   * the exception's text `reason` when the file is missing or cannot be read.
   */
  function ViewLogs(f: LogFile, reason: string): (r: Response)
    ensures r.status == 200 <==> f.Present? && f.readable
    ensures r.status != 200 ==> r.status == 500 && r.body == ReadErrorPrefix + reason
    ensures r.status == 200 ==>
              var ls := Lines(f);
              var n := Min(MaxShown, |ls|);
              ReadLines(r.body) == ls[|ls| - n..] &&
              f.content == Join(ls[..|ls| - n]) + r.body
  {
    if f.Present? && f.readable then
      var ls := ReadLines(f.content);
      ReadLinesSplits(f.content);
      var shown := SliceFrom(ls, -MaxShown);
      LastSlice(ls, MaxShown);
      SuffixResplits(ls, |ls| - |shown|);
      JoinSplitAt(ls, |ls| - |shown|);
      Response(Join(shown), 200)
    else
      Response(ReadErrorPrefix + reason, 500)
  }
}
