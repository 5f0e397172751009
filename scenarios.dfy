/**
 * Request sequences and what they must produce. The status-check scenarios are stated
 * on the handler functions (`StatusCheck`, folded by `Checks`) starting from an empty,
 * readable and appendable log; they carry over to `Server.Estado`, whose contract makes
 * its effect that of `StatusCheck`. The shutdown scenario drives a fresh `Server`.
 */
module Scenarios {
  import opened Wrappers
  import opened Text
  import opened EventLog
  import opened Gateway

  /** A readable, appendable, newline-terminated log file whose lines are `ls`. */
  predicate Holds(f: LogFile, ls: seq<string>)
  {
    f.Present? && f.readable && f.writable && Terminated(f.content) && Lines(f) == ls
  }

  /** One status check on such a file adds its line and keeps it readable and appendable. */
  lemma StatusCheckAdds(f: LogFile, ls: seq<string>, ts: Stamp)
    requires Holds(f, ls)
    ensures Holds(StatusCheck(f, ts).file, ls + [FormatLine(ts, StatusMessage)])
  {
    assert '\n' !in StatusMessage;
  }

  /** The log file after one status check per stamp, in order, starting from `f`. */
  function Checks(f: LogFile, stamps: seq<Stamp>): LogFile
  {
    if stamps == [] then f
    else StatusCheck(Checks(f, stamps[..|stamps| - 1]), stamps[|stamps| - 1]).file
  }

  /** The status-check lines of `stamps`, in order. */
  function CheckLines(stamps: seq<Stamp>): (ls: seq<string>)
    ensures |ls| == |stamps|
    ensures forall i :: 0 <= i < |ls| ==> ls[i] == FormatLine(stamps[i], StatusMessage)
  {
    if stamps == [] then []
    else
      var n := |stamps| - 1;
      var front := CheckLines(stamps[..n]);
      var last := FormatLine(stamps[n], StatusMessage);
      var ls := front + [last];
      assert forall i :: 0 <= i < |ls| ==> ls[i] == FormatLine(stamps[i], StatusMessage) by {
        forall i | 0 <= i < |ls| ensures ls[i] == FormatLine(stamps[i], StatusMessage) {
          if i < n {
            assert ls[i] == front[i];
            assert stamps[..n][i] == stamps[i];
          } else {
            assert i == n && ls[i] == last;
          }
        }
      }
      ls
  }

  /** Status checks on a readable, appendable file add exactly their lines, in call order. */
  lemma {:induction false} ChecksAppend(f: LogFile, ls: seq<string>, stamps: seq<Stamp>)
    requires Holds(f, ls)
    ensures Holds(Checks(f, stamps), ls + CheckLines(stamps))
  {
    if stamps == [] {
      assert ls + CheckLines(stamps) == ls;
    } else {
      var n := |stamps| - 1;
      var g := Checks(f, stamps[..n]);
      var h := StatusCheck(g, stamps[n]).file;
      var before := ls + CheckLines(stamps[..n]);
      var line := FormatLine(stamps[n], StatusMessage);
      assert Checks(f, stamps) == h;
      ChecksAppend(f, ls, stamps[..n]);
      StatusCheckAdds(g, before, stamps[n]);
      assert ls + CheckLines(stamps) == before + [line] by {
        assert CheckLines(stamps) == CheckLines(stamps[..n]) + [line];
        assert ls + (CheckLines(stamps[..n]) + [line]) == (ls + CheckLines(stamps[..n])) + [line];
      }
    }
  }

  /** `/logs` on such a file answers 200 with its last (at most ten) lines. */
  lemma LogsOfHolding(f: LogFile, ls: seq<string>, reason: string)
    requires Holds(f, ls)
    ensures ViewLogs(f, reason).status == 200
    ensures ReadLines(ViewLogs(f, reason).body) == ls[|ls| - Min(MaxShown, |ls|)..]
  {
  }

  /**
   * Status checks on an empty log followed by `/logs`: the answer is 200 and holds the
   * last (at most ten) status-check lines, oldest first (each reads back as its call's
   * event by `FormatLine`'s contract).
   */
  lemma StatusChecksThenLogs(stamps: seq<Stamp>, reason: string)
    ensures var r := ViewLogs(Checks(Present([], true, true), stamps), reason);
            r.status == 200 &&
            ReadLines(r.body) == CheckLines(stamps)[|stamps| - Min(MaxShown, |stamps|)..]
  {
    assert Holds(Present([], true, true), []);
    LogsAfterChecks(Present([], true, true), stamps, reason);
  }

  /** Status checks on any empty, readable, appendable log followed by `/logs`. */
  lemma LogsAfterChecks(f0: LogFile, stamps: seq<Stamp>, reason: string)
    requires Holds(f0, [])
    ensures var r := ViewLogs(Checks(f0, stamps), reason);
            r.status == 200 &&
            ReadLines(r.body) == CheckLines(stamps)[|stamps| - Min(MaxShown, |stamps|)..]
  {
    var all := CheckLines(stamps);
    assert Holds(Checks(f0, stamps), all) by {
      ChecksAppend(f0, [], stamps);
      assert [] + all == all;
    }
    LogsOfHolding(Checks(f0, stamps), all, reason);
  }

  /** Five status checks on an empty log, then `/logs`: exactly those five lines, in call order. */
  lemma FiveStatusChecksThenLogs(stamps: seq<Stamp>, reason: string)
    requires |stamps| == 5
    ensures var r := ViewLogs(Checks(Present([], true, true), stamps), reason);
            r.status == 200 && ReadLines(r.body) == CheckLines(stamps)
  {
    StatusChecksThenLogs(stamps, reason);
    assert CheckLines(stamps)[0..] == CheckLines(stamps);
  }

  /** Two complete lines, written one after the other into an empty file, read back as two lines. */
  lemma TwoLines(l1: string, l2: string)
    requires IsLine(l1) && IsLine(l2)
    ensures ReadLines(l1 + l2) == [l1, l2]
  {
    ReadLinesAppendLine([], l1);
    assert [] + l1 == l1;
    ReadLinesAppendLine(l1, l2);
  }

  /**
   * A shutdown request with the right token, then one with a wrong token: 200 then 403,
   * one shutdown run, and a log of one success line followed by one failure line.
   */
  method ShutdownRightThenWrong(t1: Stamp, t2: Stamp, code: int) returns (s1: int, s2: int, log: seq<string>, ran: seq<Action>)
    ensures s1 == 200 && s2 == 403
    ensures ran == [Shutdown]
    ensures log == [FormatLine(t1, RequestedMessage(Shutdown)), FormatLine(t2, DeniedMessage(Shutdown))]
  {
    var l1 := FormatLine(t1, RequestedMessage(Shutdown));
    var l2 := FormatLine(t2, DeniedMessage(Shutdown));
    var server := new Server(Missing(true));
    var b1, b2;
    b1, s1 := server.Apagar(Some(TokenSeguro), t1, Completed(code));
    assert server.file == Present(l1, true, true) && server.commands == [Shutdown];
    b2, s2 := server.Apagar(Some("wrong"), t2, Completed(code));
    assert server.file == Present(l1 + l2, true, true) && server.commands == [Shutdown];
    TwoLines(l1, l2);
    log := Lines(server.file);
    ran := server.commands;
  }
}
