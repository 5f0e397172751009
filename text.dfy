/**
 * Text-file primitives of the log: Python's text-mode `readlines()`, `''.join(...)`
 * and the slice `xs[i:]` with a possibly negative start.
 *
 * `readlines()` cuts a text just after every newline; every piece keeps its newline,
 * and a last piece without one is kept too. A list of pieces with that shape is
 * "well split", and joining and splitting are inverse on well-split lists.
 */
module Text {

  /** `''.join(ls)`: the concatenation of the strings in order. */
  function Join(ls: seq<string>): string
  {
    if ls == [] then [] else ls[0] + Join(ls[1..])
  }

  /** A non-empty piece of text with no newline except possibly as its last character. */
  predicate IsFragment(l: string)
  {
    l != [] && forall k :: 0 <= k < |l| - 1 ==> l[k] != '\n'
  }

  /** A complete line: a fragment that ends in a newline. */
  predicate IsLine(l: string)
  {
    IsFragment(l) && l[|l| - 1] == '\n'
  }

  /** The text is empty or its last line is complete. */
  predicate Terminated(s: string)
  {
    s == [] || s[|s| - 1] == '\n'
  }

  /** The shape of what `readlines()` returns: fragments, all complete lines but the last. */
  predicate WellSplit(ls: seq<string>)
  {
    (forall i :: 0 <= i < |ls| ==> IsFragment(ls[i])) &&
    (forall i :: 0 <= i < |ls| - 1 ==> IsLine(ls[i]))
  }

  /** The length of the first line of `s`: one past its first newline, or all of `s`. */
  function LineEnd(s: string): (n: nat)
    requires s != []
    ensures 0 < n <= |s|
    ensures forall k :: 0 <= k < n - 1 ==> s[k] != '\n'
    ensures n < |s| ==> s[n - 1] == '\n'
  {
    if s[0] == '\n' || |s| == 1 then 1 else 1 + LineEnd(s[1..])
  }

  /** Python's `readlines()` on the text `s`. */
  function ReadLines(s: string): (ls: seq<string>)
    ensures |ls| <= |s|
    ensures ls == [] <==> s == []
    decreases |s|
  {
    if s == [] then []
    else
      var n := LineEnd(s);
      [s[..n]] + ReadLines(s[n..])
  }

  /** `readlines()` loses nothing: its pieces join back to the text, and they are well split. */
  lemma {:induction false} ReadLinesSplits(s: string)
    ensures Join(ReadLines(s)) == s
    ensures WellSplit(ReadLines(s))
    decreases |s|
  {
    if s != [] {
      var n := LineEnd(s);
      var rest := ReadLines(s[n..]);
      assert ReadLines(s) == [s[..n]] + rest;
      assert Join(rest) == s[n..] && WellSplit(rest) by { ReadLinesSplits(s[n..]); }
      assert IsFragment(s[..n]) && (rest != [] ==> IsLine(s[..n])) by { FirstLine(s); }
      assert WellSplit([s[..n]] + rest) by { ConsLine(s[..n], rest); }
      assert Join([s[..n]] + rest) == s by {
        ConsLine(s[..n], rest);
        assert s == s[..n] + s[n..];
      }
    }
  }

  /** The first piece `readlines()` cuts is a fragment, and a complete line when text follows it. */
  lemma FirstLine(s: string)
    requires s != []
    ensures IsFragment(s[..LineEnd(s)])
    ensures LineEnd(s) < |s| ==> IsLine(s[..LineEnd(s)])
  {
  }

  /** Putting a first line in front of a well-split list. */
  lemma ConsLine(h: string, rest: seq<string>)
    requires IsFragment(h) && WellSplit(rest)
    requires rest != [] ==> IsLine(h)
    ensures WellSplit([h] + rest)
    ensures Join([h] + rest) == h + Join(rest)
  {
    var ls := [h] + rest;
    assert ls[1..] == rest;
    forall i | 1 <= i < |ls| ensures ls[i] == rest[i - 1] { }
  }

  /** Python's `xs[i:]`: a negative start counts from the end; out-of-range starts are clamped. */
  function SliceFrom<T>(xs: seq<T>, i: int): (r: seq<T>)
    ensures |r| <= |xs| && r == xs[|xs| - |r|..]
    ensures 0 <= i <= |xs| ==> |r| == |xs| - i
    ensures -|xs| <= i < 0 ==> |r| == -i
  {
    var start := if i < 0 then (if i + |xs| < 0 then 0 else i + |xs|)
                 else (if i > |xs| then |xs| else i);
    xs[start..]
  }

  function Min(a: int, b: int): int
  {
    if a <= b then a else b
  }

  /** `xs[-n:]` is the last `min(n, |xs|)` elements of `xs`, in their original order. */
  lemma LastSlice<T>(xs: seq<T>, n: nat)
    requires n > 0
    ensures var r := SliceFrom(xs, -(n as int));
            |r| == Min(n, |xs|) && r == xs[|xs| - |r|..]
  {
  }

  /** `''.join` distributes over list concatenation. */
  lemma {:induction false} JoinConcat(a: seq<string>, b: seq<string>)
    ensures Join(a + b) == Join(a) + Join(b)
  {
    if a == [] {
      assert a + b == b;
    } else {
      assert (a + b)[0] == a[0];
      assert (a + b)[1..] == a[1..] + b;
      JoinConcat(a[1..], b);
    }
  }

  /** Joining a non-empty list ends with its last element. */
  lemma JoinLast(ls: seq<string>)
    requires ls != []
    ensures Join(ls) == Join(ls[..|ls| - 1]) + ls[|ls| - 1]
  {
    var m := |ls| - 1;
    assert ls == ls[..m] + [ls[m]];
    JoinConcat(ls[..m], [ls[m]]);
    assert [ls[m]][1..] == [];
  }

  /** `LineEnd` is the only cut point that ends the first line. */
  lemma LineEndAt(s: string, m: nat)
    requires 0 < m <= |s|
    requires forall k :: 0 <= k < m - 1 ==> s[k] != '\n'
    requires m == |s| || s[m - 1] == '\n'
    ensures LineEnd(s) == m
  {
  }

  /** Splitting undoes joining: `readlines()` of a joined well-split list gives the list back. */
  lemma {:induction false} ReadLinesJoin(ls: seq<string>)
    requires WellSplit(ls)
    ensures ReadLines(Join(ls)) == ls
  {
    if ls != [] {
      var s := Join(ls);
      var h := ls[0];
      var tail := ls[1..];
      assert s == h + Join(tail);
      if tail == [] {
        assert s == h;
      } else {
        assert IsLine(h);
      }
      LineEndAt(s, |h|);
      assert s[..|h|] == h;
      assert s[|h|..] == Join(tail);
      assert WellSplit(tail) by {
        forall i | 0 <= i < |tail| - 1 ensures IsLine(tail[i]) {
          assert tail[i] == ls[i + 1];
        }
      }
      ReadLinesJoin(tail);
      assert ls == [h] + tail;
    }
  }

  /** Appending a complete line to a text that is empty or newline-terminated adds one element to `readlines()`. */
  lemma ReadLinesAppendLine(c: string, line: string)
    requires IsLine(line) && Terminated(c)
    ensures ReadLines(c + line) == ReadLines(c) + [line]
  {
    var ls := ReadLines(c);
    ReadLinesSplits(c);
    TerminatedLast(ls);
    SnocLine(ls, line);
    ReadLinesJoin(ls + [line]);
  }

  /** When the joined text ends in a newline, so does the last piece. */
  lemma TerminatedLast(ls: seq<string>)
    requires WellSplit(ls) && Terminated(Join(ls))
    ensures ls != [] ==> IsLine(ls[|ls| - 1])
  {
    if ls != [] {
      JoinLast(ls);
      var last := ls[|ls| - 1];
      assert Join(ls)[|Join(ls)| - 1] == last[|last| - 1];
    }
  }

  /** Adding a piece after a list whose last piece is a complete line. */
  lemma SnocLine(ls: seq<string>, l: string)
    requires WellSplit(ls) && IsFragment(l)
    requires ls != [] ==> IsLine(ls[|ls| - 1])
    ensures WellSplit(ls + [l])
    ensures Join(ls + [l]) == Join(ls) + l
  {
    SnocWellSplit(ls, l);
    JoinSnoc(ls, l);
  }

  lemma SnocWellSplit(ls: seq<string>, l: string)
    requires WellSplit(ls) && IsFragment(l)
    requires ls != [] ==> IsLine(ls[|ls| - 1])
    ensures WellSplit(ls + [l])
  {
    var ls' := ls + [l];
    forall i | 0 <= i < |ls'| ensures IsFragment(ls'[i]) {
      if i < |ls| { assert ls'[i] == ls[i]; }
    }
    forall i | 0 <= i < |ls'| - 1 ensures IsLine(ls'[i]) {
      assert ls'[i] == ls[i];
    }
  }

  lemma JoinSnoc(ls: seq<string>, l: string)
    ensures Join(ls + [l]) == Join(ls) + l
  {
    JoinConcat(ls, [l]);
    assert Join([l]) == l by { assert [l][1..] == []; }
  }

  lemma GlueLine(last: string, line: string)
    requires IsFragment(last) && last[|last| - 1] != '\n' && IsLine(line)
    ensures IsLine(last + line)
  {
    var merged := last + line;
    forall k | 0 <= k < |merged| - 1 ensures merged[k] != '\n' {
      if k >= |last| { assert merged[k] == line[k - |last|]; }
    }
  }

  lemma ReplaceLast(ls: seq<string>, l: string)
    requires WellSplit(ls) && ls != [] && IsFragment(l)
    ensures WellSplit(ls[..|ls| - 1] + [l])
  {
    var ls' := ls[..|ls| - 1] + [l];
    forall i | 0 <= i < |ls| - 1 ensures IsLine(ls'[i]) { assert ls'[i] == ls[i]; }
  }

  /**
   * Appending a complete line to a text whose last line is unterminated glues the line
   * onto that last fragment: `readlines()` keeps its length.
   */
  lemma ReadLinesAppendMerge(c: string, line: string)
    requires IsLine(line) && !Terminated(c)
    ensures var ls := ReadLines(c);
            ls != [] && ReadLines(c + line) == ls[..|ls| - 1] + [ls[|ls| - 1] + line]
  {
    var ls := ReadLines(c);
    ReadLinesSplits(c);
    var ls' := ls[..|ls| - 1] + [ls[|ls| - 1] + line];
    assert WellSplit(ls') && Join(ls') == c + line by {
      MergeLast(ls, line);
    }
    ReadLinesJoin(ls');
  }

  /** Gluing a complete line onto an unterminated last fragment keeps the list well split. */
  lemma MergeLast(ls: seq<string>, line: string)
    requires WellSplit(ls) && IsLine(line) && !Terminated(Join(ls))
    ensures ls != []
    ensures var ls' := ls[..|ls| - 1] + [ls[|ls| - 1] + line];
            WellSplit(ls') && Join(ls') == Join(ls) + line
  {
    var m := |ls| - 1;
    var last := ls[m];
    var merged := last + line;
    JoinLast(ls);
    GlueLine(last, line);
    ReplaceLast(ls, merged);
    JoinConcat(ls[..m], [merged]);
    assert Join([merged]) == merged by { assert [merged][1..] == []; }
  }

  /** A suffix of a well-split list is well split. */
  lemma SuffixWellSplit(ls: seq<string>, k: nat)
    requires WellSplit(ls) && k <= |ls|
    ensures WellSplit(ls[k..])
  {
    var t := ls[k..];
    forall i | 0 <= i < |t| ensures t[i] == ls[i + k] { }
  }

  /** A suffix of a well-split list re-splits to itself. */
  lemma SuffixResplits(ls: seq<string>, k: nat)
    requires WellSplit(ls) && k <= |ls|
    ensures ReadLines(Join(ls[k..])) == ls[k..]
  {
    SuffixWellSplit(ls, k);
    ReadLinesJoin(ls[k..]);
  }

  /** Joining a list is joining its prefix and then its suffix. */
  lemma JoinSplitAt(ls: seq<string>, k: nat)
    requires k <= |ls|
    ensures Join(ls) == Join(ls[..k]) + Join(ls[k..])
  {
    JoinConcat(ls[..k], ls[k..]);
    assert ls[..k] + ls[k..] == ls;
  }
}
