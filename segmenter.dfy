/** The log-entry grouping rule of main.go's input loop, as a pure
    specification: lines are fed one at a time into an accumulator that holds
    the finished entries, the lines of the entry still open and whether the
    last line was indented. Each entry is kept as its sequence of lines; the
    text main.go hands to processLog is those lines joined with "\n"
    (`EntryTexts`). The loop itself is `Beautify.Beautify`. */
module Segmenter {
  import opened Text

  /** A line is indented when its first character is a space or a tab. */
  predicate IsIndented(line: string) {
    |line| > 0 && (line[0] == ' ' || line[0] == '\t')
  }

  /** The loop's state: the entries flushed so far, the lines of the open
      entry (`currentLog`) and `lastLineWasIndented`. */
  datatype Acc = Acc(entries: seq<seq<string>>, current: seq<string>, lastIndented: bool)

  /** The state before the first line. */
  const Start := Acc([], [], false)

  /** The entries once the open one, if any, has been flushed too. */
  function Closed(a: Acc): seq<seq<string>> {
    if a.current == [] then a.entries else a.entries + [a.current]
  }

  /** All lines of a sequence of entries, in order. */
  function Flatten(entries: seq<seq<string>>): seq<string>
    decreases |entries|
  {
    if |entries| == 0 then [] else Flatten(entries[..|entries| - 1]) + entries[|entries| - 1]
  }

  /** The input lines with the empty ones removed. */
  function NonEmptyLines(lines: seq<string>): (r: seq<string>)
    ensures forall i :: 0 <= i < |r| ==> r[i] != ""
    decreases |lines|
  {
    if |lines| == 0 then []
    else
      var last := lines[|lines| - 1];
      NonEmptyLines(lines[..|lines| - 1]) + (if last == "" then [] else [last])
  }

  /** One iteration of the loop: an empty line flushes the open entry and
      clears the flag; an unindented line flushes a non-empty open entry when
      the previous line was unindented too and then starts the next entry;
      every other line is appended to the open entry. */
  function Feed(a: Acc, line: string): (r: Acc)
    ensures line == "" ==> r.current == [] && !r.lastIndented && r.entries == Closed(a)
    ensures IsIndented(line) ==> r.entries == a.entries && r.current == a.current + [line] && r.lastIndented
    ensures line != "" && !IsIndented(line) ==>
      && !r.lastIndented
      && (r.entries == a.entries + [a.current] && r.current == [line] <==> a.current != [] && !a.lastIndented)
    ensures line != "" ==> Flatten(r.entries) + r.current == Flatten(a.entries) + a.current + [line]
  {
    if line == "" then Acc(Closed(a), [], false)
    else if !IsIndented(line) && a.current != [] && !a.lastIndented then
      Acc(a.entries + [a.current], [line], false)
    else Acc(a.entries, a.current + [line], IsIndented(line))
  }

  /** One step of the loop in terms of the text it builds: for a non-empty
      line, either the open entry is flushed and the line alone is the new
      open text, or the line is appended to the open text after a "\n"
      (none when nothing is open). */
  lemma FeedJoined(a: Acc, line: string)
    requires WellFormed(a) && line != ""
    ensures Join(a.current) == "" <==> a.current == []
    ensures var r := Feed(a, line);
      && r.lastIndented == IsIndented(line)
      && (!IsIndented(line) && a.current != [] && !a.lastIndented ==>
            r.entries == a.entries + [a.current] && Join(r.current) == line)
      && (IsIndented(line) || a.current == [] || a.lastIndented ==>
            r.entries == a.entries &&
            Join(r.current) == if a.current == [] then line else Join(a.current) + "\n" + line)
  {
    JoinEmpty(a.current);
    JoinAppend(a.current, line);
    JoinAppend([], line);
  }

  /** The state after feeding `lines`, in order, starting from `a`. */
  function FeedAll(a: Acc, lines: seq<string>): Acc
    decreases |lines|
  {
    if |lines| == 0 then a else Feed(FeedAll(a, lines[..|lines| - 1]), lines[|lines| - 1])
  }

  /** The entries, as sequences of lines, that the loop hands to processLog. */
  function Segment(lines: seq<string>): seq<seq<string>> {
    Closed(FeedAll(Start, lines))
  }

  /** Each entry's lines joined with "\n": the `currentLog.String()` values. */
  function JoinEach(entries: seq<seq<string>>): seq<string> {
    seq(|entries|, j requires 0 <= j < |entries| => Join(entries[j]))
  }

  /** The texts of the log entries of `lines`. */
  function EntryTexts(lines: seq<string>): seq<string> {
    JoinEach(Segment(lines))
  }

  /** Inside one entry, an unindented line other than the first always comes
      right after an indented one. */
  predicate Continued(entry: seq<string>) {
    forall k :: 0 < k < |entry| && !IsIndented(entry[k]) ==> IsIndented(entry[k - 1])
  }

  /** What every entry looks like: at least one line, no empty line, and
      unindented lines only after indented ones. */
  predicate GoodEntry(entry: seq<string>) {
    && |entry| > 0
    && (forall k :: 0 <= k < |entry| ==> entry[k] != "")
    && Continued(entry)
  }

  /** The invariant of the loop state: finished entries and the open entry
      are well formed and the flag describes the open entry's last line. */
  predicate WellFormed(a: Acc) {
    && (forall j :: 0 <= j < |a.entries| ==> GoodEntry(a.entries[j]))
    && (a.current != [] ==> GoodEntry(a.current) && a.lastIndented == IsIndented(a.current[|a.current| - 1]))
    && (a.current == [] ==> !a.lastIndented)
  }

  /** Feeding a line keeps the state well formed. */
  lemma FeedWellFormed(a: Acc, line: string)
    requires WellFormed(a)
    ensures WellFormed(Feed(a, line))
  {
    var r := Feed(a, line);
    if line != "" && r.entries == a.entries {
      var c := r.current;
      assert c == a.current + [line] || c == [line];
      forall k | 0 < k < |c| && !IsIndented(c[k])
        ensures IsIndented(c[k - 1])
      {
        if k < |c| - 1 {
          assert c[k] == a.current[k] && c[k - 1] == a.current[k - 1];
        }
      }
    }
  }

  /** Every state the loop reaches is well formed. */
  lemma {:induction false} FeedAllWellFormed(lines: seq<string>)
    ensures WellFormed(FeedAll(Start, lines))
    decreases |lines|
  {
    if |lines| > 0 {
      FeedAllWellFormed(lines[..|lines| - 1]);
      FeedWellFormed(FeedAll(Start, lines[..|lines| - 1]), lines[|lines| - 1]);
    }
  }

  /** Every entry has at least one line, none of its lines is empty, and
      inside it every unindented line but the first follows an indented one;
      `AdjacentUnindentedSplit` states the consequence for input lines. */
  lemma SegmentWellFormed(lines: seq<string>)
    ensures forall j :: 0 <= j < |Segment(lines)| ==> GoodEntry(Segment(lines)[j])
  {
    FeedAllWellFormed(lines);
  }

  /** The entries' texts are never empty. */
  lemma EntryTextsNonEmpty(lines: seq<string>)
    ensures forall j :: 0 <= j < |EntryTexts(lines)| ==> |EntryTexts(lines)[j]| > 0
  {
    SegmentWellFormed(lines);
    var s := Segment(lines);
    forall j | 0 <= j < |s|
      ensures |Join(s[j])| > 0
    {
      assert s[j][0] != "";
    }
  }

  /** The loop neither drops, repeats nor reorders a line: the finished
      entries followed by the open one hold exactly the non-empty lines read. */
  lemma {:induction false} FeedAllConserves(lines: seq<string>)
    ensures Flatten(FeedAll(Start, lines).entries) + FeedAll(Start, lines).current == NonEmptyLines(lines)
    decreases |lines|
  {
    if |lines| > 0 {
      var init := lines[..|lines| - 1];
      FeedAllConserves(init);
      var a := FeedAll(Start, init);
      var line := lines[|lines| - 1];
      if line == "" {
        if a.current != [] {
          assert (a.entries + [a.current])[..|a.entries|] == a.entries;
        }
      }
    }
  }

  /** Line conservation: the entries, in order, hold exactly the non-empty
      input lines. */
  lemma SegmentConserves(lines: seq<string>)
    ensures Flatten(Segment(lines)) == NonEmptyLines(lines)
  {
    FeedAllConserves(lines);
    var a := FeedAll(Start, lines);
    if a.current != [] {
      assert (a.entries + [a.current])[..|a.entries|] == a.entries;
    }
  }

  /** The lines of every entry text, split on "\n" again and concatenated in
      order, are the non-empty input lines (input lines hold no "\n"). */
  lemma EntryTextsConserve(lines: seq<string>)
    requires forall i :: 0 <= i < |lines| ==> '\n' !in lines[i]
    ensures |EntryTexts(lines)| == |Segment(lines)|
    ensures forall j :: 0 <= j < |EntryTexts(lines)| ==> Split(EntryTexts(lines)[j]) == Segment(lines)[j]
    ensures Flatten(Segment(lines)) == NonEmptyLines(lines)
  {
    var s := Segment(lines);
    SegmentWellFormed(lines);
    SegmentConserves(lines);
    forall j | 0 <= j < |s|
      ensures Split(Join(s[j])) == s[j]
    {
      forall k | 0 <= k < |s[j]|
        ensures '\n' !in s[j][k]
      {
        FlattenMember(s, j, k);
        NonEmptyLinesFrom(lines, s[j][k]);
      }
      SplitJoin(s[j]);
    }
  }

  /** A line of an entry is a line of the flattened entries. */
  lemma {:induction false} FlattenMember(entries: seq<seq<string>>, j: nat, k: nat)
    requires j < |entries| && k < |entries[j]|
    ensures entries[j][k] in Flatten(entries)
    decreases |entries|
  {
    var n := |entries|;
    if j < n - 1 {
      FlattenMember(entries[..n - 1], j, k);
    } else {
      assert Flatten(entries) == Flatten(entries[..n - 1]) + entries[n - 1];
      assert entries[j][k] == Flatten(entries)[|Flatten(entries[..n - 1])| + k];
    }
  }

  /** Every non-empty line kept is a line of the input. */
  lemma {:induction false} NonEmptyLinesFrom(lines: seq<string>, line: string)
    requires line in NonEmptyLines(lines)
    ensures line in lines
    decreases |lines|
  {
    var n := |lines|;
    var init := lines[..n - 1];
    if line in NonEmptyLines(init) {
      NonEmptyLinesFrom(init, line);
      assert line in init;
      assert forall x :: x in init ==> x in lines;
    } else {
      assert line == lines[n - 1];
    }
  }

  /** Feeding two runs of lines is feeding the first, then the second. */
  lemma {:induction false} FeedAllAppend(a: Acc, xs: seq<string>, ys: seq<string>)
    ensures FeedAll(a, xs + ys) == FeedAll(FeedAll(a, xs), ys)
    decreases |ys|
  {
    if |ys| == 0 {
      assert xs + ys == xs;
    } else {
      var n := |ys|;
      assert (xs + ys)[..|xs + ys| - 1] == xs + ys[..n - 1];
      assert (xs + ys)[|xs + ys| - 1] == ys[n - 1];
      FeedAllAppend(a, xs, ys[..n - 1]);
    }
  }

  /** Entries already flushed never influence later decisions: they stay in
      front, unchanged. */
  lemma {:induction false} FeedAllKeepsFlushed(done: seq<seq<string>>, a: Acc, lines: seq<string>)
    requires a.entries == []
    ensures FeedAll(a.(entries := done), lines)
         == FeedAll(a, lines).(entries := done + FeedAll(a, lines).entries)
    decreases |lines|
  {
    if |lines| > 0 {
      FeedAllKeepsFlushed(done, a, lines[..|lines| - 1]);
      FeedKeepsFlushed(done, FeedAll(a, lines[..|lines| - 1]), lines[|lines| - 1]);
    }
  }

  /** One step of the loop never looks at the entries already flushed. */
  lemma FeedKeepsFlushed(done: seq<seq<string>>, b: Acc, line: string)
    ensures Feed(b.(entries := done + b.entries), line) == Feed(b, line).(entries := done + Feed(b, line).entries)
  {
    assert (done + b.entries) + [b.current] == done + (b.entries + [b.current]);
  }

  /** Flushing the open entry keeps earlier entries in front. */
  lemma ClosedKeepsFlushed(done: seq<seq<string>>, b: Acc)
    ensures Closed(b.(entries := done + b.entries)) == done + Closed(b)
  {
    assert (done + b.entries) + [b.current] == done + (b.entries + [b.current]);
  }

  /** Reading an empty line flushes everything read so far and resets the
      state: only the finished entries remain. */
  lemma FeedBlank(xs: seq<string>)
    ensures FeedAll(Start, xs + [""]) == Start.(entries := Segment(xs))
  {
    assert (xs + [""])[..|xs|] == xs;
  }

  /** An empty line is a hard boundary: what comes before it and what comes
      after it are segmented independently, as if read separately. */
  lemma BlankLineSeparates(xs: seq<string>, ys: seq<string>)
    ensures Segment(xs + [""] + ys) == Segment(xs) + Segment(ys)
  {
    var b := FeedAll(Start, ys);
    calc {
      Segment(xs + [""] + ys);
        { FeedAllAppend(Start, xs + [""], ys); }
      Closed(FeedAll(FeedAll(Start, xs + [""]), ys));
        { FeedBlank(xs); }
      Closed(FeedAll(Start.(entries := Segment(xs)), ys));
        { FeedAllKeepsFlushed(Segment(xs), Start, ys); }
      Closed(b.(entries := Segment(xs) + b.entries));
        { ClosedKeepsFlushed(Segment(xs), b); }
      Segment(xs) + Segment(ys);
    }
  }

  /** The last line of an entry. */
  function LastLine(entry: seq<string>): string
    requires |entry| > 0
  {
    entry[|entry| - 1]
  }

  /** Entries `j - 1` and `j` are split between an unindented last line and
      an unindented first line. */
  predicate SplitAt(entries: seq<seq<string>>, j: int)
    requires 0 < j < |entries|
  {
    |entries[j - 1]| > 0 && |entries[j]| > 0 &&
    !IsIndented(LastLine(entries[j - 1])) && !IsIndented(entries[j][0])
  }

  /** The boundaries of a run without empty lines: consecutive entries are
      split only between an unindented last line and an unindented first
      line. */
  predicate SplitBetweenUnindented(entries: seq<seq<string>>) {
    forall j :: 0 < j < |entries| ==> SplitAt(entries, j)
  }

  /** The state invariant for input without empty lines: the boundaries so
      far, and the one between the last finished entry and the open one. */
  predicate BlankFreeState(a: Acc) {
    && WellFormed(a)
    && SplitBetweenUnindented(a.entries)
    && (a.entries != [] ==>
          && a.current != []
          && |a.entries[|a.entries| - 1]| > 0
          && !IsIndented(LastLine(a.entries[|a.entries| - 1]))
          && !IsIndented(a.current[0]))
  }

  /** Feeding a non-empty line keeps the boundary invariant. */
  lemma FeedBlankFree(a: Acc, line: string)
    requires BlankFreeState(a) && line != ""
    ensures BlankFreeState(Feed(a, line))
  {
    FeedWellFormed(a, line);
    var r := Feed(a, line);
    if !IsIndented(line) && a.current != [] && !a.lastIndented {
      var e := r.entries;
      assert e == a.entries + [a.current] && r.current == [line];
      forall j | 0 < j < |e|
        ensures SplitAt(e, j)
      {
        if j < |e| - 1 {
          assert e[j] == a.entries[j] && e[j - 1] == a.entries[j - 1];
          assert SplitAt(a.entries, j);
        }
      }
    } else {
      assert r.current == a.current + [line];
    }
  }

  /** In a run of non-empty lines, an entry ends exactly where an unindented
      line follows an unindented line: boundaries fall only there, and
      (by `SegmentWellFormed`) inside an entry it never happens. */
  lemma {:induction false} FeedAllBlankFree(lines: seq<string>)
    requires forall i :: 0 <= i < |lines| ==> lines[i] != ""
    ensures BlankFreeState(FeedAll(Start, lines))
    decreases |lines|
  {
    if |lines| > 0 {
      FeedAllBlankFree(lines[..|lines| - 1]);
      FeedBlankFree(FeedAll(Start, lines[..|lines| - 1]), lines[|lines| - 1]);
    }
  }

  /** Segmentation of input without empty lines splits exactly between two
      consecutive unindented lines. */
  lemma SegmentBlankFree(lines: seq<string>)
    requires forall i :: 0 <= i < |lines| ==> lines[i] != ""
    ensures forall j :: 0 <= j < |Segment(lines)| ==> GoodEntry(Segment(lines)[j])
    ensures SplitBetweenUnindented(Segment(lines))
  {
    FeedAllBlankFree(lines);
    var a := FeedAll(Start, lines);
    var s := Segment(lines);
    if a.current != [] {
      assert s == a.entries + [a.current];
      forall j | 0 < j < |s|
        ensures SplitAt(s, j)
      {
        if j < |s| - 1 {
          assert s[j] == a.entries[j] && s[j - 1] == a.entries[j - 1];
          assert SplitAt(a.entries, j);
        }
      }
    }
  }

  /** Later lines never undo a flush: the finished entries stay in front,
      and an open entry that holds a line is eventually handed on. */
  lemma {:induction false} FeedAllExtends(a: Acc, lines: seq<string>)
    ensures a.entries <= FeedAll(a, lines).entries
    ensures a.current != [] ==> |Closed(FeedAll(a, lines))| > |a.entries|
    decreases |lines|
  {
    if |lines| > 0 {
      FeedAllExtends(a, lines[..|lines| - 1]);
    }
  }

  /** Feeding one more line is one more step of the loop. */
  lemma FeedAllSnoc(p: seq<string>, line: string)
    ensures FeedAll(Start, p + [line]) == Feed(FeedAll(Start, p), line)
  {
    assert (p + [line])[..|p|] == p;
  }

  /** After a non-empty line the open entry ends with it. */
  lemma FeedAllOpen(p: seq<string>)
    requires |p| > 0 && p[|p| - 1] != ""
    ensures FeedAll(Start, p).current != []
    ensures FeedAll(Start, p).current[|FeedAll(Start, p).current| - 1] == p[|p| - 1]
  {
  }

  /** An unindented line right after an unindented one starts a new entry:
      everything non-empty read before it is finished. */
  lemma FeedAfterUnindented(p: seq<string>, line: string)
    requires |p| > 0 && p[|p| - 1] != "" && !IsIndented(p[|p| - 1])
    requires line != "" && !IsIndented(line)
    ensures FeedAll(Start, p + [line]).current == [line]
    ensures |FeedAll(Start, p + [line]).entries| > 0
    ensures Flatten(FeedAll(Start, p + [line]).entries) == NonEmptyLines(p)
  {
    var q := p + [line];
    var a := FeedAll(Start, p);
    assert a.current != [] && !a.lastIndented by {
      FeedAllWellFormed(p);
      FeedAllOpen(p);
    }
    var b := FeedAll(Start, q);
    FeedAllSnoc(p, line);
    assert b.entries == a.entries + [a.current] && b.current == [line];
    assert NonEmptyLines(q) == NonEmptyLines(p) + [line] by {
      assert q[..|p|] == p;
    }
    FeedAllConserves(q);
    var f := Flatten(b.entries);
    assert f + [line] == NonEmptyLines(p) + [line];
    assert f == (f + [line])[..|f|];
  }

  /** The entries finished after a prefix of the input are the first
      entries of the whole input, and an open entry adds at least one more. */
  lemma SegmentExtends(q: seq<string>, rest: seq<string>)
    ensures |Segment(q + rest)| >= |FeedAll(Start, q).entries|
    ensures Segment(q + rest)[..|FeedAll(Start, q).entries|] == FeedAll(Start, q).entries
    ensures FeedAll(Start, q).current != [] ==> |Segment(q + rest)| > |FeedAll(Start, q).entries|
  {
    FeedAllAppend(Start, q, rest);
    FeedAllExtends(FeedAll(Start, q), rest);
  }

  /** The same split, stated for the input cut around the second line. */
  lemma SplitBeforeUnindented(p: seq<string>, line: string, rest: seq<string>)
    requires |p| > 0 && p[|p| - 1] != "" && !IsIndented(p[|p| - 1])
    requires line != "" && !IsIndented(line)
    ensures exists k :: 0 < k < |Segment(p + [line] + rest)| && Flatten(Segment(p + [line] + rest)[..k]) == NonEmptyLines(p)
  {
    var q := p + [line];
    var e := FeedAll(Start, q).entries;
    var s := Segment(q + rest);
    FeedAfterUnindented(p, line);
    SegmentExtends(q, rest);
    assert 0 < |e| < |s| && Flatten(s[..|e|]) == NonEmptyLines(p);
  }

  /** Two adjacent non-empty unindented input lines are never in the same
      entry: the non-empty lines up to the first of them fill exactly the
      first `k` entries, and more entries follow. */
  lemma AdjacentUnindentedSplit(lines: seq<string>, i: nat)
    requires i + 1 < |lines|
    requires lines[i] != "" && !IsIndented(lines[i])
    requires lines[i + 1] != "" && !IsIndented(lines[i + 1])
    ensures exists k :: 0 < k < |Segment(lines)| && Flatten(Segment(lines)[..k]) == NonEmptyLines(lines[..i + 1])
  {
    var p, rest := lines[..i + 1], lines[i + 2..];
    assert lines == p + [lines[i + 1]] + rest && p[|p| - 1] == lines[i];
    SplitBeforeUnindented(p, lines[i + 1], rest);
  }
}
