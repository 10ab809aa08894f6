/** main.go's input loop: the lines read from standard input are grouped
    into log entries (`Segmenter`), each entry is rendered as soon as it is
    complete (`Render.ProcessLog`) and the blocks are collected, in order, into
    the output text. Reading standard input, the `-raw` flag and the final
    terminal rendering and printing are not part of this model. */
module Beautify {
  import opened Text
  import opened JsonData
  import opened Segmenter
  import opened Render

  /** `outs` are possible renderings of `logs`, one per entry and in order. */
  ghost predicate RendersAll(logs: seq<string>, outs: seq<string>,
                             parse: string -> Option<map<string, Json>>,
                             marshal: map<string, Json> -> string)
  {
    |outs| == |logs| && forall j :: 0 <= j < |logs| ==> Renders(logs[j], outs[j], parse, marshal)
  }

  /** Handing a finished entry to processLog extends the renderings by that
      entry's block. */
  lemma RendersAllFlush(entries: seq<seq<string>>, entry: seq<string>, outs: seq<string>, rendered: string,
                        parse: string -> Option<map<string, Json>>,
                        marshal: map<string, Json> -> string)
    requires RendersAll(JoinEach(entries), outs, parse, marshal)
    requires Renders(Join(entry), rendered, parse, marshal)
    ensures RendersAll(JoinEach(entries + [entry]), outs + [rendered], parse, marshal)
    ensures Concat(outs + [rendered]) == Concat(outs) + rendered
  {
    assert (outs + [rendered])[..|outs|] == outs;
    var logs := JoinEach(entries + [entry]);
    forall j | 0 <= j < |logs|
      ensures Renders(logs[j], (outs + [rendered])[j], parse, marshal)
    {
      if j < |entries| {
        assert logs[j] == JoinEach(entries)[j];
      }
    }
  }

  /** The loop's variables follow the grouping state: `currentLog` is the
      open entry's lines joined with "\n" and `lastLineWasIndented` is the
      state's flag. */
  ghost predicate Tracks(acc: Acc, currentLog: string, lastLineWasIndented: bool) {
    && WellFormed(acc)
    && currentLog == Join(acc.current)
    && lastLineWasIndented == acc.lastIndented
  }

  /** An empty line: the open entry, if any, is flushed and the variables
      are reset. */
  lemma BlankStep(acc: Acc, currentLog: string, lastLineWasIndented: bool)
    requires Tracks(acc, currentLog, lastLineWasIndented)
    ensures |currentLog| > 0 <==> acc.current != []
    ensures Feed(acc, "").entries == Closed(acc)
    ensures Tracks(Feed(acc, ""), "", false)
  {
    JoinEmpty(acc.current);
  }

  /** A non-empty line: the open entry is flushed exactly when `main` flushes
      it, and the variables then hold the new open entry. */
  lemma LineStep(acc: Acc, currentLog: string, lastLineWasIndented: bool, line: string)
    requires Tracks(acc, currentLog, lastLineWasIndented) && line != ""
    ensures var flush := !IsIndented(line) && |currentLog| > 0 && !lastLineWasIndented;
      && (flush ==> acc.current != [] && Feed(acc, line).entries == acc.entries + [acc.current])
      && (!flush ==> Feed(acc, line).entries == acc.entries)
      && Tracks(Feed(acc, line),
                if flush || |currentLog| == 0 then line else currentLog + "\n" + line,
                IsIndented(line))
  {
    FeedWellFormed(acc, line);
    FeedJoined(acc, line);
  }

  /** `allOutput.WriteString(processLog(currentLog.String()))`: the finished
      entry `current`, whose text is `currentLog`, is rendered and its block
      appended to the output; what was written before is kept. */
  method Emit(currentLog: string, allOutput: string,
              parse: string -> Option<map<string, Json>>,
              marshal: map<string, Json> -> string,
              ghost entries: seq<seq<string>>, ghost current: seq<string>, ghost outs: seq<string>)
    returns (allOutput': string, ghost outs': seq<string>)
    requires currentLog == Join(current)
    requires RendersAll(JoinEach(entries), outs, parse, marshal) && allOutput == Concat(outs)
    ensures |outs'| == |outs| + 1 && outs'[..|outs|] == outs
    ensures allOutput' == allOutput + outs'[|outs|]
    ensures outs <= outs' && allOutput <= allOutput'
    ensures RendersAll(JoinEach(entries + [current]), outs', parse, marshal)
    ensures allOutput' == Concat(outs')
  {
    var rendered := ProcessLog(currentLog, parse, marshal);
    RendersAllFlush(entries, current, outs, rendered, parse, marshal);
    allOutput' := allOutput + rendered;
    outs' := outs + [rendered];
    assert outs'[..|outs|] == outs;
    assert allOutput'[..|allOutput|] == allOutput;
  }

  /** One pass of `main`'s loop body on `line`. The pass carries out exactly
      one `Feed` step on the grouping state; the output keeps what was
      written and grows by the renderings of the entries that step
      finishes. */
  method ScanLine(line: string, currentLog: string, lastLineWasIndented: bool, allOutput: string,
                  parse: string -> Option<map<string, Json>>,
                  marshal: map<string, Json> -> string,
                  ghost acc: Acc, ghost outs: seq<string>)
    returns (currentLog': string, lastLineWasIndented': bool, allOutput': string, ghost outs': seq<string>)
    requires Tracks(acc, currentLog, lastLineWasIndented)
    requires RendersAll(JoinEach(acc.entries), outs, parse, marshal) && allOutput == Concat(outs)
    ensures Tracks(Feed(acc, line), currentLog', lastLineWasIndented')
    ensures RendersAll(JoinEach(Feed(acc, line).entries), outs', parse, marshal)
    ensures allOutput' == Concat(outs')
    ensures outs <= outs' && allOutput <= allOutput'
  {
    if line == "" {
      currentLog', lastLineWasIndented', allOutput', outs' :=
        ScanBlank(currentLog, lastLineWasIndented, allOutput, parse, marshal, acc, outs);
    } else {
      currentLog', lastLineWasIndented', allOutput', outs' :=
        ScanNonBlank(line, currentLog, lastLineWasIndented, allOutput, parse, marshal, acc, outs);
    }
  }

  /** The empty-line branch of the loop body: the open entry, if any, is
      handed to processLog, the flag is cleared and the loop continues. */
  method ScanBlank(currentLog: string, lastLineWasIndented: bool, allOutput: string,
                   parse: string -> Option<map<string, Json>>,
                   marshal: map<string, Json> -> string,
                   ghost acc: Acc, ghost outs: seq<string>)
    returns (currentLog': string, lastLineWasIndented': bool, allOutput': string, ghost outs': seq<string>)
    requires Tracks(acc, currentLog, lastLineWasIndented)
    requires RendersAll(JoinEach(acc.entries), outs, parse, marshal) && allOutput == Concat(outs)
    ensures Tracks(Feed(acc, ""), currentLog', lastLineWasIndented')
    ensures RendersAll(JoinEach(Feed(acc, "").entries), outs', parse, marshal)
    ensures allOutput' == Concat(outs')
    ensures outs <= outs' && allOutput <= allOutput'
  {
    currentLog', allOutput', outs' := currentLog, allOutput, outs;
    BlankStep(acc, currentLog, lastLineWasIndented);
    if |currentLog| > 0 {
      allOutput', outs' := Emit(currentLog, allOutput, parse, marshal, acc.entries, acc.current, outs);
      currentLog' := "";
    }
    lastLineWasIndented' := false;
  }

  /** The non-empty-line branch of the loop body: an unindented line after an
      unindented one first hands the open entry to processLog; the line is
      then appended to the open entry, after a "\n" when that entry is not
      empty, and becomes the last line. */
  method ScanNonBlank(line: string, currentLog: string, lastLineWasIndented: bool, allOutput: string,
                      parse: string -> Option<map<string, Json>>,
                      marshal: map<string, Json> -> string,
                      ghost acc: Acc, ghost outs: seq<string>)
    returns (currentLog': string, lastLineWasIndented': bool, allOutput': string, ghost outs': seq<string>)
    requires line != ""
    requires Tracks(acc, currentLog, lastLineWasIndented)
    requires RendersAll(JoinEach(acc.entries), outs, parse, marshal) && allOutput == Concat(outs)
    ensures Tracks(Feed(acc, line), currentLog', lastLineWasIndented')
    ensures RendersAll(JoinEach(Feed(acc, line).entries), outs', parse, marshal)
    ensures allOutput' == Concat(outs')
    ensures outs <= outs' && allOutput <= allOutput'
  {
    currentLog', allOutput', outs' := currentLog, allOutput, outs;
    var isIndented := |line| > 0 && (line[0] == ' ' || line[0] == '\t');
    ghost var flush := !isIndented && |currentLog| > 0 && !lastLineWasIndented;
    if !isIndented && |currentLog| > 0 && !lastLineWasIndented {
      allOutput', outs' := Emit(currentLog, allOutput, parse, marshal, acc.entries, acc.current, outs);
      currentLog' := "";
    }
    if |currentLog'| > 0 {
      currentLog' := currentLog' + "\n";
    }
    currentLog' := currentLog' + line;
    lastLineWasIndented' := isIndented;
    assert currentLog' == if flush || |currentLog| == 0 then line else currentLog + "\n" + line;
    LineStep(acc, currentLog, lastLineWasIndented, line);
  }

  /** The loop of `main` over the input lines: each line is one `ScanLine`
      pass, and at the end of input the open entry, if any, is handed to
      processLog. The result is the rendering of the entries of
      `Segmenter.Segment`, in order. */
  method Beautify(lines: seq<string>,
                  parse: string -> Option<map<string, Json>>,
                  marshal: map<string, Json> -> string) returns (allOutput: string)
    ensures exists outs: seq<string> ::
      RendersAll(EntryTexts(lines), outs, parse, marshal) && allOutput == Concat(outs)
  {
    var currentLog := "";
    var lastLineWasIndented := false;
    allOutput := "";
    ghost var acc := Start;
    ghost var outs: seq<string> := [];
    for i := 0 to |lines|
      invariant acc == FeedAll(Start, lines[..i])
      invariant Tracks(acc, currentLog, lastLineWasIndented)
      invariant RendersAll(JoinEach(acc.entries), outs, parse, marshal)
      invariant allOutput == Concat(outs)
    {
      assert lines[..i + 1] == lines[..i] + [lines[i]];
      FeedAllSnoc(lines[..i], lines[i]);
      currentLog, lastLineWasIndented, allOutput, outs :=
        ScanLine(lines[i], currentLog, lastLineWasIndented, allOutput, parse, marshal, acc, outs);
      acc := Feed(acc, lines[i]);
    }
    assert lines[..|lines|] == lines;
    JoinEmpty(acc.current);
    if |currentLog| > 0 {
      allOutput, outs := Emit(currentLog, allOutput, parse, marshal, acc.entries, acc.current, outs);
    }
    assert RendersAll(EntryTexts(lines), outs, parse, marshal) && allOutput == Concat(outs);
  }
}
