/** The pieces of Go's `strings` and `fmt` packages that main.go relies on,
    and plain prefix and suffix predicates used to state how the output is
    framed, all over `string` (a sequence of characters) with the facts the
    rest of the model needs about them. */
module Text {

  /** `p` is a prefix of `s`. */
  predicate StartsWith(s: string, p: string) {
    |p| <= |s| && s[..|p|] == p
  }

  /** A string starts with whatever was written first. */
  lemma StartsWithConcat(p: string, rest: string)
    ensures StartsWith(p + rest, p)
  {
    assert (p + rest)[..|p|] == p;
  }

  /** `p` is a suffix of `s`. */
  predicate EndsWith(s: string, p: string) {
    |p| <= |s| && s[|s| - |p|..] == p
  }

  /** Go's strings.ReplaceAll for a non-empty pattern: the string is scanned
      from the left and every non-overlapping occurrence of `pat` is replaced
      by `rep`; the replacement text is never rescanned. */
  function ReplaceAll(s: string, pat: string, rep: string): (r: string)
    requires |pat| > 0
    ensures |rep| <= |pat| ==> |r| <= |s|
    ensures pat[0] !in s ==> r == s
    decreases |s|
  {
    if |s| < |pat| then s
    else if s[..|pat|] == pat then rep + ReplaceAll(s[|pat|..], pat, rep)
    else [s[0]] + ReplaceAll(s[1..], pat, rep)
  }

  /** The four-step unescape chain that main.go repeats for every string it
      inspects: `\\` becomes `\`, then `\n` a newline, `\r` a carriage
      return and `\"` a quote, each step applied to the previous one's result. */
  function Unescape(s: string): (r: string)
    ensures |r| <= |s|
    ensures '\\' !in s ==> r == s
  {
    var noDoubled := ReplaceAll(s, "\\\\", "\\");
    var newlines := ReplaceAll(noDoubled, "\\n", "\n");
    var carriage := ReplaceAll(newlines, "\\r", "\r");
    ReplaceAll(carriage, "\\\"", "\"")
  }

  /** Once the first step has run, a result without backslashes passes the
      last two steps unchanged. */
  lemma UnescapeAfterNewlines(s: string, noDoubled: string, newlines: string)
    requires ReplaceAll(s, "\\\\", "\\") == noDoubled
    requires ReplaceAll(noDoubled, "\\n", "\n") == newlines
    requires '\\' !in newlines
    ensures Unescape(s) == newlines
  {
    assert ReplaceAll(newlines, "\\r", "\r") == newlines;
  }

  /** Because the `\\` step runs first, an escaped backslash followed by `n`
      (three characters) comes out as one real newline. */
  lemma UnescapeEscapedBackslashN(before: string, after: string)
    requires '\\' !in before && '\\' !in after
    ensures Unescape(before + "\\\\n" + after) == before + "\n" + after
  {
    var s := before + "\\\\n" + after;
    var once := before + "\\n" + after;
    var newlines := before + "\n" + after;
    assert ReplaceAll(s, "\\\\", "\\") == once by {
      assert s == before + "\\\\" + ("n" + after);
      ReplaceAllAt(before, "\\\\", "\\", "n" + after);
      ReplaceAllCons('n', after, "\\\\", "\\");
      assert before + "\\" + ("n" + after) == once;
    }
    assert ReplaceAll(once, "\\n", "\n") == newlines by {
      ReplaceAllAt(before, "\\n", "\n", after);
    }
    NoBackslashAround(before, "\n", after);
    UnescapeAfterNewlines(s, once, newlines);
  }

  /** A lone escaped newline holds no escaped backslash, so the first step
      keeps it. */
  lemma LoneEscapeKept(before: string, after: string)
    requires '\\' !in before && '\\' !in after
    ensures ReplaceAll(before + "\\n" + after, "\\\\", "\\") == before + "\\n" + after
  {
    var tail := "\\n" + after;
    assert before + "\\n" + after == before + tail;
    ReplaceAllPrefix(before, tail, "\\\\", "\\");
    EscapedNewlineKept(after);
  }

  /** The first step keeps a backslash that is followed by `n`. */
  lemma EscapedNewlineKept(after: string)
    requires '\\' !in after
    ensures ReplaceAll("\\n" + after, "\\\\", "\\") == "\\n" + after
  {
    var tail := "\\n" + after;
    assert tail[1] == 'n';
    ReplaceAllMismatch(tail, "\\\\", "\\");
    assert tail[1..] == "n" + after;
    assert [tail[0]] + tail[1..] == tail;
  }

  /** Backslash-free text around a backslash-free middle has no backslash. */
  lemma NoBackslashAround(before: string, middle: string, after: string)
    requires '\\' !in before && '\\' !in middle && '\\' !in after
    ensures '\\' !in before + middle + after
  {
  }

  /** A single escaped newline between backslash-free text unescapes to a
      real line break (the value `line1\nline2` becomes two lines). */
  lemma UnescapeLineBreak(before: string, after: string)
    requires '\\' !in before && '\\' !in after
    ensures Unescape(before + "\\n" + after) == before + "\n" + after
  {
    var s := before + "\\n" + after;
    LoneEscapeKept(before, after);
    ReplaceAllAt(before, "\\n", "\n", after);
    assert ReplaceAll(after, "\\n", "\n") == after;
    NoBackslashAround(before, "\n", after);
    UnescapeAfterNewlines(s, s, before + "\n" + after);
  }

  /** A position where `pat` does not start is copied as it is. */
  lemma ReplaceAllMismatch(s: string, pat: string, rep: string)
    requires |pat| > 0 && |s| >= |pat| && s[..|pat|] != pat
    ensures ReplaceAll(s, pat, rep) == [s[0]] + ReplaceAll(s[1..], pat, rep)
  {
  }

  /** The first occurrence of `pat`, after a stretch that cannot start it, is
      replaced and scanning resumes after it. */
  lemma ReplaceAllAt(before: string, pat: string, rep: string, after: string)
    requires |pat| > 0 && pat[0] !in before
    ensures ReplaceAll(before + pat + after, pat, rep) == before + rep + ReplaceAll(after, pat, rep)
  {
    var t := pat + after;
    assert before + pat + after == before + t;
    ReplaceAllPrefix(before, t, pat, rep);
    assert t[..|pat|] == pat && t[|pat|..] == after;
  }

  /** A character that cannot start `pat` is copied as it is. */
  lemma ReplaceAllCons(c: char, t: string, pat: string, rep: string)
    requires |pat| > 0 && c != pat[0]
    ensures ReplaceAll([c] + t, pat, rep) == [c] + ReplaceAll(t, pat, rep)
  {
    var s := [c] + t;
    assert s[1..] == t;
    if |s| >= |pat| {
      assert s[..|pat|][0] != pat[0];
    }
  }

  /** A stretch that holds no start of `pat` is copied unchanged. */
  lemma {:induction false} ReplaceAllPrefix(before: string, rest: string, pat: string, rep: string)
    requires |pat| > 0 && pat[0] !in before
    ensures ReplaceAll(before + rest, pat, rep) == before + ReplaceAll(rest, pat, rep)
    decreases |before|
  {
    if |before| == 0 {
      assert before + rest == rest;
    } else {
      var c, tail := before[0], before[1..];
      assert before == [c] + tail;
      assert pat[0] !in tail;
      calc {
        ReplaceAll(before + rest, pat, rep);
          { assert before + rest == [c] + (tail + rest); }
        ReplaceAll([c] + (tail + rest), pat, rep);
          { ReplaceAllCons(c, tail + rest, pat, rep); }
        [c] + ReplaceAll(tail + rest, pat, rep);
          { ReplaceAllPrefix(tail, rest, pat, rep); }
        [c] + (tail + ReplaceAll(rest, pat, rep));
        before + ReplaceAll(rest, pat, rep);
      }
    }
  }

  /** A string ends with whatever was written last. */
  lemma EndsWithConcat(s: string, suffix: string)
    ensures EndsWith(s + suffix, suffix)
  {
    assert (s + suffix)[|s|..] == suffix;
  }

  /** Lines joined with "\n" between them, as a strings.Builder that writes
      "\n" before every line except the first. */
  function Join(lines: seq<string>): string
    decreases |lines|
  {
    if |lines| == 0 then ""
    else if |lines| == 1 then lines[0]
    else Join(lines[..|lines| - 1]) + "\n" + lines[|lines| - 1]
  }

  /** Appending a line to a builder of joined lines: "\n" first unless it
      is empty. */
  lemma JoinAppend(current: seq<string>, line: string)
    ensures Join(current + [line]) == if current == [] then line else Join(current) + "\n" + line
  {
    assert (current + [line])[..|current|] == current;
  }

  /** Lines that are all non-empty join to the empty string only when there
      are none. */
  lemma JoinEmpty(lines: seq<string>)
    requires forall k :: 0 <= k < |lines| ==> lines[k] != ""
    ensures Join(lines) == "" <==> lines == []
  {
  }

  /** Every line followed by "\n", as the loop that writes a line and then
      "\n" for each element. */
  function JoinTerminated(lines: seq<string>): string
    decreases |lines|
  {
    if |lines| == 0 then ""
    else JoinTerminated(lines[..|lines| - 1]) + lines[|lines| - 1] + "\n"
  }

  /** Go's strings.Split(s, "\n"): the pieces between newlines, so one more
      piece than there are newlines and none containing one. */
  function Split(s: string): (r: seq<string>)
    ensures |r| > 0
    ensures forall i :: 0 <= i < |r| ==> '\n' !in r[i]
    decreases |s|
  {
    if s == [] then [""]
    else
      var rest := Split(s[1..]);
      if s[0] == '\n' then [""] + rest
      else [[s[0]] + rest[0]] + rest[1..]
  }

  /** Strings written one after the other into a builder. */
  function Concat(parts: seq<string>): string
    decreases |parts|
  {
    if |parts| == 0 then "" else Concat(parts[..|parts| - 1]) + parts[|parts| - 1]
  }

  /** Joining from the front: the first line, "\n", then the rest joined. */
  lemma {:induction false} JoinCons(first: string, rest: seq<string>)
    requires |rest| > 0
    ensures Join([first] + rest) == first + "\n" + Join(rest)
    decreases |rest|
  {
    var lines := [first] + rest;
    if |rest| > 1 {
      assert lines[..|lines| - 1] == [first] + rest[..|rest| - 1];
      JoinCons(first, rest[..|rest| - 1]);
    } else {
      assert lines[..|lines| - 1] == [first];
    }
  }

  /** Splitting on "\n" and joining again with "\n" gives the string back. */
  lemma {:induction false} JoinSplit(s: string)
    ensures Join(Split(s)) == s
    decreases |s|
  {
    if s != [] {
      var rest := Split(s[1..]);
      JoinSplit(s[1..]);
      if s[0] == '\n' {
        JoinCons("", rest);
      } else if |rest| == 1 {
        assert Split(s) == [[s[0]] + rest[0]];
      } else {
        assert rest == [rest[0]] + rest[1..];
        JoinCons(rest[0], rest[1..]);
        JoinCons([s[0]] + rest[0], rest[1..]);
      }
    }
  }

  /** A newline splits a string into the pieces of its two sides. */
  lemma {:induction false} SplitAround(a: string, b: string)
    ensures Split(a + "\n" + b) == Split(a) + Split(b)
    decreases |a|
  {
    var s := a + "\n" + b;
    if a == [] {
      assert s[1..] == b;
    } else {
      assert s[1..] == a[1..] + "\n" + b;
      SplitAround(a[1..], b);
    }
  }

  /** A string without newlines is a single piece. */
  lemma {:induction false} SplitLine(line: string)
    requires '\n' !in line
    ensures Split(line) == [line]
    decreases |line|
  {
    if line != [] {
      assert line[0] in line;
      SplitLine(line[1..]);
      assert [line[0]] + line[1..] == line;
    }
  }

  /** Joining lines that hold no newline and splitting the result again gives
      the lines back. */
  lemma {:induction false} SplitJoin(lines: seq<string>)
    requires |lines| > 0
    requires forall i :: 0 <= i < |lines| ==> '\n' !in lines[i]
    ensures Split(Join(lines)) == lines
    decreases |lines|
  {
    var n := |lines|;
    if n == 1 {
      SplitLine(lines[0]);
    } else {
      SplitJoin(lines[..n - 1]);
      SplitAround(Join(lines[..n - 1]), lines[n - 1]);
      SplitLine(lines[n - 1]);
    }
  }

  /** Writing every line followed by "\n" is joining them and adding one
      final "\n". */
  lemma {:induction false} JoinTerminatedIsJoin(lines: seq<string>)
    requires |lines| > 0
    ensures JoinTerminated(lines) == Join(lines) + "\n"
    decreases |lines|
  {
    if |lines| > 1 {
      JoinTerminatedIsJoin(lines[..|lines| - 1]);
    }
  }

  /** Splitting a text on "\n" and writing each piece followed by "\n"
      reproduces the text with one "\n" added at the end. */
  lemma SplitRejoin(text: string)
    ensures JoinTerminated(Split(text)) == text + "\n"
  {
    JoinTerminatedIsJoin(Split(text));
    JoinSplit(text);
  }

  /** Concatenation of two runs of writes. */
  lemma {:induction false} ConcatAppend(a: seq<string>, b: seq<string>)
    ensures Concat(a + b) == Concat(a) + Concat(b)
    decreases |b|
  {
    if |b| > 0 {
      assert (a + b)[..|a + b| - 1] == a + b[..|b| - 1];
      ConcatAppend(a, b[..|b| - 1]);
    } else {
      assert a + b == a;
    }
  }

  /** The decimal digit for 0..9. */
  function Digit(d: nat): (c: char)
    requires d < 10
    ensures '0' <= c <= '9'
  {
    "0123456789"[d]
  }

  /** Go's `%d` for a non-negative integer: its decimal digits, most
      significant first, without leading zeros. */
  function DecimalString(n: nat): (r: string)
    ensures |r| > 0
    ensures forall i :: 0 <= i < |r| ==> '0' <= r[i] <= '9'
    ensures |r| > 1 ==> r[0] != '0'
    decreases n
  {
    if n < 10 then [Digit(n)] else DecimalString(n / 10) + [Digit(n % 10)]
  }

  /** The number a string of decimal digits denotes. */
  function DecimalValue(r: string): nat
    requires forall i :: 0 <= i < |r| ==> '0' <= r[i] <= '9'
    decreases |r|
  {
    if |r| == 0 then 0
    else 10 * DecimalValue(r[..|r| - 1]) + (r[|r| - 1] as int - '0' as int)
  }

  /** The digits `%d` prints denote the number printed. */
  lemma {:induction false} DecimalRoundTrip(n: nat)
    ensures DecimalValue(DecimalString(n)) == n
    decreases n
  {
    var r := DecimalString(n);
    if n >= 10 {
      DecimalRoundTrip(n / 10);
      assert r[..|r| - 1] == DecimalString(n / 10);
    }
  }
}
