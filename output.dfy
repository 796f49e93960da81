/**
 * How the captured output of an install command becomes log lines: split on
 * line feeds, trim each line, drop the empty ones, and (for standard output
 * only) drop yarn's closing `Done in …` line.
 */
module CommandOutput {
  import opened Seqs
  import opened Text

  /** The prefix of yarn's timing line, filtered from standard output. */
  const DoneInPrefix: string := "Done in"

  predicate NonEmpty(line: string)
  {
    line != ""
  }

  predicate NotDoneIn(line: string)
  {
    !StartsWith(line, DoneInPrefix)
  }

  /** `text.split("\n").map((line) => line.trim()).filter(Boolean)`. */
  function CleanLines(text: string): seq<string>
  {
    Filter(NonEmpty, Map(Trim, Split(text, '\n')))
  }

  /** The lines kept from standard output, logged on success and shown in the error tooltip. */
  function StdoutLines(stdout: string): seq<string>
  {
    Filter(NotDoneIn, CleanLines(stdout))
  }

  /** The lines kept from standard error: no `Done in` filter. */
  function StderrLines(stderr: string): seq<string>
  {
    CleanLines(stderr)
  }

  /** The lines logged at error level after a failed run: standard output first, then standard error. */
  function ErrorLines(stdout: string, stderr: string): seq<string>
  {
    StdoutLines(stdout) + StderrLines(stderr)
  }

  /** A kept line is the trim of one input line, and is not empty. */
  lemma CleanLinesMembership(text: string, x: string)
    ensures x in CleanLines(text) <==> x != "" && exists line :: line in Split(text, '\n') && Trim(line) == x
  {
    var pieces := Split(text, '\n');
    var trimmed := Map(Trim, pieces);
    FilterMembership(NonEmpty, trimmed);
    if x in trimmed {
      var k :| 0 <= k < |trimmed| && trimmed[k] == x;
      assert pieces[k] in pieces && Trim(pieces[k]) == x;
    }
    if exists line :: line in pieces && Trim(line) == x {
      var line :| line in pieces && Trim(line) == x;
      var k :| 0 <= k < |pieces| && pieces[k] == line;
      assert trimmed[k] == x;
    }
  }

  /** A kept line is trimmed: it is not empty and neither starts nor ends with whitespace. */
  lemma CleanLineIsTrimmed(text: string, x: string)
    requires x in CleanLines(text)
    ensures x != "" && !IsWhitespace(x[0]) && !IsWhitespace(x[|x| - 1])
  {
    CleanLinesMembership(text, x);
    var line :| line in Split(text, '\n') && Trim(line) == x;
  }

  /**
   * Every standard-output line logged is non-empty, is trimmed (it neither starts
   * nor ends with whitespace) and does not start with `Done in`.
   */
  lemma StdoutLinesAreClean(stdout: string)
    ensures forall line :: line in StdoutLines(stdout) ==>
      line != "" && !IsWhitespace(line[0]) && !IsWhitespace(line[|line| - 1]) &&
      !StartsWith(line, DoneInPrefix)
  {
    forall line | line in StdoutLines(stdout)
      ensures line != "" && !IsWhitespace(line[0]) && !IsWhitespace(line[|line| - 1]) &&
        !StartsWith(line, DoneInPrefix)
    {
      StdoutLineOrigin(stdout, line);
      CleanLineIsTrimmed(stdout, line);
    }
  }

  /** A standard-output line is a kept line that does not start with `Done in`. */
  lemma StdoutLineOrigin(stdout: string, x: string)
    ensures x in StdoutLines(stdout) <==> x in CleanLines(stdout) && !StartsWith(x, DoneInPrefix)
  {
    FilterMembership(NotDoneIn, CleanLines(stdout));
  }

  /**
   * A text is a standard-output line exactly when it is the trim of some input
   * line, is not empty and does not start with `Done in`.
   */
  lemma StdoutLinesMembership(stdout: string, x: string)
    ensures x in StdoutLines(stdout) <==>
      x != "" && !StartsWith(x, DoneInPrefix) &&
      exists line :: line in Split(stdout, '\n') && Trim(line) == x
  {
    StdoutLineOrigin(stdout, x);
    CleanLinesMembership(stdout, x);
  }

  lemma {:induction false} CleanLinesConcat(a: string, b: string)
    ensures CleanLines(a + "\n" + b) == CleanLines(a) + CleanLines(b)
  {
    SplitConcat(a, b, '\n');
    MapConcat(Trim, Split(a, '\n'), Split(b, '\n'));
    FilterConcat(NonEmpty, Map(Trim, Split(a, '\n')), Map(Trim, Split(b, '\n')));
  }

  /**
   * Output lines are cleaned one by one and keep their order: the lines of two
   * chunks joined by a line feed are the lines of the first, then those of the second.
   */
  lemma {:induction false} StdoutLinesConcat(a: string, b: string)
    ensures StdoutLines(a + "\n" + b) == StdoutLines(a) + StdoutLines(b)
  {
    CleanLinesConcat(a, b);
    FilterConcat(NotDoneIn, CleanLines(a), CleanLines(b));
  }

  lemma {:induction false} StderrLinesConcat(a: string, b: string)
    ensures StderrLines(a + "\n" + b) == StderrLines(a) + StderrLines(b)
  {
    CleanLinesConcat(a, b);
  }

  lemma CleanSingleLine(line: string)
    requires '\n' !in line
    ensures CleanLines(line) == if Trim(line) == "" then [] else [Trim(line)]
  {
    SplitWithoutSeparator(line, '\n');
    assert Map(Trim, [line]) == [Trim(line)];
    FilterSingle(NonEmpty, Trim(line));
  }

  /** One line of standard output: kept, trimmed, unless it is blank or a `Done in` line. */
  lemma StdoutSingleLine(line: string)
    requires '\n' !in line
    ensures StdoutLines(line) ==
      if Trim(line) == "" || StartsWith(Trim(line), DoneInPrefix) then [] else [Trim(line)]
  {
    CleanSingleLine(line);
    if Trim(line) != "" {
      FilterSingle(NotDoneIn, Trim(line));
    }
  }

  /** One line of standard error: kept, trimmed, unless blank; a `Done in` line stays. */
  lemma StderrSingleLine(line: string)
    requires '\n' !in line
    ensures StderrLines(line) == if Trim(line) == "" then [] else [Trim(line)]
  {
    CleanSingleLine(line);
  }

  /** A real output line followed by yarn's `Done in` line leaves just the real line, trimmed. */
  lemma StdoutDropsDoneIn(first: string, second: string)
    requires '\n' !in first && '\n' !in second
    requires Trim(first) != "" && !StartsWith(Trim(first), DoneInPrefix)
    requires StartsWith(Trim(second), DoneInPrefix)
    ensures StdoutLines(first + "\n" + second) == [Trim(first)]
  {
    StdoutLinesConcat(first, second);
    StdoutSingleLine(first);
    StdoutSingleLine(second);
  }
}
