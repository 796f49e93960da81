/**
 * What `eventHandler` promises, stated over the effects the reactor records:
 * which install commands start, which statuses are written and which lines
 * are logged at each level.
 */
module ReactorProperties {
  import opened Wrappers
  import opened Seqs
  import opened Text
  import opened Json
  import opened Lockfiles
  import opened CommandOutput
  import opened StatusText
  import opened Reactor

  predicate IsRun(e: Effect)
  {
    e.Run?
  }

  predicate IsStatusWrite(e: Effect)
  {
    e.SetStatus?
  }

  /** The install commands started, in order. */
  function Runs(effects: seq<Effect>): seq<Effect>
  {
    Filter(IsRun, effects)
  }

  /** The writes to the status indicator, in order. */
  function StatusWrites(effects: seq<Effect>): seq<Effect>
  {
    Filter(IsStatusWrite, effects)
  }

  /** The lines logged at one level, in order. */
  function LoggedLines(effects: seq<Effect>, level: Level): seq<string>
    decreases |effects|
  {
    if effects == [] then []
    else
      var e := effects[|effects| - 1];
      LoggedLines(effects[..|effects| - 1], level) + (if e.Log? && e.level == level then [e.line] else [])
  }

  /** The install command a lockfile calls for, run in the lockfile's directory. */
  function RunFor(lockfile: string): Effect
  {
    Run(Classify(lockfile), Dirname(lockfile))
  }

  /** Lines logged by two runs of effects, one after the other, are those of the first, then those of the second. */
  lemma {:induction false} LoggedLinesConcat(a: seq<Effect>, b: seq<Effect>, level: Level)
    ensures LoggedLines(a + b, level) == LoggedLines(a, level) + LoggedLines(b, level)
    decreases |b|
  {
    if b == [] {
      assert a + b == a;
    } else {
      assert (a + b)[..|a + b| - 1] == a + b[..|b| - 1];
      LoggedLinesConcat(a, b[..|b| - 1], level);
    }
  }

  /** Lines logged through one entry maker appear at its level, in order, and at no other level. */
  lemma {:induction false} LoggedEntries(lines: seq<string>, make: string -> Effect, shown: string -> string, at: Level, level: Level)
    requires forall line :: make(line) == Log(at, shown(line))
    ensures LoggedLines(Map(make, lines), level) == if level == at then Map(shown, lines) else []
    decreases |lines|
  {
    if lines != [] {
      var init := lines[..|lines| - 1];
      assert Map(make, lines)[..|lines| - 1] == Map(make, init);
      assert Map(shown, lines) == Map(shown, init) + [shown(lines[|lines| - 1])];
      LoggedEntries(init, make, shown, at, level);
    }
  }

  /** The tracked entries an event matches are copies of its URI, one per occurrence in the list. */
  lemma {:induction false} MatchingCopies(lockfiles: seq<string>, documentUri: string)
    ensures Matching(lockfiles, documentUri) == seq(multiset(lockfiles)[documentUri], _ => documentUri)
    decreases |lockfiles|
  {
    if lockfiles != [] {
      var init := lockfiles[..|lockfiles| - 1];
      var last := lockfiles[|lockfiles| - 1];
      InitLast(lockfiles);
      MatchingCopies(init, documentUri);
      if last == documentUri {
        CopiesSnoc(multiset(init)[documentUri], documentUri);
      } else {
        DropEmpty(Matching(init, documentUri));
      }
    }
  }

  /**
   * An event for a file the watcher does not track only logs that nothing
   * matched: no install command starts and the status is left as it was.
   */
  lemma UntrackedEventIsNoop(lockfiles: seq<string>, documentUri: string, mode: Mode, accepted: nat -> bool,
                             outcome: nat -> Outcome, relativePath: string -> string, before: Status)
    requires documentUri !in lockfiles
    ensures EventEffects(lockfiles, documentUri, mode, accepted, outcome, relativePath) == [Log(Info, NoMatchMessage)]
    ensures Runs(EventEffects(lockfiles, documentUri, mode, accepted, outcome, relativePath)) == []
    ensures StatusWrites(EventEffects(lockfiles, documentUri, mode, accepted, outcome, relativePath)) == []
    ensures FinalStatus(before, EventEffects(lockfiles, documentUri, mode, accepted, outcome, relativePath)) == before
  {
    MatchingCopies(lockfiles, documentUri);
    assert multiset(lockfiles)[documentUri] == 0;
    var effects := [Log(Info, NoMatchMessage)];
    FilterNone(IsRun, effects);
    FilterNone(IsStatusWrite, effects);
    assert effects[..0] == [];
  }

  /** When every prompt is dismissed, the reactions do nothing at all: no run, no status write, no log line. */
  lemma {:induction false} DismissedPromptsAreSilent(count: nat, entries: seq<string>, accepted: nat -> bool,
                                                     outcome: nat -> Outcome, relativePath: string -> string)
    requires forall k: nat :: k < |entries| ==> !accepted(k)
    ensures Reactions(count, entries, Request, accepted, outcome, relativePath) == []
    decreases |entries|
  {
    if entries != [] {
      DismissedPromptsAreSilent(count, entries[..|entries| - 1], accepted, outcome, relativePath);
    }
  }

  /** Accepting every prompt of `request` mode gives exactly the effects of `auto` mode. */
  lemma {:induction false} AcceptedPromptsActAsAuto(count: nat, entries: seq<string>, accepted: nat -> bool,
                                                    outcome: nat -> Outcome, relativePath: string -> string)
    requires forall k: nat :: k < |entries| ==> accepted(k)
    ensures Reactions(count, entries, Request, accepted, outcome, relativePath) ==
      Reactions(count, entries, Auto, accepted, outcome, relativePath)
    decreases |entries|
  {
    if entries != [] {
      AcceptedPromptsActAsAuto(count, entries[..|entries| - 1], accepted, outcome, relativePath);
    }
  }

  /** A directory without quote, backslash or control character appears verbatim in the runner's options text. */
  lemma OptionsTextPlain(directory: string)
    requires forall i :: 0 <= i < |directory| ==> directory[i] != '"' && directory[i] != '\\' && directory[i] >= ' '
    ensures OptionsText(directory) == "{\"cwd\":\"" + directory + "\"}"
  {
    EscapePlain(directory);
  }

  /** The runner's info line for the command a lockfile calls for. */
  function CommandLineFor(lockfile: string): string
  {
    CommandLogLine(Classify(lockfile), Dirname(lockfile))
  }

  /**
   * The announcement writes the `loading` status, logs the runner's command
   * line at info level and starts the classified command.
   */
  lemma AnnounceEffects(lockfile: string, relativePath: string -> string, level: Level)
    ensures Runs(Announce(lockfile, relativePath)) == [RunFor(lockfile)]
    ensures StatusWrites(Announce(lockfile, relativePath)) ==
      [SetStatus(Status(Loading, RunningTooltip(Classify(lockfile), relativePath(Dirname(lockfile)))))]
    ensures LoggedLines(Announce(lockfile, relativePath), level) ==
      if level == Info then [CommandLineFor(lockfile)] else []
  {
    var announce := Announce(lockfile, relativePath);
    assert announce == [announce[0], announce[1], announce[2]];
    WriteLogRunFilters(announce[0], announce[1], announce[2]);
    WriteLogRunLogged(announce[0], announce[1], announce[2], level);
  }

  /** A status write, a log line and a run: one of each survives the matching filter. */
  lemma WriteLogRunFilters(write: Effect, log: Effect, run: Effect)
    requires write.SetStatus? && log.Log? && run.Run?
    ensures Runs([write, log, run]) == [run]
    ensures StatusWrites([write, log, run]) == [write]
  {
    assert [write, log, run] == ([write] + [log]) + [run];
    FilterConcat(IsRun, [write] + [log], [run]);
    FilterConcat(IsRun, [write], [log]);
    FilterSingle(IsRun, write);
    FilterSingle(IsRun, log);
    FilterSingle(IsRun, run);
    FilterConcat(IsStatusWrite, [write] + [log], [run]);
    FilterConcat(IsStatusWrite, [write], [log]);
    FilterSingle(IsStatusWrite, write);
    FilterSingle(IsStatusWrite, log);
    FilterSingle(IsStatusWrite, run);
  }

  /** Of a status write, a log line and a run, only the log line is logged, at its own level. */
  lemma WriteLogRunLogged(write: Effect, log: Effect, run: Effect, level: Level)
    requires write.SetStatus? && log.Log? && run.Run?
    ensures LoggedLines([write, log, run], level) == if log.level == level then [log.line] else []
  {
    assert [write, log, run] == ([write] + [log]) + [run];
    LoggedLinesConcat([write] + [log], [run], level);
    LoggedLinesConcat([write], [log], level);
    SingleLogged(write, level);
    SingleLogged(log, level);
    SingleLogged(run, level);
  }

  /** Every effect is a log line. */
  ghost predicate OnlyLogs(effects: seq<Effect>)
  {
    forall i :: 0 <= i < |effects| ==> effects[i].Log?
  }

  lemma OnlyLogsConcat(a: seq<Effect>, b: seq<Effect>)
    requires OnlyLogs(a) && OnlyLogs(b)
    ensures OnlyLogs(a + b)
  {
    forall i | 0 <= i < |a + b|
      ensures (a + b)[i].Log?
    {
      if i >= |a| {
        assert (a + b)[i] == b[i - |a|];
      }
    }
  }

  lemma MappedLogs(lines: seq<string>, make: string -> Effect)
    requires forall line :: make(line).Log?
    ensures OnlyLogs(Map(make, lines))
  {
  }

  /** The outcome's part of a reaction only logs. */
  lemma OutcomeLogsOnlyLog(outcome: Outcome)
    ensures forall i :: 0 <= i < |OutcomeLogs(outcome)| ==> OutcomeLogs(outcome)[i].Log?
  {
    var dumpLog := Log(Debug, OutputDumpLine(outcome));
    if outcome.exitCode == Some(0) {
      MappedLogs(StdoutLines(outcome.stdout), OutputLogEntry);
      OnlyLogsConcat([dumpLog], Map(OutputLogEntry, StdoutLines(outcome.stdout)));
    } else {
      var exitLog := Log(Debug, "[Command Exit Code] " + ExitCodeText(outcome.exitCode));
      var lines := ErrorLines(outcome.stdout, outcome.stderr);
      MappedLogs(lines, ErrorLogEntry);
      OnlyLogsConcat([exitLog], Map(ErrorLogEntry, lines));
      OnlyLogsConcat([dumpLog], [exitLog] + Map(ErrorLogEntry, lines));
    }
  }

  /** Whatever the indicator showed before, a report leaves it at the outcome's status. */
  lemma ReportFinalStatus(count: nat, outcome: Outcome)
    ensures forall before :: FinalStatus(before, Report(count, outcome)) == OutcomeStatus(count, outcome)
  {
    forall before
      ensures FinalStatus(before, Report(count, outcome)) == OutcomeStatus(count, outcome)
    {
      FinalStatusLastWrite(before, OutcomeLogs(outcome), OutcomeStatus(count, outcome));
    }
  }

  /** The report starts no command and writes the status exactly once. */
  lemma ReportEffects(count: nat, outcome: Outcome)
    ensures Runs(Report(count, outcome)) == []
    ensures StatusWrites(Report(count, outcome)) == [SetStatus(OutcomeStatus(count, outcome))]
  {
    OutcomeLogsOnlyLog(outcome);
    LogsThenStatus(OutcomeLogs(outcome), SetStatus(OutcomeStatus(count, outcome)));
  }

  /** Log lines followed by a status write: no run, and that one write. */
  lemma LogsThenStatus(logs: seq<Effect>, write: Effect)
    requires write.SetStatus? && OnlyLogs(logs)
    ensures Runs(logs + [write]) == []
    ensures StatusWrites(logs + [write]) == [write]
  {
    FilterConcat(IsRun, logs, [write]);
    FilterConcat(IsStatusWrite, logs, [write]);
    FilterNone(IsRun, logs);
    FilterNone(IsStatusWrite, logs);
    FilterSingle(IsRun, write);
    FilterSingle(IsStatusWrite, write);
    DropEmpty([write]);
  }


  /** One reaction that goes ahead starts exactly one command: the classified one, in the lockfile's directory. */
  lemma ReactionRunsClassifiedCommand(count: nat, lockfile: string, mode: Mode, accepted: bool,
                                      outcome: Outcome, relativePath: string -> string)
    requires mode == Auto || accepted
    ensures Runs(ReactionEffects(count, lockfile, mode, accepted, outcome, relativePath)) == [RunFor(lockfile)]
  {
    FilterConcat(IsRun, Announce(lockfile, relativePath), Report(count, outcome));
    AnnounceEffects(lockfile, relativePath, Info);
    ReportEffects(count, outcome);
  }

  /** In `auto` mode every matching entry starts its classified command, in the order of the entries. */
  lemma {:induction false} AutoRunsEachEntry(count: nat, entries: seq<string>, accepted: nat -> bool,
                                             outcome: nat -> Outcome, relativePath: string -> string)
    ensures Runs(Reactions(count, entries, Auto, accepted, outcome, relativePath)) == Map(RunFor, entries)
    decreases |entries|
  {
    if entries != [] {
      var k := |entries| - 1;
      AutoRunsEachEntry(count, entries[..k], accepted, outcome, relativePath);
      FilterConcat(IsRun, Reactions(count, entries[..k], Auto, accepted, outcome, relativePath),
                   ReactionEffects(count, entries[k], Auto, accepted(k), outcome(k), relativePath));
      ReactionRunsClassifiedCommand(count, entries[k], Auto, accepted(k), outcome(k), relativePath);
      MapSnoc(RunFor, entries);
    }
  }

  /**
   * In `auto` mode an event for a tracked lockfile starts its classified
   * command in its directory once per occurrence in the tracked list, and an
   * event for any other file starts nothing.
   */
  lemma AutoEventRuns(lockfiles: seq<string>, documentUri: string, accepted: nat -> bool,
                      outcome: nat -> Outcome, relativePath: string -> string)
    ensures Runs(EventEffects(lockfiles, documentUri, Auto, accepted, outcome, relativePath)) ==
      seq(multiset(lockfiles)[documentUri], _ => RunFor(documentUri))
  {
    var matches := Matching(lockfiles, documentUri);
    MatchingCopies(lockfiles, documentUri);
    if matches == [] {
      FilterNone(IsRun, [Log(Info, NoMatchMessage)]);
    } else {
      AutoRunsEachEntry(|lockfiles|, matches, accepted, outcome, relativePath);
    }
  }

  /**
   * A reaction that goes ahead writes the status twice: first `loading` naming
   * the command and the directory relative to the workspace, last the status
   * its outcome calls for.
   */
  lemma ReactionStatusWrites(count: nat, lockfile: string, mode: Mode, accepted: bool,
                             outcome: Outcome, relativePath: string -> string)
    requires mode == Auto || accepted
    ensures StatusWrites(ReactionEffects(count, lockfile, mode, accepted, outcome, relativePath)) ==
      [SetStatus(Status(Loading, RunningTooltip(Classify(lockfile), relativePath(Dirname(lockfile))))),
       SetStatus(OutcomeStatus(count, outcome))]
  {
    FilterConcat(IsStatusWrite, Announce(lockfile, relativePath), Report(count, outcome));
    AnnounceEffects(lockfile, relativePath, Info);
    ReportEffects(count, outcome);
    PairConcat(SetStatus(Status(Loading, RunningTooltip(Classify(lockfile), relativePath(Dirname(lockfile))))),
               SetStatus(OutcomeStatus(count, outcome)));
  }

  /**
   * A reaction that goes ahead logs the runner's command line at info level,
   * then exactly what its outcome logs; the status writes log nothing.
   */
  lemma ReactionLoggedLines(count: nat, lockfile: string, mode: Mode, accepted: bool,
                            outcome: Outcome, relativePath: string -> string, level: Level)
    requires mode == Auto || accepted
    ensures LoggedLines(ReactionEffects(count, lockfile, mode, accepted, outcome, relativePath), level) ==
      (if level == Info then [CommandLineFor(lockfile)] else []) + LoggedLines(OutcomeLogs(outcome), level)
  {
    LoggedLinesConcat(Announce(lockfile, relativePath), Report(count, outcome), level);
    AnnounceEffects(lockfile, relativePath, level);
    ReportLogged(count, outcome, level);
  }

  /** The status write that ends a report logs nothing. */
  lemma ReportLogged(count: nat, outcome: Outcome, level: Level)
    ensures LoggedLines(Report(count, outcome), level) == LoggedLines(OutcomeLogs(outcome), level)
  {
    var last := SetStatus(OutcomeStatus(count, outcome));
    LoggedLinesConcat(OutcomeLogs(outcome), [last], level);
    SingleLogged(last, level);
    DropEmpty(LoggedLines(OutcomeLogs(outcome), level));
  }

  /** After exit code 0, the whole result goes to the debug log and the output lines to the info log. */
  lemma SuccessLogs(outcome: Outcome, level: Level)
    requires outcome.exitCode == Some(0)
    ensures LoggedLines(OutcomeLogs(outcome), level) ==
      (if level == Debug then [OutputDumpLine(outcome)] else []) +
      (if level == Info then Map(OutputLogLine, StdoutLines(outcome.stdout)) else [])
  {
    var dumpLog := Log(Debug, OutputDumpLine(outcome));
    var lines := StdoutLines(outcome.stdout);
    LoggedLinesConcat([dumpLog], Map(OutputLogEntry, lines), level);
    SingleLogged(dumpLog, level);
    LoggedEntries(lines, OutputLogEntry, OutputLogLine, Info, level);
  }

  /**
   * After exit code 0, the info lines of a reaction are the runner's command
   * line, then the cleaned standard output lines, each behind
   * `[Command Output] `; the debug log holds the whole result only, and
   * nothing is logged at error level.
   */
  lemma ReactionLogsOnSuccess(count: nat, lockfile: string, mode: Mode, accepted: bool,
                              outcome: Outcome, relativePath: string -> string)
    requires mode == Auto || accepted
    requires outcome.exitCode == Some(0)
    ensures LoggedLines(ReactionEffects(count, lockfile, mode, accepted, outcome, relativePath), Info) ==
      [CommandLineFor(lockfile)] + Map(OutputLogLine, StdoutLines(outcome.stdout))
    ensures LoggedLines(ReactionEffects(count, lockfile, mode, accepted, outcome, relativePath), Level.Error) == []
    ensures LoggedLines(ReactionEffects(count, lockfile, mode, accepted, outcome, relativePath), Debug) ==
      [OutputDumpLine(outcome)]
  {
    ReactionLoggedLines(count, lockfile, mode, accepted, outcome, relativePath, Info);
    ReactionLoggedLines(count, lockfile, mode, accepted, outcome, relativePath, Level.Error);
    ReactionLoggedLines(count, lockfile, mode, accepted, outcome, relativePath, Debug);
    SuccessLogs(outcome, Info);
    SuccessLogs(outcome, Level.Error);
    SuccessLogs(outcome, Debug);
    DropEmpty(Map(OutputLogLine, StdoutLines(outcome.stdout)));
    DropEmpty([OutputDumpLine(outcome)]);
  }

  /**
   * After a failure, the whole result and then the exit code go to the debug
   * log, and the error lines to the error log.
   */
  lemma FailureLogs(outcome: Outcome, level: Level)
    requires outcome.exitCode != Some(0)
    ensures LoggedLines(OutcomeLogs(outcome), level) ==
      (if level == Debug then [OutputDumpLine(outcome), "[Command Exit Code] " + ExitCodeText(outcome.exitCode)] else []) +
      (if level == Level.Error then ErrorLines(outcome.stdout, outcome.stderr) else [])
  {
    var dumpLog := Log(Debug, OutputDumpLine(outcome));
    var exitLog := Log(Debug, "[Command Exit Code] " + ExitCodeText(outcome.exitCode));
    var lines := ErrorLines(outcome.stdout, outcome.stderr);
    LoggedLinesConcat([dumpLog], [exitLog] + Map(ErrorLogEntry, lines), level);
    LoggedLinesConcat([exitLog], Map(ErrorLogEntry, lines), level);
    SingleLogged(dumpLog, level);
    SingleLogged(exitLog, level);
    ErrorEntriesLogged(lines, level);
    AppendAssociative(LoggedLines([dumpLog], level), LoggedLines([exitLog], level),
                      LoggedLines(Map(ErrorLogEntry, lines), level));
    if level == Debug {
      PairConcat(dumpLog.line, exitLog.line);
    }
  }

  /** One effect logs its line at its own level when it is a log entry, and nothing otherwise. */
  lemma SingleLogged(e: Effect, level: Level)
    ensures LoggedLines([e], level) == if e.Log? && e.level == level then [e.line] else []
  {
    assert [e][..0] == [];
  }

  /** Lines logged as errors appear, unchanged and in order, at error level only. */
  lemma ErrorEntriesLogged(lines: seq<string>, level: Level)
    ensures LoggedLines(Map(ErrorLogEntry, lines), level) == if level == Level.Error then lines else []
  {
    var same := (line: string) => line;
    assert Map(same, lines) == lines;
    LoggedEntries(lines, ErrorLogEntry, same, Level.Error, level);
  }

  /**
   * After any other exit code, the debug log holds the whole result and the
   * exit code, the error lines are the cleaned standard output lines followed
   * by the cleaned standard error lines, and the info log holds only the
   * runner's command line.
   */
  lemma ReactionLogsOnFailure(count: nat, lockfile: string, mode: Mode, accepted: bool,
                              outcome: Outcome, relativePath: string -> string)
    requires mode == Auto || accepted
    requires outcome.exitCode != Some(0)
    ensures LoggedLines(ReactionEffects(count, lockfile, mode, accepted, outcome, relativePath), Level.Error) ==
      StdoutLines(outcome.stdout) + StderrLines(outcome.stderr)
    ensures LoggedLines(ReactionEffects(count, lockfile, mode, accepted, outcome, relativePath), Debug) ==
      [OutputDumpLine(outcome), "[Command Exit Code] " + ExitCodeText(outcome.exitCode)]
    ensures LoggedLines(ReactionEffects(count, lockfile, mode, accepted, outcome, relativePath), Info) ==
      [CommandLineFor(lockfile)]
  {
    ReactionLoggedLines(count, lockfile, mode, accepted, outcome, relativePath, Level.Error);
    ReactionLoggedLines(count, lockfile, mode, accepted, outcome, relativePath, Debug);
    ReactionLoggedLines(count, lockfile, mode, accepted, outcome, relativePath, Info);
    FailureLogs(outcome, Level.Error);
    FailureLogs(outcome, Debug);
    FailureLogs(outcome, Info);
    DropEmpty(ErrorLines(outcome.stdout, outcome.stderr));
    DropEmpty([OutputDumpLine(outcome), "[Command Exit Code] " + ExitCodeText(outcome.exitCode)]);
    DropEmpty([CommandLineFor(lockfile)]);
  }

  /**
   * With the reactions run one after the other, the status after an event in
   * `auto` mode for a tracked lockfile is the one the last reaction's outcome
   * calls for.
   */
  lemma AutoEventEndsWithLastOutcome(lockfiles: seq<string>, documentUri: string, accepted: nat -> bool,
                                     outcome: nat -> Outcome, relativePath: string -> string, before: Status)
    requires documentUri in lockfiles
    ensures multiset(lockfiles)[documentUri] >= 1
    ensures FinalStatus(before, EventEffects(lockfiles, documentUri, Auto, accepted, outcome, relativePath)) ==
      OutcomeStatus(|lockfiles|, outcome(multiset(lockfiles)[documentUri] - 1))
  {
    MatchingCopies(lockfiles, documentUri);
    var matches := Matching(lockfiles, documentUri);
    var k := |matches| - 1;
    var done := Reactions(|lockfiles|, matches[..k], Auto, accepted, outcome, relativePath);
    FinalStatusConcat(before, done, ReactionEffects(|lockfiles|, matches[k], Auto, accepted(k), outcome(k), relativePath));
    ReactionEndsWithOutcome(|lockfiles|, matches[k], Auto, accepted(k), outcome(k), relativePath, FinalStatus(before, done));
  }

  /** A list holding one lockfile matches an event for it once. */
  lemma MatchingSingle(lockfile: string)
    ensures Matching([lockfile], lockfile) == [lockfile]
  {
    MatchingCopies([lockfile], lockfile);
    assert multiset([lockfile])[lockfile] == 1;
    assert seq(1, _ => lockfile) == [lockfile];
  }

  /** The reactions to one entry are that entry's reaction, with the first answer and outcome. */
  lemma ReactionsSingle(count: nat, lockfile: string, mode: Mode, accepted: nat -> bool,
                        outcome: nat -> Outcome, relativePath: string -> string)
    ensures Reactions(count, [lockfile], mode, accepted, outcome, relativePath) ==
      ReactionEffects(count, lockfile, mode, accepted(0), outcome(0), relativePath)
  {
    assert [lockfile][..0] == [];
    var reaction := ReactionEffects(count, lockfile, mode, accepted(0), outcome(0), relativePath);
    assert [] + reaction == reaction;
  }

  /** A watcher that tracks one lockfile reacts to a change of it exactly once. */
  lemma SingleTrackedEvent(lockfile: string, mode: Mode, accepted: nat -> bool,
                           outcome: nat -> Outcome, relativePath: string -> string)
    ensures EventEffects([lockfile], lockfile, mode, accepted, outcome, relativePath) ==
      ReactionEffects(1, lockfile, mode, accepted(0), outcome(0), relativePath)
  {
    MatchingSingle(lockfile);
    ReactionsSingle(1, lockfile, mode, accepted, outcome, relativePath);
  }

  /** A `yarn.lock` under a directory prefix runs `yarn install` in that directory. */
  lemma YarnLockRun(dir: string)
    requires |dir| > 1 && dir[|dir| - 1] == '/'
    ensures RunFor(dir + "yarn.lock") == Run("yarn install", dir[..|dir| - 1])
  {
    ClassifyByName(dir, "yarn.lock");
    assert '/' !in "yarn.lock" by {
      assert forall i :: 0 <= i < |"yarn.lock"| ==> "yarn.lock"[i] != '/';
    }
    DirnameOfLockfile(dir, "yarn.lock");
  }

  /**
   * A watcher tracking one lockfile, in `auto` mode: a change to it runs the
   * lockfile's command once; after exit code 0 the command line and the
   * cleaned output are logged and the indicator shows the one watched file again.
   */
  lemma SingleLockfileSuccess(lockfile: string, accepted: nat -> bool, outcome: nat -> Outcome,
                              relativePath: string -> string, before: Status)
    requires outcome(0).exitCode == Some(0)
    ensures var effects := EventEffects([lockfile], lockfile, Auto, accepted, outcome, relativePath);
      Runs(effects) == [RunFor(lockfile)] &&
      LoggedLines(effects, Info) == [CommandLineFor(lockfile)] + Map(OutputLogLine, StdoutLines(outcome(0).stdout)) &&
      FinalStatus(before, effects) == Watching(1)
  {
    SingleTrackedEvent(lockfile, Auto, accepted, outcome, relativePath);
    ReactionRunsClassifiedCommand(1, lockfile, Auto, accepted(0), outcome(0), relativePath);
    ReactionLogsOnSuccess(1, lockfile, Auto, accepted(0), outcome(0), relativePath);
    ReactionEndsWithOutcome(1, lockfile, Auto, accepted(0), outcome(0), relativePath, before);
  }

  /**
   * A watcher tracking one `yarn.lock` in `dir`, in `auto` mode: a change to it
   * runs `yarn install` in `dir`; when that succeeds printing a line and then
   * yarn's `Done in` line, the info log holds the command line and the first
   * line only, and the indicator goes back to watching one file.
   */
  lemma YarnInstallAfterChange(dir: string, first: string, second: string, accepted: nat -> bool,
                               outcome: nat -> Outcome, relativePath: string -> string, before: Status)
    requires |dir| > 1 && dir[|dir| - 1] == '/'
    requires '\n' !in first && '\n' !in second
    requires Trim(first) != "" && !StartsWith(Trim(first), DoneInPrefix)
    requires StartsWith(Trim(second), DoneInPrefix)
    requires outcome(0).exitCode == Some(0) && outcome(0).stdout == first + "\n" + second
    ensures var lockfile := dir + "yarn.lock";
      var effects := EventEffects([lockfile], lockfile, Auto, accepted, outcome, relativePath);
      Runs(effects) == [Run("yarn install", dir[..|dir| - 1])] &&
      LoggedLines(effects, Info) ==
        [CommandLogLine("yarn install", dir[..|dir| - 1]), OutputLogLine(Trim(first))] &&
      FinalStatus(before, effects) == Watching(1)
  {
    SingleLockfileSuccess(dir + "yarn.lock", accepted, outcome, relativePath, before);
    StdoutDropsDoneIn(first, second);
    MapSingle(OutputLogLine, Trim(first));
    YarnLockRun(dir);
    PairConcat(CommandLogLine("yarn install", dir[..|dir| - 1]), OutputLogLine(Trim(first)));
  }
}
