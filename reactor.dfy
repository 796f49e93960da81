/**
 * The change reactor: `PackageWatcherExtension` and its `eventHandler`.
 *
 * The watcher holds the lockfiles it tracks and the status indicator, and
 * records in `trace` what it does to the world: every status write, every
 * log line (the runner's own included) and every install command it starts.
 * The host's answers (the configured mode, the user's reply to the prompt,
 * the outcome of a run, the workspace-relative form of a directory) are
 * parameters. Reactions to the
 * matching entries of one event run one after the other.
 */
module Reactor {
  import opened Wrappers
  import opened Seqs
  import opened Json
  import opened Text
  import opened Lockfiles
  import opened CommandOutput
  import opened StatusText

  /** The `packageWatcher.mode` setting as the handler uses it. */
  datatype Mode = Auto | Request

  /** An unset mode reads as `auto`; only the value `request` asks first. */
  function ModeOf(setting: Option<string>): (mode: Mode)
    ensures setting.None? ==> mode == Auto
    ensures mode == Request <==> setting == Some("request")
  {
    match setting
    case None => Auto
    case Some(value) => if value == "request" then Request else Auto
  }

  /**
   * What the runner hands back; `exitCode` is `None` when the failure carries
   * none. `rendered` is the runner's whole result object as the handler's debug
   * log prints it (`JSON.stringify(output, null, 2)`), which the model takes
   * as given rather than building it.
   */
  datatype Outcome = Outcome(exitCode: Option<int>, stdout: string, stderr: string, rendered: string)

  datatype Level = Info | Debug | Error

  /** One observable action of the extension. */
  datatype Effect =
    | SetStatus(status: Status)
    | Log(level: Level, line: string)
    | Run(command: string, cwd: string)

  const NoMatchMessage: string := "No package lock files with a adjacent node_modules were modified"

  /** The runner's options, `{ cwd: directory }`, as `JSON.stringify` writes them. */
  function OptionsText(directory: string): string
  {
    "{\"cwd\":" + Quote(directory) + "}"
  }

  /** The info line the runner logs before it starts a command. */
  function CommandLogLine(command: string, directory: string): string
  {
    "Command: " + command + " / Options: " + OptionsText(directory)
  }

  /** The debug line logged with the runner's whole result. */
  function OutputDumpLine(outcome: Outcome): string
  {
    "Command output: " + outcome.rendered
  }

  function OutputLogLine(line: string): string
  {
    "[Command Output] " + line
  }

  function OutputLogEntry(line: string): Effect
  {
    Log(Info, OutputLogLine(line))
  }

  function ErrorLogEntry(line: string): Effect
  {
    Log(Level.Error, line)
  }

  /** `${exitCode}`: an absent exit code prints as `undefined`. */
  function ExitCodeText(exitCode: Option<int>): (text: string)
    ensures text == "undefined" <==> exitCode.None?
    ensures exitCode.Some? && exitCode.value >= 0 ==> AllDigits(text) && DecimalValue(text) == exitCode.value
    ensures exitCode.Some? && exitCode.value < 0 ==>
      |text| >= 2 && text[0] == '-' && AllDigits(text[1..]) && DecimalValue(text[1..]) == -exitCode.value
  {
    match exitCode
    case None => "undefined"
    case Some(code) => IntToString(code)
  }

  /** The status after the effects, starting from `before`: the last write wins. */
  function FinalStatus(before: Status, effects: seq<Effect>): Status
    decreases |effects|
  {
    if effects == [] then before
    else match effects[|effects| - 1]
      case SetStatus(s) => s
      case _ => FinalStatus(before, effects[..|effects| - 1])
  }

  /** The entries of the tracked list whose URI string equals the event's. */
  function Matching(lockfiles: seq<string>, documentUri: string): (matches: seq<string>)
    ensures |matches| <= |lockfiles|
    ensures forall i :: 0 <= i < |matches| ==> matches[i] == documentUri
  {
    FilterMembership(uri => uri == documentUri, lockfiles);
    Filter(uri => uri == documentUri, lockfiles)
  }

  /**
   * Up to the start of the install: the `loading` status naming the command
   * and the directory, the runner's command line in the info log, then the run.
   */
  function Announce(lockfile: string, relativePath: string -> string): seq<Effect>
  {
    var command := Classify(lockfile);
    var directory := Dirname(lockfile);
    [SetStatus(Status(Loading, RunningTooltip(command, relativePath(directory)))),
     Log(Info, CommandLogLine(command, directory)),
     Run(command, directory)]
  }

  /** The status a run leaves behind: watching on exit code 0, an error listing the output otherwise. */
  function OutcomeStatus(count: nat, outcome: Outcome): (status: Status)
    ensures status.icon == CheckAll <==> outcome.exitCode == Some(0)
    ensures status.icon != Loading
  {
    if outcome.exitCode == Some(0) then Watching(count)
    else Status(Icon.Error, ErrorTooltip(StdoutLines(outcome.stdout)))
  }

  /**
   * The lines logged about a finished run: the whole result at debug level;
   * then, on exit code 0, the output at info level; otherwise the exit code at
   * debug level and the error lines at error level.
   */
  function OutcomeLogs(outcome: Outcome): seq<Effect>
  {
    [Log(Debug, OutputDumpLine(outcome))] +
    (if outcome.exitCode == Some(0) then Map(OutputLogEntry, StdoutLines(outcome.stdout))
     else [Log(Debug, "[Command Exit Code] " + ExitCodeText(outcome.exitCode))] +
          Map(ErrorLogEntry, ErrorLines(outcome.stdout, outcome.stderr)))
  }

  /** What follows a finished run: the outcome's log lines, then the status it calls for. */
  function Report(count: nat, outcome: Outcome): seq<Effect>
  {
    OutcomeLogs(outcome) + [SetStatus(OutcomeStatus(count, outcome))]
  }

  /**
   * The effects of one reaction to a matching lockfile, for a watcher that
   * tracks `count` lockfiles: nothing when the prompt is dismissed, otherwise
   * the announcement followed by the report.
   */
  function ReactionEffects(count: nat, lockfile: string, mode: Mode, accepted: bool,
                           outcome: Outcome, relativePath: string -> string): seq<Effect>
  {
    if mode == Request && !accepted then []
    else Announce(lockfile, relativePath) + Report(count, outcome)
  }

  /** The reactions to `entries`, the k-th using the k-th prompt answer and run outcome. */
  function Reactions(count: nat, entries: seq<string>, mode: Mode, accepted: nat -> bool,
                     outcome: nat -> Outcome, relativePath: string -> string): seq<Effect>
    decreases |entries|
  {
    if entries == [] then []
    else
      var k := |entries| - 1;
      Reactions(count, entries[..k], mode, accepted, outcome, relativePath) +
      ReactionEffects(count, entries[k], mode, accepted(k), outcome(k), relativePath)
  }

  /** The effects of `eventHandler` for one file-system event. */
  function EventEffects(lockfiles: seq<string>, documentUri: string, mode: Mode, accepted: nat -> bool,
                        outcome: nat -> Outcome, relativePath: string -> string): seq<Effect>
  {
    var matches := Matching(lockfiles, documentUri);
    if matches == [] then [Log(Info, NoMatchMessage)]
    else Reactions(|lockfiles|, matches, mode, accepted, outcome, relativePath)
  }

  class PackageWatcher {
    /** `_lockfilesWithNodeModules`: fixed for the life of the watcher. */
    var lockfiles: seq<string>
    /** The status indicator. */
    var status: Status
    /** Everything done so far, oldest first. */
    var trace: seq<Effect>

    /** Takes the tracked list and shows the watching status. */
    constructor (lockfilesWithNodeModules: seq<string>, before: seq<Effect>)
      ensures lockfiles == lockfilesWithNodeModules
      ensures status == Watching(|lockfilesWithNodeModules|)
      ensures trace == before + [SetStatus(Watching(|lockfilesWithNodeModules|))]
    {
      lockfiles := lockfilesWithNodeModules;
      status := Watching(|lockfilesWithNodeModules|);
      trace := before + [SetStatus(Watching(|lockfilesWithNodeModules|))];
    }

    /** `statusBar.update`: overwrites the whole indicator. */
    method UpdateStatus(next: Status)
      modifies this
      ensures lockfiles == old(lockfiles)
      ensures status == next
      ensures trace == old(trace) + [SetStatus(next)]
    {
      status := next;
      trace := trace + [SetStatus(next)];
    }

    method AppendLog(level: Level, line: string)
      modifies this
      ensures lockfiles == old(lockfiles) && status == old(status)
      ensures trace == old(trace) + [Log(level, line)]
    {
      trace := trace + [Log(level, line)];
    }

    /** `resetStatusBar`: the watching status for the tracked count. */
    method ResetStatusBar()
      modifies this
      ensures lockfiles == old(lockfiles)
      ensures status == Watching(|lockfiles|)
      ensures trace == old(trace) + [SetStatus(Watching(|lockfiles|))]
    {
      UpdateStatus(Watching(|lockfiles|));
    }

    /** `lines.forEach(...)` at one level: each line, in order, through `entry`. */
    method LogEach(lines: seq<string>, entry: string -> Effect)
      modifies this
      ensures lockfiles == old(lockfiles) && status == old(status)
      ensures trace == old(trace) + Map(entry, lines)
    {
      var i := 0;
      while i < |lines|
        invariant 0 <= i <= |lines|
        invariant lockfiles == old(lockfiles) && status == old(status)
        invariant trace == old(trace) + Map(entry, lines[..i])
      {
        assert Map(entry, lines[..i + 1]) == Map(entry, lines[..i]) + [entry(lines[i])];
        trace := trace + [entry(lines[i])];
        i := i + 1;
      }
      assert lines[..i] == lines;
    }

    /** `runCommand`: logs the command and its options, then starts it. */
    method RunCommand(command: string, directory: string)
      modifies this
      ensures lockfiles == old(lockfiles) && status == old(status)
      ensures trace == old(trace) + [Log(Info, CommandLogLine(command, directory)), Run(command, directory)]
    {
      AppendLog(Info, CommandLogLine(command, directory));
      trace := trace + [Run(command, directory)];
    }

    /** After a run: logs its outcome and sets the status it calls for. */
    method ReportOutcome(outcome: Outcome)
      modifies this
      ensures lockfiles == old(lockfiles)
      ensures status == OutcomeStatus(|lockfiles|, outcome)
      ensures trace == old(trace) + Report(|lockfiles|, outcome)
    {
      var dumpLog := Log(Debug, OutputDumpLine(outcome));
      AppendLog(dumpLog.level, dumpLog.line);
      ghost var start := trace;
      var lines := StdoutLines(outcome.stdout);
      if outcome.exitCode == Some(0) {
        LogEach(lines, OutputLogEntry);
        ResetStatusBar();
      } else {
        var exitLog := Log(Debug, "[Command Exit Code] " + ExitCodeText(outcome.exitCode));
        AppendLog(exitLog.level, exitLog.line);
        LogEach(lines + StderrLines(outcome.stderr), ErrorLogEntry);
        UpdateStatus(Status(Icon.Error, ErrorTooltip(lines)));
        AppendAssociative(start, [exitLog], Map(ErrorLogEntry, ErrorLines(outcome.stdout, outcome.stderr)));
      }
      ghost var result := OutcomeLogs(outcome)[1..];
      assert OutcomeLogs(outcome) == [dumpLog] + result;
      AppendAssociative(old(trace), [dumpLog], result);
      AppendAssociative(old(trace), [dumpLog] + result, [SetStatus(OutcomeStatus(|lockfiles|, outcome))]);
    }

    /** The body of the `map` callback in `eventHandler`, for one matching lockfile. */
    method React(lockfile: string, mode: Mode, accepted: bool, outcome: Outcome, relativePath: string -> string)
      modifies this
      ensures lockfiles == old(lockfiles)
      ensures trace == old(trace) + ReactionEffects(|lockfiles|, lockfile, mode, accepted, outcome, relativePath)
      ensures status == FinalStatus(old(status), ReactionEffects(|lockfiles|, lockfile, mode, accepted, outcome, relativePath))
    {
      var terminalCommand := Classify(lockfile);
      var command: Option<string> := if mode == Request then (if accepted then Some(terminalCommand) else None)
                                     else Some(terminalCommand);
      if command.None? {
        return;
      }
      Install(lockfile, command.value, relativePath, outcome);
      ReactionEndsWithOutcome(|lockfiles|, lockfile, mode, accepted, outcome, relativePath, old(status));
      AppendAssociative(old(trace), Announce(lockfile, relativePath), Report(|lockfiles|, outcome));
    }

    /** Runs the install `command` chosen for `lockfile` and reports its outcome. */
    method Install(lockfile: string, command: string, relativePath: string -> string, outcome: Outcome)
      requires command == Classify(lockfile)
      modifies this
      ensures lockfiles == old(lockfiles)
      ensures status == OutcomeStatus(|lockfiles|, outcome)
      ensures trace == old(trace) + Announce(lockfile, relativePath) + Report(|lockfiles|, outcome)
    {
      var directory := Dirname(lockfile);
      var relativeDirectory := relativePath(directory);
      UpdateStatus(Status(Loading, RunningTooltip(command, relativeDirectory)));
      RunCommand(command, directory);
      assert trace == old(trace) + Announce(lockfile, relativePath);
      ReportOutcome(outcome);
    }

    /** `eventHandler`: reacts to a created, changed or deleted lockfile. */
    method HandleEvent(documentUri: string, modeSetting: Option<string>, accepted: nat -> bool,
                       outcome: nat -> Outcome, relativePath: string -> string)
      modifies this
      ensures lockfiles == old(lockfiles)
      ensures trace == old(trace) + EventEffects(old(lockfiles), documentUri, ModeOf(modeSetting), accepted, outcome, relativePath)
      ensures status == FinalStatus(old(status), EventEffects(old(lockfiles), documentUri, ModeOf(modeSetting), accepted, outcome, relativePath))
    {
      var matches := Matching(lockfiles, documentUri);
      if matches == [] {
        AppendLog(Info, NoMatchMessage);
        return;
      }
      ReactToEach(matches, ModeOf(modeSetting), accepted, outcome, relativePath);
    }

    /** Reacts to the entry after those already reacted to, extending the trace and the status by its reaction. */
    method ReactNext(matches: seq<string>, i: nat, mode: Mode, accepted: nat -> bool, outcome: nat -> Outcome,
                     relativePath: string -> string, ghost start: seq<Effect>, ghost initial: Status)
      requires i < |matches|
      requires trace == start + Reactions(|lockfiles|, matches[..i], mode, accepted, outcome, relativePath)
      requires status == FinalStatus(initial, Reactions(|lockfiles|, matches[..i], mode, accepted, outcome, relativePath))
      modifies this
      ensures lockfiles == old(lockfiles)
      ensures trace == start + Reactions(|lockfiles|, matches[..i + 1], mode, accepted, outcome, relativePath)
      ensures status == FinalStatus(initial, Reactions(|lockfiles|, matches[..i + 1], mode, accepted, outcome, relativePath))
    {
      ghost var done := Reactions(|lockfiles|, matches[..i], mode, accepted, outcome, relativePath);
      ghost var next := ReactionEffects(|lockfiles|, matches[i], mode, accepted(i), outcome(i), relativePath);
      React(matches[i], mode, accepted(i), outcome(i), relativePath);
      ReactionsStep(|lockfiles|, matches, i, mode, accepted, outcome, relativePath, initial);
      AppendAssociative(start, done, next);
    }

    /** The `Promise.all(... .map(...))` of `eventHandler`, one matching entry after the other. */
    method ReactToEach(matches: seq<string>, mode: Mode, accepted: nat -> bool,
                       outcome: nat -> Outcome, relativePath: string -> string)
      modifies this
      ensures lockfiles == old(lockfiles)
      ensures trace == old(trace) + Reactions(|lockfiles|, matches, mode, accepted, outcome, relativePath)
      ensures status == FinalStatus(old(status), Reactions(|lockfiles|, matches, mode, accepted, outcome, relativePath))
    {
      var i := 0;
      while i < |matches|
        invariant 0 <= i <= |matches|
        invariant lockfiles == old(lockfiles)
        invariant trace == old(trace) + Reactions(|lockfiles|, matches[..i], mode, accepted, outcome, relativePath)
        invariant status == FinalStatus(old(status), Reactions(|lockfiles|, matches[..i], mode, accepted, outcome, relativePath))
      {
        ReactNext(matches, i, mode, accepted, outcome, relativePath, old(trace), old(status));
        i := i + 1;
      }
      assert matches[..i] == matches;
    }
  }

  /** One more entry adds its reaction at the end, and the status follows it. */
  lemma ReactionsStep(count: nat, entries: seq<string>, i: nat, mode: Mode, accepted: nat -> bool,
                      outcome: nat -> Outcome, relativePath: string -> string, before: Status)
    requires i < |entries|
    ensures Reactions(count, entries[..i + 1], mode, accepted, outcome, relativePath) ==
      Reactions(count, entries[..i], mode, accepted, outcome, relativePath) +
      ReactionEffects(count, entries[i], mode, accepted(i), outcome(i), relativePath)
    ensures FinalStatus(before, Reactions(count, entries[..i + 1], mode, accepted, outcome, relativePath)) ==
      FinalStatus(FinalStatus(before, Reactions(count, entries[..i], mode, accepted, outcome, relativePath)),
                  ReactionEffects(count, entries[i], mode, accepted(i), outcome(i), relativePath))
  {
    assert entries[..i + 1][..i] == entries[..i];
    FinalStatusConcat(before, Reactions(count, entries[..i], mode, accepted, outcome, relativePath),
                      ReactionEffects(count, entries[i], mode, accepted(i), outcome(i), relativePath));
  }

  /** Applying effects in two parts ends where applying them at once does. */
  lemma {:induction false} FinalStatusConcat(before: Status, a: seq<Effect>, b: seq<Effect>)
    ensures FinalStatus(before, a + b) == FinalStatus(FinalStatus(before, a), b)
    decreases |b|
  {
    if b == [] {
      assert a + b == a;
    } else {
      assert (a + b)[..|a + b| - 1] == a + b[..|b| - 1];
      FinalStatusConcat(before, a, b[..|b| - 1]);
    }
  }

  lemma FinalStatusLastWrite(before: Status, effects: seq<Effect>, last: Status)
    ensures FinalStatus(before, effects + [SetStatus(last)]) == last
  {
    assert (effects + [SetStatus(last)])[|effects|] == SetStatus(last);
  }

  /** A reaction that runs leaves the indicator in the state its outcome calls for. */
  lemma ReactionEndsWithOutcome(count: nat, lockfile: string, mode: Mode, accepted: bool,
                                outcome: Outcome, relativePath: string -> string, before: Status)
    requires mode == Auto || accepted
    ensures FinalStatus(before, ReactionEffects(count, lockfile, mode, accepted, outcome, relativePath)) ==
      OutcomeStatus(count, outcome)
  {
    var report := Report(count, outcome);
    var body := report[..|report| - 1];
    assert report == body + [SetStatus(OutcomeStatus(count, outcome))];
    assert Announce(lockfile, relativePath) + report == (Announce(lockfile, relativePath) + body) + [SetStatus(OutcomeStatus(count, outcome))];
    FinalStatusLastWrite(before, Announce(lockfile, relativePath) + body, OutcomeStatus(count, outcome));
  }
}
