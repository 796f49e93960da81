# Package Watcher: a verified model of the lockfile reactor

This project models the core of the `noinfo Package Watcher` editor extension: the part that watches
package lockfiles (`pnpm-lock.yaml`, `yarn.lock`, `package-lock.json`) and, when one changes, runs the
matching install command in its directory. The model covers the following:

- **The scan** (`initializePackageWatcher`).
  - It keeps the lockfiles that have a `node_modules` directory beside them.
  - It logs the ones that are not workspace roots.
  - It builds the watcher.
- **The classifier**: which of `yarn install`, `pnpm install` and `npm install` a lockfile calls for.
- **The path derivation**: the path checked for `node_modules`, and the directory the install runs in.
- **The line cleaning** of the install command's output: split on line feeds, trim, drop blank lines, and
  drop yarn's `Done in …` line from standard output.
- **The status indicator**: its three icons and the tooltip texts written into it.
- **The change reactor** (`PackageWatcherExtension.eventHandler`): on a file event, it decides whether and
  which command runs. It also decides what is logged at each level and what the indicator shows.

The watcher is a class. Its fields are:
- `lockfiles`: the tracked list;
- `status`: the indicator;
- `trace`: everything the watcher has done so far. Each entry is a status write, a log line at a level,
  or a started command with its working directory.

Each method states its new state through a specification function (`EventEffects`, `Reactions`,
`ReactionEffects`, `ScanEffects`). The properties are lemmas about these functions. The host supplies the
following answers, given as parameters:
- the configured mode;
- the user's answer to each prompt;
- the outcome of each run;
- the workspace-relative form of a directory;
- the scanned candidates;
- whether a path exists;
- whether a lockfile's `package.json` declares workspaces.

The reactions to the entries matching one event happen one after the other, in list order.

The scan computes two lists. `lockfilesWithNodeModules` (`src/extension.ts:228-234`) keeps the lockfiles
that have `node_modules` beside them. `lockfilesWithoutWorkspaces` (`src/extension.ts:236-242`) keeps those
of them that are not workspace roots. Only the second list is counted and listed in the log
(`src/extension.ts:244-252`). The first list is the one handed to the watcher (`src/extension.ts:254-257`).
The model does the same. So a workspace root with `node_modules` is neither counted nor listed, yet it is
still tracked and reacted to (`Scanner.WorkspaceRootTrackedButNotReported`).

Modules, one per file:
- `Wrappers`: an `Option` type.
- `Seqs`: `map` and `filter`.
- `Json`: `JSON.stringify` of a string, used for the runner's options line.
- `Text`: `trim`, `split`, `join`, `startsWith`, `endsWith`, `indexOf` and `lastIndexOf`, first-occurrence
  `replace`, and decimal rendering.
- `Lockfiles`: the classifier, the `node_modules` path and `dirname`.
- `CommandOutput`: line cleaning.
- `StatusText`: the indicator's states and tooltips.
- `Reactor`: the watcher class and the event handler.
- `ReactorProperties`: what the handler promises.
- `Scanner`: the scan.

## Model

| member | source | states |
|---|---|---|
| Lockfiles.Classify | src/extension.ts:87-94 | the command is always one of `yarn install`, `pnpm install`, `npm install` |
| Lockfiles.ClassifyByName | src/extension.ts:87-94 | any path ending in a watched lockfile name gets that name's command: `yarn.lock` gives yarn, `pnpm-lock.yaml` gives pnpm, `package-lock.json` gives npm, wherever the file lies |
| Lockfiles.RemoveNames | src/extension.ts:203-205 | the `reduce` over the lockfile names, each step removing the first occurrence of one name; its effect is stated by `NodeModulesIsSibling` and `NodeModulesPathInNamedDirectory` |
| Lockfiles.NodeModulesPath | src/extension.ts:203-206 | the path checked for `node_modules`: the lockfile path with the names removed, then `node_modules` appended; its effect is stated by the two lemmas below |
| Lockfiles.NodeModulesIsSibling | src/extension.ts:203-206 | for a lockfile in a directory whose path contains no lockfile name, the path checked is the directory joined with `node_modules` |
| Lockfiles.NodeModulesPathInNamedDirectory | src/extension.ts:203-206 | for `P/yarn.lock.d/yarn.lock` the removal hits the directory's `yarn.lock`, so the path checked is `P/.d/yarn.locknode_modules` and not the lockfile's sibling `P/yarn.lock.d/node_modules` |
| Lockfiles.Dirname | src/extension.ts:113 | POSIX `path.dirname`: the text before the last `/`, `/` when that is the first character, `.` when there is none; its effect on lockfile paths is stated by `DirnameOfLockfile` |
| Lockfiles.DirnameOfLockfile | src/extension.ts:113 | the install directory of `dir/name` is `dir` without its trailing separator |
| Json.HexDigit | src/extension.ts:18 | the digit written for a value below 16 is a lower-case hexadecimal digit that reads back as that value |
| Json.Quote | src/extension.ts:18 | `JSON.stringify` of a string: the escaped text between double quotes; stated by `UnescapeEscape` and `QuoteInjective` |
| Json.EscapeChar | src/extension.ts:18 | the quote, the backslash, backspace, tab, line feed, form feed and carriage return get their one-letter escape, other control characters `\u00XX`, everything else stays; stated by `UnescapeChar` |
| Json.UnescapeChar | src/extension.ts:18 | reading back one escaped character, followed by any text, gives that character first |
| Json.UnescapeEscape | src/extension.ts:18 | every string is read back unchanged from its escaped form |
| Json.QuoteInjective | src/extension.ts:18 | different strings are stringified differently |
| Json.EscapePlain | src/extension.ts:18 | a string without quote, backslash or control character is written unchanged |
| Text.Trim | src/extension.ts:130 | the trimmed line is empty or starts and ends with a non-whitespace character |
| Text.LeadingBlanks | src/extension.ts:130 | counts exactly the whitespace the text starts with: all of it is whitespace and the next character is not |
| Text.TrailingBlanks | src/extension.ts:130 | counts exactly the whitespace the text ends with: all of it is whitespace and the character before is not |
| Text.TrimRemovesOnlyWhitespace | src/extension.ts:130 | trimming keeps the middle of the text intact and removes only whitespace before and after it |
| Text.TrimOfTrimmed | src/extension.ts:130 | a text that neither starts nor ends with whitespace is its own trim |
| Text.Split | src/extension.ts:129 | splitting gives at least one piece, and no piece contains the separator |
| Text.JoinSplit | src/extension.ts:129 | joining the pieces of a split with the separator gives back the text |
| Text.SplitWithoutSeparator | src/extension.ts:129 | a text without the separator is a single piece |
| Text.SplitConcat | src/extension.ts:129 | splitting `a + sep + b` gives the pieces of `a` followed by those of `b` |
| Text.Join | src/extension.ts:166 | an array in a template literal: the elements joined by the separator, empty for no elements; its inverse is stated by `SplitJoin` and `JoinSplit` |
| Text.SplitJoin | src/extension.ts:166 | splitting the comma join of comma-free lines gives back the lines |
| Text.EndsWithConcat | src/extension.ts:87-94 | whether a path ends in a suffix no longer than its last part is decided by that part alone |
| Text.NatToString | src/extension.ts:58-60 | the rendered count is a non-empty run of digits that starts with `0` only for zero |
| Text.DecimalRoundTrip | src/extension.ts:58-60 | reading back the rendered count gives the count |
| Text.NatToStringInjective | src/extension.ts:58-60 | different counts render differently |
| Text.IntToString | src/extension.ts:153 | an integer in a template literal: for a non-negative value, digits that read back as the value; for a negative one, a `-` followed by digits that read back as its magnitude |
| Text.IndexOfFrom | src/extension.ts:204 | the result is the first occurrence at or after the start, or none when there is no occurrence there |
| Text.RemoveFirst | src/extension.ts:204 | `replace` with a string pattern and an empty replacement; stated by `RemoveFirstAbsent` and `RemoveFirstAt` |
| Text.RemoveFirstAbsent | src/extension.ts:204 | replacing a pattern that does not occur leaves the path unchanged |
| Text.RemoveFirstAt | src/extension.ts:204 | replacing removes exactly the characters of the first occurrence |
| Text.AbsentCharacter | src/extension.ts:204 | a pattern holding a character the path lacks does not occur in it |
| Text.LastIndexOf | src/extension.ts:113 | the result is the index of the last separator, or none when there is no separator |
| Text.LastIndexOfAt | src/extension.ts:113 | a separator with none after it is the last one |
| Seqs.FilterMembership | src/extension.ts:131 | an element is kept exactly when it is in the input and passes; no more elements come out than went in |
| Seqs.FilterConcat | src/extension.ts:131 | filtering keeps the input order: filtering `a + b` gives the filtered `a` followed by the filtered `b` |
| CommandOutput.CleanLines | src/extension.ts:128-131 | split on line feeds, trim each line, drop the empty ones; stated by `CleanLinesMembership`, `CleanLineIsTrimmed` and `CleanLinesConcat` |
| CommandOutput.StdoutLines | src/extension.ts:128-133 | the cleaned standard-output lines without yarn's `Done in` line; stated by `StdoutLinesMembership`, `StdoutLinesAreClean` and `StdoutLinesConcat` |
| CommandOutput.StderrLines | src/extension.ts:156-159 | the cleaned standard-error lines, with no `Done in` filter; stated by `StderrLinesConcat` and `StderrSingleLine` |
| CommandOutput.ErrorLines | src/extension.ts:154-160 | the lines logged at error level: the standard-output lines, then the standard-error lines; stated by `ReactionLogsOnFailure` |
| CommandOutput.CleanLinesMembership | src/extension.ts:128-131 | a line is kept exactly when it is the non-empty trim of some input line |
| CommandOutput.CleanLineIsTrimmed | src/extension.ts:128-131 | every kept line is non-empty and neither starts nor ends with whitespace |
| CommandOutput.StdoutLinesAreClean | src/extension.ts:128-133 | every standard-output line is non-empty, trimmed and does not start with `Done in` |
| CommandOutput.StdoutLineOrigin | src/extension.ts:133 | a standard-output line is exactly a kept line that does not start with `Done in` |
| CommandOutput.StdoutLinesMembership | src/extension.ts:128-133 | a text is a standard-output line exactly when it is the non-empty trim of an input line and does not start with `Done in` |
| CommandOutput.CleanLinesConcat | src/extension.ts:128-131 | lines are cleaned one by one and keep their order across a line feed |
| CommandOutput.StdoutLinesConcat | src/extension.ts:128-133 | standard-output lines keep their order across a line feed |
| CommandOutput.StderrLinesConcat | src/extension.ts:156-159 | standard-error lines keep their order across a line feed |
| CommandOutput.CleanSingleLine | src/extension.ts:128-131 | one input line gives its trim, or nothing when it is blank |
| CommandOutput.StdoutSingleLine | src/extension.ts:128-133 | one standard-output line gives its trim, or nothing when it is blank or a `Done in` line |
| CommandOutput.StderrSingleLine | src/extension.ts:156-159 | one standard-error line gives its trim, or nothing when blank; a `Done in` line is kept |
| CommandOutput.StdoutDropsDoneIn | src/extension.ts:128-133 | a real output line followed by yarn's `Done in` line leaves only the real line, trimmed |
| StatusText.LockFileCount | src/extension.ts:58-62 | `N package lock file(s)`, singular for exactly one; stated by `LockFileCountInjective` |
| StatusText.WatchingTooltip | src/extension.ts:58-62 | the idle tooltip `Watching N package lock file(s)`; stated by the three `WatchingTooltip` lemmas |
| StatusText.RunningTooltip | src/extension.ts:119 | the tooltip while a command runs, naming the command and the relative directory; stated by `ReactionStatusWrites` |
| StatusText.ErrorTooltip | src/extension.ts:166 | `Error: ` followed by the standard-output lines joined by commas; stated by `ErrorTooltipLines` and `ErrorTooltipMergesCommas` |
| StatusText.LockFileCountInjective | src/extension.ts:58-62 | different counts give different `N package lock file(s)` phrases |
| StatusText.WatchingTooltipInjective | src/extension.ts:58-62 | different tracked counts give different watching tooltips |
| StatusText.WatchingTooltipPlural | src/extension.ts:61 | the tooltip ends in `files` exactly when the count is not one |
| StatusText.WatchingTooltipCount | src/extension.ts:58-60 | the tooltip starts with `Watching ` followed by the count in decimal |
| StatusText.ErrorTooltipLines | src/extension.ts:164-167 | for at least one line and no comma in any line: the tooltip is `Error: ` followed by text that splits on commas into exactly the given lines |
| StatusText.ErrorTooltipMergesCommas | src/extension.ts:166 | a line holding a comma reads like two lines: `["x,y"]` and `["x", "y"]` give the same tooltip, so the tooltip does not determine the lines once they contain commas |
| Reactor.ModeOf | src/extension.ts:82-83 | an unset mode is `auto`, and the mode is `request` exactly when the setting is `request` |
| Reactor.OptionsText | src/extension.ts:18 | the runner's options `{ cwd: directory }` as `JSON.stringify` writes them; stated by `OptionsTextPlain` |
| Reactor.CommandLogLine | src/extension.ts:18 | the runner's `Command: <cmd> / Options: <json>` info line; stated by `AnnounceEffects` |
| Reactor.OutputDumpLine | src/extension.ts:125 | the `Command output: ` debug line, followed by the runner's whole result as rendered by the host; stated by `SuccessLogs` and `FailureLogs` |
| Reactor.ExitCodeText | src/extension.ts:153 | the exit code in a template literal reads `undefined` exactly when there is no exit code; otherwise its digits read back as the code, behind a `-` when it is negative |
| Reactor.Matching | src/extension.ts:71-73 | the matching entries are no more than the tracked list, and each equals the event's URI; `MatchingCopies` states how many |
| Reactor.FinalStatus | src/statusBar.ts:13-22 | the indicator after a run of effects is the last status written, or the one before when none is; stated by `FinalStatusLastWrite` and `FinalStatusConcat` |
| Reactor.Announce | src/extension.ts:113-124 | the `loading` status, the runner's command line, then the run; stated by `AnnounceEffects` |
| Reactor.OutcomeStatus | src/extension.ts:135-167 | the indicator after a run shows the check icon exactly when the exit code is 0, and never the loading icon |
| Reactor.OutcomeLogs | src/extension.ts:125-162 | the lines logged about a finished run; stated by `SuccessLogs`, `FailureLogs` and `OutcomeLogsOnlyLog` |
| Reactor.Report | src/extension.ts:125-167 | the outcome's log lines, then its status write; stated by `ReportEffects` and `ReportLogged` |
| Reactor.ReactionEffects | src/extension.ts:86-167 | one reaction: nothing after a dismissed prompt, otherwise the announcement and the report; stated by the `Reaction…` lemmas |
| Reactor.Reactions | src/extension.ts:85-181 | the reactions to the matching entries in list order, the k-th with the k-th answer and outcome; stated by `ReactionsStep` and `AutoRunsEachEntry` |
| Reactor.EventEffects | src/extension.ts:66-182 | one event: the no-match message when nothing matches, otherwise the reactions; stated by `UntrackedEventIsNoop`, `AutoEventRuns` and `AutoEventEndsWithLastOutcome` |
| Reactor.PackageWatcher.constructor | src/extension.ts:42-53 | the watcher keeps the given list and shows the watching status for its length |
| Reactor.PackageWatcher.UpdateStatus | src/statusBar.ts:13-22 | an update overwrites the whole indicator (icon and tooltip) and is recorded |
| Reactor.PackageWatcher.AppendLog | src/extension.ts:76-78 | a log line is appended at its level; the indicator is unchanged |
| Reactor.PackageWatcher.ResetStatusBar | src/extension.ts:55-64 | the indicator shows the watching status for the number of tracked lockfiles |
| Reactor.PackageWatcher.LogEach | src/extension.ts:136-138 | each line, in order, is logged through the given entry |
| Reactor.PackageWatcher.RunCommand | src/extension.ts:12-24 | the runner logs its `Command:` line at info level and then starts the command in the given directory; the indicator is unchanged |
| Reactor.PackageWatcher.ReportOutcome | src/extension.ts:125-167 | logs the outcome and sets the status it calls for, as `Report` specifies |
| Reactor.PackageWatcher.Install | src/extension.ts:113-167 | for the classified command: the trace grows by the announcement and the report, and the indicator ends at the outcome's status |
| Reactor.PackageWatcher.React | src/extension.ts:86-179 | one reaction appends `ReactionEffects` to the trace, and the status is the last one it wrote |
| Reactor.PackageWatcher.ReactNext | src/extension.ts:85-181 | reacting to the next matching entry extends the trace from the reactions to the first `i` entries to those to the first `i + 1` |
| Reactor.PackageWatcher.ReactToEach | src/extension.ts:85-181 | the reactions to the matching entries, in order, with the k-th answer and outcome |
| Reactor.PackageWatcher.HandleEvent | src/extension.ts:66-182 | the handler appends `EventEffects` for the event, the tracked list is unchanged, and the status is the last one written |
| Reactor.ReactionsStep | src/extension.ts:85-181 | one more entry adds its reaction at the end, and the status follows it |
| Reactor.FinalStatusConcat | src/statusBar.ts:13-22 | writing two runs of effects one after the other ends where writing them at once does |
| Reactor.FinalStatusLastWrite | src/statusBar.ts:13-22 | the last status write wins |
| Reactor.ReactionEndsWithOutcome | src/extension.ts:135-167 | a reaction that goes ahead leaves the status its outcome calls for: watching on exit code 0, the error status otherwise |
| ReactorProperties.MatchingCopies | src/extension.ts:71-73 | the matching entries are copies of the event's URI, one per occurrence in the tracked list |
| ReactorProperties.UntrackedEventIsNoop | src/extension.ts:71-80 | an event for an untracked file only logs the no-match message: no run, no status write, the status unchanged |
| ReactorProperties.DismissedPromptsAreSilent | src/extension.ts:96-111 | in `request` mode with every prompt dismissed, the reactions do nothing: no run, no status write, no log line |
| ReactorProperties.AcceptedPromptsActAsAuto | src/extension.ts:96-111 | accepting every prompt in `request` mode gives exactly the effects of `auto` mode |
| ReactorProperties.OptionsTextPlain | src/extension.ts:18 | a directory without quote, backslash or control character appears verbatim: `{"cwd":"<dir>"}` |
| ReactorProperties.AnnounceEffects | src/extension.ts:113-124 | the announcement writes the `loading` status naming the command and relative directory, logs the runner's `Command:` line at info level only, and starts the classified command |
| ReactorProperties.ReportEffects | src/extension.ts:135-167 | reporting starts no command and writes the status exactly once with the outcome's status |
| ReactorProperties.ReportFinalStatus | src/extension.ts:135-167 | whatever the indicator showed before, a report leaves it at the outcome's status: watching on exit code 0, the error status otherwise |
| ReactorProperties.OutcomeLogsOnlyLog | src/extension.ts:125-162 | everything logged about a finished run is a log line: no run, no status write |
| ReactorProperties.ReactionRunsClassifiedCommand | src/extension.ts:87-124 | a reaction that goes ahead starts exactly one command: the classified one, in the lockfile's directory |
| ReactorProperties.AutoRunsEachEntry | src/extension.ts:85-124 | in `auto` mode each matching entry starts its classified command, in order |
| ReactorProperties.AutoEventRuns | src/extension.ts:71-124 | in `auto` mode an event starts the classified command in the file's directory once per occurrence in the tracked list, and nothing for an untracked file |
| ReactorProperties.ReactionStatusWrites | src/extension.ts:117-167 | a reaction that goes ahead writes the status twice: `loading` with `Running <cmd> in <dir>`, then the outcome's status |
| ReactorProperties.ReportLogged | src/extension.ts:125-167 | the status write that ends a report logs nothing: the report logs exactly what the outcome logs |
| ReactorProperties.ReactionLoggedLines | src/extension.ts:18-167 | a reaction that goes ahead logs the runner's `Command:` line at info level, then exactly what its outcome logs |
| ReactorProperties.SuccessLogs | src/extension.ts:125-138 | after exit code 0 the debug log holds the `Command output:` line and the info log the output lines behind `[Command Output] ` |
| ReactorProperties.ReactionLogsOnSuccess | src/extension.ts:18-138 | after exit code 0 the info lines are the `Command:` line, then the cleaned standard-output lines behind `[Command Output] `; the debug log holds only the `Command output:` line, and nothing is logged at error level |
| ReactorProperties.FailureLogs | src/extension.ts:125-162 | after any other exit code the debug log holds the `Command output:` line and then the exit code, and the error log holds the error lines |
| ReactorProperties.ErrorEntriesLogged | src/extension.ts:160-162 | error lines are logged unchanged, in order, at error level only |
| ReactorProperties.ReactionLogsOnFailure | src/extension.ts:18-162 | after a failure the error lines are the standard-output lines followed by the standard-error lines, the debug log holds the `Command output:` line and the exit code (`undefined` when absent), and the info log holds only the `Command:` line |
| ReactorProperties.AutoEventEndsWithLastOutcome | src/extension.ts:85-181 | in `auto` mode, with the reactions run in order, the status after an event is the one the last reaction's outcome calls for |
| ReactorProperties.SingleTrackedEvent | src/extension.ts:71-86 | a watcher tracking one lockfile reacts to a change of it exactly once |
| ReactorProperties.YarnLockRun | src/extension.ts:87-113 | `dir/yarn.lock` runs `yarn install` in `dir` |
| ReactorProperties.SingleLockfileSuccess | src/extension.ts:66-140 | with one tracked lockfile in `auto` mode and exit code 0: one run of its command; the info log holds the `Command:` line and the cleaned output; the indicator is back to watching one file |
| ReactorProperties.YarnInstallAfterChange | src/extension.ts:66-140 | a changed `yarn.lock` runs `yarn install` in its directory; the info log holds the `Command:` line and, of a real line and a `Done in` line, only the real line; the indicator shows `Watching 1 package lock file` |
| Scanner.WithNodeModules | src/extension.ts:228-234 | the candidates whose derived `node_modules` path exists, in order; stated by `TrackedMembership` and `TrackedKeepsOrder` |
| Scanner.WithoutWorkspaces | src/extension.ts:236-242 | the lockfiles that are not workspace roots; stated by `ReportedMembership` |
| Scanner.FoundMessage | src/extension.ts:244-248 | the `Found N package lock file(s) with 'node_modules' installed` line; stated by `ScanLog` |
| Scanner.ScanEffects | src/extension.ts:218-252 | the initializing status, the count line, then one `File:` line per reported lockfile; stated by `ScanLog` and `ScanStartsNothing` |
| Scanner.Initialize | src/extension.ts:215-257 | the scan writes the initializing status, logs the count and each reported file, and builds a watcher that tracks the lockfiles with `node_modules` |
| Scanner.TrackedMembership | src/extension.ts:228-234 | a candidate is tracked exactly when its derived `node_modules` path exists |
| Scanner.TrackedKeepsOrder | src/extension.ts:228-234 | tracked lockfiles keep the candidates' order |
| Scanner.TrackedWhenSiblingExists | src/extension.ts:200-206 | a lockfile in a directory naming no lockfile is tracked exactly when `node_modules` exists beside it |
| Scanner.ReportedMembership | src/extension.ts:236-242 | a tracked lockfile is reported exactly when it is not a workspace root, so the reported list is never longer than the tracked list |
| Scanner.WorkspaceRootTrackedButNotReported | src/extension.ts:236-257 | a workspace root with `node_modules` is tracked, but it is neither counted nor listed in the log |
| Scanner.FileLineNotLogged | src/extension.ts:250-252 | no `File:` line names a lockfile outside the reported list |
| Scanner.ScanStartsNothing | src/extension.ts:218-252 | the scan starts no command, and the only status it writes is the initializing one |
| Scanner.ScanLog | src/extension.ts:244-252 | the scan's info log is the `Found N package lock file(s) with 'node_modules' installed` line, then one `File:` line per reported lockfile, in order |

## Left out

- The command runner's spawn (`src/extension.ts:17`, `19-23`) is left out: the bash wrapper and the nvm shim.
  Each run's exit code, standard output and standard error are an input. The runner's `Command:` info
  line is modelled (`Reactor.PackageWatcher.RunCommand`).
- Reactor.OutputDumpLine: the `Command output:` debug line (`src/extension.ts:125`) carries the runner's whole
  result object as `JSON.stringify(output, null, 2)` renders it. The model takes that rendering as an input
  (`Outcome.rendered`) and does not tie it to the exit code or the output texts.
- A runner failure that captured no output is not modelled. In that case `stdout` or `stderr` is
  undefined and the handler throws at the split. In the model, both are always strings.
- File discovery, the `node_modules` stat and the `package.json` read are host I/O (`src/extension.ts:26-36`,
  `185-213`, `223-226`). They are inputs: a candidate list, a path-exists predicate, and a workspace predicate on
  the lockfile.
- Activation, the `package.json` gate, the file-system watchers, the command registration and the
  configuration listener are host glue (`src/extension.ts:260-303`). A reload builds a new watcher by
  running `Scanner.Initialize` again; it is not a separate operation here.
- The 4000 ms settling delay (`src/extension.ts:104-108`) is timing only.
- Concurrency is not modelled. `Promise.all` runs the reactions of one event, and the scan's checks, concurrently
  (`src/extension.ts:85`, `229`, `237`); the model runs them one after the other, in list order.
- AutoEventEndsWithLastOutcome: holds for the sequential order only. With concurrent reactions, any
  reaction's final write may come last.
- Notifications and the `eslint.restart` call are host UI and command glue. This covers the success and
  failure messages and "Show logs" (`src/extension.ts:142-151`, `169-177`). The prompt's text
  (`src/extension.ts:98-103`) is also left out; the prompt's answer is one accept-or-dismiss input per reaction.
- The status indicator is reduced to its icon and tooltip. Creating, showing and disposing it, and its text
  label (`src/statusBar.ts`), are UI.
- `src/git.ts` is not part of this model: it only shells out to `git config`.
- The log channel module is not part of this model. Log lines are recorded in the watcher's trace with
  their level.
- URIs are one path string each. The match (`src/extension.ts:71-80`) compares `toString()`, the
  percent-encoded `file://` URL; the model takes two URLs to be equal exactly when their paths are equal.
  `fsPath` is taken to be the POSIX path. Windows paths and the win32 `path.dirname` are not modelled.
  `asRelativePath` is an input function.
- Lockfiles.Dirname: models the POSIX `path.dirname` only for paths that neither end in a separator nor start
  with `//`. For those, Node's result differs: it drops a trailing separator first, and `dirname("//a")` is `//`,
  where the model gives `/`.
- NodeModulesIsSibling: stated only for directories whose path contains no lockfile name. Otherwise the
  code removes the first occurrence from the directory part, and the model does the same; one such case is
  stated by `Lockfiles.NodeModulesPathInNamedDirectory`.
- Strings are sequences of Unicode characters rather than UTF-16 code units. Trimming uses the
  ECMAScript whitespace and line-terminator set.
- `JSON.stringify` also escapes lone surrogates. Characters here are Unicode scalar values, so none arise.
