/**
 * `initializePackageWatcher`: the scan that decides which lockfiles a new
 * watcher tracks. The workspace's lockfiles, whether a path exists and
 * whether a lockfile's `package.json` declares workspaces are answers of the
 * host, given as parameters.
 */
module Scanner {
  import opened Seqs
  import opened Lockfiles
  import opened StatusText
  import opened Reactor
  import opened ReactorProperties

  /** The candidates whose derived `node_modules` path exists, in candidate order. */
  function WithNodeModules(candidates: seq<string>, pathExists: string -> bool): seq<string>
  {
    Filter(lockfile => pathExists(NodeModulesPath(lockfile)), candidates)
  }

  /** The lockfiles whose `package.json` does not declare workspaces. */
  function WithoutWorkspaces(lockfiles: seq<string>, isWorkspace: string -> bool): seq<string>
  {
    Filter(lockfile => !isWorkspace(lockfile), lockfiles)
  }

  function FoundMessage(count: nat): string
  {
    "Found " + LockFileCount(count) + " with 'node_modules' installed"
  }

  function FileLine(path: string): string
  {
    "File: " + path
  }

  function FileEntry(path: string): Effect
  {
    Log(Info, FileLine(path))
  }

  /** What the scan does before the watcher is built: the initializing status, the count, then one line per reported file. */
  function ScanEffects(candidates: seq<string>, pathExists: string -> bool, isWorkspace: string -> bool): seq<Effect>
  {
    var reported := WithoutWorkspaces(WithNodeModules(candidates, pathExists), isWorkspace);
    [SetStatus(Initializing), Log(Info, FoundMessage(|reported|))] + Map(FileEntry, reported)
  }

  /**
   * Scans the candidates and builds the watcher. The watcher is given the
   * lockfiles with `node_modules`; the workspace filter only decides what is logged.
   */
  method Initialize(candidates: seq<string>, pathExists: string -> bool, isWorkspace: string -> bool,
                    before: seq<Effect>) returns (watcher: PackageWatcher)
    ensures fresh(watcher)
    ensures watcher.lockfiles == WithNodeModules(candidates, pathExists)
    ensures watcher.status == Watching(|watcher.lockfiles|)
    ensures watcher.trace == before + ScanEffects(candidates, pathExists, isWorkspace) + [SetStatus(watcher.status)]
  {
    var trace := before + [SetStatus(Initializing)];
    var lockfilesWithNodeModules := WithNodeModules(candidates, pathExists);
    var lockfilesWithoutWorkspaces := WithoutWorkspaces(lockfilesWithNodeModules, isWorkspace);
    trace := trace + [Log(Info, FoundMessage(|lockfilesWithoutWorkspaces|))];
    ghost var logged := trace;
    var i := 0;
    while i < |lockfilesWithoutWorkspaces|
      invariant 0 <= i <= |lockfilesWithoutWorkspaces|
      invariant trace == logged + Map(FileEntry, lockfilesWithoutWorkspaces[..i])
    {
      MapPrefix(FileEntry, lockfilesWithoutWorkspaces, i);
      AppendAssociative(logged, Map(FileEntry, lockfilesWithoutWorkspaces[..i]), [FileEntry(lockfilesWithoutWorkspaces[i])]);
      trace := trace + [FileEntry(lockfilesWithoutWorkspaces[i])];
      i := i + 1;
    }
    assert lockfilesWithoutWorkspaces[..i] == lockfilesWithoutWorkspaces;
    var found := Log(Info, FoundMessage(|lockfilesWithoutWorkspaces|));
    AppendAssociative(before, [SetStatus(Initializing)], [found]);
    PairConcat(SetStatus(Initializing), found);
    AppendAssociative(before, [SetStatus(Initializing), found], Map(FileEntry, lockfilesWithoutWorkspaces));
    watcher := new PackageWatcher(lockfilesWithNodeModules, trace);
  }

  /** A candidate is tracked exactly when the path derived from it exists. */
  lemma TrackedMembership(candidates: seq<string>, pathExists: string -> bool, lockfile: string)
    ensures lockfile in WithNodeModules(candidates, pathExists) <==>
      lockfile in candidates && pathExists(NodeModulesPath(lockfile))
  {
    FilterMembership(lockfile => pathExists(NodeModulesPath(lockfile)), candidates);
  }

  /** Tracking keeps the candidates' order: the candidates of two batches are tracked batch by batch. */
  lemma TrackedKeepsOrder(a: seq<string>, b: seq<string>, pathExists: string -> bool)
    ensures WithNodeModules(a + b, pathExists) == WithNodeModules(a, pathExists) + WithNodeModules(b, pathExists)
  {
    FilterConcat(lockfile => pathExists(NodeModulesPath(lockfile)), a, b);
  }

  /** For a lockfile in a directory that names no lockfile, tracking looks for the `node_modules` beside it. */
  lemma TrackedWhenSiblingExists(candidates: seq<string>, pathExists: string -> bool, dir: string, name: string)
    requires IsCleanDirectory(dir) && name in LockFileNames
    ensures dir + name in WithNodeModules(candidates, pathExists) <==>
      dir + name in candidates && pathExists(dir + "node_modules")
  {
    TrackedMembership(candidates, pathExists, dir + name);
    NodeModulesIsSibling(dir, name);
  }

  /**
   * A tracked lockfile is reported exactly when it is not a workspace root,
   * so the reported list is never longer than the tracked one.
   */
  lemma ReportedMembership(tracked: seq<string>, isWorkspace: string -> bool, lockfile: string)
    ensures lockfile in WithoutWorkspaces(tracked, isWorkspace) <==> lockfile in tracked && !isWorkspace(lockfile)
    ensures |WithoutWorkspaces(tracked, isWorkspace)| <= |tracked|
  {
    FilterMembership(lockfile => !isWorkspace(lockfile), tracked);
  }

  /** Different paths give different file lines. */
  lemma FileLineInjective(a: string, b: string)
    ensures FileLine(a) == FileLine(b) ==> a == b
  {
    assert FileLine(a)[6..] == a && FileLine(b)[6..] == b;
  }

  /**
   * A workspace root with `node_modules` is tracked and reacted to, yet left
   * out of the count and of the file lines of the log.
   */
  lemma WorkspaceRootTrackedButNotReported(candidates: seq<string>, pathExists: string -> bool,
                                           isWorkspace: string -> bool, lockfile: string)
    requires lockfile in candidates && pathExists(NodeModulesPath(lockfile)) && isWorkspace(lockfile)
    ensures lockfile in WithNodeModules(candidates, pathExists)
    ensures lockfile !in WithoutWorkspaces(WithNodeModules(candidates, pathExists), isWorkspace)
    ensures FileLine(lockfile) !in LoggedLines(ScanEffects(candidates, pathExists, isWorkspace), Info)
  {
    var tracked := WithNodeModules(candidates, pathExists);
    var reported := WithoutWorkspaces(tracked, isWorkspace);
    TrackedMembership(candidates, pathExists, lockfile);
    ReportedMembership(tracked, isWorkspace, lockfile);
    ScanLog(candidates, pathExists, isWorkspace);
    FileLineNotLogged(reported, |reported|, lockfile);
  }

  /** The scan's info lines name no file outside the reported list. */
  lemma FileLineNotLogged(reported: seq<string>, count: nat, lockfile: string)
    requires lockfile !in reported
    ensures FileLine(lockfile) !in [FoundMessage(count)] + Map(FileLine, reported)
  {
    var logged := [FoundMessage(count)] + Map(FileLine, reported);
    forall k | 0 <= k < |logged|
      ensures logged[k] != FileLine(lockfile)
    {
      if k == 0 {
        assert logged[k][1] == 'o' && FileLine(lockfile)[1] == 'i';
      } else {
        assert reported[k - 1] in reported;
        assert logged[k] == FileLine(reported[k - 1]);
        FileLineInjective(reported[k - 1], lockfile);
      }
    }
  }

  /** The scan starts no command, and the only status it writes is the initializing one. */
  lemma ScanStartsNothing(candidates: seq<string>, pathExists: string -> bool, isWorkspace: string -> bool)
    ensures Runs(ScanEffects(candidates, pathExists, isWorkspace)) == []
    ensures StatusWrites(ScanEffects(candidates, pathExists, isWorkspace)) == [SetStatus(Initializing)]
  {
    var reported := WithoutWorkspaces(WithNodeModules(candidates, pathExists), isWorkspace);
    var found := Log(Info, FoundMessage(|reported|));
    var logs := [found] + Map(FileEntry, reported);
    MappedLogs(reported, FileEntry);
    OnlyLogsConcat([found], Map(FileEntry, reported));
    PairConcat(SetStatus(Initializing), found);
    AppendAssociative([SetStatus(Initializing)], [found], Map(FileEntry, reported));
    StatusThenLogs(SetStatus(Initializing), logs);
  }

  /** A status write followed by log lines only: no run, and that one write. */
  lemma StatusThenLogs(write: Effect, logs: seq<Effect>)
    requires write.SetStatus? && OnlyLogs(logs)
    ensures Runs([write] + logs) == []
    ensures StatusWrites([write] + logs) == [write]
  {
    FilterConcat(IsRun, [write], logs);
    FilterSingle(IsRun, write);
    FilterNone(IsRun, logs);
    FilterConcat(IsStatusWrite, [write], logs);
    FilterSingle(IsStatusWrite, write);
    FilterNone(IsStatusWrite, logs);
    DropEmpty<Effect>([]);
    DropEmpty([write]);
  }

  /** The scan logs the reported count, then the path of each reported lockfile in order. */
  lemma ScanLog(candidates: seq<string>, pathExists: string -> bool, isWorkspace: string -> bool)
    ensures var reported := WithoutWorkspaces(WithNodeModules(candidates, pathExists), isWorkspace);
      LoggedLines(ScanEffects(candidates, pathExists, isWorkspace), Info) ==
        [FoundMessage(|reported|)] + Map(FileLine, reported)
  {
    var reported := WithoutWorkspaces(WithNodeModules(candidates, pathExists), isWorkspace);
    var head := [SetStatus(Initializing), Log(Info, FoundMessage(|reported|))];
    LoggedLinesConcat(head, Map(FileEntry, reported), Info);
    assert head[..1] == [head[0]] && head[..1][..0] == [];
    assert LoggedLines(head[..1], Info) == [];
    assert LoggedLines(head, Info) == [FoundMessage(|reported|)];
    LoggedEntries(reported, FileEntry, FileLine, Info, Info);
  }
}
