/**
 * The status indicator's states and the tooltip texts the extension writes
 * into it.
 */
module StatusText {
  import opened Text

  /** The three icons the indicator shows. */
  datatype Icon = Loading | CheckAll | Error

  /** The whole visible state of the indicator; every update overwrites both parts. */
  datatype Status = Status(icon: Icon, tooltip: string)

  /** `N package lock file(s)`, singular for exactly one file. */
  function LockFileCount(count: nat): string
  {
    NatToString(count) + (" package lock " + (if count == 1 then "file" else "files"))
  }

  /** `Watching N package lock file(s)`. */
  function WatchingTooltip(count: nat): string
  {
    "Watching " + LockFileCount(count)
  }

  /** The idle state shown after a scan and after every successful install. */
  function Watching(count: nat): Status
  {
    Status(CheckAll, WatchingTooltip(count))
  }

  /** The state shown while the watcher is scanning for lockfiles. */
  const Initializing: Status := Status(Loading, "Initializing")

  function RunningTooltip(command: string, relativeDirectory: string): string
  {
    "Running " + command + " in " + relativeDirectory
  }

  /** `Error: ${lines}`: an array in a template literal is its elements joined by commas. */
  function ErrorTooltip(lines: seq<string>): string
  {
    "Error: " + Join(lines, ',')
  }

  /** Different counts give different phrases: the count is the phrase's leading run of digits. */
  lemma LockFileCountInjective(a: nat, b: nat)
    requires LockFileCount(a) == LockFileCount(b)
    ensures a == b
  {
    var restA := " package lock " + (if a == 1 then "file" else "files");
    var restB := " package lock " + (if b == 1 then "file" else "files");
    assert restA[0] == ' ' && restB[0] == ' ';
    DigitRunsAgree(NatToString(a), restA, NatToString(b), restB);
    NatToStringInjective(a, b);
  }

  /** The count can be read back from the tooltip: different counts give different tooltips. */
  lemma WatchingTooltipInjective(a: nat, b: nat)
    requires WatchingTooltip(a) == WatchingTooltip(b)
    ensures a == b
  {
    DropPrefix("Watching ", LockFileCount(a));
    DropPrefix("Watching ", LockFileCount(b));
    LockFileCountInjective(a, b);
  }

  /** The tooltip ends in the plural `files` exactly when the count is not one. */
  lemma WatchingTooltipPlural(count: nat)
    ensures EndsWith(WatchingTooltip(count), "files") <==> count != 1
  {
    var t := WatchingTooltip(count);
    if count == 1 {
      assert t[|t| - 1] == 'e';
      assert "files"[4] == 's';
    }
  }

  /** The tooltip names the count in decimal right after `Watching `. */
  lemma WatchingTooltipCount(count: nat)
    ensures var t := WatchingTooltip(count); var digits := NatToString(count);
      StartsWith(t, "Watching ") && AllDigits(t[9..9 + |digits|]) && DecimalValue(t[9..9 + |digits|]) == count
  {
    var t := WatchingTooltip(count);
    assert t[9..9 + |NatToString(count)|] == NatToString(count);
    DecimalRoundTrip(count);
  }

  /** The error tooltip lists the lines it was given: splitting its text on commas gives them back. */
  lemma ErrorTooltipLines(lines: seq<string>)
    requires |lines| >= 1
    requires forall i :: 0 <= i < |lines| ==> ',' !in lines[i]
    ensures StartsWith(ErrorTooltip(lines), "Error: ")
    ensures Split(ErrorTooltip(lines)[7..], ',') == lines
  {
    assert ErrorTooltip(lines)[7..] == Join(lines, ',');
    SplitJoin(lines, ',');
  }

  /** A line holding a comma reads, in the tooltip, as two lines: the tooltip cannot tell them apart. */
  lemma ErrorTooltipMergesCommas(x: string, y: string)
    ensures ErrorTooltip([x + "," + y]) == ErrorTooltip([x, y])
  {
    assert [x, y][1..] == [y];
    assert Join([x, y], ',') == x + [','] + y;
    assert Join([x + "," + y], ',') == x + "," + y;
    assert "," == [','];
  }
}
