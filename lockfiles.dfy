/**
 * What the extension knows about a lockfile from its path alone: which
 * install command it calls for, where its sibling `node_modules` directory is
 * looked for, and the directory the install runs in.
 */
module Lockfiles {
  import opened Wrappers
  import opened Text

  /** The watched lockfile names, in the order the `node_modules` path is derived with. */
  const LockFileNames: seq<string> := ["pnpm-lock.yaml", "yarn.lock", "package-lock.json"]

  /** Reference table: the install command each lockfile name stands for. */
  const InstallCommandFor: map<string, string> :=
    map["pnpm-lock.yaml" := "pnpm install", "yarn.lock" := "yarn install", "package-lock.json" := "npm install"]

  /**
   * The terminal command for a changed lockfile: a `yarn.lock` suffix is checked
   * first, then `pnpm-lock.yaml`; every other path gets `npm install`.
   */
  function Classify(path: string): (command: string)
    ensures command == "yarn install" || command == "pnpm install" || command == "npm install"
  {
    if EndsWith(path, "yarn.lock") then "yarn install"
    else if EndsWith(path, "pnpm-lock.yaml") then "pnpm install"
    else "npm install"
  }

  /** Every watched lockfile, wherever it lies, is classified by its own name. */
  lemma ClassifyByName(dir: string, name: string)
    requires name in LockFileNames
    ensures Classify(dir + name) == InstallCommandFor[name]
  {
    if name == "pnpm-lock.yaml" {
      ClassifyPnpmLock(dir);
    } else if name == "package-lock.json" {
      ClassifyPackageLock(dir);
    } else {
      EndsWithConcat(dir, name, name);
    }
  }

  lemma ClassifyPnpmLock(dir: string)
    ensures Classify(dir + "pnpm-lock.yaml") == "pnpm install"
  {
    var name := "pnpm-lock.yaml";
    EndsWithConcat(dir, name, "yarn.lock");
    assert name[|name| - 9..][0] != 'y';
    EndsWithConcat(dir, name, name);
  }

  lemma ClassifyPackageLock(dir: string)
    ensures Classify(dir + "package-lock.json") == "npm install"
  {
    var name := "package-lock.json";
    EndsWithConcat(dir, name, "yarn.lock");
    assert name[|name| - 9..][0] != 'y';
    EndsWithConcat(dir, name, "pnpm-lock.yaml");
    assert name[|name| - 14..][0] != 'p';
  }

  /** The fold of `lockFiles.reduce((acc, name) => acc.replace(name, ""), path)`. */
  function RemoveNames(path: string, names: seq<string>): string
    decreases |names|
  {
    if names == [] then path else RemoveNames(RemoveFirst(path, names[0]), names[1..])
  }

  /** The path stat-ed to decide whether a lockfile has an adjacent `node_modules`. */
  function NodeModulesPath(lockfilePath: string): string
  {
    RemoveNames(lockfilePath, LockFileNames) + "node_modules"
  }

  /** The fold spelled out: the three removals happen in the order of `LockFileNames`. */
  lemma NodeModulesPathSteps(path: string)
    ensures NodeModulesPath(path) ==
      RemoveFirst(RemoveFirst(RemoveFirst(path, "pnpm-lock.yaml"), "yarn.lock"), "package-lock.json") + "node_modules"
  {
    var names := LockFileNames;
    assert names[1..][1..][1..] == [];
  }

  /** `path.dirname` on POSIX, for a path that neither ends in a separator nor starts with `//`. */
  function Dirname(path: string): string
  {
    match LastIndexOf(path, '/')
    case None => "."
    case Some(i) => if i == 0 then "/" else path[..i]
  }

  /** A directory prefix: it ends in a separator and contains no watched name. */
  ghost predicate IsCleanDirectory(dir: string)
  {
    |dir| > 0 && dir[|dir| - 1] == '/' &&
    forall q, j: nat :: q in LockFileNames ==> !OccursAt(dir, q, j)
  }

  lemma SliceIndex(s: string, j: int, n: int, k: int)
    ensures 0 <= j <= j + n <= |s| && 0 <= k < n ==> s[j..j + n][k] == s[j + k]
  {
  }

  /** An occurrence of a separator-free pattern in `dir + name` lies wholly in one of the parts. */
  lemma OccurrenceInParts(dir: string, name: string, q: string, j: nat)
    requires |dir| > 0 && dir[|dir| - 1] == '/' && '/' !in q
    requires OccursAt(dir + name, q, j)
    ensures (j + |q| <= |dir| && OccursAt(dir, q, j)) || (|dir| <= j && OccursAt(name, q, j - |dir|))
  {
    var s := dir + name;
    if j + |q| <= |dir| {
      assert s[j..j + |q|] == dir[j..j + |q|];
    } else if |dir| <= j {
      assert s[j..j + |q|] == name[j - |dir|..j - |dir| + |q|];
    } else {
      SliceIndex(s, j, |q|, |dir| - 1 - j);
      assert false;
    }
  }

  /** A separator-free pattern absent from both parts is absent from `dir + name`. */
  lemma AbsentFromParts(dir: string, name: string, q: string)
    requires |dir| > 0 && dir[|dir| - 1] == '/' && '/' !in q
    requires forall j: nat :: !OccursAt(dir, q, j)
    requires forall j: nat :: !OccursAt(name, q, j)
    ensures forall j: nat :: !OccursAt(dir + name, q, j)
  {
    forall j: nat
      ensures !OccursAt(dir + name, q, j)
    {
      if OccursAt(dir + name, q, j) {
        OccurrenceInParts(dir, name, q, j);
      }
    }
  }

  /** Removing `name` from `dir + name` strips exactly the file name. */
  lemma RemoveOwnName(dir: string, name: string)
    requires IsCleanDirectory(dir)
    requires name in LockFileNames && '/' !in name
    ensures RemoveFirst(dir + name, name) == dir
  {
    var s := dir + name;
    assert s[|dir|..|dir| + |name|] == name;
    forall j: nat | j < |dir|
      ensures !OccursAt(s, name, j)
    {
      if OccursAt(s, name, j) {
        OccurrenceInParts(dir, name, name, j);
      }
    }
    RemoveFirstAt(s, name, |dir|);
    assert s[..|dir|] == dir;
  }

  /**
   * For a lockfile in a directory whose path holds no watched name, the stat-ed
   * path is the lockfile's own directory joined with `node_modules`.
   */
  lemma NodeModulesIsSibling(dir: string, name: string)
    requires IsCleanDirectory(dir)
    requires name in LockFileNames
    ensures NodeModulesPath(dir + name) == dir + "node_modules"
  {
    NodeModulesPathSteps(dir + name);
    if name == "pnpm-lock.yaml" {
      SiblingOfPnpmLock(dir);
    } else if name == "yarn.lock" {
      SiblingOfYarnLock(dir);
    } else {
      SiblingOfPackageLock(dir);
    }
  }

  lemma NoSeparatorInNames(q: string)
    requires q in LockFileNames
    ensures '/' !in q
  {
    assert forall i :: 0 <= i < |q| ==> q[i] != '/';
  }

  /** A clean directory holds none of the watched names. */
  lemma CleanDirectoryKeeps(dir: string, q: string)
    requires IsCleanDirectory(dir) && q in LockFileNames
    ensures RemoveFirst(dir, q) == dir
  {
    assert forall j: nat :: !OccursAt(dir, q, j);
    RemoveFirstAbsent(dir, q);
  }

  /** A watched name absent from the file name is absent from the whole path. */
  lemma OtherNameKept(dir: string, name: string, q: string)
    requires IsCleanDirectory(dir) && q in LockFileNames
    requires forall j: nat :: !OccursAt(name, q, j)
    ensures RemoveFirst(dir + name, q) == dir + name
  {
    NoSeparatorInNames(q);
    assert forall j: nat :: !OccursAt(dir, q, j);
    AbsentFromParts(dir, name, q);
    RemoveFirstAbsent(dir + name, q);
  }

  lemma SiblingOfPnpmLock(dir: string)
    requires IsCleanDirectory(dir)
    ensures RemoveFirst(RemoveFirst(RemoveFirst(dir + "pnpm-lock.yaml", "pnpm-lock.yaml"), "yarn.lock"), "package-lock.json") == dir
  {
    NoSeparatorInNames("pnpm-lock.yaml");
    RemoveOwnName(dir, "pnpm-lock.yaml");
    CleanDirectoryKeeps(dir, "yarn.lock");
    CleanDirectoryKeeps(dir, "package-lock.json");
  }

  lemma SiblingOfYarnLock(dir: string)
    requires IsCleanDirectory(dir)
    ensures RemoveFirst(RemoveFirst(RemoveFirst(dir + "yarn.lock", "pnpm-lock.yaml"), "yarn.lock"), "package-lock.json") == dir
  {
    var yarn := "yarn.lock";
    assert 'p' !in yarn;
    AbsentCharacter(yarn, "pnpm-lock.yaml", 'p');
    OtherNameKept(dir, yarn, "pnpm-lock.yaml");
    NoSeparatorInNames(yarn);
    RemoveOwnName(dir, yarn);
    CleanDirectoryKeeps(dir, "package-lock.json");
  }

  lemma SiblingOfPackageLock(dir: string)
    requires IsCleanDirectory(dir)
    ensures RemoveFirst(RemoveFirst(RemoveFirst(dir + "package-lock.json", "pnpm-lock.yaml"), "yarn.lock"), "package-lock.json") == dir
  {
    var npm := "package-lock.json";
    assert 'y' !in npm;
    assert "pnpm-lock.yaml"[10] == 'y' && "yarn.lock"[0] == 'y';
    AbsentCharacter(npm, "pnpm-lock.yaml", 'y');
    AbsentCharacter(npm, "yarn.lock", 'y');
    OtherNameKept(dir, npm, "pnpm-lock.yaml");
    OtherNameKept(dir, npm, "yarn.lock");
    NoSeparatorInNames(npm);
    RemoveOwnName(dir, npm);
  }

  /**
   * A lockfile in a directory whose own name holds a lockfile name, such as
   * `yarn.lock.d/yarn.lock`: the removal takes the first occurrence, in the
   * directory part, so the path looked up is not the lockfile's sibling.
   */
  lemma NodeModulesPathInNamedDirectory(parent: string)
    requires IsCleanDirectory(parent)
    ensures NodeModulesPath(parent + "yarn.lock.d/yarn.lock") == parent + ".d/yarn.lock" + "node_modules"
    ensures NodeModulesPath(parent + "yarn.lock.d/yarn.lock") != parent + "yarn.lock.d/" + "node_modules"
  {
    NodeModulesPathSteps(parent + "yarn.lock.d/yarn.lock");
    NamedDirectoryRemovals(parent);
    NamedDirectoryNotSibling(parent);
  }

  lemma NamedDirectoryRemovals(parent: string)
    requires IsCleanDirectory(parent)
    ensures RemoveFirst(RemoveFirst(RemoveFirst(parent + "yarn.lock.d/yarn.lock", "pnpm-lock.yaml"), "yarn.lock"),
                        "package-lock.json") == parent + ".d/yarn.lock"
  {
    var rest, tail := "yarn.lock.d/yarn.lock", ".d/yarn.lock";
    assert 'p' !in rest && 'p' !in tail;
    WithoutLetter(parent, rest, "pnpm-lock.yaml");
    FirstYarnLockInDirectory(parent);
    WithoutLetter(parent, tail, "package-lock.json");
  }

  lemma NamedDirectoryNotSibling(parent: string)
    ensures parent + ".d/yarn.lock" + "node_modules" != parent + "yarn.lock.d/" + "node_modules"
  {
    assert (parent + ".d/yarn.lock" + "node_modules")[|parent|] == '.';
    assert (parent + "yarn.lock.d/" + "node_modules")[|parent|] == 'y';
  }

  /** A watched name starting with `p` is not removed from a clean directory followed by a `p`-free text. */
  lemma WithoutLetter(parent: string, rest: string, q: string)
    requires IsCleanDirectory(parent)
    requires q == "pnpm-lock.yaml" || q == "package-lock.json"
    requires 'p' !in rest
    ensures RemoveFirst(parent + rest, q) == parent + rest
  {
    assert q in LockFileNames;
    assert q[0] == 'p';
    assert '/' !in q by {
      assert forall i :: 0 <= i < |q| ==> q[i] != '/';
    }
    AbsentCharacter(rest, q, 'p');
    AbsentFromParts(parent, rest, q);
    RemoveFirstAbsent(parent + rest, q);
  }

  /** In `yarn.lock.d/yarn.lock` under a clean directory, the first `yarn.lock` is the directory's. */
  lemma FirstYarnLockInDirectory(parent: string)
    requires IsCleanDirectory(parent)
    ensures RemoveFirst(parent + "yarn.lock.d/yarn.lock", "yarn.lock") == parent + ".d/yarn.lock"
  {
    var yarn, rest := "yarn.lock", "yarn.lock.d/yarn.lock";
    var path := parent + rest;
    NoSeparatorInNames(yarn);
    SlicesAround(parent, rest, |yarn|);
    assert rest[..|yarn|] == yarn;
    forall j: nat | j < |parent|
      ensures !OccursAt(path, yarn, j)
    {
      assert !OccursAt(parent, yarn, j);
      if OccursAt(path, yarn, j) {
        OccurrenceInParts(parent, rest, yarn, j);
      }
    }
    RemoveFirstAt(path, yarn, |parent|);
    assert rest[|yarn|..] == ".d/yarn.lock";
  }

  /** The slices of `prefix + rest` around the first `n` characters of `rest`. */
  lemma SlicesAround(prefix: string, rest: string, n: nat)
    requires n <= |rest|
    ensures (prefix + rest)[..|prefix|] == prefix
    ensures (prefix + rest)[|prefix|..|prefix| + n] == rest[..n]
    ensures (prefix + rest)[|prefix| + n..] == rest[n..]
  {
  }

  /** The directory of a lockfile under a directory prefix is that prefix without its separator. */
  lemma DirnameOfLockfile(dir: string, name: string)
    requires |dir| > 1 && dir[|dir| - 1] == '/'
    requires '/' !in name
    ensures Dirname(dir + name) == dir[..|dir| - 1]
    ensures Dirname(dir + name) + "/" == dir
  {
    var s := dir + name;
    forall k | |dir| - 1 < k < |s|
      ensures s[k] != '/'
    {
      assert s[k] == name[k - |dir|];
    }
    LastIndexOfAt(s, '/', |dir| - 1);
    assert s[..|dir| - 1] == dir[..|dir| - 1];
  }
}
