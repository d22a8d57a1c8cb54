/**
 * The change set of GitHelper.cs: the directories holding a file that git reports as added,
 * missing, modified, removed, renamed, staged or untracked.
 */
module GitHelper {
  import opened Wrappers
  import opened Paths
  import opened Ordering

  /** A status entry; `filePath` is `None` where LibGit2Sharp gives `null`. */
  datatype StatusEntry = StatusEntry(filePath: Option<string>)

  /** A renamed entry: its new path and the old path from its rename details. */
  datatype RenamedEntry = RenamedEntry(filePath: Option<string>, oldFilePath: Option<string>)

  /** The eight categories of `RepositoryStatus` that are read, untracked files included. */
  datatype RepositoryStatus = RepositoryStatus(
    added: seq<StatusEntry>,
    missing: seq<StatusEntry>,
    modified: seq<StatusEntry>,
    removed: seq<StatusEntry>,
    renamedInIndex: seq<RenamedEntry>,
    renamedInWorkDir: seq<RenamedEntry>,
    staged: seq<StatusEntry>,
    untracked: seq<StatusEntry>)

  /** `.Select(x => x.FilePath)`. */
  function FilePaths(entries: seq<StatusEntry>): seq<Option<string>> {
    seq(|entries|, i requires 0 <= i < |entries| => entries[i].filePath)
  }

  /** `.SelectMany(x => new string[] { x.FilePath, <old file path> })`. */
  function RenamePaths(entries: seq<RenamedEntry>): (r: seq<Option<string>>)
    ensures |r| == 2 * |entries|
    ensures forall i :: 0 <= i < |entries| ==>
              r[2 * i] == entries[i].filePath && r[2 * i + 1] == entries[i].oldFilePath
  {
    if entries == [] then []
    else [entries[0].filePath, entries[0].oldFilePath] + RenamePaths(entries[1..])
  }

  /** The eight path sequences, in the order the source's loops visit them. */
  function Categories(status: RepositoryStatus): seq<seq<Option<string>>> {
    [ FilePaths(status.added), FilePaths(status.missing), FilePaths(status.modified),
      FilePaths(status.removed), RenamePaths(status.renamedInIndex),
      RenamePaths(status.renamedInWorkDir), FilePaths(status.staged),
      FilePaths(status.untracked) ]
  }

  /** `string.IsNullOrEmpty`. */
  predicate IsNullOrEmpty(p: Option<string>) {
    p.None? || p.value == []
  }

  /** The paths one loop adds to the set: the non-null, non-empty elements. */
  ghost function Kept(elements: seq<Option<string>>): set<string> {
    set e | e in elements && !IsNullOrEmpty(e) :: e.value
  }

  /** The set after the loops over `categories` have run, one after another, from the empty set. */
  ghost function CollectAll(categories: seq<seq<Option<string>>>): set<string> {
    if categories == [] then {}
    else CollectAll(categories[..|categories| - 1]) + Kept(categories[|categories| - 1])
  }

  /** `modifiedPaths` once all eight loops have run. */
  ghost function ChangedPaths(status: RepositoryStatus): set<string> {
    CollectAll(Categories(status))
  }

  /** The distinct values of `Path.Combine(gitRepoPath, Path.GetDirectoryName(x))`. */
  ghost function ChangedDirectories(gitRepoPath: string, status: RepositoryStatus): set<string> {
    set p | p in ChangedPaths(status) :: Combine(gitRepoPath, DirectoryName(p))
  }

  /** A path is collected exactly when it is non-empty and some category holds it. */
  lemma {:induction false} CollectAllMembers(categories: seq<seq<Option<string>>>, p: string)
    ensures p in CollectAll(categories) <==>
              p != [] && exists i :: 0 <= i < |categories| && Some(p) in categories[i]
  {
    if categories != [] {
      var n := |categories| - 1;
      CollectAllMembers(categories[..n], p);
      assert Some(p) in categories[n] && p != [] ==> p in Kept(categories[n]);
      if exists i :: 0 <= i < |categories| && Some(p) in categories[i] {
        var i :| 0 <= i < |categories| && Some(p) in categories[i];
        if i < n { assert categories[..n][i] == categories[i]; }
      }
    }
  }

  /**
   * The set depends neither on the category a path came from nor on the order in which the
   * categories are visited.
   */
  lemma CategoryOrderIrrelevant(categories: seq<seq<Option<string>>>, reordered: seq<seq<Option<string>>>)
    requires multiset(categories) == multiset(reordered)
    ensures CollectAll(categories) == CollectAll(reordered)
  {
    forall p ensures p in CollectAll(categories) <==> p in CollectAll(reordered) {
      CollectAllMembers(categories, p);
      CollectAllMembers(reordered, p);
      if exists i :: 0 <= i < |categories| && Some(p) in categories[i] {
        var i :| 0 <= i < |categories| && Some(p) in categories[i];
        assert categories[i] in multiset(reordered);
        var j :| 0 <= j < |reordered| && reordered[j] == categories[i];
      }
      if exists j :: 0 <= j < |reordered| && Some(p) in reordered[j] {
        var j :| 0 <= j < |reordered| && Some(p) in reordered[j];
        assert reordered[j] in multiset(categories);
        var i :| 0 <= i < |categories| && categories[i] == reordered[j];
      }
    }
  }

  /** Some entry of the status reports the path `p`; a renamed entry reports its new and its old path. */
  ghost predicate Reported(status: RepositoryStatus, p: string) {
    || (exists e :: e in status.added && e.filePath == Some(p))
    || (exists e :: e in status.missing && e.filePath == Some(p))
    || (exists e :: e in status.modified && e.filePath == Some(p))
    || (exists e :: e in status.removed && e.filePath == Some(p))
    || (exists e :: e in status.renamedInIndex && (e.filePath == Some(p) || e.oldFilePath == Some(p)))
    || (exists e :: e in status.renamedInWorkDir && (e.filePath == Some(p) || e.oldFilePath == Some(p)))
    || (exists e :: e in status.staged && e.filePath == Some(p))
    || (exists e :: e in status.untracked && e.filePath == Some(p))
  }

  /**
   * Every non-empty path that some entry reports is collected, both paths of a renamed entry
   * among them, and nothing else is: never the empty path.
   */
  lemma ChangedPathsSpec(status: RepositoryStatus, p: string)
    ensures [] !in ChangedPaths(status)
    ensures p in ChangedPaths(status) <==> p != [] && Reported(status, p)
  {
    var cats := Categories(status);
    CollectAllMembers(cats, p);
    CollectAllMembers(cats, []);
    StatusMembers(status.added, p);
    StatusMembers(status.missing, p);
    StatusMembers(status.modified, p);
    StatusMembers(status.removed, p);
    RenameMembers(status.renamedInIndex, p);
    RenameMembers(status.renamedInWorkDir, p);
    StatusMembers(status.staged, p);
    StatusMembers(status.untracked, p);
    if p in ChangedPaths(status) {
      var i :| 0 <= i < |cats| && Some(p) in cats[i];
      assert i in {0, 1, 2, 3, 4, 5, 6, 7};
    }
    if p != [] && Reported(status, p) {
      if Some(p) in cats[0] {
      } else if Some(p) in cats[1] {
      } else if Some(p) in cats[2] {
      } else if Some(p) in cats[3] {
      } else if Some(p) in cats[4] {
      } else if Some(p) in cats[5] {
      } else if Some(p) in cats[6] {
      } else {
        assert Some(p) in cats[7];
      }
    }
  }

  lemma StatusMembers(entries: seq<StatusEntry>, p: string)
    ensures Some(p) in FilePaths(entries) <==> exists e :: e in entries && e.filePath == Some(p)
  {
    var paths := FilePaths(entries);
    if Some(p) in paths {
      var i :| 0 <= i < |paths| && paths[i] == Some(p);
      assert entries[i] in entries;
    }
    if exists e :: e in entries && e.filePath == Some(p) {
      var e :| e in entries && e.filePath == Some(p);
      var i :| 0 <= i < |entries| && entries[i] == e;
      assert paths[i] == Some(p);
    }
  }

  lemma RenameMembers(entries: seq<RenamedEntry>, p: string)
    ensures Some(p) in RenamePaths(entries) <==>
              exists e :: e in entries && (e.filePath == Some(p) || e.oldFilePath == Some(p))
  {
    var paths := RenamePaths(entries);
    if Some(p) in paths {
      var k :| 0 <= k < |paths| && paths[k] == Some(p);
      var i := k / 2;
      assert k == 2 * i || k == 2 * i + 1;
      assert entries[i] in entries;
    }
    if exists e :: e in entries && (e.filePath == Some(p) || e.oldFilePath == Some(p)) {
      var e :| e in entries && (e.filePath == Some(p) || e.oldFilePath == Some(p));
      var i :| 0 <= i < |entries| && entries[i] == e;
      assert paths[2 * i] == e.filePath && paths[2 * i + 1] == e.oldFilePath;
    }
  }

  /** One `foreach` loop: adds every non-null, non-empty element to the set. */
  method AddAll(modifiedPaths: set<string>, elements: seq<Option<string>>) returns (r: set<string>)
    ensures r == modifiedPaths + Kept(elements)
  {
    r := modifiedPaths;
    for k := 0 to |elements|
      invariant r == modifiedPaths + Kept(elements[..k])
    {
      var element := elements[k];
      assert elements[..k + 1] == elements[..k] + [element];
      if IsNullOrEmpty(element) {
        continue;
      }
      r := r + {element.value};
    }
    assert elements[..|elements|] == elements;
  }

  /**
   * `GetModifiedDirectoriesFromGitRepo`: every directory, under the repository root, of a
   * changed file, once each; the order is the (unspecified) iteration order of the set.
   */
  method GetModifiedDirectoriesFromGitRepo(gitRepoPath: string, status: RepositoryStatus)
    returns (modifiedDirectories: seq<string>)
    ensures NoDuplicates(modifiedDirectories)
    ensures forall d :: d in modifiedDirectories <==> d in ChangedDirectories(gitRepoPath, status)
  {
    var categories := Categories(status);
    var modifiedPaths: set<string> := {};
    for c := 0 to 8
      invariant modifiedPaths == CollectAll(categories[..c])
    {
      assert categories[..c + 1][..c] == categories[..c];
      modifiedPaths := AddAll(modifiedPaths, categories[c]);
    }
    assert categories[..8] == categories;
    modifiedDirectories := [];
    var rest := modifiedPaths;
    while rest != {}
      invariant rest <= modifiedPaths
      invariant NoDuplicates(modifiedDirectories)
      invariant forall d :: d in modifiedDirectories <==>
                  exists p :: p in modifiedPaths - rest && d == Combine(gitRepoPath, DirectoryName(p))
    {
      var p :| p in rest;
      var d := Combine(gitRepoPath, DirectoryName(p));
      assert modifiedPaths - (rest - {p}) == (modifiedPaths - rest) + {p};
      if d !in modifiedDirectories {
        modifiedDirectories := modifiedDirectories + [d];
      }
      rest := rest - {p};
    }
  }
}
