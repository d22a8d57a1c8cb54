/**
 * Finding the driver packages under a target (Program.cs): every directory that directly holds
 * an `.inf` file is a package root; and the list of binaries a target holds.
 */
module Discovery {
  import opened Wrappers
  import opened Paths
  import opened Ordering
  import opened FileSystem

  /** The package root of each `.inf` path, in enumeration order. */
  function Parents(infFiles: seq<string>): seq<string> {
    seq(|infFiles|, i requires 0 <= i < |infFiles| => ParentPath(infFiles[i]))
  }

  /**
   * The package roots of a list of `.inf` paths: each distinct parent directory once, in
   * ascending ordinal order, nested roots kept.
   */
  function PackageRoots(infFiles: seq<string>): (roots: seq<string>)
    ensures StrictlySorted(roots)
    ensures forall d :: d in roots <==> exists f :: f in infFiles && d == ParentPath(f)
  {
    var parents := Parents(infFiles);
    assert forall d :: d in parents <==> exists f :: f in infFiles && d == ParentPath(f) by {
      forall d ensures d in parents <==> exists f :: f in infFiles && d == ParentPath(f) {
        if exists f :: f in infFiles && d == ParentPath(f) {
          var f :| f in infFiles && d == ParentPath(f);
          var i :| 0 <= i < |infFiles| && infFiles[i] == f;
          assert parents[i] == d;
        }
      }
    }
    SortedDistinct(parents)
  }

  /**
   * The package roots depend only on which `.inf` files exist, not on the order in which they
   * are enumerated nor on how many share a directory.
   */
  lemma PackageRootsOrderIndependent(a: seq<string>, b: seq<string>)
    requires forall f :: f in a <==> f in b
    ensures PackageRoots(a) == PackageRoots(b)
  {
    StrictlySortedUnique(PackageRoots(a), PackageRoots(b));
  }

  /** A package root is never one of the `.inf` files it was derived from. */
  lemma PackageRootIsNotAFile(infFiles: seq<string>, d: string)
    requires d in PackageRoots(infFiles)
    ensures exists f :: f in infFiles && d == ParentPath(f) && (f != [] ==> |d| < |f|)
  {
    var f :| f in infFiles && d == ParentPath(f);
    ParentPathSpec(f);
  }

  /**
   * `GetDirectoriesWithInfs`: the package roots of every `*.inf` file under `directory`, each
   * once, sorted; the enumeration's exception propagates.
   */
  method GetDirectoriesWithInfs(directory: string, enumerate: Enumerator) returns (r: Result<seq<string>, string>)
    ensures var infs := enumerate(directory, "*.inf", AllDirectories);
      && (r.Failure? <==> infs.fault.Some?)
      && (r.Failure? ==> infs.fault == Some(r.error))
      && (r.Success? ==> r.value == PackageRoots(infs.items))
  {
    var infFiles := enumerate(directory, "*.inf", AllDirectories);
    var dirsWithInfs: seq<string> := [];
    for k := 0 to |infFiles.items|
      invariant dirsWithInfs == Parents(infFiles.items[..k])
    {
      dirsWithInfs := dirsWithInfs + [ParentPath(infFiles.items[k])];
    }
    if infFiles.fault.Some? {
      return Failure(infFiles.fault.value);
    }
    assert infFiles.items[..|infFiles.items|] == infFiles.items;
    var dirsWithInfs2 := SortedDistinct(dirsWithInfs);
    var lst: seq<string> := [];
    for k := 0 to |dirsWithInfs2|
      invariant lst == dirsWithInfs2[..k]
    {
      lst := lst + [dirsWithInfs2[k]];
    }
    return Success(lst);
  }

  /**
   * The loop of `GetDirectoriesWithInfs_`: walk the roots in order and keep one unless a root
   * kept before it is, ignoring case, a prefix of it.
   */
  function KeepOutermost(roots: seq<string>): seq<string> {
    if roots == [] then []
    else
      var kept := KeepOutermost(roots[..|roots| - 1]);
      var dir := roots[|roots| - 1];
      if exists x :: x in kept && StartsWithIgnoringCase(dir, x) then kept else kept + [dir]
  }

  /** `KeepOutermost` keeps only input directories, in input order. */
  lemma {:induction false} KeepOutermostKeepsRoots(roots: seq<string>)
    ensures forall x :: x in KeepOutermost(roots) ==> x in roots
    ensures StrictlySorted(roots) ==> StrictlySorted(KeepOutermost(roots))
  {
    if roots != [] {
      var n := |roots| - 1;
      var init := roots[..n];
      KeepOutermostKeepsRoots(init);
      var kept := KeepOutermost(init);
      var dir := roots[n];
      assert forall x :: x in init ==> x in roots;
      if StrictlySorted(roots) && KeepOutermost(roots) != kept {
        var all := kept + [dir];
        forall i | 0 <= i < |kept| ensures Below(kept[i], dir) && kept[i] != dir {
          assert kept[i] in kept;
          var j :| 0 <= j < n && init[j] == kept[i];
          assert roots[j] == kept[i];
        }
        assert forall i :: 0 <= i < |kept| ==> all[i] == kept[i];
      }
    }
  }

  /** No directory of `dirs` has a directory before it as a case-insensitive prefix. */
  predicate NoEarlierPrefix(dirs: seq<string>) {
    forall i, j :: 0 <= i < j < |dirs| ==> !StartsWithIgnoringCase(dirs[j], dirs[i])
  }

  /** No directory `KeepOutermost` keeps has a directory kept before it as a case-insensitive prefix. */
  lemma {:induction false} KeepOutermostNoEarlierPrefix(roots: seq<string>)
    ensures NoEarlierPrefix(KeepOutermost(roots))
  {
    if roots != [] {
      var init := roots[..|roots| - 1];
      KeepOutermostNoEarlierPrefix(init);
      var kept := KeepOutermost(init);
      var dir := roots[|roots| - 1];
      var result := KeepOutermost(roots);
      assert result == kept || result == kept + [dir];
      assert |result| > |kept| ==> forall x :: x in kept ==> !StartsWithIgnoringCase(dir, x);
      forall i, j | 0 <= i < j < |result| ensures !StartsWithIgnoringCase(result[j], result[i]) {
        assert result[i] == kept[i];
        if j < |kept| {
          assert result[j] == kept[j];
        } else {
          assert result[j] == dir && kept[i] in kept;
        }
      }
    }
  }

  /**
   * Every directory of `roots` is in `kept`, or an earlier directory of `roots` that is in `kept`
   * is a case-insensitive prefix of it.
   */
  predicate CoveredBy(roots: seq<string>, kept: seq<string>) {
    forall k :: 0 <= k < |roots| ==>
      roots[k] in kept || exists j :: 0 <= j < k && roots[j] in kept && StartsWithIgnoringCase(roots[k], roots[j])
  }

  /**
   * Every input directory that `KeepOutermost` drops has a directory kept before it as a
   * case-insensitive prefix.
   */
  lemma {:induction false} KeepOutermostCoversRoots(roots: seq<string>)
    ensures CoveredBy(roots, KeepOutermost(roots))
  {
    if roots != [] {
      var n := |roots| - 1;
      var init := roots[..n];
      KeepOutermostCoversRoots(init);
      CoveredBeforeLast(roots);
      CoveredLast(roots);
    }
  }

  /** The step of `KeepOutermostCoversRoots` for the last root. */
  lemma CoveredLast(roots: seq<string>)
    requires roots != []
    ensures var n := |roots| - 1;
      roots[n] in KeepOutermost(roots) ||
      exists j :: 0 <= j < n && roots[j] in KeepOutermost(roots) && StartsWithIgnoringCase(roots[n], roots[j])
  {
    var n := |roots| - 1;
    var init := roots[..n];
    KeepOutermostKeepsRoots(init);
    var kept := KeepOutermost(init);
    if exists x :: x in kept && StartsWithIgnoringCase(roots[n], x) {
      var x :| x in kept && StartsWithIgnoringCase(roots[n], x);
      var j :| 0 <= j < n && init[j] == x;
      assert roots[j] == x;
    }
  }

  /** The step of `KeepOutermostCoversRoots` for the roots before the last one. */
  lemma CoveredBeforeLast(roots: seq<string>)
    requires roots != []
    requires CoveredBy(roots[..|roots| - 1], KeepOutermost(roots[..|roots| - 1]))
    ensures forall k :: 0 <= k < |roots| - 1 ==>
      roots[k] in KeepOutermost(roots) ||
      exists j :: 0 <= j < k && roots[j] in KeepOutermost(roots) && StartsWithIgnoringCase(roots[k], roots[j])
  {
    var n := |roots| - 1;
    var init := roots[..n];
    var kept := KeepOutermost(init);
    assert forall x :: x in kept ==> x in KeepOutermost(roots);
    forall k | 0 <= k < n
      ensures roots[k] in KeepOutermost(roots) ||
              exists j :: 0 <= j < k && roots[j] in KeepOutermost(roots) && StartsWithIgnoringCase(roots[k], roots[j])
    {
      assert init[k] == roots[k];
      if roots[k] !in kept {
        var j :| 0 <= j < k && init[j] in kept && StartsWithIgnoringCase(init[k], init[j]);
        assert roots[j] == init[j];
      }
    }
  }

  /**
   * `GetDirectoriesWithInfs_`: the package roots of every `*.inf_` file under `directory`, with
   * every root dropped that lies (ignoring case) under a root kept before it.
   */
  method GetOutermostDirectoriesWithInfs(directory: string, enumerate: Enumerator) returns (r: Result<seq<string>, string>)
    ensures var infs := enumerate(directory, "*.inf_", AllDirectories);
      && (r.Failure? <==> infs.fault.Some?)
      && (r.Failure? ==> infs.fault == Some(r.error))
      && (r.Success? ==> r.value == KeepOutermost(PackageRoots(infs.items)))
    ensures r.Success? ==>
      var roots := PackageRoots(enumerate(directory, "*.inf_", AllDirectories).items);
      && StrictlySorted(r.value)
      && (forall x :: x in r.value ==> x in roots)
      && NoEarlierPrefix(r.value)
      && (forall d :: d in roots ==> d in r.value || exists x :: x in r.value && StartsWithIgnoringCase(d, x))
  {
    var infFiles := enumerate(directory, "*.inf_", AllDirectories);
    var dirsWithInfs: seq<string> := [];
    for k := 0 to |infFiles.items|
      invariant dirsWithInfs == Parents(infFiles.items[..k])
    {
      dirsWithInfs := dirsWithInfs + [ParentPath(infFiles.items[k])];
    }
    if infFiles.fault.Some? {
      return Failure(infFiles.fault.value);
    }
    assert infFiles.items[..|infFiles.items|] == infFiles.items;
    var dirsWithInfs2 := SortedDistinct(dirsWithInfs);
    var lst: seq<string> := [];
    for k := 0 to |dirsWithInfs2|
      invariant lst == KeepOutermost(dirsWithInfs2[..k])
    {
      var dir := dirsWithInfs2[k];
      assert dirsWithInfs2[..k + 1][..k] == dirsWithInfs2[..k];
      if !(exists x :: x in lst && StartsWithIgnoringCase(dir, x)) {
        lst := lst + [dir];
      }
    }
    assert dirsWithInfs2[..|dirsWithInfs2|] == dirsWithInfs2;
    KeepOutermostKeepsRoots(dirsWithInfs2);
    KeepOutermostNoEarlierPrefix(dirsWithInfs2);
    KeepOutermostCoversRoots(dirsWithInfs2);
    return Success(lst);
  }

  /**
   * `GetFilesToSign`: the `*.sys`, then the `*.dll`, then the `*.exe` files under `directory`,
   * each group in enumeration order; an enumeration's exception propagates.
   */
  method GetFilesToSign(directory: string, enumerate: Enumerator) returns (r: Result<seq<string>, string>)
    ensures var sys := enumerate(directory, "*.sys", AllDirectories);
      var dll := enumerate(directory, "*.dll", AllDirectories);
      var exe := enumerate(directory, "*.exe", AllDirectories);
      && (r.Failure? <==> sys.fault.Some? || dll.fault.Some? || exe.fault.Some?)
      && (r.Failure? ==> r.error == (if sys.fault.Some? then sys.fault.value
                                     else if dll.fault.Some? then dll.fault.value
                                     else exe.fault.value))
      && (r.Success? ==>
            && |r.value| == |sys.items| + |dll.items| + |exe.items|
            && r.value[..|sys.items|] == sys.items
            && r.value[|sys.items|..|sys.items| + |dll.items|] == dll.items
            && r.value[|sys.items| + |dll.items|..] == exe.items)
  {
    var sysFiles := enumerate(directory, "*.sys", AllDirectories);
    var dllFiles := enumerate(directory, "*.dll", AllDirectories);
    var exeFiles := enumerate(directory, "*.exe", AllDirectories);
    var files: seq<string> := [];
    files := files + sysFiles.items;
    if sysFiles.fault.Some? {
      return Failure(sysFiles.fault.value);
    }
    files := files + dllFiles.items;
    if dllFiles.fault.Some? {
      return Failure(dllFiles.fault.value);
    }
    files := files + exeFiles.items;
    if exeFiles.fault.Some? {
      return Failure(exeFiles.fault.value);
    }
    return Success(files);
  }
}
