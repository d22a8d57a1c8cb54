/**
 * Finding the installed Windows Kits tool directories (KitsHelper.cs, duplicated in
 * Program.cs): the registry key `Installed Roots` is an input, the rest is a filter, an
 * ordinal sort and a path mapping.
 */
module KitsHelper {
  import opened Wrappers
  import opened Paths
  import opened Ordering

  /** What the registry key `SOFTWARE\Microsoft\Windows Kits\Installed Roots` holds. */
  datatype InstalledRoots = InstalledRoots(
    kitsRoot10: Option<string>,   // the value `KitsRoot10`, `None` when it is missing
    subKeyNames: seq<string>)     // `GetSubKeyNames()`, in registry order

  const NoKitsMessage: string := "No Windows Kits is installed on the machine"

  /** `x.Count(y => y == '.')`. */
  function DotCount(s: string): nat {
    if s == [] then 0 else DotCount(s[..|s| - 1]) + (if s[|s| - 1] == '.' then 1 else 0)
  }

  /** `.Where(x => x.Count(y => y == '.') == 3)`: the names that look like a kit version. */
  function VersionNames(names: seq<string>): seq<string> {
    if names == [] then []
    else
      var init := VersionNames(names[..|names| - 1]);
      var last := names[|names| - 1];
      if DotCount(last) == 3 then init + [last] else init
  }

  /** The kit version names are exactly the names with three dots, with their multiplicity. */
  lemma {:induction false} VersionNamesSpec(names: seq<string>)
    ensures forall x :: x in VersionNames(names) ==> DotCount(x) == 3
    ensures forall x :: DotCount(x) == 3 ==> multiset(VersionNames(names))[x] == multiset(names)[x]
    ensures forall x :: DotCount(x) != 3 ==> x !in VersionNames(names)
    ensures VersionNames(names) == [] <==> forall x :: x in names ==> DotCount(x) != 3
  {
    VersionNamesCount(names);
    var versions := VersionNames(names);
    forall x | x in versions ensures DotCount(x) == 3 {
      assert multiset(versions)[x] > 0;
    }
    forall x | x in names && DotCount(x) == 3 ensures versions != [] {
      assert multiset(names)[x] > 0;
      assert multiset(versions)[x] > 0;
      assert x in versions;
    }
    if versions != [] {
      var v := versions[0];
      assert DotCount(v) == 3;
      assert multiset(versions)[v] > 0;
      assert multiset(names)[v] > 0;
      assert v in names;
    }
  }

  /** How often the filter keeps each name: as often as it occurs when it has three dots, else never. */
  lemma {:induction false} VersionNamesCount(names: seq<string>)
    ensures forall x :: multiset(VersionNames(names))[x] == if DotCount(x) == 3 then multiset(names)[x] else 0
  {
    if names != [] {
      var init := names[..|names| - 1];
      var last := names[|names| - 1];
      VersionNamesCount(init);
      assert names == init + [last];
      assert multiset(names) == multiset(init) + multiset{last};
      var step := if DotCount(last) == 3 then [last] else [];
      assert VersionNames(names) == VersionNames(init) + step;
      assert multiset(VersionNames(names)) == multiset(VersionNames(init)) + multiset(step);
    }
  }

  /** `Path.Combine(KitsRoot10, "bin", name)`. */
  function ToolsPath(kitsRoot10: string, name: string): string {
    Combine3(kitsRoot10, "bin", name)
  }

  /**
   * `GetInstalledKitToolsPaths`: the `bin` directory of every kit version, in ordinal order of
   * the version name; it throws when the key, the `KitsRoot10` value or every version is missing.
   */
  function GetInstalledKitToolsPaths(installedRoots: Option<InstalledRoots>): (r: Result<seq<string>, string>)
    ensures r.Failure? ==> r.error == NoKitsMessage
    ensures r.Failure? <==>
      || installedRoots.None?
      || installedRoots.value.kitsRoot10.None?
      || forall x :: x in installedRoots.value.subKeyNames ==> DotCount(x) != 3
    ensures r.Success? ==> |r.value| == |VersionNames(installedRoots.value.subKeyNames)| > 0
  {
    if installedRoots.None? then Failure(NoKitsMessage)
    else if installedRoots.value.kitsRoot10.None? then Failure(NoKitsMessage)
    else
      var root := installedRoots.value.kitsRoot10.value;
      // The build number parsed from the third component is discarded: the key is the whole name.
      var ordered := Sort(VersionNames(installedRoots.value.subKeyNames));
      VersionNamesSpec(installedRoots.value.subKeyNames);
      assert |ordered| == |multiset(ordered)| == |VersionNames(installedRoots.value.subKeyNames)|;
      if |ordered| <= 0 then Failure(NoKitsMessage)
      else Success(seq(|ordered|, i requires 0 <= i < |ordered| => ToolsPath(root, ordered[i])))
  }

  /**
   * The result, when there is one, is the kit versions in ordinal order mapped to their `bin`
   * directories: for ANY sorted arrangement of the three-dot names, entry `i` is the tools
   * directory of the `i`-th name.
   */
  lemma ToolsPathsInVersionOrder(roots: InstalledRoots, versions: seq<string>)
    requires roots.kitsRoot10.Some?
    requires Sorted(versions)
    requires multiset(versions) == multiset(VersionNames(roots.subKeyNames))
    requires versions != []
    ensures GetInstalledKitToolsPaths(Some(roots)).Success?
    ensures var paths := GetInstalledKitToolsPaths(Some(roots)).value;
      |paths| == |versions| &&
      forall i :: 0 <= i < |versions| ==> paths[i] == ToolsPath(roots.kitsRoot10.value, versions[i])
  {
    var ordered := Sort(VersionNames(roots.subKeyNames));
    SortedUnique(ordered, versions);
  }

  /** The names a version directory can have are never rooted, so each maps to its own path. */
  lemma ToolsPathsDistinct(root: string, a: string, b: string)
    requires DotCount(a) == 3 && DotCount(b) == 3 && !IsRooted(a) && !IsRooted(b)
    requires a != b
    ensures ToolsPath(root, a) != ToolsPath(root, b)
  {
    assert a != [] && b != [];
    CombineInjective(Combine(root, "bin"), a, b);
  }
}
