/**
 * What the run of Program.cs guarantees about the processes it launches and the messages it
 * logs: which tools it uses, how Inf2Cat falls back to one OS at a time, which packages it warns
 * about, which catalogs it signs and when, and that an error ends the run.
 */
module Behaviour {
  import opened Wrappers
  import opened Paths
  import opened Ordering
  import opened FileSystem
  import opened Discovery
  import opened KitsHelper
  import opened ResignBSP

  /** No event is a signtool run. */
  predicate NoSigning(events: seq<Event>) {
    forall i :: 0 <= i < |events| ==> !events[i].SignTool?
  }

  /** Every event is a signtool run. */
  predicate OnlySigning(events: seq<Event>) {
    forall i :: 0 <= i < |events| ==> events[i].SignTool?
  }

  /** No event is a logged error. */
  predicate NoFailure(events: seq<Event>) {
    forall i :: 0 <= i < |events| ==> !events[i].Failed?
  }

  /** Every Inf2Cat run uses `inf2cat` and every signtool run uses `signtool`. */
  predicate UsesTools(events: seq<Event>, inf2cat: string, signtool: string) {
    forall i :: 0 <= i < |events| ==>
      (events[i].Inf2Cat? ==> events[i].tool == inf2cat) &&
      (events[i].SignTool? ==> events[i].tool == signtool)
  }

  /** The `/OS:` lists of the Inf2Cat runs for `driver`, in the order they happen. */
  function Inf2CatRuns(events: seq<Event>, driver: string): seq<string> {
    if events == [] then []
    else
      var e := events[|events| - 1];
      Inf2CatRuns(events[..|events| - 1], driver) + if e.Inf2Cat? && e.driver == driver then [e.os] else []
  }

  /** The Inf2Cat runs a package root gets: the combined run, then each OS alone if it failed. */
  function ExpectedRuns(driver: string, exitCode: (string, string) -> int): seq<string> {
    [CombinedOs] + if exitCode(CombinedOs, driver) != 0 then [Windows81Arm, Windows10Arm64] else []
  }

  lemma {:induction false} Inf2CatRunsAppend(a: seq<Event>, b: seq<Event>, driver: string)
    ensures Inf2CatRuns(a + b, driver) == Inf2CatRuns(a, driver) + Inf2CatRuns(b, driver)
  {
    if b == [] {
      assert a + b == a;
    } else {
      var n := |b| - 1;
      assert (a + b)[..|a + b| - 1] == a + b[..n];
      assert (a + b)[|a + b| - 1] == b[n];
      Inf2CatRunsAppend(a, b[..n], driver);
    }
  }

  /** A root loop that has not thrown did not throw on any shorter prefix either. */
  lemma RootStepsInit(inf2cat: string, roots: seq<string>, m: Machine)
    requires roots != [] && RootSteps(inf2cat, roots, m).thrown.None?
    ensures RootSteps(inf2cat, roots[..|roots| - 1], m).thrown.None?
    ensures RootStep(inf2cat, roots[|roots| - 1], m).thrown.None?
    ensures RootSteps(inf2cat, roots, m).events ==
      RootSteps(inf2cat, roots[..|roots| - 1], m).events + RootStep(inf2cat, roots[|roots| - 1], m).events
  {
  }

  /** The package-root loop runs Inf2Cat with `inf2cat` only, and never signs nor logs an error. */
  lemma {:induction false} RootStepsEvents(inf2cat: string, roots: seq<string>, m: Machine)
    ensures var ev := RootSteps(inf2cat, roots, m).events;
      && NoSigning(ev)
      && NoFailure(ev)
      && forall i :: 0 <= i < |ev| && ev[i].Inf2Cat? ==> ev[i].tool == inf2cat
  {
    if roots != [] {
      RootStepsEvents(inf2cat, roots[..|roots| - 1], m);
    }
  }

  /** The signing loop runs only signtool, always `signtool`. */
  lemma {:induction false} SignStepsEvents(signtool: string, cats: seq<string>)
    ensures var ev := SignSteps(signtool, cats);
      OnlySigning(ev) && forall i :: 0 <= i < |ev| ==> ev[i].tool == signtool
  {
    if cats != [] {
      SignStepsEvents(signtool, cats[..|cats| - 1]);
    }
  }

  /**
   * Every enumerated catalog is signed once per time it was enumerated, except a `.cat_`
   * catalog, which is never signed.
   */
  lemma {:induction false} SignStepsCount(signtool: string, cats: seq<string>, file: string)
    ensures multiset(SignSteps(signtool, cats))[SignTool(signtool, file)] ==
      if EndsWith(file, SuppressedCatalogSuffix) then 0 else multiset(cats)[file]
  {
    if cats != [] {
      var init := cats[..|cats| - 1];
      var last := cats[|cats| - 1];
      SignStepsCount(signtool, init, file);
      assert cats == init + [last];
      assert multiset(cats) == multiset(init) + multiset{last};
      SignStepsLast(signtool, cats);
    }
  }

  /** The signing loop's events as a multiset: those of all but the last catalog, plus the last one's. */
  lemma SignStepsLast(signtool: string, cats: seq<string>)
    requires cats != []
    ensures var last := cats[|cats| - 1];
      multiset(SignSteps(signtool, cats)) ==
        multiset(SignSteps(signtool, cats[..|cats| - 1])) +
        if EndsWith(last, SuppressedCatalogSuffix) then multiset{} else multiset{SignTool(signtool, last)}
  {
  }

  /** The enumerated catalogs that are not `.cat_` files, in enumeration order. */
  function Unsuppressed(cats: seq<string>): seq<string> {
    if cats == [] then []
    else (if EndsWith(cats[0], SuppressedCatalogSuffix) then [] else [cats[0]]) + Unsuppressed(cats[1..])
  }

  lemma {:induction false} UnsuppressedAppend(a: seq<string>, b: seq<string>)
    ensures Unsuppressed(a + b) == Unsuppressed(a) + Unsuppressed(b)
  {
    if a == [] {
      assert a + b == b;
    } else {
      assert (a + b)[1..] == a[1..] + b;
      assert (a + b)[0] == a[0];
      UnsuppressedAppend(a[1..], b);
    }
  }

  /**
   * The signing loop signs the catalogs that are not `.cat_` files, each in enumeration order,
   * once per time it was enumerated, and nothing else.
   */
  lemma {:induction false} SignStepsInOrder(signtool: string, cats: seq<string>)
    ensures var ev := SignSteps(signtool, cats);
      var files := Unsuppressed(cats);
      |ev| == |files| && forall i :: 0 <= i < |ev| ==> ev[i] == SignTool(signtool, files[i])
  {
    if cats != [] {
      var init := cats[..|cats| - 1];
      var last := cats[|cats| - 1];
      SignStepsInOrder(signtool, init);
      assert cats == init + [last];
      UnsuppressedAppend(init, [last]);
      assert [last][1..] == [];
    }
  }

  /**
   * For package roots without repetition, each root gets the combined Inf2Cat run and, only when
   * that run fails, one run per OS; a directory that is not a root gets none.
   */
  lemma {:induction false} GenerationCascade(inf2cat: string, roots: seq<string>, m: Machine, driver: string)
    requires NoDuplicates(roots)
    requires RootSteps(inf2cat, roots, m).thrown.None?
    ensures Inf2CatRuns(RootSteps(inf2cat, roots, m).events, driver) ==
      if driver in roots then ExpectedRuns(driver, m.inf2catExitCode) else []
  {
    if roots != [] {
      var init := roots[..|roots| - 1];
      var dir := roots[|roots| - 1];
      RootStepsInit(inf2cat, roots, m);
      assert NoDuplicates(init) by {
        forall i, j | 0 <= i < j < |init| ensures init[i] != init[j] {
          assert init[i] == roots[i] && init[j] == roots[j];
        }
      }
      GenerationCascade(inf2cat, init, m, driver);
      Inf2CatRunsAppend(RootSteps(inf2cat, init, m).events, RootStep(inf2cat, dir, m).events, driver);
      RootStepRuns(inf2cat, dir, m, driver);
      LastMember(roots, driver);
      if driver == dir {
        assert dir !in init by {
          forall j | 0 <= j < |init| ensures init[j] != dir {
            assert init[j] == roots[j];
          }
        }
      }
    }
  }

  /** An element of a non-empty sequence is in its prefix or is its last element. */
  lemma LastMember(s: seq<string>, x: string)
    requires s != []
    ensures x in s <==> x in s[..|s| - 1] || x == s[|s| - 1]
  {
    assert s == s[..|s| - 1] + [s[|s| - 1]];
  }

  /** The Inf2Cat runs of one pass of the package-root loop, seen from one driver directory. */
  lemma RootStepRuns(inf2cat: string, dir: string, m: Machine, driver: string)
    requires RootStep(inf2cat, dir, m).thrown.None?
    ensures Inf2CatRuns(RootStep(inf2cat, dir, m).events, driver) ==
      if driver == dir then ExpectedRuns(dir, m.inf2catExitCode) else []
  {
    var warning: seq<Event> := if |m.enumerate(dir, "*.cat_", TopDirectoryOnly).items| > 0 then [ResourcePackage(dir)] else [];
    var generation := CatalogGeneration(inf2cat, dir, m.inf2catExitCode);
    assert RootStep(inf2cat, dir, m).events == warning + generation;
    Inf2CatRunsAppend(warning, generation, driver);
    assert Inf2CatRuns(warning, driver) == [] by {
      if warning != [] {
        assert warning[..0] == [];
      }
    }
    GenerationRuns(inf2cat, dir, m.inf2catExitCode, driver);
  }

  /** The Inf2Cat runs of one root, seen from one driver directory. */
  lemma GenerationRuns(inf2cat: string, dir: string, exitCode: (string, string) -> int, driver: string)
    ensures Inf2CatRuns(CatalogGeneration(inf2cat, dir, exitCode), driver) ==
      if driver == dir then ExpectedRuns(dir, exitCode) else []
  {
    var first := [Inf2Cat(inf2cat, CombinedOs, dir)];
    assert Inf2CatRuns(first, driver) == if driver == dir then [CombinedOs] else [] by {
      assert first[..0] == [];
    }
    if exitCode(CombinedOs, dir) != 0 {
      var rest := [Inf2Cat(inf2cat, Windows81Arm, dir), Inf2Cat(inf2cat, Windows10Arm64, dir)];
      assert rest[..1] == [rest[0]] && [rest[0]][..0] == [];
      Inf2CatRunsAppend(first, rest, driver);
    } else {
      assert CatalogGeneration(inf2cat, dir, exitCode) == first;
    }
  }

  /**
   * The red RESOURCE PACKAGE warning names exactly the package roots that hold a `.cat_` file
   * directly, when the loop did not throw.
   */
  lemma {:induction false} ResourceWarnings(inf2cat: string, roots: seq<string>, m: Machine, dir: string)
    requires RootSteps(inf2cat, roots, m).thrown.None?
    ensures ResourcePackage(dir) in RootSteps(inf2cat, roots, m).events <==>
      dir in roots && |m.enumerate(dir, "*.cat_", TopDirectoryOnly).items| > 0
  {
    if roots != [] {
      var init := roots[..|roots| - 1];
      var last := roots[|roots| - 1];
      RootStepsInit(inf2cat, roots, m);
      ResourceWarnings(inf2cat, init, m, dir);
      var generation := CatalogGeneration(inf2cat, last, m.inf2catExitCode);
      assert ResourcePackage(dir) !in generation;
      assert roots == init + [last];
    }
  }

  /**
   * `ProcessDirectory` signs last: once a signtool run has happened, every later event is a
   * signtool run, and nothing is signed unless every package's catalog was generated. It logs no
   * error itself and uses the two given tools.
   */
  lemma ProcessStepsOrder(inf2cat: string, signtool: string, directory: string, m: Machine)
    ensures var ev := ProcessSteps(inf2cat, signtool, directory, m).events;
      && (forall i, j :: 0 <= i < j < |ev| && ev[i].SignTool? ==> ev[j].SignTool?)
      && NoFailure(ev)
      && UsesTools(ev, inf2cat, signtool)
    ensures var infs := m.enumerate(directory, "*.inf", AllDirectories);
      var ev := ProcessSteps(inf2cat, signtool, directory, m).events;
      !NoSigning(ev) ==> infs.fault.None? && RootSteps(inf2cat, PackageRoots(infs.items), m).thrown.None?
  {
    var infs := m.enumerate(directory, "*.inf", AllDirectories);
    if infs.fault.None? {
      PackageStepsOrder(inf2cat, signtool, directory, PackageRoots(infs.items), m);
    }
  }

  /** `ProcessStepsOrder` once the package roots are known. */
  lemma PackageStepsOrder(inf2cat: string, signtool: string, directory: string, roots: seq<string>, m: Machine)
    ensures var ev := PackageSteps(inf2cat, signtool, directory, roots, m).events;
      && (forall i, j :: 0 <= i < j < |ev| && ev[i].SignTool? ==> ev[j].SignTool?)
      && NoFailure(ev)
      && UsesTools(ev, inf2cat, signtool)
      && (!NoSigning(ev) ==> RootSteps(inf2cat, roots, m).thrown.None?)
  {
    var generated := RootSteps(inf2cat, roots, m);
    RootStepsEvents(inf2cat, roots, m);
    if generated.thrown.None? {
      var cats := m.enumerate(directory, "*.cat", AllDirectories);
      var signing := SignSteps(signtool, cats.items);
      SignStepsEvents(signtool, cats.items);
      var ev := generated.events + signing;
      assert ev == PackageSteps(inf2cat, signtool, directory, roots, m).events;
      forall i | 0 <= i < |ev|
        ensures ev[i] == if i < |generated.events| then generated.events[i] else signing[i - |generated.events|]
      {
      }
    }
  }

  /**
   * For one target whose package roots were all processed: every directory holding an `.inf`
   * file gets the combined Inf2Cat run and, only if it fails, one run per OS; no other directory
   * gets any; and each enumerated catalog is signed once per enumeration, `.cat_` ones never.
   */
  lemma ProcessStepsRuns(inf2cat: string, signtool: string, directory: string, m: Machine, driver: string, file: string)
    ensures var infs := m.enumerate(directory, "*.inf", AllDirectories);
      var ev := ProcessSteps(inf2cat, signtool, directory, m).events;
      infs.fault.None? && RootSteps(inf2cat, PackageRoots(infs.items), m).thrown.None? ==>
        Inf2CatRuns(ev, driver) ==
          if exists f :: f in infs.items && ParentPath(f) == driver then ExpectedRuns(driver, m.inf2catExitCode) else []
    ensures var infs := m.enumerate(directory, "*.inf", AllDirectories);
      var cats := m.enumerate(directory, "*.cat", AllDirectories).items;
      var ev := ProcessSteps(inf2cat, signtool, directory, m).events;
      infs.fault.None? && RootSteps(inf2cat, PackageRoots(infs.items), m).thrown.None? ==>
        multiset(ev)[SignTool(signtool, file)] ==
          if EndsWith(file, SuppressedCatalogSuffix) then 0 else multiset(cats)[file]
  {
    if m.enumerate(directory, "*.inf", AllDirectories).fault.Some? ||
       RootSteps(inf2cat, PackageRoots(m.enumerate(directory, "*.inf", AllDirectories).items), m).thrown.Some? {
      return;
    }
    var infs := m.enumerate(directory, "*.inf", AllDirectories).items;
    var roots := PackageRoots(infs);
    var generated := RootSteps(inf2cat, roots, m).events;
    var cats := m.enumerate(directory, "*.cat", AllDirectories).items;
    var signing := SignSteps(signtool, cats);
    assert ProcessSteps(inf2cat, signtool, directory, m).events == generated + signing;
    GenerationCascade(inf2cat, roots, m, driver);
    Inf2CatRunsAppend(generated, signing, driver);
    SignStepsEvents(signtool, cats);
    NoInf2CatRuns(signing, driver);
    SignStepsCount(signtool, cats, file);
    RootStepsEvents(inf2cat, roots, m);
    assert SignTool(signtool, file) !in multiset(generated);
  }

  /** Signtool runs contribute no Inf2Cat run. */
  lemma {:induction false} NoInf2CatRuns(events: seq<Event>, driver: string)
    requires OnlySigning(events)
    ensures Inf2CatRuns(events, driver) == []
  {
    if events != [] {
      NoInf2CatRuns(events[..|events| - 1], driver);
    }
  }

  /** The target loop uses the two given tools and logs no error itself. */
  lemma {:induction false} TargetStepsEvents(inf2cat: string, signtool: string, targets: seq<string>, m: Machine)
    ensures var ev := TargetSteps(inf2cat, signtool, targets, m).events;
      NoFailure(ev) && UsesTools(ev, inf2cat, signtool)
  {
    if targets != [] {
      TargetStepsEvents(inf2cat, signtool, targets[..|targets| - 1], m);
      ProcessStepsOrder(inf2cat, signtool, targets[|targets| - 1], m);
    }
  }

  /** The `i`-th candidate of the selection loop is the `i`-th kit directory's pair of tools. */
  lemma {:induction false} CandidatesAt(toolsPaths: seq<string>, i: nat)
    requires i < |toolsPaths|
    ensures Candidates(toolsPaths)[i] == (Inf2CatIn(toolsPaths[i]), SigntoolIn(toolsPaths[i]))
  {
    if i > 0 {
      var tail := toolsPaths[1..];
      CandidatesAt(tail, i - 1);
      assert tail[i - 1] == toolsPaths[i];
      assert Candidates(toolsPaths) == [(Inf2CatIn(toolsPaths[0]), SigntoolIn(toolsPaths[0]))] + Candidates(tail);
    }
  }

  /**
   * Main logs at most one error, and only as its last action; it fails with the kits message
   * when the kits are missing or no candidate has both tools; it fails with the arguments message
   * when the tools exist but no target was given.
   */
  lemma RunFailures(inf2cat: string, signtool: string, args: seq<string>, m: Machine)
    ensures var ev := RunSteps(inf2cat, signtool, args, m);
      forall i :: 0 <= i < |ev| && ev[i].Failed? ==> i == |ev| - 1
    ensures GetInstalledKitToolsPaths(m.installedRoots).Failure? ==>
      RunSteps(inf2cat, signtool, args, m) == [Failed(NoKitsMessage)]
    ensures match GetInstalledKitToolsPaths(m.installedRoots)
      case Failure(_) => true
      case Success(toolsPaths) =>
        var (i, s) := SelectedTools(inf2cat, signtool, Candidates(toolsPaths), m.fileExists);
        && (!m.fileExists(i) || !m.fileExists(s) ==> RunSteps(inf2cat, signtool, args, m) == [Failed(NoKitsMessage)])
        && (m.fileExists(i) && m.fileExists(s) && args == [] ==>
              RunSteps(inf2cat, signtool, args, m) == [Failed(NoArgumentsMessage)])
  {
    match GetInstalledKitToolsPaths(m.installedRoots)
    case Failure(_) =>
    case Success(toolsPaths) =>
      var (i, s) := SelectedTools(inf2cat, signtool, Candidates(toolsPaths), m.fileExists);
      if m.fileExists(i) && m.fileExists(s) && |args| > 0 {
        var run := TargetSteps(i, s, args, m);
        TargetStepsEvents(i, s, args, m);
        var ev := RunSteps(inf2cat, signtool, args, m);
        assert ev == run.events + if run.thrown.Some? then [Failed(run.thrown.value)] else [];
        forall k | 0 <= k < |ev| && ev[k].Failed? ensures k == |ev| - 1 {
          if k < |run.events| {
            assert ev[k] == run.events[k];
          }
        }
      }
  }

  /**
   * When no kit version directory holds both tools, Main logs the kits message and does nothing
   * else, whatever the arguments.
   */
  lemma RunFailsWithoutUsableKit(inf2cat: string, signtool: string, args: seq<string>, m: Machine, toolsPaths: seq<string>)
    requires GetInstalledKitToolsPaths(m.installedRoots) == Success(toolsPaths)
    requires forall j :: 0 <= j < |toolsPaths| ==> !(m.fileExists(Inf2CatIn(toolsPaths[j])) && m.fileExists(SigntoolIn(toolsPaths[j])))
    ensures RunSteps(inf2cat, signtool, args, m) == [Failed(NoKitsMessage)]
  {
    var candidates := Candidates(toolsPaths);
    forall j | 0 <= j < |candidates| ensures !Usable(candidates[j], m.fileExists) {
      CandidatesAt(toolsPaths, j);
    }
    FirstUsableNone(candidates, m.fileExists);
    assert !Usable(candidates[|candidates| - 1], m.fileExists);
  }

  /**
   * When a kit version directory holds both tools, every Inf2Cat and signtool run of Main uses
   * the tools of the first such directory in ordinal order of the version names.
   */
  lemma RunUsesFirstUsableKit(inf2cat: string, signtool: string, args: seq<string>, m: Machine, toolsPaths: seq<string>, k: nat)
    requires GetInstalledKitToolsPaths(m.installedRoots) == Success(toolsPaths)
    requires k < |toolsPaths| && m.fileExists(Inf2CatIn(toolsPaths[k])) && m.fileExists(SigntoolIn(toolsPaths[k]))
    requires forall j :: 0 <= j < k ==> !(m.fileExists(Inf2CatIn(toolsPaths[j])) && m.fileExists(SigntoolIn(toolsPaths[j])))
    ensures UsesTools(RunSteps(inf2cat, signtool, args, m), Inf2CatIn(toolsPaths[k]), SigntoolIn(toolsPaths[k]))
  {
    var candidates := Candidates(toolsPaths);
    forall j | 0 <= j <= k ensures candidates[j] == (Inf2CatIn(toolsPaths[j]), SigntoolIn(toolsPaths[j])) {
      CandidatesAt(toolsPaths, j);
    }
    FirstUsableIs(candidates, m.fileExists, k);
    var (i, s) := SelectedTools(inf2cat, signtool, candidates, m.fileExists);
    assert (i, s) == candidates[k];
    if |args| > 0 {
      var run := TargetSteps(i, s, args, m);
      TargetStepsEvents(i, s, args, m);
      var ev := RunSteps(inf2cat, signtool, args, m);
      assert ev == run.events + if run.thrown.Some? then [Failed(run.thrown.value)] else [];
      forall n | 0 <= n < |ev|
        ensures (ev[n].Inf2Cat? ==> ev[n].tool == i) && (ev[n].SignTool? ==> ev[n].tool == s)
      {
        if n < |run.events| {
          assert ev[n] == run.events[n];
        }
      }
    }
  }
}
