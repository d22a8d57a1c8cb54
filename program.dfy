/**
 * The driver of Program.cs: choose the Windows Kits tools, then for every target directory
 * regenerate the catalog of each driver package with Inf2Cat and sign every catalog with
 * signtool. Each external process and each warning or error the program logs is recorded as an
 * `Event` in the order it happens.
 */
module ResignBSP {
  import opened Wrappers
  import opened Paths
  import opened Ordering
  import opened FileSystem
  import opened Discovery
  import opened KitsHelper

  /** What the program does to the outside world. */
  datatype Event =
    | ResourcePackage(directory: string)                 // the red "RESOURCE PACKAGE" line
    | Inf2Cat(tool: string, os: string, driver: string)  // `<tool> /OS:<os> /Driver:"<driver>"`
    | SignTool(tool: string, file: string)               // `<tool> sign ... "<file>"`
    | Failed(message: string)                            // an exception caught and logged by Main

  /** The events of a step and the exception that ended it, if one did. */
  datatype Outcome = Outcome(events: seq<Event>, thrown: Option<string>)

  /** The machine as the program observes it. */
  datatype Machine = Machine(
    installedRoots: Option<InstalledRoots>,     // the `Installed Roots` registry key, if present
    fileExists: string -> bool,                  // `File.Exists`
    enumerate: Enumerator,                       // `Directory.EnumerateFiles`
    inf2catExitCode: (string, string) -> int)   // Inf2Cat's exit code for an OS list and a directory

  const DefaultInf2Cat: string := "C:\\Program Files (x86)\\Windows Kits\\10\\bin\\x86\\Inf2Cat.exe"
  const DefaultSigntool: string := "C:\\Program Files (x86)\\Windows Kits\\10\\bin\\10.0.22000.0\\x64\\signtool.exe"

  /** Both operating systems at once, then each alone. */
  const CombinedOs: string := "6_3_ARM,10_RS3_ARM64"
  const Windows81Arm: string := "6_3_ARM"
  const Windows10Arm64: string := "10_RS3_ARM64"

  /** The suffix of a catalog that is shipped as is and must not be signed. */
  const SuppressedCatalogSuffix: string := ".cat_"

  const NoArgumentsMessage: string := "No arguments specified"

  /** `Path.Combine(ToolsPath, "x86", "Inf2Cat.exe")`. */
  function Inf2CatIn(toolsPath: string): string {
    Combine3(toolsPath, "x86", "Inf2Cat.exe")
  }

  /** `Path.Combine(ToolsPath, "x64", "signtool.exe")`. */
  function SigntoolIn(toolsPath: string): string {
    Combine3(toolsPath, "x64", "signtool.exe")
  }

  /** The two tool paths the selection loop of Main tries for each candidate directory, in order. */
  function Candidates(toolsPaths: seq<string>): (r: seq<(string, string)>)
    ensures |r| == |toolsPaths|
  {
    if toolsPaths == [] then []
    else [(Inf2CatIn(toolsPaths[0]), SigntoolIn(toolsPaths[0]))] + Candidates(toolsPaths[1..])
  }

  /** Both tools of a candidate exist. */
  predicate Usable(tools: (string, string), fileExists: string -> bool) {
    fileExists(tools.0) && fileExists(tools.1)
  }

  /** The position of the first usable candidate, in list order. */
  function FirstUsable(candidates: seq<(string, string)>, fileExists: string -> bool): (r: Option<nat>)
    ensures r.Some? ==>
      && r.value < |candidates|
      && Usable(candidates[r.value], fileExists)
      && forall j :: 0 <= j < r.value ==> !Usable(candidates[j], fileExists)
    ensures r.None? ==> forall j :: 0 <= j < |candidates| ==> !Usable(candidates[j], fileExists)
  {
    if candidates == [] then None
    else if Usable(candidates[0], fileExists) then Some(0)
    else match FirstUsable(candidates[1..], fileExists)
      case None => None
      case Some(k) => Some(k + 1)
  }

  /**
   * The tool paths the selection loop of Main leaves in the static fields: those of the first
   * usable candidate; when there is none, those of the last candidate; with no candidate at all,
   * the fields' earlier values.
   */
  function SelectedTools(inf2cat: string, signtool: string, candidates: seq<(string, string)>, fileExists: string -> bool): (string, string) {
    match FirstUsable(candidates, fileExists)
    case Some(k) => candidates[k]
    case None =>
      if candidates == [] then (inf2cat, signtool)
      else candidates[|candidates| - 1]
  }

  /** The Inf2Cat runs for one package root: the combined call, and the two single ones only if it fails. */
  function CatalogGeneration(inf2cat: string, dir: string, exitCode: (string, string) -> int): seq<Event> {
    [Inf2Cat(inf2cat, CombinedOs, dir)] +
    if exitCode(CombinedOs, dir) != 0 then
      [Inf2Cat(inf2cat, Windows81Arm, dir), Inf2Cat(inf2cat, Windows10Arm64, dir)]
    else []
  }

  /** One pass of the package-root loop of `ProcessDirectory`. */
  function RootStep(inf2cat: string, dir: string, m: Machine): Outcome {
    var suppressed := m.enumerate(dir, "*.cat_", TopDirectoryOnly);
    if suppressed.fault.Some? then Outcome([], suppressed.fault)
    else
      Outcome((if |suppressed.items| > 0 then [ResourcePackage(dir)] else []) +
              CatalogGeneration(inf2cat, dir, m.inf2catExitCode), None)
  }

  /** The package-root loop over `roots`; an exception ends it. */
  function RootSteps(inf2cat: string, roots: seq<string>, m: Machine): Outcome {
    if roots == [] then Outcome([], None)
    else
      var done := RootSteps(inf2cat, roots[..|roots| - 1], m);
      if done.thrown.Some? then done
      else
        var step := RootStep(inf2cat, roots[|roots| - 1], m);
        Outcome(done.events + step.events, step.thrown)
  }

  /** The signing loop of `ProcessDirectory` over the enumerated catalogs. */
  function SignSteps(signtool: string, cats: seq<string>): seq<Event> {
    if cats == [] then []
    else
      var cat := cats[|cats| - 1];
      SignSteps(signtool, cats[..|cats| - 1]) +
      if EndsWith(cat, SuppressedCatalogSuffix) then [] else [SignTool(signtool, cat)]
  }

  /** What `ProcessDirectory(directory)` does. */
  function ProcessSteps(inf2cat: string, signtool: string, directory: string, m: Machine): Outcome {
    var infs := m.enumerate(directory, "*.inf", AllDirectories);
    if infs.fault.Some? then Outcome([], infs.fault)
    else PackageSteps(inf2cat, signtool, directory, PackageRoots(infs.items), m)
  }

  /** What `ProcessDirectory(directory)` does once it has found the package roots. */
  function PackageSteps(inf2cat: string, signtool: string, directory: string, roots: seq<string>, m: Machine): Outcome {
    var generated := RootSteps(inf2cat, roots, m);
    if generated.thrown.Some? then generated
    else
      var cats := m.enumerate(directory, "*.cat", AllDirectories);
      Outcome(generated.events + SignSteps(signtool, cats.items), cats.fault)
  }

  /** The target loop of Main; an exception ends it. */
  function TargetSteps(inf2cat: string, signtool: string, targets: seq<string>, m: Machine): Outcome {
    if targets == [] then Outcome([], None)
    else
      var done := TargetSteps(inf2cat, signtool, targets[..|targets| - 1], m);
      if done.thrown.Some? then done
      else
        var step := ProcessSteps(inf2cat, signtool, targets[|targets| - 1], m);
        Outcome(done.events + step.events, step.thrown)
  }

  /** What Main does after its banner, starting from the given static field values. */
  function RunSteps(inf2cat: string, signtool: string, args: seq<string>, m: Machine): seq<Event> {
    match GetInstalledKitToolsPaths(m.installedRoots)
    case Failure(message) => [Failed(message)]
    case Success(toolsPaths) =>
      var (i, s) := SelectedTools(inf2cat, signtool, Candidates(toolsPaths), m.fileExists);
      CheckedSteps(i, s, args, m)
  }

  /** What Main does once the tools are chosen: check them and the arguments, then process. */
  function CheckedSteps(inf2cat: string, signtool: string, args: seq<string>, m: Machine): seq<Event> {
    if !m.fileExists(inf2cat) || !m.fileExists(signtool) then [Failed(NoKitsMessage)]
    else if |args| <= 0 then [Failed(NoArgumentsMessage)]
    else TargetsRun(inf2cat, signtool, args, m)
  }

  /** The target loop of Main with its handler: an exception is logged and ends the run. */
  function TargetsRun(inf2cat: string, signtool: string, targets: seq<string>, m: Machine): seq<Event> {
    var run := TargetSteps(inf2cat, signtool, targets, m);
    run.events + if run.thrown.Some? then [Failed(run.thrown.value)] else []
  }

  /** The class `Program`: its two static tool paths, and the record of what it has done. */
  class Program {
    var inf2cat: string
    var signtool: string
    var trace: seq<Event>

    constructor ()
      ensures inf2cat == DefaultInf2Cat && signtool == DefaultSigntool && trace == []
    {
      inf2cat := DefaultInf2Cat;
      signtool := DefaultSigntool;
      trace := [];
    }

    /** `SignFile`: one signtool process for the file. */
    method SignFile(filePath: string)
      modifies this`trace
      ensures trace == old(trace) + [SignTool(signtool, filePath)]
    {
      trace := trace + [SignTool(signtool, filePath)];
    }

    /** One pass of the package-root loop: warn about a resource package, then run Inf2Cat. */
    method GenerateCatalog(dir: string, m: Machine) returns (thrown: Option<string>)
      modifies this`trace
      ensures trace == old(trace) + RootStep(inf2cat, dir, m).events
      ensures thrown == RootStep(inf2cat, dir, m).thrown
    {
      var suppressed := m.enumerate(dir, "*.cat_", TopDirectoryOnly);
      if suppressed.fault.Some? {
        return suppressed.fault;
      }
      if |suppressed.items| > 0 {
        trace := trace + [ResourcePackage(dir)];
      }
      trace := trace + [Inf2Cat(inf2cat, CombinedOs, dir)];
      if m.inf2catExitCode(CombinedOs, dir) != 0 {
        trace := trace + [Inf2Cat(inf2cat, Windows81Arm, dir)];
        trace := trace + [Inf2Cat(inf2cat, Windows10Arm64, dir)];
      }
      thrown := None;
    }

    /** The signing loop: every enumerated catalog except the suppressed ones. */
    method SignCatalogs(cats: seq<string>)
      modifies this`trace
      ensures trace == old(trace) + SignSteps(signtool, cats)
    {
      for k := 0 to |cats|
        invariant trace == old(trace) + SignSteps(signtool, cats[..k])
      {
        var cat := cats[k];
        assert cats[..k + 1][..k] == cats[..k];
        if EndsWith(cat, SuppressedCatalogSuffix) {
          continue;
        }
        SignFile(cat);
      }
      assert cats[..|cats|] == cats;
    }

    /** The package-root loop of `ProcessDirectory`: one pass per root until one throws. */
    method GenerateCatalogs(roots: seq<string>, m: Machine) returns (thrown: Option<string>)
      modifies this`trace
      ensures trace == old(trace) + RootSteps(inf2cat, roots, m).events
      ensures thrown == RootSteps(inf2cat, roots, m).thrown
    {
      for k := 0 to |roots|
        invariant RootSteps(inf2cat, roots[..k], m).thrown.None?
        invariant trace == old(trace) + RootSteps(inf2cat, roots[..k], m).events
      {
        ghost var done := RootSteps(inf2cat, roots[..k], m).events;
        ghost var step := RootStep(inf2cat, roots[k], m);
        RootStepsNext(inf2cat, roots, k, m);
        thrown := GenerateCatalog(roots[k], m);
        AppendAssociative(old(trace), done, step.events);
        if thrown.Some? {
          RootStepsStop(inf2cat, roots, k, m);
          return;
        }
      }
      assert roots[..|roots|] == roots;
      thrown := None;
    }

    /** `ProcessDirectory`: regenerate every package's catalog, then sign every catalog. */
    method ProcessDirectory(directory: string, m: Machine) returns (thrown: Option<string>)
      modifies this`trace
      ensures trace == old(trace) + ProcessSteps(inf2cat, signtool, directory, m).events
      ensures thrown == ProcessSteps(inf2cat, signtool, directory, m).thrown
    {
      var dirsWithInfs := GetDirectoriesWithInfs(directory, m.enumerate);
      if dirsWithInfs.Failure? {
        return Some(dirsWithInfs.error);
      }
      thrown := ProcessPackages(directory, dirsWithInfs.value, m);
    }

    /** The rest of `ProcessDirectory`: regenerate the catalogs of `roots`, then sign. */
    method ProcessPackages(directory: string, roots: seq<string>, m: Machine) returns (thrown: Option<string>)
      modifies this`trace
      ensures trace == old(trace) + PackageSteps(inf2cat, signtool, directory, roots, m).events
      ensures thrown == PackageSteps(inf2cat, signtool, directory, roots, m).thrown
    {
      ghost var generated := RootSteps(inf2cat, roots, m).events;
      thrown := GenerateCatalogs(roots, m);
      if thrown.Some? {
        return;
      }
      var cats := m.enumerate(directory, "*.cat", AllDirectories);
      SignCatalogs(cats.items);
      assert trace == old(trace) + (generated + SignSteps(signtool, cats.items));
      thrown := cats.fault;
    }

    /** The selection loop of Main: stop at the first candidate under which both tools exist. */
    method SelectTools(toolsPaths: seq<string>, fileExists: string -> bool)
      modifies this`inf2cat, this`signtool
      ensures (inf2cat, signtool) == SelectedTools(old(inf2cat), old(signtool), Candidates(toolsPaths), fileExists)
    {
      var candidates := Candidates(toolsPaths);
      for k := 0 to |candidates|
        invariant forall j :: 0 <= j < k ==> !Usable(candidates[j], fileExists)
        invariant k == 0 ==> inf2cat == old(inf2cat) && signtool == old(signtool)
        invariant k > 0 ==> (inf2cat, signtool) == candidates[k - 1]
      {
        inf2cat, signtool := candidates[k].0, candidates[k].1;
        if fileExists(inf2cat) && fileExists(signtool) {
          FirstUsableIs(candidates, fileExists, k);
          return;
        }
      }
      if candidates != [] {
        FirstUsableNone(candidates, fileExists);
      }
    }

    /** Main, after its banner: find the tools, check the arguments, process every target. */
    method Run(args: seq<string>, m: Machine)
      modifies this
      ensures trace == old(trace) + RunSteps(old(inf2cat), old(signtool), args, m)
      ensures match GetInstalledKitToolsPaths(m.installedRoots)
        case Failure(_) => inf2cat == old(inf2cat) && signtool == old(signtool)
        case Success(toolsPaths) =>
          (inf2cat, signtool) == SelectedTools(old(inf2cat), old(signtool), Candidates(toolsPaths), m.fileExists)
    {
      var toolsPaths := GetInstalledKitToolsPaths(m.installedRoots);
      if toolsPaths.Failure? {
        trace := trace + [Failed(toolsPaths.error)];
        return;
      }
      SelectTools(toolsPaths.value, m.fileExists);
      CheckAndProcess(args, m);
    }

    /** The rest of Main's try block and its handler, once the tools are chosen. */
    method CheckAndProcess(args: seq<string>, m: Machine)
      modifies this`trace
      ensures trace == old(trace) + CheckedSteps(inf2cat, signtool, args, m)
    {
      if !m.fileExists(inf2cat) || !m.fileExists(signtool) {
        trace := trace + [Failed(NoKitsMessage)];
        return;
      }
      if |args| <= 0 {
        trace := trace + [Failed(NoArgumentsMessage)];
        return;
      }
      ghost var run := TargetSteps(inf2cat, signtool, args, m);
      var thrown := ProcessDirectories(args, m);
      if thrown.Some? {
        trace := trace + [Failed(thrown.value)];
        assert trace == old(trace) + (run.events + [Failed(run.thrown.value)]);
      }
    }

    /** The target loop of Main: process each directory in turn until one throws. */
    method ProcessDirectories(directories: seq<string>, m: Machine) returns (thrown: Option<string>)
      modifies this`trace
      ensures trace == old(trace) + TargetSteps(inf2cat, signtool, directories, m).events
      ensures thrown == TargetSteps(inf2cat, signtool, directories, m).thrown
    {
      for k := 0 to |directories|
        invariant TargetSteps(inf2cat, signtool, directories[..k], m).thrown.None?
        invariant trace == old(trace) + TargetSteps(inf2cat, signtool, directories[..k], m).events
      {
        ghost var done := TargetSteps(inf2cat, signtool, directories[..k], m).events;
        ghost var step := ProcessSteps(inf2cat, signtool, directories[k], m);
        TargetStepsNext(inf2cat, signtool, directories, k, m);
        thrown := ProcessDirectory(directories[k], m);
        AppendAssociative(old(trace), done, step.events);
        if thrown.Some? {
          TargetStepsStop(inf2cat, signtool, directories, k, m);
          return;
        }
      }
      assert directories[..|directories|] == directories;
      thrown := None;
    }
  }

  lemma AppendAssociative(a: seq<Event>, b: seq<Event>, c: seq<Event>)
    ensures a + b + c == a + (b + c)
  {
  }

  lemma FirstUsableIs(candidates: seq<(string, string)>, fileExists: string -> bool, k: nat)
    requires k < |candidates| && Usable(candidates[k], fileExists)
    requires forall j :: 0 <= j < k ==> !Usable(candidates[j], fileExists)
    ensures FirstUsable(candidates, fileExists) == Some(k)
  {
    var r := FirstUsable(candidates, fileExists);
    assert r.Some?;
  }

  lemma FirstUsableNone(candidates: seq<(string, string)>, fileExists: string -> bool)
    requires forall j :: 0 <= j < |candidates| ==> !Usable(candidates[j], fileExists)
    ensures FirstUsable(candidates, fileExists) == None
  {
  }

  /** The package-root loop over one more root, when it has not thrown so far. */
  lemma RootStepsNext(inf2cat: string, roots: seq<string>, k: nat, m: Machine)
    requires k < |roots|
    requires RootSteps(inf2cat, roots[..k], m).thrown.None?
    ensures var done := RootSteps(inf2cat, roots[..k], m);
      var step := RootStep(inf2cat, roots[k], m);
      RootSteps(inf2cat, roots[..k + 1], m) == Outcome(done.events + step.events, step.thrown)
  {
    assert roots[..k + 1][..k] == roots[..k];
  }

  /** Once the package-root loop has thrown, the remaining roots are never visited. */
  lemma {:induction false} RootStepsStop(inf2cat: string, roots: seq<string>, k: nat, m: Machine)
    requires k < |roots|
    requires RootSteps(inf2cat, roots[..k], m).thrown.None?
    requires RootStep(inf2cat, roots[k], m).thrown.Some?
    ensures RootSteps(inf2cat, roots, m) == RootSteps(inf2cat, roots[..k + 1], m)
    ensures RootSteps(inf2cat, roots, m).thrown.Some?
  {
    assert roots[..k + 1][..k] == roots[..k];
    if |roots| > k + 1 {
      var init := roots[..|roots| - 1];
      assert init[..k] == roots[..k] && init[k] == roots[k] && init[..k + 1] == roots[..k + 1];
      RootStepsStop(inf2cat, init, k, m);
    }
  }

  /** The target loop over one more target, when it has not thrown so far. */
  lemma TargetStepsNext(inf2cat: string, signtool: string, targets: seq<string>, k: nat, m: Machine)
    requires k < |targets|
    requires TargetSteps(inf2cat, signtool, targets[..k], m).thrown.None?
    ensures var done := TargetSteps(inf2cat, signtool, targets[..k], m);
      var step := ProcessSteps(inf2cat, signtool, targets[k], m);
      TargetSteps(inf2cat, signtool, targets[..k + 1], m) == Outcome(done.events + step.events, step.thrown)
  {
    assert targets[..k + 1][..k] == targets[..k];
  }

  /**
   * An exception while processing one target stops Main's loop: the later targets are never
   * processed, whatever they are.
   */
  lemma {:induction false} TargetStepsStop(inf2cat: string, signtool: string, targets: seq<string>, k: nat, m: Machine)
    requires k < |targets|
    requires TargetSteps(inf2cat, signtool, targets[..k], m).thrown.None?
    requires ProcessSteps(inf2cat, signtool, targets[k], m).thrown.Some?
    ensures TargetSteps(inf2cat, signtool, targets, m) == TargetSteps(inf2cat, signtool, targets[..k + 1], m)
    ensures TargetSteps(inf2cat, signtool, targets, m).thrown.Some?
  {
    assert targets[..k + 1][..k] == targets[..k];
    if |targets| > k + 1 {
      var init := targets[..|targets| - 1];
      assert init[..k] == targets[..k] && init[k] == targets[k] && init[..k + 1] == targets[..k + 1];
      TargetStepsStop(inf2cat, signtool, init, k, m);
    }
  }
}
