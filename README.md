# ResignBSP in Dafny

ResignBSP re-signs the driver packages of a Windows board support package. Each target directory
it is given is processed in three steps:

1. It finds every package root, meaning every directory that directly holds an `.inf` file.
2. It regenerates each root's catalog with `Inf2Cat`. The first call covers both Windows 8.1 ARM
   and Windows 10 ARM64 at once; if that call fails, Inf2Cat runs once per OS.
3. It signs every `.cat` file under the target with `signtool`, except the `.cat_` files that are
   shipped as they are.

Before any of this, it picks its tools from the installed Windows Kits. The repository also holds:

- a helper that lists the directories a git working tree has changed;
- a byte-pattern search.

This project models that core:

- `paths.dfy` (`Paths`): the path text operations the program relies on.
  - The parent-directory expression, built from `Split('\\')`, `Reverse()`, `Skip(1)`,
    `Reverse()` and `Join`.
  - Simplified `Path.Combine` and `Path.GetDirectoryName`.
  - ASCII `ToLower`, and `EndsWith`.
- `ordering.dfy` (`Ordering`): `OrderBy(x => x)` as an ordinal insertion sort, and
  `Distinct()`. It also proves that a sorted permutation is unique.
- `filesystem.dfy` (`FileSystem`): `Directory.EnumerateFiles` as an oracle.
  - The oracle maps a directory, a pattern and a search option to the items the enumeration
    yields, plus the exception it may end with.
- `discovery.dfy` (`Discovery`): `GetDirectoriesWithInfs`, `GetDirectoriesWithInfs_` and
  `GetFilesToSign` of `Program.cs`, as methods with the source's loops.
- `kits.dfy` (`KitsHelper`): `GetInstalledKitToolsPaths`, with the registry values as inputs.
  - `Program.cs` holds a second copy of this function (lines 211-248) that behaves the same.
    `Main` calls that copy, and the one Dafny function models both.
- `program.dfy` (`ResignBSP`): the `Program` class.
  - Its static fields `inf2cat` and `signtool` are class fields.
  - Every process the program starts, and every warning or error it logs, is appended to a
    `trace` field as an `Event`.
  - `Main` is the method `Run`, after its banner. Its exception handler is part of `Run` too.
  - `ProcessDirectory`, `SignFile` and the tool-selection loop are methods. Each is proved
    against a function that states the events it produces: `ProcessSteps`, `RunSteps`,
    `SelectedTools` and the like.
  - A `Machine` value supplies what the program observes:
    - the registry key;
    - `File.Exists`;
    - the enumerations;
    - Inf2Cat's exit code for an OS list and a driver directory.
- `behaviour.dfy` (`Behaviour`): what the run guarantees, proved about those specification
  functions.
  - The Inf2Cat fallback cascade.
  - The resource-package warning.
  - Signing last, and exactly once per enumerated non-`.cat_` catalog.
  - Tool use and failure handling.
- `git.dfy` (`GitHelper`): `GetModifiedDirectoriesFromGitRepo`, over a record of the eight
  status categories.
- `bytes.dfy` (`ByteExtensions`): `Locate`, `IsMatch` and `IsEmptyLocate` over `array<byte>`.

## Model

| member | source | states |
|---|---|---|
| `Paths.Split` | ResignBSP/Program.cs:195 | `Split('\\')` gives at least one part, and no part contains a separator |
| `Paths.JoinSplit` | ResignBSP/Program.cs:195 | joining the parts of `Split` with `\` gives back the original path |
| `Paths.SplitJoin` | ResignBSP/Program.cs:195 | splitting the `\`-join of one or more separator-free parts gives back exactly those parts |
| `Paths.ReverseSkipReverse` | ResignBSP/Program.cs:195 | `Reverse().Skip(1).Reverse()` drops exactly the last part |
| `Paths.ParentPathSpec` | ResignBSP/Program.cs:194-195 | with a separator, the path is root + `\` + last component, and that component has no separator; without one, the root is empty; the root of a non-empty path is strictly shorter and never the path itself |
| `Paths.DirectoryName` | ResignBSP/GitHelper.cs:110 | the result is the prefix before the last separator: a prefix of the path, shorter unless both are empty, and empty when the path has no separator |
| `Paths.CombineInjective` | ResignBSP/KitsHelper.cs:30 | combining one directory with two different relative names gives two different paths, each ending in its name |
| `Ordering.Sort` | ResignBSP/KitsHelper.cs:22-26 | the result is sorted and a permutation of the input |
| `Ordering.SortedUnique` | ResignBSP/KitsHelper.cs:22-26 | two sorted permutations of the same strings are equal, so the sort's result depends only on the multiset of names |
| `Ordering.Distinct` | ResignBSP/Program.cs:197 | no string occurs twice, and the result has exactly the input's members |
| `Ordering.SortedDistinct` | ResignBSP/Program.cs:197 | `Distinct().OrderBy(x => x)` is strictly ascending and has exactly the input's members |
| `Ordering.StrictlySortedUnique` | ResignBSP/Program.cs:197 | two strictly sorted sequences with the same members are equal |
| `Discovery.PackageRoots` | ResignBSP/Program.cs:194-197 | the roots are strictly ascending, and a directory is a root iff it is the parent path of some enumerated `.inf` file |
| `Discovery.PackageRootsOrderIndependent` | ResignBSP/Program.cs:191-197 | the roots depend only on which `.inf` files were enumerated, not on their order or repetition |
| `Discovery.PackageRootIsNotAFile` | ResignBSP/Program.cs:195 | each root comes from an `.inf` path and is strictly shorter than that (non-empty) path |
| `Discovery.GetDirectoriesWithInfs` | ResignBSP/Program.cs:189-209 | it throws iff the enumeration throws, with that exception; otherwise it returns exactly the package roots, nested ones included |
| `Discovery.KeepOutermostKeepsRoots` | ResignBSP/Program.cs:178-184 | the loop keeps only input directories, and keeps strict ascending order |
| `Discovery.KeepOutermostNoEarlierPrefix` | ResignBSP/Program.cs:178-184 | no kept directory has an earlier kept directory as a case-insensitive prefix |
| `Discovery.KeepOutermostCoversRoots` | ResignBSP/Program.cs:178-184 | every input directory is kept, or an earlier kept directory is a case-insensitive prefix of it |
| `Discovery.GetOutermostDirectoriesWithInfs` | ResignBSP/Program.cs:167-187 | it throws iff the `*.inf_` enumeration throws; otherwise the result is strictly ascending, contains only package roots, has no earlier case-insensitive prefix, and covers every root |
| `Discovery.GetFilesToSign` | ResignBSP/Program.cs:153-165 | it throws iff an enumeration throws, with the first exception in sys, dll, exe order; otherwise the result is the `.sys`, then the `.dll`, then the `.exe` files, each group in enumeration order |
| `KitsHelper.VersionNamesSpec` | ResignBSP/KitsHelper.cs:21 | the filter keeps every name with exactly three dots as often as it occurs, and no other name |
| `KitsHelper.GetInstalledKitToolsPaths` | ResignBSP/KitsHelper.cs:11-31 | it fails, always with "No Windows Kits is installed on the machine", iff the key is missing, `KitsRoot10` is missing or no name has three dots; otherwise it returns one path per qualifying name |
| `KitsHelper.ToolsPathsInVersionOrder` | ResignBSP/KitsHelper.cs:22-30 | for the qualifying names in ordinal order, entry `i` is `Combine(KitsRoot10, "bin", name_i)`; the parsed build number plays no part |
| `KitsHelper.ToolsPathsDistinct` | ResignBSP/KitsHelper.cs:30 | two different version names map to two different tool directories |
| `ResignBSP.FirstUsable` | ResignBSP/Program.cs:55-64 | the index found is that of a candidate with both tools, and no earlier candidate has both; none is found only when no candidate has both |
| `ResignBSP.Program.constructor` | ResignBSP/Program.cs:36-37 | the two static tool paths start at their hard-coded defaults, and nothing has happened yet |
| `ResignBSP.Program.SelectTools` | ResignBSP/Program.cs:55-64 | the fields end as the first candidate with both tools; failing that, as the last candidate; with no candidate, as they were |
| `ResignBSP.Program.SignFile` | ResignBSP/Program.cs:90-98 | exactly one signtool run, for the file, with the current signtool |
| `ResignBSP.Program.GenerateCatalog` | ResignBSP/Program.cs:107-139 | one pass of the root loop appends the optional resource warning, then the Inf2Cat runs; a throwing `*.cat_` enumeration appends nothing |
| `ResignBSP.Program.GenerateCatalogs` | ResignBSP/Program.cs:105-140 | the root loop appends the events of the passes up to the first that throws, and returns that exception |
| `ResignBSP.Program.SignCatalogs` | ResignBSP/Program.cs:144-150 | the signing loop appends one signtool run per enumerated catalog that is not a `.cat_` file |
| `ResignBSP.Program.ProcessPackages` | ResignBSP/Program.cs:105-150 | generation for all roots, then signing only if no root threw; the catalog enumeration's exception is returned |
| `ResignBSP.Program.ProcessDirectory` | ResignBSP/Program.cs:100-151 | the trace grows by exactly `ProcessSteps`, and the exception thrown is `ProcessSteps`' |
| `ResignBSP.Program.ProcessDirectories` | ResignBSP/Program.cs:78-81 | the target loop appends each target's events up to the first exception, and returns it |
| `ResignBSP.Program.Run` | ResignBSP/Program.cs:51-87 | the trace grows by exactly `RunSteps`: select the tools, check them, check the arguments, process the targets, and log the exception that ends the run; the static tool paths end as the selection loop leaves them, or unchanged when no kit is found |
| `ResignBSP.Program.CheckAndProcess` | ResignBSP/Program.cs:66-87 | once the tools are chosen, the trace grows by exactly `CheckedSteps`: the kits message if a selected tool is missing, else the arguments message if there are no targets, else the targets' events followed by the exception that ended them, if any |
| `ResignBSP.RootStepsStop` | ResignBSP/Program.cs:105-140 | once a root's pass throws, no later root is visited |
| `ResignBSP.TargetStepsStop` | ResignBSP/Program.cs:78-86 | an exception while processing one target stops all later targets |
| `Behaviour.RootStepsEvents` | ResignBSP/Program.cs:105-140 | the root loop never signs and never logs an error, and every Inf2Cat run uses the selected `inf2cat` |
| `Behaviour.SignStepsEvents` | ResignBSP/Program.cs:144-150 | the signing loop only runs signtool, always the selected one |
| `Behaviour.SignStepsInOrder` | ResignBSP/Program.cs:142-150 | the signing loop signs exactly the non-`.cat_` catalogs, in enumeration order |
| `Behaviour.SignStepsCount` | ResignBSP/Program.cs:142-150 | a `.cat_` file is never signed; any other catalog is signed once per time it is enumerated |
| `Behaviour.GenerationRuns` | ResignBSP/Program.cs:116-139 | for one root, the combined `/OS:6_3_ARM,10_RS3_ARM64` run comes first; `6_3_ARM` then `10_RS3_ARM64` follow iff it exits non-zero, whatever their own exit codes |
| `Behaviour.RootStepRuns` | ResignBSP/Program.cs:107-139 | the resource warning never prevents or alters a root's Inf2Cat runs |
| `Behaviour.GenerationCascade` | ResignBSP/Program.cs:105-140 | over distinct roots, each root gets exactly the cascade above, and a directory that is not a root gets no Inf2Cat run |
| `Behaviour.ResourceWarnings` | ResignBSP/Program.cs:105-113 | a root gets the RESOURCE PACKAGE warning iff it directly holds a `*.cat_` file |
| `Behaviour.ProcessStepsOrder` | ResignBSP/Program.cs:100-151 | after the first signtool run only signtool runs follow; nothing is signed unless the `.inf` enumeration and every root's pass succeeded; no error is logged; the selected tools are used |
| `Behaviour.PackageStepsOrder` | ResignBSP/Program.cs:105-150 | the same ordering, tool and no-error facts, once the roots are known |
| `Behaviour.ProcessStepsRuns` | ResignBSP/Program.cs:100-151 | for a target whose roots were all processed: a directory holding an `.inf` file gets the cascade, any other directory no Inf2Cat run; each catalog is signed once per enumeration, a `.cat_` file never |
| `Behaviour.TargetStepsEvents` | ResignBSP/Program.cs:78-81 | the target loop logs no error itself, and every run uses the selected tools |
| `Behaviour.CandidatesAt` | ResignBSP/Program.cs:55-58 | candidate `i` is `Combine(path_i, "x86", "Inf2Cat.exe")` with `Combine(path_i, "x64", "signtool.exe")` |
| `Behaviour.RunFailures` | ResignBSP/Program.cs:51-87 | at most one error is logged, as the last event; missing kits, or a selected tool pair that does not exist, log only the kits message; with both tools present, no arguments logs only the arguments message, and no target is processed |
| `Behaviour.RunFailsWithoutUsableKit` | ResignBSP/Program.cs:55-69 | when no kit version directory holds both tools, the run logs only the kits message, whatever the arguments |
| `Behaviour.RunUsesFirstUsableKit` | ResignBSP/Program.cs:53-64 | when some kit version holds both tools, every Inf2Cat and signtool run uses the first such version, in ordinal order of the names |
| `GitHelper.RenamePaths` | ResignBSP/GitHelper.cs:25-26 | each renamed entry contributes its new path, then its old path |
| `GitHelper.StatusMembers` | ResignBSP/GitHelper.cs:21-28 | a path is among a category's file paths iff some entry of that category has it |
| `GitHelper.RenameMembers` | ResignBSP/GitHelper.cs:25-26 | a path is among a rename category's paths iff some entry has it as its new or its old path |
| `GitHelper.CollectAllMembers` | ResignBSP/GitHelper.cs:30-108 | the eight loops collect a path iff some category lists it, non-null and non-empty |
| `GitHelper.CategoryOrderIrrelevant` | ResignBSP/GitHelper.cs:30-108 | the collected set does not depend on the order in which the categories are processed |
| `GitHelper.ChangedPathsSpec` | ResignBSP/GitHelper.cs:21-108 | a path is collected iff it is non-empty and some entry of some category reports it (both paths of a rename); the empty path never is |
| `GitHelper.AddAll` | ResignBSP/GitHelper.cs:30-38 | one loop adds exactly its non-null, non-empty elements to the set |
| `GitHelper.GetModifiedDirectoriesFromGitRepo` | ResignBSP/GitHelper.cs:10-112 | the result has no duplicates and holds exactly `Combine(root, DirectoryName(p))` for the collected paths `p` |
| `ByteExtensions.OccurrencesBelowSpec` | ResignBSP/ByteExtensions.cs:18-26 | the offsets collected below `n` are exactly the occurrences below `n`, strictly increasing, each within `0..|self|-|candidate|` |
| `ByteExtensions.IsMatch` | ResignBSP/ByteExtensions.cs:31-47 | true iff the candidate occurs at the position; false whenever it would run past the end |
| `ByteExtensions.Locate` | ResignBSP/ByteExtensions.cs:9-29 | empty for a null or empty array, a null or empty candidate, or a candidate longer than the array; otherwise every offset where the candidate occurs (overlaps included), strictly increasing, each within bounds |

## Left out

- Starting and waiting for processes: each Inf2Cat or signtool run is an `Event`.
  - Inf2Cat's exit code comes from an oracle in `Machine`.
  - Starting a process is assumed never to fail.
- The signtool credential arguments are redacted in the source; only "one signtool run per file" is modelled.
- Console output is not modelled: the banner, the colours, the "Generating catalog" and "Signing" lines, and the stack trace.
  - The RESOURCE PACKAGE warning and the logged exception message are kept as events.
- Registry access and LibGit2Sharp are not modelled.
  - Their results are inputs: the `Installed Roots` key and a repository status record.
  - Opening the repository never fails, and rename details are never null.
- `Directory.EnumerateFiles` and `File.Exists` are oracles.
  - Pattern matching is left to the oracle. On Windows `*.cat` also matches `.cat_` files, which is why the signing filter exists.
  - The same query always gives the same enumeration.
- `OrderBy` on strings is culture-sensitive. The model sorts in ordinal order (character codes).
- `ToLower` lowers ASCII letters only.
- Paths.Combine and Paths.DirectoryName are simplified versions of the .NET rules:
  - `\` and `/` both separate, but only `\` is ever inserted;
  - an empty part is skipped and a rooted part replaces what came before;
  - no `/` normalisation, no UNC paths, no invalid-character checks;
  - DirectoryName keeps doubled separators: for `a\\b` it gives `a\`, where .NET strips every trailing separator and gives `a`;
  - DirectoryName drops the root's separator: for `C:\a` it gives `C:`, where .NET gives `C:\`;
  - git reports only repository-relative paths with single separators, so neither difference reaches `GetModifiedDirectoriesFromGitRepo`.
- Character comparison is simplified in two ways:
  - Ordering.Below compares Unicode scalar values, where .NET ordinal order compares UTF-16 code units. The two orders differ only for characters above U+FFFF.
  - `StartsWith` (Program.cs:180) and `EndsWith` (Program.cs:146) are culture-sensitive in .NET. Paths.StartsWithIgnoringCase and Paths.EndsWith test an exact prefix and suffix.
- The `ulong.TryParse` in the sort key of `GetInstalledKitToolsPaths` has no effect on the result, so it is not modelled.
- GitHelper.GetModifiedDirectoriesFromGitRepo: the order of the result is the iteration order of a `HashSet`, which .NET leaves unspecified.
  - The contract states the members and the absence of duplicates, not the order.
- ByteExtensions.Locate: the source returns one shared empty `int[]` for every empty result. The model returns an empty sequence, so object identity is not captured.
- Not modelled (outside the core): `Logging` and the `Main` banner. `GetFilesToSign` and `GetDirectoriesWithInfs_` are modelled although nothing in `Main` calls them.
