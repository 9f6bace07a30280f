# renovate-config-init in Dafny

A model of the core of `renovate-config-init`, the command line that sets up Renovate
configuration files for a project. It has three parts:

- **Configuration generator** (`generator.ts` and its compiled twin `generator.js`). It builds
  preset addresses of the form `github>scottlz0310/renovate-config//presets/<category>/<preset>`.
  The root configuration's `extends` list is an insertion-ordered set: the default preset first,
  then languages, tools and options. The output files are the root file plus one file per
  package, each package pointing back to the root by a relative path.
- **Detector** (`detector.ts` and `detector.js`). An ordered rule table maps file-name patterns to
  presets. Detection in a directory yields at most one result per rule, in table order. Workspace
  discovery finds `packages|apps|libs|services/*/package.json`. The scan records the root and each
  package, and all detected preset ids are collected into one set.
- **Command line selection** (`main` in `dist/index.js`):
  - argument parsing;
  - the `--presets` list (split on ',', trimmed, classified into languages, tools, options or
    unknown, failing on any unknown entry, deduplicated per category);
  - `--yes` auto-selection by rule category;
  - the `--output` redirection of the root file;
  - the order in which `main` takes these decisions.

Files:

| file | module | contents |
|---|---|---|
| `Wrappers.dfy` | `Wrappers` | `Option` and `Result` |
| `Seqs.dfy` | `Seqs` | generic indexing facts used by the proofs |
| `Strings.dfy` | `Strings` | `split` on one character, `join`, ECMAScript `trim`, prefix and suffix tests |
| `OrderedSet.dfy` | `OrderedSet` | a JavaScript `Set` as a duplicate-free sequence in insertion order (`Add`, `AddAll`, `Dedup`) |
| `Paths.dfy` | `Paths` | `join`, `dirname`, `isAbsolute`, `extname(p) === ".json"` and `relative(join(root, pkg), root)` over '/'-separated paths |
| `Generator.dfy` | `Generator` | `buildPresetRef`, `generateRootConfig`, `generatePackageConfig`, `prepareOutputFiles` |
| `Detector.dfy` | `Detector` | the rule tables, matching, `detectPresetsInDir`, `findMonorepoPackages`, `scanProject`, `getAllDetectedPresets` |
| `Cli.dfy` | `Cli` | `parseArgs`, the `--presets` block, `--yes`, `--output`, and `main` as a function of its inputs |

Modelling choices:

- **Rule tables.** The rule table is a parameter of every detector operation.
  - `SourceRules` is the table of `detector.ts`: eight language rules and `precommit`.
  - `DistRules` is the table of `detector.js`: the same languages, then `biome`, `precommit` and `lefthook`.
  - The command line runs with `DistRules`, because `dist/index.js` imports the compiled detector.
- **The project on disk** is the sequence of its regular files, as paths relative to the project
  directory. A directory listing is `DirFiles(files, dir)`. A glob pattern is a literal name or
  `*` followed by a suffix. As with fast-glob's defaults, `*` does not match a name that starts
  with '.'.
- **Configurations** are values: a `$schema` string and the `extends` list. JSON text is not modelled.
- **Loops are methods.** The loops of the source are Dafny methods:
  - `GenerateRootConfig`/`AddCategory`, `PrepareOutputFiles`;
  - `DetectPresetsInDir`, `ScanProject`/`ScanPackages`;
  - `GetAllDetectedPresets`/`AddPresets`;
  - `ParseArgs`/`ReadFlag`, `ClassifyPresets`.

  Each is proved equal to a specification function, and the properties are proved about that function.
- **`--output`.** The source mutates the one root object of the file array in place.
  `OverrideOutput` returns the array with that element replaced.
- **Unknown presets.** The warning logged first says unknown entries are ignored, but the
  code always stops: the inner `if (args.presets)` at `dist/index.js:105` is always true
  inside the block that requires it. The model follows the
  code (`SelectFromPresets` fails, `Run` returns `UnknownPresets`).
- **`=` in flag values.** In the `--flag=value` form the value is `split("=")[1]`, so it ends at
  the next '='. `EqualsFormValue` states this as written.

## Model

| member | source | states |
|---|---|---|
| Strings.Split | dist/index.js:83-85 | there is always at least one part, no part contains the separator, and there is exactly one part iff the separator does not occur |
| Strings.JoinSplit | dist/index.js:73-74 | joining the parts of a split with the separator gives back the original string |
| Strings.SplitJoin | dist/index.js:73-74 | splitting a join of separator-free parts gives back those parts |
| Strings.SplitConcat | dist/index.js:83-85 | a separator between two strings splits exactly there: the parts of the left followed by the parts of the right |
| Strings.SplitNoSeparator | dist/index.js:84-85 | a string without the separator is its own single part |
| Strings.TrimStart | dist/index.js:75 | the result is a suffix of the input; everything dropped is whitespace; the result is empty or starts with non-whitespace |
| Strings.TrimEnd | dist/index.js:75 | the result is a prefix of the input; everything dropped is whitespace; the result is empty or ends with non-whitespace |
| Strings.Trim | dist/index.js:75 | the result has no whitespace at either end, is no longer than the input, and a trimmed string is left unchanged |
| Strings.TrimStartSkips | dist/index.js:75 | trimming the start of whitespace followed by text that starts with non-whitespace yields exactly that text |
| Strings.TrimEndSkips | dist/index.js:75 | trimming the end of text that ends with non-whitespace followed by whitespace yields exactly that text |
| Strings.TrimUnique | dist/index.js:75 | whitespace on both sides of a trimmed string is exactly what trim removes |
| OrderedSet.AddAll | packages/cli/src/generator.ts:33-46 | adding to a set keeps its old elements in front, holds exactly the old elements and the added ones, stays duplicate-free, and grows by at most the number added |
| OrderedSet.Dedup | dist/index.js:110-114 | `Array.from(new Set(xs))` is duplicate-free, has exactly the elements of xs, and is no longer |
| OrderedSet.AddAllConcat | packages/cli/src/generator.ts:36-46 | adding xs and then ys to a set is adding xs + ys |
| OrderedSet.AddAllFresh | packages/cli/src/generator.ts:36-46 | elements none of which is in the set are appended to it as a set of their own |
| OrderedSet.DedupOfNoDup | dist/index.js:110-114 | a duplicate-free list passes through the set unchanged |
| OrderedSet.DedupKeepsLength | dist/index.js:110-114 | the set keeps the length of a list iff the list has no duplicates |
| OrderedSet.DedupFirstOccurrenceOrder | dist/index.js:110-114 | the set lists its elements in the order of their first occurrence |
| Paths.Join | packages/cli/src/generator.ts:70 | the joined path is never empty; two real operands are joined with one '/' between them; an empty or "." base contributes nothing |
| Paths.Dirname | packages/cli/src/detector.ts:180 | a path without '/' has dirname "."; otherwise the path is its dirname, a '/' and its last segment |
| Paths.HasJsonExtension | dist/index.js:142 | a path with the `.json` extension is longer than five characters and ends with `.json` |
| Paths.RelativeToRoot | packages/cli/src/generator.ts:81 | the way back from a package is empty at depth 0, and otherwise consists of exactly one ".." segment per level of depth |
| Paths.DirnameOfChild | packages/cli/src/detector.ts:180 | the dirname of dir + "/" + name is dir |
| Paths.RelativeLeadsToRoot | packages/cli/src/generator.ts:81 | following the relative path from a package directory leads back to the root |
| Paths.PlainRelativeDepth | packages/cli/src/generator.ts:81 | for a plain relative package path the way back is one ".." per segment |
| Paths.RelativeToRootTwoLevels | packages/cli/src/generator.ts:81 | a package two plain levels deep points back to the root with "../.." |
| Generator.PresetRefDefault | packages/cli/src/generator.ts:24-29 | every address starts with the registry prefix; the default category gives the fixed default address whatever the preset, and no other category gives it |
| Generator.RegistryPrefixValue | packages/cli/src/generator.ts:7-9 | the registry prefix is `github>scottlz0310/renovate-config//presets/` |
| Generator.DefaultRefValue | packages/cli/src/generator.ts:26 | the default address is `github>scottlz0310/renovate-config//presets/default` |
| Generator.PresetRefInjective | packages/cli/src/generator.ts:28 | for non-default categories without '/', two addresses are equal iff category and preset are equal, so one preset id in two categories gives two addresses |
| Generator.PackageConfig | packages/cli/src/generator.ts:54-59 | a package configuration has the schema URL and extends exactly the one given path |
| Generator.RootFile | packages/cli/src/generator.ts:66-76 | the root file is marked as the root and holds the schema and the root `extends` of the selection |
| Generator.RootFileLocation | packages/cli/src/generator.ts:69-72 | the root file's path ends with `renovate.json` and its display path is `./renovate.json` |
| Generator.PackageFile | packages/cli/src/generator.ts:79-90 | a package file is not the root and holds the package configuration whose only `extends` entry is the way back to the root |
| Generator.PackageFileLocation | packages/cli/src/generator.ts:80-87 | a package file's path ends with `renovate.json` and its display path is `./<pkg>/renovate.json` |
| Generator.Refs | dist/generator.js:19-27 | the addresses of a category's presets, one per preset, in order |
| Generator.RefsMembers | dist/generator.js:19-27 | an address is among a category's addresses iff it is the address of one of its presets |
| Generator.RefsDisjoint | packages/cli/src/generator.ts:36-46 | addresses of two different listed categories never coincide, and none is the default address |
| Generator.RefsNoDup | packages/cli/src/generator.ts:36-46 | distinct presets give distinct addresses |
| Generator.RootExtends | packages/cli/src/generator.ts:31-52 | the root `extends` starts with the default address, has no duplicates, and has at most 1 + languages + tools + options entries |
| Generator.GenerateRootConfig | packages/cli/src/generator.ts:31-52 | the three add loops build the schema and the `extends` set described by RootExtends |
| Generator.AddCategory | dist/generator.js:19-27 | one category loop adds that category's addresses to the set in order |
| Generator.RootExtendsLayout | packages/cli/src/generator.ts:33-50 | `extends` is the default address, then the deduplicated language, tool and option addresses, in that order |
| Generator.RootExtendsMembers | packages/cli/src/generator.ts:33-46 | an address is in `extends` iff it is the default or the address of a selected language, tool or option |
| Generator.RootExtendsExactLength | packages/cli/src/generator.ts:36-46 | with duplicate-free inputs `extends` has exactly 1 + languages + tools + options entries |
| Generator.DedupRefs | packages/cli/src/generator.ts:36-46 | deduplicating a category's addresses is taking the addresses of its deduplicated presets |
| Generator.RootExtendsIgnoresRepeats | packages/cli/src/generator.ts:36-46 | repeating a preset in the selection does not change `extends` |
| Generator.PackageFiles | packages/cli/src/generator.ts:79-90 | one package file per package path, in input order |
| Generator.OutputFiles | packages/cli/src/generator.ts:61-93 | 1 + packages files: the root file first, then the file of each package path in order, and only the first is the root |
| Generator.PrepareOutputFiles | dist/generator.js:39-63 | the push loop produces exactly OutputFiles |
| Generator.PackageFileInheritsRoot | packages/cli/src/generator.ts:79-83 | a package file's only `extends` entry is its way back to the root, following it from the package directory reaches the root, and for a plain path it has one ".." per segment |
| Generator.NodejsRefValue | packages/cli/test/generator.test.ts:21 | the nodejs language address spelled out |
| Generator.AutomergeRefValue | packages/cli/test/generator.test.ts:25 | the automerge option address spelled out |
| Generator.OneLanguageOneOption | packages/cli/src/generator.ts:33-46 | one language and one option give exactly the default, that language and that option, in order |
| Generator.GeneratorTestExample | packages/cli/test/generator.test.ts:5-27 | languages [nodejs] and options [automerge] give exactly the three addresses the test expects |
| Generator.EmptySelectionExample | packages/cli/src/generator.ts:33-34 | an empty selection extends only the default preset |
| Detector.Glob | dist/detector.js:126-130 | a name is matched iff it is listed and matches one of the patterns; nothing is invented |
| Detector.Matches | dist/detector.js:126-130 | a matched name ends with the literal part of the pattern, and a name starting with '.' is matched only by the literal pattern equal to it |
| Detector.GlobFindsLiteral | dist/detector.js:126-130 | a listed name equal to a literal pattern is always matched |
| Detector.DirFiles | packages/cli/src/detector.ts:146-150 | the listing of one directory level holds names without '/', each of them a file of that directory (`dir/name`, or `name` in the project directory), and is no longer than the project |
| Detector.DirFilesHasChild | packages/cli/src/detector.ts:146-150 | a file dir/name is listed in dir under its name |
| Detector.DirFilesHasTopLevel | packages/cli/src/detector.ts:146-150 | a file without '/' is listed in the project directory |
| Detector.FiresOnlyInDir | packages/cli/src/detector.ts:146-152 | a rule fires in a directory only through a file directly inside it whose name matches one of the rule's patterns |
| Detector.Detect | packages/cli/src/detector.ts:141-163 | a rule contributes at most one result, so there are never more results than rules |
| Detector.DetectPresetsInDir | packages/cli/src/detector.ts:141-163 | the rule loop pushes exactly the results of Detect |
| Detector.DetectOne | dist/detector.js:131-138 | a single rule contributes its result iff it matched something |
| Detector.DetectAppend | dist/detector.js:125-139 | the results of two tables in sequence are the results of each, in table order |
| Detector.DetectAtRule | dist/detector.js:125-139 | each rule's result sits between the results of the rules before it and after it |
| Detector.DetectMembers | packages/cli/src/detector.ts:152-158 | a result occurs iff some rule matched and the result copies that rule and its matches |
| Detector.DetectMatchedFiles | packages/cli/src/detector.ts:152-158 | every result has non-empty matches, carries some rule's preset, category and label, and its matches are listed names matching that rule |
| Detector.DetectDistinct | packages/cli/src/detector.ts:145-162 | with distinct preset ids in the table, no two results have the same preset |
| Detector.DetectLiteral | packages/cli/src/detector.ts:145-162 | a rule whose literal pattern names a listed file always yields its result |
| Detector.LanguageRulesAreLanguages | packages/cli/src/detector.ts:48-103 | every rule of the language part is in `languages` |
| Detector.SourceRulesCategories | packages/cli/src/detector.ts:48-111 | the source table has nine rules and its only `tools` rule is the last, `precommit` |
| Detector.DistRulesCategories | dist/detector.js:14-94 | the compiled table has eleven rules; the last three, `biome`, `precommit` and `lefthook`, are exactly its `tools` rules |
| Detector.LanguageRulesDistinct | packages/cli/src/detector.ts:48-103 | the language rules have distinct preset ids |
| Detector.RuleTablesDistinct | dist/detector.js:14-94 | both tables have distinct preset ids |
| Detector.LanguagesBeforeTools | dist/detector.js:125-139 | results list the language detections first, then the tool detections |
| Detector.LefthookDetected | dist/detector.js:83-93 | a directory holding `.lefthook.yml` yields a `lefthook` result in `tools` |
| Detector.FindMonorepoPackages | packages/cli/src/detector.ts:165-181 | no more directories than project files |
| Detector.IsWorkspaceManifest | packages/cli/src/detector.ts:168-173 | a workspace-pattern match contains '/' and ends with `package.json` |
| Detector.ManifestShape | packages/cli/src/detector.ts:168-173 | a workspace manifest is `<root>/<name>/package.json` and its dirname is `<root>/<name>` |
| Detector.PackageDirsFromManifests | packages/cli/src/detector.ts:175-180 | every discovered directory is the dirname of a workspace manifest of the project |
| Detector.ManifestsFound | packages/cli/src/detector.ts:175-180 | the dirname of every workspace manifest of the project is discovered |
| Detector.PackageDirShape | packages/cli/src/detector.ts:168-180 | a discovered directory lists its `package.json`, and its way back to the project is "../.." |
| Detector.ScanProject | packages/cli/src/detector.ts:183-210 | the root record is (cwd, ".", root detections); one package record per discovered directory in order, with path join(cwd, dir), relative path dir and that directory's detections; monorepo iff any directory was discovered |
| Detector.ScanPackages | packages/cli/src/detector.ts:188-199 | the package loop records each directory in order |
| Detector.PackagesDetectNodejs | packages/cli/src/detector.ts:50-55 | with either table, every discovered package is detected as `nodejs` |
| Detector.PresetIds | packages/cli/src/detector.ts:215-217 | the preset ids of a result list, in order |
| Detector.PackagesPresetIds | packages/cli/src/detector.ts:219-223 | every preset id of every result of every package is collected |
| Detector.AllPresetIds | packages/cli/src/detector.ts:212-226 | the collected ids start with the root's preset ids, in order, before any package's |
| Detector.AddPresets | packages/cli/src/detector.ts:215-217 | one inner loop adds the preset ids of a result list to the set in order |
| Detector.GetAllDetectedPresets | packages/cli/src/detector.ts:212-226 | the set is the deduplicated preset ids of the root, then of each package in order |
| Detector.PackagesPresetIdsMembers | packages/cli/src/detector.ts:219-223 | an id comes from the packages iff some result of some package has it |
| Detector.AllDetectedPresetsMembers | dist/detector.js:181-192 | the aggregated set has no duplicates and holds p iff some result of the root or of a package has preset p |
| Detector.LefthookProjectExample | test/detector.test.ts:29-47 | a project with `.lefthook.yml` at its root has a `lefthook` root detection and `lefthook` in the aggregated set |
| Cli.FindWithPrefix | dist/index.js:18 | nothing is found iff no argument has the prefix; otherwise the result is the first argument with it |
| Cli.IndexOf | dist/index.js:23 | -1 iff absent, otherwise the first position of the argument |
| Cli.ValueAfterEquals | dist/index.js:20 | the value read from `--flag=...` never contains '=', and is empty when the argument has no '=' |
| Cli.FlagValue | dist/index.js:18-26 | a `--flag=` argument always gives a value; a value comes only from such an argument or from a `--flag` followed by another argument |
| Cli.ParseArgs | dist/index.js:10-38 | `yes` iff `--yes` or `-y`; `dryRun` iff `--dry-run`; `help` iff `--help` or `-h`; `presets` and `output` are the flag values |
| Cli.ReadFlag | dist/index.js:17-26 | reading one flag gives its flag value |
| Cli.FlagValueCases | dist/index.js:18-36 | the first `--flag=` argument decides the value; without one there is a value iff `--flag` occurs before the last argument, and it is the argument after its first occurrence |
| Cli.EqualsFormValue | dist/index.js:20 | the `=` form yields the value up to its next '=', and the whole value when it has none |
| Cli.TrimmedNonEmpty | dist/index.js:75-76 | the kept entries are non-empty and trimmed, and no more than the parts |
| Cli.TrimmedNonEmptyMembers | dist/index.js:75-76 | an entry is kept iff it is non-empty and the trim of some part |
| Cli.TrimmedNonEmptyConcat | dist/index.js:75-76 | trimming and filtering keep the parts' order: the entries of a + b are those of a, then those of b |
| Cli.PresetList | dist/index.js:73-76 | every entry of the preset list is non-empty, trimmed and free of ',' |
| Cli.PresetListMembers | dist/index.js:73-76 | a name is in the preset list iff it is non-empty and the trim of some ','-separated part of the flag value |
| Cli.PresetListConcat | dist/index.js:73-76 | a ',' splits the list in order: the entries before it, then the entries after it |
| Cli.PresetListOfEntry | dist/index.js:73-76 | one entry with whitespace around it reads as exactly that entry |
| Cli.PresetListOfPair | dist/index.js:73-76 | two entries written with ", " between them read back as those two, in order |
| Cli.PaddedPresetsExample | dist/index.js:73-76 | `--presets "nodejs, typescript"` gives the list [nodejs, typescript] |
| Cli.TrimmedNonEmptyKeeps | dist/index.js:75-76 | parts that are already non-empty and trimmed all survive unchanged |
| Cli.PresetListRoundTrip | dist/index.js:73-76 | a list written with ',' between non-empty trimmed entries reads back as exactly those entries |
| Cli.HintedEntry | dist/index.js:83-85 | `category/name` has hint category and preset name name |
| Cli.PlainEntry | dist/index.js:83-85 | an entry without '/' has no hint and is its own preset name |
| Cli.Classify | dist/index.js:86-100 | a name with a language rule is a language; an entry is unknown iff it has no `languages/` or `tools/` hint, no rule of either category and is no option preset; a known entry keeps its preset name and an unknown one its whole text |
| Cli.ClassifyOrder | dist/index.js:86-100 | the order of the tests: a `languages/` hint or a language rule makes a language; otherwise a `tools/` hint or a tool rule makes a tool; otherwise an option preset makes an option |
| Cli.Classified | dist/index.js:81-101 | one classification per entry, in order |
| Cli.ClassifyPresets | dist/index.js:77-101 | the loop with its `continue`s fills the four lists exactly as Sorted does |
| Cli.GatherPartition | dist/index.js:81-101 | every classified entry lands in exactly one list |
| Cli.GatherMembers | dist/index.js:81-101 | each list holds exactly the names of its kind of classification |
| Cli.GatherConcat | dist/index.js:81-101 | each of the four lists receives its names in the order of the entries |
| Cli.ClassifiedMembers | dist/index.js:81-101 | a classification occurs iff some entry receives it |
| Cli.SortedPartition | dist/index.js:81-101 | every entry of the preset list lands in exactly one of the four lists |
| Cli.SortedMembers | dist/index.js:86-100 | a name is in the languages, tools, options or unknown list iff some entry is classified that way with that name |
| Cli.SortedUnknown | dist/index.js:100-102 | the unknown list is empty iff no entry is unrecognised |
| Cli.SelectFromPresets | dist/index.js:102-114 | an error carries a non-empty list of unknown entries; a selection is duplicate-free in each category |
| Cli.SelectFromPresetsSpec | dist/index.js:72-115 | the run fails iff some entry is unrecognised; otherwise each category holds exactly the names classified into it |
| Cli.LanguageRuleBeatsToolsHint | dist/index.js:86-95 | a name with a language rule is a language even under the `tools/` hint |
| Cli.ToolsNodejsIsLanguage | dist/index.js:86-90 | with the compiled table, `tools/nodejs` is selected as a language |
| Cli.OfCategory | dist/index.js:120-121 | the filter keeps exactly the detected presets that have a rule of the category, and keeps them duplicate-free |
| Cli.OfCategoryConcat | dist/index.js:120-121 | the filter keeps the detected order: filtering a + b is filtering a, then b |
| Cli.AutoSelect | dist/index.js:116-123 | `--yes` selects no options, and a name as a language (tool) iff it was detected and has a language (tool) rule |
| Cli.AutoSelectFromScan | dist/index.js:116-123 | `--yes` selects each detected preset with a rule once, in the languages or the tools but not both, and no options |
| Cli.FirstRootIndex | dist/index.js:144 | no position iff no file is the root; otherwise the first root file |
| Cli.OverrideOutput | dist/index.js:139-159 | same number of files, configurations and root flags kept, and every file other than the first root file unchanged |
| Cli.RedirectedShape | dist/index.js:142-157 | the display path starts with '.'; a `.json` target becomes the root file's path; any other target receives `renovate.json` in both paths |
| Cli.DisplayForm | dist/index.js:149 | the shown location is the given one when that starts with '.', and "./" followed by it otherwise |
| Cli.Redirected | dist/index.js:146-157 | redirecting the root file keeps its configuration and its root flag; where it goes is stated by RedirectedTarget |
| Cli.RedirectedTarget | dist/index.js:142-157 | a `.json` target becomes the root file's path (absolute as given, else joined to cwd), shown in DisplayForm; any other target gets `join(fullPath, "renovate.json")`, shown as DisplayForm followed by `/renovate.json` |
| Cli.OutputFileExample | dist/index.js:146-150 | `--output out.json` writes `cwd/out.json`, shown as `./out.json` |
| Cli.OutputDirectoryExample | dist/index.js:152-157 | `--output config` writes `cwd/config/renovate.json`, shown as `./config/renovate.json` |
| Cli.OverrideGeneratedFiles | dist/index.js:137-159 | on generated files the override replaces the first file and keeps the rest |
| Cli.RelativePaths | dist/index.js:136 | the packages' relative paths, in scan order |
| Cli.PlannedFiles | dist/index.js:135-159 | the planned files are 1 + packages: the root first and only there, holding the selection's configuration, then each scanned package's file in scan order, untouched by `--output` |
| Cli.PlannedRootFile | dist/index.js:135-159 | the planned root file is the generated root file, redirected by `--output` exactly when an output location was given |
| Cli.ChooseSelection | dist/index.js:72-134 | with `--presets` the selection is SelectFromPresets' result, failing iff it fails with a non-empty list of unknown entries; otherwise with `--yes` it is AutoSelect of the deduplicated detected presets; otherwise it is the prompt's answer |
| Cli.Run | dist/index.js:55-184 | help is shown iff asked for; otherwise a failed selection ends with its unknown entries, a cancelled prompt ends cancelled, and a selection gives a dry run of its planned files with `--dry-run`, a write of them with `--yes` or a confirmation, and a cancellation otherwise |
| Cli.WrittenFiles | dist/index.js:135-180 | a completed run writes 1 + packages files, the root first and only once, then each package's file in scan order |
| Cli.UnknownPresetsStop | dist/index.js:102-109 | unknown presets end the run before anything is prompted, confirmed or written |
| Cli.YesNeverAsks | dist/index.js:116-178 | with `--yes` neither the prompt's answer nor the confirmation changes the outcome |

## Left out

- `writeOutputFiles` (directory creation and file writes) is filesystem I/O. The written text `content + "\n"` is not modelled, because configurations are values, not JSON text.
- `JSON.stringify(config, null, 2)` formatting is left out for the same reason.
- fast-glob is a foreign library and its lazy import is left out. It is replaced by a directory listing and a matcher for a literal name or `*` followed by a suffix. Its full `deep` and dotfile rules are not modelled.
- The order of glob matches is taken to be the project's listing order. This holds both inside one rule with several patterns and across the four workspace patterns. fast-glob's own ordering is not modelled.
- `node:path` is modelled only for already normalised '/'-separated paths. `Paths.Join` does not remove "." segments, repeated or trailing '/' or "..", and `relative` is `Ups(Depth(pkg))` joined by '/'. `Paths.HasJsonExtension` looks at the last segment as split, so `out.json/` (which `extname` calls `.json`) is not a `.json` target in the model.
- Cli.Redirected: inherits these limits of `Paths.Join` and `Paths.HasJsonExtension`. For example `--output ./config` gives `<cwd>/./config/renovate.json` where node gives `<cwd>/config/renovate.json` (`dist/index.js:142-143`, `dist/index.js:154`).
- Detector.FindMonorepoPackages: its own contract only bounds the length. What it finds is stated by ManifestShape, PackageDirsFromManifests, ManifestsFound and PackageDirShape.
- Detection runs on each package directory's listing inside the one project listing, `DirFiles(files, dir)`. Absolute paths and the real file system are not modelled.
- The interactive prompts (`prompts.ts`, `prompts.js`), the spinner, console output, the dry-run printing and `process.exit` are left out.
  - The prompt's answer (`None` when cancelled) and the confirmation are inputs of `Run`.
  - An exit is an `Outcome`.
- `--output` mutates the root object of the file array in place. It is modelled as replacing that element, so aliasing of the array element is not modelled.
- `showHelp` text is left out. `--help` is the outcome `HelpShown`.
- The maintenance scripts (`validate-presets.js`, `check-lock-consistency.js`, `install-lefthook.js`) are not part of this model.
- The type declaration files (`.d.ts`) only shaped the datatypes.
- The `android` expectation of the detector test has no rule in either table, so it is not modelled.
