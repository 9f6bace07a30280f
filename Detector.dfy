/**
 * The project detector of packages/cli/src/detector.ts and dist/detector.js: a rule
 * table from file-name patterns to presets, detection in one directory, discovery of
 * workspace packages, the whole-project scan and the union of detected presets.
 *
 * A project is the list of its regular files as paths relative to the scanned
 * directory ("src/a.ts", "packages/web/package.json"); the glob engine is a directory
 * listing filtered by a matcher for the two pattern shapes the tables use.
 */
module Detector {
  import opened Wrappers
  import opened Strings
  import opened OrderedSet
  import opened Paths
  import opened Seqs

  datatype Category = Languages | Tools

  datatype Rule = Rule(preset: string, category: Category, displayLabel: string, patterns: seq<string>)

  datatype DetectionResult = DetectionResult(preset: string, category: Category, displayLabel: string, matchedFiles: seq<string>)

  /** A scanned directory: its path, its path relative to the project, and what it holds. */
  datatype PackageLocation = PackageLocation(path: string, relativePath: string, detectedPresets: seq<DetectionResult>)

  datatype ScanResult = ScanResult(root: PackageLocation, packages: seq<PackageLocation>, isMonorepo: bool)

  datatype OptionPreset = OptionPreset(preset: string, displayLabel: string, description: string)

  /** The language rules, identical in both copies of the table. */
  const LanguageRules: seq<Rule> := [
    Rule("nodejs", Languages, "Node.js", ["package.json"]),
    Rule("typescript", Languages, "TypeScript", ["tsconfig.json"]),
    Rule("python", Languages, "Python", ["pyproject.toml", "uv.lock"]),
    Rule("docker", Languages, "Docker",
      ["Dockerfile", "docker-compose.yml", "docker-compose.yaml", "compose.yml", "compose.yaml"]),
    Rule("go", Languages, "Go", ["go.mod"]),
    Rule("rust", Languages, "Rust", ["Cargo.toml"]),
    Rule("csharp", Languages, "C#", ["*.csproj", "*.sln"]),
    Rule("cpp", Languages, "C++", ["CMakeLists.txt", "conanfile.txt", "vcpkg.json"])
  ]

  /** The tool rules of packages/cli/src/detector.ts. */
  const SourceToolRules: seq<Rule> := [
    Rule("precommit", Tools, "Pre-commit", [".pre-commit-config.yaml"])
  ]

  /** The tool rules of dist/detector.js. */
  const DistToolRules: seq<Rule> := [
    Rule("biome", Tools, "Biome", ["biome.json", "biome.jsonc"]),
    Rule("precommit", Tools, "Pre-commit", [".pre-commit-config.yaml"]),
    Rule("lefthook", Tools, "Lefthook", [".lefthook.yml", ".lefthook.yaml", "lefthook.yml", "lefthook.yaml"])
  ]

  /** `DETECTION_RULES` of packages/cli/src/detector.ts. */
  const SourceRules: seq<Rule> := LanguageRules + SourceToolRules

  /** `DETECTION_RULES` of dist/detector.js, the table the command line runs with. */
  const DistRules: seq<Rule> := LanguageRules + DistToolRules

  /** `OPTION_PRESETS`, the same in both copies. */
  const OptionPresets: seq<OptionPreset> := [
    OptionPreset("automerge", "Auto-merge", "Auto-merge minor/patch updates"),
    OptionPreset("schedule", "Schedule", "Scheduled updates (Mon 3am JST)"),
    OptionPreset("security", "Security", "Prioritize security updates"),
    OptionPreset("production", "Production", "Conservative settings"),
    OptionPreset("monorepo", "Monorepo", "Monorepo-specific settings")
  ]

  /** No two rules of a table share a preset id. */
  predicate DistinctPresets(rules: seq<Rule>) {
    forall i, j :: 0 <= i < j < |rules| ==> rules[i].preset != rules[j].preset
  }

  /** Some rule of the table has this preset id and this category. */
  predicate HasRule(rules: seq<Rule>, preset: string, category: Category) {
    exists k :: 0 <= k < |rules| && rules[k].preset == preset && rules[k].category == category
  }

  // ---------------------------------------------------------------------------
  // Matching file names

  /**
   * A one-segment glob pattern against a file name: "*" followed by a suffix matches
   * every name with that suffix that does not start with '.', anything else matches
   * only itself.
   */
  predicate Matches(pattern: string, name: string)
    ensures Matches(pattern, name) ==> EndsWith(name, if |pattern| > 0 && pattern[0] == '*' then pattern[1..] else pattern)
    ensures Matches(pattern, name) && |name| > 0 && name[0] == '.' ==> name == pattern
  {
    if |pattern| > 0 && pattern[0] == '*' then
      |name| > 0 && name[0] != '.' && EndsWith(name, pattern[1..])
    else
      name == pattern
  }

  predicate MatchesAny(patterns: seq<string>, name: string) {
    exists k :: 0 <= k < |patterns| && Matches(patterns[k], name)
  }

  /** The names of a listing that match one of the patterns, in listing order. */
  function Glob(patterns: seq<string>, names: seq<string>): (r: seq<string>)
    ensures |r| <= |names|
    ensures forall n :: n in r <==> n in names && MatchesAny(patterns, n)
    decreases |names|
  {
    if names == [] then []
    else
      var init := Glob(patterns, names[..|names| - 1]);
      var n := names[|names| - 1];
      assert names == names[..|names| - 1] + [n];
      if MatchesAny(patterns, n) then init + [n] else init
  }

  /** A literal pattern finds the file of that name. */
  lemma GlobFindsLiteral(patterns: seq<string>, k: nat, names: seq<string>)
    requires k < |patterns| && patterns[k] != [] && patterns[k][0] != '*'
    requires patterns[k] in names
    ensures patterns[k] in Glob(patterns, names)
  {
    assert Matches(patterns[k], patterns[k]);
  }

  /**
   * The name of file f if it lies directly in directory dir of the project (dir "."
   * is the project directory itself); the listing of a glob with depth 1.
   */
  function ChildName(f: string, dir: string): (r: Option<string>)
    ensures r.Some? ==> '/' !in r.value && f == InDir(dir, r.value)
  {
    if dir == "." then
      if '/' !in f then Some(f) else None
    else if |f| > |dir| + 1 && f[..|dir| + 1] == dir + "/" && '/' !in f[|dir| + 1..] then
      var n := f[|dir| + 1..];
      assert f == f[..|dir| + 1] + n;
      Some(n)
    else
      None
  }

  /** The project path of the file called name in directory dir. */
  function InDir(dir: string, name: string): string {
    if dir == "." then name else dir + "/" + name
  }

  /**
   * The names of the files directly in dir, in project order: each is a name without
   * '/' of a file of the project lying in dir, so nothing deeper is listed.
   */
  function DirFiles(files: seq<string>, dir: string): (r: seq<string>)
    ensures |r| <= |files|
    ensures forall k :: 0 <= k < |r| ==> '/' !in r[k]
    ensures forall n :: n in r ==> InDir(dir, n) in files
    decreases |files|
  {
    if files == [] then []
    else
      var init := DirFiles(files[..|files| - 1], dir);
      InitLast(files);
      match ChildName(files[|files| - 1], dir)
      case Some(n) => init + [n]
      case None => init
  }

  /** A file dir + "/" + name is listed in dir under its name. */
  lemma {:induction false} DirFilesHasChild(files: seq<string>, dir: string, name: string)
    requires dir != "." && name != [] && '/' !in name
    requires dir + "/" + name in files
    ensures name in DirFiles(files, dir)
    decreases |files|
  {
    var last := files[|files| - 1];
    if last == dir + "/" + name {
      var f := last;
      assert f[..|dir| + 1] == dir + "/";
      assert f[|dir| + 1..] == name;
    } else {
      assert dir + "/" + name in files[..|files| - 1] by {
        assert files == files[..|files| - 1] + [last];
      }
      DirFilesHasChild(files[..|files| - 1], dir, name);
    }
  }

  /** A file without '/' is listed in the project directory. */
  lemma {:induction false} DirFilesHasTopLevel(files: seq<string>, name: string)
    requires '/' !in name
    requires name in files
    ensures name in DirFiles(files, ".")
    decreases |files|
  {
    var last := files[|files| - 1];
    if last != name {
      assert name in files[..|files| - 1] by {
        assert files == files[..|files| - 1] + [last];
      }
      DirFilesHasTopLevel(files[..|files| - 1], name);
    }
  }

  /**
   * A rule fires in a directory only through a file lying directly in it: a match
   * is a name without '/' of a project file in that directory.
   */
  lemma FiresOnlyInDir(rule: Rule, files: seq<string>, dir: string)
    requires Fires(rule, DirFiles(files, dir))
    ensures exists n :: '/' !in n && MatchesAny(rule.patterns, n) && InDir(dir, n) in files
  {
    var n := Glob(rule.patterns, DirFiles(files, dir))[0];
    assert n in DirFiles(files, dir);
  }

  // ---------------------------------------------------------------------------
  // Detection in one directory

  /** A rule fires in a directory when its patterns match some file there. */
  predicate Fires(rule: Rule, names: seq<string>) {
    Glob(rule.patterns, names) != []
  }

  /** The result a firing rule contributes: the rule's identity and what it matched. */
  function ResultOf(rule: Rule, names: seq<string>): DetectionResult {
    DetectionResult(rule.preset, rule.category, rule.displayLabel, Glob(rule.patterns, names))
  }

  /** The results of `detectPresetsInDir` for a directory listing: rule by rule, in table order. */
  function Detect(rules: seq<Rule>, names: seq<string>): (r: seq<DetectionResult>)
    ensures |r| <= |rules|
    decreases |rules|
  {
    if rules == [] then []
    else
      var rule := rules[|rules| - 1];
      var init := Detect(rules[..|rules| - 1], names);
      if Fires(rule, names) then init + [ResultOf(rule, names)] else init
  }

  /** `detectPresetsInDir`: pushes one result for each rule that matched, in table order. */
  method DetectPresetsInDir(rules: seq<Rule>, names: seq<string>) returns (results: seq<DetectionResult>)
    ensures results == Detect(rules, names)
  {
    results := [];
    for i := 0 to |rules|
      invariant results == Detect(rules[..i], names)
    {
      assert rules[..i + 1][..i] == rules[..i];
      var rule := rules[i];
      var matches := Glob(rule.patterns, names);
      if |matches| > 0 {
        results := results + [DetectionResult(rule.preset, rule.category, rule.displayLabel, matches)];
      }
    }
    assert rules[..|rules|] == rules;
  }

  /** Detection with a table of one rule: its result exactly when it fires. */
  lemma DetectOne(rule: Rule, names: seq<string>)
    ensures Detect([rule], names) == if Fires(rule, names) then [ResultOf(rule, names)] else []
  {
    assert [rule][..0] == [];
  }

  /** Detection over a table split in two is detection over each part, in order. */
  lemma {:induction false} DetectAppend(rules1: seq<Rule>, rules2: seq<Rule>, names: seq<string>)
    ensures Detect(rules1 + rules2, names) == Detect(rules1, names) + Detect(rules2, names)
    decreases |rules2|
  {
    if rules2 == [] {
      assert rules1 + rules2 == rules1;
    } else {
      var all := rules1 + rules2;
      assert all[..|all| - 1] == rules1 + rules2[..|rules2| - 1];
      DetectAppend(rules1, rules2[..|rules2| - 1], names);
    }
  }

  /**
   * Each rule contributes at most one result, at its own place: the results of the
   * rules before it, then its own result if it fires, then those of the rules after it.
   */
  lemma DetectAtRule(rules: seq<Rule>, i: nat, names: seq<string>)
    requires i < |rules|
    ensures Detect(rules, names) ==
      Detect(rules[..i], names)
      + (if Fires(rules[i], names) then [ResultOf(rules[i], names)] else [])
      + Detect(rules[i + 1..], names)
  {
    assert rules == rules[..i] + [rules[i]] + rules[i + 1..];
    DetectAppend(rules[..i] + [rules[i]], rules[i + 1..], names);
    DetectAppend(rules[..i], [rules[i]], names);
    DetectOne(rules[i], names);
  }

  /** A result is exactly the result of some rule of the table that fired. */
  lemma {:induction false} DetectMembers(rules: seq<Rule>, names: seq<string>, d: DetectionResult)
    ensures d in Detect(rules, names) <==>
      exists i :: 0 <= i < |rules| && Fires(rules[i], names) && d == ResultOf(rules[i], names)
    decreases |rules|
  {
    if rules != [] {
      DetectMembers(rules[..|rules| - 1], names, d);
      InitLast(rules);
      DetectMembersStep(rules, names, d);
    }
  }

  /** The inductive step of DetectMembers: one more rule at the end of the table. */
  lemma DetectMembersStep(rules: seq<Rule>, names: seq<string>, d: DetectionResult)
    requires rules != []
    requires d in Detect(rules[..|rules| - 1], names) <==>
      exists i :: 0 <= i < |rules| - 1 && Fires(rules[i], names) && d == ResultOf(rules[i], names)
    ensures d in Detect(rules, names) <==>
      exists i :: 0 <= i < |rules| && Fires(rules[i], names) && d == ResultOf(rules[i], names)
  {
    var init, last := rules[..|rules| - 1], rules[|rules| - 1];
    if d in Detect(rules, names) && d !in Detect(init, names) {
      assert Fires(last, names) && d == ResultOf(last, names);
    }
    if exists i :: 0 <= i < |rules| && Fires(rules[i], names) && d == ResultOf(rules[i], names) {
      var i :| 0 <= i < |rules| && Fires(rules[i], names) && d == ResultOf(rules[i], names);
      if i < |rules| - 1 {
        assert d in Detect(init, names);
      }
    }
  }

  /** What a result says matched is non-empty, is in the listing, and matches the rule. */
  lemma DetectMatchedFiles(rules: seq<Rule>, names: seq<string>, d: DetectionResult)
    requires d in Detect(rules, names)
    ensures d.matchedFiles != []
    ensures exists i ::
      && 0 <= i < |rules|
      && rules[i].preset == d.preset && rules[i].category == d.category
      && rules[i].displayLabel == d.displayLabel
      && (forall f :: f in d.matchedFiles ==> f in names && MatchesAny(rules[i].patterns, f))
  {
    DetectMembers(rules, names, d);
    var i :| 0 <= i < |rules| && Fires(rules[i], names) && d == ResultOf(rules[i], names);
  }

  /** With distinct preset ids in the table, no preset is detected twice in a directory. */
  lemma {:induction false} DetectDistinct(rules: seq<Rule>, names: seq<string>)
    requires DistinctPresets(rules)
    ensures var r := Detect(rules, names);
      forall j, k :: 0 <= j < k < |r| ==> r[j].preset != r[k].preset
    decreases |rules|
  {
    if rules != [] {
      var init, rule := rules[..|rules| - 1], rules[|rules| - 1];
      DetectDistinct(init, names);
      var prev := Detect(init, names);
      forall j | 0 <= j < |prev| ensures prev[j].preset != rule.preset {
        DetectMembers(init, names, prev[j]);
        var i :| 0 <= i < |init| && Fires(init[i], names) && prev[j] == ResultOf(init[i], names);
        assert init[i] == rules[i];
      }
    }
  }

  /** A rule one of whose literal patterns names a file of the directory is detected there. */
  lemma DetectLiteral(rules: seq<Rule>, i: nat, k: nat, names: seq<string>)
    requires i < |rules| && k < |rules[i].patterns|
    requires rules[i].patterns[k] != [] && rules[i].patterns[k][0] != '*'
    requires rules[i].patterns[k] in names
    ensures ResultOf(rules[i], names) in Detect(rules, names)
  {
    GlobFindsLiteral(rules[i].patterns, k, names);
    DetectMembers(rules, names, ResultOf(rules[i], names));
  }

  // ---------------------------------------------------------------------------
  // The two rule tables

  lemma LanguageRulesAreLanguages()
    ensures forall k :: 0 <= k < |LanguageRules| ==> LanguageRules[k].category == Languages
  {
  }

  /** In the TypeScript table the only tool rule is precommit; every other rule is a language. */
  lemma SourceRulesCategories()
    ensures |SourceRules| == 9
    ensures forall k :: 0 <= k < |SourceRules| ==>
      (SourceRules[k].category == Tools <==> k == 8) && (k == 8 ==> SourceRules[k].preset == "precommit")
  {
    LanguageRulesAreLanguages();
  }

  /** In the compiled table the tool rules are biome, precommit and lefthook, after all languages. */
  lemma DistRulesCategories()
    ensures |DistRules| == 11
    ensures forall k :: 0 <= k < |DistRules| ==> (DistRules[k].category == Tools <==> 8 <= k)
    ensures DistRules[8].preset == "biome" && DistRules[9].preset == "precommit"
      && DistRules[10].preset == "lefthook"
  {
    LanguageRulesAreLanguages();
  }

  lemma LanguageRulesDistinct()
    ensures DistinctPresets(LanguageRules)
  {
  }

  /** Both tables name each preset once. */
  lemma RuleTablesDistinct()
    ensures DistinctPresets(SourceRules)
    ensures DistinctPresets(DistRules)
  {
    LanguageRulesDistinct();
    var d := DistRules;
    assert d[8].preset == "biome" && d[9].preset == "precommit" && d[10].preset == "lefthook";
    forall i | 0 <= i < 8 ensures d[i].preset != "biome" && d[i].preset != "precommit" && d[i].preset != "lefthook" {
      assert d[i] == LanguageRules[i];
    }
  }

  /** Language results come first, tool results after them. */
  lemma LanguagesBeforeTools(tools: seq<Rule>, names: seq<string>)
    ensures Detect(LanguageRules + tools, names) == Detect(LanguageRules, names) + Detect(tools, names)
    ensures forall d :: d in Detect(LanguageRules, names) ==> d.category == Languages
  {
    DetectAppend(LanguageRules, tools, names);
    LanguageRulesAreLanguages();
    forall d | d in Detect(LanguageRules, names) ensures d.category == Languages {
      DetectMembers(LanguageRules, names, d);
    }
  }

  /** A directory holding `.lefthook.yml` yields the lefthook tool result (compiled table). */
  lemma LefthookDetected(names: seq<string>)
    requires ".lefthook.yml" in names
    ensures exists d :: d in Detect(DistRules, names) && d.preset == "lefthook" && d.category == Tools
  {
    var rule := DistRules[10];
    assert rule.patterns[0] == ".lefthook.yml";
    DetectLiteral(DistRules, 10, 0, names);
    assert ResultOf(rule, names).preset == "lefthook";
  }

  // ---------------------------------------------------------------------------
  // Workspace packages

  /** The directories whose children are workspace packages. */
  const WorkspaceRoots: seq<string> := ["packages", "apps", "libs", "services"]

  const ManifestName := "package.json"

  /** A match of one of the four workspace patterns: a workspace root, any visible name, "package.json". */
  predicate IsWorkspaceManifest(f: string)
    ensures IsWorkspaceManifest(f) ==> '/' in f && EndsWith(f, ManifestName)
  {
    var segs := Segments(f);
    LastSegmentSuffix(f);
    |segs| == 3 && segs[0] in WorkspaceRoots && Matches("*", segs[1]) && segs[2] == ManifestName
  }

  /** `findMonorepoPackages`: the directory of each workspace manifest, in project order. */
  function FindMonorepoPackages(files: seq<string>): (dirs: seq<string>)
    ensures |dirs| <= |files|
    decreases |files|
  {
    if files == [] then []
    else
      var init := FindMonorepoPackages(files[..|files| - 1]);
      var f := files[|files| - 1];
      if IsWorkspaceManifest(f) then init + [Dirname(f)] else init
  }

  /** A workspace manifest is a package directory w/n followed by "/package.json". */
  lemma ManifestShape(f: string)
    requires IsWorkspaceManifest(f)
    ensures var segs := Segments(f);
      Dirname(f) == segs[0] + "/" + segs[1] && f == Dirname(f) + "/" + ManifestName
  {
    var segs := Segments(f);
    JoinSplit(f, '/');
    assert segs[1..][1..] == [segs[2]];
    assert JoinWith(segs[1..], '/') == segs[1] + "/" + segs[2];
    assert f == segs[0] + "/" + segs[1] + "/" + segs[2];
    DirnameOfChild(segs[0] + "/" + segs[1], segs[2]);
  }

  /** Every discovered directory is the directory of a workspace manifest of the project. */
  lemma {:induction false} PackageDirsFromManifests(files: seq<string>, d: string)
    requires d in FindMonorepoPackages(files)
    ensures exists f :: f in files && IsWorkspaceManifest(f) && d == Dirname(f)
    decreases |files|
  {
    var init, f := files[..|files| - 1], files[|files| - 1];
    assert files == init + [f];
    if d in FindMonorepoPackages(init) {
      PackageDirsFromManifests(init, d);
      var g :| g in init && IsWorkspaceManifest(g) && d == Dirname(g);
      assert g in files;
    }
  }

  /** Every workspace manifest of the project has its directory discovered. */
  lemma {:induction false} ManifestsFound(files: seq<string>, f: string)
    requires f in files && IsWorkspaceManifest(f)
    ensures Dirname(f) in FindMonorepoPackages(files)
    decreases |files|
  {
    var init, last := files[..|files| - 1], files[|files| - 1];
    assert files == init + [last];
    if f != last {
      ManifestsFound(init, f);
    }
  }

  /**
   * A discovered package directory is two plain levels below the project, it holds its
   * manifest, and the way back to the project is "../..".
   */
  lemma PackageDirShape(files: seq<string>, d: string)
    requires d in FindMonorepoPackages(files)
    ensures ManifestName in DirFiles(files, d)
    ensures RelativeToRoot(d) == "../.."
  {
    PackageDirsFromManifests(files, d);
    var f :| f in files && IsWorkspaceManifest(f) && d == Dirname(f);
    ManifestShape(f);
    var segs := Segments(f);
    ManifestSegmentsPlain(f);
    RelativeToRootTwoLevels(segs[0], segs[1]);
    assert d != "." by {
      assert |d| > 2;
    }
    assert '/' !in ManifestName;
    DirFilesHasChild(files, d, ManifestName);
  }

  /** The two directory levels of a workspace manifest are plain names. */
  lemma ManifestSegmentsPlain(f: string)
    requires IsWorkspaceManifest(f)
    ensures var segs := Segments(f);
      && '/' !in segs[0] && segs[0] != "" && segs[0] != "." && segs[0] != ".."
      && '/' !in segs[1] && segs[1] != "" && segs[1] != "." && segs[1] != ".."
  {
    var segs := Segments(f);
    WorkspaceRootPlain(segs[0]);
    assert segs[1][0] != '.';
  }

  /** The workspace roots are ordinary directory names. */
  lemma WorkspaceRootPlain(r: string)
    requires r in WorkspaceRoots
    ensures r != "" && r != "." && r != ".."
  {
  }

  // ---------------------------------------------------------------------------
  // Scanning a project

  /**
   * `scanProject`: detection in the project directory, then one package record per
   * discovered workspace directory, in discovery order.
   */
  method ScanProject(rules: seq<Rule>, cwd: string, files: seq<string>) returns (scan: ScanResult)
    ensures scan.root == PackageLocation(cwd, ".", Detect(rules, DirFiles(files, ".")))
    ensures |scan.packages| == |FindMonorepoPackages(files)|
    ensures forall i :: 0 <= i < |scan.packages| ==>
      var dir := FindMonorepoPackages(files)[i];
      scan.packages[i] == PackageLocation(Join(cwd, dir), dir, Detect(rules, DirFiles(files, dir)))
    ensures scan.isMonorepo <==> FindMonorepoPackages(files) != []
  {
    var rootPresets := DetectPresetsInDir(rules, DirFiles(files, "."));
    var packageDirs := FindMonorepoPackages(files);
    var isMonorepo := |packageDirs| > 0;
    var packages := ScanPackages(rules, cwd, files, packageDirs);
    scan := ScanResult(PackageLocation(cwd, ".", rootPresets), packages, isMonorepo);
  }

  /** The package loop of `scanProject`: one record per directory, in order. */
  method ScanPackages(rules: seq<Rule>, cwd: string, files: seq<string>, packageDirs: seq<string>)
    returns (packages: seq<PackageLocation>)
    ensures |packages| == |packageDirs|
    ensures forall i :: 0 <= i < |packageDirs| ==>
      packages[i] == PackageLocation(Join(cwd, packageDirs[i]), packageDirs[i],
        Detect(rules, DirFiles(files, packageDirs[i])))
  {
    packages := [];
    for i := 0 to |packageDirs|
      invariant |packages| == i
      invariant forall j :: 0 <= j < i ==>
        packages[j] == PackageLocation(Join(cwd, packageDirs[j]), packageDirs[j],
          Detect(rules, DirFiles(files, packageDirs[j])))
    {
      var fullPath := Join(cwd, packageDirs[i]);
      var presets := DetectPresetsInDir(rules, DirFiles(files, packageDirs[i]));
      packages := packages + [PackageLocation(fullPath, packageDirs[i], presets)];
    }
  }

  /**
   * Every discovered package detects the nodejs rule from its own manifest, with either
   * table.
   */
  lemma PackagesDetectNodejs(rules: seq<Rule>, files: seq<string>, d: string)
    requires rules == SourceRules || rules == DistRules
    requires d in FindMonorepoPackages(files)
    ensures ResultOf(rules[0], DirFiles(files, d)) in Detect(rules, DirFiles(files, d))
    ensures rules[0].preset == "nodejs" && rules[0].category == Languages
  {
    PackageDirShape(files, d);
    assert rules[0] == LanguageRules[0];
    assert rules[0].patterns[0] == ManifestName;
    DetectLiteral(rules, 0, 0, DirFiles(files, d));
  }

  // ---------------------------------------------------------------------------
  // The union of detected presets

  function PresetIds(results: seq<DetectionResult>): (ids: seq<string>)
    ensures |ids| == |results|
    ensures forall k :: 0 <= k < |results| ==> ids[k] == results[k].preset
    decreases |results|
  {
    if results == [] then []
    else PresetIds(results[..|results| - 1]) + [results[|results| - 1].preset]
  }

  /** The preset ids of the packages' results, package after package. */
  function PackagesPresetIds(packages: seq<PackageLocation>): (ids: seq<string>)
    ensures forall i, k :: 0 <= i < |packages| && 0 <= k < |packages[i].detectedPresets| ==>
      packages[i].detectedPresets[k].preset in ids
    decreases |packages|
  {
    if packages == [] then []
    else
      var init := PackagesPresetIds(packages[..|packages| - 1]);
      var last := PresetIds(packages[|packages| - 1].detectedPresets);
      assert forall i :: 0 <= i < |packages| - 1 ==> packages[i] == packages[..|packages| - 1][i];
      init + last
  }

  /**
   * Every preset id of a scan, in the order `getAllDetectedPresets` visits them: the
   * root's ids first, in order, then the packages' ids.
   */
  function AllPresetIds(scan: ScanResult): (ids: seq<string>)
    ensures |ids| >= |scan.root.detectedPresets|
    ensures ids[..|scan.root.detectedPresets|] == PresetIds(scan.root.detectedPresets)
  {
    var rootIds := PresetIds(scan.root.detectedPresets);
    var ids := rootIds + PackagesPresetIds(scan.packages);
    assert ids[..|rootIds|] == rootIds;
    ids
  }

  /** Adds the preset of each result in turn, as the inner loops of `getAllDetectedPresets` do. */
  method AddPresets(presets: seq<string>, results: seq<DetectionResult>) returns (r: seq<string>)
    ensures r == AddAll(presets, PresetIds(results))
  {
    r := presets;
    for i := 0 to |results|
      invariant r == AddAll(presets, PresetIds(results[..i]))
    {
      assert results[..i + 1][..i] == results[..i];
      r := Add(r, results[i].preset);
    }
    assert results[..|results|] == results;
  }

  /** `getAllDetectedPresets`: the root's presets, then each package's, as an ordered set. */
  method GetAllDetectedPresets(scan: ScanResult) returns (presets: seq<string>)
    ensures presets == Dedup(AllPresetIds(scan))
  {
    presets := AddPresets([], scan.root.detectedPresets);
    ghost var rootIds := PresetIds(scan.root.detectedPresets);
    assert rootIds + PackagesPresetIds(scan.packages[..0]) == rootIds by {
      assert scan.packages[..0] == [];
    }
    for i := 0 to |scan.packages|
      invariant presets == AddAll([], rootIds + PackagesPresetIds(scan.packages[..i]))
    {
      ghost var before := rootIds + PackagesPresetIds(scan.packages[..i]);
      ghost var ids := PresetIds(scan.packages[i].detectedPresets);
      PackagesPresetIdsStep(rootIds, scan.packages, i);
      presets := AddPresets(presets, scan.packages[i].detectedPresets);
      AddAllConcat([], before, ids);
    }
    assert scan.packages[..|scan.packages|] == scan.packages;
  }

  /** The ids seen after one more package are those seen before, then that package's. */
  lemma PackagesPresetIdsStep(rootIds: seq<string>, packages: seq<PackageLocation>, i: nat)
    requires i < |packages|
    ensures rootIds + PackagesPresetIds(packages[..i + 1])
      == rootIds + PackagesPresetIds(packages[..i]) + PresetIds(packages[i].detectedPresets)
  {
    assert packages[..i + 1][..i] == packages[..i];
  }

  /** A package's preset ids are among those of all packages, and only those are. */
  lemma {:induction false} PackagesPresetIdsMembers(packages: seq<PackageLocation>, p: string)
    ensures p in PackagesPresetIds(packages) <==>
      exists i, k :: 0 <= i < |packages| && 0 <= k < |packages[i].detectedPresets|
        && packages[i].detectedPresets[k].preset == p
    decreases |packages|
  {
    if packages != [] {
      var init, last := packages[..|packages| - 1], packages[|packages| - 1];
      PackagesPresetIdsMembers(init, p);
      if exists i, k ::
          && 0 <= i < |packages| && 0 <= k < |packages[i].detectedPresets|
          && packages[i].detectedPresets[k].preset == p
      {
        var i, k :| 0 <= i < |packages| && 0 <= k < |packages[i].detectedPresets|
          && packages[i].detectedPresets[k].preset == p;
        if i < |init| {
          assert init[i] == packages[i];
        } else {
          assert PresetIds(last.detectedPresets)[k] == p;
        }
      }
      if p in PresetIds(last.detectedPresets) {
        var k :| 0 <= k < |last.detectedPresets| && PresetIds(last.detectedPresets)[k] == p;
        assert packages[|packages| - 1] == last;
      }
      if p in PackagesPresetIds(init) {
        var i, k :| 0 <= i < |init| && 0 <= k < |init[i].detectedPresets|
          && init[i].detectedPresets[k].preset == p;
        assert packages[i] == init[i];
      }
    }
  }

  /**
   * The aggregated presets hold p exactly when the root or some package detected p,
   * and hold each preset once.
   */
  lemma AllDetectedPresetsMembers(scan: ScanResult, p: string)
    ensures NoDup(Dedup(AllPresetIds(scan)))
    ensures p in Dedup(AllPresetIds(scan)) <==>
      (exists k :: 0 <= k < |scan.root.detectedPresets| && scan.root.detectedPresets[k].preset == p)
      || (exists i, k ::
            && 0 <= i < |scan.packages| && 0 <= k < |scan.packages[i].detectedPresets|
            && scan.packages[i].detectedPresets[k].preset == p)
  {
    PackagesPresetIdsMembers(scan.packages, p);
    var rootIds := PresetIds(scan.root.detectedPresets);
    if p in rootIds {
      var k :| 0 <= k < |rootIds| && rootIds[k] == p;
    }
  }

  /**
   * The detector test: a project with `.lefthook.yml` at its top level has lefthook among
   * the root's results and among the aggregated presets (compiled table).
   */
  lemma LefthookProjectExample(cwd: string, files: seq<string>, scan: ScanResult)
    requires ".lefthook.yml" in files
    requires scan.root == PackageLocation(cwd, ".", Detect(DistRules, DirFiles(files, ".")))
    ensures exists k :: 0 <= k < |scan.root.detectedPresets| && scan.root.detectedPresets[k].preset == "lefthook"
    ensures "lefthook" in Dedup(AllPresetIds(scan))
  {
    assert '/' !in ".lefthook.yml";
    DirFilesHasTopLevel(files, ".lefthook.yml");
    LefthookDetected(DirFiles(files, "."));
    var d :| d in scan.root.detectedPresets && d.preset == "lefthook" && d.category == Tools;
    var k :| 0 <= k < |scan.root.detectedPresets| && scan.root.detectedPresets[k] == d;
    AllDetectedPresetsMembers(scan, "lefthook");
  }
}
