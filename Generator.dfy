/**
 * The configuration generator of packages/cli/src/generator.ts and its compiled twin
 * dist/generator.js: preset addresses, the root and per-package `renovate.json`
 * configurations, and the ordered list of files to write.
 */
module Generator {
  import opened Strings
  import opened OrderedSet
  import opened Paths
  import opened Seqs

  const RepoOwner := "scottlz0310"
  const RepoName := "renovate-config"
  const PresetsPath := "presets"
  const SchemaUrl := "https://docs.renovatebot.com/renovate-schema.json"
  const ConfigFileName := "renovate.json"

  /** Every preset address starts with this registry location. */
  const RegistryPrefix := "github>" + RepoOwner + "/" + RepoName + "//" + PresetsPath + "/"

  /** The address of the fixed default preset. */
  const DefaultRef := RegistryPrefix + "default"

  /** The presets chosen for generation (GenerateOptions), per category, in order. */
  datatype Selection = Selection(languages: seq<string>, tools: seq<string>, options: seq<string>)

  /** A renovate.json document: its `$schema` and its `extends` list. */
  datatype Config = Config(schema: string, extendsList: seq<string>)

  /**
   * A file to write: where it goes, the path shown to the user (`relativePath` in the
   * source), the configuration it holds, and whether it is the root configuration.
   */
  datatype OutputFile = OutputFile(path: string, displayPath: string, config: Config, isRoot: bool)

  /**
   * `buildPresetRef`: the address of a preset in the shared preset repository. The
   * "default" category has one fixed address whatever the preset.
   */
  function PresetRef(category: string, preset: string): string {
    if category == "default" then RegistryPrefix + "default"
    else RegistryPrefix + category + "/" + preset
  }

  /**
   * The fixed default address is produced for the "default" category, whatever the
   * preset, and for no other category.
   */
  lemma PresetRefDefault(category: string, preset: string)
    ensures StartsWith(PresetRef(category, preset), RegistryPrefix)
    ensures category == "default" ==> PresetRef(category, preset) == DefaultRef
    ensures PresetRef(category, preset) == DefaultRef <==> category == "default"
  {
    if category != "default" {
      var tail := category + "/" + preset;
      assert tail[|category|] == '/';
      assert PresetRef(category, preset)[|RegistryPrefix|..] == tail;
      assert DefaultRef[|RegistryPrefix|..] == "default";
    }
  }

  /** The registry location spelled out. */
  lemma RegistryPrefixValue()
    ensures RegistryPrefix == "github>scottlz0310/renovate-config//presets/"
  {
    assert "github>" + RepoOwner == "github>scottlz0310";
    assert "github>scottlz0310" + "/" == "github>scottlz0310/";
    assert "github>scottlz0310/" + RepoName == "github>scottlz0310/renovate-config";
    assert "github>scottlz0310/renovate-config" + "//" == "github>scottlz0310/renovate-config//";
    assert "github>scottlz0310/renovate-config//" + PresetsPath == "github>scottlz0310/renovate-config//presets";
    assert "github>scottlz0310/renovate-config//presets" + "/" == "github>scottlz0310/renovate-config//presets/";
  }

  /** The default address spelled out. */
  lemma DefaultRefValue()
    ensures DefaultRef == "github>scottlz0310/renovate-config//presets/default"
  {
    RegistryPrefixValue();
    assert "github>scottlz0310/renovate-config//presets/" + "default"
      == "github>scottlz0310/renovate-config//presets/default";
  }

  /**
   * Category isolation: two non-default categories without '/' give the same
   * address only for the same category and the same preset.
   */
  lemma PresetRefInjective(c1: string, p1: string, c2: string, p2: string)
    requires c1 != "default" && c2 != "default"
    requires '/' !in c1 && '/' !in c2
    ensures PresetRef(c1, p1) == PresetRef(c2, p2) <==> c1 == c2 && p1 == p2
  {
    if PresetRef(c1, p1) == PresetRef(c2, p2) {
      var s1, s2 := c1 + "/" + p1, c2 + "/" + p2;
      assert PresetRef(c1, p1)[|RegistryPrefix|..] == s1;
      assert PresetRef(c2, p2)[|RegistryPrefix|..] == s2;
      SlashPosition(c1, p1);
      SlashPosition(c2, p2);
      assert c1 == s1[..|c1|] && c2 == s2[..|c2|];
      assert p1 == s1[|c1| + 1..] && p2 == s2[|c2| + 1..];
    }
  }

  /** In c + "/" + p with no '/' in c, the first '/' is right after c. */
  lemma SlashPosition(c: string, p: string)
    requires '/' !in c
    ensures '/' in c + "/" + p && FirstIndex(c + "/" + p, '/') == |c|
  {
    var s := c + "/" + p;
    assert s[|c|] == '/';
    var i := FirstIndex(s, '/');
    assert s[..|c|] == c;
  }

  /** The addresses of presets in one category, in order. */
  function Refs(category: string, presets: seq<string>): (r: seq<string>)
    ensures |r| == |presets|
    ensures forall i :: 0 <= i < |presets| ==> r[i] == PresetRef(category, presets[i])
    decreases |presets|
  {
    if presets == [] then []
    else
      var init := Refs(category, presets[..|presets| - 1]);
      InitLast(presets);
      SnocIndex(init, PresetRef(category, presets[|presets| - 1]));
      init + [PresetRef(category, presets[|presets| - 1])]
  }

  /** The categories the root configuration lists after the default. */
  predicate IsListedCategory(c: string) {
    c == "languages" || c == "tools" || c == "options"
  }

  /** A listed category is not "default" and holds no '/'. */
  lemma ListedCategoryShape(c: string)
    requires IsListedCategory(c)
    ensures c != "default" && '/' !in c
  {
    if c == "languages" {
      assert forall k :: 0 <= k < |c| ==> c[k] != '/';
    } else if c == "tools" {
      assert forall k :: 0 <= k < |c| ==> c[k] != '/';
    } else {
      assert forall k :: 0 <= k < |c| ==> c[k] != '/';
    }
  }

  lemma RefsMembers(category: string, presets: seq<string>, x: string)
    ensures x in Refs(category, presets) <==> exists p :: p in presets && x == PresetRef(category, p)
  {
    var r := Refs(category, presets);
    if x in r {
      var i :| 0 <= i < |r| && r[i] == x;
      assert presets[i] in presets;
    }
    if exists p :: p in presets && x == PresetRef(category, p) {
      var p :| p in presets && x == PresetRef(category, p);
      var i :| 0 <= i < |presets| && presets[i] == p;
      assert r[i] == x;
    }
  }

  /** Addresses of two different listed categories never coincide, nor with the default. */
  lemma RefsDisjoint(c1: string, xs: seq<string>, c2: string, ys: seq<string>)
    requires IsListedCategory(c1) && IsListedCategory(c2) && c1 != c2
    ensures forall x :: x in Refs(c1, xs) ==> x !in Refs(c2, ys) && x != DefaultRef
  {
    forall x | x in Refs(c1, xs)
      ensures x !in Refs(c2, ys) && x != DefaultRef
    {
      RefsMembers(c1, xs, x);
      RefsMembers(c2, ys, x);
      var p :| p in xs && x == PresetRef(c1, p);
      PresetRefDefault(c1, p);
      ListedCategoryShape(c1);
      ListedCategoryShape(c2);
      forall q | q in ys ensures x != PresetRef(c2, q) {
        PresetRefInjective(c1, p, c2, q);
      }
    }
  }

  /** Distinct presets of one listed category have distinct addresses. */
  lemma RefsNoDup(category: string, presets: seq<string>)
    requires IsListedCategory(category)
    requires NoDup(presets)
    ensures NoDup(Refs(category, presets))
  {
    var r := Refs(category, presets);
    ListedCategoryShape(category);
    forall i, j | 0 <= i < j < |r| ensures r[i] != r[j] {
      PresetRefInjective(category, presets[i], category, presets[j]);
    }
  }

  /**
   * The `extends` list of the root configuration: a set seeded with the default
   * address, then fed the language, tool and option addresses in order.
   */
  function RootExtends(sel: Selection): (r: seq<string>)
    ensures |r| >= 1 && r[0] == DefaultRef
    ensures NoDup(r)
    ensures |r| <= 1 + |sel.languages| + |sel.tools| + |sel.options|
  {
    var langs := AddAll([DefaultRef], Refs("languages", sel.languages));
    var tools := AddAll(langs, Refs("tools", sel.tools));
    var r := AddAll(tools, Refs("options", sel.options));
    assert langs[0] == langs[..1][0] == DefaultRef;
    assert tools[0] == tools[..|langs|][0] == DefaultRef;
    assert r[0] == r[..|tools|][0] == DefaultRef;
    r
  }

  /**
   * `generateRootConfig`: builds the root configuration by adding addresses to an
   * insertion-ordered set, one category after the other.
   */
  method GenerateRootConfig(sel: Selection) returns (config: Config)
    ensures config == Config(SchemaUrl, RootExtends(sel))
  {
    var extendsSet := [PresetRef("default", "default")];
    extendsSet := AddCategory(extendsSet, "languages", sel.languages);
    extendsSet := AddCategory(extendsSet, "tools", sel.tools);
    extendsSet := AddCategory(extendsSet, "options", sel.options);
    config := Config(SchemaUrl, extendsSet);
  }

  /** One loop of `generateRootConfig`: adds the address of each preset of a category in turn. */
  method AddCategory(extendsSet: seq<string>, category: string, presets: seq<string>)
    returns (r: seq<string>)
    ensures r == AddAll(extendsSet, Refs(category, presets))
  {
    r := extendsSet;
    for i := 0 to |presets|
      invariant r == AddAll(extendsSet, Refs(category, presets[..i]))
    {
      assert presets[..i + 1][..i] == presets[..i];
      r := Add(r, PresetRef(category, presets[i]));
    }
    assert presets[..|presets|] == presets;
  }

  /**
   * Layout of the root `extends`: the default address, then the distinct language
   * addresses, then the tool addresses, then the option addresses, each in order of
   * first request. No address of one category is ever dropped as a repeat of another.
   */
  lemma RootExtendsLayout(sel: Selection)
    ensures RootExtends(sel) ==
      [DefaultRef]
      + Dedup(Refs("languages", sel.languages))
      + Dedup(Refs("tools", sel.tools))
      + Dedup(Refs("options", sel.options))
  {
    var rl, rt, ro := Refs("languages", sel.languages), Refs("tools", sel.tools), Refs("options", sel.options);
    RefsDisjoint("languages", sel.languages, "tools", sel.tools);
    RefsDisjoint("tools", sel.tools, "languages", sel.languages);
    RefsDisjoint("options", sel.options, "languages", sel.languages);
    RefsDisjoint("options", sel.options, "tools", sel.tools);
    AddAllFresh([DefaultRef], rl);
    var a1 := [DefaultRef] + Dedup(rl);
    AddAllFresh(a1, rt);
    var a2 := a1 + Dedup(rt);
    AddAllFresh(a2, ro);
  }

  /**
   * Membership of the root `extends`: the default address and exactly the addresses of
   * the requested languages, tools and options.
   */
  lemma RootExtendsMembers(sel: Selection, x: string)
    ensures x in RootExtends(sel) <==>
      || x == DefaultRef
      || (exists p :: p in sel.languages && x == PresetRef("languages", p))
      || (exists p :: p in sel.tools && x == PresetRef("tools", p))
      || (exists p :: p in sel.options && x == PresetRef("options", p))
  {
    RefsMembers("languages", sel.languages, x);
    RefsMembers("tools", sel.tools, x);
    RefsMembers("options", sel.options, x);
  }

  /** Without repeated requests, every request adds exactly one address. */
  lemma RootExtendsExactLength(sel: Selection)
    requires NoDup(sel.languages) && NoDup(sel.tools) && NoDup(sel.options)
    ensures |RootExtends(sel)| == 1 + |sel.languages| + |sel.tools| + |sel.options|
  {
    RootExtendsLayout(sel);
    RefsNoDup("languages", sel.languages);
    RefsNoDup("tools", sel.tools);
    RefsNoDup("options", sel.options);
    DedupOfNoDup(Refs("languages", sel.languages));
    DedupOfNoDup(Refs("tools", sel.tools));
    DedupOfNoDup(Refs("options", sel.options));
  }

  /** Collapsing repeated presets and then addressing them is addressing them and collapsing. */
  lemma {:induction false} DedupRefs(category: string, presets: seq<string>)
    requires IsListedCategory(category)
    ensures Dedup(Refs(category, presets)) == Refs(category, Dedup(presets))
    decreases |presets|
  {
    if presets != [] {
      var init, y := presets[..|presets| - 1], presets[|presets| - 1];
      DedupRefs(category, init);
      var r := Refs(category, presets);
      assert r[..|r| - 1] == Refs(category, init);
      var d := Dedup(init);
      ListedCategoryShape(category);
      RefsMembers(category, d, PresetRef(category, y));
      forall p | p in d ensures PresetRef(category, p) == PresetRef(category, y) ==> p == y {
        PresetRefInjective(category, p, category, y);
      }
      if y !in d {
        assert Refs(category, d + [y]) == Refs(category, d) + [PresetRef(category, y)];
      }
    }
  }

  /**
   * Requesting a preset twice in a category changes nothing: the root `extends` of a
   * selection equals that of the same selection with repeats removed.
   */
  lemma RootExtendsIgnoresRepeats(sel: Selection)
    ensures RootExtends(sel) == RootExtends(Selection(Dedup(sel.languages), Dedup(sel.tools), Dedup(sel.options)))
  {
    var dsel := Selection(Dedup(sel.languages), Dedup(sel.tools), Dedup(sel.options));
    RootExtendsLayout(sel);
    RootExtendsLayout(dsel);
    DedupRefs("languages", sel.languages);
    DedupRefs("tools", sel.tools);
    DedupRefs("options", sel.options);
    RefsNoDup("languages", dsel.languages);
    RefsNoDup("tools", dsel.tools);
    RefsNoDup("options", dsel.options);
    DedupOfNoDup(Refs("languages", dsel.languages));
    DedupOfNoDup(Refs("tools", dsel.tools));
    DedupOfNoDup(Refs("options", dsel.options));
  }

  /**
   * `generatePackageConfig`: a package configuration has the root's schema and
   * extends nothing but the configuration at the given way back to the root.
   */
  function PackageConfig(rootRelativePath: string): (c: Config)
    ensures c.schema == SchemaUrl && c.extendsList == [rootRelativePath]
  {
    Config(SchemaUrl, [rootRelativePath])
  }

  /** The root entry of `prepareOutputFiles`: flagged root, holding the generated root configuration. */
  function RootFile(root: string, sel: Selection): (f: OutputFile)
    ensures f.isRoot && f.config == Config(SchemaUrl, RootExtends(sel))
  {
    OutputFile(Join(root, ConfigFileName), "./" + ConfigFileName, Config(SchemaUrl, RootExtends(sel)), true)
  }

  /** The entry of one package in `prepareOutputFiles`: not root, pointing back to the root. */
  function PackageFile(root: string, pkg: string): (f: OutputFile)
    ensures !f.isRoot && f.config == PackageConfig(RelativeToRoot(pkg))
  {
    OutputFile(
      Join(Join(root, pkg), ConfigFileName),
      "./" + pkg + "/" + ConfigFileName,
      PackageConfig(RelativeToRoot(pkg)),
      false)
  }

  /** The root file is `renovate.json` in the project directory, shown as "./renovate.json". */
  lemma RootFileLocation(root: string, sel: Selection)
    ensures EndsWith(RootFile(root, sel).path, ConfigFileName)
    ensures RootFile(root, sel).displayPath == "./renovate.json"
  {
    assert |ConfigFileName| == 13;
    assert RootFile(root, sel).displayPath == "./renovate.json" by {
      var display := "./" + ConfigFileName;
      assert display == "./renovate.json";
    }
  }

  /** A package file is `renovate.json` in the package directory, shown as "./<pkg>/renovate.json". */
  lemma PackageFileLocation(root: string, pkg: string)
    ensures EndsWith(PackageFile(root, pkg).path, ConfigFileName)
    ensures PackageFile(root, pkg).displayPath == "./" + pkg + "/renovate.json"
  {
    var front := "./" + pkg;
    assert front + "/" + ConfigFileName == front + ("/" + ConfigFileName);
    assert "/" + ConfigFileName == "/renovate.json";
  }

  /** The package files of `prepareOutputFiles`, one per package path, in order. */
  function PackageFiles(root: string, pkgs: seq<string>): (r: seq<OutputFile>)
    ensures |r| == |pkgs|
    ensures forall i :: 0 <= i < |pkgs| ==> r[i] == PackageFile(root, pkgs[i])
    decreases |pkgs|
  {
    if pkgs == [] then []
    else
      var init := PackageFiles(root, pkgs[..|pkgs| - 1]);
      InitLast(pkgs);
      SnocIndex(init, PackageFile(root, pkgs[|pkgs| - 1]));
      init + [PackageFile(root, pkgs[|pkgs| - 1])]
  }

  /** The files `prepareOutputFiles` produces: the root first, then one per package, in order. */
  function OutputFiles(root: string, pkgs: seq<string>, sel: Selection): (r: seq<OutputFile>)
    ensures |r| == 1 + |pkgs|
    ensures r[0] == RootFile(root, sel)
    ensures forall i :: 1 <= i < |r| ==> r[i] == PackageFile(root, pkgs[i - 1])
    ensures forall i :: 0 <= i < |r| ==> (r[i].isRoot <==> i == 0)
  {
    var files := PackageFiles(root, pkgs);
    var r := [RootFile(root, sel)] + files;
    ConsIndex(RootFile(root, sel), files);
    r
  }

  /** Pushing the next package's file extends the files by that package. */
  lemma PushPackageFile(root: string, sel: Selection, pkgs: seq<string>, i: nat, files: seq<OutputFile>)
    requires i < |pkgs|
    requires files == [RootFile(root, sel)] + PackageFiles(root, pkgs[..i])
    ensures files + [PackageFile(root, pkgs[i])] == [RootFile(root, sel)] + PackageFiles(root, pkgs[..i + 1])
  {
    assert pkgs[..i + 1][..i] == pkgs[..i];
  }

  /** `prepareOutputFiles`: pushes the root file, then one file per package path. */
  method PrepareOutputFiles(root: string, pkgs: seq<string>, sel: Selection) returns (files: seq<OutputFile>)
    ensures files == OutputFiles(root, pkgs, sel)
  {
    var rootConfig := GenerateRootConfig(sel);
    files := [OutputFile(Join(root, ConfigFileName), "./" + ConfigFileName, rootConfig, true)];
    for i := 0 to |pkgs|
      invariant files == [RootFile(root, sel)] + PackageFiles(root, pkgs[..i])
    {
      var pkgPath := pkgs[i];
      var relativeToRoot := RelativeToRoot(pkgPath);
      var pkgFile := OutputFile(
        Join(Join(root, pkgPath), ConfigFileName),
        "./" + pkgPath + "/" + ConfigFileName,
        PackageConfig(relativeToRoot),
        false);
      assert pkgFile == PackageFile(root, pkgPath);
      PushPackageFile(root, sel, pkgs, i, files);
      files := files + [pkgFile];
    }
    assert pkgs[..|pkgs|] == pkgs;
  }

  /**
   * Package inheritance: a package file's only `extends` entry is a path made of ".."
   * segments that leads from the package directory back to the root, one ".." per
   * segment when the package path is a plain relative path.
   */
  lemma PackageFileInheritsRoot(root: string, pkg: string)
    ensures PackageFile(root, pkg).config.extendsList == [RelativeToRoot(pkg)]
    ensures Walk(Depth(pkg), Segments(RelativeToRoot(pkg))) == 0
    ensures IsPlainRelative(pkg) ==> Segments(RelativeToRoot(pkg)) == Ups(|Segments(pkg)|)
  {
    RelativeLeadsToRoot(pkg);
    if IsPlainRelative(pkg) {
      PlainRelativeDepth(pkg);
    }
  }

  /** The address of the nodejs language preset spelled out. */
  lemma NodejsRefValue()
    ensures PresetRef("languages", "nodejs") == "github>scottlz0310/renovate-config//presets/languages/nodejs"
  {
    RegistryPrefixValue();
    var prefix := "github>scottlz0310/renovate-config//presets/";
    assert prefix + "languages" == "github>scottlz0310/renovate-config//presets/languages";
    assert "github>scottlz0310/renovate-config//presets/languages" + "/"
      == "github>scottlz0310/renovate-config//presets/languages/";
    assert "github>scottlz0310/renovate-config//presets/languages/" + "nodejs"
      == "github>scottlz0310/renovate-config//presets/languages/nodejs";
  }

  /** The address of the automerge option preset spelled out. */
  lemma AutomergeRefValue()
    ensures PresetRef("options", "automerge") == "github>scottlz0310/renovate-config//presets/options/automerge"
  {
    RegistryPrefixValue();
    var prefix := "github>scottlz0310/renovate-config//presets/";
    assert prefix + "options" == "github>scottlz0310/renovate-config//presets/options";
    assert "github>scottlz0310/renovate-config//presets/options" + "/"
      == "github>scottlz0310/renovate-config//presets/options/";
    assert "github>scottlz0310/renovate-config//presets/options/" + "automerge"
      == "github>scottlz0310/renovate-config//presets/options/automerge";
  }

  /**
   * The generator test: languages [nodejs] and options [automerge] give exactly the
   * default, the nodejs and the automerge addresses; an empty selection gives only
   * the default address.
   */
  lemma GeneratorTestExample()
    ensures RootExtends(Selection(["nodejs"], [], ["automerge"])) == [
      "github>scottlz0310/renovate-config//presets/default",
      "github>scottlz0310/renovate-config//presets/languages/nodejs",
      "github>scottlz0310/renovate-config//presets/options/automerge"]
  {
    OneLanguageOneOption("nodejs", "automerge");
    DefaultRefValue();
    NodejsRefValue();
    AutomergeRefValue();
  }

  /** One language and one option give the default, that language and that option, in order. */
  lemma OneLanguageOneOption(language: string, option: string)
    ensures RootExtends(Selection([language], [], [option]))
      == [DefaultRef, PresetRef("languages", language), PresetRef("options", option)]
  {
    var sel := Selection([language], [], [option]);
    var l, o := PresetRef("languages", language), PresetRef("options", option);
    RootExtendsLayout(sel);
    assert Refs("languages", sel.languages) == [l];
    assert Refs("options", sel.options) == [o];
    DedupOfNoDup([l]);
    DedupOfNoDup([o]);
    assert Dedup(Refs("tools", [])) == [];
    ThreeSingletons(DefaultRef, l, o);
  }

  /** An empty selection extends only the default preset. */
  lemma EmptySelectionExample()
    ensures RootExtends(Selection([], [], [])) == [DefaultRef]
  {
    RootExtendsLayout(Selection([], [], []));
  }
}
