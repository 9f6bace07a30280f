/**
 * The selection logic of the command line in dist/index.js: parsing the arguments,
 * turning a `--presets` list into a selection, auto-selecting detected presets for
 * `--yes`, redirecting the root file for `--output`, and the order in which `main`
 * takes these decisions. The command line runs with the compiled rule table.
 */
module Cli {
  import opened Wrappers
  import opened Strings
  import opened OrderedSet
  import opened Paths
  import opened Seqs
  import opened Generator
  import opened Detector

  /** The parsed command line: three switches and two optional values. */
  datatype CliArgs = CliArgs(yes: bool, dryRun: bool, help: bool, presets: Option<string>, output: Option<string>)

  // ---------------------------------------------------------------------------
  // Arguments

  /** `args.find(a => a.startsWith(prefix))`: the first argument with that prefix. */
  function FindWithPrefix(args: seq<string>, prefix: string): (r: Option<string>)
    ensures r.None? <==> forall i :: 0 <= i < |args| ==> !StartsWith(args[i], prefix)
    ensures r.Some? ==> exists i ::
      && 0 <= i < |args| && args[i] == r.value && StartsWith(args[i], prefix)
      && forall j :: 0 <= j < i ==> !StartsWith(args[j], prefix)
    decreases |args|
  {
    if args == [] then None
    else if StartsWith(args[0], prefix) then Some(args[0])
    else
      var r := FindWithPrefix(args[1..], prefix);
      assert forall i :: 0 < i < |args| ==> args[i] == args[1..][i - 1];
      r
  }

  /** `args.indexOf(x)`: the first position of x, or -1. */
  function IndexOf(args: seq<string>, x: string): (i: int)
    ensures -1 <= i < |args|
    ensures i == -1 <==> x !in args
    ensures 0 <= i ==> args[i] == x && x !in args[..i]
    decreases |args|
  {
    if args == [] then -1
    else if args[0] == x then 0
    else
      var i := IndexOf(args[1..], x);
      assert args == [args[0]] + args[1..];
      if i == -1 then -1
      else
        assert args[..i + 1] == [args[0]] + args[1..][..i];
        i + 1
  }

  /**
   * `arg.split("=")[1] || ""`: the text between the first and the second '='. It never
   * holds a '=', and it is empty when the argument has none.
   */
  function ValueAfterEquals(arg: string): (v: string)
    ensures '=' !in v
    ensures v != "" ==> '=' in arg
  {
    var parts := Split(arg, '=');
    if |parts| > 1 then parts[1] else ""
  }

  /**
   * The value of `--flag`: the `--flag=value` form wins when present; otherwise the
   * argument after the first `--flag`, if there is one.
   */
  function FlagValue(args: seq<string>, flag: string): (r: Option<string>)
    ensures (exists i :: 0 <= i < |args| && StartsWith(args[i], flag + "=")) ==> r.Some?
    ensures r.Some? ==>
      || (exists i :: 0 <= i < |args| && StartsWith(args[i], flag + "="))
      || (exists i :: 0 <= i < |args| - 1 && args[i] == flag)
  {
    match FindWithPrefix(args, flag + "=")
    case Some(arg) => Some(ValueAfterEquals(arg))
    case None =>
      var idx := IndexOf(args, flag);
      if idx != -1 && |args| > idx + 1 then
        assert args[idx] == flag;
        Some(args[idx + 1])
      else None
  }

  /** `parseArgs` over the arguments after the program name. */
  method ParseArgs(args: seq<string>) returns (result: CliArgs)
    ensures result.yes <==> "--yes" in args || "-y" in args
    ensures result.dryRun <==> "--dry-run" in args
    ensures result.help <==> "--help" in args || "-h" in args
    ensures result.presets == FlagValue(args, "--presets")
    ensures result.output == FlagValue(args, "--output")
  {
    result := CliArgs("--yes" in args || "-y" in args, "--dry-run" in args, "--help" in args || "-h" in args, None, None);
    var presets := ReadFlag(args, "--presets");
    var output := ReadFlag(args, "--output");
    result := result.(presets := presets, output := output);
  }

  /** The two ways `parseArgs` reads a flag's value, the `=` form first. */
  method ReadFlag(args: seq<string>, flag: string) returns (value: Option<string>)
    ensures value == FlagValue(args, flag)
  {
    value := None;
    var flagArg := FindWithPrefix(args, flag + "=");
    if flagArg.Some? {
      value := Some(ValueAfterEquals(flagArg.value));
    } else {
      var idx := IndexOf(args, flag);
      if idx != -1 && |args| > idx + 1 {
        value := Some(args[idx + 1]);
      }
    }
  }

  /**
   * How a flag's value is found: the first `--flag=` argument decides it when there is
   * one; otherwise there is a value exactly when `--flag` occurs before the last
   * argument, and it is the argument after its first occurrence.
   */
  lemma FlagValueCases(args: seq<string>, flag: string)
    ensures forall i ::
      (&& 0 <= i < |args| && StartsWith(args[i], flag + "=")
       && (forall j :: 0 <= j < i ==> !StartsWith(args[j], flag + "=")))
      ==> FlagValue(args, flag) == Some(ValueAfterEquals(args[i]))
    ensures (forall i :: 0 <= i < |args| ==> !StartsWith(args[i], flag + "=")) ==>
      && (FlagValue(args, flag).Some? <==> exists i :: 0 <= i < |args| - 1 && args[i] == flag)
      && forall i :: 0 <= i < |args| - 1 && args[i] == flag && flag !in args[..i] ==>
        FlagValue(args, flag) == Some(args[i + 1])
  {
    var prefix := flag + "=";
    forall i | 0 <= i < |args| && StartsWith(args[i], prefix)
      && (forall j :: 0 <= j < i ==> !StartsWith(args[j], prefix))
      ensures FlagValue(args, flag) == Some(ValueAfterEquals(args[i]))
    {
      var found := FindWithPrefix(args, prefix);
      var i' :| 0 <= i' < |args| && args[i'] == found.value && StartsWith(args[i'], prefix)
        && forall j :: 0 <= j < i' ==> !StartsWith(args[j], prefix);
      assert i' == i;
    }
    if forall i :: 0 <= i < |args| ==> !StartsWith(args[i], prefix) {
      var idx := IndexOf(args, flag);
      forall i | 0 <= i < |args| - 1 && args[i] == flag && flag !in args[..i]
        ensures idx == i
      {
        assert idx != -1;
      }
      if exists i :: 0 <= i < |args| - 1 && args[i] == flag {
        var i :| 0 <= i < |args| - 1 && args[i] == flag;
        assert idx != -1;
      }
    }
  }

  /** The `=` form of a flag yields the text up to the next '=' of the value. */
  lemma EqualsFormValue(flag: string, value: string)
    requires '=' !in flag
    ensures ValueAfterEquals(flag + "=" + value) == Split(value, '=')[0]
    ensures '=' !in value ==> ValueAfterEquals(flag + "=" + value) == value
  {
    var arg := flag + "=" + value;
    SplitConcat(flag, value, '=');
    SplitNoSeparator(flag, '=');
    assert Split(arg, '=') == [flag] + Split(value, '=');
    assert ValueAfterEquals(arg) == Split(arg, '=')[1];
    if '=' !in value {
      SplitNoSeparator(value, '=');
    }
  }

  /** `if (args.presets)`: a preset list was given and is not empty. */
  predicate PresetsRequested(a: CliArgs) {
    a.presets.Some? && a.presets.value != ""
  }

  /** `if (args.output)`: an output location was given and is not empty. */
  predicate OutputRequested(a: CliArgs) {
    a.output.Some? && a.output.value != ""
  }

  // ---------------------------------------------------------------------------
  // The --presets list

  /** The trimmed parts, without the empty ones, in order. */
  function TrimmedNonEmpty(parts: seq<string>): (r: seq<string>)
    ensures |r| <= |parts|
    ensures forall k :: 0 <= k < |r| ==> r[k] != "" && IsTrimmed(r[k])
    decreases |parts|
  {
    if parts == [] then []
    else
      var init := TrimmedNonEmpty(parts[..|parts| - 1]);
      var t := Trim(parts[|parts| - 1]);
      if t != "" then init + [t] else init
  }

  /** `presets.split(",").map(s => s.trim()).filter(Boolean)`. */
  function PresetList(raw: string): (r: seq<string>)
    ensures forall k :: 0 <= k < |r| ==> r[k] != "" && IsTrimmed(r[k]) && ',' !in r[k]
  {
    var parts := Split(raw, ',');
    var r := TrimmedNonEmpty(parts);
    assert forall k :: 0 <= k < |r| ==> ',' !in r[k] by {
      TrimmedNonEmptyFrom(parts, ',');
    }
    r
  }

  /** The entries keep a character that none of the parts holds out. */
  lemma {:induction false} TrimmedNonEmptyFrom(parts: seq<string>, c: char)
    requires forall k :: 0 <= k < |parts| ==> c !in parts[k]
    ensures forall k :: 0 <= k < |TrimmedNonEmpty(parts)| ==> c !in TrimmedNonEmpty(parts)[k]
    decreases |parts|
  {
    if parts != [] {
      var last := parts[|parts| - 1];
      TrimmedNonEmptyFrom(parts[..|parts| - 1], c);
      TrimInside(last, c);
    }
  }

  /** Trimming keeps only characters of the string. */
  lemma TrimInside(s: string, c: char)
    requires c !in s
    ensures c !in Trim(s)
  {
    var t := TrimStart(s);
    NotInSlice(s, |s| - |t|, |s|, c);
    NotInSlice(t, 0, |TrimEnd(t)|, c);
  }

  lemma {:induction false} TrimmedNonEmptyKeeps(parts: seq<string>)
    requires forall k :: 0 <= k < |parts| ==> parts[k] != "" && IsTrimmed(parts[k])
    ensures TrimmedNonEmpty(parts) == parts
    decreases |parts|
  {
    if parts != [] {
      var init, last := parts[..|parts| - 1], parts[|parts| - 1];
      assert forall k :: 0 <= k < |init| ==> init[k] == parts[k];
      TrimmedNonEmptyKeeps(init);
      assert Trim(last) == last;
      assert parts == init + [last];
    }
  }

  /** A list written with ',' between non-empty trimmed entries reads back as those entries. */
  lemma PresetListRoundTrip(entries: seq<string>)
    requires forall k :: 0 <= k < |entries| ==> entries[k] != "" && IsTrimmed(entries[k]) && ',' !in entries[k]
    ensures PresetList(JoinWith(entries, ',')) == entries
  {
    if entries == [] {
      assert Split("", ',') == [""];
      assert TrimmedNonEmpty([""]) == [];
    } else {
      SplitJoin(entries, ',');
      TrimmedNonEmptyKeeps(entries);
    }
  }

  /** The entry a part contributes: its trim, unless that is empty. */
  function KeptEntry(p: string): seq<string> {
    if Trim(p) != "" then [Trim(p)] else []
  }

  /** One more part adds its own entry, if any, at the end. */
  lemma TrimmedNonEmptyStep(parts: seq<string>)
    requires parts != []
    ensures TrimmedNonEmpty(parts) == TrimmedNonEmpty(parts[..|parts| - 1]) + KeptEntry(parts[|parts| - 1])
  {
  }

  /** The entries of parts written one after the other are the entries of each, in order. */
  lemma {:induction false} TrimmedNonEmptyConcat(a: seq<string>, b: seq<string>)
    ensures TrimmedNonEmpty(a + b) == TrimmedNonEmpty(a) + TrimmedNonEmpty(b)
    decreases |b|
  {
    if b == [] {
      assert a + b == a;
    } else {
      TrimmedNonEmptyConcat(a, b[..|b| - 1]);
      TrimmedNonEmptyConcatStep(a, b);
    }
  }

  /** The inductive step of TrimmedNonEmptyConcat: one more part at the end of b. */
  lemma TrimmedNonEmptyConcatStep(a: seq<string>, b: seq<string>)
    requires b != []
    requires TrimmedNonEmpty(a + b[..|b| - 1]) == TrimmedNonEmpty(a) + TrimmedNonEmpty(b[..|b| - 1])
    ensures TrimmedNonEmpty(a + b) == TrimmedNonEmpty(a) + TrimmedNonEmpty(b)
  {
    ConcatInitLast(a, b);
    TrimmedNonEmptyStep(a + b);
    TrimmedNonEmptyStep(b);
    ConcatAssoc(TrimmedNonEmpty(a), TrimmedNonEmpty(b[..|b| - 1]), KeptEntry(b[|b| - 1]));
  }

  /** An entry is kept exactly when it is the non-empty trim of some part. */
  lemma {:induction false} TrimmedNonEmptyMembers(parts: seq<string>, x: string)
    ensures x in TrimmedNonEmpty(parts) <==> x != "" && exists k :: 0 <= k < |parts| && Trim(parts[k]) == x
    decreases |parts|
  {
    if parts != [] {
      TrimmedNonEmptyMembers(parts[..|parts| - 1], x);
      InitLast(parts);
      TrimmedNonEmptyMembersStep(parts, x);
    }
  }

  /** The inductive step of TrimmedNonEmptyMembers: one more part at the end. */
  lemma TrimmedNonEmptyMembersStep(parts: seq<string>, x: string)
    requires parts != []
    requires x in TrimmedNonEmpty(parts[..|parts| - 1]) <==>
      x != "" && exists k :: 0 <= k < |parts| - 1 && Trim(parts[k]) == x
    ensures x in TrimmedNonEmpty(parts) <==> x != "" && exists k :: 0 <= k < |parts| && Trim(parts[k]) == x
  {
    var init, last := parts[..|parts| - 1], parts[|parts| - 1];
    TrimmedNonEmptyStep(parts);
    if x in TrimmedNonEmpty(parts) {
      if x !in TrimmedNonEmpty(init) {
        assert x in KeptEntry(last);
        assert Trim(parts[|parts| - 1]) == x;
      }
    }
    if x != "" && exists k :: 0 <= k < |parts| && Trim(parts[k]) == x {
      var k :| 0 <= k < |parts| && Trim(parts[k]) == x;
      if k < |parts| - 1 {
        assert x in TrimmedNonEmpty(init);
      } else {
        assert KeptEntry(last) == [x];
      }
    }
  }

  /** The preset list holds exactly the non-empty trims of the ','-separated parts. */
  lemma PresetListMembers(raw: string, x: string)
    ensures x in PresetList(raw) <==>
      x != "" && exists k :: 0 <= k < |Split(raw, ',')| && Trim(Split(raw, ',')[k]) == x
  {
    PresetListUnfold(raw);
    TrimmedNonEmptyMembers(Split(raw, ','), x);
  }

  lemma PresetListUnfold(raw: string)
    ensures PresetList(raw) == TrimmedNonEmpty(Split(raw, ','))
  {
  }

  /** A ',' splits the list there: the entries before it, then the entries after it. */
  lemma PresetListConcat(a: string, b: string)
    ensures PresetList(a + "," + b) == PresetList(a) + PresetList(b)
  {
    SplitConcat(a, b, ',');
    TrimmedNonEmptyConcat(Split(a, ','), Split(b, ','));
  }

  /** One entry with whitespace around it reads as that entry alone. */
  lemma PresetListOfEntry(w1: string, e: string, w2: string)
    requires forall k :: 0 <= k < |w1| ==> IsWhitespace(w1[k])
    requires forall k :: 0 <= k < |w2| ==> IsWhitespace(w2[k])
    requires e != "" && IsTrimmed(e) && ',' !in e
    ensures PresetList(w1 + e + w2) == [e]
  {
    var s := w1 + e + w2;
    SplitNoSeparator(s, ',');
    TrimUnique(w1, e, w2);
    assert [s][..0] == [];
  }

  /** Two entries written with ", " between them read back as those two, in order. */
  lemma PresetListOfPair(e1: string, e2: string)
    requires e1 != "" && IsTrimmed(e1) && ',' !in e1
    requires e2 != "" && IsTrimmed(e2) && ',' !in e2
    ensures PresetList(e1 + ", " + e2) == [e1, e2]
  {
    PresetListOfBareEntry(e1);
    PresetListOfSpacedEntry(e2);
    PresetListConcat(e1, " " + e2);
    ConcatAssoc(e1, ",", " " + e2);
    ConcatAssoc(",", " ", e2);
    ConcatAssoc(e1, ", ", e2);
    assert "," + " " == ", ";
  }

  lemma PresetListOfBareEntry(e: string)
    requires e != "" && IsTrimmed(e) && ',' !in e
    ensures PresetList(e) == [e]
  {
    PresetListOfEntry("", e, "");
    assert "" + e + "" == e;
  }

  lemma PresetListOfSpacedEntry(e: string)
    requires e != "" && IsTrimmed(e) && ',' !in e
    ensures PresetList(" " + e) == [e]
  {
    var w := " ";
    assert IsWhitespace(w[0]);
    PresetListOfEntry(w, e, "");
    assert w + e + "" == w + e;
  }

  /** `--presets "nodejs, typescript"` selects the two names without the space. */
  lemma PaddedPresetsExample(raw: string)
    requires raw == "nodejs, typescript"
    ensures PresetList(raw) == ["nodejs", "typescript"]
  {
    var n, t := "nodejs", "typescript";
    assert forall k :: 0 <= k < |n| ==> n[k] != ',';
    assert forall k :: 0 <= k < |t| ==> t[k] != ',';
    assert raw == n + ", " + t;
    PresetListOfPair(n, t);
  }

  // ---------------------------------------------------------------------------
  // Classifying the entries

  /** The entry's preset name: the part after the first '/', if any, else the whole entry. */
  function PresetName(entry: string): string {
    var parts := Split(entry, '/');
    if |parts| > 1 then parts[1] else parts[0]
  }

  /** The entry's category hint: the part before the first '/', if there is a '/'. */
  function CategoryHint(entry: string): Option<string> {
    var parts := Split(entry, '/');
    if |parts| > 1 then Some(parts[0]) else None
  }

  /** An entry "category/name" names its category and its preset. */
  lemma HintedEntry(category: string, name: string)
    requires '/' !in category && '/' !in name
    ensures CategoryHint(category + "/" + name) == Some(category)
    ensures PresetName(category + "/" + name) == name
  {
    SplitConcat(category, name, '/');
    SplitNoSeparator(category, '/');
    SplitNoSeparator(name, '/');
  }

  /** An entry without '/' is its own preset name and has no hint. */
  lemma PlainEntry(entry: string)
    requires '/' !in entry
    ensures CategoryHint(entry) == None && PresetName(entry) == entry
  {
    SplitNoSeparator(entry, '/');
  }

  predicate IsOptionPreset(name: string) {
    exists k :: 0 <= k < |OptionPresets| && OptionPresets[k].preset == name
  }

  datatype Classification = AsLanguage(name: string) | AsTool(name: string) | AsOption(name: string) | Unrecognised(entry: string)

  /**
   * Where an entry goes: languages when hinted so or named by a language rule, else
   * tools when hinted so or named by a tool rule, else options when it is an option
   * preset, else it is unknown.
   */
  function Classify(rules: seq<Rule>, entry: string): (c: Classification)
    ensures HasRule(rules, PresetName(entry), Languages) ==> c == AsLanguage(PresetName(entry))
    ensures c.Unrecognised? <==>
      && CategoryHint(entry) != Some("languages") && CategoryHint(entry) != Some("tools")
      && !HasRule(rules, PresetName(entry), Languages) && !HasRule(rules, PresetName(entry), Tools)
      && !IsOptionPreset(PresetName(entry))
    ensures c.Unrecognised? ==> c.entry == entry
    ensures !c.Unrecognised? ==> c.name == PresetName(entry)
  {
    var name := PresetName(entry);
    var hint := CategoryHint(entry);
    if hint == Some("languages") || HasRule(rules, name, Languages) then AsLanguage(name)
    else if hint == Some("tools") || HasRule(rules, name, Tools) then AsTool(name)
    else if IsOptionPreset(name) then AsOption(name)
    else Unrecognised(entry)
  }

  /**
   * The order of the tests: languages (by hint or rule) before tools (by hint or rule),
   * tools before options, and options before unknown.
   */
  lemma ClassifyOrder(rules: seq<Rule>, entry: string)
    ensures var c, name, hint := Classify(rules, entry), PresetName(entry), CategoryHint(entry);
      && (hint == Some("languages") || HasRule(rules, name, Languages) ==> c == AsLanguage(name))
      && (&& hint != Some("languages") && !HasRule(rules, name, Languages)
          && (hint == Some("tools") || HasRule(rules, name, Tools))
          ==> c == AsTool(name))
      && (&& hint != Some("languages") && !HasRule(rules, name, Languages)
          && hint != Some("tools") && !HasRule(rules, name, Tools)
          && IsOptionPreset(name)
          ==> c == AsOption(name))
  {
  }

  /** The four lists the classification loop fills. */
  datatype Buckets = Buckets(languages: seq<string>, tools: seq<string>, options: seq<string>, unknown: seq<string>)

  /** The classification of each entry, in order. */
  function Classified(rules: seq<Rule>, list: seq<string>): (r: seq<Classification>)
    ensures |r| == |list|
    ensures forall k :: 0 <= k < |list| ==> r[k] == Classify(rules, list[k])
    decreases |list|
  {
    if list == [] then [] else Classified(rules, list[..|list| - 1]) + [Classify(rules, list[|list| - 1])]
  }

  /** The four lists after appending each classified entry to its list, in order. */
  function Gather(cs: seq<Classification>): Buckets
    decreases |cs|
  {
    if cs == [] then Buckets([], [], [], [])
    else
      var b := Gather(cs[..|cs| - 1]);
      match cs[|cs| - 1]
      case AsLanguage(n) => b.(languages := b.languages + [n])
      case AsTool(n) => b.(tools := b.tools + [n])
      case AsOption(n) => b.(options := b.options + [n])
      case Unrecognised(e) => b.(unknown := b.unknown + [e])
  }

  /** Classifications one after the other fill each list with the names of each, in order. */
  lemma {:induction false} GatherConcat(cs1: seq<Classification>, cs2: seq<Classification>)
    ensures var b, b1, b2 := Gather(cs1 + cs2), Gather(cs1), Gather(cs2);
      && b.languages == b1.languages + b2.languages
      && b.tools == b1.tools + b2.tools
      && b.options == b1.options + b2.options
      && b.unknown == b1.unknown + b2.unknown
    decreases |cs2|
  {
    if cs2 == [] {
      assert cs1 + cs2 == cs1;
    } else {
      var init := cs2[..|cs2| - 1];
      GatherConcat(cs1, init);
      ConcatInitLast(cs1, cs2);
      var b1, bi := Gather(cs1), Gather(init);
      match cs2[|cs2| - 1]
      case AsLanguage(n) => ConcatAssoc(b1.languages, bi.languages, [n]);
      case AsTool(n) => ConcatAssoc(b1.tools, bi.tools, [n]);
      case AsOption(n) => ConcatAssoc(b1.options, bi.options, [n]);
      case Unrecognised(e) => ConcatAssoc(b1.unknown, bi.unknown, [e]);
    }
  }

  /** The lists the classification loop fills from the preset list. */
  function Sorted(rules: seq<Rule>, list: seq<string>): Buckets {
    Gather(Classified(rules, list))
  }

  /** The classification loop over the preset list, with its early `continue`s. */
  method ClassifyPresets(rules: seq<Rule>, list: seq<string>) returns (b: Buckets)
    ensures b == Sorted(rules, list)
  {
    var langs, tools, opts, unknown := [], [], [], [];
    for i := 0 to |list|
      invariant Buckets(langs, tools, opts, unknown) == Sorted(rules, list[..i])
    {
      assert list[..i + 1][..i] == list[..i];
      ghost var cs := Classified(rules, list[..i + 1]);
      assert cs[..i] == Classified(rules, list[..i]);
      var pstr := list[i];
      var parts := Split(pstr, '/');
      var presetName := if |parts| > 1 then parts[1] else parts[0];
      var categoryHint := if |parts| > 1 then Some(parts[0]) else None;
      if categoryHint == Some("languages") || HasRule(rules, presetName, Languages) {
        langs := langs + [presetName];
        continue;
      }
      if categoryHint == Some("tools") || HasRule(rules, presetName, Tools) {
        tools := tools + [presetName];
        continue;
      }
      if IsOptionPreset(presetName) {
        opts := opts + [presetName];
        continue;
      }
      unknown := unknown + [pstr];
    }
    assert list[..|list|] == list;
    b := Buckets(langs, tools, opts, unknown);
  }

  /** Every classified entry lands in exactly one list. */
  lemma {:induction false} GatherPartition(cs: seq<Classification>)
    ensures var b := Gather(cs);
      |b.languages| + |b.tools| + |b.options| + |b.unknown| == |cs|
    decreases |cs|
  {
    if cs != [] {
      GatherPartition(cs[..|cs| - 1]);
    }
  }

  /** Each list holds exactly the names of its kind of classification. */
  lemma {:induction false} GatherMembers(cs: seq<Classification>, x: string)
    ensures x in Gather(cs).languages <==> AsLanguage(x) in cs
    ensures x in Gather(cs).tools <==> AsTool(x) in cs
    ensures x in Gather(cs).options <==> AsOption(x) in cs
    ensures x in Gather(cs).unknown <==> Unrecognised(x) in cs
    decreases |cs|
  {
    if cs != [] {
      var init, last := cs[..|cs| - 1], cs[|cs| - 1];
      GatherMembers(init, x);
      assert cs == init + [last];
    }
  }

  /** A classification occurs exactly when some entry of the list receives it. */
  lemma ClassifiedMembers(rules: seq<Rule>, list: seq<string>, c: Classification)
    ensures c in Classified(rules, list) <==> exists e :: e in list && Classify(rules, e) == c
  {
    var cs := Classified(rules, list);
    if c in cs {
      var k :| 0 <= k < |cs| && cs[k] == c;
      assert list[k] in list;
    }
    if exists e :: e in list && Classify(rules, e) == c {
      var e :| e in list && Classify(rules, e) == c;
      var k :| 0 <= k < |list| && list[k] == e;
      assert cs[k] == c;
    }
  }

  /** Every entry lands in exactly one list. */
  lemma SortedPartition(rules: seq<Rule>, list: seq<string>)
    ensures var b := Sorted(rules, list);
      |b.languages| + |b.tools| + |b.options| + |b.unknown| == |list|
  {
    GatherPartition(Classified(rules, list));
  }

  /** Each list holds exactly what the classification sends to it. */
  lemma SortedMembers(rules: seq<Rule>, list: seq<string>, x: string)
    ensures x in Sorted(rules, list).languages <==> exists e :: e in list && Classify(rules, e) == AsLanguage(x)
    ensures x in Sorted(rules, list).tools <==> exists e :: e in list && Classify(rules, e) == AsTool(x)
    ensures x in Sorted(rules, list).options <==> exists e :: e in list && Classify(rules, e) == AsOption(x)
    ensures x in Sorted(rules, list).unknown <==> exists e :: e in list && Classify(rules, e) == Unrecognised(x)
  {
    GatherMembers(Classified(rules, list), x);
    ClassifiedMembers(rules, list, AsLanguage(x));
    ClassifiedMembers(rules, list, AsTool(x));
    ClassifiedMembers(rules, list, AsOption(x));
    ClassifiedMembers(rules, list, Unrecognised(x));
  }

  /** The unknown list is exactly the unrecognised entries, and they are written back unchanged. */
  lemma SortedUnknown(rules: seq<Rule>, list: seq<string>)
    ensures Sorted(rules, list).unknown == [] <==>
      forall e :: e in list ==> !Classify(rules, e).Unrecognised?
  {
    var u := Sorted(rules, list).unknown;
    if u != [] {
      SortedMembers(rules, list, u[0]);
    }
    if exists e :: e in list && Classify(rules, e).Unrecognised? {
      var e :| e in list && Classify(rules, e).Unrecognised?;
      SortedMembers(rules, list, Classify(rules, e).entry);
    }
  }

  /**
   * The `--presets` path: any unknown entry is an error listing the unknown entries;
   * otherwise each list is made duplicate-free, first occurrence kept.
   */
  function SelectFromPresets(rules: seq<Rule>, raw: string): (r: Result<Selection, seq<string>>)
    ensures r.Failure? ==> r.error != []
    ensures r.Success? ==> NoDup(r.value.languages) && NoDup(r.value.tools) && NoDup(r.value.options)
  {
    var b := Sorted(rules, PresetList(raw));
    if |b.unknown| > 0 then Failure(b.unknown)
    else Success(Selection(Dedup(b.languages), Dedup(b.tools), Dedup(b.options)))
  }

  /**
   * The run fails exactly when some entry is unrecognised; a selection that is produced
   * holds exactly the classified names, each in the list its classification chose.
   */
  lemma SelectFromPresetsSpec(rules: seq<Rule>, raw: string, x: string)
    ensures SelectFromPresets(rules, raw).Failure? <==>
      exists e :: e in PresetList(raw) && Classify(rules, e).Unrecognised?
    ensures SelectFromPresets(rules, raw).Success? ==>
      && (x in SelectFromPresets(rules, raw).value.languages <==>
            exists e :: e in PresetList(raw) && Classify(rules, e) == AsLanguage(x))
      && (x in SelectFromPresets(rules, raw).value.tools <==>
            exists e :: e in PresetList(raw) && Classify(rules, e) == AsTool(x))
      && (x in SelectFromPresets(rules, raw).value.options <==>
            exists e :: e in PresetList(raw) && Classify(rules, e) == AsOption(x))
  {
    SortedUnknown(rules, PresetList(raw));
    SortedMembers(rules, PresetList(raw), x);
  }

  /** Naming a language preset under the tools hint still selects it as a language. */
  lemma LanguageRuleBeatsToolsHint(rules: seq<Rule>, name: string)
    requires '/' !in name
    requires HasRule(rules, name, Languages)
    ensures Classify(rules, "tools" + "/" + name) == AsLanguage(name)
  {
    assert forall k :: 0 <= k < |"tools"| ==> "tools"[k] != '/';
    HintedEntry("tools", name);
  }

  /** `tools/nodejs` lands in languages with the compiled table. */
  lemma ToolsNodejsIsLanguage()
    ensures Classify(DistRules, "tools/nodejs") == AsLanguage("nodejs")
  {
    assert DistRules[0].preset == "nodejs" && DistRules[0].category == Languages;
    assert forall k :: 0 <= k < |"nodejs"| ==> "nodejs"[k] != '/';
    LanguageRuleBeatsToolsHint(DistRules, "nodejs");
    assert "tools" + "/" + "nodejs" == "tools/nodejs";
  }

  // ---------------------------------------------------------------------------
  // --yes

  /** The detected presets that some rule of the table puts in the category, in order. */
  function OfCategory(rules: seq<Rule>, detected: seq<string>, category: Category): (r: seq<string>)
    ensures |r| <= |detected|
    ensures forall x :: x in r <==> x in detected && HasRule(rules, x, category)
    ensures NoDup(detected) ==> NoDup(r)
    decreases |detected|
  {
    if detected == [] then []
    else
      var init := OfCategory(rules, detected[..|detected| - 1], category);
      var x := detected[|detected| - 1];
      assert detected == detected[..|detected| - 1] + [x];
      if HasRule(rules, x, category) then init + [x] else init
  }

  /** Detected presets one after the other are filtered each in turn, in order. */
  lemma {:induction false} OfCategoryConcat(rules: seq<Rule>, a: seq<string>, b: seq<string>, category: Category)
    ensures OfCategory(rules, a + b, category) == OfCategory(rules, a, category) + OfCategory(rules, b, category)
    decreases |b|
  {
    if b == [] {
      assert a + b == a;
    } else {
      var init, x := b[..|b| - 1], b[|b| - 1];
      OfCategoryConcat(rules, a, init, category);
      ConcatInitLast(a, b);
      ConcatAssoc(OfCategory(rules, a, category), OfCategory(rules, init, category), [x]);
    }
  }

  /** `--yes`: the detected languages and tools, each by its rule's category, and no options. */
  function AutoSelect(rules: seq<Rule>, detected: seq<string>): (sel: Selection)
    ensures sel.options == []
    ensures forall x :: x in sel.languages <==> x in detected && HasRule(rules, x, Languages)
    ensures forall x :: x in sel.tools <==> x in detected && HasRule(rules, x, Tools)
  {
    Selection(OfCategory(rules, detected, Languages), OfCategory(rules, detected, Tools), [])
  }

  /**
   * Auto-selection from a scan: every detected preset of a table with distinct preset
   * ids lands in exactly one of the two lists, once, and nothing else does.
   */
  lemma AutoSelectFromScan(rules: seq<Rule>, scan: ScanResult, x: string)
    requires DistinctPresets(rules)
    ensures var sel := AutoSelect(rules, Dedup(AllPresetIds(scan)));
      && NoDup(sel.languages) && NoDup(sel.tools) && sel.options == []
      && !(x in sel.languages && x in sel.tools)
      && (x in sel.languages || x in sel.tools <==>
            x in AllPresetIds(scan) && (HasRule(rules, x, Languages) || HasRule(rules, x, Tools)))
  {
  }

  // ---------------------------------------------------------------------------
  // --output

  /** `files.find(f => f.isRoot)`, as a position. */
  function FirstRootIndex(files: seq<OutputFile>): (r: Option<nat>)
    ensures r.None? <==> forall k :: 0 <= k < |files| ==> !files[k].isRoot
    ensures r.Some? ==>
      && r.value < |files| && files[r.value].isRoot
      && forall k :: 0 <= k < r.value ==> !files[k].isRoot
    decreases |files|
  {
    if files == [] then None
    else if files[0].isRoot then Some(0)
    else
      match FirstRootIndex(files[1..])
      case None => None
      case Some(i) => Some(i + 1)
  }

  /**
   * The shown form of the user's output location: as given if it starts with '.', else
   * "./" before it. It always starts with '.', and keeps exactly the locations that do.
   */
  function DisplayForm(raw: string): (d: string)
    ensures StartsWith(d, ".")
    ensures StartsWith(raw, ".") <==> d == raw
    ensures !StartsWith(raw, ".") ==> d == "./" + raw
  {
    if StartsWith(raw, ".") then raw
    else
      var d := "./" + raw;
      assert d[..1] == "./"[..1];
      d
  }

  /**
   * The root file redirected to the user's output location: to that file when it
   * names a `.json` file, else to `renovate.json` inside that directory.
   */
  function Redirected(f: OutputFile, cwd: string, raw: string): (g: OutputFile)
    ensures g.config == f.config && g.isRoot == f.isRoot
  {
    var fullPath := if IsAbsolute(raw) then raw else Join(cwd, raw);
    if HasJsonExtension(raw) then
      f.(path := fullPath, displayPath := DisplayForm(raw))
    else
      f.(path := Join(fullPath, ConfigFileName), displayPath := DisplayForm(raw) + ("/" + ConfigFileName))
  }

  /** The `--output` override applied to the first root file, if there is one. */
  function OverrideOutput(files: seq<OutputFile>, cwd: string, raw: string): (r: seq<OutputFile>)
    ensures |r| == |files|
    ensures forall k :: 0 <= k < |files| ==> r[k].config == files[k].config && r[k].isRoot == files[k].isRoot
    ensures forall k :: 0 <= k < |files| && Some(k) != FirstRootIndex(files) ==> r[k] == files[k]
  {
    match FirstRootIndex(files)
    case None => files
    case Some(i) => files[i := Redirected(files[i], cwd, raw)]
  }

  /**
   * What the override makes of the root file: its display path starts with '.', a
   * `.json` target is used as the file itself, and any other target is a directory
   * that receives `renovate.json`.
   */
  lemma RedirectedShape(f: OutputFile, cwd: string, raw: string)
    ensures StartsWith(Redirected(f, cwd, raw).displayPath, ".")
    ensures HasJsonExtension(raw) ==> Redirected(f, cwd, raw).path == if IsAbsolute(raw) then raw else Join(cwd, raw)
    ensures !HasJsonExtension(raw) ==> EndsWith(Redirected(f, cwd, raw).path, ConfigFileName)
    ensures !HasJsonExtension(raw) ==> EndsWith(Redirected(f, cwd, raw).displayPath, "/" + ConfigFileName)
  {
    var d := DisplayForm(raw);
    if !HasJsonExtension(raw) {
      assert |ConfigFileName| == 13;
      AppendShape(d, "/" + ConfigFileName);
    }
  }

  /**
   * Where the override puts the root file: a `.json` target is the file itself, shown
   * in its DisplayForm; any other target is a directory that receives `renovate.json`,
   * in the path and in the shown location.
   */
  lemma RedirectedTarget(f: OutputFile, cwd: string, raw: string)
    ensures var fullPath := if IsAbsolute(raw) then raw else Join(cwd, raw);
      var g := Redirected(f, cwd, raw);
      && (HasJsonExtension(raw) ==> g.path == fullPath && g.displayPath == DisplayForm(raw))
      && (!HasJsonExtension(raw) ==>
            g.path == Join(fullPath, ConfigFileName) && g.displayPath == DisplayForm(raw) + "/" + ConfigFileName)
  {
  }

  /** A string followed by a suffix keeps its first character and ends with the suffix. */
  lemma AppendShape(a: string, b: string)
    ensures StartsWith(a, ".") ==> StartsWith(a + b, ".")
    ensures EndsWith(a + b, b)
  {
    var j := a + b;
    assert j[|j| - |b|..] == b;
    if StartsWith(a, ".") {
      assert j[..1] == a[..1];
    }
  }

  /** On the generated files the override touches the root file alone, which is the first. */
  lemma OverrideGeneratedFiles(root: string, pkgs: seq<string>, sel: Selection, cwd: string, raw: string)
    ensures var files := OutputFiles(root, pkgs, sel);
      OverrideOutput(files, cwd, raw) == [Redirected(files[0], cwd, raw)] + files[1..]
  {
    var files := OutputFiles(root, pkgs, sel);
    assert FirstRootIndex(files) == Some(0);
    UpdateHead(files, Redirected(files[0], cwd, raw));
  }


  // ---------------------------------------------------------------------------
  // main

  /** How a run of `main` ends. */
  datatype Outcome =
    | HelpShown
    | UnknownPresets(entries: seq<string>)
    | Cancelled
    | DryRun(files: seq<OutputFile>)
    | Written(files: seq<OutputFile>)

  /** `scanResult.packages.map(pkg => pkg.relativePath)`. */
  function RelativePaths(packages: seq<PackageLocation>): (r: seq<string>)
    ensures |r| == |packages|
    ensures forall k :: 0 <= k < |packages| ==> r[k] == packages[k].relativePath
    decreases |packages|
  {
    if packages == [] then [] else RelativePaths(packages[..|packages| - 1]) + [packages[|packages| - 1].relativePath]
  }

  /**
   * The selection `main` settles on: from `--presets` if given, else the detected
   * presets for `--yes`, else the interactive answer (None when the prompt is cancelled).
   */
  function ChooseSelection(args: CliArgs, scan: ScanResult, prompted: Option<Selection>): (r: Result<Option<Selection>, seq<string>>)
    ensures r.Failure? <==> PresetsRequested(args) && SelectFromPresets(DistRules, args.presets.value).Failure?
    ensures r.Failure? ==> r.error != []
    ensures (PresetsRequested(args) || args.yes) && r.Success? ==> r.value.Some?
    ensures !PresetsRequested(args) && !args.yes ==> r == Success(prompted)
    ensures PresetsRequested(args) && SelectFromPresets(DistRules, args.presets.value).Success? ==>
      r == Success(Some(SelectFromPresets(DistRules, args.presets.value).value))
    ensures !PresetsRequested(args) && args.yes ==> r == Success(Some(AutoSelect(DistRules, Dedup(AllPresetIds(scan)))))
  {
    if PresetsRequested(args) then
      match SelectFromPresets(DistRules, args.presets.value)
      case Failure(unknown) => Failure(unknown)
      case Success(sel) => Success(Some(sel))
    else if args.yes then Success(Some(AutoSelect(DistRules, Dedup(AllPresetIds(scan)))))
    else Success(prompted)
  }

  /**
   * The files to write for a selection, after the `--output` override: the root first
   * and only there, holding the selection's configuration, then each scanned package's
   * file in scan order, untouched by `--output`.
   */
  function PlannedFiles(args: CliArgs, cwd: string, scan: ScanResult, sel: Selection): (files: seq<OutputFile>)
    ensures |files| == 1 + |scan.packages|
    ensures files[0].config == Config(SchemaUrl, RootExtends(sel))
    ensures forall k :: 0 <= k < |files| ==> (files[k].isRoot <==> k == 0)
    ensures forall k :: 1 <= k < |files| ==> files[k] == PackageFile(cwd, scan.packages[k - 1].relativePath)
  {
    var files := OutputFiles(cwd, RelativePaths(scan.packages), sel);
    if OutputRequested(args) then
      assert FirstRootIndex(files) == Some(0);
      OverrideOutput(files, cwd, args.output.value)
    else files
  }

  /**
   * The planned root file: the generated one, or with `--output` the generated one
   * redirected to the requested location.
   */
  lemma PlannedRootFile(args: CliArgs, cwd: string, scan: ScanResult, sel: Selection)
    ensures PlannedFiles(args, cwd, scan, sel)[0] ==
      if OutputRequested(args) then Redirected(RootFile(cwd, sel), cwd, args.output.value)
      else RootFile(cwd, sel)
  {
    var files := OutputFiles(cwd, RelativePaths(scan.packages), sel);
    if OutputRequested(args) {
      assert FirstRootIndex(files) == Some(0);
    }
  }

  /** `--output out.json` under a project directory cwd: the file `cwd/out.json`, shown as `./out.json`. */
  lemma OutputFileExample(f: OutputFile, cwd: string, raw: string)
    requires cwd != "" && cwd != "." && raw == "out.json"
    ensures Redirected(f, cwd, raw).path == cwd + "/" + raw
    ensures Redirected(f, cwd, raw).displayPath == "./" + raw
  {
    PlainName(raw);
    assert raw[|raw| - 5..] == ".json";
    assert HasJsonExtension(raw);
    RedirectedTarget(f, cwd, raw);
  }

  /**
   * `--output config` under a project directory cwd: the file `cwd/config/renovate.json`,
   * shown as `./config/renovate.json`.
   */
  lemma OutputDirectoryExample(f: OutputFile, cwd: string, raw: string)
    requires cwd != "" && cwd != "." && raw == "config"
    ensures Redirected(f, cwd, raw).path == cwd + "/" + raw + "/" + ConfigFileName
    ensures Redirected(f, cwd, raw).displayPath == "./" + raw + "/" + ConfigFileName
  {
    PlainName(raw);
    assert !HasJsonExtension(raw);
    assert ConfigFileName != "";
    RedirectedTarget(f, cwd, raw);
  }

  /** A relative name without '/' or a leading '.' is its own last segment. */
  lemma PlainName(raw: string)
    requires raw == "out.json" || raw == "config"
    ensures Segments(raw) == [raw] && !IsAbsolute(raw) && !StartsWith(raw, ".")
  {
    assert forall k :: 0 <= k < |raw| ==> raw[k] != '/';
    SplitNoSeparator(raw, '/');
  }

  /**
   * `main` after parsing and scanning: help first, then the selection, the planned
   * files, the dry run, and the confirmation, which `--yes` skips. The prompt's answer
   * and the confirmation are inputs.
   */
  function Run(args: CliArgs, cwd: string, scan: ScanResult, prompted: Option<Selection>, confirmed: bool): (out: Outcome)
    ensures out.HelpShown? <==> args.help
    ensures out.UnknownPresets? ==> PresetsRequested(args) && out.entries != []
    ensures out.DryRun? ==> args.dryRun
    ensures out.Written? ==> !args.dryRun && (args.yes || confirmed)
    ensures var r := ChooseSelection(args, scan, prompted);
      !args.help && r.Failure? ==> out == UnknownPresets(r.error)
    ensures !args.help && ChooseSelection(args, scan, prompted) == Success(None) ==> out == Cancelled
    ensures var r := ChooseSelection(args, scan, prompted);
      !args.help && r.Success? && r.value.Some? ==>
        var files := PlannedFiles(args, cwd, scan, r.value.value);
        && (args.dryRun ==> out == DryRun(files))
        && (!args.dryRun && (args.yes || confirmed) ==> out == Written(files))
        && (!args.dryRun && !args.yes && !confirmed ==> out == Cancelled)
  {
    if args.help then HelpShown
    else
      match ChooseSelection(args, scan, prompted)
      case Failure(unknown) => UnknownPresets(unknown)
      case Success(None) => Cancelled
      case Success(Some(sel)) =>
        var files := PlannedFiles(args, cwd, scan, sel);
        if args.dryRun then DryRun(files)
        else if !args.yes && !confirmed then Cancelled
        else Written(files)
  }

  /**
   * What is written: the root file first and only once, then one file per package in
   * scan order, each unchanged by `--output`.
   */
  lemma WrittenFiles(args: CliArgs, cwd: string, scan: ScanResult, prompted: Option<Selection>, confirmed: bool)
    ensures var out := Run(args, cwd, scan, prompted, confirmed);
      out.Written? ==>
        && |out.files| == 1 + |scan.packages|
        && (forall k :: 0 <= k < |out.files| ==> (out.files[k].isRoot <==> k == 0))
        && forall k :: 1 <= k < |out.files| ==> out.files[k] == PackageFile(cwd, scan.packages[k - 1].relativePath)
  {
  }

  /** Unknown presets stop the run before anything is written, prompted or confirmed. */
  lemma UnknownPresetsStop(args: CliArgs, cwd: string, scan: ScanResult, prompted: Option<Selection>, confirmed: bool)
    requires !args.help && PresetsRequested(args)
    requires SelectFromPresets(DistRules, args.presets.value).Failure?
    ensures Run(args, cwd, scan, prompted, confirmed) == UnknownPresets(SelectFromPresets(DistRules, args.presets.value).error)
  {
  }

  /** With `--yes` neither the prompt nor the confirmation has a say. */
  lemma YesNeverAsks(args: CliArgs, cwd: string, scan: ScanResult,
                     p1: Option<Selection>, c1: bool, p2: Option<Selection>, c2: bool)
    requires args.yes
    ensures Run(args, cwd, scan, p1, c1) == Run(args, cwd, scan, p2, c2)
  {
  }
}
