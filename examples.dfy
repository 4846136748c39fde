/** The four-layer configuration of the rule's test suite, and its test cases as lemmas
    about the model. */
module FirewallExamples {
  import opened Wrappers
  import opened Strings
  import opened OrderedMap
  import opened LayerRegistry
  import opened Paths
  import opened Classify
  import opened Firewall

  /** Each layer may import itself and the layers below it. */
  const Fixture: seq<Layer> := [
    Layer("app", "/src/app/", "@app/", ["app", "widget", "feature", "shared"]),
    Layer("widget", "/src/widgets/", "@widgets/", ["widget", "feature", "shared"]),
    Layer("feature", "/src/features/", "@features/", ["feature", "shared"]),
    Layer("shared", "/src/shared/", "@shared/", ["shared"])
  ]

  /** The layer whose directory under `src`, and whose alias after `@`, is `dir`. */
  function LayerOfDirectory(dir: string): Option<string>
  {
    if dir == "app" then Some("app")
    else if dir == "widgets" then Some("widget")
    else if dir == "features" then Some("feature")
    else if dir == "shared" then Some("shared")
    else None
  }

  /** The three lists of pairs the registry is built from, for the fixture. */
  lemma FixturePairs()
    ensures PathPairs(Fixture)
         == [("/src/app/", "app"), ("/src/widgets/", "widget"), ("/src/features/", "feature"), ("/src/shared/", "shared")]
    ensures AliasPairs(Fixture)
         == [("@app/", "app"), ("@widgets/", "widget"), ("@features/", "feature"), ("@shared/", "shared")]
    ensures RulePairs(Fixture)
         == [("app", ["app", "widget", "feature", "shared"]), ("widget", ["widget", "feature", "shared"]),
             ("feature", ["feature", "shared"]), ("shared", ["shared"])]
  {
  }

  lemma DistinctFour(a: string, b: string, c: string, d: string)
    requires a != b && a != c && a != d && b != c && b != d && c != d
    ensures Distinct([a, b, c, d])
  {
  }

  /** The path map of the fixture, in registry order. */
  predicate FixturePaths(m: Entries<string>)
  {
    |m| == 4 && m[0] == ("/src/app/", "app") && m[1] == ("/src/widgets/", "widget")
    && m[2] == ("/src/features/", "feature") && m[3] == ("/src/shared/", "shared")
  }

  /** The alias map of the fixture, in registry order. */
  predicate FixtureAliases(m: Entries<string>)
  {
    |m| == 4 && m[0] == ("@app/", "app") && m[1] == ("@widgets/", "widget")
    && m[2] == ("@features/", "feature") && m[3] == ("@shared/", "shared")
  }

  /** The rule map of the fixture, in registry order. */
  predicate FixtureRules(m: Entries<seq<string>>)
  {
    m == [("app", ["app", "widget", "feature", "shared"]), ("widget", ["widget", "feature", "shared"]),
          ("feature", ["feature", "shared"]), ("shared", ["shared"])]
  }

  /** A registry holding the fixture's three maps. */
  predicate IsFixture(reg: Registry)
  {
    FixturePaths(reg.byPath) && FixtureAliases(reg.byAlias) && FixtureRules(reg.rules)
  }

  /** The fixture repeats no name, pattern or alias, so the registry built from it holds its
      layers in order; every test case below is stated for such a registry. */
  lemma FixtureRegistry()
    ensures WellFormed(Fixture)
    ensures IsFixture(Of(Fixture))
  {
    FixturePairs();
    assert Keys(PathPairs(Fixture)) == ["/src/app/", "/src/widgets/", "/src/features/", "/src/shared/"];
    assert Keys(AliasPairs(Fixture)) == ["@app/", "@widgets/", "@features/", "@shared/"];
    assert Keys(RulePairs(Fixture)) == ["app", "widget", "feature", "shared"];
    DistinctFour("/src/app/", "/src/widgets/", "/src/features/", "/src/shared/");
    DistinctFour("@app/", "@widgets/", "@features/", "@shared/");
    assert "widget"[0] != "shared"[0];
    DistinctFour("app", "widget", "feature", "shared");
    OfWellFormed(Fixture);
  }

  /** The allow-lists of the fixture, as the evaluator reads them. */
  lemma FixtureAllowed(reg: Registry)
    requires IsFixture(reg)
    ensures AllowedFor(reg, "app") == ["app", "widget", "feature", "shared"]
    ensures AllowedFor(reg, "widget") == ["widget", "feature", "shared"]
    ensures AllowedFor(reg, "feature") == ["feature", "shared"]
    ensures AllowedFor(reg, "shared") == ["shared"]
  {
    var m := reg.rules;
    assert Keys(m) == ["app", "widget", "feature", "shared"];
    assert "widget"[0] != "shared"[0];
    DistinctFour("app", "widget", "feature", "shared");
    GetDistinct(m, 0);
    GetDistinct(m, 1);
    GetDistinct(m, 2);
    GetDistinct(m, 3);
  }

  /** Segments of a path with `src` nowhere but in second place, as in `/project/src/...`. */
  predicate SourceTree(segs: seq<string>)
  {
    (forall k :: 0 <= k < |segs| ==> '/' !in segs[k] && '\\' !in segs[k])
    && (forall k :: 0 <= k < |segs| && k != 1 ==> segs[k] != "src")
  }

  /** In such a path, `/src/<dir>/` occurs exactly when `dir` follows `src` and is not the last segment. */
  lemma SourcePattern(segs: seq<string>, dir: string, pat: string)
    requires SourceTree(segs) && '/' !in dir && pat == "/src/" + dir + "/"
    ensures Contains(Slashed(segs), pat) <==> 3 < |segs| && segs[1] == "src" && segs[2] == dir
  {
    var ps := ["src", dir];
    assert ps[0] == "src" && ps[1..] == [dir] && [dir][1..] == [];
    assert Slashed([dir]) == "/" + dir + Slashed([]);
    assert Slashed(ps) == "/" + "src" + Slashed([dir]);
    assert pat == Slashed(ps) + "/";
    SlashedContains(segs, ps);
    if exists k :: 0 <= k && RunAt(segs, ps, k) {
      var k :| 0 <= k && RunAt(segs, ps, k);
      assert segs[k] == segs[k..k + 2][0] && segs[k + 1] == segs[k..k + 2][1];
    }
    if 3 < |segs| && segs[1] == "src" && segs[2] == dir {
      assert segs[1..3] == [segs[1], segs[2]];
      assert RunAt(segs, ps, 1);
    }
  }

  /** A first-match scan over four entries, spelled out. */
  lemma FirstMatchFour(m: Entries<string>, test: Test, s: string)
    requires |m| == 4
    ensures FirstMatch(m, test, s)
         == if Matches(test, m[0].0, s) then Some(m[0].1)
            else if Matches(test, m[1].0, s) then Some(m[1].1)
            else if Matches(test, m[2].0, s) then Some(m[2].1)
            else if Matches(test, m[3].0, s) then Some(m[3].1)
            else None
  {
    var m1 := m[1..];
    var m2 := m1[1..];
    var m3 := m2[1..];
    assert m1[0] == m[1] && m2[0] == m[2] && m3[0] == m[3] && m3[1..] == [];
    assert FirstMatch(m3, test, s) == if Matches(test, m[3].0, s) then Some(m[3].1) else None;
    assert FirstMatch(m2, test, s)
        == if Matches(test, m[2].0, s) then Some(m[2].1) else FirstMatch(m3, test, s);
    assert FirstMatch(m1, test, s)
        == if Matches(test, m[1].0, s) then Some(m[1].1) else FirstMatch(m2, test, s);
  }

  /** The path scan assigns such a path the layer of the directory after `src`. */
  lemma PathScan(m: Entries<string>, segs: seq<string>)
    requires FixturePaths(m) && SourceTree(segs)
    ensures FirstMatch(m, Substring, Slashed(segs))
         == if 3 < |segs| && segs[1] == "src" then LayerOfDirectory(segs[2]) else None
  {
    SourcePattern(segs, "app", m[0].0);
    SourcePattern(segs, "widgets", m[1].0);
    SourcePattern(segs, "features", m[2].0);
    SourcePattern(segs, "shared", m[3].0);
    FirstMatchFour(m, Substring, Slashed(segs));
  }

  /** A file of such a path is in the layer of the directory after `src`, if any. */
  lemma FileLayer(reg: Registry, filePath: string, segs: seq<string>)
    requires IsFixture(reg) && SourceTree(segs) && filePath == Slashed(segs)
    ensures PathLayer(reg, filePath) == if 3 < |segs| && segs[1] == "src" then LayerOfDirectory(segs[2]) else None
  {
    SlashedBackslashFree(segs);
    NormalizeKeeps(Slashed(segs));
    PathScan(reg.byPath, segs);
  }

  /** The alias scan assigns `@<dir>/...` the layer of `dir`. */
  lemma AliasScan(m: Entries<string>, dir: string, rest: string)
    requires FixtureAliases(m) && '/' !in dir
    ensures FirstMatch(m, Prefix, "@" + dir + "/" + rest) == LayerOfDirectory(dir)
  {
    var imp := "@" + dir + "/" + rest;
    forall d, a | '/' !in d && a == "@" + d + "/"
      ensures StartsWith(imp, a) <==> d == dir
    {
      assert a == ['@'] + (d + "/") && imp == ['@'] + (dir + ("/" + rest));
      PrefixAfterChar('@', d + "/", dir + ("/" + rest));
      SegmentPrefix(d, dir, "/", "/" + rest);
    }
    assert m[0].0 == "@" + "app" + "/";
    assert m[1].0 == "@" + "widgets" + "/";
    assert m[2].0 == "@" + "features" + "/";
    assert m[3].0 == "@" + "shared" + "/";
    FirstMatchFour(m, Prefix, imp);
  }

  /** A specifier that does not begin with `@` starts with no alias. */
  lemma NoAlias(m: Entries<string>, imp: string)
    requires FixtureAliases(m) && (imp == [] || imp[0] != '@')
    ensures FirstMatch(m, Prefix, imp) == None
  {
    FirstMatchFour(m, Prefix, imp);
  }

  /** A specifier `@<dir>/...` is not external when `dir` names a layer, and has that layer. */
  lemma AliasImport(reg: Registry, filePath: string, importPath: string, dir: string, rest: string)
    requires IsFixture(reg) && '/' !in dir && importPath == "@" + dir + "/" + rest
    requires LayerOfDirectory(dir).Some?
    ensures !IsExternal(reg, importPath)
    ensures ImportLayer(reg, filePath, importPath) == LayerOfDirectory(dir)
  {
    AliasScan(reg.byAlias, dir, rest);
    ExternalIff(reg, filePath, importPath);
  }

  /** An importing file under `src/`, written as its directory and its name. */
  predicate SourceDirectory(dir: seq<string>, file: string)
  {
    WellFormedSegments(dir + [file]) && SourceTree(dir + [file])
  }

  /** A relative specifier, written as its parts: the first is `.` or `..`. */
  predicate RelativeParts(parts: seq<string>)
  {
    WellFormedSegments(parts) && |parts| >= 2 && (parts[0] == "." || parts[0] == "..")
  }

  /** A directory stack under `src/<d>/` for a layer directory `d`. */
  predicate LayerStack(resolved: seq<string>)
  {
    SourceTree(resolved + [""]) && 2 < |resolved| && resolved[1] == "src"
    && LayerOfDirectory(resolved[2]).Some?
  }

  /** Such a specifier is not external and takes the layer of the directory after `src` in
      the resolved stack. */
  lemma RelativeImport(reg: Registry, filePath: string, importPath: string,
                       dir: seq<string>, file: string, parts: seq<string>, resolved: seq<string>)
    requires IsFixture(reg) && SourceDirectory(dir, file) && RelativeParts(parts)
    requires Resolve(dir, parts) == resolved && LayerStack(resolved)
    requires filePath == Slashed(dir + [file]) && importPath == Join(parts, "/")
    ensures !IsExternal(reg, importPath)
    ensures ImportLayer(reg, filePath, importPath) == LayerOfDirectory(resolved[2])
  {
    var segs := dir + [file];
    assert importPath == parts[0] + "/" + Join(parts[1..], "/");
    assert parts[0] == "." ==> StartsWith(importPath, "./");
    assert parts[0] == ".." ==> StartsWith(importPath, "../");
    NoAlias(reg.byAlias, importPath);
    ExternalIff(reg, filePath, importPath);
    SlashedBackslashFree(segs);
    NormalizeKeeps(filePath);
    SegmentsOfSlashed(segs);
    NonEmptyKeepsAll(segs);
    NonEmptyKeepsAll(parts);
    SegmentsOfJoin(parts);
    assert segs[..|segs| - 1] == dir;
    assert Directory(filePath) == dir;
    SlashedIsJoin(resolved);
    SlashedSnoc(resolved, "");
    assert ResolvedPath(filePath, importPath) == Slashed(resolved + [""]);
    PathScan(reg.byPath, resolved + [""]);
  }

  /** A file of layer `current` importing through the alias of a layer: the allow-list test
      of `current` decides. */
  lemma AliasCase(reg: Registry, filePath: string, importPath: string, current: string, dir: string, rest: string)
    requires IsFixture(reg) && PathLayer(reg, filePath) == Some(current) && current != ""
    requires '/' !in dir && importPath == "@" + dir + "/" + rest && LayerOfDirectory(dir).Some?
    ensures var imported := LayerOfDirectory(dir).value;
            Decide(reg, filePath, importPath)
            == if imported in AllowedFor(reg, current) then None
               else Some(Diagnostic(current, imported, FormatAllowed(AllowedFor(reg, current))))
  {
    AliasImport(reg, filePath, importPath, dir, rest);
    CheckedImport(reg, filePath, importPath, current, LayerOfDirectory(dir).value);
  }

  /** A file of layer `current` importing by a relative specifier: the allow-list test of
      `current` decides, on the layer of the resolved directory. */
  lemma RelativeCase(reg: Registry, filePath: string, importPath: string, current: string,
                     dir: seq<string>, file: string, parts: seq<string>, resolved: seq<string>)
    requires IsFixture(reg) && PathLayer(reg, filePath) == Some(current) && current != ""
    requires SourceDirectory(dir, file) && RelativeParts(parts)
    requires Resolve(dir, parts) == resolved && LayerStack(resolved)
    requires filePath == Slashed(dir + [file]) && importPath == Join(parts, "/")
    ensures var imported := LayerOfDirectory(resolved[2]).value;
            Decide(reg, filePath, importPath)
            == if imported in AllowedFor(reg, current) then None
               else Some(Diagnostic(current, imported, FormatAllowed(AllowedFor(reg, current))))
  {
    RelativeImport(reg, filePath, importPath, dir, file, parts, resolved);
    CheckedImport(reg, filePath, importPath, current, LayerOfDirectory(resolved[2]).value);
  }

  /** A file under `src/<dir>/`, written as its segments. */
  predicate SourceFile(segs: seq<string>, dir: string)
  {
    SourceTree(segs) && 3 < |segs| && segs[1] == "src" && segs[2] == dir
  }

  /** The `allowed` text of a report from the widget layer. */
  lemma WidgetReportText()
    ensures FormatAllowed(["widget", "feature", "shared"]) == "widget, feature, shared, node_modules"
  {
    assert ["widget", "feature", "shared"][1..] == ["feature", "shared"];
    assert ["feature", "shared"][1..] == ["shared"];
    assert "feature" + ", " == "feature, ";
    assert "feature, " + "shared" == "feature, shared";
    assert "widget" + ", " == "widget, ";
    assert "widget, " + "feature, shared" == "widget, feature, shared";
    assert "widget, feature, shared" + ", node_modules" == "widget, feature, shared, node_modules";
  }

  /** The `allowed` text of a report from the feature layer. */
  lemma FeatureReportText()
    ensures FormatAllowed(["feature", "shared"]) == "feature, shared, node_modules"
  {
    assert ["feature", "shared"][1..] == ["shared"];
    assert "feature" + ", " == "feature, ";
    assert "feature, " + "shared" == "feature, shared";
    assert "feature, shared" + ", node_modules" == "feature, shared, node_modules";
  }

  /** The `allowed` text of a report from the shared layer. */
  lemma SharedReportText()
    ensures FormatAllowed(["shared"]) == "shared, node_modules"
  {
    assert "shared" + ", node_modules" == "shared, node_modules";
  }

  /** `/project/src/app/index.js` lies under `src/app/`. */
  lemma AppIndexFile()
    ensures SourceFile(["project", "src", "app", "index.js"], "app")
    ensures ["project", "src", "app", "index.js"] == ["project", "src", "app"] + ["index.js"] && WellFormedSegments(["project", "src", "app", "index.js"])
  {
  }

  /** `/project/src/app/components/button.js` lies under `src/app/`. */
  lemma AppButtonFile()
    ensures SourceFile(["project", "src", "app", "components", "button.js"], "app")
    ensures ["project", "src", "app", "components", "button.js"] == ["project", "src", "app", "components"] + ["button.js"] && WellFormedSegments(["project", "src", "app", "components", "button.js"])
  {
  }

  /** `/project/src/widgets/header/index.js` lies under `src/widgets/`. */
  lemma WidgetIndexFile()
    ensures SourceFile(["project", "src", "widgets", "header", "index.js"], "widgets")
    ensures ["project", "src", "widgets", "header", "index.js"] == ["project", "src", "widgets", "header"] + ["index.js"] && WellFormedSegments(["project", "src", "widgets", "header", "index.js"])
  {
  }

  /** `/project/src/widgets/header/components/button.js` lies under `src/widgets/`. */
  lemma WidgetButtonFile()
    ensures SourceFile(["project", "src", "widgets", "header", "components", "button.js"], "widgets")
    ensures ["project", "src", "widgets", "header", "components", "button.js"] == ["project", "src", "widgets", "header", "components"] + ["button.js"] && WellFormedSegments(["project", "src", "widgets", "header", "components", "button.js"])
  {
  }

  /** `/project/src/features/auth/index.js` lies under `src/features/`. */
  lemma FeatureIndexFile()
    ensures SourceFile(["project", "src", "features", "auth", "index.js"], "features")
    ensures ["project", "src", "features", "auth", "index.js"] == ["project", "src", "features", "auth"] + ["index.js"] && WellFormedSegments(["project", "src", "features", "auth", "index.js"])
  {
  }

  /** `/project/src/features/auth/components/form.js` lies under `src/features/`. */
  lemma FeatureFormFile()
    ensures SourceFile(["project", "src", "features", "auth", "components", "form.js"], "features")
    ensures ["project", "src", "features", "auth", "components", "form.js"] == ["project", "src", "features", "auth", "components"] + ["form.js"] && WellFormedSegments(["project", "src", "features", "auth", "components", "form.js"])
  {
  }

  /** `/project/src/shared/utils/index.js` lies under `src/shared/`. */
  lemma SharedIndexFile()
    ensures SourceFile(["project", "src", "shared", "utils", "index.js"], "shared")
    ensures ["project", "src", "shared", "utils", "index.js"] == ["project", "src", "shared", "utils"] + ["index.js"] && WellFormedSegments(["project", "src", "shared", "utils", "index.js"])
  {
  }

  /** `@app/components` is the alias of `app` followed by `components`. */
  lemma AppAlias()
    ensures "@app/components" == "@" + "app" + "/" + "components"
  {
  }

  /** `@widgets/header` is the alias of `widgets` followed by `header`. */
  lemma WidgetAlias()
    ensures "@widgets/header" == "@" + "widgets" + "/" + "header"
  {
  }

  /** `@features/auth` is the alias of `features` followed by `auth`. */
  lemma FeatureAlias()
    ensures "@features/auth" == "@" + "features" + "/" + "auth"
  {
  }

  /** `@shared/utils` is the alias of `shared` followed by `utils`. */
  lemma SharedAlias()
    ensures "@shared/utils" == "@" + "shared" + "/" + "utils"
  {
  }

  /** `/project/src/app/component/` lies under `src/app/`. */
  lemma AppComponentStack()
    ensures LayerStack(["project", "src", "app", "component"])
  {
  }

  /** `/project/src/app/app/other/` lies under `src/app/`. */
  lemma AppOtherStack()
    ensures LayerStack(["project", "src", "app", "app", "other"])
  {
  }

  /** `/project/src/app/components/` lies under `src/app/`. */
  lemma AppComponentsStack()
    ensures LayerStack(["project", "src", "app", "components"])
  {
  }

  /** `/project/src/shared/utils/` lies under `src/shared/`. */
  lemma SharedUtilsStack()
    ensures LayerStack(["project", "src", "shared", "utils"])
  {
  }

  /** Test file lines 48-52: the app layer may import itself through its alias. The file is `/project/src/app/index.js`. */
  lemma AppImportsApp(reg: Registry, filePath: string, importPath: string)
    requires IsFixture(reg)
    requires filePath == Slashed(["project", "src", "app", "index.js"]) && importPath == "@app/components"
    ensures Decide(reg, filePath, importPath) == None
  {
    AppIndexFile();
    FileLayer(reg, filePath, ["project", "src", "app", "index.js"]);
    AppAlias();
    FixtureAllowed(reg);
    AliasCase(reg, filePath, importPath, "app", "app", "components");
  }

  /** Test file lines 53-57: the app layer may import the widget layer. The file is `/project/src/app/index.js`. */
  lemma AppImportsWidget(reg: Registry, filePath: string, importPath: string)
    requires IsFixture(reg)
    requires filePath == Slashed(["project", "src", "app", "index.js"]) && importPath == "@widgets/header"
    ensures Decide(reg, filePath, importPath) == None
  {
    AppIndexFile();
    FileLayer(reg, filePath, ["project", "src", "app", "index.js"]);
    WidgetAlias();
    FixtureAllowed(reg);
    AliasCase(reg, filePath, importPath, "app", "widgets", "header");
  }

  /** Test file lines 58-62: the app layer may import the feature layer. The file is `/project/src/app/index.js`. */
  lemma AppImportsFeature(reg: Registry, filePath: string, importPath: string)
    requires IsFixture(reg)
    requires filePath == Slashed(["project", "src", "app", "index.js"]) && importPath == "@features/auth"
    ensures Decide(reg, filePath, importPath) == None
  {
    AppIndexFile();
    FileLayer(reg, filePath, ["project", "src", "app", "index.js"]);
    FeatureAlias();
    FixtureAllowed(reg);
    AliasCase(reg, filePath, importPath, "app", "features", "auth");
  }

  /** Test file lines 63-67: the app layer may import the shared layer. The file is `/project/src/app/index.js`. */
  lemma AppImportsShared(reg: Registry, filePath: string, importPath: string)
    requires IsFixture(reg)
    requires filePath == Slashed(["project", "src", "app", "index.js"]) && importPath == "@shared/utils"
    ensures Decide(reg, filePath, importPath) == None
  {
    AppIndexFile();
    FileLayer(reg, filePath, ["project", "src", "app", "index.js"]);
    SharedAlias();
    FixtureAllowed(reg);
    AliasCase(reg, filePath, importPath, "app", "shared", "utils");
  }

  /** Test file lines 69-73: the widget layer may import itself. The file is `/project/src/widgets/header/index.js`. */
  lemma WidgetImportsWidget(reg: Registry, filePath: string, importPath: string)
    requires IsFixture(reg)
    requires filePath == Slashed(["project", "src", "widgets", "header", "index.js"]) && importPath == "@widgets/header"
    ensures Decide(reg, filePath, importPath) == None
  {
    WidgetIndexFile();
    FileLayer(reg, filePath, ["project", "src", "widgets", "header", "index.js"]);
    WidgetAlias();
    FixtureAllowed(reg);
    AliasCase(reg, filePath, importPath, "widget", "widgets", "header");
  }

  /** Test file lines 74-78: the widget layer may import the feature layer. The file is `/project/src/widgets/header/index.js`. */
  lemma WidgetImportsFeature(reg: Registry, filePath: string, importPath: string)
    requires IsFixture(reg)
    requires filePath == Slashed(["project", "src", "widgets", "header", "index.js"]) && importPath == "@features/auth"
    ensures Decide(reg, filePath, importPath) == None
  {
    WidgetIndexFile();
    FileLayer(reg, filePath, ["project", "src", "widgets", "header", "index.js"]);
    FeatureAlias();
    FixtureAllowed(reg);
    AliasCase(reg, filePath, importPath, "widget", "features", "auth");
  }

  /** Test file lines 79-83: the widget layer may import the shared layer. The file is `/project/src/widgets/header/index.js`. */
  lemma WidgetImportsShared(reg: Registry, filePath: string, importPath: string)
    requires IsFixture(reg)
    requires filePath == Slashed(["project", "src", "widgets", "header", "index.js"]) && importPath == "@shared/utils"
    ensures Decide(reg, filePath, importPath) == None
  {
    WidgetIndexFile();
    FileLayer(reg, filePath, ["project", "src", "widgets", "header", "index.js"]);
    SharedAlias();
    FixtureAllowed(reg);
    AliasCase(reg, filePath, importPath, "widget", "shared", "utils");
  }

  /** Test file lines 85-89: the feature layer may import itself. The file is `/project/src/features/auth/index.js`. */
  lemma FeatureImportsFeature(reg: Registry, filePath: string, importPath: string)
    requires IsFixture(reg)
    requires filePath == Slashed(["project", "src", "features", "auth", "index.js"]) && importPath == "@features/auth"
    ensures Decide(reg, filePath, importPath) == None
  {
    FeatureIndexFile();
    FileLayer(reg, filePath, ["project", "src", "features", "auth", "index.js"]);
    FeatureAlias();
    FixtureAllowed(reg);
    AliasCase(reg, filePath, importPath, "feature", "features", "auth");
  }

  /** Test file lines 90-94: the feature layer may import the shared layer. The file is `/project/src/features/auth/index.js`. */
  lemma FeatureImportsShared(reg: Registry, filePath: string, importPath: string)
    requires IsFixture(reg)
    requires filePath == Slashed(["project", "src", "features", "auth", "index.js"]) && importPath == "@shared/utils"
    ensures Decide(reg, filePath, importPath) == None
  {
    FeatureIndexFile();
    FileLayer(reg, filePath, ["project", "src", "features", "auth", "index.js"]);
    SharedAlias();
    FixtureAllowed(reg);
    AliasCase(reg, filePath, importPath, "feature", "shared", "utils");
  }

  /** Test file lines 96-100: the shared layer may import itself. The file is `/project/src/shared/utils/index.js`. */
  lemma SharedImportsShared(reg: Registry, filePath: string, importPath: string)
    requires IsFixture(reg)
    requires filePath == Slashed(["project", "src", "shared", "utils", "index.js"]) && importPath == "@shared/utils"
    ensures Decide(reg, filePath, importPath) == None
  {
    SharedIndexFile();
    FileLayer(reg, filePath, ["project", "src", "shared", "utils", "index.js"]);
    SharedAlias();
    FixtureAllowed(reg);
    AliasCase(reg, filePath, importPath, "shared", "shared", "utils");
  }

  /** Test file lines 137-152: the widget layer may not import the app layer; the report lists the widget layer's allow-list in configuration order. The file is `/project/src/widgets/header/index.js`. */
  lemma WidgetImportingAppReported(reg: Registry, filePath: string, importPath: string)
    requires IsFixture(reg)
    requires filePath == Slashed(["project", "src", "widgets", "header", "index.js"]) && importPath == "@app/components"
    ensures Decide(reg, filePath, importPath) == Some(Diagnostic("widget", "app", "widget, feature, shared, node_modules"))
  {
    WidgetIndexFile();
    FileLayer(reg, filePath, ["project", "src", "widgets", "header", "index.js"]);
    AppAlias();
    FixtureAllowed(reg);
    AliasCase(reg, filePath, importPath, "widget", "app", "components");
    WidgetReportText();
  }

  /** Test file lines 154-168: the feature layer may not import the widget layer. The file is `/project/src/features/auth/index.js`. */
  lemma FeatureImportingWidgetReported(reg: Registry, filePath: string, importPath: string)
    requires IsFixture(reg)
    requires filePath == Slashed(["project", "src", "features", "auth", "index.js"]) && importPath == "@widgets/header"
    ensures Decide(reg, filePath, importPath) == Some(Diagnostic("feature", "widget", "feature, shared, node_modules"))
  {
    FeatureIndexFile();
    FileLayer(reg, filePath, ["project", "src", "features", "auth", "index.js"]);
    WidgetAlias();
    FixtureAllowed(reg);
    AliasCase(reg, filePath, importPath, "feature", "widgets", "header");
    FeatureReportText();
  }

  /** Test file lines 169-183: the feature layer may not import the app layer. The file is `/project/src/features/auth/index.js`. */
  lemma FeatureImportingAppReported(reg: Registry, filePath: string, importPath: string)
    requires IsFixture(reg)
    requires filePath == Slashed(["project", "src", "features", "auth", "index.js"]) && importPath == "@app/components"
    ensures Decide(reg, filePath, importPath) == Some(Diagnostic("feature", "app", "feature, shared, node_modules"))
  {
    FeatureIndexFile();
    FileLayer(reg, filePath, ["project", "src", "features", "auth", "index.js"]);
    AppAlias();
    FixtureAllowed(reg);
    AliasCase(reg, filePath, importPath, "feature", "app", "components");
    FeatureReportText();
  }

  /** Test file lines 185-199: the shared layer may not import the app layer. The file is `/project/src/shared/utils/index.js`. */
  lemma SharedImportingAppReported(reg: Registry, filePath: string, importPath: string)
    requires IsFixture(reg)
    requires filePath == Slashed(["project", "src", "shared", "utils", "index.js"]) && importPath == "@app/components"
    ensures Decide(reg, filePath, importPath) == Some(Diagnostic("shared", "app", "shared, node_modules"))
  {
    SharedIndexFile();
    FileLayer(reg, filePath, ["project", "src", "shared", "utils", "index.js"]);
    AppAlias();
    FixtureAllowed(reg);
    AliasCase(reg, filePath, importPath, "shared", "app", "components");
    SharedReportText();
  }

  /** Test file lines 200-214: the shared layer may not import the widget layer. The file is `/project/src/shared/utils/index.js`. */
  lemma SharedImportingWidgetReported(reg: Registry, filePath: string, importPath: string)
    requires IsFixture(reg)
    requires filePath == Slashed(["project", "src", "shared", "utils", "index.js"]) && importPath == "@widgets/header"
    ensures Decide(reg, filePath, importPath) == Some(Diagnostic("shared", "widget", "shared, node_modules"))
  {
    SharedIndexFile();
    FileLayer(reg, filePath, ["project", "src", "shared", "utils", "index.js"]);
    WidgetAlias();
    FixtureAllowed(reg);
    AliasCase(reg, filePath, importPath, "shared", "widgets", "header");
    SharedReportText();
  }

  /** Test file lines 215-229: the shared layer may not import the feature layer. The file is `/project/src/shared/utils/index.js`. */
  lemma SharedImportingFeatureReported(reg: Registry, filePath: string, importPath: string)
    requires IsFixture(reg)
    requires filePath == Slashed(["project", "src", "shared", "utils", "index.js"]) && importPath == "@features/auth"
    ensures Decide(reg, filePath, importPath) == Some(Diagnostic("shared", "feature", "shared, node_modules"))
  {
    SharedIndexFile();
    FileLayer(reg, filePath, ["project", "src", "shared", "utils", "index.js"]);
    FeatureAlias();
    FixtureAllowed(reg);
    AliasCase(reg, filePath, importPath, "shared", "features", "auth");
    SharedReportText();
  }

  /** `./component` is the specifier of these parts. */
  lemma SameDirectoryImportSpecifier()
    ensures "./component" == Join([".", "component"], "/")
  {
  }

  /** From `/project/src/app/index.js`, the parts of `./component` resolve to this stack. */
  lemma SameDirectoryImportResolution()
    ensures RelativeParts([".", "component"]) && Resolve(["project", "src", "app"], [".", "component"]) == ["project", "src", "app", "component"]
  {
    StayThenDescend(["project", "src", "app"], ["component"]);
    assert [".", "component"] == ["."] + ["component"];
  }

  /** Test file lines 102-106: `./component` from an app file resolves inside the app layer. The file is `/project/src/app/index.js`. */
  lemma SameDirectoryImport(reg: Registry, filePath: string, importPath: string)
    requires IsFixture(reg)
    requires filePath == Slashed(["project", "src", "app", "index.js"]) && importPath == "./component"
    ensures Decide(reg, filePath, importPath) == None
  {
    AppIndexFile();
    FileLayer(reg, filePath, ["project", "src", "app", "index.js"]);
    SameDirectoryImportSpecifier();
    SameDirectoryImportResolution();
    AppComponentStack();
    FixtureAllowed(reg);
    RelativeCase(reg, filePath, importPath, "app", ["project", "src", "app"], "index.js", [".", "component"], ["project", "src", "app", "component"]);
  }

  /** `../app/other` is the specifier of these parts. */
  lemma ParentDirectoryImportSpecifier()
    ensures "../app/other" == Join(["..", "app", "other"], "/")
  {
  }

  /** From `/project/src/app/components/button.js`, the parts of `../app/other` resolve to this stack. */
  lemma ParentDirectoryImportResolution()
    ensures RelativeParts(["..", "app", "other"]) && Resolve(["project", "src", "app", "components"], ["..", "app", "other"]) == ["project", "src", "app", "app", "other"]
  {
    ClimbThenDescend(["project", "src", "app", "components"], 1, ["app", "other"]);
    assert ["..", "app", "other"] == seq(1, _ => "..") + ["app", "other"];
  }

  /** Test file lines 107-111: `../app/other` from `app/components/` resolves to `/project/src/app/app/other/`, still in the app layer. The file is `/project/src/app/components/button.js`. */
  lemma ParentDirectoryImport(reg: Registry, filePath: string, importPath: string)
    requires IsFixture(reg)
    requires filePath == Slashed(["project", "src", "app", "components", "button.js"]) && importPath == "../app/other"
    ensures Decide(reg, filePath, importPath) == None
  {
    AppButtonFile();
    FileLayer(reg, filePath, ["project", "src", "app", "components", "button.js"]);
    ParentDirectoryImportSpecifier();
    ParentDirectoryImportResolution();
    AppOtherStack();
    FixtureAllowed(reg);
    RelativeCase(reg, filePath, importPath, "app", ["project", "src", "app", "components"], "button.js", ["..", "app", "other"], ["project", "src", "app", "app", "other"]);
  }

  /** `../../shared/utils` is the specifier of these parts. */
  lemma FeatureImportsSharedRelativeSpecifier()
    ensures "../../shared/utils" == Join(["..", "..", "shared", "utils"], "/")
  {
  }

  /** From `/project/src/features/auth/index.js`, the parts of `../../shared/utils` resolve to this stack. */
  lemma FeatureImportsSharedRelativeResolution()
    ensures RelativeParts(["..", "..", "shared", "utils"]) && Resolve(["project", "src", "features", "auth"], ["..", "..", "shared", "utils"]) == ["project", "src", "shared", "utils"]
  {
    ClimbThenDescend(["project", "src", "features", "auth"], 2, ["shared", "utils"]);
    assert ["..", "..", "shared", "utils"] == seq(2, _ => "..") + ["shared", "utils"];
  }

  /** Test file lines 124-128: two levels up from `features/auth/` reaches the shared layer, which the feature layer may import. The file is `/project/src/features/auth/index.js`. */
  lemma FeatureImportsSharedRelative(reg: Registry, filePath: string, importPath: string)
    requires IsFixture(reg)
    requires filePath == Slashed(["project", "src", "features", "auth", "index.js"]) && importPath == "../../shared/utils"
    ensures Decide(reg, filePath, importPath) == None
  {
    FeatureIndexFile();
    FileLayer(reg, filePath, ["project", "src", "features", "auth", "index.js"]);
    FeatureImportsSharedRelativeSpecifier();
    FeatureImportsSharedRelativeResolution();
    SharedUtilsStack();
    FixtureAllowed(reg);
    RelativeCase(reg, filePath, importPath, "feature", ["project", "src", "features", "auth"], "index.js", ["..", "..", "shared", "utils"], ["project", "src", "shared", "utils"]);
  }

  /** `../../../shared/utils` is the specifier of these parts. */
  lemma WidgetImportsSharedRelativeSpecifier()
    ensures "../../../shared/utils" == Join(["..", "..", "..", "shared", "utils"], "/")
  {
  }

  /** From `/project/src/widgets/header/components/button.js`, the parts of `../../../shared/utils` resolve to this stack. */
  lemma WidgetImportsSharedRelativeResolution()
    ensures RelativeParts(["..", "..", "..", "shared", "utils"]) && Resolve(["project", "src", "widgets", "header", "components"], ["..", "..", "..", "shared", "utils"]) == ["project", "src", "shared", "utils"]
  {
    ClimbThenDescend(["project", "src", "widgets", "header", "components"], 3, ["shared", "utils"]);
    assert ["..", "..", "..", "shared", "utils"] == seq(3, _ => "..") + ["shared", "utils"];
  }

  /** Test file lines 129-133: three levels up from `widgets/header/components/` reaches the shared layer. The file is `/project/src/widgets/header/components/button.js`. */
  lemma WidgetImportsSharedRelative(reg: Registry, filePath: string, importPath: string)
    requires IsFixture(reg)
    requires filePath == Slashed(["project", "src", "widgets", "header", "components", "button.js"]) && importPath == "../../../shared/utils"
    ensures Decide(reg, filePath, importPath) == None
  {
    WidgetButtonFile();
    FileLayer(reg, filePath, ["project", "src", "widgets", "header", "components", "button.js"]);
    WidgetImportsSharedRelativeSpecifier();
    WidgetImportsSharedRelativeResolution();
    SharedUtilsStack();
    FixtureAllowed(reg);
    RelativeCase(reg, filePath, importPath, "widget", ["project", "src", "widgets", "header", "components"], "button.js", ["..", "..", "..", "shared", "utils"], ["project", "src", "shared", "utils"]);
  }

  /** `../../app/components` is the specifier of these parts. */
  lemma WidgetImportingAppRelativeReportedSpecifier()
    ensures "../../app/components" == Join(["..", "..", "app", "components"], "/")
  {
  }

  /** From `/project/src/widgets/header/index.js`, the parts of `../../app/components` resolve to this stack. */
  lemma WidgetImportingAppRelativeReportedResolution()
    ensures RelativeParts(["..", "..", "app", "components"]) && Resolve(["project", "src", "widgets", "header"], ["..", "..", "app", "components"]) == ["project", "src", "app", "components"]
  {
    ClimbThenDescend(["project", "src", "widgets", "header"], 2, ["app", "components"]);
    assert ["..", "..", "app", "components"] == seq(2, _ => "..") + ["app", "components"];
  }

  /** Test file lines 231-245: a relative import that climbs from `widgets/header/` into the app layer is reported like the aliased one. The file is `/project/src/widgets/header/index.js`. */
  lemma WidgetImportingAppRelativeReported(reg: Registry, filePath: string, importPath: string)
    requires IsFixture(reg)
    requires filePath == Slashed(["project", "src", "widgets", "header", "index.js"]) && importPath == "../../app/components"
    ensures Decide(reg, filePath, importPath) == Some(Diagnostic("widget", "app", "widget, feature, shared, node_modules"))
  {
    WidgetIndexFile();
    FileLayer(reg, filePath, ["project", "src", "widgets", "header", "index.js"]);
    WidgetImportingAppRelativeReportedSpecifier();
    WidgetImportingAppRelativeReportedResolution();
    AppComponentsStack();
    FixtureAllowed(reg);
    RelativeCase(reg, filePath, importPath, "widget", ["project", "src", "widgets", "header"], "index.js", ["..", "..", "app", "components"], ["project", "src", "app", "components"]);
    WidgetReportText();
  }

  /** `../../../app/components` is the specifier of these parts. */
  lemma FeatureImportingAppRelativeReportedSpecifier()
    ensures "../../../app/components" == Join(["..", "..", "..", "app", "components"], "/")
  {
  }

  /** From `/project/src/features/auth/components/form.js`, the parts of `../../../app/components` resolve to this stack. */
  lemma FeatureImportingAppRelativeReportedResolution()
    ensures RelativeParts(["..", "..", "..", "app", "components"]) && Resolve(["project", "src", "features", "auth", "components"], ["..", "..", "..", "app", "components"]) == ["project", "src", "app", "components"]
  {
    ClimbThenDescend(["project", "src", "features", "auth", "components"], 3, ["app", "components"]);
    assert ["..", "..", "..", "app", "components"] == seq(3, _ => "..") + ["app", "components"];
  }

  /** Test file lines 246-260: three levels up from `features/auth/components/` into the app layer is reported. The file is `/project/src/features/auth/components/form.js`. */
  lemma FeatureImportingAppRelativeReported(reg: Registry, filePath: string, importPath: string)
    requires IsFixture(reg)
    requires filePath == Slashed(["project", "src", "features", "auth", "components", "form.js"]) && importPath == "../../../app/components"
    ensures Decide(reg, filePath, importPath) == Some(Diagnostic("feature", "app", "feature, shared, node_modules"))
  {
    FeatureFormFile();
    FileLayer(reg, filePath, ["project", "src", "features", "auth", "components", "form.js"]);
    FeatureImportingAppRelativeReportedSpecifier();
    FeatureImportingAppRelativeReportedResolution();
    AppComponentsStack();
    FixtureAllowed(reg);
    RelativeCase(reg, filePath, importPath, "feature", ["project", "src", "features", "auth", "components"], "form.js", ["..", "..", "..", "app", "components"], ["project", "src", "app", "components"]);
    FeatureReportText();
  }

  /** Test file lines 113-117: a bare package name from an app file is external and passes. The file is `/project/src/app/index.js`. */
  lemma ReactIsExternal(reg: Registry, filePath: string, importPath: string)
    requires IsFixture(reg)
    requires filePath == Slashed(["project", "src", "app", "index.js"]) && importPath == "react"
    ensures IsExternal(reg, importPath)
    ensures Decide(reg, filePath, importPath) == None
  {
    NoAlias(reg.byAlias, importPath);
    ExternalIff(reg, filePath, importPath);
    ExternalPasses(reg, filePath, importPath);
  }

  /** Test file lines 118-122: a bare package name from a shared file is external and passes. The file is `/project/src/shared/utils/index.js`. */
  lemma LodashIsExternal(reg: Registry, filePath: string, importPath: string)
    requires IsFixture(reg)
    requires filePath == Slashed(["project", "src", "shared", "utils", "index.js"]) && importPath == "lodash"
    ensures IsExternal(reg, importPath)
    ensures Decide(reg, filePath, importPath) == None
  {
    NoAlias(reg.byAlias, importPath);
    ExternalIff(reg, filePath, importPath);
    ExternalPasses(reg, filePath, importPath);
  }

  /** A bare `.` or `..` starts with neither `./` nor `../`, so it counts as external. */
  lemma BareDotsAreExternal(reg: Registry, filePath: string)
    requires IsFixture(reg)
    ensures IsExternal(reg, ".") && IsExternal(reg, "..")
    ensures Decide(reg, filePath, ".") == None && Decide(reg, filePath, "..") == None
  {
    NoAlias(reg.byAlias, ".");
    ExternalIff(reg, filePath, ".");
    NoAlias(reg.byAlias, "..");
    assert ".."[..2][1] != "./"[1];
    ExternalIff(reg, filePath, "..");
  }

  /** `/project/scripts/build.js` has no `src` directory. */
  lemma ScriptFile()
    ensures SourceTree(["project", "scripts", "build.js"])
  {
  }

  /** A build script outside every layer belongs to no layer, so none of its imports is
      checked, whatever they name. The file is `/project/scripts/build.js`. */
  lemma ScriptIsUnchecked(reg: Registry, filePath: string, importPath: string)
    requires IsFixture(reg)
    requires filePath == Slashed(["project", "scripts", "build.js"])
    ensures PathLayer(reg, filePath) == None
    ensures Decide(reg, filePath, importPath) == None
  {
    ScriptFile();
    FileLayer(reg, filePath, ["project", "scripts", "build.js"]);
    UncheckedFilePasses(reg, filePath, importPath);
  }
}
