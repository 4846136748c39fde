/** The two classifiers of the rule: which layer a file belongs to, and which layer an
    import specifier points at. */
module Classify {
  import opened Wrappers
  import opened Strings
  import opened OrderedMap
  import opened LayerRegistry
  import opened Paths

  /** How a key is tested against a string: path patterns by containment, aliases as prefixes. */
  datatype Test = Substring | Prefix

  predicate Matches(test: Test, key: string, s: string)
  {
    match test
    case Substring => Contains(s, key)
    case Prefix => StartsWith(s, key)
  }

  /** The value of the first entry, in map order, whose key passes the test. */
  function FirstMatch(m: Entries<string>, test: Test, s: string): Option<string>
  {
    if m == [] then None
    else if Matches(test, m[0].0, s) then Some(m[0].1)
    else FirstMatch(m[1..], test, s)
  }

  /** The `for...of` loop over a map's entries that returns the first value whose key passes. */
  method Scan(m: Entries<string>, test: Test, s: string) returns (r: Option<string>)
    ensures r == FirstMatch(m, test, s)
  {
    for i := 0 to |m|
      invariant FirstMatch(m[i..], test, s) == FirstMatch(m, test, s)
    {
      assert m[i..][0] == m[i] && m[i..][1..] == m[i + 1..];
      if Matches(test, m[i].0, s) {
        return Some(m[i].1);
      }
    }
    assert m[|m|..] == [];
    return None;
  }

  /** The scan returns the value of entry `i` when `i` is the first entry that passes. */
  lemma {:induction false} FirstMatchIsFirst(m: Entries<string>, test: Test, s: string, i: nat)
    requires i < |m| && Matches(test, m[i].0, s)
    requires forall j :: 0 <= j < i ==> !Matches(test, m[j].0, s)
    ensures FirstMatch(m, test, s) == Some(m[i].1)
  {
    if i > 0 {
      assert !Matches(test, m[0].0, s);
      FirstMatchIsFirst(m[1..], test, s, i - 1);
    }
  }

  /** The scan finds nothing exactly when no entry passes. */
  lemma {:induction false} FirstMatchNone(m: Entries<string>, test: Test, s: string)
    ensures FirstMatch(m, test, s) == None <==> forall i :: 0 <= i < |m| ==> !Matches(test, m[i].0, s)
  {
    if m != [] {
      FirstMatchNone(m[1..], test, s);
      if forall i :: 1 <= i < |m| ==> !Matches(test, m[i].0, s) {
        assert forall i :: 0 <= i < |m| - 1 ==> !Matches(test, m[1..][i].0, s);
      }
    }
  }

  /** `getLayerFromPath`: the layer of the first path pattern contained in the normalised path. */
  function PathLayer(reg: Registry, filePath: string): Option<string>
  {
    FirstMatch(reg.byPath, Substring, Normalize(filePath))
  }

  method LayerFromPath(reg: Registry, filePath: string) returns (r: Option<string>)
    ensures r == PathLayer(reg, filePath)
  {
    var normalizedPath := Normalize(filePath);
    r := Scan(reg.byPath, Substring, normalizedPath);
  }

  /** In a well-formed configuration a file belongs to the first declared layer whose pattern
      its normalised path contains, however many later patterns it also contains. */
  lemma PathLayerFirstDeclared(layers: seq<Layer>, filePath: string, i: nat)
    requires WellFormed(layers) && i < |layers|
    requires Contains(Normalize(filePath), layers[i].path)
    requires forall j :: 0 <= j < i ==> !Contains(Normalize(filePath), layers[j].path)
    ensures PathLayer(Of(layers), filePath) == Some(layers[i].name)
  {
    var m := PathPairs(layers);
    FromPairsDistinct(m);
    var s := Normalize(filePath);
    forall j | 0 <= j < i ensures !Matches(Substring, m[j].0, s) {
      assert m[j].0 == layers[j].path;
    }
    assert m[i] == (layers[i].path, layers[i].name);
    FirstMatchIsFirst(m, Substring, s, i);
  }

  /** A file belongs to no layer exactly when its normalised path contains no configured
      pattern; this holds for every configuration, repeated patterns included. */
  lemma PathLayerNone(layers: seq<Layer>, filePath: string)
    ensures PathLayer(Of(layers), filePath) == None
        <==> forall i :: 0 <= i < |layers| ==> !Contains(Normalize(filePath), layers[i].path)
  {
    NoLayerContained(layers, filePath);
    NoneContainedNoLayer(layers, filePath);
  }

  lemma NoLayerContained(layers: seq<Layer>, filePath: string)
    ensures PathLayer(Of(layers), filePath) == None
        ==> forall i :: 0 <= i < |layers| ==> !Contains(Normalize(filePath), layers[i].path)
  {
    var s := Normalize(filePath);
    var m := Of(layers).byPath;
    var paths := Keys(PathPairs(layers));
    if PathLayer(Of(layers), filePath) == None {
      FirstMatchNoneKeys(m, Substring, s);
      FromPairsKeys(PathPairs(layers));
      DedupMembers(paths);
      forall i | 0 <= i < |layers| ensures !Contains(s, layers[i].path) {
        assert paths[i] == layers[i].path;
        assert layers[i].path in Keys(m);
      }
    }
  }

  lemma NoneContainedNoLayer(layers: seq<Layer>, filePath: string)
    ensures (forall i :: 0 <= i < |layers| ==> !Contains(Normalize(filePath), layers[i].path))
        ==> PathLayer(Of(layers), filePath) == None
  {
    var s := Normalize(filePath);
    var m := Of(layers).byPath;
    var paths := Keys(PathPairs(layers));
    if forall i :: 0 <= i < |layers| ==> !Contains(s, layers[i].path) {
      FromPairsKeys(PathPairs(layers));
      DedupMembers(paths);
      forall k | k in Keys(m) ensures !Matches(Substring, k, s) {
        assert k in paths;
        var i :| 0 <= i < |paths| && paths[i] == k;
        assert layers[i].path == k;
      }
      FirstMatchNoneKeys(m, Substring, s);
    }
  }

  /** The scan finds nothing exactly when no key passes. */
  lemma FirstMatchNoneKeys(m: Entries<string>, test: Test, s: string)
    ensures FirstMatch(m, test, s) == None <==> forall k :: k in Keys(m) ==> !Matches(test, k, s)
  {
    FirstMatchNone(m, test, s);
    assert forall i :: 0 <= i < |m| ==> Keys(m)[i] == m[i].0;
  }

  /** `isNodeModuleImport`: no alias starts the specifier, and it starts with neither `./`
      nor `../`. */
  predicate IsExternal(reg: Registry, importPath: string)
  {
    var startsWithAlias := exists alias :: alias in Keys(reg.byAlias) && StartsWith(importPath, alias);
    !startsWithAlias && !StartsWith(importPath, "./") && !StartsWith(importPath, "../")
  }

  /** `getLayerFromImport`: an alias prefix wins; otherwise a relative specifier is resolved
      against the importing file and matched against the path patterns, and a `./` specifier
      that matches none falls back to the importing file's own layer. */
  function ImportLayer(reg: Registry, filePath: string, importPath: string): Option<string>
  {
    var aliased := FirstMatch(reg.byAlias, Prefix, importPath);
    if aliased.Some? then aliased
    else if StartsWith(importPath, "../") || StartsWith(importPath, "./") then
      var resolved := FirstMatch(reg.byPath, Substring, ResolvedPath(filePath, importPath));
      if resolved.Some? then resolved
      else if StartsWith(importPath, "./") then PathLayer(reg, Normalize(filePath))
      else None
    else None
  }

  method LayerFromImport(reg: Registry, filePath: string, importPath: string) returns (r: Option<string>)
    ensures r == ImportLayer(reg, filePath, importPath)
  {
    r := Scan(reg.byAlias, Prefix, importPath);
    if r.Some? {
      return;
    }
    if StartsWith(importPath, "../") || StartsWith(importPath, "./") {
      var normalizedPath := Normalize(filePath);
      var resolvedPath := ResolveRelative(filePath, importPath);
      r := Scan(reg.byPath, Substring, resolvedPath);
      if r.Some? {
        return;
      }
      if StartsWith(importPath, "./") {
        r := LayerFromPath(reg, normalizedPath);
        return;
      }
    }
    r := None;
  }

  /** An alias wins over everything else: the first alias, in registry order, that starts the
      specifier decides the layer, even when the specifier also looks relative. */
  lemma AliasWins(reg: Registry, filePath: string, importPath: string, i: nat)
    requires i < |reg.byAlias| && StartsWith(importPath, reg.byAlias[i].0)
    requires forall j :: 0 <= j < i ==> !StartsWith(importPath, reg.byAlias[j].0)
    ensures ImportLayer(reg, filePath, importPath) == Some(reg.byAlias[i].1)
  {
    FirstMatchIsFirst(reg.byAlias, Prefix, importPath, i);
  }

  /** A relative specifier with no alias takes the layer of the first pattern contained in
      its resolved path. */
  lemma RelativeResolved(reg: Registry, filePath: string, importPath: string, i: nat)
    requires forall j :: 0 <= j < |reg.byAlias| ==> !StartsWith(importPath, reg.byAlias[j].0)
    requires StartsWith(importPath, "./") || StartsWith(importPath, "../")
    requires i < |reg.byPath| && Contains(ResolvedPath(filePath, importPath), reg.byPath[i].0)
    requires forall j :: 0 <= j < i ==> !Contains(ResolvedPath(filePath, importPath), reg.byPath[j].0)
    ensures ImportLayer(reg, filePath, importPath) == Some(reg.byPath[i].1)
  {
    FirstMatchNone(reg.byAlias, Prefix, importPath);
    FirstMatchIsFirst(reg.byPath, Substring, ResolvedPath(filePath, importPath), i);
  }

  /** A `./` specifier whose resolved path contains no pattern stays in the importing file's
      own layer (or in none, when the file has none). */
  lemma SameDirectoryFallback(reg: Registry, filePath: string, importPath: string)
    requires forall j :: 0 <= j < |reg.byAlias| ==> !StartsWith(importPath, reg.byAlias[j].0)
    requires StartsWith(importPath, "./")
    requires forall j :: 0 <= j < |reg.byPath| ==> !Contains(ResolvedPath(filePath, importPath), reg.byPath[j].0)
    ensures ImportLayer(reg, filePath, importPath) == PathLayer(reg, filePath)
  {
    FirstMatchNone(reg.byAlias, Prefix, importPath);
    FirstMatchNone(reg.byPath, Substring, ResolvedPath(filePath, importPath));
    NormalizeIdempotent(filePath);
  }

  /** A `../` specifier whose resolved path contains no pattern has no layer. */
  lemma ParentDirectoryUnknown(reg: Registry, filePath: string, importPath: string)
    requires forall j :: 0 <= j < |reg.byAlias| ==> !StartsWith(importPath, reg.byAlias[j].0)
    requires StartsWith(importPath, "../")
    requires forall j :: 0 <= j < |reg.byPath| ==> !Contains(ResolvedPath(filePath, importPath), reg.byPath[j].0)
    ensures ImportLayer(reg, filePath, importPath) == None
  {
    FirstMatchNone(reg.byAlias, Prefix, importPath);
    FirstMatchNone(reg.byPath, Substring, ResolvedPath(filePath, importPath));
    assert importPath[1] == '.';
  }

  /** A specifier is external exactly when the alias scan finds nothing and it is not relative,
      and an external specifier has no layer. */
  lemma ExternalIff(reg: Registry, filePath: string, importPath: string)
    ensures IsExternal(reg, importPath)
        <==> FirstMatch(reg.byAlias, Prefix, importPath) == None
             && !StartsWith(importPath, "./") && !StartsWith(importPath, "../")
    ensures IsExternal(reg, importPath) ==> ImportLayer(reg, filePath, importPath) == None
  {
    FirstMatchNone(reg.byAlias, Prefix, importPath);
    var ks := Keys(reg.byAlias);
    assert forall i :: 0 <= i < |reg.byAlias| ==> reg.byAlias[i].0 == ks[i];
  }
}
