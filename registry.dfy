/** The layer configuration and the three lookup maps the rule builds from it once,
    before any file is checked. */
module LayerRegistry {
  import opened Wrappers
  import opened OrderedMap

  /** One configured layer: its name, the path substring that marks its files, the alias
      prefix that marks imports of it, and the names of the layers it may import. */
  datatype Layer = Layer(name: string, path: string, alias: string, allowedImports: seq<string>)

  /** The three maps: path pattern to layer name, alias to layer name, and layer name to
      its allowed imports, each in the insertion order of a JavaScript `Map`. */
  datatype Registry = Registry(
    byPath: Entries<string>,
    byAlias: Entries<string>,
    rules: Entries<seq<string>>)

  function PathPairs(layers: seq<Layer>): seq<(string, string)>
  {
    seq(|layers|, i requires 0 <= i < |layers| => (layers[i].path, layers[i].name))
  }

  function AliasPairs(layers: seq<Layer>): seq<(string, string)>
  {
    seq(|layers|, i requires 0 <= i < |layers| => (layers[i].alias, layers[i].name))
  }

  function RulePairs(layers: seq<Layer>): seq<(string, seq<string>)>
  {
    seq(|layers|, i requires 0 <= i < |layers| => (layers[i].name, layers[i].allowedImports))
  }

  /** The registry that results from setting every layer's three entries, layer by layer. */
  function Of(layers: seq<Layer>): Registry
  {
    Registry(FromPairs(PathPairs(layers)), FromPairs(AliasPairs(layers)), FromPairs(RulePairs(layers)))
  }

  /** The configuration invariant the rule relies on but does not enforce: no two layers
      share a name, a path pattern or an alias. */
  predicate WellFormed(layers: seq<Layer>)
  {
    Distinct(Keys(PathPairs(layers))) && Distinct(Keys(AliasPairs(layers))) && Distinct(Keys(RulePairs(layers)))
  }

  /** The loop that fills the three maps, one `set` on each per layer, in configuration order. */
  method Build(layers: seq<Layer>) returns (reg: Registry)
    ensures reg == Of(layers)
  {
    var byPath: Entries<string> := [];
    var byAlias: Entries<string> := [];
    var rules: Entries<seq<string>> := [];
    for i := 0 to |layers|
      invariant byPath == FromPairs(PathPairs(layers)[..i])
      invariant byAlias == FromPairs(AliasPairs(layers)[..i])
      invariant rules == FromPairs(RulePairs(layers)[..i])
    {
      var layer := layers[i];
      FromPairsSnoc(PathPairs(layers), i);
      FromPairsSnoc(AliasPairs(layers), i);
      FromPairsSnoc(RulePairs(layers), i);
      byPath := Set(byPath, layer.path, layer.name);
      byAlias := Set(byAlias, layer.alias, layer.name);
      rules := Set(rules, layer.name, layer.allowedImports);
    }
    assert PathPairs(layers)[..|layers|] == PathPairs(layers);
    assert AliasPairs(layers)[..|layers|] == AliasPairs(layers);
    assert RulePairs(layers)[..|layers|] == RulePairs(layers);
    reg := Registry(byPath, byAlias, rules);
  }

  /** In a well-formed configuration every map holds one entry per layer, in configuration
      order, so first-match scans visit the layers in the order they were declared. */
  lemma OfWellFormed(layers: seq<Layer>)
    requires WellFormed(layers)
    ensures Of(layers).byPath == PathPairs(layers)
    ensures Of(layers).byAlias == AliasPairs(layers)
    ensures Of(layers).rules == RulePairs(layers)
  {
    FromPairsDistinct(PathPairs(layers));
    FromPairsDistinct(AliasPairs(layers));
    FromPairsDistinct(RulePairs(layers));
  }

  /** The allowed imports the registry holds for a name: those of the last layer declared
      with that name (a later duplicate overwrites the earlier value), none if there is none. */
  lemma RulesOfLastDeclared(layers: seq<Layer>, name: string)
    ensures Get(Of(layers).rules, name) == LastValue(RulePairs(layers), name)
  {
    FromPairsGet(RulePairs(layers), name);
  }

  /** In a well-formed configuration, the registry's allowed imports for layer `i` are
      exactly the ones that layer declares. */
  lemma {:induction false} RulesOfLayer(layers: seq<Layer>, i: nat)
    requires WellFormed(layers) && i < |layers|
    ensures Get(Of(layers).rules, layers[i].name) == Some(layers[i].allowedImports)
  {
    OfWellFormed(layers);
    GetDistinct(RulePairs(layers), i);
  }
}
