/** The `ImportDeclaration` check: for one import of one file, either no report or one
    `invalidImport` report. */
module Firewall {
  import opened Wrappers
  import opened Strings
  import opened OrderedMap
  import opened LayerRegistry
  import opened Paths
  import opened Classify

  /** The data of an `invalidImport` report: the importing layer, the imported layer, and the
      text listing what the importing layer may import. */
  datatype Diagnostic = Diagnostic(layer: string, importedLayer: string, allowed: string)

  /** `layerRules.get(currentLayer) || []`. */
  function AllowedFor(reg: Registry, layer: string): seq<string>
  {
    match Get(reg.rules, layer)
    case Some(allowed) => allowed
    case None => []
  }

  /** The `allowed` text of a report: the allowed layers joined with ", " in configuration
      order and followed by "node_modules", or "node_modules only" when there are none. */
  function FormatAllowed(allowed: seq<string>): string
  {
    if |allowed| > 0 then Join(allowed, ", ") + ", node_modules" else "node_modules only"
  }

  /** A non-empty allow-list is shown as itself with "node_modules" as one more, last, entry,
      in configuration order and unsorted. */
  lemma FormatAllowedLists(allowed: seq<string>)
    requires |allowed| > 0
    ensures FormatAllowed(allowed) == Join(allowed + ["node_modules"], ", ")
  {
    JoinSnoc(allowed, "node_modules", ", ");
  }

  /** The decision for one import: no report when the file is in no layer (or a layer with an
      empty name), when the import is external, or when its layer cannot be determined;
      otherwise a report exactly when the imported layer is not allowed. */
  function Decide(reg: Registry, filePath: string, importPath: string): Option<Diagnostic>
  {
    var current := PathLayer(reg, filePath);
    if current.None? || current.value == "" then None
    else if IsExternal(reg, importPath) then None
    else
      var imported := ImportLayer(reg, filePath, importPath);
      if imported.None? then None
      else
        var allowed := AllowedFor(reg, current.value);
        if imported.value in allowed then None
        else Some(Diagnostic(current.value, imported.value, FormatAllowed(allowed)))
  }

  /** The `ImportDeclaration` handler, with the file name and the import source as parameters
      and the report, if any, as its result. */
  method Evaluate(reg: Registry, filePath: string, importPath: string) returns (d: Option<Diagnostic>)
    ensures d == Decide(reg, filePath, importPath)
  {
    var currentLayer := LayerFromPath(reg, filePath);
    if currentLayer.None? || currentLayer.value == "" {
      return None;
    }
    if IsExternal(reg, importPath) {
      return None;
    }
    var importedLayer := LayerFromImport(reg, filePath, importPath);
    if importedLayer.None? {
      return None;
    }
    var allowedLayers := AllowedFor(reg, currentLayer.value);
    if importedLayer.value !in allowedLayers {
      var allowedStr := FormatAllowed(allowedLayers);
      return Some(Diagnostic(currentLayer.value, importedLayer.value, allowedStr));
    }
    return None;
  }

  /** The check keeps no state between imports: the same import checked twice gets the same answer.
      This follows from `Evaluate`'s contract, which ties every call to the function `Decide`;
      it is kept to record that the handler is idempotent. */
  method EvaluateTwice(reg: Registry, filePath: string, importPath: string)
    returns (first: Option<Diagnostic>, second: Option<Diagnostic>)
    ensures first == second
  {
    first := Evaluate(reg, filePath, importPath);
    second := Evaluate(reg, filePath, importPath);
  }

  /** A report is made exactly when the file has a layer with a non-empty name, the import is
      not external, its layer is known and is missing from the file layer's allow-list; the
      report names both layers and lists that allow-list. */
  lemma ReportIff(reg: Registry, filePath: string, importPath: string)
    ensures var current := PathLayer(reg, filePath);
            var imported := ImportLayer(reg, filePath, importPath);
            Decide(reg, filePath, importPath).Some?
            <==> current.Some? && current.value != "" && !IsExternal(reg, importPath)
                 && imported.Some? && imported.value !in AllowedFor(reg, current.value)
    ensures var current := PathLayer(reg, filePath);
            var imported := ImportLayer(reg, filePath, importPath);
            Decide(reg, filePath, importPath).Some?
            ==> Decide(reg, filePath, importPath)
                == Some(Diagnostic(current.value, imported.value, FormatAllowed(AllowedFor(reg, current.value))))
  {
  }

  /** Once the file's layer is known, the import is not external and its layer is known, the
      decision is the allow-list test alone. */
  lemma CheckedImport(reg: Registry, filePath: string, importPath: string, current: string, imported: string)
    requires PathLayer(reg, filePath) == Some(current) && current != ""
    requires !IsExternal(reg, importPath) && ImportLayer(reg, filePath, importPath) == Some(imported)
    ensures Decide(reg, filePath, importPath)
         == if imported in AllowedFor(reg, current) then None
            else Some(Diagnostic(current, imported, FormatAllowed(AllowedFor(reg, current))))
  {
  }

  /** Files outside every layer are not checked at all. */
  lemma UncheckedFilePasses(reg: Registry, filePath: string, importPath: string)
    requires PathLayer(reg, filePath) == None || PathLayer(reg, filePath) == Some("")
    ensures Decide(reg, filePath, importPath) == None
  {
  }

  /** External imports are always allowed, whatever the file's allow-list says. */
  lemma ExternalPasses(reg: Registry, filePath: string, importPath: string)
    requires IsExternal(reg, importPath)
    ensures Decide(reg, filePath, importPath) == None
  {
  }

  /** An import whose layer cannot be determined is let through rather than reported. */
  lemma UnknownLayerPasses(reg: Registry, filePath: string, importPath: string)
    requires ImportLayer(reg, filePath, importPath) == None
    ensures Decide(reg, filePath, importPath) == None
  {
  }

  /** In a well-formed configuration, a file of layer `i` importing through the alias of layer
      `k` is reported, naming both layers and the allow-list of layer `i`, exactly when layer
      `k` is not in that allow-list. With `k == i` this is the self-import case: it passes
      exactly when the layer lists itself. */
  lemma AliasImportDecision(layers: seq<Layer>, filePath: string, importPath: string, i: nat, k: nat)
    requires WellFormed(layers) && i < |layers| && k < |layers|
    requires layers[i].name != ""
    requires Contains(Normalize(filePath), layers[i].path)
    requires forall j :: 0 <= j < i ==> !Contains(Normalize(filePath), layers[j].path)
    requires StartsWith(importPath, layers[k].alias)
    requires forall j :: 0 <= j < k ==> !StartsWith(importPath, layers[j].alias)
    ensures Decide(Of(layers), filePath, importPath)
         == if layers[k].name in layers[i].allowedImports then None
            else Some(Diagnostic(layers[i].name, layers[k].name, FormatAllowed(layers[i].allowedImports)))
  {
    var reg := Of(layers);
    PathLayerFirstDeclared(layers, filePath, i);
    var aliases := AliasPairs(layers);
    FromPairsDistinct(aliases);
    forall j | 0 <= j < k ensures !StartsWith(importPath, aliases[j].0) {
      assert aliases[j].0 == layers[j].alias;
    }
    assert aliases[k] == (layers[k].alias, layers[k].name);
    AliasWins(reg, filePath, importPath, k);
    assert Keys(aliases)[k] == layers[k].alias;
    assert !IsExternal(reg, importPath);
    RulesOfLayer(layers, i);
  }
}
