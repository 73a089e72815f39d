/**
 Model-identifier resolution of `load_model`: a short alias, then a canonical
 file name shipped in the package's `models` directory, then a path on disk
 that must exist. The package directory (found by `find_spec`) and the
 filesystem test (`os.path.exists`) are parameters.
 */
module Registry {

  import opened Options
  import opened Paths

  /** The alias table: short name to canonical model file name. */
  const Abbr: map<string, string> :=
    map["b973c" := "aimnet2_b973c_ens.jpt", "wb97m-d3" := "aimnet2_wb97m-d3_ens.jpt"]

  /** Where the shipped models live: `<packageDir>/models`. */
  function ModelsDir(packageDir: Path): Path {
    Join(packageDir, "models")
  }

  lemma ModelsDirRelative(packageDir: Path)
    requires packageDir != [] && packageDir[|packageDir| - 1] != Sep
    ensures ModelsDir(packageDir) == packageDir + "/models"
  {
    var models := "models";
    assert models[0] == 'm';
    JoinRelative(packageDir, models);
  }

  /** Which branch of the loader matched, and the file it hands to the loader. */
  datatype Resolution =
    | FromAlias(alias: string, path: Path)
    | FromCanonical(path: Path)
    | FromUserPath(path: Path)
    | NotFound(identifier: string)
  {
    /** The file the loader reads, if resolution succeeded. */
    function Target(): Option<Path> {
      if NotFound? then None else Some(path)
    }
  }

  /** Python truthiness of `abbr.get(model)`: a present, non-empty value. */
  predicate AliasHit(model: string) {
    model in Abbr && Abbr[model] != ""
  }

  /** Every canonical name is a plain, non-empty file name. */
  lemma CanonicalNamesArePlain(name: string)
    requires name in Abbr.Values
    ensures name != [] && Sep !in name
  {
    assert name == "aimnet2_b973c_ens.jpt" || name == "aimnet2_wb97m-d3_ens.jpt";
  }

  /** Resolve a model identifier; `NotFound` stands for the failed
      `assert os.path.exists(model), "model not found"`. */
  function Resolve(model: string, packageDir: Path, onDisk: Path -> bool): (r: Resolution)
    ensures r.FromAlias? <==> model in Abbr
    ensures r.FromCanonical? <==> model !in Abbr && model in Abbr.Values
    ensures r.FromUserPath? <==> model !in Abbr && model !in Abbr.Values && onDisk(model)
    ensures r.NotFound? ==> r.identifier == model
    ensures r.FromAlias? ==> r.alias == model && BaseName(r.path) == Abbr[model]
    ensures r.FromCanonical? ==> BaseName(r.path) == model
    ensures r.FromAlias? || r.FromCanonical? ==> ModelsDir(packageDir) <= r.path
    ensures r.FromUserPath? ==> r.path == model
  {
    if AliasHit(model) then
      CanonicalNamesArePlain(Abbr[model]);
      BaseNameOfJoin(ModelsDir(packageDir), Abbr[model]);
      FromAlias(model, Join(ModelsDir(packageDir), Abbr[model]))
    else if model in Abbr.Values then
      CanonicalNamesArePlain(model);
      BaseNameOfJoin(ModelsDir(packageDir), model);
      FromCanonical(Join(ModelsDir(packageDir), model))
    else if onDisk(model) then
      FromUserPath(model)
    else
      NotFound(model)
  }

  /** `abbr.get(model)` is truthy exactly when `model` is an alias. */
  lemma AliasHitIsMembership(model: string)
    ensures AliasHit(model) <==> model in Abbr
  {
    if model in Abbr {
      CanonicalNamesArePlain(Abbr[model]);
    }
  }

  /** No alias is also a canonical name, so the branch order never hides a
      canonical name behind an alias. */
  lemma AliasesAndCanonicalNamesDisjoint()
    ensures Abbr.Keys !! Abbr.Values
  {
    forall name | name in Abbr.Values
      ensures name !in Abbr
    {
      CanonicalNamesArePlain(name);
      var k :| k in Abbr && Abbr[k] == name;
      assert k == "b973c" || k == "wb97m-d3";
    }
  }

  /** An alias and its canonical name load the same file. */
  lemma AliasAgreesWithCanonical(alias: string, packageDir: Path, onDisk: Path -> bool)
    requires alias in Abbr
    ensures Resolve(alias, packageDir, onDisk).Target()
         == Resolve(Abbr[alias], packageDir, onDisk).Target()
  {
    AliasesAndCanonicalNamesDisjoint();
    AliasHitIsMembership(alias);
  }

  /** Shipped models never consult the filesystem test. */
  lemma ShippedModelsIgnoreFilesystem(model: string, packageDir: Path, e1: Path -> bool, e2: Path -> bool)
    requires model in Abbr || model in Abbr.Values
    ensures Resolve(model, packageDir, e1) == Resolve(model, packageDir, e2)
  {
    AliasHitIsMembership(model);
  }

  /** Any other identifier is a verbatim path: it is loaded as given when it
      exists and reported as not found otherwise. */
  lemma UserPathVerbatim(model: string, packageDir: Path, onDisk: Path -> bool)
    requires model !in Abbr && model !in Abbr.Values
    ensures onDisk(model) ==> Resolve(model, packageDir, onDisk).Target() == Some(model)
    ensures !onDisk(model) ==> Resolve(model, packageDir, onDisk) == NotFound(model)
  {
  }

  /** For a package directory written without a trailing separator, the
      shipped models are read from `<packageDir>/models/<canonical name>`, one
      separator inserted by each join. */
  lemma ShippedModelLocation(model: string, packageDir: Path, onDisk: Path -> bool)
    requires model in Abbr || model in Abbr.Values
    requires packageDir != [] && packageDir[|packageDir| - 1] != Sep
    ensures var name := if model in Abbr then Abbr[model] else model;
            Resolve(model, packageDir, onDisk).Target() == Some(packageDir + "/models" + "/" + name)
  {
    var name := if model in Abbr then Abbr[model] else model;
    var models := ModelsDir(packageDir);
    assert Resolve(model, packageDir, onDisk).Target() == Some(Join(models, name)) by {
      AliasHitIsMembership(model);
    }
    ModelsDirRelative(packageDir);
    CanonicalNamesArePlain(name);
    JoinRelative(models, name);
  }
}
