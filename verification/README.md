# aimnet2ase request gate and model resolution, in Dafny

`aimnet2ase` wraps the AIMNet2 machine-learned interatomic potential for ASE.
It has three public entry points: `aimnet2_get_energy`, `aimnet2_get_force`
and `aimnet2_optimize`. Each takes an xyz string, a net charge and a model
identifier. This project models the decision logic they share and proves
properties of it:

- **Pre-flight validation** (`Domain`). The molecule's distinct element
  symbols minus the fourteen supported symbols (H B C N O F Si P S Cl As Se
  Br I) must be empty. Only then must the charge be one of -2, -1, 0, 1, 2.
  A failure returns `None` before any model work.
- **Model resolution in `load_model`** (`Registry`). An alias from the `abbr`
  table (`b973c`, `wb97m-d3`) maps to `<package>/models/<canonical file>`. A
  canonical file name maps to `<package>/models/<name>`. Anything else is
  used verbatim as a path and must exist, or the assertion
  "model not found" fires.
- **The entry points** (`Service`). Each runs validation, then resolution,
  then builds `AIMNet2Calculator(load_model(model), charge)` and evaluates.
  `Calculator` records which file was loaded and the charge it is bound to.
  Every reply records the loads it performed, so "no model is loaded on a
  rejected request" and "each admitted call loads afresh" are statements
  about values.
- `Paths` models `os.path.join`, the one path operation the loader calls,
  as POSIX `posixpath.join`. `BaseName` is a proof device only:
  the proofs use it to name the last component of a joined path.

External collaborators become parameters:
- `packageDir` is the directory `find_spec("aimnet2ase")` reports.
- `onDisk: Path -> bool` is `os.path.exists`.
- `energy`, `forces` and `relax` are functions of `(Calculator, molecule)`.
  They stand for `get_potential_energy`, `get_forces`, and the BFGS run
  followed by xyz writing.
- A molecule is the sequence of its element symbols, as
  `mol.get_chemical_symbols()` returns them.

Behaviour of the program that the model keeps:
- `load_model` keeps no cache. Every admitted call runs `torch.jit.load`
  again (aimnet2ase/aimnet2ase.py:55, 58, 61). `LoadLog` counts one load per
  admitted request for each file.
- A failed element or charge check prints a message and returns `None`.
  `Reply.Declined` carries the verdict, which records which check failed.
- A user path that does not exist fails the assertion "model not found",
  and the `AssertionError` propagates out of the entry point. `Reply.Raised`
  models it.
- An identifier that is neither an alias nor a canonical name is treated as
  a path.

## Model

| member | source | states |
|---|---|---|
| Domain.ElementSet | aimnet2ase/aimnet2ase.py:92 | the set of a molecule's symbols holds exactly the symbols that occur in it, and never has more members than the molecule has atoms |
| Domain.Unsupported | aimnet2ase/aimnet2ase.py:90-93 | the unsupported set is exactly the molecule's elements outside the fourteen-symbol domain, every offender included; it is empty iff all elements are supported |
| Domain.Validate | aimnet2ase/aimnet2ase.py:89-101 | compatible iff all elements are supported and -2 <= charge <= 2; an element failure iff some element is unsupported, whatever the charge, reporting a non-empty set of exactly the offenders; a charge failure iff the elements pass and the charge is out of range |
| Domain.ValidateMolecule | aimnet2ase/aimnet2ase.py:92-101 | the same verdict stated over the atoms: compatible iff every atom's symbol is supported and the charge is in the list; element failure iff some atom is unsupported |
| Domain.AllowedChargesAreRange | aimnet2ase/aimnet2ase.py:99 | membership in the list [-2, -1, 0, 1, 2] is the same as lying between -2 and 2 |
| Domain.SupportedHasFourteen | aimnet2ase/aimnet2ase.py:90 | the support domain has exactly fourteen distinct symbols |
| Domain.VerdictDependsOnElementsOnly | aimnet2ase/aimnet2ase.py:92-101 | two molecules with the same elements, in any order or number, get the same verdict |
| Paths.Join | aimnet2ase/aimnet2ase.py:50 | `os.path.join` ends with its second component, returns an absolute second component unchanged, and otherwise keeps the first component as a prefix |
| Paths.JoinRelative | aimnet2ase/aimnet2ase.py:50 | joining a relative name onto a directory without a trailing separator inserts exactly one separator |
| Paths.BaseNameOfJoin | aimnet2ase/aimnet2ase.py:54-57 | joining a directory with a plain file name gives a path under that directory whose base name is the file name |
| Registry.CanonicalNamesArePlain | aimnet2ase/aimnet2ase.py:29-30 | every canonical model name is a non-empty file name with no separator |
| Registry.AliasHitIsMembership | aimnet2ase/aimnet2ase.py:53 | the truthiness test on `abbr.get(model)` holds exactly when the identifier is an alias, because no canonical name is empty |
| Registry.AliasesAndCanonicalNamesDisjoint | aimnet2ase/aimnet2ase.py:29-30 | no alias is also a canonical name |
| Registry.ModelsDirRelative | aimnet2ase/aimnet2ase.py:49-50 | the models directory is `<package>/models` |
| Registry.Resolve | aimnet2ase/aimnet2ase.py:53-61 | the alias branch iff the identifier is an alias; the canonical branch iff it is not an alias but is a canonical name; the path branch iff it is neither and exists on disk, with the path used verbatim; not found otherwise; alias and canonical results have the models directory as a string prefix and the canonical file as their last component (the exact path is stated by Registry.ShippedModelLocation) |
| Registry.AliasAgreesWithCanonical | aimnet2ase/aimnet2ase.py:53-58 | an alias and its canonical name load the same file |
| Registry.ShippedModelsIgnoreFilesystem | aimnet2ase/aimnet2ase.py:53-60 | resolution of an alias or canonical name does not depend on the filesystem test |
| Registry.UserPathVerbatim | aimnet2ase/aimnet2ase.py:59-61 | any other identifier is loaded as given when it exists and is reported not found when it does not |
| Registry.ShippedModelLocation | aimnet2ase/aimnet2ase.py:49-58 | for a package directory without a trailing separator, an alias or canonical name loads `<package>/models/<canonical name>` |
| Service.Admit | aimnet2ase/aimnet2ase.py:87-104 | rejected iff some atom is unsupported or the charge is outside the list, with no load; missing model iff both checks pass and the identifier is neither alias, canonical name nor existing path; admitted otherwise, with a calculator bound to the request's charge and to the resolved file |
| Service.GetEnergy | aimnet2ase/aimnet2ase.py:87-109 | declined iff validation fails, with that verdict; raised iff validation passes and the model is not found; a returned energy comes from a calculator with the request's charge and the resolved file |
| Service.GetForces | aimnet2ase/aimnet2ase.py:135-157 | the same gate as the energy entry point; returned forces come from the calculator for the resolved file and the request's charge |
| Service.Optimize | aimnet2ase/aimnet2ase.py:183-215 | the same gate again; the returned xyz text is the relaxation under the calculator for the resolved file and the request's charge |
| Service.EntryPointsShareGate | aimnet2ase/aimnet2ase.py:136-152 | the energy, force and optimisation entry points make the same decision on every request, load the same file, and agree with the shared gate |
| Service.ElementCheckComesFirst | aimnet2ase/aimnet2ase.py:94-101 | a request failing both checks is rejected on the element check, naming every offender; the charge message is never produced |
| Service.LoadLog | aimnet2ase/aimnet2ase.py:53-61 | across successive calls each file is loaded exactly as many times as there are admitted requests that resolved to it (no cache), so a file appears among the loads exactly when some admitted request resolved to it, and there are never more loads than requests |
| Service.RepeatedRequestReloads | aimnet2ase/aimnet2ase.py:55-61 | repeating an admitted request n times loads its model n times, because nothing is cached |
| Service.DeclinedSessionLoadsNothing | aimnet2ase/aimnet2ase.py:94-104 | a sequence of requests that all fail validation loads no model |
| Service.ChargeFiveIsDeclinedWithoutLoading | aimnet2ase/aimnet2ase.py:99-101 | water with charge 5 is declined with the charge verdict and loads nothing |
| Service.NeutralWaterWithAliasIsEvaluated | aimnet2ase/aimnet2ase.py:103-107 | neutral water with alias `b973c` is evaluated on a calculator bound to `<package>/models/aimnet2_b973c_ens.jpt` and charge 0, which is loaded once |

## Left out

- xyz parsing and writing (`ase.io.read`, `ase.io.write`, lines 87, 135, 183 and 208-210) are library calls. The molecule is given already parsed, as its symbol sequence. A parse failure is not modelled.
- `torch.jit.load`, `AIMNet2Calculator`, `get_potential_energy` and `get_forces` are opaque floating-point neural-network evaluation, modelled as the uninterpreted `energy` and `forces` parameters. `aimnet2ase/calculators/calculator.py` is not part of this model.
- Every `torch.jit.load` failure is not modelled. This covers a missing shipped file in the alias or canonical branch (lines 53-58 do not test existence), an existing directory that passes line 60 and fails at line 61, and a corrupt or incompatible file. Every resolved path is treated as loadable.
- ASE's `BFGS(mol).run()` (lines 204-205) is floating-point numerics in ASE. It is folded into the uninterpreted `relax` parameter.
- `find_spec` package discovery (line 49) is the `packageDir` parameter. `os.path.exists` is the `onDisk` parameter.
- `print` messages, `clear_output` with the `clear_log` flag, and the `models` banner (lines 7, 14-26, 95, 100, 143, 148, 191, 196, 213-214) are console output only. The verdict records which message would be printed.
- Running Python with assertions disabled (`-O`) skips the "model not found" assertion. The model assumes assertions are enabled.
- Path behaviour is modelled for POSIX only. On Windows `os.path` is `ntpath`, with `\` separators and drive letters; that is not modelled. Only two-argument `join` is modelled, and `load_model` never joins more than two components.
- setup.py is packaging metadata with no logic.
