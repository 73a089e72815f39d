/**
 The three public entry points (`aimnet2_get_energy`, `aimnet2_get_force`,
 `aimnet2_optimize`). Each one validates the molecule, then the charge, and
 only then resolves and loads the model and builds a calculator from it. The
 neural-network evaluation (energy, forces, BFGS relaxation and xyz output)
 is an uninterpreted function of the calculator and the molecule.
 */
module Service {

  import opened Options
  import opened Paths
  import opened Domain
  import opened Registry

  /** `AIMNet2Calculator(load_model(model), charge=charge)`: the model file
      that was loaded and the charge the calculator is bound to. */
  datatype Calculator = Calculator(modelFile: Path, charge: int)

  /** How far a request gets through the shared gate. */
  datatype Admission =
    | Rejected(verdict: Verdict)
    | MissingModel(identifier: string)
    | Admitted(calculator: Calculator)

  /** What an entry point gives back: `None` after a failed check (the
      verdict says which message was printed), the "model not found"
      assertion, or the evaluated value. */
  datatype Reply<V> =
    | Declined(verdict: Verdict)
    | Raised(identifier: string)
    | Returned(calculator: Calculator, value: V)

  /** The model loads a request performs: one `torch.jit.load` per admitted
      request, none otherwise. */
  function AdmissionLoads(a: Admission): seq<Path> {
    if a.Admitted? then [a.calculator.modelFile] else []
  }

  function ReplyLoads<V>(r: Reply<V>): seq<Path> {
    if r.Returned? then [r.calculator.modelFile] else []
  }

  /** The gate shared by all three entry points: elements, then charge, then
      model resolution. */
  function Admit(mol: seq<Symbol>, charge: int, model: string, packageDir: Path, onDisk: Path -> bool)
    : (a: Admission)
    ensures a.Rejected? <==>
              (exists i :: 0 <= i < |mol| && mol[i] !in Supported) || charge !in AllowedCharges
    ensures a.Rejected? ==> a.verdict == ValidateMolecule(mol, charge) && AdmissionLoads(a) == []
    ensures a.MissingModel? <==>
              && ValidateMolecule(mol, charge).Compatible?
              && model !in Abbr && model !in Abbr.Values && !onDisk(model)
    ensures a.MissingModel? ==> a.identifier == model
    ensures a.Admitted? ==>
              && a.calculator.charge == charge
              && Resolve(model, packageDir, onDisk).Target() == Some(a.calculator.modelFile)
              && AdmissionLoads(a) == [a.calculator.modelFile]
  {
    var verdict := ValidateMolecule(mol, charge);
    if !verdict.Compatible? then Rejected(verdict)
    else
      var resolution := Resolve(model, packageDir, onDisk);
      if resolution.NotFound? then MissingModel(resolution.identifier)
      else Admitted(Calculator(resolution.path, charge))
  }

  /** Finish a request: evaluate only when the gate admitted it. */
  function Respond<V>(a: Admission, eval: Calculator -> V): (r: Reply<V>)
    ensures r.Declined? <==> a.Rejected?
    ensures r.Raised? <==> a.MissingModel?
    ensures r.Returned? ==> a.Admitted? && r.calculator == a.calculator && r.value == eval(a.calculator)
    ensures ReplyLoads(r) == AdmissionLoads(a)
  {
    match a
    case Rejected(v) => Declined(v)
    case MissingModel(id) => Raised(id)
    case Admitted(c) => Returned(c, eval(c))
  }

  /** The observable gate behaviour every entry point shares. */
  predicate Gated<V>(r: Reply<V>, mol: seq<Symbol>, charge: int, model: string,
                     packageDir: Path, onDisk: Path -> bool)
  {
    && (r.Declined? <==> !ValidateMolecule(mol, charge).Compatible?)
    && (r.Declined? ==> r.verdict == ValidateMolecule(mol, charge))
    && (r.Raised? <==>
          ValidateMolecule(mol, charge).Compatible? && Resolve(model, packageDir, onDisk).NotFound?)
    && (r.Returned? ==>
          r.calculator.charge == charge && Resolve(model, packageDir, onDisk).Target() == Some(r.calculator.modelFile))
  }

  /** `aimnet2_get_energy`. */
  function GetEnergy<E>(mol: seq<Symbol>, charge: int, model: string, packageDir: Path,
                        onDisk: Path -> bool, energy: (Calculator, seq<Symbol>) -> E)
    : (r: Reply<E>)
    ensures Gated(r, mol, charge, model, packageDir, onDisk)
    ensures r.Returned? ==> r.value == energy(r.calculator, mol)
  {
    Respond(Admit(mol, charge, model, packageDir, onDisk), c => energy(c, mol))
  }

  /** `aimnet2_get_force`. */
  function GetForces<F>(mol: seq<Symbol>, charge: int, model: string, packageDir: Path,
                        onDisk: Path -> bool, forces: (Calculator, seq<Symbol>) -> F)
    : (r: Reply<F>)
    ensures Gated(r, mol, charge, model, packageDir, onDisk)
    ensures r.Returned? ==> r.value == forces(r.calculator, mol)
  {
    Respond(Admit(mol, charge, model, packageDir, onDisk), c => forces(c, mol))
  }

  /** `aimnet2_optimize`: `relax` stands for the BFGS run followed by xyz
      serialisation of the relaxed molecule. */
  function Optimize(mol: seq<Symbol>, charge: int, model: string, packageDir: Path,
                    onDisk: Path -> bool, relax: (Calculator, seq<Symbol>) -> string)
    : (r: Reply<string>)
    ensures Gated(r, mol, charge, model, packageDir, onDisk)
    ensures r.Returned? ==> r.value == relax(r.calculator, mol)
  {
    Respond(Admit(mol, charge, model, packageDir, onDisk), c => relax(c, mol))
  }

  /** A reply with its value forgotten: what the gate decided. */
  function Decision<V>(r: Reply<V>): Admission {
    match r
    case Declined(v) => Rejected(v)
    case Raised(id) => MissingModel(id)
    case Returned(c, _) => Admitted(c)
  }

  /** All three entry points make the same decision, and load the same file,
      on every request, whatever the evaluation does. */
  lemma EntryPointsShareGate<E, F>(mol: seq<Symbol>, charge: int, model: string, packageDir: Path,
                                  onDisk: Path -> bool, energy: (Calculator, seq<Symbol>) -> E,
                                  forces: (Calculator, seq<Symbol>) -> F,
                                  relax: (Calculator, seq<Symbol>) -> string)
    ensures Decision(GetEnergy(mol, charge, model, packageDir, onDisk, energy))
         == Decision(GetForces(mol, charge, model, packageDir, onDisk, forces))
         == Decision(Optimize(mol, charge, model, packageDir, onDisk, relax))
         == Admit(mol, charge, model, packageDir, onDisk)
  {
  }

  /** A request with an unsupported element and an unsupported charge is
      declined on the element check, naming every offender. */
  lemma ElementCheckComesFirst(mol: seq<Symbol>, charge: int, model: string, packageDir: Path,
                               onDisk: Path -> bool)
    requires exists i :: 0 <= i < |mol| && mol[i] !in Supported
    requires charge !in AllowedCharges
    ensures var a := Admit(mol, charge, model, packageDir, onDisk);
            a.Rejected? && a.verdict.UnsupportedElements?
            && (forall e :: e in a.verdict.offenders <==> e in mol && e !in Supported)
  {
  }

  /** A request through any entry point, as a value. */
  datatype Request = Request(mol: seq<Symbol>, charge: int, model: string)

  function AdmitRequest(q: Request, packageDir: Path, onDisk: Path -> bool): Admission {
    Admit(q.mol, q.charge, q.model, packageDir, onDisk)
  }

  /** The gate's decisions for requests made one after another. */
  function SessionDecisions(qs: seq<Request>, packageDir: Path, onDisk: Path -> bool): (ds: seq<Admission>)
    ensures |ds| == |qs|
    ensures forall i :: 0 <= i < |qs| ==> ds[i] == AdmitRequest(qs[i], packageDir, onDisk)
  {
    seq(|qs|, i requires 0 <= i < |qs| => AdmitRequest(qs[i], packageDir, onDisk))
  }

  /** The positions in `ds` of the admitted requests that resolved to `p`. */
  ghost function RequestsFor(ds: seq<Admission>, p: Path): set<nat> {
    set i: nat | i < |ds| && ds[i].Admitted? && ds[i].calculator.modelFile == p
  }

  /** The model loads performed by a sequence of gate decisions, in order.
      Nothing is cached between calls: each file is loaded exactly as many
      times as there are admitted requests that resolved to it. */
  function LoadLog(ds: seq<Admission>): (loads: seq<Path>)
    ensures |loads| <= |ds|
    ensures forall p :: multiset(loads)[p] == |RequestsFor(ds, p)|
    ensures forall p :: p in loads <==>
              exists i :: 0 <= i < |ds| && ds[i].Admitted? && ds[i].calculator.modelFile == p
  {
    if |ds| == 0 then
      assert forall p :: RequestsFor(ds, p) == {};
      []
    else
      var init := ds[..|ds| - 1];
      var earlier := LoadLog(init);
      assert forall i :: 0 <= i < |init| ==> init[i] == ds[i];
      LoadLogStep(ds, earlier);
      earlier + AdmissionLoads(ds[|ds| - 1])
  }

  /** One more decision adds one load of its file if it was admitted, and
      nothing otherwise. */
  lemma LoadLogStep(ds: seq<Admission>, earlier: seq<Path>)
    requires |ds| > 0
    requires forall p :: multiset(earlier)[p] == |RequestsFor(ds[..|ds| - 1], p)|
    ensures forall p :: multiset(earlier + AdmissionLoads(ds[|ds| - 1]))[p] == |RequestsFor(ds, p)|
  {
    var last := ds[|ds| - 1];
    forall p
      ensures multiset(earlier + AdmissionLoads(last))[p] == |RequestsFor(ds, p)|
    {
      RequestsForStep(ds, p);
      assert multiset(earlier + AdmissionLoads(last)) == multiset(earlier) + multiset(AdmissionLoads(last));
    }
  }

  /** The admitted requests for `p` grow by the last position exactly when
      the last decision admitted a request for `p`. */
  lemma RequestsForStep(ds: seq<Admission>, p: Path)
    requires |ds| > 0
    ensures |RequestsFor(ds, p)| == |RequestsFor(ds[..|ds| - 1], p)| + multiset(AdmissionLoads(ds[|ds| - 1]))[p]
  {
    var n := |ds| - 1;
    var before := RequestsFor(ds[..n], p);
    var hit := ds[n].Admitted? && ds[n].calculator.modelFile == p;
    assert n !in before;
    var after := if hit then before + {n} else before;
    forall i: nat
      ensures i in RequestsFor(ds, p) <==> i in after
    {
      if i < n {
        assert ds[..n][i] == ds[i];
      }
    }
    assert RequestsFor(ds, p) == after;
    assert multiset(AdmissionLoads(ds[n]))[p] == if hit then 1 else 0;
  }

  /** Repeating an admitted request `n` times loads its model `n` times. */
  lemma {:induction false} RepeatedRequestReloads(q: Request, n: nat, packageDir: Path, onDisk: Path -> bool)
    requires AdmitRequest(q, packageDir, onDisk).Admitted?
    ensures LoadLog(SessionDecisions(seq(n, _ => q), packageDir, onDisk))
         == seq(n, _ => AdmitRequest(q, packageDir, onDisk).calculator.modelFile)
  {
    var a := AdmitRequest(q, packageDir, onDisk);
    RepeatedAdmissionReloads(a, n);
    assert SessionDecisions(seq(n, _ => q), packageDir, onDisk) == seq(n, _ => a);
  }

  lemma {:induction false} RepeatedAdmissionReloads(a: Admission, n: nat)
    requires a.Admitted?
    ensures LoadLog(seq(n, _ => a)) == seq(n, _ => a.calculator.modelFile)
  {
    if n > 0 {
      var ds := seq(n, _ => a);
      assert ds[..n - 1] == seq(n - 1, _ => a);
      RepeatedAdmissionReloads(a, n - 1);
      var p := a.calculator.modelFile;
      assert seq(n - 1, _ => p) + [p] == seq(n, _ => p);
    }
  }

  /** A session in which every request fails a check loads nothing. */
  lemma {:induction false} DeclinedSessionLoadsNothing(qs: seq<Request>, packageDir: Path, onDisk: Path -> bool)
    requires forall i :: 0 <= i < |qs| ==> !ValidateMolecule(qs[i].mol, qs[i].charge).Compatible?
    ensures LoadLog(SessionDecisions(qs, packageDir, onDisk)) == []
  {
    var ds := SessionDecisions(qs, packageDir, onDisk);
    assert forall i :: 0 <= i < |ds| ==> ds[i].Rejected?;
    RejectionsLoadNothing(ds);
  }

  lemma {:induction false} RejectionsLoadNothing(ds: seq<Admission>)
    requires forall i :: 0 <= i < |ds| ==> ds[i].Rejected?
    ensures LoadLog(ds) == []
  {
    if |ds| > 0 {
      RejectionsLoadNothing(ds[..|ds| - 1]);
    }
  }

  /** Water with charge 5 passes the element check, fails the charge check,
      and loads no model. */
  lemma ChargeFiveIsDeclinedWithoutLoading<E>(model: string, packageDir: Path, onDisk: Path -> bool,
                                              energy: (Calculator, seq<Symbol>) -> E)
    ensures var r := GetEnergy(["O", "H", "H"], 5, model, packageDir, onDisk, energy);
            r == Declined(UnsupportedCharge(5)) && ReplyLoads(r) == []
  {
    var mol := ["O", "H", "H"];
    assert forall e :: e in ElementSet(mol) ==> e in Supported;
  }

  /** Water with charge 0 and the `b973c` alias passes both checks, loads
      the shipped B97-3c ensemble once and evaluates it. */
  lemma NeutralWaterWithAliasIsEvaluated<E>(packageDir: Path, onDisk: Path -> bool,
                                            energy: (Calculator, seq<Symbol>) -> E)
    requires packageDir != [] && packageDir[|packageDir| - 1] != Sep
    ensures var file := packageDir + "/models" + "/" + "aimnet2_b973c_ens.jpt";
            var r := GetEnergy(["O", "H", "H"], 0, "b973c", packageDir, onDisk, energy);
            && r == Returned(Calculator(file, 0), energy(Calculator(file, 0), ["O", "H", "H"]))
            && ReplyLoads(r) == [file]
  {
    var mol := ["O", "H", "H"];
    assert ValidateMolecule(mol, 0) == Compatible by {
      assert forall e :: e in ElementSet(mol) ==> e in Supported;
    }
    ShippedModelLocation("b973c", packageDir, onDisk);
  }
}
