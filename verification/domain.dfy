/**
 The pre-flight compatibility check every entry point runs before a model is
 touched: the molecule's elements must all lie in the AIMNet2 support domain,
 then the net charge must be one of the supported charges.
 */
module Domain {

  /** A chemical element symbol as ASE reports it ("H", "Cl", ...). */
  type Symbol = string

  /** The fourteen elements both shipped AIMNet2 models are trained on. */
  const Supported: set<Symbol> :=
    {"H", "B", "C", "N", "O", "F", "Si", "P", "S", "Cl", "As", "Se", "Br", "I"}

  /** The supported net charges, kept as the list the entry points test membership in. */
  const AllowedCharges: seq<int> := [-2, -1, 0, 1, 2]

  /** Outcome of the check. `UnsupportedElements` carries every offender at
      once; `UnsupportedCharge` carries the rejected charge. */
  datatype Verdict =
    | Compatible
    | UnsupportedElements(offenders: set<Symbol>)
    | UnsupportedCharge(charge: int)

  /** `set(mol.get_chemical_symbols())`: the distinct elements of a molecule. */
  function ElementSet(mol: seq<Symbol>): (r: set<Symbol>)
    ensures forall e :: e in r <==> e in mol
    ensures |r| <= |mol|
  {
    if |mol| == 0 then {}
    else
      var rest := ElementSet(mol[..|mol| - 1]);
      assert |rest + {mol[|mol| - 1]}| <= |rest| + 1;
      rest + {mol[|mol| - 1]}
  }

  /** The elements of `elements` the models cannot handle. */
  function Unsupported(elements: set<Symbol>): (r: set<Symbol>)
    ensures forall e :: e in r <==> e in elements && e !in Supported
    ensures r == {} <==> elements <= Supported
    ensures r <= elements
  {
    elements - Supported
  }

  /** The element check, then the charge check; the first failure wins. */
  function Validate(elements: set<Symbol>, charge: int): (r: Verdict)
    ensures r.Compatible? <==> elements <= Supported && -2 <= charge <= 2
    ensures r.UnsupportedElements? <==> !(elements <= Supported)
    ensures r.UnsupportedCharge? <==> elements <= Supported && !(-2 <= charge <= 2)
    ensures r.UnsupportedElements? ==>
              r.offenders != {} &&
              forall e :: e in r.offenders <==> e in elements && e !in Supported
    ensures r.UnsupportedCharge? ==> r.charge == charge
  {
    var offenders := Unsupported(elements);
    AllowedChargesAreRange(charge);
    if |offenders| != 0 then UnsupportedElements(offenders)
    else if charge !in AllowedCharges then UnsupportedCharge(charge)
    else Compatible
  }

  /** Validation of a parsed molecule: the verdict depends only on which
      elements occur, not on their order or multiplicity, and names exactly
      the symbols of the molecule outside the domain. */
  function ValidateMolecule(mol: seq<Symbol>, charge: int): (r: Verdict)
    ensures r.Compatible? <==>
              (forall i :: 0 <= i < |mol| ==> mol[i] in Supported) && charge in AllowedCharges
    ensures r.UnsupportedElements? <==> exists i :: 0 <= i < |mol| && mol[i] !in Supported
    ensures r.UnsupportedElements? ==>
              forall e :: e in r.offenders <==> e in mol && e !in Supported
    ensures r.UnsupportedCharge? ==> r.charge == charge && charge !in AllowedCharges
  {
    Validate(ElementSet(mol), charge)
  }

  /** The charge list is exactly the integers from -2 to 2. */
  lemma AllowedChargesAreRange(charge: int)
    ensures charge in AllowedCharges <==> -2 <= charge <= 2
  {
  }

  /** The domain has fourteen distinct elements. */
  lemma SupportedHasFourteen()
    ensures |Supported| == 14
  {
    var s := {"H", "B", "C", "N", "O", "F", "Si", "P", "S", "Cl", "As", "Se", "Br"};
    assert "I" !in s;
    assert |s| == 13;
  }

  /** Two molecules with the same elements, in any order and any number, get
      the same verdict. */
  lemma VerdictDependsOnElementsOnly(a: seq<Symbol>, b: seq<Symbol>, charge: int)
    requires forall e :: e in a <==> e in b
    ensures ValidateMolecule(a, charge) == ValidateMolecule(b, charge)
  {
    assert ElementSet(a) == ElementSet(b);
  }
}
