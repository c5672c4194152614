/**
 * The three parameter transforms of minimal_workchains.py. Each takes a copy of
 * a Gaussian parameter dictionary (`g16_params.get_dict()`) and rewrites fixed
 * fields of it: the diffuse transform puts the basis set in a trailing
 * free-form block, the solvent transform adds an implicit-solvation route
 * option, the hybrid transform does both.
 */
module ParameterTransforms {
  import opened Values

  const BasisSet := "basis_set"
  const InputParameters := "input_parameters"
  const RouteParameters := "route_parameters"
  const Scrf := "scrf"

  /** The `basis_set` value that makes Gaussian read the basis from a trailing block. */
  const GeneralBasis := "gen"

  /** The blank line that separates two free-form blocks of a Gaussian input. */
  const BlankLine := "\n\n"

  /** `{'iefpcm': None, 'solvent': solvent}`: the self-consistent reaction field option. */
  function SolvationOption(solvent: string): Value {
    Dict([("iefpcm", Null), ("solvent", Text(solvent))])
  }

  /**
   * Whether `input_parameters` can take a basis block: either `not v` holds, or
   * it is a mapping, whose `.keys()` can be joined.
   */
  predicate Stackable(v: Value) {
    Falsy(v) || v.Dict?
  }

  /** The new `input_parameters`: a single key holding the basis text, after any existing keys. */
  function StackBasis(ip: Value, basis: string): Result<Value> {
    if Falsy(ip) then Ok(Dict([(basis, Null)]))
    else if ip.Dict? then Ok(Dict([(Concat(Keys(ip.entries)) + BlankLine + basis, Null)]))
    else Err(TypeError)
  }

  /** `route_parameters['scrf'] = {...}` on a copy of the dictionary. */
  function SetSolvent(d: Entries, solvent: string): Result<Entries> {
    var route :- Get(d, RouteParameters);
    if route.Dict? then Ok(Set(d, RouteParameters, Dict(Set(route.entries, Scrf, SolvationOption(solvent)))))
    else Err(TypeError)
  }

  /** get_diffuse_param_dict */
  function Diffuse(params: Entries, basis: string): (r: Result<Entries>)
    ensures r.Ok? <==> Lookup(params, InputParameters).Some? && Stackable(Lookup(params, InputParameters).value)
    ensures Lookup(params, InputParameters).None? ==> r == Err(KeyError(InputParameters))
    ensures r.Ok? ==> Lookup(r.value, BasisSet) == Some(Text(GeneralBasis))
    ensures r.Ok? && Falsy(Lookup(params, InputParameters).value) ==>
              Lookup(r.value, InputParameters) == Some(Dict([(basis, Null)]))
    ensures r.Ok? && !Falsy(Lookup(params, InputParameters).value) ==>
              Lookup(r.value, InputParameters)
                == Some(Dict([(Concat(Keys(Lookup(params, InputParameters).value.entries)) + BlankLine + basis, Null)]))
    ensures r.Ok? ==> forall k :: k != BasisSet && k != InputParameters ==> Lookup(r.value, k) == Lookup(params, k)
    ensures r.Ok? ==> Keys(r.value) == if BasisSet in Keys(params) then Keys(params) else Keys(params) + [BasisSet]
  {
    var d := Set(params, BasisSet, Text(GeneralBasis));
    var ip :- Get(d, InputParameters);
    var block :- StackBasis(ip, basis);
    Ok(Set(d, InputParameters, block))
  }

  /** get_implicit_solv_inputs */
  function ImplicitSolvent(params: Entries, solvent: string): (r: Result<Entries>)
    ensures r.Ok? <==> Lookup(params, RouteParameters).Some? && Lookup(params, RouteParameters).value.Dict?
    ensures Lookup(params, RouteParameters).None? ==> r == Err(KeyError(RouteParameters))
    ensures r.Ok? ==>
              var route := Lookup(r.value, RouteParameters);
              && route.Some? && route.value.Dict?
              && Lookup(route.value.entries, Scrf) == Some(SolvationOption(solvent))
              && (forall k :: k != Scrf ==>
                    Lookup(route.value.entries, k) == Lookup(Lookup(params, RouteParameters).value.entries, k))
    ensures r.Ok? ==>
              var before := Lookup(params, RouteParameters).value.entries;
              Keys(Lookup(r.value, RouteParameters).value.entries)
              == if Scrf in Keys(before) then Keys(before) else Keys(before) + [Scrf]
    ensures r.Ok? ==> forall k :: k != RouteParameters ==> Lookup(r.value, k) == Lookup(params, k)
    ensures r.Ok? ==> Keys(r.value) == Keys(params)
  {
    SetSolvent(params, solvent)
  }

  /** get_implicit_solv_and_diffuse_inputs */
  function Hybrid(params: Entries, basis: string, solvent: string): (r: Result<Entries>)
  {
    var d := Set(params, BasisSet, Text(GeneralBasis));
    var ip :- Get(d, InputParameters);
    var block :- StackBasis(ip, basis);
    var d2 := Set(d, InputParameters, block);
    var route :- Get(d2, RouteParameters);
    if route.Dict? then Ok(Set(d2, RouteParameters, Dict(Set(route.entries, Scrf, SolvationOption(solvent)))))
    else Err(TypeError)
  }

  /** The hybrid transform is the diffuse transform followed by the solvent transform. */
  lemma HybridIsDiffuseThenSolvent(params: Entries, basis: string, solvent: string)
    ensures Hybrid(params, basis, solvent)
            == match Diffuse(params, basis)
               case Ok(d) => ImplicitSolvent(d, solvent)
               case Err(e) => Err(e)
  {
  }

  /** The solvation option of the hybrid transform does not depend on the basis text. */
  lemma HybridSolventIgnoresBasis(params: Entries, basis1: string, basis2: string, solvent: string)
    ensures Hybrid(params, basis1, solvent).Ok? <==> Hybrid(params, basis2, solvent).Ok?
    ensures Hybrid(params, basis1, solvent).Ok? ==>
              Lookup(Hybrid(params, basis1, solvent).value, RouteParameters)
              == Lookup(Hybrid(params, basis2, solvent).value, RouteParameters)
    ensures Hybrid(params, basis1, solvent).Ok? ==>
              var route := Lookup(Hybrid(params, basis1, solvent).value, RouteParameters);
              route.Some? && route.value.Dict? && Lookup(route.value.entries, Scrf) == Some(SolvationOption(solvent))
  {
    HybridIsDiffuseThenSolvent(params, basis1, solvent);
    HybridIsDiffuseThenSolvent(params, basis2, solvent);
  }

  /** The basis block of the hybrid transform does not depend on the solvent. */
  lemma HybridBasisIgnoresSolvent(params: Entries, basis: string, solvent1: string, solvent2: string)
    ensures Hybrid(params, basis, solvent1).Ok? <==> Hybrid(params, basis, solvent2).Ok?
    ensures Hybrid(params, basis, solvent1).Ok? ==>
              && Lookup(Hybrid(params, basis, solvent1).value, InputParameters)
                 == Lookup(Hybrid(params, basis, solvent2).value, InputParameters)
                 == Lookup(Diffuse(params, basis).value, InputParameters)
              && Lookup(Hybrid(params, basis, solvent1).value, BasisSet) == Some(Text(GeneralBasis))
  {
    HybridIsDiffuseThenSolvent(params, basis, solvent1);
    HybridIsDiffuseThenSolvent(params, basis, solvent2);
  }

  /**
   * The hybrid parameters take the basis fields from the diffuse transform and
   * the route from the solvent transform, and the hybrid transform fails
   * exactly when one of the two does.
   */
  lemma HybridCombines(params: Entries, basis: string, solvent: string)
    ensures Hybrid(params, basis, solvent).Ok? <==>
              Diffuse(params, basis).Ok? && ImplicitSolvent(params, solvent).Ok?
    ensures Hybrid(params, basis, solvent).Ok? ==>
              && Lookup(Hybrid(params, basis, solvent).value, BasisSet) == Lookup(Diffuse(params, basis).value, BasisSet)
              && Lookup(Hybrid(params, basis, solvent).value, InputParameters)
                 == Lookup(Diffuse(params, basis).value, InputParameters)
              && Lookup(Hybrid(params, basis, solvent).value, RouteParameters)
                 == Lookup(ImplicitSolvent(params, solvent).value, RouteParameters)
  {
    HybridIsDiffuseThenSolvent(params, basis, solvent);
    if Diffuse(params, basis).Ok? {
      var d := Diffuse(params, basis).value;
      assert Lookup(d, RouteParameters) == Lookup(params, RouteParameters);
      var route := Lookup(params, RouteParameters);
      if route.Some? && route.value.Dict? {
        var x := Dict(Set(route.value.entries, Scrf, SolvationOption(solvent)));
        assert ImplicitSolvent(d, solvent) == Ok(Set(d, RouteParameters, x));
        assert ImplicitSolvent(params, solvent) == Ok(Set(params, RouteParameters, x));
      }
    }
  }

  /**
   * A record whose input_parameters hold one directive (a modredundant block,
   * say) comes out with the directive kept ahead of the basis block, a blank
   * line between them, and every field in its place.
   */
  lemma DiffuseStacksAfterDirective(basisSet: Value, directive: string, route: Value, basis: string)
    ensures
      Diffuse([(BasisSet, basisSet), (InputParameters, Dict([(directive, Null)])), (RouteParameters, route)], basis)
      == Ok([(BasisSet, Text(GeneralBasis)), (InputParameters, Dict([(directive + BlankLine + basis, Null)])),
             (RouteParameters, route)])
  {
    var base := [(BasisSet, basisSet), (InputParameters, Dict([(directive, Null)])), (RouteParameters, route)];
    var d := [(BasisSet, Text(GeneralBasis)), (InputParameters, Dict([(directive, Null)])), (RouteParameters, route)];
    assert Set(base, BasisSet, Text(GeneralBasis)) == d;
    assert Lookup(d, InputParameters) == Some(Dict([(directive, Null)]));
    assert Concat(Keys([(directive, Null)])) == directive;
    var block := Dict([(directive + BlankLine + basis, Null)]);
    assert StackBasis(Dict([(directive, Null)]), basis) == Ok(block);
    assert Set(d, InputParameters, block) == [d[0], (InputParameters, block), d[2]];
  }
}
