/**
 * DiffuseImplicitHybridWorkChain: `run_jobs` builds three submissions of the
 * restart work chain from one base parameter dictionary (diffuse basis,
 * implicit solvent, both), and `result` merges the three finished children's
 * parsed outputs, with the caller's baseline under the key "original", into
 * the maps `free_energy`, `geometry` and `output_dict`.
 */
module HybridWorkChain {
  import opened Values
  import opened ParameterTransforms
  import opened Geometry
  import opened RestartEngine

  const DefaultSolvent := "water"
  const FreeEnergy := "freeenergy"
  const Original := "original"

  /** The labels the three children are stored under in the context (`ctx.g16`), in submission order. */
  const DiffuseLabel := "diffuse"
  const ImplicitLabel := "implicit"
  const HybridLabel := "hybrid"

  datatype Resources = Resources(numMachines: nat, totNumMpiprocs: nat)
  datatype Options = Options(resources: Resources, maxMemoryKb: int, maxWallclockSeconds: int)

  /** The scheduler options every submission carries: one machine, four processes, `int(3200 * 1.25) * 1024` kB, a week. */
  const JobOptions := Options(Resources(1, 4), (3200.0 * 1.25).Floor * 1024, 604800)

  /** The `gaussian` namespace of one submission. */
  datatype Submission = Submission(structure: string, parameters: Entries, code: Value, options: Options)

  /**
   * What every submission of run_jobs shares: the input structure, the code,
   * and the scheduler options, 4096000 kB of memory and seven days of wall time.
   */
  predicate SharedSettings(sub: Submission, structure: string, code: Value) {
    && sub.structure == structure && sub.code == code && sub.options == JobOptions
    && sub.options.resources == Resources(1, 4)
    && sub.options.maxMemoryKb == 4096000
    && sub.options.maxWallclockSeconds == 7 * 24 * 3600
  }

  /**
   * run_jobs, up to the submission itself: the three labelled submissions, or
   * the error of the first transform that raises. `solvent` is `None` when the
   * caller leaves the optional input out.
   */
  function RunJobs(base: Entries, structure: string, code: Value, basis: string, solvent: Option<string>)
    : (r: Result<seq<(string, Submission)>>)
    ensures var s := if solvent.Some? then solvent.value else DefaultSolvent;
            r.Ok? <==> Diffuse(base, basis).Ok? && ImplicitSolvent(base, s).Ok?
    ensures r.Ok? ==>
              && |r.value| == 3
              && r.value[0].0 == DiffuseLabel && r.value[1].0 == ImplicitLabel && r.value[2].0 == HybridLabel
              && forall i :: 0 <= i < |r.value| ==> SharedSettings(r.value[i].1, structure, code)
    ensures r.Ok? ==>
              var s := if solvent.Some? then solvent.value else DefaultSolvent;
              && r.value[0].1.parameters == Diffuse(base, basis).value
              && r.value[1].1.parameters == ImplicitSolvent(base, s).value
              && Lookup(r.value[2].1.parameters, InputParameters) == Lookup(r.value[0].1.parameters, InputParameters)
              && Lookup(r.value[2].1.parameters, BasisSet) == Lookup(r.value[0].1.parameters, BasisSet)
              && Lookup(r.value[2].1.parameters, RouteParameters) == Lookup(r.value[1].1.parameters, RouteParameters)
    ensures r.Ok? ==>
              var s := if solvent.Some? then solvent.value else DefaultSolvent;
              Hybrid(base, basis, s).Ok? && r.value[2].1.parameters == Hybrid(base, basis, s).value
  {
    var s := if solvent.Some? then solvent.value else DefaultSolvent;
    HybridCombines(base, basis, s);
    var diffuse :- Diffuse(base, basis);
    var implicit :- ImplicitSolvent(base, s);
    match Hybrid(base, basis, s)
    case Ok(hybrid) => Ok(Labelled(structure, code, diffuse, implicit, hybrid))
    case Err(e) => Err(e)
  }

  /** The three submissions under their context labels. */
  function Labelled(structure: string, code: Value, diffuse: Entries, implicit: Entries, hybrid: Entries)
    : (r: seq<(string, Submission)>)
    ensures |r| == 3 && r[0].0 == DiffuseLabel && r[1].0 == ImplicitLabel && r[2].0 == HybridLabel
    ensures forall i :: 0 <= i < |r| ==> SharedSettings(r[i].1, structure, code)
    ensures r[0].1.parameters == diffuse && r[1].1.parameters == implicit && r[2].1.parameters == hybrid
  {
    [(DiffuseLabel, Submission(structure, diffuse, code, JobOptions)),
     (ImplicitLabel, Submission(structure, implicit, code, JobOptions)),
     (HybridLabel, Submission(structure, hybrid, code, JobOptions))]
  }

  /** The three result maps. */
  datatype Aggregate = Aggregate(freeEnergy: map<string, Value>, geometry: map<string, string>, outputDict: map<string, Entries>)

  /** `molecule_name + '_' + calc_type` */
  function VariantKey(name: string, calcType: string): string {
    name + "_" + calcType
  }

  /** The `output_parameters` Dict a finished child has published. */
  function OutputParametersOf(outputs: map<string, Value>): Result<Entries> {
    if OutputParameters !in outputs then Err(NotExistent(OutputParameters))
    else
      match outputs[OutputParameters]
      case Dict(params) => Ok(params)
      case _ => Err(TypeError)
  }

  /**
   * The `geom_from_dict` calcfunction as `result()` calls it. The merge below
   * takes the renderer as a parameter; result() passes this one.
   */
  function GeometryOf(show: Value -> string, fmt: real -> string): Entries -> Result<string> {
    params => GeomFromDict(params, show, fmt)
  }

  /** What one child adds to the three maps: its free energy, its rendered last geometry, its parsed output. */
  function Contribution(outputs: map<string, Value>, render: Entries -> Result<string>)
    : Result<(Value, string, Entries)>
  {
    var params :- OutputParametersOf(outputs);
    var energy :- Get(params, FreeEnergy);
    var geometry :- render(params);
    Ok((energy, geometry, params))
  }

  /** Adds one child's entries under `name_type`, unless an earlier child or this one raised. */
  function Extend(
    acc: Result<Aggregate>, name: string, child: (string, map<string, Value>), render: Entries -> Result<string>)
    : Result<Aggregate>
  {
    if acc.Err? then acc
    else
      match Contribution(child.1, render)
      case Err(e) => Err(e)
      case Ok(c) =>
        var key := VariantKey(name, child.0);
        Ok(Aggregate(acc.value.freeEnergy[key := c.0], acc.value.geometry[key := c.1], acc.value.outputDict[key := c.2]))
  }

  /** The three maps after the first `n` children, or the error of the first child that raises. */
  function Collected(
    name: string, children: seq<(string, map<string, Value>)>, n: nat, render: Entries -> Result<string>)
    : Result<Aggregate>
    requires n <= |children|
  {
    if n == 0 then Ok(Aggregate(map[], map[], map[]))
    else Extend(Collected(name, children, n - 1, render), name, children[n - 1], render)
  }

  /** result(): every child's entry, then the caller's baseline under "original". */
  function AggregateResult(
    name: string, children: seq<(string, map<string, Value>)>, structure: string, original: Entries,
    render: Entries -> Result<string>)
    : Result<Aggregate>
  {
    var acc :- Collected(name, children, |children|, render);
    var energy :- Get(original, FreeEnergy);
    Ok(Aggregate(acc.freeEnergy[Original := energy], acc.geometry[Original := structure],
                 acc.outputDict[Original := original]))
  }

  lemma {:induction false} CollectedErrorPersists(
    name: string, children: seq<(string, map<string, Value>)>, n: nat, m: nat, render: Entries -> Result<string>)
    requires n <= m <= |children|
    requires Collected(name, children, n, render).Err?
    ensures Collected(name, children, m, render) == Collected(name, children, n, render)
    decreases m
  {
    if m > n {
      CollectedErrorPersists(name, children, n, m - 1, render);
    }
  }

  /** A child that contributes extends the maps under its key. */
  lemma CollectedStep(
    name: string, children: seq<(string, map<string, Value>)>, i: nat, params: Entries, energy: Value, geometry: string,
    render: Entries -> Result<string>)
    requires i < |children| && Collected(name, children, i, render).Ok?
    requires OutputParametersOf(children[i].1) == Ok(params)
    requires Get(params, FreeEnergy) == Ok(energy)
    requires render(params) == Ok(geometry)
    ensures
      var acc := Collected(name, children, i, render).value;
      var key := VariantKey(name, children[i].0);
      Collected(name, children, i + 1, render)
        == Ok(Aggregate(acc.freeEnergy[key := energy], acc.geometry[key := geometry], acc.outputDict[key := params]))
  {
    assert Contribution(children[i].1, render) == Ok((energy, geometry, params));
  }

  /** A child that raises ends the merge with its error. */
  lemma CollectedStops(
    name: string, children: seq<(string, map<string, Value>)>, i: nat, e: Error, render: Entries -> Result<string>)
    requires i < |children| && Collected(name, children, i, render).Ok?
    requires Contribution(children[i].1, render) == Err(e)
    ensures Collected(name, children, |children|, render) == Err(e)
  {
    CollectedErrorPersists(name, children, i + 1, |children|, render);
  }

  /** The loop of result(), filling the three dictionaries child by child. */
  method CollectResults(
    name: string, children: seq<(string, map<string, Value>)>, structure: string, original: Entries,
    show: Value -> string, fmt: real -> string)
    returns (r: Result<Aggregate>)
    ensures r == AggregateResult(name, children, structure, original, GeometryOf(show, fmt))
  {
    ghost var render := GeometryOf(show, fmt);
    var energyDict: map<string, Value> := map[];
    var geomDict: map<string, string> := map[];
    var outputDict: map<string, Entries> := map[];
    for i := 0 to |children|
      invariant Collected(name, children, i, render) == Ok(Aggregate(energyDict, geomDict, outputDict))
    {
      var (calcType, node) := children[i];
      var key := name + "_" + calcType;
      var params := OutputParametersOf(node);
      if params.Err? {
        CollectedStops(name, children, i, params.error, render);
        return Err(params.error);
      }
      var energy := Get(params.value, FreeEnergy);
      if energy.Err? {
        CollectedStops(name, children, i, energy.error, render);
        return Err(energy.error);
      }
      energyDict := energyDict[key := energy.value];
      var geometry := RenderGeometry(params.value, show, fmt);
      if geometry.Err? {
        CollectedStops(name, children, i, geometry.error, render);
        return Err(geometry.error);
      }
      geomDict := geomDict[key := geometry.value];
      outputDict := outputDict[key := params.value];
      CollectedStep(name, children, i, params.value, energy.value, geometry.value, render);
    }
    var originalEnergy := Get(original, FreeEnergy);
    if originalEnergy.Err? {
      return Err(originalEnergy.error);
    }
    energyDict := energyDict[Original := originalEnergy.value];
    geomDict := geomDict[Original := structure];
    outputDict := outputDict[Original := original];
    return Ok(Aggregate(energyDict, geomDict, outputDict));
  }

  /** The keys of the first `n` children. */
  ghost function ChildKeys(name: string, children: seq<(string, map<string, Value>)>, n: nat): set<string>
    requires n <= |children|
  {
    set i | 0 <= i < n :: VariantKey(name, children[i].0)
  }

  /** One step of the merge, taken apart. */
  lemma CollectedUnfold(
    name: string, children: seq<(string, map<string, Value>)>, n: nat, render: Entries -> Result<string>)
    requires 0 < n <= |children| && Collected(name, children, n, render).Ok?
    ensures Collected(name, children, n - 1, render).Ok? && Contribution(children[n - 1].1, render).Ok?
    ensures
      var acc := Collected(name, children, n - 1, render).value;
      var c := Contribution(children[n - 1].1, render).value;
      var key := VariantKey(name, children[n - 1].0);
      Collected(name, children, n, render).value
        == Aggregate(acc.freeEnergy[key := c.0], acc.geometry[key := c.1], acc.outputDict[key := c.2])
  {
  }

  /** The first `n` children merge without error exactly when each of them contributes. */
  lemma {:induction false} CollectedOk(
    name: string, children: seq<(string, map<string, Value>)>, n: nat, render: Entries -> Result<string>)
    requires n <= |children|
    ensures Collected(name, children, n, render).Ok? <==>
              forall i :: 0 <= i < n ==> Contribution(children[i].1, render).Ok?
  {
    if n > 0 {
      CollectedOk(name, children, n - 1, render);
      if Collected(name, children, n - 1, render).Err? {
        CollectedErrorPersists(name, children, n - 1, n, render);
      }
    }
  }

  /** After the first `n` children, the three maps have one key per child. */
  lemma {:induction false} CollectedKeys(
    name: string, children: seq<(string, map<string, Value>)>, n: nat, render: Entries -> Result<string>)
    requires n <= |children|
    ensures Collected(name, children, n, render).Ok? ==>
              var acc := Collected(name, children, n, render).value;
              acc.freeEnergy.Keys == acc.geometry.Keys == acc.outputDict.Keys == ChildKeys(name, children, n)
  {
    if n > 0 && Collected(name, children, n, render).Ok? {
      CollectedUnfold(name, children, n, render);
      CollectedKeys(name, children, n - 1, render);
      var key := VariantKey(name, children[n - 1].0);
      assert ChildKeys(name, children, n) == ChildKeys(name, children, n - 1) + {key} by {
        forall k | k in ChildKeys(name, children, n) ensures k in ChildKeys(name, children, n - 1) + {key} {
          var i :| 0 <= i < n && k == VariantKey(name, children[i].0);
          if i < n - 1 {
            assert k in ChildKeys(name, children, n - 1);
          }
        }
      }
    }
  }

  /** No child after the `i`th, among the first `n`, has its label. */
  ghost predicate LastWithLabel(children: seq<(string, map<string, Value>)>, i: nat, n: nat)
    requires i < n <= |children|
  {
    forall j :: i < j < n ==> children[j].0 != children[i].0
  }

  /** `key` holds the free energy, geometry and parsed output `c` in all three maps. */
  ghost predicate Holds(acc: Aggregate, key: string, c: (Value, string, Entries)) {
    && key in acc.freeEnergy && key in acc.geometry && key in acc.outputDict
    && acc.freeEnergy[key] == c.0 && acc.geometry[key] == c.1 && acc.outputDict[key] == c.2
  }

  /** A child whose label no later child repeats keeps its own free energy, geometry and output. */
  lemma {:induction false} CollectedValues(
    name: string, children: seq<(string, map<string, Value>)>, n: nat, render: Entries -> Result<string>)
    requires n <= |children|
    ensures Collected(name, children, n, render).Ok? ==>
              forall i :: 0 <= i < n && LastWithLabel(children, i, n) ==>
                && Contribution(children[i].1, render).Ok?
                && Holds(Collected(name, children, n, render).value, VariantKey(name, children[i].0),
                         Contribution(children[i].1, render).value)
  {
    if n > 0 && Collected(name, children, n, render).Ok? {
      CollectedUnfold(name, children, n, render);
      CollectedValues(name, children, n - 1, render);
      var prev := Collected(name, children, n - 1, render).value;
      var c := Contribution(children[n - 1].1, render).value;
      var last := VariantKey(name, children[n - 1].0);
      var acc := Collected(name, children, n, render).value;
      assert acc == Aggregate(prev.freeEnergy[last := c.0], prev.geometry[last := c.1], prev.outputDict[last := c.2]);
      forall i | 0 <= i < n && LastWithLabel(children, i, n)
        ensures Contribution(children[i].1, render).Ok?
        ensures Holds(acc, VariantKey(name, children[i].0), Contribution(children[i].1, render).value)
      {
        if i < n - 1 {
          assert LastWithLabel(children, i, n - 1);
          assert children[n - 1].0 != children[i].0;
          VariantKeyInjective(name, children[i].0, children[n - 1].0);
          HoldsAfterUpdate(prev, VariantKey(name, children[i].0), Contribution(children[i].1, render).value, last, c);
        }
      }
    }
  }

  /** Writing another key leaves an entry in place. */
  lemma HoldsAfterUpdate(acc: Aggregate, key: string, c: (Value, string, Entries), other: string, d: (Value, string, Entries))
    requires key != other && Holds(acc, key, c)
    ensures Holds(Aggregate(acc.freeEnergy[other := d.0], acc.geometry[other := d.1], acc.outputDict[other := d.2]), key, c)
  {
  }

  /** Distinct labels give distinct keys. */
  lemma VariantKeyInjective(name: string, t1: string, t2: string)
    ensures VariantKey(name, t1) == VariantKey(name, t2) ==> t1 == t2
  {
    if VariantKey(name, t1) == VariantKey(name, t2) {
      assert t1 == VariantKey(name, t1)[|name| + 1..];
      assert t2 == VariantKey(name, t2)[|name| + 1..];
    }
  }

  /** No child key is "original": every child key holds an underscore, "original" none. */
  lemma {:induction false} VariantKeyIsNotOriginal(name: string, calcType: string)
    ensures VariantKey(name, calcType) != Original
  {
    var key := VariantKey(name, calcType);
    assert key[|name|] == '_';
    assert forall i :: 0 <= i < |Original| ==> Original[i] != '_';
  }


  /** result() succeeds exactly when every child contributes and the baseline has a free energy. */
  lemma AggregateOk(
    name: string, children: seq<(string, map<string, Value>)>, structure: string, original: Entries,
    render: Entries -> Result<string>)
    ensures AggregateResult(name, children, structure, original, render).Ok? <==>
              && (forall i :: 0 <= i < |children| ==> Contribution(children[i].1, render).Ok?)
              && Lookup(original, FreeEnergy).Some?
  {
    CollectedOk(name, children, |children|, render);
  }

  /**
   * Each map of result() holds the children's keys and "original", which is
   * none of them and holds the baseline free energy, the input structure and
   * the baseline output.
   */
  lemma AggregateKeys(
    name: string, children: seq<(string, map<string, Value>)>, structure: string, original: Entries,
    render: Entries -> Result<string>)
    ensures AggregateResult(name, children, structure, original, render).Ok? ==>
              var a := AggregateResult(name, children, structure, original, render).value;
              && a.freeEnergy.Keys == a.geometry.Keys == a.outputDict.Keys
                 == ChildKeys(name, children, |children|) + {Original}
              && Original !in ChildKeys(name, children, |children|)
              && Lookup(original, FreeEnergy).Some?
              && a.freeEnergy[Original] == Lookup(original, FreeEnergy).value
              && a.geometry[Original] == structure
              && a.outputDict[Original] == original
  {
    if AggregateResult(name, children, structure, original, render).Ok? {
      CollectedKeys(name, children, |children|, render);
      assert Original !in ChildKeys(name, children, |children|) by {
        forall k | k in ChildKeys(name, children, |children|) ensures k != Original {
          var i :| 0 <= i < |children| && k == VariantKey(name, children[i].0);
          VariantKeyIsNotOriginal(name, children[i].0);
        }
      }
    }
  }

  /** In result(), a child whose label no later child repeats keeps its own free energy, geometry and output. */
  lemma AggregateValues(
    name: string, children: seq<(string, map<string, Value>)>, structure: string, original: Entries,
    render: Entries -> Result<string>)
    ensures AggregateResult(name, children, structure, original, render).Ok? ==>
              forall i :: 0 <= i < |children| && LastWithLabel(children, i, |children|) ==>
                && Contribution(children[i].1, render).Ok?
                && Holds(AggregateResult(name, children, structure, original, render).value,
                         VariantKey(name, children[i].0), Contribution(children[i].1, render).value)
  {
    if AggregateResult(name, children, structure, original, render).Ok? {
      CollectedValues(name, children, |children|, render);
      var acc := Collected(name, children, |children|, render).value;
      var a := AggregateResult(name, children, structure, original, render).value;
      var e := Lookup(original, FreeEnergy).value;
      assert a == Aggregate(acc.freeEnergy[Original := e], acc.geometry[Original := structure],
                            acc.outputDict[Original := original]);
      forall i | 0 <= i < |children| && LastWithLabel(children, i, |children|)
        ensures Holds(a, VariantKey(name, children[i].0), Contribution(children[i].1, render).value)
      {
        VariantKeyIsNotOriginal(name, children[i].0);
        HoldsAfterUpdate(acc, VariantKey(name, children[i].0), Contribution(children[i].1, render).value,
                         Original, (e, structure, original));
      }
    }
  }

  /** Children with distinct labels have distinct keys. */
  lemma {:induction false} ChildKeysCount(name: string, children: seq<(string, map<string, Value>)>, n: nat)
    requires n <= |children|
    requires forall i, j :: 0 <= i < j < |children| ==> children[i].0 != children[j].0
    ensures |ChildKeys(name, children, n)| == n
  {
    if n > 0 {
      ChildKeysCount(name, children, n - 1);
      var key := VariantKey(name, children[n - 1].0);
      assert ChildKeys(name, children, n) == ChildKeys(name, children, n - 1) + {key} by {
        forall k | k in ChildKeys(name, children, n) ensures k in ChildKeys(name, children, n - 1) + {key} {
          var i :| 0 <= i < n && k == VariantKey(name, children[i].0);
          if i < n - 1 {
            assert k in ChildKeys(name, children, n - 1);
          }
        }
      }
      assert key !in ChildKeys(name, children, n - 1) by {
        forall i | 0 <= i < n - 1 ensures VariantKey(name, children[i].0) != key {
          VariantKeyInjective(name, children[i].0, children[n - 1].0);
        }
      }
    }
  }


  /** With distinct labels each map of result() has one entry per child and one for "original". */
  lemma EntryCount(
    name: string, children: seq<(string, map<string, Value>)>, structure: string, original: Entries,
    render: Entries -> Result<string>)
    requires forall i, j :: 0 <= i < j < |children| ==> children[i].0 != children[j].0
    requires AggregateResult(name, children, structure, original, render).Ok?
    ensures
      var a := AggregateResult(name, children, structure, original, render).value;
      |a.freeEnergy| == |a.geometry| == |a.outputDict| == |children| + 1
  {
    AggregateKeys(name, children, structure, original, render);
    ChildKeysCount(name, children, |children|);
    var a := AggregateResult(name, children, structure, original, render).value;
    assert |ChildKeys(name, children, |children|) + {Original}| == |children| + 1;
    assert |a.freeEnergy| == |a.freeEnergy.Keys|;
    assert |a.geometry| == |a.geometry.Keys|;
    assert |a.outputDict| == |a.outputDict.Keys|;
  }

  /**
   * With distinct labels every child of result() keeps its own entries: the
   * `freeenergy` field and the whole of its parsed output.
   */
  lemma DistinctLabelsKeepEntries(
    name: string, children: seq<(string, map<string, Value>)>, structure: string, original: Entries,
    render: Entries -> Result<string>)
    requires forall i, j :: 0 <= i < j < |children| ==> children[i].0 != children[j].0
    requires AggregateResult(name, children, structure, original, render).Ok?
    ensures
      var a := AggregateResult(name, children, structure, original, render).value;
      forall i :: 0 <= i < |children| ==>
        && OutputParametersOf(children[i].1).Ok?
        && Lookup(OutputParametersOf(children[i].1).value, FreeEnergy).Some?
        && VariantKey(name, children[i].0) in a.freeEnergy
        && VariantKey(name, children[i].0) in a.geometry
        && VariantKey(name, children[i].0) in a.outputDict
        && a.freeEnergy[VariantKey(name, children[i].0)] == Lookup(OutputParametersOf(children[i].1).value, FreeEnergy).value
        && render(OutputParametersOf(children[i].1).value).Ok?
        && a.geometry[VariantKey(name, children[i].0)] == render(OutputParametersOf(children[i].1).value).value
        && a.outputDict[VariantKey(name, children[i].0)] == OutputParametersOf(children[i].1).value
  {
    AggregateValues(name, children, structure, original, render);
    var a := AggregateResult(name, children, structure, original, render).value;
    forall i | 0 <= i < |children|
      ensures OutputParametersOf(children[i].1).Ok? && Lookup(OutputParametersOf(children[i].1).value, FreeEnergy).Some?
      ensures Holds(a, VariantKey(name, children[i].0), Contribution(children[i].1, render).value)
      ensures render(OutputParametersOf(children[i].1).value).Ok?
      ensures Contribution(children[i].1, render).value
              == (Lookup(OutputParametersOf(children[i].1).value, FreeEnergy).value,
                  render(OutputParametersOf(children[i].1).value).value, OutputParametersOf(children[i].1).value)
    {
      assert LastWithLabel(children, i, |children|);
      ContributionEnergy(children[i].1, render);
    }
  }

  /** The three labels run_jobs submits under are distinct. */
  lemma LabelsDistinct()
    ensures DiffuseLabel != ImplicitLabel && DiffuseLabel != HybridLabel && ImplicitLabel != HybridLabel
  {
    assert DiffuseLabel[0] != ImplicitLabel[0] && DiffuseLabel[0] != HybridLabel[0] && ImplicitLabel[0] != HybridLabel[0];
  }

  /** For the three children of run_jobs, under their labels, each map of result() has exactly four entries. */
  lemma FourEntries(
    name: string, children: seq<(string, map<string, Value>)>, structure: string, original: Entries,
    render: Entries -> Result<string>)
    requires |children| == 3 && children[0].0 == DiffuseLabel && children[1].0 == ImplicitLabel && children[2].0 == HybridLabel
    requires AggregateResult(name, children, structure, original, render).Ok?
    ensures
      var a := AggregateResult(name, children, structure, original, render).value;
      && |a.freeEnergy| == |a.geometry| == |a.outputDict| == 4
      && a.freeEnergy.Keys == a.geometry.Keys == a.outputDict.Keys
         == {VariantKey(name, DiffuseLabel), VariantKey(name, ImplicitLabel), VariantKey(name, HybridLabel), Original}
  {
    ThreeKeys(name, children);
    EntryCount(name, children, structure, original, render);
    AggregateKeys(name, children, structure, original, render);
    var kd, ki, kh := VariantKey(name, DiffuseLabel), VariantKey(name, ImplicitLabel), VariantKey(name, HybridLabel);
    assert ChildKeys(name, children, |children|) + {Original} == {kd, ki, kh, Original};
  }

  /** The children of run_jobs have distinct labels and the keys `name_diffuse`, `name_implicit`, `name_hybrid`. */
  lemma ThreeKeys(name: string, children: seq<(string, map<string, Value>)>)
    requires |children| == 3 && children[0].0 == DiffuseLabel && children[1].0 == ImplicitLabel && children[2].0 == HybridLabel
    ensures forall i, j :: 0 <= i < j < |children| ==> children[i].0 != children[j].0
    ensures ChildKeys(name, children, |children|)
            == {VariantKey(name, DiffuseLabel), VariantKey(name, ImplicitLabel), VariantKey(name, HybridLabel)}
  {
    LabelsDistinct();
    assert VariantKey(name, DiffuseLabel) == VariantKey(name, children[0].0);
    assert VariantKey(name, ImplicitLabel) == VariantKey(name, children[1].0);
    assert VariantKey(name, HybridLabel) == VariantKey(name, children[2].0);
  }

  /** A child contributes the `freeenergy` field, the rendering and the whole of its parsed output. */
  lemma ContributionEnergy(outputs: map<string, Value>, render: Entries -> Result<string>)
    requires Contribution(outputs, render).Ok?
    ensures OutputParametersOf(outputs).Ok? && Lookup(OutputParametersOf(outputs).value, FreeEnergy).Some?
    ensures render(OutputParametersOf(outputs).value).Ok?
    ensures Contribution(outputs, render).value
            == (Lookup(OutputParametersOf(outputs).value, FreeEnergy).value,
                render(OutputParametersOf(outputs).value).value, OutputParametersOf(outputs).value)
  {
  }

  /**
   * One sibling that publishes nothing, as a chain that exceeded its iteration
   * budget does, makes result() raise: there is no partial aggregate.
   */
  lemma SiblingFailureFailsAll(
    name: string, children: seq<(string, map<string, Value>)>, i: nat, structure: string, original: Entries,
    render: Entries -> Result<string>)
    requires i < |children| && children[i].1 == Published(MaximumIterationsExceeded)
    ensures AggregateResult(name, children, structure, original, render).Err?
  {
    AggregateOk(name, children, structure, original, render);
    assert Contribution(children[i].1, render) == Err(NotExistent(OutputParameters));
  }
}
