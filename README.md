# Gaussian restart and fan-out work chains, modelled in Dafny

This project models the data-shaping core of `minimal_workchains.py`, a pair of
AiiDA work chains around the Gaussian quantum-chemistry code.

- **Parameter transforms.** `get_diffuse_param_dict`, `get_implicit_solv_inputs` and
  `get_implicit_solv_and_diffuse_inputs` each take a copy of a Gaussian parameter
  dictionary and return it with fixed fields rewritten. Module `ParameterTransforms`, file `params.dfy`.
- **Geometry rendering.** `geom_from_dict`, and its inline copy in `handle_misc_failure`,
  turn the last frame of a parsed `atomcoords` history into one text line per atom.
  The model has a pure specification (`GeomFromDict`) and the loop itself (`RenderGeometry`).
  Module `Geometry`, file `geometry.dfy`.
- **GaussianBaseRestartWorkChain.** The recovery handler that seeds the next attempt
  with the last geometry of a failed one, and the terminal decision of `results()`.
  The work chain is a class whose fields are the context the handler and `results()`
  read and write. An abstract outline loop (`Run`) drives them. Module `RestartEngine`,
  file `restart.dfy`.
- **DiffuseImplicitHybridWorkChain.** `run_jobs` builds three labelled submissions from one base
  dictionary. `result()` merges the three children's parsed outputs into the
  `free_energy`, `geometry` and `output_dict` maps and adds an `original` entry
  copied from the caller's baseline. Module `HybridWorkChain`, file `hybrid.dfy`.

The AiiDA `Dict` and `Str` nodes are represented by plain values (module `Values`, file `values.dfy`).
A dictionary is a sequence of (key, value) pairs in insertion order, as in Python. The order
matters because the diffuse transform joins the keys of `input_parameters`.
A Python exception becomes the `Err` case of a `Result`:

- `KeyError(key)` for a missing dictionary key;
- `NotExistent(link)` for a node output that does not exist, as AiiDA raises when a link label is absent;
- `IndexError` for a list index out of range;
- `TypeError` for a value of the wrong kind.

Python's negative indices (`atomcoords[-1]`, `children[iteration - 1]`) are modelled by `PyIndex`, and
`Index` indexes a value as Python does: a list gives an element, a string a one-character string.

`str()` of an atom entry and the `:.6f` format are not modelled as floating point. They are
passed in as the parameters `show: Value -> string` and `fmt: real -> string`.

The code reads the atom labels from the cclib field `atomnos`, which holds atomic numbers.
The model follows the code here, not a description in terms of element symbols.

## Model

| member | source | states |
|---|---|---|
| Values.Keys | minimal_workchains.py:34 | `list(d.keys())` has one key per entry, each entry's key in its position |
| Values.Lookup | minimal_workchains.py:31 | a lookup finds a value exactly when the key is among the dictionary's keys |
| Values.LookupFindsFirst | minimal_workchains.py:31 | the value found is the one stored with the key, at the first entry holding that key; nothing is found only when no entry holds the key |
| Values.Set | minimal_workchains.py:30 | `d[k] = v` stores `v` under `k` and leaves every other key's value alone; an existing key keeps its place and a new key goes at the end |
| Values.SetKeepsKeysDistinct | minimal_workchains.py:30 | assignment keeps the keys of a dictionary distinct |
| Values.Falsy | minimal_workchains.py:31 | `not v` holds for `None`, `False`, zero, and the empty string, list and dictionary; `ParameterTransforms.Diffuse` states the two branches it selects |
| Values.Concat | minimal_workchains.py:34 | `''.join` of the keys; `Values.ConcatAppend` and `ParameterTransforms.Diffuse` state what it yields |
| Values.ConcatAppend | minimal_workchains.py:34 | joining two runs of keys one after the other joins their two texts |
| Values.PyIndex | minimal_workchains.py:130 | Python indexing succeeds exactly for `-len <= i < len` and returns element `i`, or element `len + i` for a negative `i`; out of range it raises `IndexError` |
| Values.Index | minimal_workchains.py:12-18 | indexing a list returns its element and indexing a string the one-character string at that position, both with negative indices and `IndexError` out of range; any other value raises `TypeError` |
| ParameterTransforms.Diffuse | minimal_workchains.py:28-35 | fails exactly when `input_parameters` is missing (`KeyError`) or is neither falsy nor a mapping. On success: `basis_set` is `'gen'`; a falsy `input_parameters` becomes `{basis: None}`; otherwise it becomes one key, the old keys joined in order, then `"\n\n"`, then the basis. Every other field is unchanged, and the key order is the input's, with `basis_set` appended if it was new |
| ParameterTransforms.DiffuseStacksAfterDirective | minimal_workchains.py:33-34 | a single existing directive is kept ahead of the basis text with a blank line between; the exact output record is given |
| ParameterTransforms.ImplicitSolvent | minimal_workchains.py:38-41 | fails exactly when `route_parameters` is missing (`KeyError`) or not a mapping. On success, `route_parameters['scrf']` is exactly `{'iefpcm': None, 'solvent': solvent}`. Every other route key and every other top-level field are unchanged. The top-level key order is the input's, and the route keeps its key order with `scrf` appended if it was new |
| ParameterTransforms.Hybrid | minimal_workchains.py:43-53 | the combined transform; its contract is stated by `HybridIsDiffuseThenSolvent`, `HybridCombines`, `HybridSolventIgnoresBasis` and `HybridBasisIgnoresSolvent` below |
| ParameterTransforms.HybridIsDiffuseThenSolvent | minimal_workchains.py:44-53 | the hybrid transform equals the diffuse transform followed by the solvent transform, errors included |
| ParameterTransforms.HybridCombines | minimal_workchains.py:44-53 | the hybrid transform fails exactly when the diffuse or the solvent transform does; its basis fields are the diffuse transform's and its route is the solvent transform's |
| ParameterTransforms.HybridSolventIgnoresBasis | minimal_workchains.py:44-53 | the hybrid route parameters, and its `scrf` entry of exactly the solvation option, do not depend on the basis text |
| ParameterTransforms.HybridBasisIgnoresSolvent | minimal_workchains.py:44-53 | the hybrid `input_parameters` does not depend on the solvent and equals the diffuse transform's; `basis_set` is `'gen'` |
| Geometry.GeomFromDict | minimal_workchains.py:10-25 | a missing `atomnos` raises `KeyError('atomnos')` before `atomcoords` is read, and a missing `atomcoords` then raises `KeyError('atomcoords')`; when it succeeds and what text it gives are stated by `GeomFromDictDefined` and `GeomFromDictLines` |
| Geometry.RenderGeometry | minimal_workchains.py:10-25 | the string-building loop returns what `GeomFromDict` specifies, raising the same error for a missing field, an empty coordinate history or an unreadable row |
| Geometry.Symbols | minimal_workchains.py:11-18 | the atoms the loop visits are the items of a list `atomnos` or the one-character strings of a string one; an empty dictionary has none; a non-empty dictionary and any other value raise `TypeError` |
| Geometry.GeomFromDictDefined | minimal_workchains.py:10-25 | rendering succeeds exactly when both fields are present, `atomcoords[-1]` exists, `atomnos` has atoms to visit, and every atom has a row of at least three numbers in that last frame |
| Geometry.GeomFromDictNoAtoms | minimal_workchains.py:11-14 | with an empty `atomnos` (list, string or dictionary) the loop never runs and the rendering is `""`, whether `atomcoords` is a non-empty list or a non-empty string |
| Geometry.GeomFromDictLines | minimal_workchains.py:10-25 | provided no visited atom's `str()` and no formatted number holds a newline: with no atoms the text is `""`. Otherwise it splits at newlines into exactly one line per atom. Line i is `str(atomnos[i]) + "  " + x + "    " + y + "    " + z`, formatted from row i of `atomcoords[-1]` (then a list), and the text does not end in a newline |
| Geometry.GeomFromDictUnfold | minimal_workchains.py:10-25 | a successful rendering has read the atoms and the last frame `atomcoords[-1]`, and is the join of one line per atom in that frame |
| Geometry.LinesDefined | minimal_workchains.py:14-24 | the first n lines exist exactly when each atom's line does; there are n of them, each the atom's own line |
| Geometry.LinesErrorPersists | minimal_workchains.py:14-24 | once one atom's line raises, the whole rendering raises that same error |
| Geometry.AtomLineDefined | minimal_workchains.py:16-24 | an atom's line exists exactly when its row is readable, and it is the formatted symbol and three coordinates |
| Geometry.LinesFormatted | minimal_workchains.py:14-24 | every line of a successful rendering is its atom's formatted row |
| Geometry.FormatAtomNoNewline | minimal_workchains.py:18 | a line holds no newline when `str()` and the number format produce none |
| Geometry.SplitJoin | minimal_workchains.py:14-24 | splitting at newlines recovers lines joined by `"\n"` that hold none |
| Geometry.JoinEndsWithLastLine | minimal_workchains.py:20-24 | the joined text ends with the last line's last character, never with a newline |
| Geometry.JoinedLines | minimal_workchains.py:14-24 | the joined lines of all atoms split back into those lines with no trailing newline; no atoms give `""` |
| RestartEngine.RecoveredStructure | minimal_workchains.py:109-124 | the recovered structure is the rendering of the failed node's `output_parameters`, or `NotExistent('output_parameters')` when the node has none |
| RestartEngine.RestartWorkChain.constructor | minimal_workchains.py:89-98 | setup: the next attempt's inputs are the exposed inputs, nothing has run, and the chain is not finished |
| RestartEngine.RestartWorkChain.HandleMiscFailure | minimal_workchains.py:100-126 | the handler succeeds exactly when the structure can be recovered. It then sets only `structure_str` of the next inputs to the rendered last geometry and returns the default report (no stop, no exit code). When it raises, the inputs are unchanged |
| RestartEngine.Results | minimal_workchains.py:128-149 | `children[iteration - 1]` is fetched first and raises `IndexError` exactly when out of Python range. Then the result is the maximum-iterations code exactly when the chain is unfinished and `iteration >= max_iterations`. Otherwise every output of that child is published with its key and value |
| RestartEngine.ResultsOnExit | minimal_workchains.py:128-149 | once the outline loop stops, `results()` publishes the last attempt's outputs only if that attempt succeeded, returns the maximum-iterations code only after `max_iterations` failed attempts, and raises `IndexError` only when the budget was never positive |
| RestartEngine.RestartWorkChain.Run | minimal_workchains.py:66-73 | each attempt runs on the exposed inputs or on what its predecessor handed on; no attempt follows a success; the attempt count stays within `max_iterations`. A completed chain publishes its last, successful attempt's outputs. Exceeding the budget means every attempt failed. A raising handler ends the chain with its error |
| HybridWorkChain.RunJobs | minimal_workchains.py:178-224 | the three submissions are labelled diffuse, implicit and hybrid. They share the structure, the code and the options (1 machine, 4 processes, 4096000 kB, 604800 s), and carry exactly the diffuse, solvent and hybrid transforms' results as parameters. The hybrid submission's basis fields equal the diffuse one's and its route equals the implicit one's. Preparation fails exactly when the diffuse or the solvent transform does |
| HybridWorkChain.CollectResults | minimal_workchains.py:240-254 | the loop over the children fills the three maps as `AggregateResult` specifies, raising the first child's error |
| HybridWorkChain.CollectedOk | minimal_workchains.py:244-249 | merging the first n children succeeds exactly when each of them has an `output_parameters` dict with a `freeenergy` and a renderable geometry |
| HybridWorkChain.CollectedKeys | minimal_workchains.py:244-249 | after n children the three maps have the same keys, `name_type` for each child |
| HybridWorkChain.CollectedValues | minimal_workchains.py:244-249 | a child whose label no later child repeats keeps its own free energy, geometry and parsed output |
| HybridWorkChain.CollectedErrorPersists | minimal_workchains.py:244-249 | once a child raises, the merge raises that same error |
| HybridWorkChain.AggregateResult | minimal_workchains.py:240-254 | `result()` itself; its contract is stated by `AggregateOk`, `AggregateKeys` and `AggregateValues` below |
| HybridWorkChain.AggregateOk | minimal_workchains.py:240-254 | `result()` succeeds exactly when every child contributes and the baseline has a `freeenergy` |
| HybridWorkChain.AggregateKeys | minimal_workchains.py:240-254 | each map holds the children's keys plus `original`, which is none of them. `original` holds the baseline free energy, the input structure string and the baseline dict, verbatim |
| HybridWorkChain.AggregateValues | minimal_workchains.py:244-249 | in the final maps a child whose label no later child repeats keeps its own free energy, geometry and parsed output |
| HybridWorkChain.VariantKeyInjective | minimal_workchains.py:245 | different child labels give different keys |
| HybridWorkChain.VariantKeyIsNotOriginal | minimal_workchains.py:245 | no `name + '_' + type` key is `original` |
| HybridWorkChain.ChildKeysCount | minimal_workchains.py:245 | children with distinct labels have as many keys as children |
| HybridWorkChain.EntryCount | minimal_workchains.py:244-254 | with distinct labels each map has one entry per child plus one |
| HybridWorkChain.DistinctLabelsKeepEntries | minimal_workchains.py:244-249 | with distinct labels, every child's key maps to its `freeenergy`, to the rendering of its parsed output, and to that parsed output |
| HybridWorkChain.LabelsDistinct | minimal_workchains.py:233-237 | the three context labels are distinct |
| HybridWorkChain.FourEntries | minimal_workchains.py:233-254 | for the three children of `run_jobs`, each map has exactly the four keys `name_diffuse`, `name_implicit`, `name_hybrid` and `original` |
| HybridWorkChain.SiblingFailureFailsAll | minimal_workchains.py:246 | one child that published nothing, as a chain that exceeded its budget does, makes `result()` raise; no partial aggregate is produced |

## Left out

- RestartEngine.RestartWorkChain.Run: the loop machinery of AiiDA's `BaseRestartWorkChain` is not part of this file. That covers `should_run_process`, `run_process`, `inspect_process`, handler priorities and the policy for unhandled failures. `Run` is an abstract outline: a success finishes the chain, the three registered codes call the shown handler, and any other failure is retried on unchanged inputs, every time it occurs. The framework instead restarts an unhandled failure once and ends the chain when the next attempt also fails unhandled; the model does not capture that second-failure stop.
- The exit codes 350 and 399 are declared but no handler maps to them, so they appear only as `OtherFailure`.
- Submission, `to_context` waiting and the concurrent execution of the three children are scheduler behaviour. `RunJobs` stops at the submission records, and `result()` takes the children's outputs as given maps in context order.
- Provenance extras (`base.extras.set_many`), `self.report` messages and the node-link traversal are database plumbing. A child's outputs are a map by link label: a missing `output_parameters` raises `NotExistent` and a non-dict one raises `TypeError`.
- `CalculationFactory`, `Code` and the Gaussian calculation are foreign plugins. The calculation is the parameter `gaussian` of `Run`, and the code is an opaque `Value`.
- Floating-point formatting (`:.6f`) and `str()` are function parameters, not floating point. Geometry.GeomFromDictLines assumes that `:.6f` produces no newline and that the `str()` of no visited atom holds one; the source makes no such promise.
- Values.Index: indexing a dictionary by an integer raises `KeyError` with that integer in Python. A dictionary `atomcoords`, frame or row raises `KeyError(-1)`, `KeyError(x)` or `KeyError(0)`. The model's `KeyError` carries a string key, so these raise `TypeError` here.
- Geometry.Symbols: a non-empty dictionary `atomnos` raises `KeyError(0)` in Python at `symbols[0]`; it raises `TypeError` here, for the same reason.
- Geometry.Coordinate: a character of a string frame or row reaches `:.6f`, which raises `ValueError` in Python; it raises `TypeError` here.
- RestartEngine.RecoveredStructure: `node.outputs.output_parameters` on a node without that output raises AiiDA's `NotExistentAttributeError`, which is both an `AttributeError` and a `NotExistent`; the model has the single case `NotExistent('output_parameters')`.
- HybridWorkChain.OutputParametersOf: `get_node_by_label('output_parameters')` on a child without that output raises AiiDA's `NotExistent`, modelled as `NotExistent('output_parameters')`.
- The model uses one `TypeError` for Python's `AttributeError`, `TypeError` and `ValueError`.
- `get_dict()` is assumed to return a copy, so the transforms never alter their input node. The model is value-based and cannot express aliasing.
- The stored `Dict` node's key order after a database round trip is taken to be insertion order.
- No literal instance of `result()` (a named molecule with given free energies) is proved, because literal string arithmetic is too costly for the verifier here. `HybridWorkChain.FourEntries` and `HybridWorkChain.DistinctLabelsKeepEntries` cover every name and energy.
- The merge of `result()` takes the geometry renderer as a parameter (`HybridWorkChain.GeometryOf` is the one `result()` uses). Only the `geometry` map depends on it, so the merge lemmas hold for any renderer.
