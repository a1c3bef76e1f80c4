# Demand-driven systems-model resolver

This project models `SystemsModel`, the evaluation engine of the aviation systems model, in
Dafny. A systems model is a catalogue of *transforms*. Each transform has a name, an ordered
list of parameter names and a behaviour. `evaluate(inputs, output)` resolves a requested
name against the caller's `inputs` dictionary. The call has four steps:

1. A name already in `inputs` is returned as is.
2. Otherwise the first transform of that name is searched for. If there is none, the call
   fails with an unknown-transform error.
3. Each parameter of that transform that `inputs` lacks is evaluated recursively and
   written back into `inputs`, in declared order.
4. The behaviour is applied to the parameter values bound by name.

## Files

- `transforms.dfy` (module `Transforms`):
  - the `Transform` datatype, whose behaviour is an opaque function of the bound arguments;
  - first-match lookup by name;
  - keyword binding of arguments;
  - the ranking that says the dependency graph is acyclic.
- `engine.dfy` (module `Engine`):
  - the classes `Store`, the caller's dictionary as a mutable map, and `SystemsModel`, with
    its constructor, the search loop `FindTransform`, the recursive `Evaluate` and its
    parameter loop `EvaluateParameters`;
  - the ghost functions `Eval` and `EvalParameters`. They give the outcome of one call: the
    result, the store left behind, and a ghost trace of the names whose behaviour was
    applied, in order.

  `Evaluate` and `EvaluateParameters` are proved equal to them.
- `engine_properties.dfy` (module `EngineProperties`): what a call promises, proved about
  `Eval`:
  - shadowing, unknown names, and what a success returns;
  - only keys are added;
  - which keys are written, and that the output itself is never written;
  - what a failure names;
  - each behaviour is applied at most once;
  - memoisation is transparent. `Value` is a plain recursive, unmemoised reading of the
    catalogue, and `Eval` succeeds exactly when `Value` has a value, returns that value and
    stores only such values.
- `fleet.dfy` (module `Fleet`): the two-transform global-fleet catalogue,
  `passengers_per_day` and `required_global_fleet`, with three evaluation scenarios and a
  caller that runs `Evaluate` on the catalogue. The scenarios are the ones in
  `tests/test_engine.py`, whose fixture (:20-22) builds the packaged `camia_engine` engine;
  the fixture for this engine (:14-17) is commented out. The analysis scripts ask the same
  questions of the packaged engine.

Design choices:

- **Values.** Values have a generic type `V`, and behaviours are opaque. The engine only
  binds arguments by name and forwards values, so the model makes no claim about the unit
  arithmetic inside the behaviours.
- **Catalogue order.** The source keeps the catalogue as a Python `set`, and its search loop
  takes the first match in iteration order. The model keeps the catalogue as a sequence
  whose order stands for that iteration order. Lookup returns the first transform of the
  name in it.
- **Duplicate names.** Duplicates are allowed, as in the source, which does not reject them.
- **Acyclicity.** The model requires the whole catalogue to be acyclic, witnessed by a ghost
  rank on names: every parameter of the transform a name resolves to ranks strictly below
  the name. This rank is the termination measure of the recursion. The source needs less
  than this; "## Left out" says what the precondition excludes.

## Model

| member | source | states |
|---|---|---|
| Transforms.Lookup | src/aviation/_engine.py:41-46 | No result exactly when no transform in the catalogue has the name. Otherwise the result is a transform with that name, and no transform before it has that name. |
| Transforms.Arguments | src/aviation/_engine.py:56 | The argument map has exactly the parameter names as keys, and binds each to the value the store holds for it. |
| Engine.Eval | src/aviation/_engine.py:36-57 | Every key of the caller's store is still a key of the store a call leaves behind. |
| Engine.EvalParameters | src/aviation/_engine.py:51-53 | The walk over the parameters only grows the key set. When it completes, every remaining parameter is a key of the store. |
| Engine.SystemsModel.constructor | src/aviation/_engine.py:14-16 | The model holds exactly the catalogue it was built from. |
| Engine.SystemsModel.FindTransform | src/aviation/_engine.py:41-46 | The search loop returns the first transform with the requested name, or none when the catalogue has no such name. |
| Engine.SystemsModel.Evaluate | src/aviation/_engine.py:18-57 | The result, the caller's updated store and the trace of applied behaviours are exactly the outcome `Eval` specifies for the store as it was before the call. |
| Engine.SystemsModel.EvaluateParameters | src/aviation/_engine.py:51-53 | The loop over the parameters leaves the status, the store and the trace that `EvalParameters` specifies. It stops at the first failing recursive call. |
| EngineProperties.InputsShadowTransforms | src/aviation/_engine.py:36-37 | A name already in the store is returned with its stored value. The store is unchanged and no behaviour is applied, even when a transform has that name. |
| EngineProperties.UnknownOutputFails | src/aviation/_engine.py:41-46 | A name that is neither stored nor the name of a transform fails with an unknown-transform error naming exactly it. The store is unchanged. |
| EngineProperties.SuccessAppliesTransform | src/aviation/_engine.py:41-57 | On a success for an unstored name, a transform of that name was found. All its parameters are keys of the final store, and the result is its behaviour applied to their stored values. |
| EngineProperties.OnlyAddsKeys | src/aviation/_engine.py:51-53 | Every key stored before a call keeps its value after the call. |
| EngineProperties.ParametersOnlyAddKeys | src/aviation/_engine.py:51-53 | The parameter walk keeps every stored key with its value. |
| EngineProperties.EvalMatchesValue | src/aviation/_engine.py:36-57 | A call succeeds exactly when the unmemoised reference semantics `Value` gives the name a value, and then returns that value. Every key the call adds holds the reference value of its name. |
| EngineProperties.EvalParametersMatchValue | src/aviation/_engine.py:51-53 | The walk completes exactly when every remaining parameter has a reference value, and then stores each of those values. Every key it adds holds its reference value. |
| EngineProperties.ValueStable | src/aviation/_engine.py:51-53 | Writing values that agree with the reference semantics into the store does not change the reference value of any name. This is why memoising is sound. |
| EngineProperties.StoredValuesAreEvaluations | src/aviation/_engine.py:51-53 | Any value a call leaves in the store is what a call for that name on the original store returns. |
| EngineProperties.AddedKeysAreDependencies | src/aviation/_engine.py:51-53 | Every key a call adds is a transitive dependency of the requested name. |
| EngineProperties.ParameterKeysAreDependencies | src/aviation/_engine.py:51-53 | Every key the walk adds is a walked parameter or a transitive dependency of one. |
| EngineProperties.OutputNeverStored | src/aviation/_engine.py:53-57 | The requested name, if not stored before the call, is not stored after it. Only parameters are written, and the result is only returned. |
| EngineProperties.FailureNamesMissingDependency | src/aviation/_engine.py:41-53 | A failure names the requested name or one of its transitive dependencies. That name is not stored and is the name of no transform. |
| EngineProperties.ParametersFailureNamesMissingDependency | src/aviation/_engine.py:51-53 | A failed walk names a walked parameter, or a transitive dependency of one, that is neither stored nor the name of a transform. |
| EngineProperties.AppliedOnce | src/aviation/_engine.py:36-57 | No behaviour is applied twice in one call. The behaviours applied are exactly those of the keys the call added, plus the requested name when it was not stored and the call succeeds. |
| EngineProperties.ParametersAppliedOnce | src/aviation/_engine.py:51-53 | In the walk, no behaviour is applied twice, and the behaviours applied are exactly those of the keys it added. |
| Fleet.Catalogue | src/aviation/fleet.py:17-51 | The global-fleet catalogue has no dependency cycle. Raw figures rank 0, `passengers_per_day` ranks 1 and `required_global_fleet` ranks 2. |
| Fleet.DailyPassengersFromYearlyInputs | tests/test_engine.py:29-34 | With both yearly figures stored, `passengers_per_day` is the behaviour applied to exactly those two values. Nothing is stored, and only that behaviour is applied. |
| Fleet.FleetFromRawInputs | tests/test_engine.py:37-44 | From the raw figures alone, `passengers_per_day` is computed first and written back. The fleet behaviour is applied to it and to the two aircraft figures, and the fleet size is not stored. |
| Fleet.FleetFromSuppliedDailyPassengers | tests/test_engine.py:47-53 | A supplied `passengers_per_day` shadows its transform. Only the fleet behaviour is applied, to the three supplied values, and the store is unchanged. |
| Fleet.RequiredFleet | tests/test_engine.py:57-65 | A caller that builds the model and asks for the fleet size from raw figures gets the fleet behaviour applied to the computed daily passenger count. That count is the one left in its store. |

## Left out

- Engine.SystemsModel.Evaluate: requires the whole catalogue to be acyclic, given as a rank on names. The precondition is stronger than the source needs. It also excludes catalogues whose cycle is never entered, such as a cycle broken by a stored input (`x(y)`, `y(x)` with `y` supplied) or a cycle the requested name does not reach (`c()`, `a(b)`, `b(a)` when evaluating `c`). The source resolves both normally. A cycle the resolution does enter makes the source recurse until the interpreter's recursion limit. A chain that is acyclic but deeper than that limit raises `RecursionError` in the source. Neither failure is modelled. The implementation has no cycle detection and no circular-dependency error, so the model claims neither.
- Engine.SystemsModel.constructor: duplicate transform names are not rejected, because the source does not reject them either. Lookup takes the first match in the catalogue's order.
- Engine.SystemsModel.constructor: Python's `set` removes identical transform objects, and it has its own hash-based iteration order. Both are modelled by the sequence order, which stands for one iteration order.
- Behaviours are total functions of the bound arguments. An exception raised inside a behaviour, such as a division by zero or a unit mismatch, is not modelled.
- The `ValueError` exception and its message text `Unknown transform: <name>` are modelled as the result `Failure(UnknownTransform(name))`. Keys written by deeper calls before the failure stay in the store, as in the source.
- The floating-point and unit arithmetic of `passengers_per_day` and `required_global_fleet` (src/aviation/fleet.py:29, 48-51) is left out, and so are the unit definitions. The behaviours are opaque, so the exact numbers the engine tests expect are not modelled.
- The `typing.Annotated` unit metadata on parameters is not modelled, because the engine never reads it.
- The `Transform` class that src/aviation/_engine.py:8 imports from `aviation._model` is not part of this model. Neither is the `transform` decorator that src/aviation/fleet.py:17 and :33 take from `camia_model`. A transform is reduced to its name, its parameter names and its behaviour.
- The plotting and analysis scripts are left out, apart from their engine calls. They build a `SystemsModel` over the catalogue and call `evaluate` (analysis/plot_global_fleet.py:36-37 and :45-46, analysis/plot_passengers.py:26-27). Those calls ask for `required_global_fleet` from the raw figures and for `passengers_per_day` from the yearly figures, which `Fleet.FleetFromRawInputs` and `Fleet.DailyPassengersFromYearlyInputs` cover. The calls use the packaged `camia_engine` engine. They pass arrays of quantities, and broadcasting over those arrays happens inside the opaque behaviours. The rest of the scripts is rendering, file output and straight-line arithmetic. The package assembly in `src/aviation/__init__.py` is not modelled beyond the order of the catalogue.
