/** What one `evaluate` call promises, stated over the specification `Eval`:
    - inputs shadow transforms, an unknown name fails at once, a found transform is applied
      to the values the store holds for its parameters;
    - memoisation is invisible: the result is the value of `output` under the plain,
      unmemoised recursive reading of the catalogue (`Value`), and every value written into
      the store is that name's value too;
    - only transitive dependencies of `output` are written, never `output` itself;
    - a failure names a missing transitive dependency;
    - every behaviour is applied at most once per call. */
module EngineProperties {
  import opened Transforms
  import opened Engine

  // ---------------------------------------------------------------------------------------
  // The four steps of one call

  /** Step 1: a name already in the store is returned as is, nothing is written and no
      behaviour is applied, whether or not a transform of that name exists. */
  lemma InputsShadowTransforms<V>(ts: seq<Transform<V>>, inputs: map<string, V>, output: string, rank: string -> nat)
    requires Ranked(ts, rank)
    requires output in inputs
    ensures Eval(ts, inputs, output, rank) == Outcome(Success(inputs[output]), inputs, [])
  {
  }

  /** Step 2: a name that is neither stored nor the name of a transform fails with an
      error naming exactly that name, and the store is left as it was. */
  lemma UnknownOutputFails<V>(ts: seq<Transform<V>>, inputs: map<string, V>, output: string, rank: string -> nat)
    requires Ranked(ts, rank)
    requires output !in inputs
    requires forall i :: 0 <= i < |ts| ==> ts[i].name != output
    ensures Eval(ts, inputs, output, rank) == Outcome(Failure(UnknownTransform(output)), inputs, [])
  {
  }

  /** Steps 3 and 4: on success, the result is the behaviour of the first transform named
      `output`, applied to the values the final store holds for its parameters, all of which
      are present. */
  lemma SuccessAppliesTransform<V>(ts: seq<Transform<V>>, inputs: map<string, V>, output: string, rank: string -> nat)
    requires Ranked(ts, rank)
    requires output !in inputs
    requires Eval(ts, inputs, output, rank).result.Success?
    ensures Lookup(ts, output).Some?
    ensures Lookup(ts, output).value.name == output
    ensures var o := Eval(ts, inputs, output, rank);
            var t := Lookup(ts, output).value;
            && (forall p :: p in t.parameters ==> p in o.store)
            && o.result.value == t.behavior(Arguments(o.store, t.parameters))
  {
    var pr := EvalParameters(ts, inputs, Lookup(ts, output).value.parameters, 0, rank(output), rank);
    assert forall p :: p in Lookup(ts, output).value.parameters ==> p in pr.store by {
      forall p | p in Lookup(ts, output).value.parameters ensures p in pr.store {
        var m :| 0 <= m < |Lookup(ts, output).value.parameters| && Lookup(ts, output).value.parameters[m] == p;
      }
    }
  }

  /** Only keys are added: everything stored before the call keeps its value. */
  lemma {:induction false} OnlyAddsKeys<V>(ts: seq<Transform<V>>, inputs: map<string, V>, output: string, rank: string -> nat)
    requires Ranked(ts, rank)
    decreases rank(output), 1
    ensures Extends(inputs, Eval(ts, inputs, output, rank).store)
  {
    if output !in inputs {
      match Lookup(ts, output)
      case None =>
      case Some(t) =>
        assert DependenciesOf(ts, output) == t.parameters;
        ParametersOnlyAddKeys(ts, inputs, t.parameters, 0, rank(output), rank);
    }
  }

  lemma {:induction false} ParametersOnlyAddKeys<V>(ts: seq<Transform<V>>, inputs: map<string, V>, parameters: seq<string>,
                                                   j: nat, bound: nat, rank: string -> nat)
    requires Ranked(ts, rank)
    requires j <= |parameters|
    requires forall p :: p in parameters ==> rank(p) < bound
    decreases bound, 0, |parameters| - j
    ensures Extends(inputs, EvalParameters(ts, inputs, parameters, j, bound, rank).store)
  {
    if j < |parameters| {
      var p := parameters[j];
      if p in inputs {
        ParametersOnlyAddKeys(ts, inputs, parameters, j + 1, bound, rank);
      } else {
        var sub := Eval(ts, inputs, p, rank);
        OnlyAddsKeys(ts, inputs, p, rank);
        if sub.result.Success? {
          ParametersOnlyAddKeys(ts, sub.store[p := sub.result.value], parameters, j + 1, bound, rank);
        }
      }
    }
  }

  // ---------------------------------------------------------------------------------------
  // Unfolding one call, step by step

  /** A computed name whose parameter walk resolved is the behaviour applied to the stored
      parameter values, and is applied last. */
  lemma EvalApplies<V>(ts: seq<Transform<V>>, inputs: map<string, V>, output: string, t: Transform<V>, rank: string -> nat,
                       store: map<string, V>, applied: seq<string>)
    requires Ranked(ts, rank)
    requires output !in inputs && Lookup(ts, output) == Some(t)
    requires forall p :: p in t.parameters ==> rank(p) < rank(output)
    requires EvalParameters(ts, inputs, t.parameters, 0, rank(output), rank) == Progress(Resolved, store, applied)
    ensures forall p :: p in t.parameters ==> p in store
    ensures Eval(ts, inputs, output, rank) == Outcome(Success(t.behavior(Arguments(store, t.parameters))), store, applied + [output])
  {
    assert DependenciesOf(ts, output) == t.parameters;
    forall p | p in t.parameters ensures p in store {
      var m :| 0 <= m < |t.parameters| && t.parameters[m] == p;
    }
  }

  /** The walk passes over a parameter that is already stored. */
  lemma WalkSkips<V>(ts: seq<Transform<V>>, inputs: map<string, V>, parameters: seq<string>, j: nat, bound: nat, rank: string -> nat)
    requires Ranked(ts, rank)
    requires j < |parameters| && parameters[j] in inputs
    requires forall p :: p in parameters ==> rank(p) < bound
    ensures EvalParameters(ts, inputs, parameters, j, bound, rank) == EvalParameters(ts, inputs, parameters, j + 1, bound, rank)
  {
  }

  /** The walk evaluates a missing parameter, stores its value and goes on. */
  lemma WalkComputes<V>(ts: seq<Transform<V>>, inputs: map<string, V>, parameters: seq<string>, j: nat, bound: nat, rank: string -> nat,
                        o: Outcome<V>, v: V)
    requires Ranked(ts, rank)
    requires j < |parameters| && parameters[j] !in inputs
    requires forall p :: p in parameters ==> rank(p) < bound
    requires Eval(ts, inputs, parameters[j], rank) == o && o.result == Success(v)
    ensures EvalParameters(ts, inputs, parameters, j, bound, rank)
              == Prepend(o.applied, EvalParameters(ts, o.store[parameters[j] := v], parameters, j + 1, bound, rank))
  {
  }

  /** The walk ends, resolved, after the last parameter. */
  lemma WalkEnds<V>(ts: seq<Transform<V>>, inputs: map<string, V>, parameters: seq<string>, bound: nat, rank: string -> nat)
    requires Ranked(ts, rank)
    requires forall p :: p in parameters ==> rank(p) < bound
    ensures EvalParameters(ts, inputs, parameters, |parameters|, bound, rank) == Progress(Resolved, inputs, [])
  {
  }

  // ---------------------------------------------------------------------------------------
  // Reference semantics: the value of a name without memoisation

  /** The value a name denotes given the stored values: a stored value, or the behaviour
      of the transform of that name applied to the values of all its parameters; `None` if
      some name on the way has neither. */
  ghost function Value<V>(ts: seq<Transform<V>>, s: map<string, V>, name: string, rank: string -> nat): Option<V>
    requires Ranked(ts, rank)
    decreases rank(name), 1
  {
    if name in s then Some(s[name])
    else
      match Lookup(ts, name)
      case None => None
      case Some(t) =>
        assert DependenciesOf(ts, name) == t.parameters;
        if forall p :: p in t.parameters ==> Value(ts, s, p, rank).Some? then
          Some(t.behavior(ValueArguments(ts, s, t.parameters, rank(name), rank)))
        else None
  }

  /** The arguments a transform receives under the reference semantics: each parameter
      bound to its value. */
  ghost function ValueArguments<V>(ts: seq<Transform<V>>, s: map<string, V>, parameters: seq<string>, bound: nat, rank: string -> nat): (args: map<string, V>)
    requires Ranked(ts, rank)
    requires forall p :: p in parameters ==> rank(p) < bound
    requires forall p :: p in parameters ==> Value(ts, s, p, rank).Some?
    decreases bound, 0
    ensures args.Keys == set p | p in parameters
    ensures forall p :: p in parameters ==> Some(args[p]) == Value(ts, s, p, rank)
  {
    map p | p in parameters :: Value(ts, s, p, rank).value
  }

  /** `after` extends `before` with values that are the values of their names under
      `before`. */
  ghost predicate Agrees<V>(ts: seq<Transform<V>>, rank: string -> nat, before: map<string, V>, after: map<string, V>)
    requires Ranked(ts, rank)
  {
    && Extends(before, after)
    && forall k :: k in after && k !in before ==> Value(ts, before, k, rank) == Some(after[k])
  }

  /** Storing values that agree with the reference semantics does not change it. */
  lemma {:induction false} ValueStable<V>(ts: seq<Transform<V>>, rank: string -> nat, before: map<string, V>, after: map<string, V>, name: string)
    requires Ranked(ts, rank)
    requires Agrees(ts, rank, before, after)
    ensures Value(ts, after, name, rank) == Value(ts, before, name, rank)
    decreases rank(name)
  {
    if name in before || name in after {
    } else {
      match Lookup(ts, name)
      case None =>
      case Some(t) =>
        assert DependenciesOf(ts, name) == t.parameters;
        forall p | p in t.parameters
          ensures Value(ts, after, p, rank) == Value(ts, before, p, rank)
        {
          ValueStable(ts, rank, before, after, p);
        }
        if forall p :: p in t.parameters ==> Value(ts, before, p, rank).Some? {
          ValueArgumentsStable(ts, rank, before, after, t.parameters, rank(name));
        } else {
          assert Value(ts, after, name, rank) == None;
        }
    }
  }

  /** Parameters with the same values under two stores get the same reference arguments. */
  lemma ValueArgumentsStable<V>(ts: seq<Transform<V>>, rank: string -> nat, before: map<string, V>, after: map<string, V>,
                                ps: seq<string>, bound: nat)
    requires Ranked(ts, rank)
    requires forall p :: p in ps ==> rank(p) < bound && Value(ts, before, p, rank).Some?
    requires forall p :: p in ps ==> Value(ts, after, p, rank) == Value(ts, before, p, rank)
    ensures ValueArguments(ts, after, ps, bound, rank) == ValueArguments(ts, before, ps, bound, rank)
  {
    var a, b := ValueArguments(ts, after, ps, bound, rank), ValueArguments(ts, before, ps, bound, rank);
    forall p | p in a ensures p in b && a[p] == b[p] {
      assert Some(a[p]) == Value(ts, after, p, rank);
    }
    SameEntries(a, b);
  }

  lemma SameEntries<V>(a: map<string, V>, b: map<string, V>)
    requires a.Keys == b.Keys
    requires forall k :: k in a ==> a[k] == b[k]
    ensures a == b
  {
  }

  lemma AgreesTransitive<V>(ts: seq<Transform<V>>, rank: string -> nat, s0: map<string, V>, s1: map<string, V>, s2: map<string, V>)
    requires Ranked(ts, rank)
    requires Agrees(ts, rank, s0, s1)
    requires Agrees(ts, rank, s1, s2)
    ensures Agrees(ts, rank, s0, s2)
  {
    forall k | k in s2 && k !in s0
      ensures Value(ts, s0, k, rank) == Some(s2[k])
    {
      if k !in s1 {
        ValueStable(ts, rank, s0, s1, k);
      }
    }
  }

  /** Memoisation is transparent: `evaluate` succeeds exactly when `output` has a value
      under the reference semantics, returns that value, and every value it stores is the
      value of its name. */
  lemma {:induction false} EvalMatchesValue<V>(ts: seq<Transform<V>>, inputs: map<string, V>, output: string, rank: string -> nat)
    requires Ranked(ts, rank)
    decreases rank(output), 1
    ensures OutcomeAgrees(ts, rank, inputs, output, Eval(ts, inputs, output, rank))
  {
    if output !in inputs {
      match Lookup(ts, output)
      case None =>
      case Some(t) =>
        assert DependenciesOf(ts, output) == t.parameters;
        var pr := EvalParameters(ts, inputs, t.parameters, 0, rank(output), rank);
        EvalParametersMatchValue(ts, inputs, t.parameters, 0, rank(output), rank);
        if pr.status.Resolved? {
          ResolvedMatchesValue(ts, inputs, output, t, pr, rank);
        } else {
          StoppedMatchesValue(ts, inputs, output, t, pr, rank);
        }
    }
  }

  /** What the walk over `parameters[j..]` promises in terms of the reference semantics. */
  ghost predicate WalkAgrees<V>(ts: seq<Transform<V>>, rank: string -> nat, inputs: map<string, V>,
                                parameters: seq<string>, j: nat, pr: Progress<V>)
    requires Ranked(ts, rank)
  {
    && Agrees(ts, rank, inputs, pr.store)
    && (pr.status.Resolved? <==> forall m :: j <= m < |parameters| ==> Value(ts, inputs, parameters[m], rank).Some?)
    && (pr.status.Resolved? ==>
          forall m :: j <= m < |parameters| ==>
            parameters[m] in pr.store && Value(ts, inputs, parameters[m], rank) == Some(pr.store[parameters[m]]))
  }

  /** What `EvalMatchesValue` promises of one outcome. */
  ghost predicate OutcomeAgrees<V>(ts: seq<Transform<V>>, rank: string -> nat, inputs: map<string, V>, output: string, o: Outcome<V>)
    requires Ranked(ts, rank)
  {
    && Agrees(ts, rank, inputs, o.store)
    && (o.result.Success? <==> Value(ts, inputs, output, rank).Some?)
    && (o.result.Success? ==> Value(ts, inputs, output, rank) == Some(o.result.value))
  }

  /** The last step of a call that found transform `t` and resolved all its parameters:
      applying `t` gives the value of `output`. */
  lemma ResolvedMatchesValue<V>(ts: seq<Transform<V>>, inputs: map<string, V>, output: string, t: Transform<V>,
                                pr: Progress<V>, rank: string -> nat)
    requires Ranked(ts, rank)
    requires output !in inputs && Lookup(ts, output) == Some(t)
    requires pr.status.Resolved?
    requires WalkAgrees(ts, rank, inputs, t.parameters, 0, pr)
    ensures forall p :: p in t.parameters ==> p in pr.store
    ensures OutcomeAgrees(ts, rank, inputs, output,
                          Outcome(Success(t.behavior(Arguments(pr.store, t.parameters))), pr.store, pr.applied + [output]))
  {
    var ps := t.parameters;
    assert DependenciesOf(ts, output) == ps;
    ResolvedParameters(ts, rank, inputs, ps, pr);
    ValueOfTransform(ts, inputs, output, t, rank);
    StoredArgumentsAreValues(ts, rank, inputs, pr.store, ps, rank(output));
  }

  /** The reference value of a computed name whose parameters all have values. */
  lemma ValueOfTransform<V>(ts: seq<Transform<V>>, s: map<string, V>, name: string, t: Transform<V>, rank: string -> nat)
    requires Ranked(ts, rank)
    requires name !in s && Lookup(ts, name) == Some(t)
    requires forall p :: p in t.parameters ==> rank(p) < rank(name) && Value(ts, s, p, rank).Some?
    ensures Value(ts, s, name, rank) == Some(t.behavior(ValueArguments(ts, s, t.parameters, rank(name), rank)))
  {
  }

  /** Binding parameters from a store that holds their values gives the reference
      arguments. */
  lemma StoredArgumentsAreValues<V>(ts: seq<Transform<V>>, rank: string -> nat, s: map<string, V>, store: map<string, V>,
                                    ps: seq<string>, bound: nat)
    requires Ranked(ts, rank)
    requires forall p :: p in ps ==> rank(p) < bound && p in store && Value(ts, s, p, rank) == Some(store[p])
    ensures Arguments(store, ps) == ValueArguments(ts, s, ps, bound, rank)
  {
    var values := ValueArguments(ts, s, ps, bound, rank);
    assert forall p :: p in ps ==> values[p] == store[p] by {
      forall p | p in ps ensures values[p] == store[p] {
        assert Some(values[p]) == Value(ts, s, p, rank);
      }
    }
    ArgumentsUnique(store, ps, values);
  }

  /** The argument map is the only map with exactly the parameters as keys that agrees with
      the store on them. */
  lemma ArgumentsUnique<V>(store: map<string, V>, ps: seq<string>, args: map<string, V>)
    requires args.Keys == set p | p in ps
    requires forall p :: p in ps ==> p in store && p in args && args[p] == store[p]
    ensures Arguments(store, ps) == args
  {
  }

  /** After a resolved walk every parameter is stored, with its value. */
  lemma ResolvedParameters<V>(ts: seq<Transform<V>>, rank: string -> nat, inputs: map<string, V>,
                              ps: seq<string>, pr: Progress<V>)
    requires Ranked(ts, rank)
    requires pr.status.Resolved?
    requires WalkAgrees(ts, rank, inputs, ps, 0, pr)
    ensures forall p :: p in ps ==> p in pr.store && Value(ts, inputs, p, rank) == Some(pr.store[p])
  {
    forall p | p in ps ensures p in pr.store && Value(ts, inputs, p, rank) == Some(pr.store[p]) {
      var m :| 0 <= m < |ps| && ps[m] == p;
    }
  }

  /** A call whose walk over the parameters of `t` stopped fails, and so does `Value`. */
  lemma StoppedMatchesValue<V>(ts: seq<Transform<V>>, inputs: map<string, V>, output: string, t: Transform<V>,
                               pr: Progress<V>, rank: string -> nat)
    requires Ranked(ts, rank)
    requires output !in inputs && Lookup(ts, output) == Some(t)
    requires pr.status.Stopped?
    requires WalkAgrees(ts, rank, inputs, t.parameters, 0, pr)
    ensures OutcomeAgrees(ts, rank, inputs, output, Outcome(Failure(pr.status.error), pr.store, pr.applied))
  {
    assert DependenciesOf(ts, output) == t.parameters;
    var m :| 0 <= m < |t.parameters| && Value(ts, inputs, t.parameters[m], rank).None?;
    assert t.parameters[m] in t.parameters;
    assert Value(ts, inputs, output, rank) == None;
  }

  lemma {:induction false} EvalParametersMatchValue<V>(ts: seq<Transform<V>>, inputs: map<string, V>, parameters: seq<string>,
                                                      j: nat, bound: nat, rank: string -> nat)
    requires Ranked(ts, rank)
    requires j <= |parameters|
    requires forall p :: p in parameters ==> rank(p) < bound
    decreases bound, 0, |parameters| - j
    ensures WalkAgrees(ts, rank, inputs, parameters, j, EvalParameters(ts, inputs, parameters, j, bound, rank))
  {
    if j < |parameters| {
      var p := parameters[j];
      if p in inputs {
        EvalParametersMatchValue(ts, inputs, parameters, j + 1, bound, rank);
      } else {
        var sub := Eval(ts, inputs, p, rank);
        EvalMatchesValue(ts, inputs, p, rank);
        if sub.result.Success? {
          var s1 := sub.store[p := sub.result.value];
          EvalParametersMatchValue(ts, s1, parameters, j + 1, bound, rank);
          WalkStep(ts, rank, inputs, sub.store, parameters, j, sub.result.value,
                   EvalParameters(ts, s1, parameters, j + 1, bound, rank));
        }
      }
    }
  }

  /** One step of the walk: `parameters[j]` was missing, its evaluation produced `v` and
      left `store`; writing `v` and walking on keeps agreeing with `Value`. */
  lemma WalkStep<V>(ts: seq<Transform<V>>, rank: string -> nat, inputs: map<string, V>, store: map<string, V>,
                    parameters: seq<string>, j: nat, v: V, rest: Progress<V>)
    requires Ranked(ts, rank)
    requires j < |parameters| && parameters[j] !in inputs
    requires Agrees(ts, rank, inputs, store)
    requires Value(ts, inputs, parameters[j], rank) == Some(v)
    requires WalkAgrees(ts, rank, store[parameters[j] := v], parameters, j + 1, rest)
    ensures WalkAgrees(ts, rank, inputs, parameters, j, rest)
  {
    var s1 := store[parameters[j] := v];
    assert Agrees(ts, rank, inputs, s1);
    AgreesTransitive(ts, rank, inputs, s1, rest.store);
    forall m | j < m < |parameters|
      ensures Value(ts, s1, parameters[m], rank) == Value(ts, inputs, parameters[m], rank)
    {
      ValueStable(ts, rank, inputs, s1, parameters[m]);
    }
  }

  /** Every value left in the store by a call is what a call for that name on the
      caller's original store returns. */
  lemma StoredValuesAreEvaluations<V>(ts: seq<Transform<V>>, inputs: map<string, V>, output: string, rank: string -> nat, k: string)
    requires Ranked(ts, rank)
    requires k in Eval(ts, inputs, output, rank).store
    ensures Eval(ts, inputs, k, rank).result == Success(Eval(ts, inputs, output, rank).store[k])
  {
    EvalMatchesValue(ts, inputs, output, rank);
    EvalMatchesValue(ts, inputs, k, rank);
  }

  // ---------------------------------------------------------------------------------------
  // Which names are written, and what a failure names

  /** `to` is reached from `from` through one or more parameters of resolved transforms. */
  ghost predicate DependsOn<V>(ts: seq<Transform<V>>, rank: string -> nat, from: string, to: string)
    requires Ranked(ts, rank)
    decreases rank(from)
  {
    exists p :: p in DependenciesOf(ts, from) && (p == to || DependsOn(ts, rank, p, to))
  }

  lemma {:induction false} DependsOnLowersRank<V>(ts: seq<Transform<V>>, rank: string -> nat, from: string, to: string)
    requires Ranked(ts, rank)
    requires DependsOn(ts, rank, from, to)
    ensures rank(to) < rank(from)
    decreases rank(from)
  {
    var p :| p in DependenciesOf(ts, from) && (p == to || DependsOn(ts, rank, p, to));
    if p != to {
      DependsOnLowersRank(ts, rank, p, to);
    }
  }

  /** Every key a call adds is a transitive dependency of `output`. */
  lemma {:induction false} AddedKeysAreDependencies<V>(ts: seq<Transform<V>>, inputs: map<string, V>, output: string, rank: string -> nat)
    requires Ranked(ts, rank)
    decreases rank(output), 1
    ensures forall k :: k in Eval(ts, inputs, output, rank).store && k !in inputs ==> DependsOn(ts, rank, output, k)
  {
    if output !in inputs {
      match Lookup(ts, output)
      case None =>
      case Some(t) =>
        assert DependenciesOf(ts, output) == t.parameters;
        var ps := t.parameters;
        var pr := EvalParameters(ts, inputs, ps, 0, rank(output), rank);
        ParameterKeysAreDependencies(ts, inputs, ps, 0, rank(output), rank);
        forall k | k in pr.store && k !in inputs ensures DependsOn(ts, rank, output, k) {
          var m :| 0 <= m < |ps| && (ps[m] == k || DependsOn(ts, rank, ps[m], k));
          assert ps[m] in DependenciesOf(ts, output);
        }
    }
  }

  lemma {:induction false} ParameterKeysAreDependencies<V>(ts: seq<Transform<V>>, inputs: map<string, V>, parameters: seq<string>,
                                                          j: nat, bound: nat, rank: string -> nat)
    requires Ranked(ts, rank)
    requires j <= |parameters|
    requires forall p :: p in parameters ==> rank(p) < bound
    decreases bound, 0, |parameters| - j
    ensures forall k :: k in EvalParameters(ts, inputs, parameters, j, bound, rank).store && k !in inputs ==>
              exists m :: j <= m < |parameters| && (parameters[m] == k || DependsOn(ts, rank, parameters[m], k))
  {
    if j < |parameters| {
      var p := parameters[j];
      if p in inputs {
        ParameterKeysAreDependencies(ts, inputs, parameters, j + 1, bound, rank);
      } else {
        var sub := Eval(ts, inputs, p, rank);
        AddedKeysAreDependencies(ts, inputs, p, rank);
        if sub.result.Success? {
          var s1 := sub.store[p := sub.result.value];
          ParameterKeysAreDependencies(ts, s1, parameters, j + 1, bound, rank);
        }
      }
    }
  }

  /** The requested output is never written into the store by its own call: only
      parameters are stored, and the final result is only returned. */
  lemma OutputNeverStored<V>(ts: seq<Transform<V>>, inputs: map<string, V>, output: string, rank: string -> nat)
    requires Ranked(ts, rank)
    requires output !in inputs
    ensures output !in Eval(ts, inputs, output, rank).store
  {
    AddedKeysAreDependencies(ts, inputs, output, rank);
    if output in Eval(ts, inputs, output, rank).store {
      DependsOnLowersRank(ts, rank, output, output);
    }
  }

  /** A failure names a transitive dependency of `output` (or `output` itself) that is
      neither stored nor the name of any transform. */
  lemma {:induction false} FailureNamesMissingDependency<V>(ts: seq<Transform<V>>, inputs: map<string, V>, output: string, rank: string -> nat)
    requires Ranked(ts, rank)
    decreases rank(output), 1
    ensures var o := Eval(ts, inputs, output, rank);
            o.result.Failure? ==>
              && o.result.error.name !in o.store
              && Lookup(ts, o.result.error.name).None?
              && (o.result.error.name == output || DependsOn(ts, rank, output, o.result.error.name))
  {
    if output !in inputs {
      match Lookup(ts, output)
      case None =>
      case Some(t) =>
        assert DependenciesOf(ts, output) == t.parameters;
        var ps := t.parameters;
        var pr := EvalParameters(ts, inputs, ps, 0, rank(output), rank);
        ParametersFailureNamesMissingDependency(ts, inputs, ps, 0, rank(output), rank);
        if pr.status.Stopped? {
          var n := pr.status.error.name;
          var m :| 0 <= m < |ps| && (ps[m] == n || DependsOn(ts, rank, ps[m], n));
          assert ps[m] in DependenciesOf(ts, output);
        }
    }
  }

  lemma {:induction false} ParametersFailureNamesMissingDependency<V>(ts: seq<Transform<V>>, inputs: map<string, V>, parameters: seq<string>,
                                                                     j: nat, bound: nat, rank: string -> nat)
    requires Ranked(ts, rank)
    requires j <= |parameters|
    requires forall p :: p in parameters ==> rank(p) < bound
    decreases bound, 0, |parameters| - j
    ensures var pr := EvalParameters(ts, inputs, parameters, j, bound, rank);
            pr.status.Stopped? ==>
              && pr.status.error.name !in pr.store
              && Lookup(ts, pr.status.error.name).None?
              && exists m :: j <= m < |parameters| && (parameters[m] == pr.status.error.name || DependsOn(ts, rank, parameters[m], pr.status.error.name))
  {
    if j < |parameters| {
      var p := parameters[j];
      if p in inputs {
        ParametersFailureNamesMissingDependency(ts, inputs, parameters, j + 1, bound, rank);
      } else {
        var sub := Eval(ts, inputs, p, rank);
        FailureNamesMissingDependency(ts, inputs, p, rank);
        if sub.result.Success? {
          var s1 := sub.store[p := sub.result.value];
          ParametersFailureNamesMissingDependency(ts, s1, parameters, j + 1, bound, rank);
        }
      }
    }
  }

  // ---------------------------------------------------------------------------------------
  // Each derived name is computed at most once

  ghost predicate Distinct(names: seq<string>)
  {
    forall a, b :: 0 <= a < b < |names| ==> names[a] != names[b]
  }

  /** Within one call the behaviours applied are those of the keys the call added, plus
      `output` itself when it succeeds on a name it had to compute; none of them was
      stored beforehand and none is applied twice. */
  lemma {:induction false} AppliedOnce<V>(ts: seq<Transform<V>>, inputs: map<string, V>, output: string, rank: string -> nat)
    requires Ranked(ts, rank)
    decreases rank(output), 1
    ensures var o := Eval(ts, inputs, output, rank);
            && Distinct(o.applied)
            && forall n :: n in o.applied <==>
                 (n in o.store && n !in inputs) || (n == output && output !in inputs && o.result.Success?)
  {
    if output !in inputs {
      match Lookup(ts, output)
      case None =>
      case Some(t) =>
        assert DependenciesOf(ts, output) == t.parameters;
        var ps := t.parameters;
        var pr := EvalParameters(ts, inputs, ps, 0, rank(output), rank);
        ParametersAppliedOnce(ts, inputs, ps, 0, rank(output), rank);
        if pr.status.Resolved? {
          OutputNeverStored(ts, inputs, output, rank);
          assert output !in pr.applied;
        }
    }
  }

  lemma {:induction false} ParametersAppliedOnce<V>(ts: seq<Transform<V>>, inputs: map<string, V>, parameters: seq<string>,
                                                   j: nat, bound: nat, rank: string -> nat)
    requires Ranked(ts, rank)
    requires j <= |parameters|
    requires forall p :: p in parameters ==> rank(p) < bound
    decreases bound, 0, |parameters| - j
    ensures var pr := EvalParameters(ts, inputs, parameters, j, bound, rank);
            && Distinct(pr.applied)
            && forall n :: n in pr.applied <==> n in pr.store && n !in inputs
  {
    if j < |parameters| {
      var p := parameters[j];
      if p in inputs {
        ParametersAppliedOnce(ts, inputs, parameters, j + 1, bound, rank);
      } else {
        var sub := Eval(ts, inputs, p, rank);
        AppliedOnce(ts, inputs, p, rank);
        if sub.result.Success? {
          var s1 := sub.store[p := sub.result.value];
          ParametersAppliedOnce(ts, s1, parameters, j + 1, bound, rank);
          var rest := EvalParameters(ts, s1, parameters, j + 1, bound, rank);
          WalkComputes(ts, inputs, parameters, j, bound, rank, sub, sub.result.value);
          assert forall n :: n in sub.applied ==> n in s1;
          DistinctConcat(sub.applied, rest.applied);
          assert forall n :: n in rest.store && n !in inputs ==> n in sub.applied || n in rest.applied by {
            forall n | n in rest.store && n !in inputs ensures n in sub.applied || n in rest.applied {
              if n in s1 && n != p {
                assert n in sub.store;
              }
            }
          }
        }
      }
    }
  }

  lemma DistinctConcat(xs: seq<string>, ys: seq<string>)
    requires Distinct(xs) && Distinct(ys)
    requires forall n :: n in xs ==> n !in ys
    ensures Distinct(xs + ys)
  {
    forall a, b | 0 <= a < b < |xs + ys| ensures (xs + ys)[a] != (xs + ys)[b] {
      if a < |xs| && b >= |xs| {
        assert (xs + ys)[a] in xs && (xs + ys)[b] == ys[b - |xs|];
      }
    }
  }
}
