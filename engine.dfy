/** The demand-driven resolver: `SystemsModel.Evaluate` resolves a requested output name
    against a caller-owned store of known values, recursively evaluating the missing
    parameters of the transform it needs and writing each of them back into the store.

    `Eval` and `EvalParameters` are the specification of one call: the result, the store
    the call leaves behind, and (ghost) the names whose behaviour was applied, in order. */
module Engine {
  import opened Transforms

  datatype Error = UnknownTransform(name: string)

  datatype Result<V> = Success(value: V) | Failure(error: Error)

  /** What one `evaluate` call produces: its result, the final store and the trace of
      behaviour applications. */
  datatype Outcome<V> = Outcome(result: Result<V>, store: map<string, V>, applied: seq<string>)

  /** Where the walk over a transform's parameters ended. */
  datatype Status = Resolved | Stopped(error: Error)

  datatype Progress<V> = Progress(status: Status, store: map<string, V>, applied: seq<string>)

  /** Every key of `before` is still in `after` with the same value. */
  ghost predicate Extends<V>(before: map<string, V>, after: map<string, V>)
  {
    forall k :: k in before ==> k in after && after[k] == before[k]
  }

  ghost function Prepend<V>(prefix: seq<string>, pr: Progress<V>): Progress<V>
  {
    Progress(pr.status, pr.store, prefix + pr.applied)
  }

  /** One call of `evaluate(inputs, output)`. */
  ghost function Eval<V>(ts: seq<Transform<V>>, inputs: map<string, V>, output: string, rank: string -> nat): (o: Outcome<V>)
    requires Ranked(ts, rank)
    decreases rank(output), 1
    ensures inputs.Keys <= o.store.Keys
  {
    if output in inputs then
      Outcome(Success(inputs[output]), inputs, [])
    else
      match Lookup(ts, output)
      case None => Outcome(Failure(UnknownTransform(output)), inputs, [])
      case Some(t) =>
        assert DependenciesOf(ts, output) == t.parameters;
        var pr := EvalParameters(ts, inputs, t.parameters, 0, rank(output), rank);
        match pr.status
        case Stopped(e) => Outcome(Failure(e), pr.store, pr.applied)
        case Resolved =>
          Outcome(Success(t.behavior(Arguments(pr.store, t.parameters))), pr.store, pr.applied + [output])
  }

  /** The walk over `parameters[j..]`: each parameter missing from the store is evaluated
      and written back before the next one is considered; the first failure stops it. */
  ghost function EvalParameters<V>(ts: seq<Transform<V>>, inputs: map<string, V>, parameters: seq<string>,
                                   j: nat, bound: nat, rank: string -> nat): (pr: Progress<V>)
    requires Ranked(ts, rank)
    requires j <= |parameters|
    requires forall p :: p in parameters ==> rank(p) < bound
    decreases bound, 0, |parameters| - j
    ensures inputs.Keys <= pr.store.Keys
    ensures pr.status.Resolved? ==> forall m :: j <= m < |parameters| ==> parameters[m] in pr.store
  {
    if j == |parameters| then
      Progress(Resolved, inputs, [])
    else
      var p := parameters[j];
      if p in inputs then
        EvalParameters(ts, inputs, parameters, j + 1, bound, rank)
      else
        var sub := Eval(ts, inputs, p, rank);
        match sub.result
        case Failure(e) => Progress(Stopped(e), sub.store, sub.applied)
        case Success(v) =>
          Prepend(sub.applied, EvalParameters(ts, sub.store[p := v], parameters, j + 1, bound, rank))
  }

  /** The caller's name-to-value mapping, updated in place by `Evaluate`. */
  class Store<V> {
    var values: map<string, V>

    constructor (initial: map<string, V>)
      ensures values == initial
    {
      values := initial;
    }
  }

  /** A systems model: a fixed catalogue of transforms, iterated in the order given. */
  class SystemsModel<V> {
    const transforms: seq<Transform<V>>

    constructor (catalogue: seq<Transform<V>>)
      ensures transforms == catalogue
    {
      transforms := catalogue;
    }

    /** The search over the catalogue: the first transform named `output`, if any. */
    method FindTransform(output: string) returns (found: Option<Transform<V>>)
      ensures found == Lookup(transforms, output)
    {
      var k := 0;
      while k < |transforms|
        invariant 0 <= k <= |transforms|
        invariant Lookup(transforms, output) == Lookup(transforms[k..], output)
      {
        if transforms[k].name == output {
          return Some(transforms[k]);
        }
        assert transforms[k..][1..] == transforms[k + 1..];
        k := k + 1;
      }
      return None;
    }

    /** Resolves `output`, writing every parameter it had to compute into `inputs`. The
        ghost `applied` lists the names whose behaviour was applied, in order. */
    method Evaluate(inputs: Store<V>, output: string, ghost rank: string -> nat)
      returns (r: Result<V>, ghost applied: seq<string>)
      requires Ranked(transforms, rank)
      modifies inputs
      decreases rank(output), 1
      ensures Outcome(r, inputs.values, applied) == Eval(transforms, old(inputs.values), output, rank)
    {
      if output in inputs.values {
        return Success(inputs.values[output]), [];
      }

      var found := FindTransform(output);
      if found.None? {
        return Failure(UnknownTransform(output)), [];
      }
      var transform := found.value;
      assert DependenciesOf(transforms, output) == transform.parameters;
      assert forall p :: p in transform.parameters ==> rank(p) < rank(output);

      var parameters := transform.parameters;
      var status;
      status, applied := EvaluateParameters(inputs, parameters, rank(output), rank);
      if status.Stopped? {
        return Failure(status.error), applied;
      }
      var arguments := Arguments(inputs.values, parameters);
      r := Success(transform.behavior(arguments));
      applied := applied + [output];
    }

    /** The walk over a transform's parameters in declared order: each one missing from
        `inputs` is evaluated and written back before the next is considered. */
    method EvaluateParameters(inputs: Store<V>, parameters: seq<string>, ghost bound: nat, ghost rank: string -> nat)
      returns (status: Status, ghost applied: seq<string>)
      requires Ranked(transforms, rank)
      requires forall p :: p in parameters ==> rank(p) < bound
      modifies inputs
      decreases bound, 0
      ensures Progress(status, inputs.values, applied) == EvalParameters(transforms, old(inputs.values), parameters, 0, bound, rank)
    {
      ghost var before := inputs.values;
      applied := [];
      var j := 0;
      while j < |parameters|
        invariant 0 <= j <= |parameters|
        invariant EvalParameters(transforms, before, parameters, 0, bound, rank)
               == Prepend(applied, EvalParameters(transforms, inputs.values, parameters, j, bound, rank))
      {
        var parameter := parameters[j];
        if parameter !in inputs.values {
          var value, sub := Evaluate(inputs, parameter, rank);
          applied := applied + sub;
          match value
          case Failure(e) =>
            return Stopped(e), applied;
          case Success(v) =>
            inputs.values := inputs.values[parameter := v];
        }
        j := j + 1;
      }
      status := Resolved;
    }
  }
}
