/** Named computations the engine resolves: a transform has a name, an ordered list of
    parameter names and a behaviour that maps the bound arguments to one value. The
    behaviour is opaque: the engine only binds arguments by name and forwards values. */
module Transforms {

  datatype Transform<!V> = Transform(name: string, parameters: seq<string>, behavior: map<string, V> -> V)

  /** The transform a name resolves to: the first one with that name, in the order the
      engine iterates over its catalogue (the search loop stops at the first match). */
  function Lookup<V>(ts: seq<Transform<V>>, name: string): (r: Option<Transform<V>>)
    ensures r.None? <==> forall i :: 0 <= i < |ts| ==> ts[i].name != name
    ensures r.Some? ==> exists i :: 0 <= i < |ts| && ts[i] == r.value && ts[i].name == name
                                    && forall j :: 0 <= j < i ==> ts[j].name != name
  {
    if ts == [] then None
    else if ts[0].name == name then Some(ts[0])
    else
      var r := Lookup(ts[1..], name);
      assert r.Some? ==> exists i :: 0 <= i < |ts[1..]| && ts[1..][i] == r.value && ts[1..][i].name == name
                                     && forall j :: 0 <= j < i ==> ts[1..][j].name != name;
      assert r.Some? ==> exists i :: 0 <= i < |ts| && ts[i] == r.value && ts[i].name == name
                                     && forall j :: 0 <= j < i ==> ts[j].name != name by {
        if r.Some? {
          var i :| 0 <= i < |ts[1..]| && ts[1..][i] == r.value && ts[1..][i].name == name
                   && forall j :: 0 <= j < i ==> ts[1..][j].name != name;
          assert ts[i + 1] == r.value && ts[i + 1].name == name;
          assert forall j :: 0 <= j < i + 1 ==> ts[j].name != name by {
            forall j | 0 <= j < i + 1 ensures ts[j].name != name {
              if j > 0 { assert ts[j] == ts[1..][j - 1]; }
            }
          }
        }
      }
      r
  }

  /** The parameters a name depends on: those of the transform it resolves to, none if no
      transform has that name. */
  function DependenciesOf<V>(ts: seq<Transform<V>>, name: string): seq<string>
  {
    match Lookup(ts, name)
    case None => []
    case Some(t) => t.parameters
  }

  /** The dependency graph is acyclic, witnessed by a rank on names: every name a transform
      depends on ranks strictly below the transform's own name. */
  ghost predicate Ranked<V>(ts: seq<Transform<V>>, rank: string -> nat)
  {
    forall n, p :: p in DependenciesOf(ts, n) ==> rank(p) < rank(n)
  }

  /** Keyword binding: the argument map holds exactly the parameters, each bound to the
      value the store holds for it. */
  function Arguments<V>(store: map<string, V>, parameters: seq<string>): (args: map<string, V>)
    requires forall p :: p in parameters ==> p in store
    ensures args.Keys == set p | p in parameters
    ensures forall p :: p in parameters ==> args[p] == store[p]
  {
    map p | p in parameters :: store[p]
  }

  datatype Option<T> = None | Some(value: T)
}
