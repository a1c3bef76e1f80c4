/** The global-fleet catalogue: `passengers_per_day` from the yearly passenger count and
    the days per year, and `required_global_fleet` from passengers per day, seats per
    aircraft and flights per aircraft per day. The unit arithmetic of the two behaviours is
    left opaque (`perDay`, `fleet`), so the scenarios below say which behaviour the engine
    applies, to which arguments, and what it stores. */
module Fleet {
  import opened Transforms
  import opened Engine
  import opened EngineProperties

  const PassengersPerYear := "passengers_per_year"
  const DaysPerYear := "days_per_year"
  const PassengersPerDay := "passengers_per_day"
  const SeatsPerAircraft := "seats_per_aircraft"
  const FlightsPerAircraftPerDay := "flights_per_aircraft_per_day"
  const RequiredGlobalFleet := "required_global_fleet"

  /** The catalogue, in the order the engine searches it. It has no dependency cycle:
      every transform's parameters rank below its name. */
  function Catalogue<V>(perDay: map<string, V> -> V, fleet: map<string, V> -> V): (ts: seq<Transform<V>>)
    ensures Ranked(ts, FleetRank)
  {
    var ts := [ Transform(PassengersPerDay, [PassengersPerYear, DaysPerYear], perDay),
                Transform(RequiredGlobalFleet, [PassengersPerDay, SeatsPerAircraft, FlightsPerAircraftPerDay], fleet) ];
    assert Ranked(ts, FleetRank) by {
      forall n, p | p in DependenciesOf(ts, n) ensures FleetRank(p) < FleetRank(n) {
        if n == PassengersPerDay {
          assert DependenciesOf(ts, n) == [PassengersPerYear, DaysPerYear];
        } else if n == RequiredGlobalFleet {
          assert DependenciesOf(ts, n) == [PassengersPerDay, SeatsPerAircraft, FlightsPerAircraftPerDay];
        }
      }
    }
    ts
  }

  /** Raw inputs rank 0, the daily passenger count 1, the fleet size 2. */
  function FleetRank(name: string): nat
  {
    if name == RequiredGlobalFleet then 2 else if name == PassengersPerDay then 1 else 0
  }

  function YearlyInputs<V>(passengers: V, days: V): map<string, V>
  {
    map[PassengersPerYear := passengers, DaysPerYear := days]
  }

  /** Daily passengers from stored yearly figures: the behaviour of `passengers_per_day`
      is applied once, to exactly the two yearly values, and nothing is stored. */
  lemma DailyPassengersFromYearlyInputs<V>(perDay: map<string, V> -> V, fleet: map<string, V> -> V, inputs: map<string, V>)
    requires PassengersPerYear in inputs && DaysPerYear in inputs && PassengersPerDay !in inputs
    ensures Eval(Catalogue(perDay, fleet), inputs, PassengersPerDay, FleetRank)
              == Outcome(Success(perDay(YearlyInputs(inputs[PassengersPerYear], inputs[DaysPerYear]))), inputs, [PassengersPerDay])
  {
    var ts := Catalogue(perDay, fleet);
    var ps := [PassengersPerYear, DaysPerYear];
    assert Lookup(ts, PassengersPerDay) == Some(ts[0]);
    WalkSkips(ts, inputs, ps, 0, 1, FleetRank);
    WalkSkips(ts, inputs, ps, 1, 1, FleetRank);
    WalkEnds(ts, inputs, ps, 1, FleetRank);
    EvalApplies(ts, inputs, PassengersPerDay, ts[0], FleetRank, inputs, []);
    YearlyArguments(inputs);
  }

  /** The arguments `passengers_per_day` is applied to: its two parameters, bound to their
      stored values. */
  lemma YearlyArguments<V>(store: map<string, V>)
    requires PassengersPerYear in store && DaysPerYear in store
    ensures Arguments(store, [PassengersPerYear, DaysPerYear]) == YearlyInputs(store[PassengersPerYear], store[DaysPerYear])
  {
  }

  /** With the two aircraft figures stored, the rest of the walk over the parameters of
      `required_global_fleet` has nothing to compute. */
  lemma AircraftFiguresStored<V>(perDay: map<string, V> -> V, fleet: map<string, V> -> V, store: map<string, V>)
    requires SeatsPerAircraft in store && FlightsPerAircraftPerDay in store
    ensures EvalParameters(Catalogue(perDay, fleet), store, [PassengersPerDay, SeatsPerAircraft, FlightsPerAircraftPerDay], 1, 2, FleetRank)
              == Progress(Resolved, store, [])
  {
    var ts := Catalogue(perDay, fleet);
    var qs := [PassengersPerDay, SeatsPerAircraft, FlightsPerAircraftPerDay];
    WalkSkips(ts, store, qs, 1, 2, FleetRank);
    WalkSkips(ts, store, qs, 2, 2, FleetRank);
    WalkEnds(ts, store, qs, 2, FleetRank);
  }

  /** The walk over the parameters of `required_global_fleet` when only raw figures are
      stored: `passengers_per_day` is computed and written back, nothing else is. */
  lemma DailyPassengersWrittenBack<V>(perDay: map<string, V> -> V, fleet: map<string, V> -> V, inputs: map<string, V>)
    requires PassengersPerYear in inputs && DaysPerYear in inputs && PassengersPerDay !in inputs
    requires SeatsPerAircraft in inputs && FlightsPerAircraftPerDay in inputs
    ensures var daily := perDay(YearlyInputs(inputs[PassengersPerYear], inputs[DaysPerYear]));
            EvalParameters(Catalogue(perDay, fleet), inputs, [PassengersPerDay, SeatsPerAircraft, FlightsPerAircraftPerDay], 0, 2, FleetRank)
              == Progress(Resolved, inputs[PassengersPerDay := daily], [PassengersPerDay])
  {
    var ts := Catalogue(perDay, fleet);
    var daily := perDay(YearlyInputs(inputs[PassengersPerYear], inputs[DaysPerYear]));
    var qs := [PassengersPerDay, SeatsPerAircraft, FlightsPerAircraftPerDay];
    DailyPassengersFirst(perDay, fleet, inputs);
    AircraftFiguresStored(perDay, fleet, inputs[PassengersPerDay := daily]);
  }

  /** The first step of that walk: `passengers_per_day` is missing, so it is computed and
      written back before the aircraft figures are considered. */
  lemma DailyPassengersFirst<V>(perDay: map<string, V> -> V, fleet: map<string, V> -> V, inputs: map<string, V>)
    requires PassengersPerYear in inputs && DaysPerYear in inputs && PassengersPerDay !in inputs
    ensures var daily := perDay(YearlyInputs(inputs[PassengersPerYear], inputs[DaysPerYear]));
            var qs := [PassengersPerDay, SeatsPerAircraft, FlightsPerAircraftPerDay];
            EvalParameters(Catalogue(perDay, fleet), inputs, qs, 0, 2, FleetRank)
              == Prepend([PassengersPerDay], EvalParameters(Catalogue(perDay, fleet), inputs[PassengersPerDay := daily], qs, 1, 2, FleetRank))
  {
    var ts := Catalogue(perDay, fleet);
    var daily := perDay(YearlyInputs(inputs[PassengersPerYear], inputs[DaysPerYear]));
    var qs := [PassengersPerDay, SeatsPerAircraft, FlightsPerAircraftPerDay];
    DailyPassengersFromYearlyInputs(perDay, fleet, inputs);
    WalkComputes(ts, inputs, qs, 0, 2, FleetRank, Eval(ts, inputs, PassengersPerDay, FleetRank), daily);
  }

  /** The fleet from raw figures only: `passengers_per_day` is computed first and written
      into the store, then `required_global_fleet` is applied to it and to the two stored
      aircraft figures; the fleet size itself is not stored. */
  lemma FleetFromRawInputs<V>(perDay: map<string, V> -> V, fleet: map<string, V> -> V, inputs: map<string, V>)
    requires PassengersPerYear in inputs && DaysPerYear in inputs && PassengersPerDay !in inputs
    requires SeatsPerAircraft in inputs && FlightsPerAircraftPerDay in inputs && RequiredGlobalFleet !in inputs
    ensures var daily := perDay(YearlyInputs(inputs[PassengersPerYear], inputs[DaysPerYear]));
            var args := map[PassengersPerDay := daily, SeatsPerAircraft := inputs[SeatsPerAircraft],
                            FlightsPerAircraftPerDay := inputs[FlightsPerAircraftPerDay]];
            Eval(Catalogue(perDay, fleet), inputs, RequiredGlobalFleet, FleetRank)
              == Outcome(Success(fleet(args)), inputs[PassengersPerDay := daily], [PassengersPerDay, RequiredGlobalFleet])
  {
    var ts := Catalogue(perDay, fleet);
    var daily := perDay(YearlyInputs(inputs[PassengersPerYear], inputs[DaysPerYear]));
    var qs := [PassengersPerDay, SeatsPerAircraft, FlightsPerAircraftPerDay];
    var stored := inputs[PassengersPerDay := daily];
    DailyPassengersWrittenBack(perDay, fleet, inputs);
    FleetArguments(stored);
    assert Lookup(ts, RequiredGlobalFleet) == Some(ts[1]);
    EvalApplies(ts, inputs, RequiredGlobalFleet, ts[1], FleetRank, stored, [PassengersPerDay]);
  }

  /** The arguments `required_global_fleet` is applied to: exactly its three parameters,
      bound to their stored values. */
  lemma FleetArguments<V>(store: map<string, V>)
    requires PassengersPerDay in store && SeatsPerAircraft in store && FlightsPerAircraftPerDay in store
    ensures Arguments(store, [PassengersPerDay, SeatsPerAircraft, FlightsPerAircraftPerDay])
              == map[PassengersPerDay := store[PassengersPerDay], SeatsPerAircraft := store[SeatsPerAircraft],
                     FlightsPerAircraftPerDay := store[FlightsPerAircraftPerDay]]
  {
  }

  /** The fleet with `passengers_per_day` supplied: the supplied value shadows the
      transform, so only `required_global_fleet` is applied and the store is unchanged. */
  lemma FleetFromSuppliedDailyPassengers<V>(perDay: map<string, V> -> V, fleet: map<string, V> -> V, daily: V, seats: V, flights: V)
    ensures var inputs := map[PassengersPerDay := daily, SeatsPerAircraft := seats, FlightsPerAircraftPerDay := flights];
            Eval(Catalogue(perDay, fleet), inputs, RequiredGlobalFleet, FleetRank)
              == Outcome(Success(fleet(inputs)), inputs, [RequiredGlobalFleet])
  {
    var ts := Catalogue(perDay, fleet);
    var inputs := map[PassengersPerDay := daily, SeatsPerAircraft := seats, FlightsPerAircraftPerDay := flights];
    var qs := [PassengersPerDay, SeatsPerAircraft, FlightsPerAircraftPerDay];
    AircraftFiguresStored(perDay, fleet, inputs);
    WalkSkips(ts, inputs, qs, 0, 2, FleetRank);
    assert Lookup(ts, RequiredGlobalFleet) == Some(ts[1]);
    EvalApplies(ts, inputs, RequiredGlobalFleet, ts[1], FleetRank, inputs, []);
    FleetArguments(inputs);
  }

  /** A caller of the engine: builds the model from the catalogue, supplies the raw inputs
      and asks for the fleet size, then reads the daily passenger count back from the store. */
  method RequiredFleet<V>(perDay: map<string, V> -> V, fleet: map<string, V> -> V, passengers: V, days: V, seats: V, flights: V)
    returns (size: Result<V>, daily: V)
    ensures daily == perDay(YearlyInputs(passengers, days))
    ensures size == Success(fleet(map[PassengersPerDay := daily, SeatsPerAircraft := seats, FlightsPerAircraftPerDay := flights]))
  {
    var raw := YearlyInputs(passengers, days)[SeatsPerAircraft := seats][FlightsPerAircraftPerDay := flights];
    FleetFromRawInputs(perDay, fleet, raw);
    var model := new SystemsModel(Catalogue(perDay, fleet));
    var inputs := new Store(raw);
    ghost var applied;
    size, applied := model.Evaluate(inputs, RequiredGlobalFleet, FleetRank);
    daily := inputs.values[PassengersPerDay];
  }
}
