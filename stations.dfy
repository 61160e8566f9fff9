/**
 * `Stations` (org/pdfsam/eventstudio/Stations.java): the map from station names to stations,
 * which creates a station the first time its name is asked for. Its abstract value `model` is
 * the directory of station states of StudioSpec.
 */
module Stations {
  import opened Wrappers
  import opened StringUtils
  import opened StationSpec
  import opened Station
  import opened StudioSpec

  /**
   * The shape of a station map: every station lies in `repr` with its registry, is stored under
   * its own name with the configured capacity, and no two names share a station or a registry.
   */
  ghost predicate Shape(stations: map<string, Station>, repr: set<object>, maxQueueSize: nat)
  {
    && (forall n :: n in stations ==>
          && stations[n] in repr && stations[n].listeners in repr
          && stations[n].name == n
          && stations[n].maxQueueSize == maxQueueSize)
    && (forall n, k :: n in stations && k in stations && n != k ==>
          stations[n] != stations[k] && stations[n].listeners != stations[k].listeners)
  }

  /** Storing a station outside `repr` under a missing name, with its own name and the configured capacity, keeps the shape. */
  lemma ShapeStore(stations: map<string, Station>, repr: set<object>, maxQueueSize: nat, name: string, s: Station)
    requires Shape(stations, repr, maxQueueSize) && name !in stations
    requires s !in repr && s.listeners !in repr && s.name == name && s.maxQueueSize == maxQueueSize
    ensures Shape(stations[name := s], repr + {s, s.listeners}, maxQueueSize)
  {
  }

  /** Dropping a name keeps the shape. */
  lemma ShapeForget(stations: map<string, Station>, repr: set<object>, maxQueueSize: nat, name: string)
    requires Shape(stations, repr, maxQueueSize)
    ensures Shape(stations - {name}, repr, maxQueueSize)
  {
  }

  class Stations {
    var stations: map<string, Station>
    /** The capacity every station gives its new queues. */
    const maxQueueSize: nat
    /** The stations and their registries. */
    ghost var Repr: set<object>
    /** The state of every station, by name. */
    ghost var model: Studio

    /** The map has its shape, `model` holds each station's current state, and the directory invariant holds of it. */
    ghost predicate Valid()
      reads this, Repr
    {
      && 0 < maxQueueSize
      && this !in Repr
      && Shape(stations, Repr, maxQueueSize)
      && stations.Keys == model.Keys
      && (forall n :: n in stations ==> model[n] == stations[n].Model())
      && StudioInv(model, maxQueueSize)
    }

    constructor (maxQueueSize: nat)
      requires 0 < maxQueueSize
      ensures Valid() && model == map[] && stations == map[] && this.maxQueueSize == maxQueueSize
      ensures fresh(Repr)
    {
      this.maxQueueSize := maxQueueSize;
      stations := map[];
      Repr := {};
      model := map[];
    }

    /**
     * `getStation(stationName)`: a blank name is rejected; an existing station is returned as it
     * is; a missing one is created empty, stored and returned.
     */
    method GetStation(name: Option<string>) returns (r: Result<Station>)
      requires Valid()
      modifies this`stations, this`Repr, this`model
      ensures Valid()
      ensures old(Repr) <= Repr && fresh(Repr - old(Repr))
      ensures r.Failure? <==> IsBlank(name)
      ensures r.Failure? ==> Repr == old(Repr)
      ensures r.Success? ==> Repr == if name.value in old(stations) then old(Repr) else old(Repr) + {r.value, r.value.listeners}
      ensures r.Failure? ==> r.error == IllegalArgument && stations == old(stations)
      ensures r.Success? ==> stations == old(stations)[name.value := r.value]
      ensures r.Success? && name.value in old(stations) ==> r.value == old(stations)[name.value]
      ensures r.Success? && name.value !in old(stations) ==> fresh(r.value) && fresh(r.value.listeners)
      ensures model == if IsBlank(name) then old(model) else Touch(old(model), name.value, maxQueueSize)
    {
      if IsBlank(name) {
        return Failure(IllegalArgument);
      }
      var key := name.value;
      if key in stations {
        return Success(stations[key]);
      }
      BlankIffAllTrimmable(name);
      var created := Register(key);
      r := Success(created);
    }

    /** The creating branch of `getStation`: a new empty station stored under a missing non-blank name. */
    method Register(key: string) returns (created: Station)
      requires Valid() && key !in stations && !AllTrimmable(key)
      modifies this`stations, this`Repr, this`model
      ensures Valid() && fresh(created) && fresh(created.listeners)
      ensures stations == old(stations)[key := created] && Repr == old(Repr) + {created, created.listeners}
      ensures model == old(model)[key := EmptyState(maxQueueSize)]
    {
      BlankIffAllTrimmable(Some(key));
      created := new Station(key, maxQueueSize);
      ShapeStore(stations, Repr, maxQueueSize, key, created);
      StudioInvStore(model, maxQueueSize, key, created.Model());
      stations := stations[key := created];
      Repr := Repr + {created, created.listeners};
      model := model[key := created.Model()];
    }

    /** `getStations()`: exactly the stored stations. */
    method GetStations() returns (all: set<Station>)
      requires Valid()
      ensures all == stations.Values
      ensures forall s :: s in all ==> s.Valid() && s.maxQueueSize == maxQueueSize
    {
      all := stations.Values;
      forall s | s in all
        ensures s.Valid() && s.maxQueueSize == maxQueueSize
      {
        var n :| n in stations && stations[n] == s;
        assert s.Model() == model[n];
      }
    }

    /** `clear(station)`: a null name throws (a concurrent map has no null keys); any other name is dropped. */
    method Clear(name: Option<string>) returns (r: Outcome)
      requires Valid()
      modifies this`stations, this`model
      ensures Valid()
      ensures name.None? ==> stations == old(stations)
      ensures name.Some? ==> stations == old(stations) - {name.value}
      ensures (model, r) == ClearOp(old(model), name)
    {
      if name.None? {
        return Fail(NullPointer);
      }
      ShapeForget(stations, Repr, maxQueueSize, name.value);
      StudioInvForget(model, maxQueueSize, name.value);
      stations := stations - {name.value};
      model := model - {name.value};
      r := Pass;
    }

    /**
     * After a call on the station named `n` that kept it valid and changed no other station,
     * record that station's new state.
     */
    ghost method Refresh(n: string)
      requires 0 < maxQueueSize && this !in Repr && Shape(stations, Repr, maxQueueSize)
      requires n in stations && stations.Keys == model.Keys && stations[n].Valid()
      requires forall k :: k in stations && k != n ==> model[k] == stations[k].Model()
      requires StudioInv(model, maxQueueSize)
      modifies this`model
      ensures Valid()
      ensures model == old(model)[n := stations[n].Model()]
    {
      StudioInvStore(model, maxQueueSize, n, stations[n].Model());
      model := model[n := stations[n].Model()];
    }
  }

  /** A station of a valid map is valid, has the configured capacity and the state `model` records for it. */
  lemma StationOf(d: Stations, n: string)
    requires d.Valid() && n in d.stations
    ensures d.stations[n].Valid() && d.stations[n].Model() == d.model[n]
    ensures d.stations[n].maxQueueSize == d.maxQueueSize && d.stations[n].name == n
    ensures d.stations[n] in d.Repr && d.stations[n].listeners in d.Repr
  {
  }
}
