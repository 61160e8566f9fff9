/**
 * `DefaultEventStudio` (org/pdfsam/eventstudio/DefaultEventStudio.java): the entry point of the
 * bus. Every call names a station, or uses the hidden station, and is routed to that station,
 * which is created on first use; the abstract value is the directory of station states.
 */
module EventStudio {
  import opened Wrappers
  import opened Entity
  import opened StringUtils
  import opened ReferenceStrength
  import opened Listeners
  import opened StationSpec
  import opened Station
  import opened StudioSpec
  import opened Stations

  /** The priority the overloads without one use. */
  const DEFAULT_PRIORITY: Int32 := 0

  class DefaultEventStudio {
    const stations: Stations

    ghost predicate Valid()
      reads this, stations, stations.Repr
    {
      stations.Valid()
    }

    /** The state of every station, by name. */
    ghost function Model(): Studio
      reads this, stations
    {
      stations.model
    }

    /** A studio with no stations; `maxQueueSize` is the configured capacity of every replay queue. */
    constructor (maxQueueSize: nat)
      requires 0 < maxQueueSize
      ensures Valid() && Model() == map[] && stations.maxQueueSize == maxQueueSize
      ensures fresh(stations) && fresh(stations.Repr)
    {
      stations := new Stations(maxQueueSize);
    }

    /**
     * `add(listener, station, priority, strength)`: the class is inferred from the listener
     * (`inferred`); the named station, created if missing, registers it.
     */
    method AddInferred(listener: Option<ListenerId>, inferred: Option<EventClass>, station: Option<string>, priority: Int32, strength: Strength, env: Env)
      returns (r: Outcome)
      requires Valid()
      modifies stations, stations.Repr
      ensures Valid()
      ensures (Model(), r) == AddInferredStudioOp(old(Model()), listener, inferred, station, priority, strength, stations.maxQueueSize, env)
    {
      var got := stations.GetStation(station);
      if got.Failure? {
        return Fail(got.error);
      }
      r := AddInferredOn(got.value, station.value, listener, inferred, priority, strength, env);
      OnStationRoute(old(Model()), station, stations.maxQueueSize, st => AddInferredOp(st, listener, inferred, priority, strength, env), Fail(IllegalArgument));
    }

    /** `add(listener, station)`: default priority, strong reference. */
    method AddInferredDefaults(listener: Option<ListenerId>, inferred: Option<EventClass>, station: Option<string>, env: Env)
      returns (r: Outcome)
      requires Valid()
      modifies stations, stations.Repr
      ensures Valid()
      ensures (Model(), r) == AddInferredStudioOp(old(Model()), listener, inferred, station, DEFAULT_PRIORITY, STRONG, stations.maxQueueSize, env)
    {
      r := AddInferred(listener, inferred, station, DEFAULT_PRIORITY, STRONG, env);
    }

    /** `add(eventClass, listener, station, priority, strength)`: the named station, created if missing, registers the listener for `c`. */
    method Add(c: Option<EventClass>, listener: Option<ListenerId>, station: Option<string>, priority: Int32, strength: Strength, env: Env)
      returns (r: Outcome)
      requires Valid()
      modifies stations, stations.Repr
      ensures Valid()
      ensures (Model(), r) == AddStudioOp(old(Model()), c, listener, station, priority, strength, stations.maxQueueSize, env)
    {
      var got := stations.GetStation(station);
      if got.Failure? {
        return Fail(got.error);
      }
      r := AddOn(got.value, station.value, c, listener, priority, strength, env);
      OnStationRoute(old(Model()), station, stations.maxQueueSize, st => AddOp(st, c, listener, priority, strength, env), Fail(IllegalArgument));
    }

    /** `add(eventClass, listener, station)`: default priority, strong reference. */
    method AddDefaults(c: Option<EventClass>, listener: Option<ListenerId>, station: Option<string>, env: Env)
      returns (r: Outcome)
      requires Valid()
      modifies stations, stations.Repr
      ensures Valid()
      ensures (Model(), r) == AddStudioOp(old(Model()), c, listener, station, DEFAULT_PRIORITY, STRONG, stations.maxQueueSize, env)
    {
      r := Add(c, listener, station, DEFAULT_PRIORITY, STRONG, env);
    }

    /** `add(eventClass, listener, priority, strength)`: the hidden station registers the listener. */
    method AddHidden(c: Option<EventClass>, listener: Option<ListenerId>, priority: Int32, strength: Strength, env: Env)
      returns (r: Outcome)
      requires Valid()
      modifies stations, stations.Repr
      ensures Valid()
      ensures (Model(), r) == AddStudioOp(old(Model()), c, listener, Some(HIDDEN_STATION), priority, strength, stations.maxQueueSize, env)
    {
      r := Add(c, listener, Some(HIDDEN_STATION), priority, strength, env);
    }

    /** `add(listener, priority, strength)`: the hidden station registers the listener under its inferred class. */
    method AddInferredHidden(listener: Option<ListenerId>, inferred: Option<EventClass>, priority: Int32, strength: Strength, env: Env)
      returns (r: Outcome)
      requires Valid()
      modifies stations, stations.Repr
      ensures Valid()
      ensures (Model(), r) == AddInferredStudioOp(old(Model()), listener, inferred, Some(HIDDEN_STATION), priority, strength, stations.maxQueueSize, env)
    {
      r := AddInferred(listener, inferred, Some(HIDDEN_STATION), priority, strength, env);
    }

    /** `add(listener)`: the hidden station, default priority, strong reference. */
    method AddInferredHiddenDefaults(listener: Option<ListenerId>, inferred: Option<EventClass>, env: Env)
      returns (r: Outcome)
      requires Valid()
      modifies stations, stations.Repr
      ensures Valid()
      ensures (Model(), r) == AddInferredStudioOp(old(Model()), listener, inferred, Some(HIDDEN_STATION), DEFAULT_PRIORITY, STRONG, stations.maxQueueSize, env)
    {
      r := AddInferredDefaults(listener, inferred, Some(HIDDEN_STATION), env);
    }

    /** `add(eventClass, listener)`: the hidden station, default priority, strong reference. */
    method AddHiddenDefaults(c: Option<EventClass>, listener: Option<ListenerId>, env: Env)
      returns (r: Outcome)
      requires Valid()
      modifies stations, stations.Repr
      ensures Valid()
      ensures (Model(), r) == AddStudioOp(old(Model()), c, listener, Some(HIDDEN_STATION), DEFAULT_PRIORITY, STRONG, stations.maxQueueSize, env)
    {
      r := AddDefaults(c, listener, Some(HIDDEN_STATION), env);
    }

    /**
     * `addAnnotatedListeners(bean)` once `Annotations.process` has grouped the bean's annotated
     * methods by station (`groups`, in the iteration order of that map; `beanStation` is the
     * station of the bean's own annotation): each group goes to its station with `addAll`, and
     * `orders[i]` is the order in which the replay of group `i` visits its classes.
     */
    method AddAnnotatedListeners(bean: BeanId, beanStation: Option<string>, groups: seq<Group>, orders: seq<seq<EventClass>>, env: Env)
      returns (r: Outcome)
      requires Valid()
      requires |orders| == |groups|
      requires forall i :: 0 <= i < |groups| ==> IsEnumeration(orders[i], ClassesOf(groups[i].1))
      modifies stations, stations.Repr
      ensures Valid()
      ensures (Model(), r) == AddAnnotatedOp(old(Model()), bean, beanStation, groups, orders, stations.maxQueueSize, env)
    {
      assert groups[0..] == groups && orders[0..] == orders;
      var i := 0;
      while i < |groups|
        invariant 0 <= i <= |groups|
        invariant Valid()
        invariant forall o :: o in stations.Repr ==> o in old(stations.Repr) || fresh(o)
        invariant AddAnnotatedOp(old(Model()), bean, beanStation, groups, orders, stations.maxQueueSize, env)
          == AddAnnotatedOp(Model(), bean, beanStation, groups[i..], orders[i..], stations.maxQueueSize, env)
      {
        r := AddGroupAt(bean, beanStation, groups, orders, i, env);
        if r.Fail? {
          return;
        }
        i := i + 1;
      }
      r := Pass;
    }

    /** Pass `i` of the loop of `addAnnotatedListeners`, related to what is left of the registration. */
    method AddGroupAt(bean: BeanId, beanStation: Option<string>, groups: seq<Group>, orders: seq<seq<EventClass>>, i: nat, env: Env)
      returns (r: Outcome)
      requires Valid()
      requires |orders| == |groups| && i < |groups| && IsEnumeration(orders[i], ClassesOf(groups[i].1))
      modifies stations, stations.Repr
      ensures Valid()
      ensures forall o :: o in stations.Repr ==> o in old(stations.Repr) || fresh(o)
      ensures AddAnnotatedOp(old(Model()), bean, beanStation, groups[i..], orders[i..], stations.maxQueueSize, env)
        == if r.Fail? then (Model(), r)
           else AddAnnotatedOp(Model(), bean, beanStation, groups[i + 1..], orders[i + 1..], stations.maxQueueSize, env)
    {
      AddAnnotatedStepAt(Model(), bean, beanStation, groups, orders, i, stations.maxQueueSize, env);
      r := AddGroup(AnnotatedStation(groups[i].0, beanStation), bean, groups[i].1, orders[i], env);
    }

    /** One pass of the loop of `addAnnotatedListeners`: `getStation(name).addAll(bean, descriptors)`. */
    method AddGroup(name: string, bean: BeanId, descriptors: seq<Descriptor>, order: seq<EventClass>, env: Env) returns (r: Outcome)
      requires Valid() && IsNotBlank(Some(name)) && IsEnumeration(order, ClassesOf(descriptors))
      modifies stations, stations.Repr
      ensures Valid()
      ensures forall o :: o in stations.Repr ==> o in old(stations.Repr) || fresh(o)
      ensures var t := Touch(old(Model()), name, stations.maxQueueSize);
        var o := AddAllOp(t[name], bean, Some(descriptors), order, env);
        Model() == t[name := o.0] && r == o.1
    {
      var got := stations.GetStation(Some(name));
      if got.Failure? {
        assert false;
      }
      r := AddAllOn(got.value, name, bean, Some(descriptors), order, env);
    }

    /** `supervisor(supervisor, station)`: a null supervisor is rejected before the station is looked up. */
    method Supervisor(s: Option<SupervisorId>, station: Option<string>) returns (r: Outcome)
      requires Valid()
      modifies stations, stations.Repr
      ensures Valid()
      ensures (Model(), r) == SupervisorStudioOp(old(Model()), s, station, stations.maxQueueSize)
    {
      if s.None? {
        return Fail(IllegalArgument);
      }
      var got := stations.GetStation(station);
      if got.Failure? {
        return Fail(got.error);
      }
      r := SupervisorOn(got.value, station.value, s);
      OnStationRoute(old(Model()), station, stations.maxQueueSize, st => SupervisorOp(st, s), Fail(IllegalArgument));
    }

    /** `supervisor(supervisor)`: the supervisor of the hidden station. */
    method SupervisorHidden(s: Option<SupervisorId>) returns (r: Outcome)
      requires Valid()
      modifies stations, stations.Repr
      ensures Valid()
      ensures (Model(), r) == SupervisorStudioOp(old(Model()), s, Some(HIDDEN_STATION), stations.maxQueueSize)
    {
      r := Supervisor(s, Some(HIDDEN_STATION));
    }

    /** `remove(listener, station)`: the named station, created if missing, removes the listener from its inferred class. */
    method RemoveInferred(listener: Option<ListenerId>, inferred: Option<EventClass>, station: Option<string>, cleared: set<RefId>)
      returns (r: Result<bool>)
      requires Valid()
      modifies stations, stations.Repr
      ensures Valid()
      ensures (Model(), r) == RemoveInferredStudioOp(old(Model()), listener, inferred, station, stations.maxQueueSize, cleared)
    {
      var got := stations.GetStation(station);
      if got.Failure? {
        return Failure(got.error);
      }
      r := RemoveInferredOn(got.value, station.value, listener, inferred, cleared);
      OnStationRoute(old(Model()), station, stations.maxQueueSize, st => RemoveInferredOp(st, listener, inferred, cleared), Failure(IllegalArgument));
    }

    /** `remove(eventClass, listener, station)`: the named station, created if missing, removes the listener from `c`. */
    method Remove(c: Option<EventClass>, listener: Option<ListenerId>, station: Option<string>, cleared: set<RefId>)
      returns (r: Result<bool>)
      requires Valid()
      modifies stations, stations.Repr
      ensures Valid()
      ensures (Model(), r) == RemoveStudioOp(old(Model()), c, listener, station, stations.maxQueueSize, cleared)
    {
      var got := stations.GetStation(station);
      if got.Failure? {
        return Failure(got.error);
      }
      r := RemoveOn(got.value, station.value, c, listener, cleared);
      OnStationRoute(old(Model()), station, stations.maxQueueSize, st => RemoveOp(st, c, listener, cleared), Failure(IllegalArgument));
    }

    /** `remove(listener)`: the hidden station removes the listener from its inferred class. */
    method RemoveInferredHidden(listener: Option<ListenerId>, inferred: Option<EventClass>, cleared: set<RefId>)
      returns (r: Result<bool>)
      requires Valid()
      modifies stations, stations.Repr
      ensures Valid()
      ensures (Model(), r) == RemoveInferredStudioOp(old(Model()), listener, inferred, Some(HIDDEN_STATION), stations.maxQueueSize, cleared)
    {
      r := RemoveInferred(listener, inferred, Some(HIDDEN_STATION), cleared);
    }

    /** `remove(eventClass, listener)`: the hidden station removes the listener from `c`. */
    method RemoveHidden(c: Option<EventClass>, listener: Option<ListenerId>, cleared: set<RefId>)
      returns (r: Result<bool>)
      requires Valid()
      modifies stations, stations.Repr
      ensures Valid()
      ensures (Model(), r) == RemoveStudioOp(old(Model()), c, listener, Some(HIDDEN_STATION), stations.maxQueueSize, cleared)
    {
      r := Remove(c, listener, Some(HIDDEN_STATION), cleared);
    }

    /** `clear(station)`: the station is forgotten, listeners, queues and supervisor with it. */
    method Clear(station: Option<string>) returns (r: Outcome)
      requires Valid()
      modifies stations
      ensures Valid()
      ensures (Model(), r) == ClearOp(old(Model()), station)
    {
      r := stations.Clear(station);
    }

    /** `clear()`: the hidden station is forgotten. */
    method ClearHidden() returns (r: Outcome)
      requires Valid()
      modifies stations
      ensures Valid()
      ensures (Model(), r) == ClearOp(old(Model()), Some(HIDDEN_STATION))
    {
      r := stations.Clear(Some(HIDDEN_STATION));
    }

    /** `broadcast(event, station)`: the named station, created if missing, broadcasts the event. */
    method Broadcast(event: Option<Event>, station: Option<string>, env: Env) returns (r: Outcome, calls: seq<Call>)
      requires Valid()
      modifies stations, stations.Repr
      ensures Valid()
      ensures (Model(), (r, calls)) == BroadcastStudioOp(old(Model()), event, station, stations.maxQueueSize, env)
    {
      var got := stations.GetStation(station);
      if got.Failure? {
        return Fail(got.error), [];
      }
      r, calls := BroadcastOn(got.value, station.value, event, env);
      OnStationRoute(old(Model()), station, stations.maxQueueSize, st => BroadcastOp(st, event, env), (Fail(IllegalArgument), []));
    }

    /** `broadcast(event)`: the hidden station broadcasts the event. */
    method BroadcastHidden(event: Option<Event>, env: Env) returns (r: Outcome, calls: seq<Call>)
      requires Valid()
      modifies stations, stations.Repr
      ensures Valid()
      ensures (Model(), (r, calls)) == BroadcastStudioOp(old(Model()), event, Some(HIDDEN_STATION), stations.maxQueueSize, env)
    {
      r, calls := Broadcast(event, Some(HIDDEN_STATION), env);
    }

    /**
     * `broadcastToEveryStation(event)`: every station broadcasts the event, in the iteration
     * order `order` of the station map; no station is created. A null event stops the loop at
     * the first station.
     */
    method BroadcastToEveryStation(event: Option<Event>, order: seq<string>, env: Env) returns (r: Outcome, calls: seq<Call>)
      requires Valid() && IsEnumeration(order, Model().Keys)
      modifies stations`model, stations.Repr
      ensures Valid()
      ensures (Model(), (r, calls)) == BroadcastEverywhereOp(old(Model()), order, event, env)
    {
      ghost var goal := BroadcastEverywhereOp(Model(), order, event, env);
      BroadcastEverywhereEnds(Model(), order, [], event, env);
      calls := [];
      var i := 0;
      while i < |order|
        invariant 0 <= i <= |order|
        invariant Valid() && Model().Keys == old(Model()).Keys
        invariant goal == Prefixed(calls, BroadcastEverywhereFrom(Model(), order, i, event, env))
      {
        r, calls := BroadcastFrom(order, i, calls, event, env);
        if r.Fail? {
          return;
        }
        i := i + 1;
      }
      BroadcastEverywhereEnds(Model(), order, calls, event, env);
      r := Pass;
    }

    /**
     * Pass `i` of the loop of `broadcastToEveryStation`, after the calls `done`: the station
     * `order[i]` broadcasts the event and its calls are appended.
     */
    method BroadcastFrom(order: seq<string>, i: nat, done: seq<Call>, event: Option<Event>, env: Env) returns (r: Outcome, calls: seq<Call>)
      requires Valid() && i < |order| && forall j :: 0 <= j < |order| ==> order[j] in Model()
      modifies stations`model, stations.Repr
      ensures Valid() && Model().Keys == old(Model()).Keys
      ensures Prefixed(done, BroadcastEverywhereFrom(old(Model()), order, i, event, env))
        == if r.Fail? then (Model(), (r, calls))
           else Prefixed(calls, BroadcastEverywhereFrom(Model(), order, i + 1, event, env))
    {
      BroadcastEverywhereAdvance(Model(), order, i, done, event, env);
      var c;
      r, c := BroadcastAt(order[i], event, env);
      calls := done + c;
    }

    /** One pass of the loop of `broadcastToEveryStation`: the station stored under `name` broadcasts the event. */
    method BroadcastAt(name: string, event: Option<Event>, env: Env) returns (r: Outcome, calls: seq<Call>)
      requires Valid() && name in Model()
      modifies stations`model, stations.Repr
      ensures Valid()
      ensures Model() == old(Model())[name := BroadcastOp(old(Model())[name], event, env).0]
      ensures (r, calls) == BroadcastOp(old(Model())[name], event, env).1
    {
      StationOf(stations, name);
      r, calls := BroadcastOn(stations.stations[name], name, event, env);
    }

    /** The registration of `add(listener, ...)` on the station `s`, stored under `name`. */
    method AddInferredOn(s: Station, name: string, listener: Option<ListenerId>, inferred: Option<EventClass>, priority: Int32, strength: Strength, env: Env)
      returns (r: Outcome)
      requires Valid() && name in stations.stations && s == stations.stations[name]
      modifies s, s.listeners, stations`model
      ensures Valid() && name in old(Model())
      ensures Model() == old(Model())[name := AddInferredOp(old(Model())[name], listener, inferred, priority, strength, env).0]
      ensures r == AddInferredOp(old(Model())[name], listener, inferred, priority, strength, env).1
    {
      StationOf(stations, name);
      r := s.AddInferred(listener, inferred, priority, strength, env);
      forall k | k in stations.stations && k != name
        ensures stations.model[k] == stations.stations[k].Model()
      {
        var t := stations.stations[k];
        assert t != s && t.listeners != s.listeners;
      }
      stations.Refresh(name);
    }

    /** The registration of `add(eventClass, listener, ...)` on the station `s`, stored under `name`. */
    method AddOn(s: Station, name: string, c: Option<EventClass>, listener: Option<ListenerId>, priority: Int32, strength: Strength, env: Env)
      returns (r: Outcome)
      requires Valid() && name in stations.stations && s == stations.stations[name]
      modifies s, s.listeners, stations`model
      ensures Valid() && name in old(Model())
      ensures Model() == old(Model())[name := AddOp(old(Model())[name], c, listener, priority, strength, env).0]
      ensures r == AddOp(old(Model())[name], c, listener, priority, strength, env).1
    {
      StationOf(stations, name);
      r := s.Add(c, listener, priority, strength, env);
      forall k | k in stations.stations && k != name
        ensures stations.model[k] == stations.stations[k].Model()
      {
        var t := stations.stations[k];
        assert t != s && t.listeners != s.listeners;
      }
      stations.Refresh(name);
    }

    /** `addAll(bean, descriptors)` on the station `s`, stored under `name`. */
    method AddAllOn(s: Station, name: string, bean: BeanId, descriptors: Option<seq<Descriptor>>, order: seq<EventClass>, env: Env)
      returns (r: Outcome)
      requires Valid() && name in stations.stations && s == stations.stations[name]
      requires descriptors.Some? ==> IsEnumeration(order, ClassesOf(descriptors.value))
      modifies s, s.listeners, stations`model
      ensures Valid() && name in old(Model())
      ensures Model() == old(Model())[name := AddAllOp(old(Model())[name], bean, descriptors, order, env).0]
      ensures r == AddAllOp(old(Model())[name], bean, descriptors, order, env).1
    {
      StationOf(stations, name);
      r := s.AddAll(bean, descriptors, order, env);
      forall k | k in stations.stations && k != name
        ensures stations.model[k] == stations.stations[k].Model()
      {
        var t := stations.stations[k];
        assert t != s && t.listeners != s.listeners;
      }
      stations.Refresh(name);
    }

    /** `supervior(supervisor)` on the station `s`, stored under `name`. */
    method SupervisorOn(s: Station, name: string, sup: Option<SupervisorId>)
      returns (r: Outcome)
      requires Valid() && name in stations.stations && s == stations.stations[name]
      modifies s, s.listeners, stations`model
      ensures Valid() && name in old(Model())
      ensures Model() == old(Model())[name := SupervisorOp(old(Model())[name], sup).0]
      ensures r == SupervisorOp(old(Model())[name], sup).1
    {
      StationOf(stations, name);
      r := s.Supervior(sup);
      forall k | k in stations.stations && k != name
        ensures stations.model[k] == stations.stations[k].Model()
      {
        var t := stations.stations[k];
        assert t != s && t.listeners != s.listeners;
      }
      stations.Refresh(name);
    }

    /** `remove(listener)` on the station `s`, stored under `name`. */
    method RemoveInferredOn(s: Station, name: string, listener: Option<ListenerId>, inferred: Option<EventClass>, cleared: set<RefId>)
      returns (r: Result<bool>)
      requires Valid() && name in stations.stations && s == stations.stations[name]
      modifies s, s.listeners, stations`model
      ensures Valid() && name in old(Model())
      ensures Model() == old(Model())[name := RemoveInferredOp(old(Model())[name], listener, inferred, cleared).0]
      ensures r == RemoveInferredOp(old(Model())[name], listener, inferred, cleared).1
    {
      StationOf(stations, name);
      r := s.RemoveInferred(listener, inferred, cleared);
      forall k | k in stations.stations && k != name
        ensures stations.model[k] == stations.stations[k].Model()
      {
        var t := stations.stations[k];
        assert t != s && t.listeners != s.listeners;
      }
      stations.Refresh(name);
    }

    /** `remove(eventClass, listener)` on the station `s`, stored under `name`. */
    method RemoveOn(s: Station, name: string, c: Option<EventClass>, listener: Option<ListenerId>, cleared: set<RefId>)
      returns (r: Result<bool>)
      requires Valid() && name in stations.stations && s == stations.stations[name]
      modifies s, s.listeners, stations`model
      ensures Valid() && name in old(Model())
      ensures Model() == old(Model())[name := RemoveOp(old(Model())[name], c, listener, cleared).0]
      ensures r == RemoveOp(old(Model())[name], c, listener, cleared).1
    {
      StationOf(stations, name);
      r := s.Remove(c, listener, cleared);
      forall k | k in stations.stations && k != name
        ensures stations.model[k] == stations.stations[k].Model()
      {
        var t := stations.stations[k];
        assert t != s && t.listeners != s.listeners;
      }
      stations.Refresh(name);
    }

    /** `broadcast(event)` on the station `s`, stored under `name`. */
    method BroadcastOn(s: Station, name: string, event: Option<Event>, env: Env)
      returns (r: Outcome, calls: seq<Call>)
      requires Valid() && name in stations.stations && s == stations.stations[name]
      modifies s, s.listeners, stations`model
      ensures Valid() && name in old(Model())
      ensures Model() == old(Model())[name := BroadcastOp(old(Model())[name], event, env).0]
      ensures (r, calls) == BroadcastOp(old(Model())[name], event, env).1
    {
      StationOf(stations, name);
      r, calls := s.Broadcast(event, env);
      forall k | k in stations.stations && k != name
        ensures stations.model[k] == stations.stations[k].Model()
      {
        var t := stations.stations[k];
        assert t != s && t.listeners != s.listeners;
      }
      stations.Refresh(name);
    }
  }
}
