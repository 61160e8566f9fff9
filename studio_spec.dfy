/**
 * The event studio as a function of its stations' states (org/pdfsam/eventstudio/Stations.java and
 * DefaultEventStudio.java): a directory of named stations created on first use, the hidden
 * station, and the operations that route a call to one station or to every station.
 */
module StudioSpec {
  import opened Wrappers
  import opened StringUtils
  import opened Entity
  import opened ReferenceStrength
  import opened Listeners
  import opened StationSpec

  /** `DefaultEventStudio.HIDDEN_STATION`, the station used when the caller names none. */
  const HIDDEN_STATION: string := "hidden.station"

  /** The stations of a studio by name. */
  type Studio = map<string, StationState>

  /** Every station of the directory is valid, carries the configured capacity, and none is named blank (all characters at most U+0020). */
  ghost predicate StudioInv(m: Studio, maxQueueSize: nat)
  {
    forall n :: n in m ==> StateInv(m[n]) && m[n].maxQueueSize == maxQueueSize && !AllTrimmable(n)
  }

  /** Storing a valid state of the configured capacity under a non-blank name keeps the directory invariant. */
  lemma StudioInvStore(m: Studio, maxQueueSize: nat, name: string, st: StationState)
    requires StudioInv(m, maxQueueSize)
    requires StateInv(st) && st.maxQueueSize == maxQueueSize && !AllTrimmable(name)
    ensures StudioInv(m[name := st], maxQueueSize)
  {
    forall n | n in m[name := st]
      ensures StateInv(m[name := st][n]) && m[name := st][n].maxQueueSize == maxQueueSize && !AllTrimmable(n)
    {
      if n != name {
        assert m[name := st][n] == m[n];
      }
    }
  }

  /** Forgetting a name keeps the directory invariant. */
  lemma StudioInvForget(m: Studio, maxQueueSize: nat, name: string)
    requires StudioInv(m, maxQueueSize)
    ensures StudioInv(m - {name}, maxQueueSize)
  {
    forall n | n in m - {name}
      ensures StateInv((m - {name})[n]) && (m - {name})[n].maxQueueSize == maxQueueSize && !AllTrimmable(n)
    {
      assert (m - {name})[n] == m[n];
    }
  }

  /** The hidden station's name passes the blank check. */
  lemma HiddenStationNotBlank()
    ensures IsNotBlank(Some(HIDDEN_STATION))
  {
    BlankIffAllTrimmable(Some(HIDDEN_STATION));
    assert !IsTrimmable(HIDDEN_STATION[0]);
  }

  /** `Stations.getStation(name)` on the directory, for a name that passed the blank check: a missing station is created empty. */
  function Touch(m: Studio, name: string, maxQueueSize: nat): Studio
  {
    if name in m then m else m[name := EmptyState(maxQueueSize)]
  }

  /**
   * `stations.getStation(station).op(...)`: a blank name is rejected before anything else
   * happens; otherwise the named station, created when missing, runs `op` and keeps its new state.
   */
  function OnStation<R>(m: Studio, station: Option<string>, maxQueueSize: nat, op: StationState -> (StationState, R), rejected: R): (Studio, R)
  {
    if IsBlank(station) then (m, rejected)
    else
      var name := station.value;
      var t := Touch(m, name, maxQueueSize);
      var o := op(t[name]);
      (t[name := o.0], o.1)
  }

  /**
   * Routing touches one station only: a blank name changes nothing; otherwise the directory gains
   * at most that name, the named station (empty if it was missing) runs `op`, and every other
   * station keeps its state.
   */
  lemma OnStationFrame<R>(m: Studio, station: Option<string>, maxQueueSize: nat, op: StationState -> (StationState, R), rejected: R)
    ensures IsBlank(station) ==> OnStation(m, station, maxQueueSize, op, rejected) == (m, rejected)
    ensures IsNotBlank(station) ==>
      var r := OnStation(m, station, maxQueueSize, op, rejected);
      var before := if station.value in m then m[station.value] else EmptyState(maxQueueSize);
      && r.0.Keys == m.Keys + {station.value}
      && r.0[station.value] == op(before).0
      && r.1 == op(before).1
      && forall n :: n in m && n != station.value ==> r.0[n] == m[n]
  {
  }

  /** The routed call, spelled out for a name that is not blank. */
  lemma OnStationRoute<R>(m: Studio, station: Option<string>, maxQueueSize: nat, op: StationState -> (StationState, R), rejected: R)
    requires !IsBlank(station)
    ensures var t := Touch(m, station.value, maxQueueSize);
      OnStation(m, station, maxQueueSize, op, rejected) == (t[station.value := op(t[station.value]).0], op(t[station.value]).1)
  {
  }

  /** Routing keeps the directory's invariant when `op` keeps the station's. */
  lemma OnStationKeepsInv<R>(m: Studio, station: Option<string>, maxQueueSize: nat, op: StationState -> (StationState, R), rejected: R)
    requires StudioInv(m, maxQueueSize) && 0 < maxQueueSize
    requires IsNotBlank(station) ==>
      var before := if station.value in m then m[station.value] else EmptyState(maxQueueSize);
      StateInv(op(before).0) && op(before).0.maxQueueSize == maxQueueSize
    ensures StudioInv(OnStation(m, station, maxQueueSize, op, rejected).0, maxQueueSize)
  {
    BlankIffAllTrimmable(station);
  }

  /** `add(listener, station, priority, strength)` on the studio. */
  function AddInferredStudioOp(m: Studio, listener: Option<ListenerId>, inferred: Option<EventClass>, station: Option<string>, priority: Int32, strength: Strength, maxQueueSize: nat, env: Env): (Studio, Outcome)
  {
    OnStation(m, station, maxQueueSize, st => AddInferredOp(st, listener, inferred, priority, strength, env), Fail(IllegalArgument))
  }

  /** `add(eventClass, listener, station, priority, strength)` on the studio. */
  function AddStudioOp(m: Studio, c: Option<EventClass>, listener: Option<ListenerId>, station: Option<string>, priority: Int32, strength: Strength, maxQueueSize: nat, env: Env): (Studio, Outcome)
  {
    OnStation(m, station, maxQueueSize, st => AddOp(st, c, listener, priority, strength, env), Fail(IllegalArgument))
  }

  /** `remove(listener, station)` on the studio. */
  function RemoveInferredStudioOp(m: Studio, listener: Option<ListenerId>, inferred: Option<EventClass>, station: Option<string>, maxQueueSize: nat, cleared: set<RefId>): (Studio, Result<bool>)
  {
    OnStation(m, station, maxQueueSize, st => RemoveInferredOp(st, listener, inferred, cleared), Failure(IllegalArgument))
  }

  /** `remove(eventClass, listener, station)` on the studio. */
  function RemoveStudioOp(m: Studio, c: Option<EventClass>, listener: Option<ListenerId>, station: Option<string>, maxQueueSize: nat, cleared: set<RefId>): (Studio, Result<bool>)
  {
    OnStation(m, station, maxQueueSize, st => RemoveOp(st, c, listener, cleared), Failure(IllegalArgument))
  }

  /** `broadcast(event, station)` on the studio. */
  function BroadcastStudioOp(m: Studio, event: Option<Event>, station: Option<string>, maxQueueSize: nat, env: Env): (Studio, (Outcome, seq<Call>))
  {
    OnStation(m, station, maxQueueSize, st => BroadcastOp(st, event, env), (Fail(IllegalArgument), []))
  }

  /** `Stations.clear(station)`: a null name is a null key for the concurrent map; any other name is forgotten. */
  function ClearOp(m: Studio, station: Option<string>): (r: (Studio, Outcome))
    ensures station.None? ==> r == (m, Fail(NullPointer))
    ensures station.Some? ==> r.1 == Pass && r.0.Keys == m.Keys - {station.value}
    ensures forall n :: n in r.0 ==> n in m && r.0[n] == m[n]
  {
    if station.None? then (m, Fail(NullPointer)) else (m - {station.value}, Pass)
  }

  /** After `clear(name)` the next `getStation(name)` gets a new, empty station: nothing of the old one survives. */
  lemma ClearThenGetIsEmpty(m: Studio, name: string, maxQueueSize: nat)
    ensures Touch(ClearOp(m, Some(name)).0, name, maxQueueSize)[name] == EmptyState(maxQueueSize)
  {
  }

  /** `DefaultEventStudio.supervisor(supervisor, station)`: the null check comes before the station is looked up. */
  function SupervisorStudioOp(m: Studio, s: Option<SupervisorId>, station: Option<string>, maxQueueSize: nat): (Studio, Outcome)
  {
    if s.None? then (m, Fail(IllegalArgument))
    else OnStation(m, station, maxQueueSize, st => SupervisorOp(st, s), Fail(IllegalArgument))
  }

  /** A null supervisor is rejected without creating the station; otherwise the station's supervisor is replaced. */
  lemma SupervisorStudioFacts(m: Studio, s: Option<SupervisorId>, station: Option<string>, maxQueueSize: nat)
    ensures s.None? || IsBlank(station) ==> SupervisorStudioOp(m, s, station, maxQueueSize) == (m, Fail(IllegalArgument))
    ensures s.Some? && IsNotBlank(station) ==>
      var r := SupervisorStudioOp(m, s, station, maxQueueSize);
      && r.1 == Pass
      && r.0.Keys == m.Keys + {station.value}
      && r.0[station.value].supervisor == s.value
      && r.0[station.value].registry == (if station.value in m then m[station.value].registry else map[])
      && forall n :: n in m && n != station.value ==> r.0[n] == m[n]
  {
    if s.Some? {
      OnStationFrame(m, station, maxQueueSize, st => SupervisorOp(st, s), Fail(IllegalArgument));
    }
  }

  /**
   * The station a group of annotated listeners goes to: the annotation's own station when it is not
   * blank, else the bean's station when that is not blank, else the hidden station.
   */
  function AnnotatedStation(key: Option<string>, beanStation: Option<string>): (r: string)
    ensures IsNotBlank(Some(r))
    ensures IsNotBlank(key) ==> r == key.value
    ensures IsBlank(key) && IsNotBlank(beanStation) ==> r == beanStation.value
    ensures IsBlank(key) && IsBlank(beanStation) ==> r == HIDDEN_STATION
  {
    HiddenStationNotBlank();
    DefaultString(key, DefaultString(beanStation, Some(HIDDEN_STATION))).value
  }

  /** One group of `ReflectiveMetadata.getDescriptors()`: the annotation's station key and the descriptors under it. */
  type Group = (Option<string>, seq<Descriptor>)

  /**
   * `addAnnotatedListeners` after `Annotations.process`: each group, in the map's iteration order,
   * is added with `addAll` to its station; `orders[i]` is the replay order of group `i`. An
   * interruption escaping a replay ends the loop.
   */
  function AddAnnotatedOp(m: Studio, bean: BeanId, beanStation: Option<string>, groups: seq<Group>, orders: seq<seq<EventClass>>, maxQueueSize: nat, env: Env): (Studio, Outcome)
    requires |orders| == |groups|
    decreases |groups|
  {
    if groups == [] then (m, Pass)
    else
      var name := AnnotatedStation(groups[0].0, beanStation);
      var o := OnStation(m, Some(name), maxQueueSize, st => AddAllOp(st, bean, Some(groups[0].1), orders[0], env), Fail(IllegalArgument));
      if o.1.Fail? then o
      else AddAnnotatedOp(o.0, bean, beanStation, groups[1..], orders[1..], maxQueueSize, env)
  }

  /** The stations the groups of a bean go to. */
  function AnnotatedStations(beanStation: Option<string>, groups: seq<Group>): set<string>
  {
    set i | 0 <= i < |groups| :: AnnotatedStation(groups[i].0, beanStation)
  }

  /** The stations of a non-empty list of groups: the first group's and the rest's. */
  lemma AnnotatedStationsCons(beanStation: Option<string>, groups: seq<Group>)
    requires groups != []
    ensures AnnotatedStations(beanStation, groups)
         == {AnnotatedStation(groups[0].0, beanStation)} + AnnotatedStations(beanStation, groups[1..])
  {
    var name := AnnotatedStation(groups[0].0, beanStation);
    forall x | x in AnnotatedStations(beanStation, groups)
      ensures x in {name} + AnnotatedStations(beanStation, groups[1..])
    {
      var i :| 0 <= i < |groups| && x == AnnotatedStation(groups[i].0, beanStation);
      if i > 0 {
        assert groups[1..][i - 1] == groups[i];
      }
    }
    forall x | x in AnnotatedStations(beanStation, groups[1..])
      ensures x in AnnotatedStations(beanStation, groups)
    {
      var i :| 0 <= i < |groups[1..]| && x == AnnotatedStation(groups[1..][i].0, beanStation);
      assert groups[1..][i] == groups[i + 1];
    }
  }

  /** The directory after the first group of an annotated registration. */
  lemma AddAnnotatedFirst(m: Studio, bean: BeanId, beanStation: Option<string>, groups: seq<Group>, orders: seq<seq<EventClass>>, maxQueueSize: nat, env: Env)
      returns (o: (Studio, Outcome))
    requires |orders| == |groups| && groups != []
    ensures var name := AnnotatedStation(groups[0].0, beanStation);
      && o.0.Keys == m.Keys + {name}
      && (forall n :: n in m && n != name ==> o.0[n] == m[n])
      && AddAnnotatedOp(m, bean, beanStation, groups, orders, maxQueueSize, env)
         == if o.1.Fail? then o else AddAnnotatedOp(o.0, bean, beanStation, groups[1..], orders[1..], maxQueueSize, env)
  {
    var name := AnnotatedStation(groups[0].0, beanStation);
    var op := st => AddAllOp(st, bean, Some(groups[0].1), orders[0], env);
    OnStationFrame(m, Some(name), maxQueueSize, op, Fail(IllegalArgument));
    o := OnStation(m, Some(name), maxQueueSize, op, Fail(IllegalArgument));
  }

  /** One step of annotated registration, spelled out: the first group's station, created when missing, runs `addAll`. */
  lemma AddAnnotatedStep(m: Studio, bean: BeanId, beanStation: Option<string>, groups: seq<Group>, orders: seq<seq<EventClass>>, maxQueueSize: nat, env: Env)
    requires |orders| == |groups| && groups != []
    ensures var name := AnnotatedStation(groups[0].0, beanStation);
      var t := Touch(m, name, maxQueueSize);
      var o := AddAllOp(t[name], bean, Some(groups[0].1), orders[0], env);
      AddAnnotatedOp(m, bean, beanStation, groups, orders, maxQueueSize, env)
        == if o.1.Fail? then (t[name := o.0], o.1)
           else AddAnnotatedOp(t[name := o.0], bean, beanStation, groups[1..], orders[1..], maxQueueSize, env)
  {
    var name := AnnotatedStation(groups[0].0, beanStation);
    OnStationRoute(m, Some(name), maxQueueSize, st => AddAllOp(st, bean, Some(groups[0].1), orders[0], env), Fail(IllegalArgument));
  }

  /** The same step taken at position `i` of the groups, as the loop of `addAnnotatedListeners` sees it. */
  lemma AddAnnotatedStepAt(m: Studio, bean: BeanId, beanStation: Option<string>, groups: seq<Group>, orders: seq<seq<EventClass>>, i: nat, maxQueueSize: nat, env: Env)
    requires |orders| == |groups| && i < |groups|
    ensures var name := AnnotatedStation(groups[i].0, beanStation);
      var t := Touch(m, name, maxQueueSize);
      var o := AddAllOp(t[name], bean, Some(groups[i].1), orders[i], env);
      AddAnnotatedOp(m, bean, beanStation, groups[i..], orders[i..], maxQueueSize, env)
        == if o.1.Fail? then (t[name := o.0], o.1)
           else AddAnnotatedOp(t[name := o.0], bean, beanStation, groups[i + 1..], orders[i + 1..], maxQueueSize, env)
  {
    AddAnnotatedStep(m, bean, beanStation, groups[i..], orders[i..], maxQueueSize, env);
    assert groups[i..][0] == groups[i] && orders[i..][0] == orders[i];
    assert groups[i..][1..] == groups[i + 1..] && orders[i..][1..] == orders[i + 1..];
  }

  /**
   * Annotated registration only creates the stations its groups name, and without an interruption
   * every one of them exists afterwards.
   */
  lemma {:induction false} AddAnnotatedKeys(m: Studio, bean: BeanId, beanStation: Option<string>, groups: seq<Group>, orders: seq<seq<EventClass>>, maxQueueSize: nat, env: Env)
    requires |orders| == |groups|
    ensures var r := AddAnnotatedOp(m, bean, beanStation, groups, orders, maxQueueSize, env);
      && m.Keys <= r.0.Keys <= m.Keys + AnnotatedStations(beanStation, groups)
      && (r.1 == Pass ==> r.0.Keys == m.Keys + AnnotatedStations(beanStation, groups))
    decreases |groups|
  {
    if groups != [] {
      AnnotatedStationsCons(beanStation, groups);
      var o := AddAnnotatedFirst(m, bean, beanStation, groups, orders, maxQueueSize, env);
      if o.1.Pass? {
        AddAnnotatedKeys(o.0, bean, beanStation, groups[1..], orders[1..], maxQueueSize, env);
      }
    }
  }

  /** Annotated registration leaves every station its groups do not name as it was. */
  lemma {:induction false} AddAnnotatedOthers(m: Studio, bean: BeanId, beanStation: Option<string>, groups: seq<Group>, orders: seq<seq<EventClass>>, maxQueueSize: nat, env: Env)
    requires |orders| == |groups|
    ensures var r := AddAnnotatedOp(m, bean, beanStation, groups, orders, maxQueueSize, env);
      forall n :: n in m && n !in AnnotatedStations(beanStation, groups) ==> n in r.0 && r.0[n] == m[n]
    decreases |groups|
  {
    if groups != [] {
      AnnotatedStationsCons(beanStation, groups);
      var o := AddAnnotatedFirst(m, bean, beanStation, groups, orders, maxQueueSize, env);
      if o.1.Pass? {
        AddAnnotatedOthers(o.0, bean, beanStation, groups[1..], orders[1..], maxQueueSize, env);
      }
    }
  }

  /**
   * `broadcastToEveryStation(event)`: every station, in the directory's iteration order `order`,
   * broadcasts the event; a null event makes the first station throw, which ends the loop. The
   * order only ever lists names of the directory; any other name would be passed over.
   */
  function BroadcastEverywhereOp(m: Studio, order: seq<string>, event: Option<Event>, env: Env): (Studio, (Outcome, seq<Call>))
    decreases |order|
  {
    if order == [] then (m, (Pass, []))
    else if order[0] !in m then BroadcastEverywhereOp(m, order[1..], event, env)
    else
      var o := BroadcastOp(m[order[0]], event, env);
      if o.1.0.Fail? then (m, o.1)
      else
        var rest := BroadcastEverywhereOp(m[order[0] := o.0], order[1..], event, env);
        (rest.0, (rest.1.0, o.1.1 + rest.1.1))
  }

  /** One step of the broadcast to every station, spelled out; a failing broadcast leaves its station as it was. */
  lemma BroadcastEverywhereStep(m: Studio, order: seq<string>, event: Option<Event>, env: Env)
    requires order != [] && forall i :: 0 <= i < |order| ==> order[i] in m
    ensures var o := BroadcastOp(m[order[0]], event, env);
      var m' := m[order[0] := o.0];
      BroadcastEverywhereOp(m, order, event, env)
        == if o.1.0.Fail? then (m', o.1)
           else var rest := BroadcastEverywhereOp(m', order[1..], event, env); (rest.0, (rest.1.0, o.1.1 + rest.1.1))
  {
    if event.None? {
      assert m[order[0] := m[order[0]]] == m;
    }
  }

  /** A broadcast result with `calls` made before it. */
  function Prefixed(calls: seq<Call>, r: (Studio, (Outcome, seq<Call>))): (Studio, (Outcome, seq<Call>))
  {
    (r.0, (r.1.0, calls + r.1.1))
  }

  /** The broadcast to every station from position `i` of `order` on. */
  function BroadcastEverywhereFrom(m: Studio, order: seq<string>, i: nat, event: Option<Event>, env: Env): (Studio, (Outcome, seq<Call>))
    requires i <= |order|
  {
    BroadcastEverywhereOp(m, order[i..], event, env)
  }

  /** The broadcast to every station from position `i` of `order` on, one station further. */
  lemma BroadcastEverywhereAdvance(m: Studio, order: seq<string>, i: nat, calls: seq<Call>, event: Option<Event>, env: Env)
    requires i < |order| && forall j :: 0 <= j < |order| ==> order[j] in m
    ensures var o := BroadcastOp(m[order[i]], event, env);
      var m' := m[order[i] := o.0];
      Prefixed(calls, BroadcastEverywhereFrom(m, order, i, event, env))
        == if o.1.0.Fail? then (m', (o.1.0, calls + o.1.1))
           else Prefixed(calls + o.1.1, BroadcastEverywhereFrom(m', order, i + 1, event, env))
  {
    assert order[i..][0] == order[i] && order[i..][1..] == order[i + 1..];
    BroadcastEverywhereStep(m, order[i..], event, env);
    var o := BroadcastOp(m[order[i]], event, env);
    if o.1.0.Pass? {
      var rest := BroadcastEverywhereOp(m[order[i] := o.0], order[i + 1..], event, env);
      assert calls + (o.1.1 + rest.1.1) == (calls + o.1.1) + rest.1.1;
    }
  }

  /** Over the whole order and at its end, the broadcast from a position is the broadcast itself and nothing. */
  lemma BroadcastEverywhereEnds(m: Studio, order: seq<string>, calls: seq<Call>, event: Option<Event>, env: Env)
    requires forall j :: 0 <= j < |order| ==> order[j] in m
    ensures Prefixed([], BroadcastEverywhereFrom(m, order, 0, event, env)) == BroadcastEverywhereOp(m, order, event, env)
    ensures Prefixed(calls, BroadcastEverywhereFrom(m, order, |order|, event, env)) == (m, (Pass, calls))
  {
    assert order[0..] == order;
    assert order[|order|..] == [];
    assert calls + [] == calls;
    var r := BroadcastEverywhereOp(m, order, event, env);
    assert [] + r.1.1 == r.1.1;
  }

  /** Over distinct names, each named station runs its broadcast once and the other stations keep their state. */
  lemma {:induction false} BroadcastEverywhereEach(m: Studio, order: seq<string>, e: Event, env: Env)
    requires forall i :: 0 <= i < |order| ==> order[i] in m
    requires forall i, j :: 0 <= i < j < |order| ==> order[i] != order[j]
    ensures var r := BroadcastEverywhereOp(m, order, Some(e), env);
      && r.1.0 == Pass
      && r.0.Keys == m.Keys
      && (forall n :: n in m && n in order ==> r.0[n] == DoBroadcastSpec(m[n], e, env).state)
      && (forall n :: n in m && n !in order ==> r.0[n] == m[n])
    decreases |order|
  {
    if order != [] {
      var m' := m[order[0] := DoBroadcastSpec(m[order[0]], e, env).state];
      var rest := order[1..];
      assert forall i :: 0 <= i < |rest| ==> rest[i] == order[i + 1];
      BroadcastEverywhereEach(m', rest, e, env);
      forall n | n in m && n in order
        ensures BroadcastEverywhereOp(m, order, Some(e), env).0[n] == DoBroadcastSpec(m[n], e, env).state
      {
        if n != order[0] {
          var k :| 0 <= k < |order| && order[k] == n;
          assert rest[k - 1] == n;
        }
      }
    }
  }

  /**
   * `broadcastToEveryStation`: with a non-null event every station of the directory broadcasts it
   * exactly once and the call returns normally; a null event is rejected by the first station,
   * leaving every station as it was; an empty directory does nothing.
   */
  lemma BroadcastEverywhereFacts(m: Studio, order: seq<string>, event: Option<Event>, env: Env)
    requires IsEnumeration(order, m.Keys)
    ensures var r := BroadcastEverywhereOp(m, order, event, env);
      && (event.Some? ==>
           && r.1.0 == Pass
           && r.0.Keys == m.Keys
           && forall n :: n in m ==> r.0[n] == DoBroadcastSpec(m[n], event.value, env).state)
      && (event.None? && m != map[] ==> r == (m, (Fail(IllegalArgument), [])))
      && (m == map[] ==> r == (m, (Pass, [])))
  {
    if event.Some? {
      BroadcastEverywhereEach(m, order, event.value, env);
    }
    if m != map[] {
      var n :| n in m;
      assert n in order;
    }
  }
}
