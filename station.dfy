/**
 * `Station` (org/pdfsam/eventstudio/Station.java): a named place where events are broadcast to
 * the listeners registered on it. Its listeners registry, its per-class replay queues and its
 * supervisor are updated in place; every method is proved against the functions of StationSpec.
 */
module Station {
  import opened Wrappers
  import opened StringUtils
  import opened Entity
  import opened ReferenceStrength
  import opened Listeners
  import opened StationSpec

  class Station {
    const name: string
    const listeners: Listeners
    var queues: Queues
    var supervisor: SupervisorId
    /** The capacity every new queue gets, read from the configuration. */
    const maxQueueSize: nat

    ghost function Model(): StationState
      reads this, listeners
    {
      StationState(listeners.listeners, listeners.nextId, queues, supervisor, maxQueueSize)
    }

    ghost predicate Valid()
      reads this, listeners
    {
      StateInv(Model())
    }

    /** A station with no listeners, no queues and the slacker supervisor. */
    constructor (name: string, maxQueueSize: nat)
      requires IsNotBlank(Some(name)) && 0 < maxQueueSize
      ensures Valid() && fresh(listeners)
      ensures this.name == name && this.maxQueueSize == maxQueueSize
      ensures Model() == EmptyState(maxQueueSize)
    {
      this.name := name;
      this.maxQueueSize := maxQueueSize;
      listeners := new Listeners();
      queues := map[];
      supervisor := SLACKER;
    }

    /** `new Station(name)`: a blank name is rejected with an illegal-argument error. */
    static method Create(name: Option<string>, maxQueueSize: nat) returns (r: Result<Station>)
      requires 0 < maxQueueSize
      ensures r.Failure? <==> IsBlank(name)
      ensures r.Failure? ==> r.error == IllegalArgument
      ensures r.Success? ==>
        && fresh(r.value) && fresh(r.value.listeners) && r.value.Valid()
        && r.value.name == name.value && r.value.maxQueueSize == maxQueueSize
        && r.value.Model() == EmptyState(maxQueueSize)
    {
      if IsBlank(name) {
        return Failure(IllegalArgument);
      }
      var station := new Station(name.value, maxQueueSize);
      r := Success(station);
    }

    /** `getQueue`: the queue of the class, created empty with the configured capacity when missing. */
    method GetQueue(c: EventClass) returns (q: BoundedQueue)
      modifies this`queues
      ensures q == QueueOf(old(queues), c, maxQueueSize)
      ensures queues == old(queues)[c := q]
    {
      if c in queues {
        q := queues[c];
      } else {
        q := BoundedQueue([], maxQueueSize);
        queues := queues[c := q];
      }
    }

    /**
     * The dispatch loop of `doBroadcast`: walk the snapshot of class `c` in priority order, hand
     * the envelope to each live listener, remove each collected holder from the registry, and stop
     * at an interruption. `dead` lists the holders removed.
     */
    method Dispatch(c: EventClass, e: Event, env: Env)
      returns (envelope: Envelope, interrupted: bool, invoked: seq<Holder>, ghost dead: seq<Holder>)
      requires listeners.Valid()
      modifies listeners
      ensures listeners.Valid() && listeners.nextId == old(listeners.nextId)
      ensures Walk(invoked, dead, envelope, interrupted) == WalkOf(HoldersOf(old(listeners.listeners), c), e, env)
      ensures listeners.listeners == Purge(old(listeners.listeners), c, dead)
    {
      ghost var reg := listeners.listeners;
      var snapshot := listeners.NullSafeGetListeners(c);
      envelope := Envelope(e, false);
      interrupted := false;
      dead := [];
      invoked := [];
      var i := 0;
      while i < |snapshot| && !interrupted
        invariant 0 <= i <= |snapshot|
        invariant Walk(invoked, dead, envelope, interrupted) == WalkOf(snapshot[..i], e, env)
        invariant listeners.listeners == Purge(reg, c, dead)
        invariant listeners.Valid() && listeners.nextId == old(listeners.nextId)
        decreases |snapshot| - i
      {
        var h := snapshot[i];
        assert snapshot[..i + 1][..i] == snapshot[..i];
        match h.GetListenerWrapper(env.cleared) {
          case Some(l) =>
            var reaction := OnEvent(l, envelope, env.behaviour);
            envelope, interrupted := reaction.0, reaction.1;
            invoked := invoked + [h];
          case None =>
            var _ := listeners.RemoveHolder(c, h);
            assert (dead + [h])[..|dead|] == dead;
            dead := dead + [h];
        }
        i := i + 1;
      }
      if interrupted {
        WalkAfterInterrupt(snapshot, i, e, env);
      } else {
        assert snapshot[..i] == snapshot;
      }
    }

    /** `getQueue(e.getClass()).offer(e)`: append the event to its class's queue, or drop it when the queue is full. */
    method Enqueue(e: Event) returns (offered: bool)
      modifies this`queues
      ensures var q := QueueOf(old(queues), e.eventClass, maxQueueSize);
        && queues == old(queues)[e.eventClass := Offer(q, e).0]
        && offered == Offer(q, e).1
    {
      var q := GetQueue(e.eventClass);
      var result := Offer(q, e);
      queues := queues[e.eventClass := result.0];
      offered := result.1;
    }

    /**
     * `doBroadcast`: hand the event to the live listeners of its exact class in priority order,
     * dropping collected handles as they are met, and queue the event when nobody received it.
     * An interruption propagates as a failure. `invoked` lists the holders notified.
     */
    method DoBroadcast(e: Event, env: Env) returns (r: Result<bool>, invoked: seq<Holder>)
      requires Valid()
      modifies this, listeners
      ensures Valid()
      ensures var d := DoBroadcastSpec(old(Model()), e, env);
        && Model() == d.state
        && invoked == d.walk.invoked
        && r == if d.walk.interrupted then Failure(BroadcastInterrupted) else Success(d.walk.envelope.notified)
    {
      ghost var st := Model();
      DoBroadcastEnqueues(st, e, env);
      var envelope, interrupted, notifiedTo, dead := Dispatch(e.eventClass, e, env);
      invoked := notifiedTo;
      if interrupted {
        return Failure(BroadcastInterrupted), invoked;
      }
      if !envelope.notified {
        var _ := Enqueue(e);
      }
      r := Success(envelope.notified);
    }

    /**
     * `broadcast`: a null event is rejected; otherwise the supervisor inspects the event first,
     * then the listeners get it. An interruption stops the delivery and is swallowed here.
     */
    method Broadcast(event: Option<Event>, env: Env) returns (r: Outcome, calls: seq<Call>)
      requires Valid()
      modifies this, listeners
      ensures Valid()
      ensures (Model(), (r, calls)) == BroadcastOp(old(Model()), event, env)
    {
      if event.None? {
        return Fail(IllegalArgument), [];
      }
      var e := event.value;
      calls := [Inspect(supervisor, e)];
      var _, invoked := DoBroadcast(e, env);
      calls := calls + Notifications(invoked, e);
      r := Pass;
    }

    /** `queue.poll()` on the non-empty queue of class `c`: take its head. */
    method PollQueue(c: EventClass) returns (e: Event)
      requires Valid() && c in queues && queues[c].items != []
      modifies this`queues
      ensures Valid()
      ensures e == old(queues[c].items[0]) && e.eventClass == c
      ensures Model() == Poll(old(Model()), c)
    {
      PollKeepsInv(Model(), c);
      e := queues[c].items[0];
      queues := queues[c := queues[c].(items := queues[c].items[1..])];
    }

    /**
     * `broadcastEnqueuedEventsFor`: poll the queue of the class and re-broadcast each event while
     * the previous one was received; an interruption propagates as a failure.
     */
    method BroadcastEnqueuedEventsFor(c: EventClass, env: Env) returns (r: Outcome)
      requires Valid()
      modifies this, listeners
      ensures Valid()
      ensures var R := ReplaySpec(old(Model()), c, env);
        Model() == R.state && r == ReplayOutcome(R)
    {
      ghost var R := ReplaySpec(Model(), c, env);
      var _ := GetQueue(c);
      ReplayFromCreatedQueue(old(Model()), c, env);
      ghost var walks: seq<Walk> := [];
      var keep := true;
      while keep && queues[c].items != []
        invariant Valid() && c in queues
        invariant keep ==> R == Prepend(walks, ReplaySpec(Model(), c, env))
        invariant !keep ==> R == Replay(Model(), walks, false)
        decreases |queues[c].items| + (if keep then 1 else 0)
      {
        ghost var before := Model();
        ReplayAdvance(before, c, env, walks, R);
        var e := PollQueue(c);
        ghost var d := DoBroadcastSpec(Model(), e, env);
        var delivered, _ := DoBroadcast(e, env);
        if delivered.Failure? {
          return Fail(BroadcastInterrupted);
        }
        walks := walks + [d.walk];
        keep := delivered.value;
      }
      if keep {
        ReplayOfEmptyQueue(Model(), c, env);
      }
      r := Pass;
    }

    /**
     * `add(eventClass, listener, priority, strength)`: a null class or listener is rejected;
     * otherwise the listener is registered and the queued events of its class are replayed.
     */
    method Add(c: Option<EventClass>, listener: Option<ListenerId>, priority: Int32, strength: Strength, env: Env)
      returns (r: Outcome)
      requires Valid()
      modifies this, listeners
      ensures Valid()
      ensures (Model(), r) == AddOp(old(Model()), c, listener, priority, strength, env)
    {
      if c.None? || listener.None? {
        return Fail(IllegalArgument);
      }
      listeners.Add(c.value, listener.value, priority, strength);
      r := BroadcastEnqueuedEventsFor(c.value, env);
    }

    /**
     * `add(listener, priority, strength)`: the class is inferred from the listener's `onEvent`
     * parameter (`inferred`); a null listener is rejected first, then a class that cannot be inferred.
     */
    method AddInferred(listener: Option<ListenerId>, inferred: Option<EventClass>, priority: Int32, strength: Strength, env: Env)
      returns (r: Outcome)
      requires Valid()
      modifies this, listeners
      ensures Valid()
      ensures (Model(), r) == AddInferredOp(old(Model()), listener, inferred, priority, strength, env)
    {
      if listener.None? {
        return Fail(IllegalArgument);
      }
      if inferred.None? {
        return Fail(UnableToInferEventClass);
      }
      r := Add(inferred, listener, priority, strength, env);
    }

    /**
     * `addAll(bean, descriptors)`: a null list is rejected; otherwise every descriptor is
     * registered and then the queued events of every class that gained a listener are replayed,
     * class by class in `order`, the iteration order of the set of updated classes.
     */
    method AddAll(bean: BeanId, descriptors: Option<seq<Descriptor>>, order: seq<EventClass>, env: Env)
      returns (r: Outcome)
      requires Valid()
      requires descriptors.Some? ==> IsEnumeration(order, ClassesOf(descriptors.value))
      modifies this, listeners
      ensures Valid()
      ensures (Model(), r) == AddAllOp(old(Model()), bean, descriptors, order, env)
    {
      if descriptors.None? {
        return Fail(IllegalArgument);
      }
      var updated := listeners.AddAll(bean, descriptors.value);
      r := ReplayEach(order, env);
    }

    /** The loop of `addAll` over the updated classes: one replay pass per class, until one is interrupted. */
    method ReplayEach(order: seq<EventClass>, env: Env) returns (r: Outcome)
      requires Valid()
      modifies this, listeners
      ensures Valid()
      ensures var R := ReplayAll(old(Model()), order, env);
        Model() == R.state && r == ReplayOutcome(R)
    {
      ghost var R := ReplayAll(Model(), order, env);
      assert order[0..] == order;
      ghost var walks: seq<Walk> := [];
      var i := 0;
      while i < |order|
        invariant 0 <= i <= |order|
        invariant Valid()
        invariant R == Prepend(walks, ReplayAll(Model(), order[i..], env))
      {
        ghost var before := Model();
        ghost var one := ReplaySpec(before, order[i], env);
        assert order[i..][1..] == order[i + 1..];
        var res := BroadcastEnqueuedEventsFor(order[i], env);
        if res.Fail? {
          assert ReplayAll(before, order[i..], env) == one;
          return res;
        }
        ghost var rest := ReplayAll(Model(), order[i + 1..], env);
        assert ReplayAll(before, order[i..], env) == Prepend(one.walks, rest);
        assert walks + (one.walks + rest.walks) == (walks + one.walks) + rest.walks;
        walks := walks + one.walks;
        i := i + 1;
      }
      r := Pass;
    }

    /** `remove(eventClass, listener)`: a null class or listener is rejected; otherwise the registry removes the listener. */
    method Remove(c: Option<EventClass>, listener: Option<ListenerId>, cleared: set<RefId>) returns (r: Result<bool>)
      requires Valid()
      modifies listeners
      ensures Valid()
      ensures (Model(), r) == RemoveOp(old(Model()), c, listener, cleared)
    {
      if c.None? || listener.None? {
        return Failure(IllegalArgument);
      }
      var removed := listeners.Remove(c.value, listener.value, cleared);
      r := Success(removed);
    }

    /** `remove(listener)`: as `add(listener, ...)`, the class is inferred, and the failures come in the same order. */
    method RemoveInferred(listener: Option<ListenerId>, inferred: Option<EventClass>, cleared: set<RefId>) returns (r: Result<bool>)
      requires Valid()
      modifies listeners
      ensures Valid()
      ensures (Model(), r) == RemoveInferredOp(old(Model()), listener, inferred, cleared)
    {
      if listener.None? {
        return Failure(IllegalArgument);
      }
      if inferred.None? {
        return Failure(UnableToInferEventClass);
      }
      r := Remove(inferred, listener, cleared);
    }

    /** `supervior`: a null supervisor is rejected; otherwise it replaces the current one. */
    method Supervior(s: Option<SupervisorId>) returns (r: Outcome)
      requires Valid()
      modifies this`supervisor
      ensures Valid()
      ensures (Model(), r) == SupervisorOp(old(Model()), s)
    {
      if s.None? {
        return Fail(IllegalArgument);
      }
      supervisor := s.value;
      r := Pass;
    }
  }
}
