/**
 * What one station does, as functions of its state (org/pdfsam/eventstudio/Station.java):
 * the dispatch walk over a priority-ordered snapshot, the lazy purge of collected handles, the
 * bounded per-class replay queue, and the replay pass that runs after a listener is added.
 */
module StationSpec {
  import opened Wrappers
  import opened Entity
  import opened ReferenceStrength
  import opened Listeners

  type SupervisorId = nat

  /** `Supervisor.SLACKER`, the supervisor a new station starts with. */
  const SLACKER: SupervisorId := 0

  /** What the environment decides during one call: the references the collector has cleared and how each listener reacts to each event. */
  datatype Env = Env(cleared: set<RefId>, behaviour: (ListenerWrapper, Event) -> Reaction)

  /** A `LinkedBlockingQueue` with the capacity it was created with. */
  datatype BoundedQueue = BoundedQueue(items: seq<Event>, capacity: nat)

  /** `offer`: append when there is room, otherwise refuse and keep the queue. */
  function Offer(q: BoundedQueue, e: Event): (r: (BoundedQueue, bool))
    ensures r.0.capacity == q.capacity
    ensures r.1 <==> |q.items| < q.capacity
    ensures r.0.items == if r.1 then q.items + [e] else q.items
  {
    if |q.items| < q.capacity then (q.(items := q.items + [e]), true) else (q, false)
  }

  type Queues = map<EventClass, BoundedQueue>

  /** `getQueue`: the queue of the class, or a new empty one of the configured capacity. */
  function QueueOf(queues: Queues, c: EventClass, maxQueueSize: nat): BoundedQueue
  {
    if c in queues then queues[c] else BoundedQueue([], maxQueueSize)
  }

  /** The abstract state of a station; `maxQueueSize` is the capacity every new queue gets. */
  datatype StationState = StationState(
    registry: Registry,
    nextId: nat,
    queues: Queues,
    supervisor: SupervisorId,
    maxQueueSize: nat)

  /**
   * A station's invariant: a valid registry, and every queue holds events of its own class and
   * no more than its capacity, which is the configured one.
   */
  ghost predicate StateInv(st: StationState)
  {
    && RegistryInv(st.registry, st.nextId)
    && 0 < st.maxQueueSize
    && forall c :: c in st.queues ==>
         && st.queues[c].capacity == st.maxQueueSize
         && |st.queues[c].items| <= st.queues[c].capacity
         && forall i :: 0 <= i < |st.queues[c].items| ==> st.queues[c].items[i].eventClass == c
  }

  /** A freshly created station: no listeners, no queues, the slacker supervisor. */
  function EmptyState(maxQueueSize: nat): StationState
  {
    StationState(map[], 0, map[], SLACKER, maxQueueSize)
  }

  /** The outcome of walking a snapshot: whom the event reached, which handles were dead, the envelope, and whether a listener interrupted. */
  datatype Walk = Walk(invoked: seq<Holder>, dead: seq<Holder>, envelope: Envelope, interrupted: bool)

  /**
   * The dispatch loop over `s`: a collected handle is recorded for purging and skipped, a live
   * one gets the event through `onEvent`, and an interruption ends the walk.
   */
  function WalkOf(s: seq<Holder>, e: Event, env: Env): Walk
    decreases |s|
  {
    if s == [] then Walk([], [], Envelope(e, false), false)
    else
      var w := WalkOf(s[..|s| - 1], e, env);
      var h := s[|s| - 1];
      if w.interrupted then w
      else match h.GetListenerWrapper(env.cleared)
        case None => w.(dead := w.dead + [h])
        case Some(l) =>
          var r := OnEvent(l, w.envelope, env.behaviour);
          Walk(w.invoked + [h], w.dead, r.0, r.1)
  }

  /** The live holders of `s`, in order. */
  function LiveOf(s: seq<Holder>, cleared: set<RefId>): seq<Holder>
    decreases |s|
  {
    if s == [] then []
    else LiveOf(s[..|s| - 1], cleared) + (if s[|s| - 1].GetListenerWrapper(cleared).Some? then [s[|s| - 1]] else [])
  }

  /** The collected holders of `s`, in order. */
  function DeadOf(s: seq<Holder>, cleared: set<RefId>): seq<Holder>
    decreases |s|
  {
    if s == [] then []
    else DeadOf(s[..|s| - 1], cleared) + (if s[|s| - 1].GetListenerWrapper(cleared).None? then [s[|s| - 1]] else [])
  }

  function Wrapper(h: Holder, cleared: set<RefId>): ListenerWrapper
    requires h.GetListenerWrapper(cleared).Some?
  {
    h.GetListenerWrapper(cleared).value
  }

  /** The registry after the walk removed, one by one, the holders found dead. */
  function Purge(reg: Registry, c: EventClass, dead: seq<Holder>): Registry
    decreases |dead|
  {
    if dead == [] then reg
    else RemoveHolderSpec(Purge(reg, c, dead[..|dead| - 1]), c, dead[|dead| - 1]).registry
  }

  /** Everything `doBroadcast` produces: the next state and the walk. */
  datatype Delivery = Delivery(state: StationState, walk: Walk)

  /**
   * `doBroadcast(event)`: walk the snapshot of the event's exact class, purge the dead holders,
   * and, when nobody was notified and nobody interrupted, offer the event to its class's queue.
   * An interruption leaves by exception, so the enqueue step is skipped.
   */
  function DoBroadcastSpec(st: StationState, e: Event, env: Env): Delivery
  {
    var c := e.eventClass;
    var w := WalkOf(HoldersOf(st.registry, c), e, env);
    var reg := Purge(st.registry, c, w.dead);
    var queues :=
      if w.interrupted || w.envelope.notified then st.queues
      else st.queues[c := Offer(QueueOf(st.queues, c, st.maxQueueSize), e).0];
    Delivery(st.(registry := reg, queues := queues), w)
  }

  /** Everything a replay pass produces: the next state, one walk per re-delivered event, and whether an interruption escaped. */
  datatype Replay = Replay(state: StationState, walks: seq<Walk>, interrupted: bool)

  /** `queue.poll()` on a non-empty queue of class `c`: the state without the head. */
  function Poll(st: StationState, c: EventClass): (r: StationState)
    requires QueueOf(st.queues, c, st.maxQueueSize).items != []
    ensures c in r.queues && r.queues - {c} == st.queues - {c}
    ensures r.queues[c].items == QueueOf(st.queues, c, st.maxQueueSize).items[1..]
  {
    var q := QueueOf(st.queues, c, st.maxQueueSize);
    st.(queues := st.queues[c := q.(items := q.items[1..])])
  }

  /**
   * `broadcastEnqueuedEventsFor(c)`: create the queue if needed, then poll and re-deliver in FIFO
   * order until the queue is empty or one event is not delivered; an interruption propagates out.
   */
  function ReplaySpec(st: StationState, c: EventClass, env: Env): Replay
    decreases |QueueOf(st.queues, c, st.maxQueueSize).items|
  {
    var q := QueueOf(st.queues, c, st.maxQueueSize);
    if q.items == [] then Replay(st.(queues := st.queues[c := q]), [], false)
    else
      var d := DoBroadcastSpec(Poll(st, c), q.items[0], env);
      if d.walk.interrupted then Replay(d.state, [d.walk], true)
      else if !d.walk.envelope.notified then Replay(d.state, [d.walk], false)
      else
        assert QueueOf(d.state.queues, c, st.maxQueueSize).items == q.items[1..];
        var r := ReplaySpec(d.state, c, env);
        Replay(r.state, [d.walk] + r.walks, r.interrupted)
  }

  /** The state right after `listeners.add`: one more holder for `c`, and the next identity taken. */
  function Registered(st: StationState, c: EventClass, listener: ListenerId, priority: Int32, strength: Strength): StationState
  {
    st.(registry := AddSpec(st.registry, st.nextId, c, listener, priority, strength), nextId := st.nextId + 1)
  }

  /** The state right after `listeners.addAll`. */
  function RegisteredAll(st: StationState, bean: BeanId, ds: seq<Descriptor>): StationState
  {
    st.(registry := AddEntries(st.registry, st.nextId, bean, ds), nextId := st.nextId + |ds|)
  }

  /** `order` lists every element of `items` exactly once: the iteration order of a hash set or map. */
  predicate IsEnumeration<T(==)>(order: seq<T>, items: set<T>)
  {
    && (forall i, j :: 0 <= i < j < |order| ==> order[i] != order[j])
    && (forall i :: 0 <= i < |order| ==> order[i] in items)
    && (forall x :: x in items ==> x in order)
  }

  /** One replay pass per class of `order`, in that order; an interruption escapes and ends the loop. */
  function ReplayAll(st: StationState, order: seq<EventClass>, env: Env): Replay
    decreases |order|
  {
    if order == [] then Replay(st, [], false)
    else
      var r := ReplaySpec(st, order[0], env);
      if r.interrupted then r
      else
        var rest := ReplayAll(r.state, order[1..], env);
        Replay(rest.state, r.walks + rest.walks, rest.interrupted)
  }

  /** Creating the queue first, as `getQueue` does, does not change the replay pass. */
  lemma ReplayFromCreatedQueue(st: StationState, c: EventClass, env: Env)
    ensures var q := QueueOf(st.queues, c, st.maxQueueSize);
      ReplaySpec(st.(queues := st.queues[c := q]), c, env) == ReplaySpec(st, c, env)
  {
    var q := QueueOf(st.queues, c, st.maxQueueSize);
    var st0 := st.(queues := st.queues[c := q]);
    assert QueueOf(st0.queues, c, st.maxQueueSize) == q;
    if q.items != [] {
      assert Poll(st0, c) == Poll(st, c);
    } else {
      assert st0.(queues := st0.queues[c := q]) == st0;
    }
  }

  /** `r` with the walks `ws` done before it. */
  function Prepend(ws: seq<Walk>, r: Replay): Replay
  {
    Replay(r.state, ws + r.walks, r.interrupted)
  }

  /** One turn of the replay loop: poll the head, broadcast it, and go on only when it was received. */
  lemma ReplayStep(st: StationState, c: EventClass, env: Env)
    requires StateInv(st) && QueueOf(st.queues, c, st.maxQueueSize).items != []
    ensures var q := QueueOf(st.queues, c, st.maxQueueSize);
      var d := DoBroadcastSpec(Poll(st, c), q.items[0], env);
      && StateInv(Poll(st, c))
      && StateInv(d.state)
      && d.state.maxQueueSize == st.maxQueueSize
      && c in d.state.queues
      && (d.walk.envelope.notified && !d.walk.interrupted ==> |d.state.queues[c].items| < |q.items|)
      && (!d.walk.envelope.notified && !d.walk.interrupted ==> |d.state.queues[c].items| == |q.items|)
      && ReplaySpec(st, c, env) ==
           if d.walk.interrupted then Replay(d.state, [d.walk], true)
           else if !d.walk.envelope.notified then Replay(d.state, [d.walk], false)
           else Prepend([d.walk], ReplaySpec(d.state, c, env))
  {
    PollKeepsInv(st, c);
    var q := QueueOf(st.queues, c, st.maxQueueSize);
    DoBroadcastPurges(Poll(st, c), q.items[0], env);
    DoBroadcastEnqueues(Poll(st, c), q.items[0], env);
  }

  /** One turn of the replay loop, seen from a loop that has already done the walks `walks` of the pass `R`. */
  lemma ReplayAdvance(st: StationState, c: EventClass, env: Env, walks: seq<Walk>, R: Replay)
    requires StateInv(st) && QueueOf(st.queues, c, st.maxQueueSize).items != []
    requires R == Prepend(walks, ReplaySpec(st, c, env))
    ensures var q := QueueOf(st.queues, c, st.maxQueueSize);
      var d := DoBroadcastSpec(Poll(st, c), q.items[0], env);
      && StateInv(d.state) && c in d.state.queues
      && (d.walk.interrupted ==> R.state == d.state && R.interrupted)
      && (!d.walk.interrupted && d.walk.envelope.notified ==>
            && R == Prepend(walks + [d.walk], ReplaySpec(d.state, c, env))
            && |d.state.queues[c].items| < |q.items|)
      && (!d.walk.interrupted && !d.walk.envelope.notified ==>
            && R == Replay(d.state, walks + [d.walk], false)
            && |d.state.queues[c].items| == |q.items|)
  {
    ReplayStep(st, c, env);
    var q := QueueOf(st.queues, c, st.maxQueueSize);
    var d := DoBroadcastSpec(Poll(st, c), q.items[0], env);
    if !d.walk.interrupted && d.walk.envelope.notified {
      var rest := ReplaySpec(d.state, c, env);
      assert walks + ([d.walk] + rest.walks) == (walks + [d.walk]) + rest.walks;
    }
  }

  /** With the queue present and empty, the replay pass does nothing. */
  lemma ReplayOfEmptyQueue(st: StationState, c: EventClass, env: Env)
    requires c in st.queues && st.queues[c].items == []
    ensures ReplaySpec(st, c, env) == Replay(st, [], false)
  {
    assert st.(queues := st.queues[c := st.queues[c]]) == st;
  }

  /** How a replay pass ends for the caller: an escaped interruption, or normally. */
  function ReplayOutcome(R: Replay): Outcome
  {
    if R.interrupted then Fail(BroadcastInterrupted) else Pass
  }

  /** What a broadcast hands to code outside the station, in order: the supervisor's inspection, then each listener notified. */
  datatype Call = Inspect(supervisor: SupervisorId, event: Event) | Notify(holder: Holder, event: Event)

  /** The notifications of `invoked`, in order. */
  function Notifications(invoked: seq<Holder>, e: Event): (calls: seq<Call>)
    ensures |calls| == |invoked|
    ensures forall i :: 0 <= i < |invoked| ==> calls[i] == Notify(invoked[i], e)
  {
    seq(|invoked|, i requires 0 <= i < |invoked| => Notify(invoked[i], e))
  }

  /**
   * `Station.broadcast(event)`: a null event is rejected; otherwise the supervisor inspects it,
   * then `doBroadcast` runs and an interruption is swallowed.
   */
  function BroadcastOp(st: StationState, event: Option<Event>, env: Env): (StationState, (Outcome, seq<Call>))
  {
    if event.None? then (st, (Fail(IllegalArgument), []))
    else
      var d := DoBroadcastSpec(st, event.value, env);
      (d.state, (Pass, [Inspect(st.supervisor, event.value)] + Notifications(d.walk.invoked, event.value)))
  }

  /** `Station.add(eventClass, listener, priority, strength)`: null checks, registration, then the replay pass of the class. */
  function AddOp(st: StationState, c: Option<EventClass>, listener: Option<ListenerId>, priority: Int32, strength: Strength, env: Env): (StationState, Outcome)
  {
    if c.None? || listener.None? then (st, Fail(IllegalArgument))
    else
      var R := ReplaySpec(Registered(st, c.value, listener.value, priority, strength), c.value, env);
      (R.state, ReplayOutcome(R))
  }

  /** `Station.add(listener, priority, strength)`: the null check, then the inferred class (`inferred`), then `add` with it. */
  function AddInferredOp(st: StationState, listener: Option<ListenerId>, inferred: Option<EventClass>, priority: Int32, strength: Strength, env: Env): (StationState, Outcome)
  {
    if listener.None? then (st, Fail(IllegalArgument))
    else if inferred.None? then (st, Fail(UnableToInferEventClass))
    else AddOp(st, inferred, listener, priority, strength, env)
  }

  /** `Station.addAll(bean, descriptors)`: the null check, registration of every descriptor, then one replay pass per updated class, in `order`. */
  function AddAllOp(st: StationState, bean: BeanId, descriptors: Option<seq<Descriptor>>, order: seq<EventClass>, env: Env): (StationState, Outcome)
  {
    if descriptors.None? then (st, Fail(IllegalArgument))
    else
      var R := ReplayAll(RegisteredAll(st, bean, descriptors.value), order, env);
      (R.state, ReplayOutcome(R))
  }

  /** `Station.remove(eventClass, listener)`: null checks, then the registry's removal. */
  function RemoveOp(st: StationState, c: Option<EventClass>, listener: Option<ListenerId>, cleared: set<RefId>): (StationState, Result<bool>)
  {
    if c.None? || listener.None? then (st, Failure(IllegalArgument))
    else
      var R := RemoveListenerSpec(st.registry, c.value, listener.value, cleared);
      (st.(registry := R.registry), Success(R.removed))
  }

  /** `Station.remove(listener)`: the null check, then the inferred class, then `remove` with it. */
  function RemoveInferredOp(st: StationState, listener: Option<ListenerId>, inferred: Option<EventClass>, cleared: set<RefId>): (StationState, Result<bool>)
  {
    if listener.None? then (st, Failure(IllegalArgument))
    else if inferred.None? then (st, Failure(UnableToInferEventClass))
    else RemoveOp(st, inferred, listener, cleared)
  }

  /** `Station.supervior(supervisor)`: a null supervisor is rejected, otherwise it takes the single slot. */
  function SupervisorOp(st: StationState, s: Option<SupervisorId>): (StationState, Outcome)
  {
    if s.None? then (st, Fail(IllegalArgument)) else (st.(supervisor := s.value), Pass)
  }

  /** Once a listener has interrupted, the rest of the snapshot changes nothing. */
  lemma {:induction false} WalkAfterInterrupt(s: seq<Holder>, k: nat, e: Event, env: Env)
    requires k <= |s| && WalkOf(s[..k], e, env).interrupted
    ensures WalkOf(s, e, env) == WalkOf(s[..k], e, env)
    decreases |s|
  {
    if |s| > k {
      var init := s[..|s| - 1];
      assert init[..k] == s[..k];
      WalkAfterInterrupt(init, k, e, env);
    } else {
      assert s[..k] == s;
    }
  }

  /** A walk hands the event only to live holders of the snapshot and records only dead ones. */
  lemma {:induction false} WalkMembers(s: seq<Holder>, e: Event, env: Env)
    ensures var w := WalkOf(s, e, env);
      && w.envelope.event == e
      && (forall i :: 0 <= i < |w.invoked| ==> w.invoked[i] in s && w.invoked[i].GetListenerWrapper(env.cleared).Some?)
      && (forall i :: 0 <= i < |w.dead| ==> w.dead[i] in s && w.dead[i].GetListenerWrapper(env.cleared).None?)
    decreases |s|
  {
    if s != [] {
      var init := s[..|s| - 1];
      WalkMembers(init, e, env);
      forall x | x in init ensures x in s { }
    }
  }

  /** The envelope is notified exactly when some invoked listener returned normally. */
  lemma {:induction false} WalkNotified(s: seq<Holder>, e: Event, env: Env)
    ensures var w := WalkOf(s, e, env);
      && (forall i :: 0 <= i < |w.invoked| ==> w.invoked[i].GetListenerWrapper(env.cleared).Some?)
      && (w.envelope.notified <==> exists i :: 0 <= i < |w.invoked| && env.behaviour(Wrapper(w.invoked[i], env.cleared), e) == Deliver)
    decreases |s|
  {
    if s != [] {
      var init := s[..|s| - 1];
      WalkNotified(init, e, env);
      WalkMembers(init, e, env);
      var w := WalkOf(init, e, env);
      if !w.interrupted {
        var h := s[|s| - 1];
        match h.GetListenerWrapper(env.cleared)
        case None =>
        case Some(l) =>
          var w' := WalkOf(s, e, env);
          assert w'.invoked == w.invoked + [h];
          assert Wrapper(h, env.cleared) == l;
          if env.behaviour(l, e) == Deliver {
            assert env.behaviour(Wrapper(w'.invoked[|w'.invoked| - 1], env.cleared), e) == Deliver;
          }
          if w.envelope.notified {
            var i :| 0 <= i < |w.invoked| && env.behaviour(Wrapper(w.invoked[i], env.cleared), e) == Deliver;
            assert w'.invoked[i] == w.invoked[i];
          }
      }
    }
  }

  /** Without an interruption every live holder is invoked and every dead one recorded, in snapshot order, and all returned normally. */
  lemma {:induction false} WalkComplete(s: seq<Holder>, e: Event, env: Env)
    ensures var w := WalkOf(s, e, env);
      && (!w.interrupted ==> w.invoked == LiveOf(s, env.cleared) && w.dead == DeadOf(s, env.cleared))
      && (!w.interrupted ==> forall i :: 0 <= i < |w.invoked| ==> w.invoked[i].GetListenerWrapper(env.cleared).Some?)
      && (!w.interrupted ==> forall i :: 0 <= i < |w.invoked| ==> env.behaviour(Wrapper(w.invoked[i], env.cleared), e) == Deliver)
    decreases |s|
  {
    if s != [] {
      var init := s[..|s| - 1];
      WalkComplete(init, e, env);
      WalkMembers(init, e, env);
      var w := WalkOf(init, e, env);
      if !w.interrupted {
        var h := s[|s| - 1];
        match h.GetListenerWrapper(env.cleared)
        case None =>
        case Some(l) =>
          assert Wrapper(h, env.cleared) == l;
      }
    }
  }

  /** With an interruption, the interrupting listener is the last invoked and every one before it returned normally. */
  lemma {:induction false} WalkInterrupted(s: seq<Holder>, e: Event, env: Env)
    ensures var w := WalkOf(s, e, env);
      && (w.interrupted ==> w.invoked != [] && forall i :: 0 <= i < |w.invoked| ==> w.invoked[i].GetListenerWrapper(env.cleared).Some?)
      && (w.interrupted ==> env.behaviour(Wrapper(w.invoked[|w.invoked| - 1], env.cleared), e) == Interrupt)
      && (w.interrupted ==> forall i :: 0 <= i < |w.invoked| - 1 ==> env.behaviour(Wrapper(w.invoked[i], env.cleared), e) == Deliver)
    decreases |s|
  {
    if s != [] {
      var init := s[..|s| - 1];
      WalkInterrupted(init, e, env);
      WalkMembers(init, e, env);
      WalkComplete(init, e, env);
      var w := WalkOf(init, e, env);
      if !w.interrupted {
        var h := s[|s| - 1];
        match h.GetListenerWrapper(env.cleared)
        case None =>
        case Some(l) =>
          assert Wrapper(h, env.cleared) == l;
      }
    }
  }

  /** A snapshot whose holders have all been collected notifies nobody and is not interrupted. */
  lemma {:induction false} WalkWithoutLive(s: seq<Holder>, e: Event, env: Env)
    requires forall x :: x in s ==> x.GetListenerWrapper(env.cleared).None?
    ensures var w := WalkOf(s, e, env); w.invoked == [] && !w.interrupted && !w.envelope.notified
    decreases |s|
  {
    if s != [] {
      var init := s[..|s| - 1];
      forall x | x in init ensures x.GetListenerWrapper(env.cleared).None? {
        assert x in s;
      }
      WalkWithoutLive(init, e, env);
      assert s[|s| - 1] in s;
    }
  }

  /**
   * What a walk does with a snapshot: it hands the event only to live holders, records only dead
   * ones, and the envelope is notified exactly when some invoked listener returned normally.
   * Without an interruption every live holder is invoked and every dead one recorded, in
   * snapshot order; with one, the interrupting listener is the last invoked and all before it
   * returned normally.
   */
  lemma WalkFacts(s: seq<Holder>, e: Event, env: Env)
    ensures var w := WalkOf(s, e, env);
      && w.envelope.event == e
      && (forall i :: 0 <= i < |w.invoked| ==> w.invoked[i] in s && w.invoked[i].GetListenerWrapper(env.cleared).Some?)
      && (forall i :: 0 <= i < |w.dead| ==> w.dead[i] in s && w.dead[i].GetListenerWrapper(env.cleared).None?)
      && (w.envelope.notified <==> exists i :: 0 <= i < |w.invoked| && env.behaviour(Wrapper(w.invoked[i], env.cleared), e) == Deliver)
      && (!w.interrupted ==> w.invoked == LiveOf(s, env.cleared) && w.dead == DeadOf(s, env.cleared))
      && (!w.interrupted ==> forall i :: 0 <= i < |w.invoked| ==> env.behaviour(Wrapper(w.invoked[i], env.cleared), e) == Deliver)
      && (w.interrupted ==> w.invoked != [] && env.behaviour(Wrapper(w.invoked[|w.invoked| - 1], env.cleared), e) == Interrupt)
      && (w.interrupted ==> forall i :: 0 <= i < |w.invoked| - 1 ==> env.behaviour(Wrapper(w.invoked[i], env.cleared), e) == Deliver)
  {
    WalkMembers(s, e, env);
    WalkNotified(s, e, env);
    WalkComplete(s, e, env);
    WalkInterrupted(s, e, env);
  }

  /** Listeners are invoked in ascending priority order, as the snapshot lists them. */
  lemma {:induction false} WalkPriorityOrder(s: seq<Holder>, e: Event, env: Env)
    requires PrioritySorted(s)
    ensures PrioritySorted(WalkOf(s, e, env).invoked)
    decreases |s|
  {
    if s != [] {
      var init := s[..|s| - 1];
      WalkPriorityOrder(init, e, env);
      WalkFacts(init, e, env);
      var w := WalkOf(init, e, env);
      forall i | 0 <= i < |w.invoked| ensures w.invoked[i].priority <= s[|s| - 1].priority {
        var j :| 0 <= j < |init| && init[j] == w.invoked[i];
        assert s[j] == init[j];
      }
    }
  }

  /** Removing the one holder with `h`'s identity from an ordered set leaves no copy of `h` and keeps the rest. */
  lemma RemoveAtFacts(sp: seq<Holder>, k: nat, h: Holder)
    requires Ordered(sp) && k < |sp| && CompareTo(h, sp[k]) == 0
    ensures var rest := sp[..k] + sp[k + 1..];
      && h !in rest
      && (forall x :: x in sp && CompareTo(x, h) != 0 ==> x in rest)
      && multiset(rest) <= multiset(sp)
  {
    var rest := sp[..k] + sp[k + 1..];
    assert sp == sp[..k] + [sp[k]] + sp[k + 1..];
    forall j | 0 <= j < |rest| ensures CompareTo(rest[j], sp[k]) != 0 {
      if j < k { assert rest[j] == sp[j]; assert Less(sp[j], sp[k]); }
      else { assert rest[j] == sp[j + 1]; assert Less(sp[k], sp[j + 1]); }
    }
    forall x | x in sp && CompareTo(x, h) != 0 ensures x in rest {
      var j :| 0 <= j < |sp| && sp[j] == x;
      if j < k { assert rest[j] == x; } else { assert j != k; assert rest[j - 1] == x; }
    }
  }

  /** One removal of the purge: `h` is gone, every holder of another identity stays, nothing is added. */
  lemma RemoveHolderStep(reg: Registry, nextId: nat, c: EventClass, h: Holder)
    requires RegistryInv(reg, nextId)
    ensures var r := RemoveHolderSpec(reg, c, h).registry;
      && RegistryInv(r, nextId)
      && h !in HoldersOf(r, c)
      && (forall x :: x in HoldersOf(reg, c) && CompareTo(x, h) != 0 ==> x in HoldersOf(r, c))
      && multiset(HoldersOf(r, c)) <= multiset(HoldersOf(reg, c))
      && (forall d :: d != c ==> HoldersOf(r, d) == HoldersOf(reg, d))
  {
    RemoveHolderExact(reg, nextId, c, h);
    var r := RemoveHolderSpec(reg, c, h).registry;
    var sp := HoldersOf(reg, c);
    if RemoveHolderSpec(reg, c, h).removed {
      var k :| 0 <= k < |reg[c]| && CompareTo(h, reg[c][k]) == 0 && HoldersOf(r, c) == reg[c][..k] + reg[c][k + 1..];
      assert sp == reg[c];
      RemoveAtFacts(sp, k, h);
    }
  }

  /**
   * The lazy purge removes every holder found dead, keeps every holder with another identity,
   * adds nothing, and touches no other class.
   */
  lemma {:induction false} PurgeFacts(reg: Registry, nextId: nat, c: EventClass, dead: seq<Holder>)
    requires RegistryInv(reg, nextId)
    ensures var r := Purge(reg, c, dead);
      && RegistryInv(r, nextId)
      && (forall h :: h in dead ==> h !in HoldersOf(r, c))
      && (forall x :: x in HoldersOf(reg, c) && (forall h :: h in dead ==> CompareTo(x, h) != 0) ==> x in HoldersOf(r, c))
      && multiset(HoldersOf(r, c)) <= multiset(HoldersOf(reg, c))
      && (forall d :: d != c ==> HoldersOf(r, d) == HoldersOf(reg, d))
    decreases |dead|
  {
    if dead != [] {
      var init := dead[..|dead| - 1];
      var h := dead[|dead| - 1];
      PurgeFacts(reg, nextId, c, init);
      var prev := Purge(reg, c, init);
      RemoveHolderStep(prev, nextId, c, h);
      var r := Purge(reg, c, dead);
      assert r == RemoveHolderSpec(prev, c, h).registry;
      forall g | g in dead ensures g !in HoldersOf(r, c) {
        if g != h {
          assert g in init;
          assert multiset(HoldersOf(r, c))[g] <= multiset(HoldersOf(prev, c))[g];
        }
      }
      forall x | x in HoldersOf(reg, c) && (forall g :: g in dead ==> CompareTo(x, g) != 0) ensures x in HoldersOf(r, c) {
        assert forall g :: g in init ==> g in dead;
      }
    }
  }

  /** In an ordered set no two holders share an identity. */
  lemma SameIdentityInOrdered(s: seq<Holder>, x: Holder, h: Holder)
    requires Ordered(s) && x in s && h in s && CompareTo(x, h) == 0
    ensures x == h
  {
    var i :| 0 <= i < |s| && s[i] == x;
    var j :| 0 <= j < |s| && s[j] == h;
  }

  /**
   * `doBroadcast` on the registry: collected holders of the event's class leave it, live ones
   * stay, the other classes are untouched.
   */
  lemma DoBroadcastPurges(st: StationState, e: Event, env: Env)
    requires StateInv(st)
    ensures var c := e.eventClass;
      var d := DoBroadcastSpec(st, e, env);
      && RegistryInv(d.state.registry, d.state.nextId)
      && d.state.nextId == st.nextId && d.state.supervisor == st.supervisor && d.state.maxQueueSize == st.maxQueueSize
      && (forall h :: h in d.walk.dead ==> h !in HoldersOf(d.state.registry, c))
      && (forall x :: x in HoldersOf(st.registry, c) && x.GetListenerWrapper(env.cleared).Some? ==> x in HoldersOf(d.state.registry, c))
      && multiset(HoldersOf(d.state.registry, c)) <= multiset(HoldersOf(st.registry, c))
      && (forall k :: k != c ==> HoldersOf(d.state.registry, k) == HoldersOf(st.registry, k))
  {
    var c := e.eventClass;
    var s := HoldersOf(st.registry, c);
    var w := WalkOf(s, e, env);
    WalkFacts(s, e, env);
    PurgeFacts(st.registry, st.nextId, c, w.dead);
    var reg := Purge(st.registry, c, w.dead);
    forall x | x in s && x.GetListenerWrapper(env.cleared).Some? ensures x in HoldersOf(reg, c) {
      forall h | h in w.dead ensures CompareTo(x, h) != 0 {
        var i :| 0 <= i < |w.dead| && w.dead[i] == h;
        if CompareTo(x, h) == 0 {
          SameIdentityInOrdered(s, x, h);
        }
      }
    }
  }

  /**
   * `doBroadcast` on the queues, and the station's invariant: an event nobody received and nobody
   * interrupted goes to the tail of its class's queue when there is room and is dropped when the
   * queue is full; a delivered or interrupted event leaves every queue as it was.
   */
  lemma DoBroadcastEnqueues(st: StationState, e: Event, env: Env)
    requires StateInv(st)
    ensures var c := e.eventClass;
      var d := DoBroadcastSpec(st, e, env);
      var q := QueueOf(st.queues, c, st.maxQueueSize).items;
      && StateInv(d.state)
      && (d.walk.interrupted || d.walk.envelope.notified ==> d.state.queues == st.queues)
      && (!d.walk.interrupted && !d.walk.envelope.notified ==>
            && c in d.state.queues
            && d.state.queues - {c} == st.queues - {c}
            && d.state.queues[c].items == if |q| < st.maxQueueSize then q + [e] else q)
  {
    DoBroadcastPurges(st, e, env);
    var c := e.eventClass;
    var d := DoBroadcastSpec(st, e, env);
    if !d.walk.interrupted && !d.walk.envelope.notified {
      var q := QueueOf(st.queues, c, st.maxQueueSize);
      assert d.state.queues == st.queues[c := Offer(q, e).0];
      var nq := d.state.queues[c];
      forall i | 0 <= i < |nq.items| ensures nq.items[i].eventClass == c {
        if i < |q.items| { assert nq.items[i] == q.items[i]; }
      }
    }
  }

  /** Polling the head of a class's queue keeps the station's invariant, and the head is of that class. */
  lemma PollKeepsInv(st: StationState, c: EventClass)
    requires StateInv(st) && QueueOf(st.queues, c, st.maxQueueSize).items != []
    ensures QueueOf(st.queues, c, st.maxQueueSize).items[0].eventClass == c
    ensures StateInv(Poll(st, c))
  {
    var q := QueueOf(st.queues, c, st.maxQueueSize);
    var tail := q.items[1..];
    forall i | 0 <= i < |tail| ensures tail[i].eventClass == c {
      assert tail[i] == q.items[i + 1];
    }
  }

  /**
   * The replay pass keeps the station's invariant, changes only the queue of its class, which
   * exists afterwards, and leaves the supervisor and the configuration alone.
   */
  lemma {:induction false} ReplayKeepsInv(st: StationState, c: EventClass, env: Env)
    requires StateInv(st)
    ensures var r := ReplaySpec(st, c, env);
      && StateInv(r.state) && c in r.state.queues
      && r.state.nextId == st.nextId && r.state.supervisor == st.supervisor && r.state.maxQueueSize == st.maxQueueSize
      && r.state.queues - {c} == st.queues - {c}
    decreases |QueueOf(st.queues, c, st.maxQueueSize).items|
  {
    var q := QueueOf(st.queues, c, st.maxQueueSize);
    if q.items != [] {
      ReplayFirstRound(st, c, env);
      PollKeepsInv(st, c);
      var st1 := Poll(st, c);
      DoBroadcastPurges(st1, q.items[0], env);
      DoBroadcastEnqueues(st1, q.items[0], env);
      var d := DoBroadcastSpec(st1, q.items[0], env);
      if d.walk.envelope.notified && !d.walk.interrupted {
        ReplayKeepsInv(d.state, c, env);
      }
    }
  }

  /**
   * The replay pass re-delivers the queued events of its class oldest first, never more of them
   * than were queued; when every re-delivery was received and none interrupted, it re-delivered
   * all of them and the queue ends empty.
   */
  lemma {:induction false} ReplayIsFifo(st: StationState, c: EventClass, env: Env)
    requires StateInv(st)
    ensures var q := QueueOf(st.queues, c, st.maxQueueSize).items;
      var R := ReplaySpec(st, c, env);
      && |R.walks| <= |q|
      && (forall i :: 0 <= i < |R.walks| ==> R.walks[i].envelope.event == q[i])
      && (!R.interrupted && (forall i :: 0 <= i < |R.walks| ==> R.walks[i].envelope.notified) ==>
            |R.walks| == |q| && QueueOf(R.state.queues, c, st.maxQueueSize).items == [])
    decreases |QueueOf(st.queues, c, st.maxQueueSize).items|
  {
    var q := QueueOf(st.queues, c, st.maxQueueSize);
    if q.items != [] {
      ReplayFirstRound(st, c, env);
      var d := DoBroadcastSpec(Poll(st, c), q.items[0], env);
      if d.walk.envelope.notified && !d.walk.interrupted {
        ReplayIsFifo(d.state, c, env);
        var r := ReplaySpec(st, c, env);
        var r' := ReplaySpec(d.state, c, env);
        assert r == Replay(r'.state, [d.walk] + r'.walks, r'.interrupted);
        forall i | 0 <= i < |r.walks| ensures r.walks[i].envelope.event == q.items[i] {
          if i > 0 { assert r.walks[i] == r'.walks[i - 1]; }
        }
        if !r.interrupted && (forall i :: 0 <= i < |r.walks| ==> r.walks[i].envelope.notified) {
          forall i | 0 <= i < |r'.walks| ensures r'.walks[i].envelope.notified {
            assert r'.walks[i] == r.walks[i + 1];
          }
        }
      }
    }
  }

  /**
   * The first round of a replay pass: the head is broadcast; an interruption loses it, an event
   * nobody received goes back to the tail, and a received one leaves the rest of the queue.
   */
  lemma ReplayFirstRound(st: StationState, c: EventClass, env: Env)
    requires StateInv(st) && QueueOf(st.queues, c, st.maxQueueSize).items != []
    ensures var q := QueueOf(st.queues, c, st.maxQueueSize).items;
      var d := DoBroadcastSpec(Poll(st, c), q[0], env);
      var after := QueueOf(d.state.queues, c, st.maxQueueSize).items;
      && StateInv(d.state) && d.state.maxQueueSize == st.maxQueueSize
      && d.walk.envelope.event == q[0]
      && (d.walk.interrupted ==> after == q[1..] && ReplaySpec(st, c, env) == Replay(d.state, [d.walk], true))
      && (!d.walk.interrupted && !d.walk.envelope.notified ==>
            after == q[1..] + [q[0]] && ReplaySpec(st, c, env) == Replay(d.state, [d.walk], false))
      && (!d.walk.interrupted && d.walk.envelope.notified ==>
            after == q[1..] && ReplaySpec(st, c, env) == Prepend([d.walk], ReplaySpec(d.state, c, env)))
  {
    var q := QueueOf(st.queues, c, st.maxQueueSize);
    ReplayStep(st, c, env);
    PollKeepsInv(st, c);
    var st1 := Poll(st, c);
    DoBroadcastEnqueues(st1, q.items[0], env);
    WalkMembers(HoldersOf(st1.registry, c), q.items[0], env);
    assert QueueOf(st1.queues, c, st.maxQueueSize).items == q.items[1..];
    assert |q.items[1..]| < st.maxQueueSize;
  }

  /** A live holder of `s` is among the live holders of `s`. */
  lemma {:induction false} LiveOfContains(s: seq<Holder>, h: Holder, cleared: set<RefId>)
    requires h in s && h.GetListenerWrapper(cleared).Some?
    ensures h in LiveOf(s, cleared)
    decreases |s|
  {
    var init := s[..|s| - 1];
    if h != s[|s| - 1] {
      assert h in init;
      LiveOfContains(init, h, cleared);
    }
  }

  /**
   * A broadcast reaches every live holder of the event's class that returns normally, unless a
   * listener interrupts, and then the event counts as received; such a holder stays registered.
   */
  lemma BroadcastReachesLive(st: StationState, e: Event, env: Env, h: Holder)
    requires StateInv(st) && h in HoldersOf(st.registry, e.eventClass)
    requires h.GetListenerWrapper(env.cleared).Some? && env.behaviour(Wrapper(h, env.cleared), e) == Deliver
    ensures var d := DoBroadcastSpec(st, e, env);
      && (!d.walk.interrupted ==> h in d.walk.invoked && d.walk.envelope.notified)
      && h in HoldersOf(d.state.registry, e.eventClass)
  {
    var s := HoldersOf(st.registry, e.eventClass);
    var w := WalkOf(s, e, env);
    WalkFacts(s, e, env);
    DoBroadcastPurges(st, e, env);
    if !w.interrupted {
      LiveOfContains(s, h, env.cleared);
      var i :| 0 <= i < |w.invoked| && w.invoked[i] == h;
      assert env.behaviour(Wrapper(w.invoked[i], env.cleared), e) == Deliver;
    }
  }

  /**
   * While a live holder of class `c` returns normally on each queued event, every event the
   * replay pass re-delivers reaches it and counts as received, unless some listener interrupts.
   */
  lemma {:induction false} ReplayWithLiveListener(st: StationState, c: EventClass, env: Env, h: Holder)
    requires StateInv(st) && h in HoldersOf(st.registry, c)
    requires h.GetListenerWrapper(env.cleared).Some?
    requires forall i :: 0 <= i < |QueueOf(st.queues, c, st.maxQueueSize).items| ==>
      env.behaviour(Wrapper(h, env.cleared), QueueOf(st.queues, c, st.maxQueueSize).items[i]) == Deliver
    ensures var R := ReplaySpec(st, c, env);
      !R.interrupted ==> forall i :: 0 <= i < |R.walks| ==> h in R.walks[i].invoked && R.walks[i].envelope.notified
    decreases |QueueOf(st.queues, c, st.maxQueueSize).items|
  {
    var q := QueueOf(st.queues, c, st.maxQueueSize);
    if q.items != [] {
      ReplayStep(st, c, env);
      PollKeepsInv(st, c);
      var d := DoBroadcastSpec(Poll(st, c), q.items[0], env);
      BroadcastReachesLive(Poll(st, c), q.items[0], env, h);
      if !d.walk.interrupted && d.walk.envelope.notified {
        ReplayFirstRound(st, c, env);
        var q' := QueueOf(d.state.queues, c, d.state.maxQueueSize).items;
        assert q' == q.items[1..];
        forall i | 0 <= i < |q'| ensures env.behaviour(Wrapper(h, env.cleared), q'[i]) == Deliver {
          assert q'[i] == q.items[i + 1];
        }
        ReplayWithLiveListener(d.state, c, env, h);
        var rest := ReplaySpec(d.state, c, env);
        var R := ReplaySpec(st, c, env);
        if !R.interrupted {
          forall i | 0 <= i < |R.walks| ensures h in R.walks[i].invoked && R.walks[i].envelope.notified {
            if i > 0 { assert R.walks[i] == rest.walks[i - 1]; }
          }
        }
      }
    }
  }

  /** Every live holder of class `c` returns normally on each of the events `es`. */
  ghost predicate NoInterrupter(reg: Registry, c: EventClass, es: seq<Event>, env: Env)
  {
    forall x, i :: x in HoldersOf(reg, c) && x.GetListenerWrapper(env.cleared).Some? && 0 <= i < |es| ==>
      env.behaviour(Wrapper(x, env.cleared), es[i]) == Deliver
  }

  /** A replay pass over a class none of whose listeners interrupts on a queued event never fails. */
  lemma {:induction false} ReplayWithoutInterrupter(st: StationState, c: EventClass, env: Env)
    requires StateInv(st) && NoInterrupter(st.registry, c, QueueOf(st.queues, c, st.maxQueueSize).items, env)
    ensures !ReplaySpec(st, c, env).interrupted
    decreases |QueueOf(st.queues, c, st.maxQueueSize).items|
  {
    var q := QueueOf(st.queues, c, st.maxQueueSize);
    if q.items != [] {
      ReplayStep(st, c, env);
      PollKeepsInv(st, c);
      var st1 := Poll(st, c);
      var s := HoldersOf(st1.registry, c);
      var d := DoBroadcastSpec(st1, q.items[0], env);
      WalkFacts(s, q.items[0], env);
      DoBroadcastPurges(st1, q.items[0], env);
      if d.walk.envelope.notified {
        forall x | x in HoldersOf(d.state.registry, c) ensures x in s {
          assert multiset(HoldersOf(d.state.registry, c))[x] <= multiset(s)[x];
        }
        if !d.walk.interrupted {
          ReplayFirstRound(st, c, env);
          var q' := QueueOf(d.state.queues, c, d.state.maxQueueSize).items;
          assert q' == q.items[1..];
          forall x, i | x in HoldersOf(d.state.registry, c) && x.GetListenerWrapper(env.cleared).Some? && 0 <= i < |q'|
            ensures env.behaviour(Wrapper(x, env.cleared), q'[i]) == Deliver
          {
            assert q'[i] == q.items[i + 1];
          }
          ReplayWithoutInterrupter(d.state, c, env);
        }
      }
    }
  }

  /**
   * A listener added with a live handle that returns normally receives every event its class had
   * queued, oldest first, and the queue ends empty, unless another listener interrupts the replay.
   */
  lemma AddedListenerDrainsQueue(st: StationState, c: EventClass, listener: ListenerId, priority: Int32, strength: Strength, env: Env)
    requires StateInv(st)
    requires strength == STRONG || st.nextId !in env.cleared
    requires forall i :: 0 <= i < |QueueOf(st.queues, c, st.maxQueueSize).items| ==>
      env.behaviour(DefaultListenerWrapper(listener), QueueOf(st.queues, c, st.maxQueueSize).items[i]) == Deliver
    ensures var q := QueueOf(st.queues, c, st.maxQueueSize).items;
      var R := ReplaySpec(Registered(st, c, listener, priority, strength), c, env);
      !R.interrupted ==>
        && |R.walks| == |q|
        && (forall i :: 0 <= i < |q| ==>
              && R.walks[i].envelope.event == q[i]
              && NewHolder(listener, priority, strength, st.nextId) in R.walks[i].invoked)
        && QueueOf(R.state.queues, c, st.maxQueueSize).items == []
  {
    var h := NewHolder(listener, priority, strength, st.nextId);
    var st' := Registered(st, c, listener, priority, strength);
    AddSpecGrows(st.registry, st.nextId, c, listener, priority, strength);
    assert multiset(HoldersOf(st'.registry, c))[h] > 0;
    assert h.GetListenerWrapper(env.cleared) == Some(DefaultListenerWrapper(listener));
    ReplayWithLiveListener(st', c, env, h);
    ReplayIsFifo(st', c, env);
  }

  /** Broadcasting the events of `es` one after another. */
  function BroadcastAll(st: StationState, es: seq<Event>, env: Env): StationState
    decreases |es|
  {
    if es == [] then st
    else DoBroadcastSpec(BroadcastAll(st, es[..|es| - 1], env), es[|es| - 1], env).state
  }

  /**
   * With nobody listening to class `c`, events of that class fill its queue in broadcast order up
   * to the capacity, and every event beyond it is dropped: the queue keeps the oldest.
   */
  lemma {:induction false} UnheardEventsKeepOldest(st: StationState, c: EventClass, es: seq<Event>, env: Env)
    requires StateInv(st) && HoldersOf(st.registry, c) == [] && QueueOf(st.queues, c, st.maxQueueSize).items == []
    requires forall i :: 0 <= i < |es| ==> es[i].eventClass == c
    ensures var b := BroadcastAll(st, es, env);
      && StateInv(b) && b.maxQueueSize == st.maxQueueSize && b.nextId == st.nextId
      && HoldersOf(b.registry, c) == []
      && QueueOf(b.queues, c, st.maxQueueSize).items == es[..if |es| < st.maxQueueSize then |es| else st.maxQueueSize]
    decreases |es|
  {
    if es != [] {
      var init := es[..|es| - 1];
      var e := es[|es| - 1];
      UnheardEventsKeepOldest(st, c, init, env);
      var b := BroadcastAll(st, init, env);
      DoBroadcastPurges(b, e, env);
      DoBroadcastEnqueues(b, e, env);
      assert WalkOf([], e, env) == Walk([], [], Envelope(e, false), false);
      var n := if |init| < st.maxQueueSize then |init| else st.maxQueueSize;
      assert es[..n] == init[..n];
      if |init| < st.maxQueueSize {
        assert es[..n + 1] == init[..n] + [e];
      }
    }
  }

  /**
   * Six events broadcast to a station whose queues hold three and that nobody listens to, then a
   * listener that returns normally added for their class: the listener is notified of the first
   * three, oldest first, and the queue ends empty.
   */
  lemma CapacityScenario(c: EventClass, listener: ListenerId, es: seq<Event>, env: Env)
    requires |es| == 6 && forall i :: 0 <= i < |es| ==> es[i].eventClass == c
    requires forall i :: 0 <= i < |es| ==> env.behaviour(DefaultListenerWrapper(listener), es[i]) == Deliver
    ensures var st := BroadcastAll(EmptyState(3), es, env);
      var R := ReplaySpec(Registered(st, c, listener, 0, STRONG), c, env);
      && QueueOf(st.queues, c, 3).items == es[..3]
      && !R.interrupted
      && |R.walks| == 3
      && (forall i :: 0 <= i < 3 ==>
            && R.walks[i].envelope.event == es[i]
            && NewHolder(listener, 0, STRONG, st.nextId) in R.walks[i].invoked)
      && QueueOf(R.state.queues, c, 3).items == []
  {
    UnheardEventsKeepOldest(EmptyState(3), c, es, env);
    var st := BroadcastAll(EmptyState(3), es, env);
    var st' := Registered(st, c, listener, 0, STRONG);
    AddSpecGrows(st.registry, st.nextId, c, listener, 0, STRONG);
    var h := NewHolder(listener, 0, STRONG, st.nextId);
    assert HoldersOf(st'.registry, c) == [h];
    ReplayWithoutInterrupter(st', c, env);
    AddedListenerDrainsQueue(st, c, listener, 0, STRONG, env);
  }
}
