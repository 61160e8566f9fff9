/**
 * The station of the earlier package (org/eventstudio/Station.java): every live listener of the
 * event's class gets the event, there is no interruption, an event nobody received goes to an
 * unbounded per-class queue, and `add` re-broadcasts queued events until the queue is empty.
 */
module LegacyStation {
  import opened Wrappers
  import opened StringUtils
  import opened Entity
  import opened ReferenceStrength
  import opened Listeners
  import opened LegacyListeners
  import StationSpec

  /** The per-class queues: unbounded `LinkedBlockingQueue`s. */
  type LegacyQueues = map<EventClass, seq<Event>>

  function LegacyQueueOf(queues: LegacyQueues, c: EventClass): seq<Event>
  {
    if c in queues then queues[c] else []
  }

  /** The abstract state of a legacy station. */
  datatype LegacyState = LegacyState(
    registry: LegacyRegistry,
    nextId: nat,
    queues: LegacyQueues,
    supervisor: StationSpec.SupervisorId)

  /** Every queue holds events of its own class only. */
  ghost predicate LegacyStateInv(st: LegacyState)
  {
    forall c :: c in st.queues ==> forall i :: 0 <= i < |st.queues[c]| ==> st.queues[c][i].eventClass == c
  }

  /** A new station: no listeners, no queues, the slacker supervisor. */
  function LegacyEmptyState(): LegacyState
  {
    LegacyState(map[], 0, map[], StationSpec.SLACKER)
  }

  /** The outcome of the dispatch loop: the holders whose listener got the event, and the collected ones removed. */
  datatype LegacyWalk = LegacyWalk(invoked: seq<LegacyHolder>, dead: seq<LegacyHolder>)

  /** The dispatch loop over a snapshot: a live holder's listener gets the event, a collected holder is recorded for removal. */
  function LegacyWalkOf(s: seq<LegacyHolder>, cleared: set<RefId>): LegacyWalk
    decreases |s|
  {
    if s == [] then LegacyWalk([], [])
    else
      var w := LegacyWalkOf(s[..|s| - 1], cleared);
      var h := s[|s| - 1];
      if h.GetListenerWrapper(cleared).Some? then w.(invoked := w.invoked + [h]) else w.(dead := w.dead + [h])
  }

  /** The registry after the collected holders were removed one by one. */
  function LegacyPurge(reg: LegacyRegistry, c: EventClass, dead: seq<LegacyHolder>): LegacyRegistry
    decreases |dead|
  {
    if dead == [] then reg
    else LegacyRemoveHolderSpec(LegacyPurge(reg, c, dead[..|dead| - 1]), c, dead[|dead| - 1]).registry
  }

  datatype LegacyDelivery = LegacyDelivery(state: LegacyState, walk: LegacyWalk)

  /**
   * `doBroadcast`: take the TreeSet copy of the event's class (creating an empty list when the
   * class had none), hand the event to each live listener, remove each collected holder, and
   * append the event to its class's queue when no listener got it.
   */
  function LegacyDoBroadcastSpec(st: LegacyState, e: Event, cleared: set<RefId>): LegacyDelivery
  {
    var c := e.eventClass;
    var snapshot := LegacySnapshotSpec(st.registry, c);
    var w := LegacyWalkOf(snapshot.1, cleared);
    var queues := if w.invoked != [] then st.queues else st.queues[c := LegacyQueueOf(st.queues, c) + [e]];
    LegacyDelivery(st.(registry := LegacyPurge(snapshot.0, c, w.dead), queues := queues), w)
  }

  /** What a broadcast hands to code outside the station, in order. */
  datatype LegacyCall = Inspected(supervisor: StationSpec.SupervisorId, event: Event) | Notified(holder: LegacyHolder, event: Event)

  function LegacyNotifications(invoked: seq<LegacyHolder>, e: Event): (calls: seq<LegacyCall>)
    ensures |calls| == |invoked|
    ensures forall i :: 0 <= i < |invoked| ==> calls[i] == Notified(invoked[i], e)
  {
    seq(|invoked|, i requires 0 <= i < |invoked| => Notified(invoked[i], e))
  }

  /** `broadcast`: a null event is rejected; otherwise the supervisor inspects it, then `doBroadcast` runs. */
  function LegacyBroadcastOp(st: LegacyState, event: Option<Event>, cleared: set<RefId>): (LegacyState, (Outcome, seq<LegacyCall>))
  {
    if event.None? then (st, (Fail(IllegalArgument), []))
    else
      var d := LegacyDoBroadcastSpec(st, event.value, cleared);
      (d.state, (Pass, [Inspected(st.supervisor, event.value)] + LegacyNotifications(d.walk.invoked, event.value)))
  }

  /** Everything the drain loop of `add` produces within its step bound: the state, one walk per polled event, and whether the queue became empty. */
  datatype LegacyDrainResult = LegacyDrainResult(state: LegacyState, walks: seq<LegacyWalk>, drained: bool)

  /** `queue.poll()` on a non-empty queue of class `c`: the state without the head. */
  function LegacyPoll(st: LegacyState, c: EventClass): (r: LegacyState)
    requires LegacyQueueOf(st.queues, c) != []
    ensures r.registry == st.registry && r.nextId == st.nextId && r.supervisor == st.supervisor
    ensures c in r.queues && r.queues[c] == LegacyQueueOf(st.queues, c)[1..] && r.queues - {c} == st.queues - {c}
  {
    st.(queues := st.queues[c := LegacyQueueOf(st.queues, c)[1..]])
  }

  /**
   * The loop of `add`: while the queue of `c` is not empty, poll its head and broadcast it again.
   * The source loop has no bound; `fuel` bounds the number of rounds modelled, and `drained`
   * says whether the queue was found empty within it.
   */
  function LegacyDrain(st: LegacyState, c: EventClass, cleared: set<RefId>, fuel: nat): LegacyDrainResult
    decreases fuel
  {
    var q := LegacyQueueOf(st.queues, c);
    if q == [] then LegacyDrainResult(st, [], true)
    else if fuel == 0 then LegacyDrainResult(st, [], false)
    else
      var d := LegacyDoBroadcastSpec(LegacyPoll(st, c), q[0], cleared);
      var r := LegacyDrain(d.state, c, cleared, fuel - 1);
      LegacyDrainResult(r.state, [d.walk] + r.walks, r.drained)
  }

  /** The state right after `listeners.add` and `getQueue`: one more holder at the end of the class's list, and the queue created. */
  function LegacyRegistered(st: LegacyState, c: EventClass, listener: ListenerId, priority: Int32, strength: Strength, hash: Int32): LegacyState
  {
    LegacyState(
      LegacyAddSpec(st.registry, c, LegacyNewHolder(listener, priority, strength, hash, st.nextId)),
      st.nextId + 1,
      st.queues[c := LegacyQueueOf(st.queues, c)],
      st.supervisor)
  }

  /**
   * `add(eventClass, listener, priority, strength)`: a null class or listener is rejected;
   * otherwise the listener is registered and the queue of its class drained. The answer says
   * whether the drain ended within `fuel` rounds.
   */
  function LegacyAddOp(st: LegacyState, c: Option<EventClass>, listener: Option<ListenerId>, priority: Int32, strength: Strength,
                       hash: Int32, cleared: set<RefId>, fuel: nat): (LegacyState, Result<bool>)
  {
    if c.None? || listener.None? then (st, Failure(IllegalArgument))
    else
      var r := LegacyDrain(LegacyRegistered(st, c.value, listener.value, priority, strength, hash), c.value, cleared, fuel);
      (r.state, Success(r.drained))
  }

  /** `add(listener, priority, strength)`: the null check, then the inferred class, then `add` with it. */
  function LegacyAddInferredOp(st: LegacyState, listener: Option<ListenerId>, inferred: Option<EventClass>, priority: Int32, strength: Strength,
                               hash: Int32, cleared: set<RefId>, fuel: nat): (LegacyState, Result<bool>)
  {
    if listener.None? then (st, Failure(IllegalArgument))
    else if inferred.None? then (st, Failure(UnableToInferEventClass))
    else LegacyAddOp(st, inferred, listener, priority, strength, hash, cleared, fuel)
  }

  /** `remove(eventClass, listener)`: null checks, then the registry's removal. */
  function LegacyRemoveOp(st: LegacyState, c: Option<EventClass>, listener: Option<ListenerId>, cleared: set<RefId>): (LegacyState, Result<bool>)
  {
    if c.None? || listener.None? then (st, Failure(IllegalArgument))
    else
      var r := LegacyRemoveListenerSpec(st.registry, c.value, listener.value, cleared);
      (st.(registry := r.registry), Success(r.removed))
  }

  /** `remove(listener)`: the null check, then the inferred class, then `remove` with it. */
  function LegacyRemoveInferredOp(st: LegacyState, listener: Option<ListenerId>, inferred: Option<EventClass>, cleared: set<RefId>): (LegacyState, Result<bool>)
  {
    if listener.None? then (st, Failure(IllegalArgument))
    else if inferred.None? then (st, Failure(UnableToInferEventClass))
    else LegacyRemoveOp(st, inferred, listener, cleared)
  }

  /** `supervior(supervisor)`: a null supervisor is rejected, otherwise it replaces the current one. */
  function LegacySupervisorOp(st: LegacyState, s: Option<StationSpec.SupervisorId>): (LegacyState, Outcome)
  {
    if s.None? then (st, Fail(IllegalArgument)) else (st.(supervisor := s.value), Pass)
  }

  /** The walk splits the snapshot into its live holders, which get the event, and its collected ones. */
  lemma {:induction false} LegacyWalkMembers(s: seq<LegacyHolder>, cleared: set<RefId>)
    ensures var w := LegacyWalkOf(s, cleared);
      && |w.invoked| + |w.dead| == |s|
      && (forall x :: x in w.invoked <==> x in s && x.GetListenerWrapper(cleared).Some?)
      && (forall x :: x in w.dead <==> x in s && x.GetListenerWrapper(cleared).None?)
    decreases |s|
  {
    if s != [] {
      var init := s[..|s| - 1];
      LegacyWalkMembers(init, cleared);
      assert s == init + [s[|s| - 1]];
    }
  }

  /** The listeners of a priority-sorted snapshot get the event in priority order. */
  lemma {:induction false} LegacyWalkPriorityOrder(s: seq<LegacyHolder>, cleared: set<RefId>)
    requires LegacyPrioritySorted(s)
    ensures LegacyPrioritySorted(LegacyWalkOf(s, cleared).invoked)
    decreases |s|
  {
    if s != [] {
      var init := s[..|s| - 1];
      var h := s[|s| - 1];
      assert LegacyPrioritySorted(init) by {
        forall i, j | 0 <= i < j < |init| ensures init[i].priority <= init[j].priority {
          assert init[i] == s[i] && init[j] == s[j];
        }
      }
      LegacyWalkPriorityOrder(init, cleared);
      LegacyWalkMembers(init, cleared);
      var w := LegacyWalkOf(init, cleared);
      forall k | 0 <= k < |w.invoked| ensures w.invoked[k].priority <= h.priority {
        assert w.invoked[k] in w.invoked;
        var m :| 0 <= m < |init| && init[m] == w.invoked[k];
        assert s[m] == init[m];
      }
    }
  }

  /**
   * Every live holder of the snapshot gets the event and every collected one is removed, each
   * exactly once, in snapshot order; nothing else is touched.
   */
  lemma LegacyWalkFacts(s: seq<LegacyHolder>, cleared: set<RefId>)
    ensures var w := LegacyWalkOf(s, cleared);
      && |w.invoked| + |w.dead| == |s|
      && (forall x :: x in w.invoked <==> x in s && x.GetListenerWrapper(cleared).Some?)
      && (forall x :: x in w.dead <==> x in s && x.GetListenerWrapper(cleared).None?)
      && (LegacyPrioritySorted(s) ==> LegacyPrioritySorted(w.invoked))
  {
    LegacyWalkMembers(s, cleared);
    if LegacyPrioritySorted(s) {
      LegacyWalkPriorityOrder(s, cleared);
    }
  }

  lemma RemoveFirstMembers(s: seq<LegacyHolder>, h: LegacyHolder, x: LegacyHolder)
    ensures x in RemoveFirst(s, h) ==> x in s
    ensures x in s && x != h ==> x in RemoveFirst(s, h)
  {
    if s != [] && s[0] != h {
      RemoveFirstMembers(s[1..], h, x);
      assert s == [s[0]] + s[1..];
    }
  }

  /**
   * Removing collected holders never adds a holder, and a holder that is not among them stays.
   */
  lemma {:induction false} LegacyPurgeMembers(reg: LegacyRegistry, c: EventClass, dead: seq<LegacyHolder>, x: LegacyHolder)
    ensures x in LegacyHoldersOf(LegacyPurge(reg, c, dead), c) ==> x in LegacyHoldersOf(reg, c)
    ensures x in LegacyHoldersOf(reg, c) && x !in dead ==> x in LegacyHoldersOf(LegacyPurge(reg, c, dead), c)
    ensures forall d :: d != c ==> LegacyHoldersOf(LegacyPurge(reg, c, dead), d) == LegacyHoldersOf(reg, d)
    decreases |dead|
  {
    if dead != [] {
      var init := dead[..|dead| - 1];
      var h := dead[|dead| - 1];
      LegacyPurgeMembers(reg, c, init, x);
      var p := LegacyPurge(reg, c, init);
      if c in p {
        RemoveFirstMembers(p[c], h, x);
      }
      assert x in init ==> x in dead;
    }
  }

  /** `doBroadcast` keeps every queue holding events of its own class. */
  lemma LegacyDoBroadcastKeepsInv(st: LegacyState, e: Event, cleared: set<RefId>)
    requires LegacyStateInv(st)
    ensures LegacyStateInv(LegacyDoBroadcastSpec(st, e, cleared).state)
  {
  }

  lemma LegacyPollKeepsInv(st: LegacyState, c: EventClass)
    requires LegacyStateInv(st) && LegacyQueueOf(st.queues, c) != []
    ensures LegacyStateInv(LegacyPoll(st, c))
    ensures LegacyQueueOf(st.queues, c)[0].eventClass == c
  {
    var r := LegacyPoll(st, c);
    forall d | d in r.queues ensures forall i :: 0 <= i < |r.queues[d]| ==> r.queues[d][i].eventClass == d {
      if d == c {
        forall i | 0 <= i < |r.queues[d]| ensures r.queues[d][i].eventClass == d {
          assert r.queues[d][i] == st.queues[c][i + 1];
        }
      }
    }
  }

  /**
   * A broadcast reaches every live listener of the event's exact class and only those; the event
   * is queued exactly when none is live, at the end of its class's queue, and other queues are
   * untouched. A live holder stays registered.
   */
  lemma LegacyBroadcastReachesLive(st: LegacyState, e: Event, cleared: set<RefId>)
    ensures var d := LegacyDoBroadcastSpec(st, e, cleared);
      var s := LegacyHoldersOf(st.registry, e.eventClass);
      && (forall x :: x in d.walk.invoked <==> x in s && x.GetListenerWrapper(cleared).Some?)
      && (forall x :: x in s && x.GetListenerWrapper(cleared).Some? ==> x in LegacyHoldersOf(d.state.registry, e.eventClass))
      && (forall x :: x in LegacyHoldersOf(d.state.registry, e.eventClass) ==> x in s)
      && (d.walk.invoked == [] <==> forall x :: x in s ==> x.GetListenerWrapper(cleared).None?)
      && LegacyQueueOf(d.state.queues, e.eventClass) == LegacyQueueOf(st.queues, e.eventClass) + (if d.walk.invoked == [] then [e] else [])
      && d.state.queues - {e.eventClass} == st.queues - {e.eventClass}
  {
    var c := e.eventClass;
    var s := LegacyHoldersOf(st.registry, c);
    var snapshot := LegacySnapshotSpec(st.registry, c);
    var d := LegacyDoBroadcastSpec(st, e, cleared);
    LegacySortedMembers(s);
    LegacyWalkFacts(snapshot.1, cleared);
    assert LegacyHoldersOf(snapshot.0, c) == s;
    forall x ensures x in LegacyHoldersOf(d.state.registry, c) ==> x in s
      ensures x in s && x.GetListenerWrapper(cleared).Some? ==> x in LegacyHoldersOf(d.state.registry, c)
    {
      LegacyPurgeMembers(snapshot.0, c, d.walk.dead, x);
    }
    if d.walk.invoked != [] {
      assert d.walk.invoked[0] in d.walk.invoked;
    }
  }

  /**
   * With every priority away from the ends of the `int` range, the listeners of a broadcast get
   * the event in non-decreasing priority order.
   */
  lemma LegacyBroadcastPriorityOrder(st: LegacyState, e: Event, cleared: set<RefId>)
    requires SafePriorities(LegacyHoldersOf(st.registry, e.eventClass))
    ensures LegacyPrioritySorted(LegacyDoBroadcastSpec(st, e, cleared).walk.invoked)
  {
    LegacySortedByPriority(LegacyHoldersOf(st.registry, e.eventClass));
    LegacyWalkFacts(LegacySorted(LegacyHoldersOf(st.registry, e.eventClass)), cleared);
  }

  /**
   * With a live listener registered for class `c`, the drain loop of `add` ends after exactly
   * one round per queued event: every queued event, oldest first, reaches that listener, and the
   * queue ends empty.
   */
  lemma {:induction false} LegacyDrainWithLiveListener(st: LegacyState, c: EventClass, cleared: set<RefId>, h: LegacyHolder, fuel: nat)
    requires LegacyStateInv(st)
    requires h in LegacyHoldersOf(st.registry, c) && h.GetListenerWrapper(cleared).Some?
    requires |LegacyQueueOf(st.queues, c)| <= fuel
    ensures var r := LegacyDrain(st, c, cleared, fuel);
      var q := LegacyQueueOf(st.queues, c);
      && r.drained && LegacyQueueOf(r.state.queues, c) == []
      && |r.walks| == |q|
      && forall i :: 0 <= i < |q| ==> h in r.walks[i].invoked
    decreases fuel
  {
    var q := LegacyQueueOf(st.queues, c);
    if q != [] {
      LegacyPollKeepsInv(st, c);
      var st1 := LegacyPoll(st, c);
      var d := LegacyDoBroadcastSpec(st1, q[0], cleared);
      LegacyBroadcastReachesLive(st1, q[0], cleared);
      LegacyDoBroadcastKeepsInv(st1, q[0], cleared);
      assert h in d.walk.invoked;
      LegacyDrainWithLiveListener(d.state, c, cleared, h, fuel - 1);
      var rest := LegacyDrain(d.state, c, cleared, fuel - 1);
      var r := LegacyDrain(st, c, cleared, fuel);
      forall i | 0 <= i < |q| ensures h in r.walks[i].invoked {
        if i > 0 { assert r.walks[i] == rest.walks[i - 1]; }
      }
    }
  }

  /**
   * With no live listener for class `c` and an event queued, the drain loop of `add` never ends:
   * each round polls the head, nobody gets it, and it goes back to the end of the same queue,
   * whatever bound is put on the number of rounds.
   */
  lemma {:induction false} LegacyDrainWithoutLiveListener(st: LegacyState, c: EventClass, cleared: set<RefId>, fuel: nat)
    requires LegacyStateInv(st) && LegacyQueueOf(st.queues, c) != []
    requires forall x :: x in LegacyHoldersOf(st.registry, c) ==> x.GetListenerWrapper(cleared).None?
    ensures var r := LegacyDrain(st, c, cleared, fuel);
      && !r.drained && |r.walks| == fuel
      && |LegacyQueueOf(r.state.queues, c)| == |LegacyQueueOf(st.queues, c)|
      && forall i :: 0 <= i < |r.walks| ==> r.walks[i].invoked == []
    decreases fuel
  {
    var q := LegacyQueueOf(st.queues, c);
    if fuel > 0 {
      LegacyPollKeepsInv(st, c);
      var st1 := LegacyPoll(st, c);
      var d := LegacyDoBroadcastSpec(st1, q[0], cleared);
      LegacyBroadcastReachesLive(st1, q[0], cleared);
      LegacyDoBroadcastKeepsInv(st1, q[0], cleared);
      assert d.walk.invoked == [];
      assert LegacyQueueOf(d.state.queues, c) == q[1..] + [q[0]];
      LegacyDrainWithoutLiveListener(d.state, c, cleared, fuel - 1);
      var rest := LegacyDrain(d.state, c, cleared, fuel - 1);
      var r := LegacyDrain(st, c, cleared, fuel);
      forall i | 0 <= i < |r.walks| ensures r.walks[i].invoked == [] {
        if i > 0 { assert r.walks[i] == rest.walks[i - 1]; }
      }
    }
  }

  /**
   * A listener registered with a weak handle that the collector has already cleared leaves an
   * event queued for its class forever: the registration the drain loop waits for is dead.
   */
  lemma LegacyAddOfClearedListenerNeverReturns(st: LegacyState, c: EventClass, listener: ListenerId, priority: Int32, hash: Int32,
                                               cleared: set<RefId>, fuel: nat)
    requires LegacyStateInv(st) && LegacyQueueOf(st.queues, c) != []
    requires forall x :: x in LegacyHoldersOf(st.registry, c) ==> x.GetListenerWrapper(cleared).None?
    requires st.nextId in cleared
    ensures LegacyAddOp(st, Some(c), Some(listener), priority, WEAK, hash, cleared, fuel).1 == Success(false)
  {
    var st1 := LegacyRegistered(st, c, listener, priority, WEAK, hash);
    var h := LegacyNewHolder(listener, priority, WEAK, hash, st.nextId);
    assert h.GetListenerWrapper(cleared).None?;
    assert LegacyHoldersOf(st1.registry, c) == LegacyHoldersOf(st.registry, c) + [h];
    LegacyDrainWithoutLiveListener(st1, c, cleared, fuel);
  }

  /**
   * The later package's replay pass, which stops at the first event nobody received, does end in
   * that situation: it polls the head, puts it back at the end of the queue, and stops.
   */
  lemma ReplayStopsWithoutLiveListener(st: StationSpec.StationState, c: EventClass, env: StationSpec.Env)
    requires StationSpec.StateInv(st)
    requires StationSpec.QueueOf(st.queues, c, st.maxQueueSize).items != []
    requires forall x :: x in HoldersOf(st.registry, c) ==> x.GetListenerWrapper(env.cleared).None?
    ensures var q := StationSpec.QueueOf(st.queues, c, st.maxQueueSize).items;
      var R := StationSpec.ReplaySpec(st, c, env);
      && !R.interrupted && |R.walks| == 1 && R.walks[0].invoked == []
      && StationSpec.QueueOf(R.state.queues, c, st.maxQueueSize).items == q[1..] + [q[0]]
  {
    var q := StationSpec.QueueOf(st.queues, c, st.maxQueueSize).items;
    StationSpec.ReplayStep(st, c, env);
    StationSpec.PollKeepsInv(st, c);
    var st1 := StationSpec.Poll(st, c);
    assert st1.registry == st.registry && q[0].eventClass == c;
    StationSpec.WalkWithoutLive(HoldersOf(st1.registry, c), q[0], env);
    StationSpec.DoBroadcastEnqueues(st1, q[0], env);
    assert c in st.queues && |q[1..]| < st.maxQueueSize;
  }

  /** At most one live holder of `s` wraps the listener. */
  ghost predicate OneRegistration(s: seq<LegacyHolder>, listener: ListenerId, cleared: set<RefId>)
  {
    forall i, j ::
      && 0 <= i < |s| && 0 <= j < |s|
      && s[i].GetListenerWrapper(cleared) == Some(DefaultListenerWrapper(listener))
      && s[j].GetListenerWrapper(cleared) == Some(DefaultListenerWrapper(listener))
      ==> i == j
  }

  /**
   * After `remove` took out the one registration of a listener for class `c`, a broadcast of an
   * event of that class no longer reaches the listener.
   */
  lemma LegacyRemovedListenerNotNotified(st: LegacyState, c: EventClass, listener: ListenerId, cleared: set<RefId>, e: Event)
    requires e.eventClass == c
    requires OneRegistration(LegacyHoldersOf(st.registry, c), listener, cleared)
    ensures var st' := LegacyRemoveOp(st, Some(c), Some(listener), cleared).0;
      var d := LegacyDoBroadcastSpec(st', e, cleared);
      forall x :: x in d.walk.invoked ==> x.GetListenerWrapper(cleared) != Some(DefaultListenerWrapper(listener))
  {
    var st' := LegacyRemoveOp(st, Some(c), Some(listener), cleared).0;
    LegacyRemoveListenerFirstOnly(st.registry, c, listener, cleared);
    LegacyBroadcastReachesLive(st', e, cleared);
    var s := LegacyHoldersOf(st.registry, c);
    var s' := LegacyHoldersOf(st'.registry, c);
    forall x | x in s' ensures x.GetListenerWrapper(cleared) != Some(DefaultListenerWrapper(listener)) {
      var m :| 0 <= m < |s'| && s'[m] == x;
    }
  }

  /** The legacy station: its registry, its queues and its supervisor are updated in place. */
  class LegacyStation {
    const name: string
    const listeners: LegacyListeners
    var queues: LegacyQueues
    var supervisor: StationSpec.SupervisorId

    ghost function Model(): LegacyState
      reads this, listeners
    {
      LegacyState(listeners.listeners, listeners.nextId, queues, supervisor)
    }

    ghost predicate Valid()
      reads this, listeners
    {
      LegacyStateInv(Model())
    }

    constructor (name: string)
      requires IsNotBlank(Some(name))
      ensures Valid() && fresh(listeners) && this.name == name
      ensures Model() == LegacyEmptyState()
    {
      this.name := name;
      listeners := new LegacyListeners();
      queues := map[];
      supervisor := StationSpec.SLACKER;
    }

    /** `new Station(name)`: a blank name is rejected with an illegal-argument error. */
    static method Create(name: Option<string>) returns (r: Result<LegacyStation>)
      ensures r.Failure? <==> IsBlank(name)
      ensures r.Failure? ==> r.error == IllegalArgument
      ensures r.Success? ==>
        && fresh(r.value) && fresh(r.value.listeners) && r.value.Valid()
        && r.value.name == name.value && r.value.Model() == LegacyEmptyState()
    {
      if IsBlank(name) {
        return Failure(IllegalArgument);
      }
      var station := new LegacyStation(name.value);
      r := Success(station);
    }

    /** `getQueue`: the queue of the class, created empty when missing. */
    method GetQueue(c: EventClass) returns (q: seq<Event>)
      modifies this`queues
      ensures q == LegacyQueueOf(old(queues), c)
      ensures queues == old(queues)[c := q]
    {
      if c in queues {
        q := queues[c];
      } else {
        q := [];
        queues := queues[c := q];
      }
    }

    /**
     * The loop of `doBroadcast`: walk the TreeSet copy of class `c`, hand the event to every live
     * listener and remove every collected holder from the registry. `dead` lists those removed.
     */
    method Dispatch(c: EventClass, cleared: set<RefId>) returns (invoked: seq<LegacyHolder>, ghost dead: seq<LegacyHolder>)
      modifies listeners`listeners
      ensures var snapshot := LegacySnapshotSpec(old(listeners.listeners), c);
        && LegacyWalk(invoked, dead) == LegacyWalkOf(snapshot.1, cleared)
        && listeners.listeners == LegacyPurge(snapshot.0, c, dead)
    {
      var snapshot := listeners.NullSafeGetListeners(c);
      ghost var reg := listeners.listeners;
      invoked, dead := [], [];
      for i := 0 to |snapshot|
        invariant LegacyWalk(invoked, dead) == LegacyWalkOf(snapshot[..i], cleared)
        invariant listeners.listeners == LegacyPurge(reg, c, dead)
      {
        var h := snapshot[i];
        assert snapshot[..i + 1][..i] == snapshot[..i];
        if h.GetListenerWrapper(cleared).Some? {
          invoked := invoked + [h];
        } else {
          var _ := listeners.RemoveHolder(c, h);
          assert (dead + [h])[..|dead|] == dead;
          dead := dead + [h];
        }
      }
      assert snapshot[..|snapshot|] == snapshot;
    }

    /**
     * `doBroadcast`: every live listener of the event's class gets it, collected holders are
     * removed, and the event is queued when nobody got it. `invoked` lists the holders notified.
     */
    method DoBroadcast(e: Event, cleared: set<RefId>) returns (invoked: seq<LegacyHolder>)
      requires Valid()
      modifies this, listeners
      ensures Valid()
      ensures var d := LegacyDoBroadcastSpec(old(Model()), e, cleared);
        Model() == d.state && invoked == d.walk.invoked
    {
      LegacyDoBroadcastKeepsInv(Model(), e, cleared);
      ghost var dead;
      invoked, dead := Dispatch(e.eventClass, cleared);
      if invoked == [] {
        Enqueue(e);
      }
    }

    /** The event goes to the tail of its class's queue, which is created when missing. */
    method Enqueue(e: Event)
      modifies this`queues
      ensures queues == old(queues)[e.eventClass := LegacyQueueOf(old(queues), e.eventClass) + [e]]
    {
      var q := GetQueue(e.eventClass);
      queues := queues[e.eventClass := q + [e]];
    }

    /** `broadcast`: a null event is rejected; otherwise the supervisor inspects it, then the listeners get it. */
    method Broadcast(event: Option<Event>, cleared: set<RefId>) returns (r: Outcome, calls: seq<LegacyCall>)
      requires Valid()
      modifies this, listeners
      ensures Valid()
      ensures (Model(), (r, calls)) == LegacyBroadcastOp(old(Model()), event, cleared)
    {
      if event.None? {
        return Fail(IllegalArgument), [];
      }
      var e := event.value;
      calls := [Inspected(supervisor, e)];
      var invoked := DoBroadcast(e, cleared);
      calls := calls + LegacyNotifications(invoked, e);
      r := Pass;
    }

    /** `queue.poll()` on the non-empty queue of class `c`: take its head. */
    method PollQueue(c: EventClass) returns (e: Event)
      requires Valid() && c in queues && queues[c] != []
      modifies this`queues
      ensures Valid() && e == old(queues[c][0])
      ensures Model() == LegacyPoll(old(Model()), c)
    {
      LegacyPollKeepsInv(Model(), c);
      e := queues[c][0];
      queues := queues[c := queues[c][1..]];
    }

    /**
     * `add(eventClass, listener, priority, strength)`: null checks, registration, then the drain
     * loop, run for at most `fuel` rounds; the answer says whether the queue was emptied.
     */
    method Add(c: Option<EventClass>, listener: Option<ListenerId>, priority: Int32, strength: Strength, hash: Int32,
               cleared: set<RefId>, fuel: nat) returns (r: Result<bool>)
      requires Valid()
      modifies this, listeners
      ensures Valid()
      ensures (Model(), r) == LegacyAddOp(old(Model()), c, listener, priority, strength, hash, cleared, fuel)
    {
      if c.None? || listener.None? {
        return Failure(IllegalArgument);
      }
      Register(c.value, listener.value, priority, strength, hash);
      var drained := Drain(c.value, cleared, fuel);
      r := Success(drained);
    }

    /** The registration step of `add`: the listener joins the registry and the queue of its class exists. */
    method Register(c: EventClass, listener: ListenerId, priority: Int32, strength: Strength, hash: Int32)
      requires Valid()
      modifies this`queues, listeners
      ensures Valid() && c in queues
      ensures Model() == LegacyRegistered(old(Model()), c, listener, priority, strength, hash)
    {
      listeners.Add(c, listener, priority, strength, hash);
      var _ := GetQueue(c);
    }

    /** The loop of `add`: poll and re-broadcast the queued events of class `c`, for at most `fuel` rounds. */
    method Drain(c: EventClass, cleared: set<RefId>, fuel: nat) returns (drained: bool)
      requires Valid() && c in queues
      modifies this, listeners
      ensures Valid()
      ensures var R := LegacyDrain(old(Model()), c, cleared, fuel);
        Model() == R.state && drained == R.drained
    {
      ghost var R := LegacyDrain(Model(), c, cleared, fuel);
      var rounds: nat := 0;
      while queues[c] != [] && rounds < fuel
        invariant Valid() && c in queues && rounds <= fuel
        invariant LegacyDrain(Model(), c, cleared, fuel - rounds).state == R.state
        invariant LegacyDrain(Model(), c, cleared, fuel - rounds).drained == R.drained
        decreases fuel - rounds
      {
        var e := PollQueue(c);
        var _ := DoBroadcast(e, cleared);
        rounds := rounds + 1;
      }
      drained := queues[c] == [];
    }

    /** `add(listener, priority, strength)`: the null check, then the inferred class (`inferred`), then `add` with it. */
    method AddInferred(listener: Option<ListenerId>, inferred: Option<EventClass>, priority: Int32, strength: Strength, hash: Int32,
                       cleared: set<RefId>, fuel: nat) returns (r: Result<bool>)
      requires Valid()
      modifies this, listeners
      ensures Valid()
      ensures (Model(), r) == LegacyAddInferredOp(old(Model()), listener, inferred, priority, strength, hash, cleared, fuel)
    {
      if listener.None? {
        return Failure(IllegalArgument);
      }
      if inferred.None? {
        return Failure(UnableToInferEventClass);
      }
      r := Add(inferred, listener, priority, strength, hash, cleared, fuel);
    }

    /** `remove(eventClass, listener)`: null checks, then the registry's removal. */
    method Remove(c: Option<EventClass>, listener: Option<ListenerId>, cleared: set<RefId>) returns (r: Result<bool>)
      requires Valid()
      modifies listeners`listeners
      ensures Valid()
      ensures (Model(), r) == LegacyRemoveOp(old(Model()), c, listener, cleared)
    {
      if c.None? || listener.None? {
        return Failure(IllegalArgument);
      }
      var removed := listeners.Remove(c.value, listener.value, cleared);
      r := Success(removed);
    }

    /** `remove(listener)`: the null check, then the inferred class, then `remove` with it. */
    method RemoveInferred(listener: Option<ListenerId>, inferred: Option<EventClass>, cleared: set<RefId>) returns (r: Result<bool>)
      requires Valid()
      modifies listeners`listeners
      ensures Valid()
      ensures (Model(), r) == LegacyRemoveInferredOp(old(Model()), listener, inferred, cleared)
    {
      if listener.None? {
        return Failure(IllegalArgument);
      }
      if inferred.None? {
        return Failure(UnableToInferEventClass);
      }
      r := Remove(inferred, listener, cleared);
    }

    /** `supervior(supervisor)`: a null supervisor is rejected, otherwise it replaces the current one. */
    method Supervior(s: Option<StationSpec.SupervisorId>) returns (r: Outcome)
      requires Valid()
      modifies this`supervisor
      ensures Valid()
      ensures (Model(), r) == LegacySupervisorOp(old(Model()), s)
    {
      if s.None? {
        return Fail(IllegalArgument);
      }
      supervisor := s.value;
      r := Pass;
    }
  }
}
