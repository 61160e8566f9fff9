/**
 * The listener registry (org/pdfsam/eventstudio/Listeners.java): for every event class, a
 * TreeSet of holders ordered by priority. The TreeSet is modelled as a strictly ordered
 * sequence; the hashCode tie-break between equal priorities is modelled by a unique holder id.
 */
module Listeners {
  import opened Wrappers
  import opened Entity
  import opened ReferenceStrength

  const INT_MIN: int := -0x8000_0000
  const INT_MAX: int := 0x7fff_ffff

  /** A Java `int`. */
  type Int32 = x: int | INT_MIN <= x <= INT_MAX

  type EventClass = nat
  type ListenerId = nat
  type BeanId = nat
  type MethodId = nat

  /** An event object: its identity and its concrete class (`event.getClass()`). */
  datatype Event = Event(id: nat, eventClass: EventClass)

  /** What a listener does when it is handed an event: return normally, or throw BroadcastInterruptionException. */
  datatype Reaction = Deliver | Interrupt

  /** The wrapper the registry keeps: an explicit listener, or an annotated method on a bean. */
  datatype ListenerWrapper =
    | DefaultListenerWrapper(wrapped: ListenerId)
    | ReflectiveListenerWrapper(bean: BeanId, handler: MethodId)

  /** One in-flight event and whether some listener has consumed it. */
  datatype Envelope = Envelope(event: Event, notified: bool)

  /**
   * `ListenerWrapper.onEvent`: the listener runs first, and the envelope is marked notified only
   * when it returns normally; an interruption leaves the envelope as it was.
   */
  function OnEvent(w: ListenerWrapper, envelope: Envelope, behaviour: (ListenerWrapper, Event) -> Reaction): (r: (Envelope, bool))
    ensures r.0.event == envelope.event
    ensures r.1 <==> behaviour(w, envelope.event) == Interrupt
    ensures r.0.notified <==> envelope.notified || behaviour(w, envelope.event) == Deliver
  {
    match behaviour(w, envelope.event)
    case Interrupt => (envelope, true)
    case Deliver => (Envelope(envelope.event, true), false)
  }

  /**
   * `DefaultListenerWrapper.equals(o)`: `o` is a DefaultListenerWrapper around an equal listener.
   * A null handle or a reflective wrapper never matches.
   */
  predicate WrapperEquals(w: ListenerWrapper, o: Option<ListenerWrapper>)
    requires w.DefaultListenerWrapper?
  {
    o.Some? && o.value.DefaultListenerWrapper? && w.wrapped == o.value.wrapped
  }

  lemma WrapperEqualsIsIdentity(l: ListenerId, o: Option<ListenerWrapper>)
    ensures WrapperEquals(DefaultListenerWrapper(l), o) <==> o == Some(DefaultListenerWrapper(l))
  {
  }

  /** `ListenerReferenceHolder`: a priority and a handle on a wrapper; `id` stands for its identity hash. */
  datatype Holder = ListenerReferenceHolder(priority: Int32, id: nat, reference: Entity<ListenerWrapper>)
  {
    function GetListenerWrapper(cleared: set<RefId>): Option<ListenerWrapper>
    {
      reference.Get(cleared)
    }
  }

  /** The strict order the TreeSet keeps: priority first, then the identity tie-break. */
  predicate Less(a: Holder, b: Holder)
  {
    a.priority < b.priority || (a.priority == b.priority && a.id < b.id)
  }

  /**
   * `ListenerReferenceHolder.compareTo`: ascending priority, ties broken by the identity hash,
   * and never 0 for two distinct holders.
   */
  function CompareTo(a: Holder, b: Holder): (r: int)
    ensures r < 0 <==> Less(a, b)
    ensures r > 0 <==> Less(b, a)
    ensures r == 0 <==> a.priority == b.priority && a.id == b.id
  {
    if a.priority < b.priority then -1
    else if a.priority > b.priority then 1
    else
      var retVal := a.id - b.id;
      // The hash-collision branch: with identities in place of hash codes it is never taken.
      if retVal == 0 && a.id != b.id then -1 else retVal
  }

  /** `compareTo` is a strict total order on holders: antisymmetric, transitive, total. */
  lemma CompareToIsTotalOrder(a: Holder, b: Holder, c: Holder)
    ensures CompareTo(a, b) < 0 <==> CompareTo(b, a) > 0
    ensures CompareTo(a, b) < 0 && CompareTo(b, c) < 0 ==> CompareTo(a, c) < 0
    ensures a.id != b.id ==> CompareTo(a, b) != 0
  {
  }

  /** A TreeSet's content: strictly increasing under `compareTo`. */
  ghost predicate Ordered(s: seq<Holder>)
  {
    forall i, j :: 0 <= i < j < |s| ==> Less(s[i], s[j])
  }

  /** The promise callers rely on: priorities never decrease along a snapshot. */
  ghost predicate PrioritySorted(s: seq<Holder>)
  {
    forall i, j :: 0 <= i < j < |s| ==> s[i].priority <= s[j].priority
  }

  ghost predicate IdsBelow(s: seq<Holder>, bound: nat)
  {
    forall i :: 0 <= i < |s| ==> s[i].id < bound
  }

  /** `TreeSet.add`: insert at the place the order asks for; an element comparing equal is kept instead. */
  function Insert(s: seq<Holder>, h: Holder): seq<Holder>
  {
    if s == [] then [h]
    else if CompareTo(h, s[0]) < 0 then [h] + s
    else if CompareTo(h, s[0]) == 0 then s
    else [s[0]] + Insert(s[1..], h)
  }

  /** `TreeSet.remove`: drop the element comparing equal to `h`, if there is one. */
  function RemoveElement(s: seq<Holder>, h: Holder): seq<Holder>
  {
    if s == [] then s
    else if CompareTo(h, s[0]) == 0 then s[1..]
    else [s[0]] + RemoveElement(s[1..], h)
  }

  predicate ContainsHolder(s: seq<Holder>, h: Holder)
  {
    exists i :: 0 <= i < |s| && CompareTo(h, s[i]) == 0
  }

  /**
   * Inserting a holder with a new identity keeps the set ordered, adds exactly that holder and
   * loses nothing, so equal priorities and repeated listeners are never merged.
   */
  lemma {:induction false} InsertNew(s: seq<Holder>, h: Holder, bound: nat)
    requires Ordered(s) && IdsBelow(s, bound) && h.id < bound + 1
    requires forall i :: 0 <= i < |s| ==> s[i].id != h.id
    ensures Ordered(Insert(s, h)) && IdsBelow(Insert(s, h), bound + 1)
    ensures multiset(Insert(s, h)) == multiset(s) + multiset{h}
    ensures |Insert(s, h)| == |s| + 1
  {
    if s != [] && CompareTo(h, s[0]) > 0 {
      InsertNew(s[1..], h, bound);
      var r := Insert(s[1..], h);
      assert s == [s[0]] + s[1..];
      forall j | 0 <= j < |r| ensures Less(s[0], r[j]) {
        assert r[j] in multiset(r);
        assert r[j] in multiset(s[1..]) || r[j] == h;
        if r[j] != h {
          var k :| 0 <= k < |s[1..]| && s[1..][k] == r[j];
          assert s[1..][k] == s[k + 1];
        }
      }
    }
  }

  /** In an ordered set, removing one of its members drops that position and nothing else. */
  lemma {:induction false} RemoveMember(s: seq<Holder>, k: nat)
    requires Ordered(s) && k < |s|
    ensures RemoveElement(s, s[k]) == s[..k] + s[k + 1..]
  {
    if k > 0 {
      assert Less(s[0], s[k]);
      RemoveMember(s[1..], k - 1);
      assert s[1..][k - 1] == s[k];
      assert s[1..][..k - 1] + s[1..][k..] == s[1..k] + s[k + 1..];
      assert [s[0]] + s[1..k] == s[..k];
    }
  }

  lemma {:induction false} RemoveAbsent(s: seq<Holder>, h: Holder)
    requires !ContainsHolder(s, h)
    ensures RemoveElement(s, h) == s
  {
    if s != [] {
      assert CompareTo(h, s[0]) != 0;
      assert !ContainsHolder(s[1..], h) by {
        forall i | 0 <= i < |s[1..]| ensures CompareTo(h, s[1..][i]) != 0 {
          assert s[1..][i] == s[i + 1];
        }
      }
      RemoveAbsent(s[1..], h);
    }
  }

  lemma SubsequenceOrdered(s: seq<Holder>, k: nat)
    requires Ordered(s) && k < |s|
    ensures Ordered(s[..k] + s[k + 1..])
  {
    var r := s[..k] + s[k + 1..];
    forall i, j | 0 <= i < j < |r| ensures Less(r[i], r[j]) {
      var i' := if i < k then i else i + 1;
      var j' := if j < k then j else j + 1;
      assert r[i] == s[i'] && r[j] == s[j'];
    }
  }

  lemma OrderedIsPrioritySorted(s: seq<Holder>)
    requires Ordered(s)
    ensures PrioritySorted(s)
  {
  }

  /** The registry: event class to its TreeSet of holders. */
  type Registry = map<EventClass, seq<Holder>>

  /**
   * What the registry keeps true between calls: no class is kept with an empty set, each set
   * is ordered, and every identity handed out so far is below `nextId`.
   */
  ghost predicate RegistryInv(reg: Registry, nextId: nat)
  {
    forall c :: c in reg ==> reg[c] != [] && Ordered(reg[c]) && IdsBelow(reg[c], nextId)
  }

  /** The holders of a class, or none when the class has no key. */
  function HoldersOf(reg: Registry, c: EventClass): seq<Holder>
  {
    if c in reg then reg[c] else []
  }

  /** The holder `add` builds for an explicit listener. */
  function NewHolder(listener: ListenerId, priority: Int32, strength: Strength, id: nat): (h: Holder)
    ensures h.priority == priority && h.id == id
    ensures h.reference.Referent() == Some(DefaultListenerWrapper(listener))
  {
    ListenerReferenceHolder(priority, id, GetReference(strength, Some(DefaultListenerWrapper(listener)), id))
  }

  /** A listener as the annotation processor describes it: the parameter class of the method and the annotation values. */
  datatype Descriptor = ReflectiveListenerDescriptor(eventClass: EventClass, handler: MethodId, priority: Int32, strength: Strength)

  /** The holder `addAll` builds for one annotated method of `bean`. */
  function NewReflectiveHolder(d: Descriptor, bean: BeanId, id: nat): (h: Holder)
    ensures h.priority == d.priority && h.id == id
    ensures h.reference.Referent() == Some(ReflectiveListenerWrapper(bean, d.handler))
  {
    ListenerReferenceHolder(d.priority, id, GetReference(d.strength, Some(ReflectiveListenerWrapper(bean, d.handler)), id))
  }

  /** The registry after `addAll` has inserted the descriptors of `ds`, the i-th with identity `nextId + i`. */
  function AddEntries(reg: Registry, nextId: nat, bean: BeanId, ds: seq<Descriptor>): Registry
    decreases |ds|
  {
    if ds == [] then reg
    else
      var prev := AddEntries(reg, nextId, bean, ds[..|ds| - 1]);
      var d := ds[|ds| - 1];
      prev[d.eventClass := Insert(HoldersOf(prev, d.eventClass), NewReflectiveHolder(d, bean, nextId + |ds| - 1))]
  }

  /** The number of descriptors of `ds` listening to class `c`. */
  function CountFor(ds: seq<Descriptor>, c: EventClass): nat
  {
    if ds == [] then 0
    else CountFor(ds[..|ds| - 1], c) + (if ds[|ds| - 1].eventClass == c then 1 else 0)
  }

  function ClassesOf(ds: seq<Descriptor>): set<EventClass>
  {
    set i | 0 <= i < |ds| :: ds[i].eventClass
  }

  lemma ClassesOfSnoc(ds: seq<Descriptor>)
    requires ds != []
    ensures ClassesOf(ds) == ClassesOf(ds[..|ds| - 1]) + {ds[|ds| - 1].eventClass}
  {
    var init := ds[..|ds| - 1];
    forall c | c in ClassesOf(ds) ensures c in ClassesOf(init) + {ds[|ds| - 1].eventClass} {
      var i :| 0 <= i < |ds| && ds[i].eventClass == c;
      if i < |ds| - 1 { assert init[i] == ds[i]; }
    }
    forall c | c in ClassesOf(init) ensures c in ClassesOf(ds) {
      var i :| 0 <= i < |init| && init[i].eventClass == c;
      assert ds[i] == init[i];
    }
  }

  /** Every step of `addAll` keeps the registry's invariant, with identities below the next free one. */
  lemma {:induction false} AddEntriesInv(reg: Registry, nextId: nat, bean: BeanId, ds: seq<Descriptor>)
    requires RegistryInv(reg, nextId)
    ensures RegistryInv(AddEntries(reg, nextId, bean, ds), nextId + |ds|)
    ensures AddEntries(reg, nextId, bean, ds).Keys == reg.Keys + ClassesOf(ds)
    decreases |ds|
  {
    if ds != [] {
      var init := ds[..|ds| - 1];
      AddEntriesInv(reg, nextId, bean, init);
      var prev := AddEntries(reg, nextId, bean, init);
      var d := ds[|ds| - 1];
      var s := HoldersOf(prev, d.eventClass);
      InsertNew(s, NewReflectiveHolder(d, bean, nextId + |ds| - 1), nextId + |ds| - 1);
      ClassesOfSnoc(ds);
      forall c | c in prev && c != d.eventClass ensures IdsBelow(prev[c], nextId + |ds|) { }
    }
  }

  /**
   * `addAll` adds one holder per descriptor and never merges: every class gains exactly as many
   * holders as it has descriptors and keeps every holder it had.
   */
  lemma {:induction false} AddEntriesGrows(reg: Registry, nextId: nat, bean: BeanId, ds: seq<Descriptor>, c: EventClass)
    requires RegistryInv(reg, nextId)
    ensures |HoldersOf(AddEntries(reg, nextId, bean, ds), c)| == |HoldersOf(reg, c)| + CountFor(ds, c)
    ensures multiset(HoldersOf(reg, c)) <= multiset(HoldersOf(AddEntries(reg, nextId, bean, ds), c))
    decreases |ds|
  {
    if ds != [] {
      var init := ds[..|ds| - 1];
      AddEntriesGrows(reg, nextId, bean, init, c);
      AddEntriesInv(reg, nextId, bean, init);
      var prev := AddEntries(reg, nextId, bean, init);
      var d := ds[|ds| - 1];
      if d.eventClass == c {
        InsertNew(HoldersOf(prev, c), NewReflectiveHolder(d, bean, nextId + |ds| - 1), nextId + |ds| - 1);
      }
    }
  }

  /** The first holder, in set order, whose live wrapper equals the explicit `listener`. */
  function FirstMatch(s: seq<Holder>, listener: ListenerId, cleared: set<RefId>): (r: Option<nat>)
    ensures r.Some? ==> r.value < |s| && WrapperEquals(DefaultListenerWrapper(listener), s[r.value].GetListenerWrapper(cleared))
    ensures r.Some? ==> forall j :: 0 <= j < r.value ==> !WrapperEquals(DefaultListenerWrapper(listener), s[j].GetListenerWrapper(cleared))
    ensures r.None? ==> forall j :: 0 <= j < |s| ==> !WrapperEquals(DefaultListenerWrapper(listener), s[j].GetListenerWrapper(cleared))
  {
    if s == [] then None
    else if WrapperEquals(DefaultListenerWrapper(listener), s[0].GetListenerWrapper(cleared)) then Some(0)
    else match FirstMatch(s[1..], listener, cleared)
      case None => None
      case Some(k) => Some(k + 1)
  }

  datatype Removal = Removal(registry: Registry, removed: bool)

  /** `removeListenerAndSetIfNeeded`: remove `h` from the set of `c`, and the key too once the set is empty. */
  function RemoveFromSet(reg: Registry, c: EventClass, h: Holder): Removal
    requires c in reg
  {
    if ContainsHolder(reg[c], h) then
      var s := RemoveElement(reg[c], h);
      Removal(if s == [] then reg - {c} else reg[c := s], true)
    else Removal(reg, false)
  }

  /** `remove(eventClass, holder)`: remove that exact holder. */
  function RemoveHolderSpec(reg: Registry, c: EventClass, h: Holder): Removal
  {
    if c in reg then RemoveFromSet(reg, c, h) else Removal(reg, false)
  }

  /** `remove(eventClass, listener)`: remove the first holder whose live wrapper equals the listener. */
  function RemoveListenerSpec(reg: Registry, c: EventClass, listener: ListenerId, cleared: set<RefId>): Removal
  {
    if c !in reg then Removal(reg, false)
    else match FirstMatch(reg[c], listener, cleared)
      case None => Removal(reg, false)
      case Some(k) => RemoveFromSet(reg, c, reg[c][k])
  }

  /**
   * Removing a member of an ordered set drops exactly that holder; the key goes when nothing is
   * left, and every other class is untouched.
   */
  lemma RemoveMemberFromRegistry(reg: Registry, nextId: nat, c: EventClass, k: nat)
    requires RegistryInv(reg, nextId) && c in reg && k < |reg[c]|
    ensures var r := RemoveFromSet(reg, c, reg[c][k]);
      && r.removed
      && RegistryInv(r.registry, nextId)
      && HoldersOf(r.registry, c) == reg[c][..k] + reg[c][k + 1..]
      && (c in r.registry <==> |reg[c]| > 1)
      && forall d :: d != c ==> HoldersOf(r.registry, d) == HoldersOf(reg, d)
  {
    var s := reg[c];
    assert CompareTo(s[k], s[k]) == 0;
    RemoveMember(s, k);
    SubsequenceOrdered(s, k);
  }

  /**
   * `remove(class, listener)` removes only the first live holder, in priority order, whose wrapper
   * equals the listener and answers true; with no such holder it answers false and changes nothing.
   * Handles that resolve to null never match.
   */
  lemma RemoveListenerFirstOnly(reg: Registry, nextId: nat, c: EventClass, listener: ListenerId, cleared: set<RefId>)
    requires RegistryInv(reg, nextId)
    ensures var r := RemoveListenerSpec(reg, c, listener, cleared);
      && RegistryInv(r.registry, nextId)
      && (r.removed <==> exists j :: 0 <= j < |HoldersOf(reg, c)| && HoldersOf(reg, c)[j].GetListenerWrapper(cleared) == Some(DefaultListenerWrapper(listener)))
      && (!r.removed ==> r.registry == reg)
      && (r.removed ==>
            exists k ::
              && 0 <= k < |reg[c]|
              && reg[c][k].GetListenerWrapper(cleared) == Some(DefaultListenerWrapper(listener))
              && (forall j :: 0 <= j < k ==> reg[c][j].GetListenerWrapper(cleared) != Some(DefaultListenerWrapper(listener)))
              && HoldersOf(r.registry, c) == reg[c][..k] + reg[c][k + 1..])
      && forall d :: d != c ==> HoldersOf(r.registry, d) == HoldersOf(reg, d)
  {
    forall o: Option<ListenerWrapper> { WrapperEqualsIsIdentity(listener, o); }
    if c in reg {
      match FirstMatch(reg[c], listener, cleared)
      case None =>
      case Some(k) =>
        RemoveMemberFromRegistry(reg, nextId, c, k);
        assert HoldersOf(reg, c)[k].GetListenerWrapper(cleared) == Some(DefaultListenerWrapper(listener));
    }
  }

  lemma {:induction false} RemoveElementByIdentity(s: seq<Holder>, h: Holder, h': Holder)
    requires h.priority == h'.priority && h.id == h'.id
    ensures RemoveElement(s, h) == RemoveElement(s, h')
  {
    if s != [] { RemoveElementByIdentity(s[1..], h, h'); }
  }

  /**
   * `remove(class, holder)` drops the registered holder with that identity, when there is one,
   * and otherwise changes nothing.
   */
  lemma RemoveHolderExact(reg: Registry, nextId: nat, c: EventClass, h: Holder)
    requires RegistryInv(reg, nextId)
    ensures var r := RemoveHolderSpec(reg, c, h);
      && RegistryInv(r.registry, nextId)
      && (r.removed <==> ContainsHolder(HoldersOf(reg, c), h))
      && (!r.removed ==> r.registry == reg)
      && (r.removed ==>
            exists k ::
              && 0 <= k < |reg[c]|
              && CompareTo(h, reg[c][k]) == 0
              && HoldersOf(r.registry, c) == reg[c][..k] + reg[c][k + 1..])
      && forall d :: d != c ==> HoldersOf(r.registry, d) == HoldersOf(reg, d)
  {
    if c in reg {
      var s := reg[c];
      if ContainsHolder(s, h) {
        var k :| 0 <= k < |s| && CompareTo(h, s[k]) == 0;
        RemoveMemberFromRegistry(reg, nextId, c, k);
        RemoveElementByIdentity(s, h, s[k]);
      } else {
        RemoveAbsent(s, h);
      }
    }
  }

  /** The registry after `add` has inserted a holder for an explicit listener. */
  function AddSpec(reg: Registry, nextId: nat, c: EventClass, listener: ListenerId, priority: Int32, strength: Strength): Registry
  {
    reg[c := Insert(HoldersOf(reg, c), NewHolder(listener, priority, strength, nextId))]
  }

  /**
   * `add` never rejects or merges: the class gains exactly one holder, keeps all it had, the new
   * holder wraps the listener with the given priority, and other classes are untouched.
   */
  lemma AddSpecGrows(reg: Registry, nextId: nat, c: EventClass, listener: ListenerId, priority: Int32, strength: Strength)
    requires RegistryInv(reg, nextId)
    ensures var r := AddSpec(reg, nextId, c, listener, priority, strength);
      && RegistryInv(r, nextId + 1)
      && |HoldersOf(r, c)| == |HoldersOf(reg, c)| + 1
      && multiset(HoldersOf(r, c)) == multiset(HoldersOf(reg, c)) + multiset{NewHolder(listener, priority, strength, nextId)}
      && forall d :: d != c ==> HoldersOf(r, d) == HoldersOf(reg, d)
  {
    InsertNew(HoldersOf(reg, c), NewHolder(listener, priority, strength, nextId), nextId);
  }

  /** Registering the same listener twice, at any priorities, leaves two holders for it. */
  lemma AddSameListenerTwice(c: EventClass, listener: ListenerId, p1: Int32, p2: Int32)
    ensures var r := AddSpec(AddSpec(map[], 0, c, listener, p1, STRONG), 1, c, listener, p2, STRONG);
      |HoldersOf(r, c)| == 2
  {
    AddSpecGrows(map[], 0, c, listener, p1, STRONG);
    AddSpecGrows(AddSpec(map[], 0, c, listener, p1, STRONG), 1, c, listener, p2, STRONG);
  }

  /** The registry object: a map from event class to its holders, mutated in place by its methods. */
  class Listeners {
    var listeners: Registry
    /** The next identity to hand out; stands for the identity hash of a new holder. */
    var nextId: nat

    ghost predicate Valid()
      reads this
    {
      RegistryInv(listeners, nextId)
    }

    constructor ()
      ensures Valid() && listeners == map[] && nextId == 0
    {
      listeners := map[];
      nextId := 0;
    }

    /** `nullSafeGetListenerHolders`: the set of the class, put in the map empty when it is missing. */
    method NullSafeGetListenerHolders(c: EventClass) returns (holders: seq<Holder>)
      modifies this`listeners
      ensures holders == HoldersOf(old(listeners), c)
      ensures listeners == old(listeners)[c := holders]
    {
      if c in listeners {
        holders := listeners[c];
      } else {
        holders := [];
        listeners := listeners[c := holders];
      }
    }

    /** `add`: wrap the listener, build its handle with the given strength and insert it in the holders of its class. */
    method Add(c: EventClass, listener: ListenerId, priority: Int32, strength: Strength)
      requires Valid()
      modifies this
      ensures Valid()
      ensures nextId == old(nextId) + 1
      ensures listeners == AddSpec(old(listeners), old(nextId), c, listener, priority, strength)
    {
      ghost var spec := AddSpec(listeners, nextId, c, listener, priority, strength);
      AddSpecGrows(listeners, nextId, c, listener, priority, strength);
      var holders := NullSafeGetListenerHolders(c);
      listeners := listeners[c := Insert(holders, NewHolder(listener, priority, strength, nextId))];
      assert listeners == spec;
      nextId := nextId + 1;
    }

    /** `addAll`: one holder per descriptor, all under one lock; answers the classes that gained a holder. */
    method AddAll(bean: BeanId, descriptors: seq<Descriptor>) returns (updated: set<EventClass>)
      requires Valid()
      modifies this
      ensures Valid()
      ensures nextId == old(nextId) + |descriptors|
      ensures listeners == AddEntries(old(listeners), old(nextId), bean, descriptors)
      ensures updated == ClassesOf(descriptors)
    {
      updated := {};
      var i := 0;
      while i < |descriptors|
        invariant 0 <= i <= |descriptors|
        invariant nextId == old(nextId) + i
        invariant listeners == AddEntries(old(listeners), old(nextId), bean, descriptors[..i])
        invariant updated == ClassesOf(descriptors[..i])
      {
        var current := descriptors[i];
        assert descriptors[..i + 1][..i] == descriptors[..i];
        ghost var next := AddEntries(old(listeners), old(nextId), bean, descriptors[..i + 1]);
        assert next == listeners[current.eventClass := Insert(HoldersOf(listeners, current.eventClass), NewReflectiveHolder(current, bean, nextId))];
        ClassesOfSnoc(descriptors[..i + 1]);
        var holders := NullSafeGetListenerHolders(current.eventClass);
        listeners := listeners[current.eventClass := Insert(holders, NewReflectiveHolder(current, bean, nextId))];
        assert listeners == next;
        nextId := nextId + 1;
        updated := updated + {current.eventClass};
        i := i + 1;
      }
      assert descriptors[..i] == descriptors;
      AddEntriesInv(old(listeners), old(nextId), bean, descriptors);
    }

    /** `removeListenerAndSetIfNeeded`: remove the holder from the holders, and the key once the holders is empty. */
    method RemoveListenerAndSetIfNeeded(c: EventClass, h: Holder, holders: seq<Holder>) returns (removed: bool)
      requires c in listeners && holders == listeners[c]
      modifies this`listeners
      ensures Removal(listeners, removed) == RemoveFromSet(old(listeners), c, h)
    {
      if ContainsHolder(holders, h) {
        var rest := RemoveElement(holders, h);
        if rest == [] {
          listeners := listeners - {c};
        } else {
          listeners := listeners[c := rest];
        }
        removed := true;
      } else {
        removed := false;
      }
    }

    /** `remove(eventClass, listener)`: walk the holders in order and remove the first live holder wrapping an equal listener. */
    method Remove(c: EventClass, listener: ListenerId, cleared: set<RefId>) returns (removed: bool)
      requires Valid()
      modifies this`listeners
      ensures Valid()
      ensures Removal(listeners, removed) == RemoveListenerSpec(old(listeners), c, listener, cleared)
    {
      RemoveListenerFirstOnly(listeners, nextId, c, listener, cleared);
      if c in listeners {
        var holders := listeners[c];
        var wrapper := DefaultListenerWrapper(listener);
        var i := 0;
        while i < |holders|
          invariant 0 <= i <= |holders|
          invariant forall j :: 0 <= j < i ==> !WrapperEquals(wrapper, holders[j].GetListenerWrapper(cleared))
        {
          if WrapperEquals(wrapper, holders[i].GetListenerWrapper(cleared)) {
            removed := RemoveListenerAndSetIfNeeded(c, holders[i], holders);
            return;
          }
          i := i + 1;
        }
        return false;
      }
      return false;
    }

    /** `remove(eventClass, holder)`: remove that exact holder. */
    method RemoveHolder(c: EventClass, h: Holder) returns (removed: bool)
      requires Valid()
      modifies this`listeners
      ensures Valid()
      ensures Removal(listeners, removed) == RemoveHolderSpec(old(listeners), c, h)
    {
      RemoveHolderExact(listeners, nextId, c, h);
      if c in listeners {
        removed := RemoveListenerAndSetIfNeeded(c, h, listeners[c]);
      } else {
        removed := false;
      }
    }

    /**
     * `nullSafeGetListeners`: a copy of the set of the class, in ascending priority; an
     * unknown class gives an empty list and no key is created.
     */
    method NullSafeGetListeners(c: EventClass) returns (snapshot: seq<Holder>)
      requires Valid()
      ensures snapshot == HoldersOf(listeners, c)
      ensures snapshot == [] <==> c !in listeners
      ensures PrioritySorted(snapshot)
    {
      if c !in listeners {
        return [];
      }
      snapshot := listeners[c];
    }
  }
}
