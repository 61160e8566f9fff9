/**
 * The listener registry of the earlier package (org/eventstudio/Listeners.java): for every event
 * class, a LinkedList of holders in insertion order; a dispatch takes a TreeSet copy of it, sorted
 * by a `compareTo` that subtracts Java `int`s and so can overflow.
 */
module LegacyListeners {
  import opened Wrappers
  import opened Entity
  import opened ReferenceStrength
  import opened Listeners

  const TWO_32: int := 0x1_0000_0000

  /** Java `int` arithmetic: the exact value reduced, two's complement, into the 32-bit range. */
  function Wrap32(x: int): (r: Int32)
    ensures (x - r) % TWO_32 == 0
    ensures INT_MIN <= x <= INT_MAX ==> r == x
  {
    (x - INT_MIN) % TWO_32 + INT_MIN
  }

  /** The difference of two `int`s is 0 in `int` arithmetic exactly when they are equal. */
  lemma Wrap32OfDifference(x: Int32, y: Int32)
    ensures Wrap32(x - y) == 0 <==> x == y
  {
    var d := x - y;
    if d > INT_MAX {
      assert (d - INT_MIN) % TWO_32 == d - INT_MIN - TWO_32;
    } else if d < INT_MIN {
      assert (d - INT_MIN) % TWO_32 == d - INT_MIN + TWO_32;
    }
  }

  /**
   * The legacy `ListenerReferenceHolder`: a priority and a handle; `hash` is its identity hash
   * code, which two holders may share, and `id` its identity, which `equals` compares.
   */
  datatype LegacyHolder = LegacyHolder(priority: Int32, hash: Int32, id: nat, reference: Entity<ListenerWrapper>)
  {
    function GetListenerWrapper(cleared: set<RefId>): Option<ListenerWrapper>
    {
      reference.Get(cleared)
    }
  }

  /**
   * `compareTo` as written: the `int` difference of the priorities, then of the hash codes, and 1
   * for two distinct holders that still compare 0. It is 0 only for the holder itself.
   */
  function LegacyCompareTo(a: LegacyHolder, b: LegacyHolder): (r: Int32)
    ensures r == 0 <==> a == b
  {
    Wrap32OfDifference(a.priority, b.priority);
    Wrap32OfDifference(a.hash, b.hash);
    var retVal := Wrap32(a.priority - b.priority);
    if retVal != 0 then retVal
    else
      var tie := Wrap32(a.hash - b.hash);
      if tie == 0 && a != b then 1 else tie
  }

  /** The same holder under the corrected comparator of the later package. */
  function Corrected(h: LegacyHolder): Holder
  {
    ListenerReferenceHolder(h.priority, h.id, h.reference)
  }

  /**
   * The subtraction overflows: a holder of priority INT_MIN compares after one of priority 1, so
   * the most urgent listener is sorted behind a lower-priority one; the corrected `compareTo`
   * sorts them the other way.
   */
  lemma LegacyCompareToOverflows(a: LegacyHolder, b: LegacyHolder)
    requires a.priority == INT_MIN && b.priority == 1
    ensures LegacyCompareTo(a, b) > 0 && LegacyCompareTo(b, a) < 0
    ensures CompareTo(Corrected(a), Corrected(b)) < 0 && CompareTo(Corrected(b), Corrected(a)) > 0
  {
    assert Wrap32(INT_MIN - 1) == INT_MAX;
    assert Wrap32(1 - INT_MIN) == INT_MIN + 1;
  }

  /** Because of the overflow the legacy comparator is not transitive: INT_MIN < 0 < 1 < INT_MIN. */
  lemma LegacyCompareToNotTransitive(a: LegacyHolder, b: LegacyHolder, c: LegacyHolder)
    requires a.priority == INT_MIN && b.priority == 0 && c.priority == 1
    ensures LegacyCompareTo(a, b) < 0 && LegacyCompareTo(b, c) < 0 && LegacyCompareTo(a, c) > 0
  {
    assert Wrap32(INT_MIN - 0) == INT_MIN;
    assert Wrap32(0 - 1) == -1;
    assert Wrap32(INT_MIN - 1) == INT_MAX;
  }

  /** A priority far enough from the ends of the `int` range that differences of two cannot overflow. */
  predicate SafePriority(p: Int32)
  {
    -0x4000_0000 <= p < 0x4000_0000
  }

  /** Away from the ends of the range the legacy comparator orders holders by priority, as intended. */
  lemma LegacyCompareToFollowsPriority(a: LegacyHolder, b: LegacyHolder)
    requires SafePriority(a.priority) && SafePriority(b.priority)
    ensures a.priority < b.priority ==> LegacyCompareTo(a, b) < 0
    ensures a.priority > b.priority ==> LegacyCompareTo(a, b) > 0
  {
  }

  /**
   * `TreeSet.add` under the legacy comparator: the holder goes before the first element it
   * compares below; an element comparing 0, the holder itself, is kept instead.
   */
  function LegacyInsert(s: seq<LegacyHolder>, h: LegacyHolder): seq<LegacyHolder>
  {
    if s == [] then [h]
    else if LegacyCompareTo(h, s[0]) < 0 then [h] + s
    else if LegacyCompareTo(h, s[0]) == 0 then s
    else [s[0]] + LegacyInsert(s[1..], h)
  }

  /** `new TreeSet<>(list)`: the holders of `s` added one by one, in list order. */
  function LegacySorted(s: seq<LegacyHolder>): seq<LegacyHolder>
    decreases |s|
  {
    if s == [] then [] else LegacyInsert(LegacySorted(s[..|s| - 1]), s[|s| - 1])
  }

  ghost predicate LegacyPrioritySorted(s: seq<LegacyHolder>)
  {
    forall i, j :: 0 <= i < j < |s| ==> s[i].priority <= s[j].priority
  }

  ghost predicate SafePriorities(s: seq<LegacyHolder>)
  {
    forall i :: 0 <= i < |s| ==> SafePriority(s[i].priority)
  }

  lemma {:induction false} LegacyInsertMembers(s: seq<LegacyHolder>, h: LegacyHolder)
    ensures forall x :: x in LegacyInsert(s, h) <==> x in s || x == h
  {
    if s != [] && LegacyCompareTo(h, s[0]) > 0 {
      LegacyInsertMembers(s[1..], h);
      assert s == [s[0]] + s[1..];
    }
  }

  /** The TreeSet copy holds exactly the holders of the list: none disappears, none is added. */
  lemma {:induction false} LegacySortedMembers(s: seq<LegacyHolder>)
    ensures forall x :: x in LegacySorted(s) <==> x in s
    decreases |s|
  {
    if s != [] {
      var init := s[..|s| - 1];
      LegacySortedMembers(init);
      LegacyInsertMembers(LegacySorted(init), s[|s| - 1]);
      assert s == init + [s[|s| - 1]];
    }
  }

  lemma {:induction false} LegacyInsertSorted(s: seq<LegacyHolder>, h: LegacyHolder)
    requires LegacyPrioritySorted(s) && SafePriorities(s) && SafePriority(h.priority)
    ensures LegacyPrioritySorted(LegacyInsert(s, h)) && SafePriorities(LegacyInsert(s, h))
  {
    if s != [] {
      LegacyCompareToFollowsPriority(h, s[0]);
      if LegacyCompareTo(h, s[0]) > 0 {
        var t := s[1..];
        assert LegacyPrioritySorted(t) && SafePriorities(t) by {
          forall i | 0 <= i < |t| ensures t[i] == s[i + 1] { }
        }
        LegacyInsertSorted(t, h);
        LegacyInsertMembers(t, h);
        var r := LegacyInsert(t, h);
        forall j | 0 <= j < |r| ensures s[0].priority <= r[j].priority {
          assert r[j] in r;
          if r[j] != h {
            var k :| 0 <= k < |t| && t[k] == r[j];
            assert t[k] == s[k + 1];
          }
        }
      }
    }
  }

  /**
   * With every priority away from the ends of the `int` range, the TreeSet copy lists the
   * holders by non-decreasing priority, the order listeners are notified in.
   */
  lemma {:induction false} LegacySortedByPriority(s: seq<LegacyHolder>)
    requires SafePriorities(s)
    ensures LegacyPrioritySorted(LegacySorted(s))
    ensures SafePriorities(LegacySorted(s))
    decreases |s|
  {
    if s != [] {
      var init := s[..|s| - 1];
      assert SafePriorities(init) by {
        forall i | 0 <= i < |init| ensures init[i] == s[i] { }
      }
      LegacySortedByPriority(init);
      LegacyInsertSorted(LegacySorted(init), s[|s| - 1]);
    }
  }

  /**
   * With the overflow, a listener registered at INT_MIN before one at priority 1 is placed after
   * it in the TreeSet copy, so it is notified second instead of first.
   */
  lemma LegacySnapshotMisorders(a: LegacyHolder, b: LegacyHolder)
    requires a.priority == INT_MIN && b.priority == 1
    ensures LegacySorted([a, b]) == [b, a]
    ensures Insert(Insert([], Corrected(a)), Corrected(b)) == [Corrected(a), Corrected(b)]
  {
    LegacyCompareToOverflows(a, b);
    assert [a, b][..1] == [a];
    assert [a][..0] == [];
    assert LegacySorted([a]) == [a];
  }

  /** The registry: event class to the list of its holders, in insertion order. */
  type LegacyRegistry = map<EventClass, seq<LegacyHolder>>

  function LegacyHoldersOf(reg: LegacyRegistry, c: EventClass): seq<LegacyHolder>
  {
    if c in reg then reg[c] else []
  }

  /** The holder `add` builds: the wrapped listener behind a handle of the given strength. */
  function LegacyNewHolder(listener: ListenerId, priority: Int32, strength: Strength, hash: Int32, id: nat): (h: LegacyHolder)
    ensures h.priority == priority && h.hash == hash && h.id == id
    ensures h.reference.Referent() == Some(DefaultListenerWrapper(listener))
  {
    LegacyHolder(priority, hash, id, GetReference(strength, Some(DefaultListenerWrapper(listener)), id))
  }

  /** `add`: the list of the class, created when missing, gains the holder at its end. */
  function LegacyAddSpec(reg: LegacyRegistry, c: EventClass, h: LegacyHolder): LegacyRegistry
  {
    reg[c := LegacyHoldersOf(reg, c) + [h]]
  }

  /**
   * `add` never merges or reorders: the holder is appended after every holder of its class,
   * whatever its priority, and every other class keeps its list.
   */
  lemma LegacyAddAppends(reg: LegacyRegistry, c: EventClass, h: LegacyHolder)
    ensures var r := LegacyAddSpec(reg, c, h);
      && c in r && |r[c]| == |LegacyHoldersOf(reg, c)| + 1
      && r[c][|r[c]| - 1] == h && r[c][..|r[c]| - 1] == LegacyHoldersOf(reg, c)
      && forall d :: d != c ==> LegacyHoldersOf(r, d) == LegacyHoldersOf(reg, d)
  {
  }

  /** `LinkedList.remove(o)`: drop the first element equal to `h`, if any. */
  function RemoveFirst(s: seq<LegacyHolder>, h: LegacyHolder): seq<LegacyHolder>
  {
    if s == [] then s
    else if s[0] == h then s[1..]
    else [s[0]] + RemoveFirst(s[1..], h)
  }

  lemma {:induction false} RemoveFirstAt(s: seq<LegacyHolder>, k: nat)
    requires k < |s| && forall j :: 0 <= j < k ==> s[j] != s[k]
    ensures RemoveFirst(s, s[k]) == s[..k] + s[k + 1..]
  {
    if k > 0 {
      RemoveFirstAt(s[1..], k - 1);
      assert s[1..][k - 1] == s[k];
      assert s[1..][..k - 1] + s[1..][k..] == s[1..k] + s[k + 1..];
      assert [s[0]] + s[1..k] == s[..k];
    }
  }

  datatype LegacyRemoval = LegacyRemoval(registry: LegacyRegistry, removed: bool)

  /** `removeListenerAndSetIfNeeded`: remove `h` from the list of `c`, and the key too once the list is empty. */
  function LegacyRemoveFromList(reg: LegacyRegistry, c: EventClass, h: LegacyHolder): LegacyRemoval
    requires c in reg
  {
    if h in reg[c] then
      var s := RemoveFirst(reg[c], h);
      LegacyRemoval(if s == [] then reg - {c} else reg[c := s], true)
    else LegacyRemoval(reg, false)
  }

  /** `remove(eventClass, holder)`: remove that very holder, when the class has a list. */
  function LegacyRemoveHolderSpec(reg: LegacyRegistry, c: EventClass, h: LegacyHolder): LegacyRemoval
  {
    if c in reg then LegacyRemoveFromList(reg, c, h) else LegacyRemoval(reg, false)
  }

  /** The first holder, in insertion order, whose live wrapper equals the explicit `listener`: the search of the later package, run over the list itself. */
  function LegacyFirstMatch(s: seq<LegacyHolder>, listener: ListenerId, cleared: set<RefId>): (r: Option<nat>)
    ensures r.Some? ==> r.value < |s| && WrapperEquals(DefaultListenerWrapper(listener), s[r.value].GetListenerWrapper(cleared))
    ensures r.Some? ==> forall j :: 0 <= j < r.value ==> !WrapperEquals(DefaultListenerWrapper(listener), s[j].GetListenerWrapper(cleared))
    ensures r.None? ==> forall j :: 0 <= j < |s| ==> !WrapperEquals(DefaultListenerWrapper(listener), s[j].GetListenerWrapper(cleared))
  {
    var t := seq(|s|, i requires 0 <= i < |s| => Corrected(s[i]));
    assert forall j :: 0 <= j < |s| ==> t[j].GetListenerWrapper(cleared) == s[j].GetListenerWrapper(cleared);
    FirstMatch(t, listener, cleared)
  }

  /** `remove(eventClass, listener)`: remove the first holder of the list whose wrapper equals the listener's. */
  function LegacyRemoveListenerSpec(reg: LegacyRegistry, c: EventClass, listener: ListenerId, cleared: set<RefId>): LegacyRemoval
  {
    if c !in reg then LegacyRemoval(reg, false)
    else match LegacyFirstMatch(reg[c], listener, cleared)
      case None => LegacyRemoval(reg, false)
      case Some(k) => LegacyRemoveFromList(reg, c, reg[c][k])
  }

  /**
   * `remove(class, listener)` removes the first live holder, in insertion order, whose wrapper
   * equals the listener and answers true; the key goes when the list becomes empty. With no
   * such holder it answers false and changes nothing. Other classes are untouched.
   */
  lemma LegacyRemoveListenerFirstOnly(reg: LegacyRegistry, c: EventClass, listener: ListenerId, cleared: set<RefId>)
    ensures var r := LegacyRemoveListenerSpec(reg, c, listener, cleared);
      && (r.removed <==> exists j :: 0 <= j < |LegacyHoldersOf(reg, c)| && LegacyHoldersOf(reg, c)[j].GetListenerWrapper(cleared) == Some(DefaultListenerWrapper(listener)))
      && (!r.removed ==> r.registry == reg)
      && (r.removed ==>
            exists k ::
              && 0 <= k < |reg[c]|
              && reg[c][k].GetListenerWrapper(cleared) == Some(DefaultListenerWrapper(listener))
              && (forall j :: 0 <= j < k ==> reg[c][j].GetListenerWrapper(cleared) != Some(DefaultListenerWrapper(listener)))
              && LegacyHoldersOf(r.registry, c) == reg[c][..k] + reg[c][k + 1..]
              && (c in r.registry <==> |reg[c]| > 1))
      && forall d :: d != c ==> LegacyHoldersOf(r.registry, d) == LegacyHoldersOf(reg, d)
  {
    forall o: Option<ListenerWrapper> { WrapperEqualsIsIdentity(listener, o); }
    if c in reg {
      var s := reg[c];
      match LegacyFirstMatch(s, listener, cleared)
      case None =>
      case Some(k) =>
        RemoveFirstAt(s, k);
        assert s[k] in s;
        assert LegacyHoldersOf(reg, c)[k].GetListenerWrapper(cleared) == Some(DefaultListenerWrapper(listener));
    }
  }

  /**
   * `remove(class, holder)` drops the first occurrence of that holder and answers true when the
   * list of the class has it, and otherwise answers false and changes nothing.
   */
  lemma LegacyRemoveHolderExact(reg: LegacyRegistry, c: EventClass, h: LegacyHolder)
    ensures var r := LegacyRemoveHolderSpec(reg, c, h);
      && (r.removed <==> h in LegacyHoldersOf(reg, c))
      && (!r.removed ==> r.registry == reg)
      && (r.removed ==>
            exists k ::
              && 0 <= k < |reg[c]| && reg[c][k] == h
              && (forall j :: 0 <= j < k ==> reg[c][j] != h)
              && LegacyHoldersOf(r.registry, c) == reg[c][..k] + reg[c][k + 1..]
              && (c in r.registry <==> |reg[c]| > 1))
      && forall d :: d != c ==> LegacyHoldersOf(r.registry, d) == LegacyHoldersOf(reg, d)
  {
    if c in reg && h in reg[c] {
      var k := FirstIndex(reg[c], h);
      RemoveFirstAt(reg[c], k);
    }
  }

  function FirstIndex(s: seq<LegacyHolder>, h: LegacyHolder): (k: nat)
    requires h in s
    ensures k < |s| && s[k] == h && forall j :: 0 <= j < k ==> s[j] != h
  {
    if s[0] == h then 0 else FirstIndex(s[1..], h) + 1
  }

  /**
   * `nullSafeGetListeners`: a class without a list gets an empty one put in the map; the answer is
   * a TreeSet copy of the list.
   */
  function LegacySnapshotSpec(reg: LegacyRegistry, c: EventClass): (LegacyRegistry, seq<LegacyHolder>)
  {
    (if c in reg then reg else reg[c := []], LegacySorted(LegacyHoldersOf(reg, c)))
  }

  /** The registry object of the earlier package, updated in place. */
  class LegacyListeners {
    var listeners: LegacyRegistry
    /** The next identity to hand out to a new holder. */
    var nextId: nat

    constructor ()
      ensures listeners == map[] && nextId == 0
    {
      listeners := map[];
      nextId := 0;
    }

    /**
     * `add`: append a holder for the listener to the list of its class, creating the list when
     * missing; `hash` is the identity hash code the new holder gets.
     */
    method Add(c: EventClass, listener: ListenerId, priority: Int32, strength: Strength, hash: Int32)
      modifies this
      ensures listeners == LegacyAddSpec(old(listeners), c, LegacyNewHolder(listener, priority, strength, hash, old(nextId)))
      ensures nextId == old(nextId) + 1
    {
      var list := if c in listeners then listeners[c] else [];
      listeners := listeners[c := list + [LegacyNewHolder(listener, priority, strength, hash, nextId)]];
      nextId := nextId + 1;
    }

    /** `removeListenerAndSetIfNeeded`: remove the holder from the list, and the list from the map once empty. */
    method RemoveListenerAndSetIfNeeded(c: EventClass, h: LegacyHolder) returns (removed: bool)
      requires c in listeners
      modifies this`listeners
      ensures (listeners, removed) == (LegacyRemoveFromList(old(listeners), c, h).registry, LegacyRemoveFromList(old(listeners), c, h).removed)
    {
      if h !in listeners[c] {
        return false;
      }
      var list := RemoveFirst(listeners[c], h);
      if list == [] {
        listeners := listeners - {c};
      } else {
        listeners := listeners[c := list];
      }
      removed := true;
    }

    /** `remove(eventClass, holder)`: nothing to do when the class has no list. */
    method RemoveHolder(c: EventClass, h: LegacyHolder) returns (removed: bool)
      modifies this`listeners
      ensures LegacyRemoval(listeners, removed) == LegacyRemoveHolderSpec(old(listeners), c, h)
    {
      if c !in listeners {
        return false;
      }
      removed := RemoveListenerAndSetIfNeeded(c, h);
    }

    /**
     * `remove(eventClass, listener)`: walk the list in insertion order and remove the first holder
     * whose live wrapper equals the listener's.
     */
    method Remove(c: EventClass, listener: ListenerId, cleared: set<RefId>) returns (removed: bool)
      modifies this`listeners
      ensures LegacyRemoval(listeners, removed) == LegacyRemoveListenerSpec(old(listeners), c, listener, cleared)
    {
      if c !in listeners {
        return false;
      }
      var list := listeners[c];
      var i := 0;
      while i < |list|
        invariant 0 <= i <= |list|
        invariant forall j :: 0 <= j < i ==> !WrapperEquals(DefaultListenerWrapper(listener), list[j].GetListenerWrapper(cleared))
      {
        if WrapperEquals(DefaultListenerWrapper(listener), list[i].GetListenerWrapper(cleared)) {
          assert LegacyFirstMatch(list, listener, cleared) == Some(i);
          removed := RemoveListenerAndSetIfNeeded(c, list[i]);
          return;
        }
        i := i + 1;
      }
      removed := false;
    }

    /** `nullSafeGetListeners`: the TreeSet copy of the class's list, an empty list being put in the map when missing. */
    method NullSafeGetListeners(c: EventClass) returns (snapshot: seq<LegacyHolder>)
      modifies this`listeners
      ensures (listeners, snapshot) == LegacySnapshotSpec(old(listeners), c)
    {
      if c !in listeners {
        listeners := listeners[c := []];
      }
      var list := listeners[c];
      snapshot := [];
      for i := 0 to |list|
        invariant snapshot == LegacySorted(list[..i])
      {
        assert list[..i + 1][..i] == list[..i];
        snapshot := LegacyInsert(snapshot, list[i]);
      }
      assert list[..|list|] == list;
    }
  }
}
