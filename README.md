# event-studio dispatch engine in Dafny

This project models the core of event-studio, a small in-process event bus for Java. Listeners
register in named **stations**, each for one **event class**, with a priority and a
**reference strength** (STRONG, SOFT or WEAK). A broadcast to a station does three things:

- It hands the event to the station's **supervisor**.
- It notifies every live listener of the event's class, lowest priority value first. Listeners
  whose weak or soft handle has been collected are purged on the way.
- If nobody received the event, it is put in a bounded per-class **queue**. A listener added
  later for that class gets the queued events replayed.

A listener may stop a broadcast by throwing `BroadcastInterruptionException`.

The project covers two generations of the code:

- The current `org.pdfsam.eventstudio` package: `Listeners`, `Station`, `Stations`,
  `DefaultEventStudio`, `Entity`, `ReferenceStrength`, `RequireUtils` and `StringUtils`.
- The older `org.eventstudio` `Listeners` and `Station`. Both defects reported under
  "## Findings" are in this older code.

Modules and files:

| file | module | models |
|---|---|---|
| `wrappers.dfy` | `Wrappers` | `Option` (a Java `null`), `Result` and `Outcome` (a thrown exception) |
| `string_utils.dfy` | `StringUtils` | `isBlank`, `isNotBlank`, `defaultString` |
| `require_utils.dfy` | `RequireUtils` | `requireNotBlank`, `requireNotNull` |
| `entity.dfy` | `Entity` | strong and referenced entities |
| `reference_strength.dfy` | `ReferenceStrength` | `ReferenceStrength.getReference` |
| `listeners.dfy` | `Listeners` | wrappers, holders and their order, and the registry class `Listeners.Listeners` |
| `station_spec.dfy` | `StationSpec` | a station's state and each of its operations as functions, with their lemmas |
| `station.dfy` | `Station` | the class `Station.Station`, whose methods are proved against `StationSpec` |
| `studio_spec.dfy` | `StudioSpec` | the station directory and the studio's operations as functions |
| `stations.dfy` | `Stations` | the class `Stations.Stations` |
| `event_studio.dfy` | `EventStudio` | the class `EventStudio.DefaultEventStudio` |
| `legacy_listeners.dfy` | `LegacyListeners` | the older registry and its comparator |
| `legacy_station.dfy` | `LegacyStation` | the older station |

Choices made throughout:

- Garbage collection is a parameter `cleared: set<RefId>`. It names the reference handles the
  collector has cleared at the moment of the call.
- What a listener does when notified is a parameter `env.behaviour`. For each listener and
  each event it says whether the listener returns normally or interrupts the broadcast.
- Java's identity hash code, used to break ties between holders of equal priority, is modelled
  as a unique holder identity drawn from a counter.
- Methods that change state are proved against a specification function of the old state:
  `(Model(), r) == Op(old(Model()), ...)`. The properties the code promises are then proved as
  lemmas about those functions.

## Model

| member | source | states |
|---|---|---|
| `StringUtils.TrimLeading` | src/main/java/org/pdfsam/eventstudio/util/StringUtils.java:32-34 | the leading characters up to U+0020 that `trim` removes; the rest is a suffix that starts with a kept character |
| `StringUtils.TrimTrailing` | src/main/java/org/pdfsam/eventstudio/util/StringUtils.java:32-34 | the trailing characters that `trim` removes; the rest is a prefix that ends with a kept character |
| `StringUtils.TrimLeadingEmpty` | src/main/java/org/pdfsam/eventstudio/util/StringUtils.java:32-34 | trimming leaves nothing exactly when every character is at most U+0020 |
| `StringUtils.BlankIffAllTrimmable` | src/main/java/org/pdfsam/eventstudio/util/StringUtils.java:32-38 | a string is blank iff it is null or all of its characters are at most U+0020 |
| `StringUtils.TrailingEmptyAll` | src/main/java/org/pdfsam/eventstudio/util/StringUtils.java:32-34 | if trimming from the end leaves nothing, every character is trimmable |
| `StringUtils.EmptyIsBlank` | src/main/java/org/pdfsam/eventstudio/util/StringUtils.java:32-38 | null, empty and whitespace strings are blank; the hidden station's name and " x " are not |
| `StringUtils.DefaultStringChoice` | src/main/java/org/pdfsam/eventstudio/util/StringUtils.java:45-47 | `defaultString` gives the default for a blank input and the input itself otherwise |
| `StringUtils.DefaultStringIdempotent` | src/main/java/org/pdfsam/eventstudio/util/StringUtils.java:45-47 | applying `defaultString` twice with the same default is the same as applying it once |
| `StringUtils.DefaultStringNotBlank` | src/main/java/org/pdfsam/eventstudio/util/StringUtils.java:45-47 | with a non-blank default the result is never blank |
| `StringUtils.Trim` | src/main/java/org/pdfsam/eventstudio/util/StringUtils.java:32-34 | Java's `trim`: the input without leading and trailing characters up to U+0020; what it leaves is characterised by `BlankIffAllTrimmable` |
| `StringUtils.IsBlank` | src/main/java/org/pdfsam/eventstudio/util/StringUtils.java:32-34 | null, or nothing left once trimmed; proved equivalent to all characters being at most U+0020 in `BlankIffAllTrimmable` |
| `StringUtils.IsNotBlank` | src/main/java/org/pdfsam/eventstudio/util/StringUtils.java:36-38 | the negation of `IsBlank` |
| `StringUtils.DefaultString` | src/main/java/org/pdfsam/eventstudio/util/StringUtils.java:45-47 | the default for a blank input and the input otherwise; proved in `DefaultStringChoice`, `DefaultStringIdempotent` and `DefaultStringNotBlank` |
| `RequireUtils.RequireNotBlank` | src/main/java/org/pdfsam/eventstudio/util/RequireUtils.java:39-43 | fails with IllegalArgument exactly when the value is blank |
| `RequireUtils.RequireNotNull` | src/main/java/org/pdfsam/eventstudio/util/RequireUtils.java:52-56 | fails with IllegalArgument exactly when the value is null |
| `RequireUtils.RequireNotBlankExamples` | src/main/java/org/pdfsam/eventstudio/util/RequireUtils.java:39-43 | a null name is refused and the hidden station's name is accepted |
| `Entity.Entity.Get` | src/main/java/org/pdfsam/eventstudio/Entity.java:47-73 | a strong entity always gives its referent; a referenced one gives it until its handle is cleared, and null afterwards |
| `Entity.NewStrongEntity` | src/main/java/org/pdfsam/eventstudio/Entity.java:67-73 | a strong entity resolves to its referent whatever has been collected |
| `Entity.NewReferencedEntity` | src/main/java/org/pdfsam/eventstudio/Entity.java:47-50 | a null reference is refused with IllegalArgument; otherwise the entity wraps that reference |
| `Entity.GetMonotonic` | src/main/java/org/pdfsam/eventstudio/Entity.java:52-54 | once an entity resolves to null it stays null as collection goes on, and while it resolves it gives the same referent |
| `ReferenceStrength.GetReference` | src/main/java/org/pdfsam/eventstudio/ReferenceStrength.java:30-47 | STRONG and only STRONG builds a strong entity; every strength keeps the referent |
| `ReferenceStrength.StrongAlwaysResolves` | src/main/java/org/pdfsam/eventstudio/ReferenceStrength.java:30-35 | a STRONG reference resolves whatever the collector has cleared |
| `ReferenceStrength.ReferencedMayClear` | src/main/java/org/sejda/eventstudio/ReferenceStrength.java:36-47 | a SOFT or WEAK reference resolves until its handle is cleared, and to null afterwards |
| `ReferenceStrength.SoftAndWeakAlike` | src/main/java/org/pdfsam/eventstudio/ReferenceStrength.java:36-47 | SOFT and WEAK behave the same under the same collection |
| `Listeners.OnEvent` | src/main/java/org/pdfsam/eventstudio/Listeners.java:200-203 | the envelope is marked notified only when the listener returns normally |
| `Listeners.WrapperEqualsIsIdentity` | src/main/java/org/pdfsam/eventstudio/Listeners.java:214-223 | two default wrappers are equal iff they wrap equal listeners, and a null handle or a reflective wrapper never matches |
| `Listeners.CompareTo` | src/main/java/org/pdfsam/eventstudio/Listeners.java:273-291 | orders by ascending priority, breaks ties by identity, and gives 0 only for the same holder |
| `Listeners.CompareToIsTotalOrder` | src/main/java/org/pdfsam/eventstudio/Listeners.java:273-291 | the comparison is antisymmetric, transitive and total |
| `Listeners.InsertNew` | src/main/java/org/pdfsam/eventstudio/Listeners.java:53-61 | inserting a holder with a new identity into the sorted set keeps it sorted, adds that holder and loses nothing |
| `Listeners.RemoveMember` | src/main/java/org/pdfsam/eventstudio/Listeners.java:129-143 | removing a member of a sorted set drops that position and nothing else |
| `Listeners.RemoveAbsent` | src/main/java/org/pdfsam/eventstudio/Listeners.java:129-143 | removing a holder the set does not hold changes nothing |
| `Listeners.SubsequenceOrdered` | src/main/java/org/pdfsam/eventstudio/Listeners.java:161-173 | removing one position of a sorted set keeps it sorted |
| `Listeners.OrderedIsPrioritySorted` | src/main/java/org/pdfsam/eventstudio/Listeners.java:273-291 | a set sorted by the comparison is sorted by priority |
| `Listeners.NewHolder` | src/main/java/org/pdfsam/eventstudio/Listeners.java:53-61 | the new holder carries the priority, a new identity and a handle of the requested strength on a wrapper of the listener |
| `Listeners.NewReflectiveHolder` | src/main/java/org/pdfsam/eventstudio/Listeners.java:63-80 | the holder for an annotated method carries the annotation's priority and strength and wraps the bean's method |
| `Listeners.ClassesOfSnoc` | src/main/java/org/pdfsam/eventstudio/Listeners.java:63-80 | the classes of the descriptors plus one are the old classes plus that one's |
| `Listeners.AddEntriesInv` | src/main/java/org/pdfsam/eventstudio/Listeners.java:63-80 | every step of `addAll` keeps the registry sorted with identities below the counter |
| `Listeners.AddEntriesGrows` | src/main/java/org/pdfsam/eventstudio/Listeners.java:63-80 | each class gains exactly one holder per descriptor of that class and keeps what it had |
| `Listeners.FirstMatch` | src/main/java/org/pdfsam/eventstudio/Listeners.java:99-119 | the index found is the first holder, in set order, whose live wrapper equals the listener |
| `Listeners.RemoveMemberFromRegistry` | src/main/java/org/pdfsam/eventstudio/Listeners.java:145-155 | the holder leaves its class, the key goes when nothing is left, other classes are untouched |
| `Listeners.RemoveListenerFirstOnly` | src/main/java/org/pdfsam/eventstudio/Listeners.java:99-119 | only the first live holder equal to the listener is removed and the answer is true; otherwise false and nothing changes |
| `Listeners.RemoveElementByIdentity` | src/main/java/org/pdfsam/eventstudio/Listeners.java:129-143 | removal by holder depends only on priority and identity, the fields the comparison reads |
| `Listeners.RemoveHolderExact` | src/main/java/org/pdfsam/eventstudio/Listeners.java:129-143 | `remove(class, holder)` drops the registered holder with that identity if there is one, and otherwise changes nothing |
| `Listeners.AddSpecGrows` | src/main/java/org/pdfsam/eventstudio/Listeners.java:53-61 | `add` never rejects or merges: the class gains exactly the new holder and other classes are untouched |
| `Listeners.AddSameListenerTwice` | src/main/java/org/pdfsam/eventstudio/Listeners.java:53-61 | registering the same listener twice leaves two holders for it |
| `Listeners.Listeners.constructor` | src/main/java/org/pdfsam/eventstudio/Listeners.java:51-51 | a new registry is empty |
| `Listeners.Listeners.NullSafeGetListenerHolders` | src/main/java/org/pdfsam/eventstudio/Listeners.java:82-89 | gives the holders of the class, creating an empty set when the class is missing |
| `Listeners.Listeners.Add` | src/main/java/org/pdfsam/eventstudio/Listeners.java:53-61 | the registry becomes the specified registration and the counter moves on by one |
| `Listeners.Listeners.AddAll` | src/main/java/org/pdfsam/eventstudio/Listeners.java:63-80 | the registry becomes the specified bulk registration, one holder per descriptor |
| `Listeners.Listeners.RemoveListenerAndSetIfNeeded` | src/main/java/org/pdfsam/eventstudio/Listeners.java:145-155 | removes the holder and drops the class when its set empties |
| `Listeners.Listeners.Remove` | src/main/java/org/pdfsam/eventstudio/Listeners.java:99-119 | the loop finds the first live holder equal to the listener and its removal is the specified one |
| `Listeners.Listeners.RemoveHolder` | src/main/java/org/pdfsam/eventstudio/Listeners.java:129-143 | the registry becomes the specified removal by identity |
| `Listeners.Listeners.NullSafeGetListeners` | src/main/java/org/pdfsam/eventstudio/Listeners.java:161-173 | a copy of the class's holders in priority order; an unknown class gives an empty list and creates no key |
| `Listeners.WrapperEquals` | src/main/java/org/pdfsam/eventstudio/Listeners.java:214-223 | a default wrapper equals another default wrapper around an equal listener, and never a null handle or a reflective wrapper; proved in `WrapperEqualsIsIdentity` |
| `Listeners.Less` | src/main/java/org/pdfsam/eventstudio/Listeners.java:273-291 | the strict order the TreeSet keeps: priority first, then the identity tie-break; proved a strict total order through `CompareToIsTotalOrder` |
| `Listeners.HoldersOf` | src/main/java/org/pdfsam/eventstudio/Listeners.java:161-173 | the holders of a class, none when the class has no key |
| `Listeners.Insert` | src/main/java/org/pdfsam/eventstudio/Listeners.java:53-61 | `TreeSet.add`: insert at the place the order asks for; `InsertNew` proves it keeps the set ordered, adds exactly the new holder and loses none |
| `Listeners.RemoveElement` | src/main/java/org/pdfsam/eventstudio/Listeners.java:145-155 | `TreeSet.remove`: drop the element comparing equal; `RemoveMember` and `RemoveAbsent` prove it drops exactly that holder, or nothing |
| `Listeners.AddSpec` | src/main/java/org/pdfsam/eventstudio/Listeners.java:53-61 | the registry after `add`; `AddSpecGrows` proves the class gains exactly the new holder and other classes are untouched |
| `Listeners.AddEntries` | src/main/java/org/pdfsam/eventstudio/Listeners.java:63-80 | the registry after `addAll`, one holder per descriptor; `AddEntriesInv` and `AddEntriesGrows` prove it keeps the invariant and never merges |
| `Listeners.CountFor` | src/main/java/org/pdfsam/eventstudio/Listeners.java:63-80 | the number of descriptors of a class, the growth `AddEntriesGrows` states |
| `Listeners.ClassesOf` | src/main/java/org/pdfsam/eventstudio/Listeners.java:63-80 | the classes `addAll` answers as updated; `ClassesOfSnoc` relates it to one more descriptor |
| `Listeners.RemoveFromSet` | src/main/java/org/pdfsam/eventstudio/Listeners.java:145-155 | remove the holder from its class's set, and the key once the set is empty; proved in `RemoveMemberFromRegistry` |
| `Listeners.RemoveListenerSpec` | src/main/java/org/pdfsam/eventstudio/Listeners.java:99-119 | `remove(class, listener)`: remove the first live holder whose wrapper equals the listener's; proved in `RemoveListenerFirstOnly` |
| `Listeners.RemoveHolderSpec` | src/main/java/org/pdfsam/eventstudio/Listeners.java:129-143 | `remove(class, holder)`: remove that exact holder; proved in `RemoveHolderExact` |
| `StationSpec.Offer` | src/main/java/org/pdfsam/eventstudio/Station.java:100-105 | an event joins the tail when the queue has room; a full queue refuses it and is kept |
| `StationSpec.Poll` | src/main/java/org/pdfsam/eventstudio/Station.java:136-144 | polling takes the head of a non-empty queue and leaves the rest |
| `StationSpec.ReplayFromCreatedQueue` | src/main/java/org/pdfsam/eventstudio/Station.java:60-71 | creating the queue first, as `getQueue` does, does not change the replay |
| `StationSpec.ReplayStep` | src/main/java/org/pdfsam/eventstudio/Station.java:136-144 | one turn of replay polls the head, broadcasts it, and goes on only when it was received |
| `StationSpec.ReplayAdvance` | src/main/java/org/pdfsam/eventstudio/Station.java:136-144 | the same turn seen from the middle of a pass |
| `StationSpec.ReplayOfEmptyQueue` | src/main/java/org/pdfsam/eventstudio/Station.java:136-144 | an existing empty queue makes replay do nothing |
| `StationSpec.Notifications` | src/main/java/org/pdfsam/eventstudio/Station.java:86-107 | one notification per invoked holder, in order |
| `StationSpec.WalkAfterInterrupt` | src/main/java/org/pdfsam/eventstudio/Station.java:90-99 | once a listener interrupts, the rest of the snapshot changes nothing |
| `StationSpec.WalkFacts` | src/main/java/org/pdfsam/eventstudio/Station.java:86-107 | without an interruption every live holder is invoked and every dead one recorded; with one, the interrupter is the last invoked |
| `StationSpec.WalkPriorityOrder` | src/main/java/org/pdfsam/eventstudio/Station.java:86-107 | listeners are notified in priority order |
| `StationSpec.RemoveAtFacts` | src/main/java/org/pdfsam/eventstudio/Listeners.java:129-143 | removing a position removes that holder and keeps every other one |
| `StationSpec.RemoveHolderStep` | src/main/java/org/pdfsam/eventstudio/Listeners.java:129-155 | one purge step keeps the registry invariant, drops that holder and touches no other class |
| `StationSpec.PurgeFacts` | src/main/java/org/pdfsam/eventstudio/Station.java:95-98 | purging removes every dead holder, keeps every other one and touches no other class |
| `StationSpec.SameIdentityInOrdered` | src/main/java/org/pdfsam/eventstudio/Listeners.java:273-291 | in a sorted set, comparing equal means being the same holder |
| `StationSpec.DoBroadcastPurges` | src/main/java/org/pdfsam/eventstudio/Station.java:86-107 | collected holders of the event's class leave the registry, live ones stay, other classes are untouched |
| `StationSpec.DoBroadcastEnqueues` | src/main/java/org/pdfsam/eventstudio/Station.java:86-107 | an event nobody received joins its queue when there is room and is dropped when full; otherwise no queue changes |
| `StationSpec.PollKeepsInv` | src/main/java/org/pdfsam/eventstudio/Station.java:136-144 | polling keeps the station invariant and the head is of that class |
| `StationSpec.ReplayKeepsInv` | src/main/java/org/pdfsam/eventstudio/Station.java:136-144 | replay keeps the invariant and changes only its class's queue |
| `StationSpec.ReplayIsFifo` | src/main/java/org/pdfsam/eventstudio/Station.java:136-144 | replay re-delivers the queued events oldest first and never more than were queued; when every re-delivery was received and none interrupted, all were re-delivered and the queue ends empty |
| `StationSpec.LiveOfContains` | src/main/java/org/pdfsam/eventstudio/Listeners.java:161-173 | a live holder is among the live holders of the snapshot |
| `StationSpec.BroadcastReachesLive` | src/main/java/org/pdfsam/eventstudio/Station.java:73-107 | without an interruption every live holder that returns normally is notified, and it stays registered |
| `StationSpec.ReplayWithLiveListener` | src/main/java/org/pdfsam/eventstudio/Station.java:136-144 | while a live holder returns normally on the queued events, every replayed event reaches it and counts as received unless someone interrupts |
| `StationSpec.ReplayWithoutInterrupter` | src/main/java/org/pdfsam/eventstudio/Station.java:136-144 | replay over a class none of whose live listeners interrupts on a queued event never fails |
| `StationSpec.AddedListenerDrainsQueue` | src/main/java/org/pdfsam/eventstudio/Station.java:109-125 | a listener added with a live handle that returns normally on the queued events is notified of every one of them, oldest first, and the queue ends empty, unless another listener interrupts |
| `StationSpec.UnheardEventsKeepOldest` | src/main/java/org/pdfsam/eventstudio/Station.java:100-105 | with nobody listening, the queue keeps the oldest events up to its capacity and drops the rest |
| `StationSpec.CapacityScenario` | src/main/java/org/pdfsam/eventstudio/Station.java:60-71 | six unheard events with capacity three, then a listener added for their class: it is notified of exactly the first three, oldest first, and the queue ends empty |
| `StationSpec.QueueOf` | src/main/java/org/pdfsam/eventstudio/Station.java:60-71 | the class's queue, or a new empty one of the configured capacity |
| `StationSpec.EmptyState` | src/main/java/org/pdfsam/eventstudio/Station.java:55-58 | a new station: no listeners, no queues, the default supervisor |
| `StationSpec.WalkOf` | src/main/java/org/pdfsam/eventstudio/Station.java:90-99 | the dispatch loop over a snapshot; its meaning is proved in `WalkMembers`, `WalkNotified`, `WalkComplete`, `WalkInterrupted` and `WalkPriorityOrder` |
| `StationSpec.WalkMembers` | src/main/java/org/pdfsam/eventstudio/Station.java:90-99 | a walk invokes only live holders of the snapshot and records only dead ones |
| `StationSpec.WalkNotified` | src/main/java/org/pdfsam/eventstudio/Station.java:90-99 | the envelope is notified iff some invoked listener returned normally |
| `StationSpec.WalkComplete` | src/main/java/org/pdfsam/eventstudio/Station.java:90-99 | without an interruption every live holder is invoked and every dead one recorded, in snapshot order |
| `StationSpec.WalkInterrupted` | src/main/java/org/pdfsam/eventstudio/Station.java:90-99 | with an interruption the interrupter is the last invoked and all before it returned normally |
| `StationSpec.WalkWithoutLive` | src/main/java/org/pdfsam/eventstudio/Station.java:90-99 | a snapshot of collected holders notifies nobody and is not interrupted |
| `StationSpec.LiveOf` | src/main/java/org/pdfsam/eventstudio/Station.java:90-99 | the live holders of a snapshot, in order, which `WalkComplete` shows are the ones invoked |
| `StationSpec.DeadOf` | src/main/java/org/pdfsam/eventstudio/Station.java:90-99 | the collected holders of a snapshot, in order, which `WalkComplete` shows are the ones purged |
| `StationSpec.Purge` | src/main/java/org/pdfsam/eventstudio/Station.java:95-98 | the registry after the dead holders were removed one by one; proved in `PurgeFacts` |
| `StationSpec.DoBroadcastSpec` | src/main/java/org/pdfsam/eventstudio/Station.java:86-107 | `doBroadcast`: walk, purge, and offer an unheard event to its queue; proved in `DoBroadcastPurges`, `DoBroadcastEnqueues` and `BroadcastReachesLive` |
| `StationSpec.ReplaySpec` | src/main/java/org/pdfsam/eventstudio/Station.java:136-144 | the replay pass: poll and re-deliver oldest first until the queue is empty, an event is not received or an interruption escapes; proved in `ReplayFirstRound`, `ReplayIsFifo` and `ReplayKeepsInv` |
| `StationSpec.ReplayFirstRound` | src/main/java/org/pdfsam/eventstudio/Station.java:136-144 | the head is broadcast first; an interruption loses it, an unheard event goes back to the tail, a received one leaves the rest of the queue |
| `StationSpec.ReplayAll` | src/main/java/org/pdfsam/eventstudio/Station.java:131-133 | one replay pass per updated class, in order, stopping at an interruption |
| `StationSpec.ReplayOutcome` | src/main/java/org/pdfsam/eventstudio/Station.java:136-144 | how a replay pass ends for the caller: an escaped interruption or normally |
| `StationSpec.Registered` | src/main/java/org/pdfsam/eventstudio/Station.java:119-125 | the state right after `listeners.add`, before the replay |
| `StationSpec.RegisteredAll` | src/main/java/org/pdfsam/eventstudio/Station.java:127-134 | the state right after `listeners.addAll`, before the replays |
| `StationSpec.BroadcastOp` | src/main/java/org/pdfsam/eventstudio/Station.java:73-84 | `broadcast`: a null event fails, otherwise the supervisor inspects it and `doBroadcast` runs with the interruption swallowed; `Station.Station.Broadcast` is proved against it |
| `StationSpec.AddOp` | src/main/java/org/pdfsam/eventstudio/Station.java:119-125 | `add`: null checks, registration, replay of the class; `AddedListenerDrainsQueue` and `CapacityScenario` are proved about it |
| `StationSpec.AddInferredOp` | src/main/java/org/pdfsam/eventstudio/Station.java:109-117 | inferred `add`: a null listener fails, no inferred class fails, otherwise `AddOp` |
| `StationSpec.AddAllOp` | src/main/java/org/pdfsam/eventstudio/Station.java:127-134 | `addAll`: a null list fails, otherwise every descriptor is registered and each updated class replayed |
| `StationSpec.RemoveOp` | src/main/java/org/pdfsam/eventstudio/Station.java:156-161 | `remove`: null checks, then the registry's removal and its answer |
| `StationSpec.RemoveInferredOp` | src/main/java/org/pdfsam/eventstudio/Station.java:146-154 | inferred `remove`: a null listener fails, no inferred class fails, otherwise `RemoveOp` |
| `StationSpec.SupervisorOp` | src/main/java/org/pdfsam/eventstudio/Station.java:171-174 | a null supervisor fails, otherwise it replaces the old one |
| `StationSpec.BroadcastAll` | src/main/java/org/pdfsam/eventstudio/Station.java:73-84 | a run of broadcasts one after another, the scenario `UnheardEventsKeepOldest` and `CapacityScenario` are stated over |
| `Station.Station.constructor` | src/main/java/org/pdfsam/eventstudio/Station.java:55-58 | a new station has no listeners, no queues and the default supervisor |
| `Station.Station.Create` | src/main/java/org/pdfsam/eventstudio/Station.java:55-58 | a blank name is refused with IllegalArgument; otherwise a new empty station of that name |
| `Station.Station.GetQueue` | src/main/java/org/pdfsam/eventstudio/Station.java:60-71 | gives the class's queue, creating an empty one of the configured capacity when missing |
| `Station.Station.Dispatch` | src/main/java/org/pdfsam/eventstudio/Station.java:90-99 | the loop produces the specified walk over the snapshot and purges exactly its dead holders |
| `Station.Station.Enqueue` | src/main/java/org/pdfsam/eventstudio/Station.java:100-105 | offers the event to its class's queue as specified |
| `Station.Station.DoBroadcast` | src/main/java/org/pdfsam/eventstudio/Station.java:86-107 | the new state is the specified broadcast; an interruption is reported as a failure |
| `Station.Station.Broadcast` | src/main/java/org/pdfsam/eventstudio/Station.java:73-84 | a null event is refused; otherwise the supervisor inspects it, then `doBroadcast` as specified |
| `Station.Station.PollQueue` | src/main/java/org/pdfsam/eventstudio/Station.java:136-144 | gives the head of the class's queue and removes it |
| `Station.Station.BroadcastEnqueuedEventsFor` | src/main/java/org/pdfsam/eventstudio/Station.java:136-144 | the loop performs the specified replay pass |
| `Station.Station.Add` | src/main/java/org/pdfsam/eventstudio/Station.java:119-125 | null class or listener refused; otherwise the listener is registered and the class's queue replayed |
| `Station.Station.AddInferred` | src/main/java/org/pdfsam/eventstudio/Station.java:109-117 | as `Add`, with the class taken from the listener; no class is UnableToInferEventClass |
| `Station.Station.AddAll` | src/main/java/org/pdfsam/eventstudio/Station.java:127-134 | registers every descriptor, then replays each class once |
| `Station.Station.ReplayEach` | src/main/java/org/pdfsam/eventstudio/Station.java:131-133 | replays the classes in order, stopping at an interruption |
| `Station.Station.Remove` | src/main/java/org/pdfsam/eventstudio/Station.java:156-161 | null class or listener refused; otherwise the specified removal and its answer |
| `Station.Station.RemoveInferred` | src/main/java/org/pdfsam/eventstudio/Station.java:146-154 | as `Remove`, with the class taken from the listener |
| `Station.Station.Supervior` | src/main/java/org/pdfsam/eventstudio/Station.java:171-174 | a null supervisor is refused; otherwise it replaces the old one |
| `StudioSpec.StudioInvStore` | src/main/java/org/pdfsam/eventstudio/Stations.java:47-59 | storing a valid station under a non-blank name keeps the directory invariant |
| `StudioSpec.StudioInvForget` | src/main/java/org/pdfsam/eventstudio/Stations.java:69-72 | forgetting a name keeps the directory invariant |
| `StudioSpec.HiddenStationNotBlank` | src/main/java/org/pdfsam/eventstudio/DefaultEventStudio.java:61-61 | the hidden station's name is not blank |
| `StudioSpec.OnStationFrame` | src/main/java/org/pdfsam/eventstudio/Stations.java:47-59 | a routed call refuses a blank name and changes no other station |
| `StudioSpec.OnStationRoute` | src/main/java/org/pdfsam/eventstudio/Stations.java:47-59 | a routed call creates the station when missing and runs the operation on it |
| `StudioSpec.OnStationKeepsInv` | src/main/java/org/pdfsam/eventstudio/Stations.java:47-59 | routing keeps the directory invariant when the operation keeps the station's |
| `StudioSpec.ClearOp` | src/main/java/org/pdfsam/eventstudio/Stations.java:69-72 | a null name fails; any other name is forgotten |
| `StudioSpec.ClearThenGetIsEmpty` | src/main/java/org/pdfsam/eventstudio/Stations.java:47-72 | after `clear(name)` the next lookup gets a new empty station |
| `StudioSpec.SupervisorStudioFacts` | src/main/java/org/pdfsam/eventstudio/DefaultEventStudio.java:148-151 | a null supervisor is refused without creating the station; otherwise the station's supervisor is replaced |
| `StudioSpec.AnnotatedStation` | src/main/java/org/pdfsam/eventstudio/DefaultEventStudio.java:86-89 | a group goes to its own station, else the bean's, else the hidden station; never a blank name |
| `StudioSpec.AnnotatedStationsCons` | src/main/java/org/pdfsam/eventstudio/DefaultEventStudio.java:86-89 | the stations of the groups are the first group's plus the rest's |
| `StudioSpec.AddAnnotatedFirst` | src/main/java/org/pdfsam/eventstudio/DefaultEventStudio.java:82-95 | the directory after the first group's `addAll` |
| `StudioSpec.AddAnnotatedStep` | src/main/java/org/pdfsam/eventstudio/DefaultEventStudio.java:82-95 | one group: its station is created when missing and runs `addAll` |
| `StudioSpec.AddAnnotatedKeys` | src/main/java/org/pdfsam/eventstudio/DefaultEventStudio.java:82-95 | only the named stations are created, and without an interruption all of them exist |
| `StudioSpec.AddAnnotatedOthers` | src/main/java/org/pdfsam/eventstudio/DefaultEventStudio.java:82-95 | stations the groups do not name are left as they were |
| `StudioSpec.BroadcastEverywhereStep` | src/main/java/org/pdfsam/eventstudio/DefaultEventStudio.java:211-215 | one step: a failing broadcast leaves its station as it was |
| `StudioSpec.BroadcastEverywhereAdvance` | src/main/java/org/pdfsam/eventstudio/DefaultEventStudio.java:211-215 | the broadcast from one position is one station's broadcast and then the rest |
| `StudioSpec.BroadcastEverywhereEnds` | src/main/java/org/pdfsam/eventstudio/DefaultEventStudio.java:211-215 | from the start it is the whole broadcast; at the end it does nothing |
| `StudioSpec.BroadcastEverywhereEach` | src/main/java/org/pdfsam/eventstudio/DefaultEventStudio.java:211-215 | each station broadcasts once and nothing else changes |
| `StudioSpec.BroadcastEverywhereFacts` | src/main/java/org/pdfsam/eventstudio/DefaultEventStudio.java:211-215 | every station broadcasts a non-null event once; a null event is refused by the first station and changes nothing |
| `StudioSpec.Touch` | src/main/java/org/pdfsam/eventstudio/Stations.java:47-59 | `getStation` on the directory: a missing station is created empty; `ClearThenGetIsEmpty` is stated over it |
| `StudioSpec.OnStation` | src/main/java/org/pdfsam/eventstudio/DefaultEventStudio.java:77-80 | route a call to the named station: a blank name fails first; proved in `OnStationFrame`, `OnStationRoute` and `OnStationKeepsInv` |
| `StudioSpec.AddInferredStudioOp` | src/main/java/org/pdfsam/eventstudio/DefaultEventStudio.java:65-67 | inferred `add` routed to the named station |
| `StudioSpec.AddStudioOp` | src/main/java/org/pdfsam/eventstudio/DefaultEventStudio.java:77-80 | `add` routed to the named station |
| `StudioSpec.RemoveInferredStudioOp` | src/main/java/org/pdfsam/eventstudio/DefaultEventStudio.java:153-155 | inferred `remove` routed to the named station |
| `StudioSpec.RemoveStudioOp` | src/main/java/org/pdfsam/eventstudio/DefaultEventStudio.java:157-159 | `remove` routed to the named station |
| `StudioSpec.BroadcastStudioOp` | src/main/java/org/pdfsam/eventstudio/DefaultEventStudio.java:197-199 | `broadcast` routed to the named station |
| `StudioSpec.SupervisorStudioOp` | src/main/java/org/pdfsam/eventstudio/DefaultEventStudio.java:148-151 | the null check on the supervisor, then routing; proved in `SupervisorStudioFacts` |
| `StudioSpec.AddAnnotatedOp` | src/main/java/org/pdfsam/eventstudio/DefaultEventStudio.java:82-95 | annotated registration: each group goes to its station's `addAll`, stopping at an interruption; proved in `AddAnnotatedKeys` and `AddAnnotatedOthers` |
| `StudioSpec.AnnotatedStations` | src/main/java/org/pdfsam/eventstudio/DefaultEventStudio.java:82-95 | the stations the groups of a bean go to, the only ones `AddAnnotatedKeys` lets annotated registration create |
| `StudioSpec.AddAnnotatedStepAt` | src/main/java/org/pdfsam/eventstudio/DefaultEventStudio.java:86-89 | the step at position i of the groups is the first group's station running `addAll` |
| `StudioSpec.BroadcastEverywhereOp` | src/main/java/org/pdfsam/eventstudio/DefaultEventStudio.java:211-215 | each station in turn broadcasts the event; proved in `BroadcastEverywhereEach` and `BroadcastEverywhereFacts` |
| `StudioSpec.BroadcastEverywhereFrom` | src/main/java/org/pdfsam/eventstudio/DefaultEventStudio.java:211-215 | the broadcast to every station from a position on; `BroadcastEverywhereAdvance` and `BroadcastEverywhereEnds` tie it to `BroadcastEverywhereOp` |
| `Stations.ShapeStore` | src/main/java/org/pdfsam/eventstudio/Stations.java:47-59 | storing a new station keeps the directory's objects distinct and valid |
| `Stations.ShapeForget` | src/main/java/org/pdfsam/eventstudio/Stations.java:69-72 | forgetting a station keeps the directory's shape |
| `Stations.Stations.constructor` | src/main/java/org/pdfsam/eventstudio/Stations.java:39-39 | a new directory is empty |
| `Stations.Stations.GetStation` | src/main/java/org/pdfsam/eventstudio/Stations.java:47-59 | a blank name is refused; an existing station is returned as is; a missing one is created empty and stored |
| `Stations.Stations.Register` | src/main/java/org/pdfsam/eventstudio/Stations.java:51-56 | stores a new empty station under the name |
| `Stations.Stations.GetStations` | src/main/java/org/pdfsam/eventstudio/Stations.java:65-67 | gives exactly the stored stations |
| `Stations.Stations.Clear` | src/main/java/org/pdfsam/eventstudio/Stations.java:69-72 | forgets the named station and no other |
| `Stations.StationOf` | src/main/java/org/pdfsam/eventstudio/Stations.java:47-59 | a station of a valid directory is valid, has the configured capacity and the recorded state |
| `EventStudio.DefaultEventStudio.constructor` | src/main/java/org/pdfsam/eventstudio/DefaultEventStudio.java:63-63 | a new studio has no stations |
| `EventStudio.DefaultEventStudio.AddInferred` | src/main/java/org/pdfsam/eventstudio/DefaultEventStudio.java:65-67 | the named station, created when missing, registers the listener for its inferred class |
| `EventStudio.DefaultEventStudio.AddInferredDefaults` | src/main/java/org/pdfsam/eventstudio/DefaultEventStudio.java:69-71 | the same with the default priority and STRONG |
| `EventStudio.DefaultEventStudio.AddDefaults` | src/main/java/org/pdfsam/eventstudio/DefaultEventStudio.java:73-75 | `add(class, listener, station)` with the default priority and STRONG |
| `EventStudio.DefaultEventStudio.Add` | src/main/java/org/pdfsam/eventstudio/DefaultEventStudio.java:77-80 | the named station, created when missing, registers the listener for the class |
| `EventStudio.DefaultEventStudio.AddAnnotatedListeners` | src/main/java/org/pdfsam/eventstudio/DefaultEventStudio.java:82-95 | each group of annotated methods goes to its station's `addAll` |
| `EventStudio.DefaultEventStudio.AddHidden` | src/main/java/org/pdfsam/eventstudio/DefaultEventStudio.java:103-105 | `add` on the hidden station |
| `EventStudio.DefaultEventStudio.AddInferredHidden` | src/main/java/org/pdfsam/eventstudio/DefaultEventStudio.java:113-115 | inferred `add` on the hidden station |
| `EventStudio.DefaultEventStudio.AddInferredHiddenDefaults` | src/main/java/org/pdfsam/eventstudio/DefaultEventStudio.java:123-125 | inferred `add` on the hidden station with the defaults |
| `EventStudio.DefaultEventStudio.AddHiddenDefaults` | src/main/java/org/pdfsam/eventstudio/DefaultEventStudio.java:133-135 | `add` on the hidden station with the defaults |
| `EventStudio.DefaultEventStudio.SupervisorHidden` | src/main/java/org/pdfsam/eventstudio/DefaultEventStudio.java:144-146 | sets the hidden station's supervisor |
| `EventStudio.DefaultEventStudio.Supervisor` | src/main/java/org/pdfsam/eventstudio/DefaultEventStudio.java:148-151 | checks the supervisor for null, then sets the named station's supervisor |
| `EventStudio.DefaultEventStudio.RemoveInferred` | src/main/java/org/pdfsam/eventstudio/DefaultEventStudio.java:153-155 | inferred removal on the named station |
| `EventStudio.DefaultEventStudio.Remove` | src/main/java/org/pdfsam/eventstudio/DefaultEventStudio.java:157-159 | removal on the named station |
| `EventStudio.DefaultEventStudio.RemoveInferredHidden` | src/main/java/org/pdfsam/eventstudio/DefaultEventStudio.java:168-170 | inferred removal on the hidden station |
| `EventStudio.DefaultEventStudio.RemoveHidden` | src/main/java/org/pdfsam/eventstudio/DefaultEventStudio.java:179-181 | removal on the hidden station |
| `EventStudio.DefaultEventStudio.Clear` | src/main/java/org/pdfsam/eventstudio/DefaultEventStudio.java:183-185 | forgets the named station |
| `EventStudio.DefaultEventStudio.ClearHidden` | src/main/java/org/pdfsam/eventstudio/DefaultEventStudio.java:193-195 | forgets the hidden station |
| `EventStudio.DefaultEventStudio.Broadcast` | src/main/java/org/pdfsam/eventstudio/DefaultEventStudio.java:197-199 | broadcasts on the named station, created when missing |
| `EventStudio.DefaultEventStudio.BroadcastHidden` | src/main/java/org/pdfsam/eventstudio/DefaultEventStudio.java:207-209 | broadcasts on the hidden station |
| `EventStudio.DefaultEventStudio.BroadcastToEveryStation` | src/main/java/org/pdfsam/eventstudio/DefaultEventStudio.java:211-215 | broadcasts the event on every station in turn |
| `EventStudio.DefaultEventStudio.AddGroup` | src/main/java/org/pdfsam/eventstudio/DefaultEventStudio.java:86-89 | one group of annotated methods: the station is created when missing and runs `addAll` |
| `EventStudio.DefaultEventStudio.AddGroupAt` | src/main/java/org/pdfsam/eventstudio/DefaultEventStudio.java:86-89 | one pass of the annotated loop leaves exactly the rest of the specified registration to do |
| `EventStudio.DefaultEventStudio.BroadcastFrom` | src/main/java/org/pdfsam/eventstudio/DefaultEventStudio.java:211-215 | one pass of the loop over every station leaves exactly the rest of the specified broadcast to do |
| `EventStudio.DefaultEventStudio.BroadcastAt` | src/main/java/org/pdfsam/eventstudio/DefaultEventStudio.java:213-214 | the named station's new state and answer are those of its specified broadcast |
| `EventStudio.DefaultEventStudio.AddInferredOn` | src/main/java/org/pdfsam/eventstudio/DefaultEventStudio.java:65-67 | only the named station changes, to its specified inferred `add` |
| `EventStudio.DefaultEventStudio.AddOn` | src/main/java/org/pdfsam/eventstudio/DefaultEventStudio.java:77-80 | only the named station changes, to its specified `add` |
| `EventStudio.DefaultEventStudio.AddAllOn` | src/main/java/org/pdfsam/eventstudio/DefaultEventStudio.java:86-89 | only the named station changes, to its specified `addAll` |
| `EventStudio.DefaultEventStudio.SupervisorOn` | src/main/java/org/pdfsam/eventstudio/DefaultEventStudio.java:148-151 | only the named station changes, its supervisor replaced as specified |
| `EventStudio.DefaultEventStudio.RemoveInferredOn` | src/main/java/org/pdfsam/eventstudio/DefaultEventStudio.java:153-155 | only the named station changes, to its specified inferred `remove` |
| `EventStudio.DefaultEventStudio.RemoveOn` | src/main/java/org/pdfsam/eventstudio/DefaultEventStudio.java:157-159 | only the named station changes, to its specified `remove` |
| `EventStudio.DefaultEventStudio.BroadcastOn` | src/main/java/org/pdfsam/eventstudio/DefaultEventStudio.java:197-199 | only the named station changes, to its specified `broadcast` |
| `LegacyListeners.Wrap32` | src/main/java/org/eventstudio/Listeners.java:218-230 | 32-bit wrap-around of Java `int` arithmetic: congruent modulo 2^32 and unchanged within range |
| `LegacyListeners.Wrap32OfDifference` | src/main/java/org/eventstudio/Listeners.java:218-230 | the wrapped difference of two ints is 0 iff they are equal |
| `LegacyListeners.LegacyCompareTo` | src/main/java/org/eventstudio/Listeners.java:218-230 | the older comparison, with 32-bit subtraction, gives 0 only for the same holder |
| `LegacyListeners.LegacyCompareToOverflows` | src/main/java/org/eventstudio/Listeners.java:218-230 | priorities `Integer.MIN_VALUE` and 1 compare the wrong way round |
| `LegacyListeners.LegacyCompareToNotTransitive` | src/main/java/org/eventstudio/Listeners.java:218-230 | the older comparison is not transitive |
| `LegacyListeners.LegacyCompareToFollowsPriority` | src/main/java/org/eventstudio/Listeners.java:218-230 | between priorities in [-2^30, 2^30) the older comparison follows priority |
| `LegacyListeners.LegacyInsertMembers` | src/main/java/org/eventstudio/Listeners.java:44-56 | inserting adds exactly the new holder |
| `LegacyListeners.LegacySortedMembers` | src/main/java/org/eventstudio/Listeners.java:126-149 | the snapshot holds exactly the registered holders |
| `LegacyListeners.LegacyInsertSorted` | src/main/java/org/eventstudio/Listeners.java:126-149 | with safe priorities, insertion keeps priority order |
| `LegacyListeners.LegacySortedByPriority` | src/main/java/org/eventstudio/Listeners.java:126-149 | with safe priorities, the snapshot is in priority order |
| `LegacyListeners.LegacySnapshotMisorders` | src/main/java/org/eventstudio/Listeners.java:126-149 | with priorities `Integer.MIN_VALUE` and 1 the older snapshot notifies 1 first; the corrected order notifies `Integer.MIN_VALUE` first |
| `LegacyListeners.LegacyNewHolder` | src/main/java/org/eventstudio/Listeners.java:44-56 | the new holder carries the priority, the identity and a handle of the requested strength on the listener's wrapper |
| `LegacyListeners.LegacyAddAppends` | src/main/java/org/eventstudio/Listeners.java:44-56 | `add` appends one holder to its class and changes no other class |
| `LegacyListeners.RemoveFirstAt` | src/main/java/org/eventstudio/Listeners.java:94-108 | removing a holder drops exactly its first occurrence |
| `LegacyListeners.LegacyFirstMatch` | src/main/java/org/eventstudio/Listeners.java:65-85 | finds the first holder, in registration order, whose live wrapper equals the listener |
| `LegacyListeners.LegacyRemoveListenerFirstOnly` | src/main/java/org/eventstudio/Listeners.java:65-85 | only the first matching holder goes, the class goes when its list empties, other classes are untouched |
| `LegacyListeners.LegacyRemoveHolderExact` | src/main/java/org/eventstudio/Listeners.java:94-108 | `remove(class, holder)` drops that holder when present and otherwise changes nothing |
| `LegacyListeners.FirstIndex` | src/main/java/org/eventstudio/Listeners.java:94-108 | the first position holding the holder |
| `LegacyListeners.LegacyListeners.constructor` | src/main/java/org/eventstudio/Listeners.java:42-42 | a new registry is empty |
| `LegacyListeners.LegacyListeners.Add` | src/main/java/org/eventstudio/Listeners.java:44-56 | the registry becomes the specified registration |
| `LegacyListeners.LegacyListeners.RemoveListenerAndSetIfNeeded` | src/main/java/org/eventstudio/Listeners.java:110-120 | removes the holder and drops the class when its list empties |
| `LegacyListeners.LegacyListeners.RemoveHolder` | src/main/java/org/eventstudio/Listeners.java:94-108 | the registry becomes the specified removal of that holder |
| `LegacyListeners.LegacyListeners.Remove` | src/main/java/org/eventstudio/Listeners.java:65-85 | the loop removes the first live holder equal to the listener, as specified |
| `LegacyListeners.LegacyListeners.NullSafeGetListeners` | src/main/java/org/eventstudio/Listeners.java:126-149 | the snapshot is the holders sorted by the older comparison |
| `LegacyListeners.Corrected` | src/main/java/org/eventstudio/Listeners.java:218-230 | the same holder under the later package's comparator, against which the overflow is shown |
| `LegacyListeners.SafePriority` | src/main/java/org/eventstudio/Listeners.java:218-230 | priorities whose differences cannot overflow, the range in which `LegacyCompareToFollowsPriority` holds |
| `LegacyListeners.LegacyInsert` | src/main/java/org/eventstudio/Listeners.java:126-149 | `TreeSet.add` under the legacy comparator; `LegacyInsertMembers` and `LegacyInsertSorted` prove what it keeps |
| `LegacyListeners.LegacySorted` | src/main/java/org/eventstudio/Listeners.java:126-149 | the TreeSet copy of the list; `LegacySortedMembers` proves it keeps every holder, `LegacySortedByPriority` the order within the safe range, `LegacySnapshotMisorders` the misordering outside it |
| `LegacyListeners.LegacyHoldersOf` | src/main/java/org/eventstudio/Listeners.java:126-149 | the list of a class, empty when the class has no key |
| `LegacyListeners.LegacyAddSpec` | src/main/java/org/eventstudio/Listeners.java:44-56 | `add` appends the holder to its class's list; proved in `LegacyAddAppends` |
| `LegacyListeners.RemoveFirst` | src/main/java/org/eventstudio/Listeners.java:110-120 | `LinkedList.remove`: drop the first equal element; `RemoveFirstAt` proves it drops exactly that position |
| `LegacyListeners.LegacyRemoveFromList` | src/main/java/org/eventstudio/Listeners.java:110-120 | remove the holder from its class's list, and the key once the list is empty |
| `LegacyListeners.LegacyRemoveListenerSpec` | src/main/java/org/eventstudio/Listeners.java:65-85 | remove the first holder whose wrapper equals the listener's; proved in `LegacyRemoveListenerFirstOnly` |
| `LegacyListeners.LegacyRemoveHolderSpec` | src/main/java/org/eventstudio/Listeners.java:94-108 | remove that very holder when the class has a list; proved in `LegacyRemoveHolderExact` |
| `LegacyListeners.LegacySnapshotSpec` | src/main/java/org/eventstudio/Listeners.java:126-149 | a missing list is put in the map empty, and the answer is the TreeSet copy of the list |
| `LegacyStation.LegacyNotifications` | src/main/java/org/eventstudio/Station.java:77-97 | one notification per invoked holder, in order |
| `LegacyStation.LegacyPoll` | src/main/java/org/eventstudio/Station.java:114-119 | polling takes the head of a non-empty queue |
| `LegacyStation.LegacyWalkFacts` | src/main/java/org/eventstudio/Station.java:77-97 | every live holder is invoked and every dead one recorded, in snapshot order |
| `LegacyStation.RemoveFirstMembers` | src/main/java/org/eventstudio/Listeners.java:94-108 | removing a holder keeps every other one |
| `LegacyStation.LegacyPurgeMembers` | src/main/java/org/eventstudio/Station.java:85-88 | purging removes the dead holders and keeps the live ones |
| `LegacyStation.LegacyDoBroadcastKeepsInv` | src/main/java/org/eventstudio/Station.java:77-97 | a broadcast keeps each queue holding events of its own class |
| `LegacyStation.LegacyPollKeepsInv` | src/main/java/org/eventstudio/Station.java:114-119 | polling keeps the queue invariant |
| `LegacyStation.LegacyBroadcastReachesLive` | src/main/java/org/eventstudio/Station.java:77-97 | every live holder of the event's class is notified and stays registered |
| `LegacyStation.LegacyBroadcastPriorityOrder` | src/main/java/org/eventstudio/Station.java:77-97 | with safe priorities, listeners are notified in priority order |
| `LegacyStation.LegacyDrainWithLiveListener` | src/main/java/org/eventstudio/Station.java:109-120 | with a live listener, the loop re-delivers every queued event to it and empties the queue |
| `LegacyStation.LegacyDrainWithoutLiveListener` | src/main/java/org/eventstudio/Station.java:114-119 | with no live listener the loop never ends: after any number of rounds the queue is as long as before and nobody was notified |
| `LegacyStation.LegacyAddOfClearedListenerNeverReturns` | src/main/java/org/eventstudio/Station.java:109-120 | adding a WEAK listener that is collected at once, to a class with a queued event, never returns |
| `LegacyStation.ReplayStopsWithoutLiveListener` | src/main/java/org/pdfsam/eventstudio/Station.java:136-144 | the corrected replay stops after one round in the same situation, with the event back at the tail |
| `LegacyStation.LegacyRemovedListenerNotNotified` | src/main/java/org/eventstudio/Station.java:122-136 | once the single registration of a listener is removed, a broadcast of its class does not notify it |
| `LegacyStation.LegacyStation.constructor` | src/main/java/org/eventstudio/Station.java:52-55 | a new station has no listeners and no queues |
| `LegacyStation.LegacyStation.Create` | src/main/java/org/eventstudio/Station.java:52-55 | a blank name is refused; otherwise a new empty station |
| `LegacyStation.LegacyStation.GetQueue` | src/main/java/org/eventstudio/Station.java:57-67 | gives the class's queue, creating it when missing |
| `LegacyStation.LegacyStation.Dispatch` | src/main/java/org/eventstudio/Station.java:80-89 | the loop notifies the snapshot's live holders and purges the dead ones, as specified |
| `LegacyStation.LegacyStation.DoBroadcast` | src/main/java/org/eventstudio/Station.java:77-97 | the new state is the specified broadcast |
| `LegacyStation.LegacyStation.Broadcast` | src/main/java/org/eventstudio/Station.java:69-75 | a null event is refused; otherwise the supervisor inspects it, then `doBroadcast` |
| `LegacyStation.LegacyStation.PollQueue` | src/main/java/org/eventstudio/Station.java:114-119 | gives and removes the head of the class's queue |
| `LegacyStation.LegacyStation.Add` | src/main/java/org/eventstudio/Station.java:109-120 | null class or listener refused; otherwise register, then drain the class's queue |
| `LegacyStation.LegacyStation.Drain` | src/main/java/org/eventstudio/Station.java:114-119 | the loop performs the specified drain rounds |
| `LegacyStation.LegacyStation.AddInferred` | src/main/java/org/eventstudio/Station.java:99-107 | as `Add`, with the class taken from the listener |
| `LegacyStation.LegacyStation.Remove` | src/main/java/org/eventstudio/Station.java:132-136 | null class or listener refused; otherwise the specified removal |
| `LegacyStation.LegacyStation.RemoveInferred` | src/main/java/org/eventstudio/Station.java:122-130 | as `Remove`, with the class taken from the listener |
| `LegacyStation.LegacyStation.Supervior` | src/main/java/org/eventstudio/Station.java:146-149 | a null supervisor is refused; otherwise it replaces the old one |
| `LegacyStation.LegacyQueueOf` | src/main/java/org/eventstudio/Station.java:57-67 | the class's unbounded queue, empty when missing |
| `LegacyStation.LegacyEmptyState` | src/main/java/org/eventstudio/Station.java:52-55 | a new station: no listeners, no queues, the default supervisor |
| `LegacyStation.LegacyWalkOf` | src/main/java/org/eventstudio/Station.java:80-89 | the dispatch loop over the TreeSet copy; proved in `LegacyWalkMembers`, `LegacyWalkPriorityOrder` and `LegacyWalkFacts` |
| `LegacyStation.LegacyWalkMembers` | src/main/java/org/eventstudio/Station.java:80-89 | the walk splits the snapshot into its live holders, which get the event, and its collected ones |
| `LegacyStation.LegacyWalkPriorityOrder` | src/main/java/org/eventstudio/Station.java:80-89 | the listeners of a priority-sorted snapshot get the event in priority order |
| `LegacyStation.LegacyPurge` | src/main/java/org/eventstudio/Station.java:85-88 | the registry after the collected holders were removed one by one; proved in `LegacyPurgeMembers` |
| `LegacyStation.LegacyDoBroadcastSpec` | src/main/java/org/eventstudio/Station.java:77-97 | `doBroadcast`: every live listener gets the event, collected holders are removed, an unheard event is queued; proved in `LegacyBroadcastReachesLive` |
| `LegacyStation.LegacyBroadcastOp` | src/main/java/org/eventstudio/Station.java:69-75 | `broadcast`: a null event fails, otherwise the supervisor inspects it, then `doBroadcast` |
| `LegacyStation.LegacyRegistered` | src/main/java/org/eventstudio/Station.java:113-114 | the state after `listeners.add` and `getQueue` |
| `LegacyStation.LegacyDrain` | src/main/java/org/eventstudio/Station.java:114-119 | the drain loop of `add`, bounded by fuel; proved in `LegacyDrainWithLiveListener` and `LegacyDrainWithoutLiveListener` |
| `LegacyStation.LegacyAddOp` | src/main/java/org/eventstudio/Station.java:109-120 | `add`: null checks, registration, then the drain; `LegacyAddOfClearedListenerNeverReturns` is stated over it |
| `LegacyStation.LegacyAddInferredOp` | src/main/java/org/eventstudio/Station.java:99-107 | inferred `add`: a null listener fails, no inferred class fails, otherwise `LegacyAddOp` |
| `LegacyStation.LegacyRemoveOp` | src/main/java/org/eventstudio/Station.java:132-136 | `remove`: null checks, then the registry's removal; `LegacyRemovedListenerNotNotified` is stated over it |
| `LegacyStation.LegacyRemoveInferredOp` | src/main/java/org/eventstudio/Station.java:122-130 | inferred `remove`: a null listener fails, no inferred class fails, otherwise `LegacyRemoveOp` |
| `LegacyStation.LegacySupervisorOp` | src/main/java/org/eventstudio/Station.java:146-149 | a null supervisor fails, otherwise it replaces the old one |
| `LegacyStation.LegacyStation.Enqueue` | src/main/java/org/eventstudio/Station.java:90-96 | the event joins the tail of its class's queue, created when missing; nothing else changes |
| `LegacyStation.LegacyStation.Register` | src/main/java/org/eventstudio/Station.java:113-114 | the new state is the specified registration |

## Left out

- Reflection and annotations are left out. Working out an event class from a listener's
  generic type, reading `@EventListener`/`@EventStation` from a bean, and the order of
  `getDeclaredMethods` all become parameters. These are the inferred class, the annotated groups
  with their station keys, and the replay orders. Reflective invocation errors
  (`EventStudioException`) are not modelled.
- Concurrency is left out: the locks on `Station`, the concurrent maps and the blocking queues.
  Every operation is one atomic step.
- Garbage collection is the `cleared` parameter. The model does not say when a handle is
  cleared, and soft and weak handles behave alike.
- `Listeners.WrapperEquals`: a listener is an abstract identity, and `equals` between two
  listeners is modelled as equality of identities. A listener class whose own `equals` makes two
  distinct objects equal is not modelled.
- Exceptions thrown by a listener other than `BroadcastInterruptionException`, and exceptions
  from a supervisor, are not modelled.
- Logging is left out.
- The system property that sets the queue capacity is left out. The capacity is a positive
  parameter of each station.
- The iteration order of `HashMap`, `HashSet` and `ConcurrentHashMap` is a parameter. It affects
  `addAll`'s replay order, the group order of `addAnnotatedListeners` and the order of
  `broadcastToEveryStation`.
- `Listeners.CompareTo`: the tie-break `hashCode() - o.hashCode()` of the current code can
  overflow like the older comparison. It is modelled by unique identities, so that overflow and
  hash collisions are not modelled.
- `LegacyListeners.LegacySorted`: `TreeSet` placement under the older, non-transitive comparison
  is modelled as insertion into a list. It finds the same place as the red-black tree whenever
  the comparison is consistent.
- `LegacyStation.LegacyDrain`: the unbounded drain loop is modelled with a fuel bound. The
  non-termination is stated as "still not drained after any number of rounds".
- The older `org/eventstudio/DefaultEventStudio.java` consists of unimplemented stubs and is
  not modelled.
- `EventStudio.DefaultEventStudio` routing methods: they do not promise that the objects
  they add to the directory are fresh. They only promise the abstract state.
- `Station.name()` is a constant field. `toString` is not modelled.

## Findings

| source | as written | input that shows it | evidently intended | confidence | as-written member | corrected member |
|---|---|---|---|---|---|---|
| src/main/java/org/eventstudio/Listeners.java:218-230 | `compareTo` returns `priority - o.priority` in 32-bit `int` arithmetic | priorities `Integer.MIN_VALUE` and 1: the difference wraps to a positive number, so the listener of priority 1 is notified first and the comparison is not transitive | ascending priority for every pair of ints, as the current code compares | not executed | `LegacyListeners.LegacySnapshotMisorders` | `Listeners.CompareToIsTotalOrder` |
| src/main/java/org/eventstudio/Station.java:114-119 | `add(eventClass, ...)` polls the queued events and re-broadcasts them until the queue is empty | one queued event and a WEAK listener that is collected at once: every round puts the event back in the queue, so `add` never returns | stop replaying at the first event nobody received, as the current code does | not executed | `LegacyStation.LegacyAddOfClearedListenerNeverReturns` | `LegacyStation.ReplayStopsWithoutLiveListener` |
