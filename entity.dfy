/**
 * Handles on listener wrappers (Entity.java). A strong handle owns its referent; a referenced
 * handle goes through a soft or weak `java.lang.ref.Reference` that the collector may clear.
 * The collector is abstract: `cleared` is the set of reference identities it has cleared so far.
 */
module Entity {
  import opened Wrappers

  /** Identity of one `java.lang.ref.Reference` object. */
  type RefId = nat

  /** A soft or weak reference: its identity and the referent it was built on (possibly null). */
  datatype Reference<T> = Reference(id: RefId, referent: Option<T>)

  datatype Entity<T> =
    | StrongEntity(referent: Option<T>)
    | ReferencedEntity(reference: Reference<T>)
  {
    /** What the handle was built on, whether or not it can still be reached. */
    function Referent(): Option<T>
    {
      match this
      case StrongEntity(r) => r
      case ReferencedEntity(ref) => ref.referent
    }

    /** `get()`: a strong handle returns its referent; a referenced one returns null once cleared. */
    function Get(cleared: set<RefId>): (r: Option<T>)
      ensures r == Referent() || r == None
      ensures StrongEntity? ==> r == referent
      ensures ReferencedEntity? && reference.id !in cleared ==> r == reference.referent
      ensures ReferencedEntity? && reference.id in cleared ==> r == None
    {
      match this
      case StrongEntity(r) => r
      case ReferencedEntity(ref) => if ref.id in cleared then None else ref.referent
    }
  }

  /** `new StrongEntity(referent)`: any referent is accepted, null included. */
  function NewStrongEntity<T>(referent: Option<T>): (e: Entity<T>)
    ensures e.StrongEntity?
    ensures forall cleared :: e.Get(cleared) == referent
  {
    StrongEntity(referent)
  }

  /** `new ReferencedEntity(reference)`: a null reference is rejected. */
  function NewReferencedEntity<T>(reference: Option<Reference<T>>): (r: Result<Entity<T>>)
    ensures r.Failure? <==> reference.None?
    ensures r.Failure? ==> r.error == IllegalArgument
    ensures r.Success? ==> r.value.ReferencedEntity? && r.value.reference == reference.value
  {
    match reference
    case None => Failure(IllegalArgument)
    case Some(ref) => Success(ReferencedEntity(ref))
  }

  /**
   * Once the collector has cleared more references, a handle never comes back: what is null
   * stays null, and `get` never yields anything but the original referent.
   */
  lemma GetMonotonic<T>(e: Entity<T>, cleared: set<RefId>, later: set<RefId>)
    requires cleared <= later
    ensures e.Get(cleared) == None ==> e.Get(later) == None
    ensures e.Get(later) != None ==> e.Get(later) == e.Get(cleared) == e.Referent()
  {
  }
}
