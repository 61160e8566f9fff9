/** The three listener lifetimes (ReferenceStrength.java) and the handle each one builds. */
module ReferenceStrength {
  import opened Wrappers
  import opened Entity

  datatype Strength = STRONG | SOFT | WEAK

  /**
   * `getReference(referent)`: STRONG keeps the referent itself, SOFT and WEAK go through a new
   * reference object whose identity is `refId`.
   */
  function GetReference<T>(strength: Strength, referent: Option<T>, refId: RefId): (e: Entity<T>)
    ensures e.Referent() == referent
    ensures strength == STRONG <==> e.StrongEntity?
    ensures e.ReferencedEntity? ==> e.reference == Reference(refId, referent)
  {
    match strength
    case STRONG => NewStrongEntity(referent)
    case SOFT => NewReferencedEntity(Some(Reference(refId, referent))).value
    case WEAK => NewReferencedEntity(Some(Reference(refId, referent))).value
  }

  /** A STRONG handle resolves to its referent whatever the collector has done. */
  lemma StrongAlwaysResolves<T>(referent: Option<T>, refId: RefId, cleared: set<RefId>)
    ensures GetReference(STRONG, referent, refId).Get(cleared) == referent
  {
  }

  /**
   * SOFT and WEAK handles resolve to their referent until the collector clears their
   * reference, and to null afterwards.
   */
  lemma ReferencedMayClear<T>(strength: Strength, referent: Option<T>, refId: RefId, cleared: set<RefId>)
    requires strength != STRONG
    ensures GetReference(strength, referent, refId).Get(cleared) == if refId in cleared then None else referent
  {
  }

  /** SOFT and WEAK build the same kind of handle; only the collector's policy tells them apart. */
  lemma SoftAndWeakAlike<T>(referent: Option<T>, refId: RefId, cleared: set<RefId>)
    ensures GetReference(SOFT, referent, refId).Get(cleared) == GetReference(WEAK, referent, refId).Get(cleared)
  {
  }
}
