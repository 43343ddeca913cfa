/**
 * The object type tags of the game factory and the checked casts built on
 * them. Each tag is one bit of an `unsigned char`, so a set of types is a mask
 * and "is this reference a T" is a bitwise AND.
 */
module TypeFlags {
  import opened Base

  const ID_REFERENCE: bv8 := 0x01
  const ID_OBJECT: bv8 := ID_REFERENCE << 1
  const ID_ITEM: bv8 := ID_OBJECT << 1
  const ID_CONTAINER: bv8 := ID_ITEM << 1
  const ID_ACTOR: bv8 := ID_CONTAINER << 1
  const ID_PLAYER: bv8 := ID_ACTOR << 1

  const ALL_OBJECTS: bv8 := ID_OBJECT | ID_ITEM | ID_CONTAINER | ID_ACTOR | ID_PLAYER
  const ALL_CONTAINERS: bv8 := ID_CONTAINER | ID_ACTOR | ID_PLAYER
  const ALL_ACTORS: bv8 := ID_ACTOR | ID_PLAYER

  /** A mask with exactly one bit set. */
  predicate SingleBit(f: bv8)
  {
    f != 0 && f & (f - 1) == 0
  }

  /** Mask `a` is contained in mask `b`. */
  predicate Within(a: bv8, b: bv8)
  {
    a & b == a
  }

  /** The six tags, from the least to the most derived class. */
  const TAGS: seq<bv8> := [ID_REFERENCE, ID_OBJECT, ID_ITEM, ID_CONTAINER, ID_ACTOR, ID_PLAYER]

  lemma TagsAreDistinctBits()
    ensures forall i :: 0 <= i < |TAGS| ==> SingleBit(TAGS[i])
    ensures forall i, j :: 0 <= i < j < |TAGS| ==> TAGS[i] & TAGS[j] == 0
    ensures TAGS[0] == 0x01 && TAGS[5] == 0x20
    ensures forall i :: 0 < i < |TAGS| ==> TAGS[i] == TAGS[i - 1] << 1
  {
  }

  lemma MasksNest()
    ensures Within(ALL_ACTORS, ALL_CONTAINERS) && Within(ALL_CONTAINERS, ALL_OBJECTS)
    ensures ALL_ACTORS != ALL_CONTAINERS && ALL_CONTAINERS != ALL_OBJECTS
    ensures ID_REFERENCE & ALL_OBJECTS == 0
  {
  }

  /** The classes a reference can be cast to. */
  datatype Class = Object | Item | Container | Actor | Player

  /**
   * vaultcast<T>: an Object cast always succeeds, the others succeed exactly
   * when the reference's type shares a bit with the class's mask.
   */
  function CastMask(c: Class): bv8
  {
    match c
    case Object => 0xFF
    case Item => ID_ITEM
    case Container => ALL_CONTAINERS
    case Actor => ALL_ACTORS
    case Player => ID_PLAYER
  }

  predicate VaultCast(c: Class, objectType: bv8): (b: bool)
    ensures b && c != Object ==> objectType & ALL_OBJECTS != 0
    ensures objectType == ID_REFERENCE ==> (b <==> c == Object)
  {
    c == Object || objectType & CastMask(c) != 0
  }

  /**
   * The class hierarchy the tags stand for, stated independently of the
   * masks: Player is an Actor, Actor is a Container, Container and Item are
   * Objects.
   */
  function DirectParent(c: Class): Option<Class>
  {
    match c
    case Object => None
    case Item => Some(Object)
    case Container => Some(Object)
    case Actor => Some(Container)
    case Player => Some(Actor)
  }

  function Depth(c: Class): nat
  {
    match c
    case Object => 0
    case Item => 1
    case Container => 1
    case Actor => 2
    case Player => 3
  }

  predicate IsA(c: Class, ancestor: Class)
    decreases Depth(c)
  {
    c == ancestor || match DirectParent(c)
                     case None => false
                     case Some(p) => Depth(p) < Depth(c) && IsA(p, ancestor)
  }

  /** The tag of the most derived class a reference can have. */
  function TagOf(c: Class): bv8
  {
    match c
    case Object => ID_OBJECT
    case Item => ID_ITEM
    case Container => ID_CONTAINER
    case Actor => ID_ACTOR
    case Player => ID_PLAYER
  }

  /** On a reference of a single class, vaultcast follows the class hierarchy. */
  lemma CastFollowsHierarchy(k: Class, c: Class)
    ensures VaultCast(c, TagOf(k)) <==> IsA(k, c)
  {
  }

  /** A cast that succeeds for a class also succeeds for every class above it. */
  lemma CastIsMonotone(objectType: bv8)
    ensures VaultCast(Player, objectType) ==> VaultCast(Actor, objectType)
    ensures VaultCast(Actor, objectType) ==> VaultCast(Container, objectType)
    ensures VaultCast(Container, objectType) ==> VaultCast(Object, objectType)
    ensures VaultCast(Item, objectType) ==> VaultCast(Object, objectType)
  {
  }
}
