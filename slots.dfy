/**
 * Correlation slots: a key names a typed slot that a waiting caller shares
 * with the command handler. Poll looks a slot up, Retrieve releases it,
 * FutureSet writes the answer into it and fulfils the promise.
 */
module Slots {
  import opened Base
  import ScanRecords

  /** The type a slot was created with (Shared<T>). */
  datatype Tag = BoolSlot | UIntSlot | SCharSlot | CellDiffSlot | LimbSlot | ContainerSlot

  datatype Value =
    | BoolValue(b: bool)
    | UIntValue(n: int)
    | SCharValue(c: int)
    | CellDiffValue(diff: CellDiff)
    | LimbValue(bits: bv16)
    | ContainerValue(records: seq<ScanRecords.Record>)

  function TagOf(v: Value): Tag
  {
    match v
    case BoolValue(_) => BoolSlot
    case UIntValue(_) => UIntSlot
    case SCharValue(_) => SCharSlot
    case CellDiffValue(_) => CellDiffSlot
    case LimbValue(_) => LimbSlot
    case ContainerValue(_) => ContainerSlot
  }

  /** A slot: its type, the value last stored, whether its promise was fulfilled. */
  datatype Slot = Slot(tag: Tag, value: Option<Value>, promised: bool)

  /** The live slots; a key that is absent has expired (or never existed). */
  type Store = map<Key, Slot>

  /** A fresh slot of type `tag` that nobody has answered yet. */
  function Share(store: Store, key: Key, tag: Tag): (s: Store)
    requires key != NO_KEY && key !in store
    ensures key in s && s[key].tag == tag && !s[key].promised && s[key].value == None
    ensures forall k :: k != key ==> (k in s <==> k in store)
    ensures forall k :: k in store ==> s[k] == store[k]
  {
    store[key := Slot(tag, None, false)]
  }

  /** Lockable::Retrieve: the key's slot is released. */
  function Retrieve(store: Store, key: Key): (s: Store)
    ensures key !in s
    ensures forall k :: k != key ==> (k in s <==> k in store)
    ensures forall k :: k in s ==> s[k] == store[k]
  {
    store - {key}
  }

  /**
   * FutureSet: "Storage has expired" when the slot is gone, "Storage is
   * corrupted" when it was made for another type; otherwise the value is
   * stored and the promise fulfilled. Fulfilling an already fulfilled
   * promise is swallowed.
   */
  function FutureSet(store: Store, key: Key, v: Value): (r: Result<Store>)
    ensures r == Err(StorageExpired) <==> key !in store
    ensures r == Err(StorageCorrupted) <==> key in store && store[key].tag != TagOf(v)
    ensures r.Ok? ==> key in r.value && r.value[key] == Slot(TagOf(v), Some(v), true)
    ensures r.Ok? ==> r.value.Keys == store.Keys
    ensures r.Ok? ==> forall k :: k in store && k != key ==> r.value[k] == store[k]
  {
    if key !in store then Err(StorageExpired)
    else if store[key].tag != TagOf(v) then Err(StorageCorrupted)
    else Ok(store[key := Slot(store[key].tag, Some(v), true)])
  }

  /** A second answer to the same slot succeeds too; the slot keeps the last value. */
  lemma DoubleFulfilmentIsSwallowed(store: Store, key: Key, v: Value, w: Value)
    requires FutureSet(store, key, v).Ok? && TagOf(w) == TagOf(v)
    ensures FutureSet(FutureSet(store, key, v).value, key, w).Ok?
    ensures FutureSet(FutureSet(store, key, v).value, key, w).value ==
            FutureSet(store, key, w).value
  {
  }

  /** What a waiter reads from a fulfilled slot: the value stored, once the promise is kept. */
  function Answer(store: Store, key: Key): (a: Option<Value>)
    ensures a.Some? ==> key in store && store[key].promised
  {
    if key in store && store[key].promised then store[key].value else None
  }

  /** After a successful FutureSet the waiter reads exactly the value written. */
  lemma FutureSetAnswers(store: Store, key: Key, v: Value)
    requires FutureSet(store, key, v).Ok?
    ensures Answer(FutureSet(store, key, v).value, key) == Some(v)
    ensures forall k :: k != key ==> Answer(FutureSet(store, key, v).value, k) == Answer(store, k)
  {
  }
}
