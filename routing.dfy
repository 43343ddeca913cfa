/**
 * How the command-issuing operations route a command: a guard may swallow
 * it (releasing the caller's key), DelayOrExecute may defer it until the
 * object's cell is in context (without a key), or it is issued at once
 * with the caller's key. On top of that: the lock and owner value
 * mappings, the lock state the game reports, and the translation of a
 * container diff into item commands.
 */
module Routing {
  import opened Base
  import opened Slots
  import opened CellSets
  import ScanRecords

  /** The base forms of the Pip-Boy and its gloves, which the player's inventory never gives up. */
  const PIPBOY_3000: int := 0x0001_5038
  const PIPBOY_GLOVES: int := 0x0002_5B83

  /** `if (key) Lockable::Retrieve(key);` */
  function Release(store: Store, key: Key): (s: Store)
    ensures key != NO_KEY ==> key !in s
    ensures key == NO_KEY ==> s == store
    ensures forall k :: k != key ==> (k in s <==> k in store)
    ensures forall k :: k in s ==> s[k] == store[k]
  {
    if key != NO_KEY then Retrieve(store, key) else store
  }

  /** What one command-issuing call leaves: the slots, the commands issued now, the tasks queued on the object. */
  datatype Step = Step(store: Store, issued: seq<Command>, deferred: seq<Command>)

  /** A task is a command waiting for its key. */
  type Task = Key -> Command

  ghost predicate CarriesKey(task: Task)
  {
    forall k :: KeyOf(task(k)) == k
  }

  /**
   * DelayOrExecute: an object whose game cell is not in context gets the
   * task queued with key 0, and the caller's key is released; otherwise the
   * task runs now with the caller's key.
   */
  function DelayOrExecute(store: Store, context: seq<int>, gameCell: int, task: Task, key: Key): (r: Step)
    ensures IsInContext(context, gameCell) ==> r == Step(store, [task(key)], [])
    ensures !IsInContext(context, gameCell) ==> r.issued == [] && r.deferred == [task(NO_KEY)]
    ensures !IsInContext(context, gameCell) ==> r.store == Release(store, key)
  {
    if !IsInContext(context, gameCell) then Step(Release(store, key), [], [task(NO_KEY)])
    else Step(store, [task(key)], [])
  }

  /**
   * No slot is left waiting: after DelayOrExecute the caller's key either
   * rides on a command issued now or has been released, and a deferred
   * command never carries a key.
   */
  lemma NoOrphanedKey(store: Store, context: seq<int>, gameCell: int, task: Task, key: Key)
    requires CarriesKey(task) && key != NO_KEY
    ensures var r := DelayOrExecute(store, context, gameCell, task, key);
            (exists c :: c in r.issued && KeyOf(c) == key) || key !in r.store
    ensures forall c :: c in DelayOrExecute(store, context, gameCell, task, key).deferred ==> KeyOf(c) == NO_KEY
  {
    var r := DelayOrExecute(store, context, gameCell, task, key);
    if IsInContext(context, gameCell) {
      assert task(key) in r.issued;
    }
  }

  /** The Pip-Boy guard: its base forms are never added to, removed from, equipped on or unequipped from the player. */
  predicate PipBoyGuard(ref: int, base: int)
  {
    (base == PIPBOY_3000 || base == PIPBOY_GLOVES) && ref == PLAYER_REFERENCE
  }

  /** The guard's early return: the key is released and nothing is issued. */
  function Swallow(store: Store, key: Key): (r: Step)
    ensures r.issued == [] && r.deferred == [] && r.store == Release(store, key)
  {
    Step(Release(store, key), [], [])
  }

  /** AddItem: stopped by the Pip-Boy guard, otherwise issued with the key in context and queued keyless out of it. */
  function AddItem(store: Store, context: seq<int>, gameCell: int, ref: int, base: int, count: int, silent: bool, key: Key): (r: Step)
    ensures PipBoyGuard(ref, base) ==> r == Swallow(store, key)
    ensures !PipBoyGuard(ref, base) && IsInContext(context, gameCell) ==>
              r == Step(store, [Command.AddItem(ref, base, count, silent, key)], [])
    ensures !PipBoyGuard(ref, base) && !IsInContext(context, gameCell) ==>
              r == Step(Release(store, key), [], [Command.AddItem(ref, base, count, silent, NO_KEY)])
  {
    if PipBoyGuard(ref, base) then Swallow(store, key)
    else DelayOrExecute(store, context, gameCell, k => Command.AddItem(ref, base, count, silent, k), key)
  }

  /** RemoveItem: routed as AddItem is. */
  function RemoveItem(store: Store, context: seq<int>, gameCell: int, ref: int, base: int, count: int, silent: bool, key: Key): (r: Step)
    ensures PipBoyGuard(ref, base) ==> r == Swallow(store, key)
    ensures !PipBoyGuard(ref, base) && IsInContext(context, gameCell) ==>
              r == Step(store, [Command.RemoveItem(ref, base, count, silent, key)], [])
    ensures !PipBoyGuard(ref, base) && !IsInContext(context, gameCell) ==>
              r == Step(Release(store, key), [], [Command.RemoveItem(ref, base, count, silent, NO_KEY)])
  {
    if PipBoyGuard(ref, base) then Swallow(store, key)
    else DelayOrExecute(store, context, gameCell, k => Command.RemoveItem(ref, base, count, silent, k), key)
  }

  /** EquipItem and UnequipItem issue at once; only the Pip-Boy guard stops them. */
  function EquipItem(store: Store, ref: int, base: int, silent: bool, stick: bool, key: Key): (r: Step)
    ensures PipBoyGuard(ref, base) ==> r == Swallow(store, key)
    ensures !PipBoyGuard(ref, base) ==>
              r.store == store && r.deferred == [] && r.issued == [Command.EquipItem(ref, base, silent, stick, key)]
  {
    if PipBoyGuard(ref, base) then Swallow(store, key)
    else Step(store, [Command.EquipItem(ref, base, silent, stick, key)], [])
  }

  function UnequipItem(store: Store, ref: int, base: int, silent: bool, stick: bool, key: Key): (r: Step)
    ensures PipBoyGuard(ref, base) ==> r == Swallow(store, key)
    ensures !PipBoyGuard(ref, base) ==>
              r.store == store && r.deferred == [] && r.issued == [Command.UnequipItem(ref, base, silent, stick, key)]
  {
    if PipBoyGuard(ref, base) then Swallow(store, key)
    else Step(store, [Command.UnequipItem(ref, base, silent, stick, key)], [])
  }

  /** The item commands on the player never touch a Pip-Boy form, and the key of such a call is released. */
  lemma PipBoyStaysPut(store: Store, context: seq<int>, gameCell: int, base: int, count: int, silent: bool, stick: bool, key: Key)
    requires base == PIPBOY_3000 || base == PIPBOY_GLOVES
    ensures AddItem(store, context, gameCell, PLAYER_REFERENCE, base, count, silent, key) == Swallow(store, key)
    ensures RemoveItem(store, context, gameCell, PLAYER_REFERENCE, base, count, silent, key) == Swallow(store, key)
    ensures EquipItem(store, PLAYER_REFERENCE, base, silent, stick, key) == Swallow(store, key)
    ensures UnequipItem(store, PLAYER_REFERENCE, base, silent, stick, key) == Swallow(store, key)
  {
  }

  /**
   * SetLock's value mapping: UINT_MAX means unlocked; UINT_MAX - 1 (broken)
   * cannot be set, so it becomes 255 (impossible to pick); any other level
   * is set as it is.
   */
  function LockCommand(ref: int, level: int, key: Key): (c: Command)
    ensures c.Unlock? <==> level == UINT_MAX
    ensures c.Lock? <==> level != UINT_MAX
    ensures c.Lock? ==> c.level == (if level == UINT_MAX - 1 then 255 else level)
    ensures c.ref == ref && c.key == key
  {
    var lock := if level == UINT_MAX - 1 then 255 else level;
    if lock != UINT_MAX then Lock(ref, lock, key) else Unlock(ref, key)
  }

  /** SetLock: the mapped lock command, with the key in context, queued keyless out of it. */
  function SetLock(store: Store, context: seq<int>, gameCell: int, ref: int, level: int, key: Key): (r: Step)
    ensures IsInContext(context, gameCell) ==> r == Step(store, [LockCommand(ref, level, key)], [])
    ensures !IsInContext(context, gameCell) ==> r == Step(Release(store, key), [], [LockCommand(ref, level, NO_KEY)])
  {
    DelayOrExecute(store, context, gameCell, k => LockCommand(ref, level, k), key)
  }

  /** SetOwner's value mapping: the player's own base stands for the player base form. */
  function OwnerParam(owner: int, playerBase: int): (o: int)
    ensures owner == playerBase ==> o == PLAYER_BASE
    ensures owner != playerBase ==> o == owner
  {
    if owner == playerBase then PLAYER_BASE else owner
  }

  /** SetOwner: SetOwnership with the mapped owner, with the key in context, queued keyless out of it. */
  function SetOwner(store: Store, context: seq<int>, gameCell: int, ref: int, owner: int, playerBase: int, key: Key): (r: Step)
    ensures IsInContext(context, gameCell) ==> r == Step(store, [SetOwnership(ref, OwnerParam(owner, playerBase), key)], [])
    ensures !IsInContext(context, gameCell) ==>
              r == Step(Release(store, key), [], [SetOwnership(ref, OwnerParam(owner, playerBase), NO_KEY)])
  {
    DelayOrExecute(store, context, gameCell, k => SetOwnership(ref, OwnerParam(owner, playerBase), k), key)
  }

  /**
   * An object the player owns goes out as owned by PLAYER_BASE, whichever
   * base the player has; any other owner goes out as it is. Either way the
   * single SetOwnership carries the key exactly when it is issued at once.
   */
  lemma OwnedByPlayer(store: Store, context: seq<int>, gameCell: int, ref: int, owner: int, playerBase: int, key: Key)
    ensures var r := SetOwner(store, context, gameCell, ref, owner, playerBase, key);
            |r.issued + r.deferred| == 1 &&
            (r.issued + r.deferred)[0] ==
              SetOwnership(ref, if owner == playerBase then PLAYER_BASE else owner,
                           if IsInContext(context, gameCell) then key else NO_KEY)
    ensures !IsInContext(context, gameCell) && key != NO_KEY ==>
              key !in SetOwner(store, context, gameCell, ref, owner, playerBase, key).store
  {
  }

  /** What GetLocked leaves: the object's lock level and the update sent to the server, if any. */
  datatype LockSeen = LockSeen(level: int, packet: Option<Packet>)

  /**
   * GetLocked: the game reports 0 (unlocked), 1 (locked) or 2 (broken).
   * Unlocked and broken are recorded as UINT_MAX and UINT_MAX - 1, and an
   * update goes to the server when the recorded level changes; a locked
   * report or any other value changes nothing.
   */
  function GetLocked(ref: int, level: int, reported: int): (r: LockSeen)
    ensures reported == 0 ==> r.level == UINT_MAX
    ensures reported == 2 ==> r.level == UINT_MAX - 1
    ensures reported != 0 && reported != 2 ==> r == LockSeen(level, None)
    ensures r.packet.Some? <==> r.level != level
    ensures r.packet.Some? ==> r.packet.value == UpdateLock(ref, r.level)
  {
    if reported == 0 then
      LockSeen(UINT_MAX, if level != UINT_MAX then Some(UpdateLock(ref, UINT_MAX)) else None)
    else if reported == 2 then
      LockSeen(UINT_MAX - 1, if level != UINT_MAX - 1 then Some(UpdateLock(ref, UINT_MAX - 1)) else None)
    else LockSeen(level, None)
  }

  /** A lock report that repeats sends nothing the second time. */
  lemma GetLockedIdempotent(ref: int, level: int, reported: int)
    ensures GetLocked(ref, GetLocked(ref, level, reported).level, reported).packet == None
    ensures GetLocked(ref, GetLocked(ref, level, reported).level, reported).level == GetLocked(ref, level, reported).level
  {
  }

  /**
   * What the game reports and what SetLock sends back agree: a level
   * recorded as unlocked is sent as Unlock, one recorded as broken as the
   * impossible lock 255.
   */
  lemma LockRoundTrip(ref: int, level: int, key: Key)
    ensures LockCommand(ref, GetLocked(ref, level, 0).level, key) == Unlock(ref, key)
    ensures LockCommand(ref, GetLocked(ref, level, 2).level, key) == Lock(ref, 255, key)
  {
  }

  /** One line of a container diff, as ApplyDiff returns it: count and equip deltas of one base form. */
  datatype DiffLine = DiffLine(base: int, count: int, equipped: int, silent: bool, stick: bool)

  /**
   * net_UpdateContainer for one line: an equip change is an EquipItem or
   * UnequipItem; otherwise a count change is an AddItem or a RemoveItem of
   * the count's magnitude; a line that changes neither issues nothing.
   */
  function LineStep(store: Store, context: seq<int>, gameCell: int, ref: int, d: DiffLine, key: Key): (r: Step)
    ensures |r.issued| + |r.deferred| <= 1
    ensures forall c :: c in r.deferred ==> KeyOf(c) == NO_KEY
    ensures forall k :: k in r.store ==> k in store && r.store[k] == store[k]
    ensures forall k :: k in store && k != key ==> k in r.store
  {
    if d.equipped > 0 then EquipItem(store, ref, d.base, d.silent, d.stick, key)
    else if d.equipped < 0 then UnequipItem(store, ref, d.base, d.silent, d.stick, key)
    else if d.count > 0 then AddItem(store, context, gameCell, ref, d.base, d.count, d.silent, key)
    else if d.count < 0 then RemoveItem(store, context, gameCell, ref, d.base, -d.count, d.silent, key)
    else Step(store, [], [])
  }

  /** The lines in order; `keys` are the keys the container's lock hands out, one per line. */
  function ApplyDiff(store: Store, context: seq<int>, gameCell: int, ref: int, lines: seq<DiffLine>, keys: seq<Key>): (r: Step)
    requires |keys| == |lines|
    ensures |r.issued| + |r.deferred| <= |lines|
    ensures forall c :: c in r.deferred ==> KeyOf(c) == NO_KEY
    ensures forall k :: k in r.store ==> k in store && r.store[k] == store[k]
    ensures forall k :: k in store && k !in keys ==> k in r.store
    decreases |lines|
  {
    if lines == [] then Step(store, [], [])
    else
      var first := LineStep(store, context, gameCell, ref, lines[0], keys[0]);
      var rest := ApplyDiff(first.store, context, gameCell, ref, lines[1..], keys[1..]);
      assert forall k :: k in keys[1..] ==> k in keys;
      Step(rest.store, first.issued + rest.issued, first.deferred + rest.deferred)
  }

  /** The command a diff line stands for, independent of guards and routing. */
  function LineCommand(ref: int, d: DiffLine, key: Key): (c: Option<Command>)
    ensures c.None? <==> d.equipped == 0 && d.count == 0
    ensures c.Some? ==> KeyOf(c.value) == key && BaseOf(c.value) == Some(d.base)
    ensures c.Some? && c.value.AddItem? ==> c.value.count == d.count > 0
    ensures c.Some? && c.value.RemoveItem? ==> c.value.count == -d.count > 0
  {
    if d.equipped > 0 then Some(Command.EquipItem(ref, d.base, d.silent, d.stick, key))
    else if d.equipped < 0 then Some(Command.UnequipItem(ref, d.base, d.silent, d.stick, key))
    else if d.count > 0 then Some(Command.AddItem(ref, d.base, d.count, d.silent, key))
    else if d.count < 0 then Some(Command.RemoveItem(ref, d.base, -d.count, d.silent, key))
    else None
  }

  function LineCommands(ref: int, lines: seq<DiffLine>, keys: seq<Key>): seq<Command>
    requires |keys| == |lines|
  {
    if lines == [] then []
    else
      var c := LineCommand(ref, lines[0], keys[0]);
      (if c.Some? then [c.value] else []) + LineCommands(ref, lines[1..], keys[1..])
  }

  /**
   * For a container other than the player whose cell is in context, the
   * diff issues exactly one command per changing line, with that line's
   * key, and neither defers nor releases anything.
   */
  lemma {:induction false} ApplyDiffInContext(store: Store, context: seq<int>, gameCell: int, ref: int, lines: seq<DiffLine>, keys: seq<Key>)
    requires |keys| == |lines| && ref != PLAYER_REFERENCE && IsInContext(context, gameCell)
    ensures ApplyDiff(store, context, gameCell, ref, lines, keys) == Step(store, LineCommands(ref, lines, keys), [])
    decreases |lines|
  {
    if lines != [] {
      ApplyDiffInContext(store, context, gameCell, ref, lines[1..], keys[1..]);
    }
  }

  ghost predicate OutOfContextShape(r: Step)
  {
    (forall c :: c in r.issued ==> c.EquipItem? || c.UnequipItem?) &&
    (forall c :: c in r.deferred ==> (c.AddItem? || c.RemoveItem?) && c.key == NO_KEY)
  }

  lemma LineOutOfContext(store: Store, context: seq<int>, gameCell: int, ref: int, d: DiffLine, key: Key)
    requires !IsInContext(context, gameCell)
    ensures OutOfContextShape(LineStep(store, context, gameCell, ref, d, key))
  {
  }

  /**
   * For a container whose cell is not in context, equip changes are issued
   * at once and count changes are deferred without a key.
   */
  lemma {:induction false} ApplyDiffOutOfContext(store: Store, context: seq<int>, gameCell: int, ref: int, lines: seq<DiffLine>, keys: seq<Key>)
    requires |keys| == |lines| && !IsInContext(context, gameCell)
    ensures OutOfContextShape(ApplyDiff(store, context, gameCell, ref, lines, keys))
    decreases |lines|
  {
    if lines != [] {
      var first := LineStep(store, context, gameCell, ref, lines[0], keys[0]);
      LineOutOfContext(store, context, gameCell, ref, lines[0], keys[0]);
      ApplyDiffOutOfContext(first.store, context, gameCell, ref, lines[1..], keys[1..]);
    }
  }

  ghost predicate SparesPipBoy(r: Step)
  {
    (forall c :: c in r.issued ==> BaseOf(c).Some? && BaseOf(c).value != PIPBOY_3000 && BaseOf(c).value != PIPBOY_GLOVES) &&
    (forall c :: c in r.deferred ==> BaseOf(c).Some? && BaseOf(c).value != PIPBOY_3000 && BaseOf(c).value != PIPBOY_GLOVES)
  }

  lemma LineSparesPipBoy(store: Store, context: seq<int>, gameCell: int, d: DiffLine, key: Key)
    ensures SparesPipBoy(LineStep(store, context, gameCell, PLAYER_REFERENCE, d, key))
  {
  }

  /** On the player, no command of a diff names a Pip-Boy form. */
  lemma {:induction false} ApplyDiffSparesPipBoy(store: Store, context: seq<int>, gameCell: int, lines: seq<DiffLine>, keys: seq<Key>)
    requires |keys| == |lines|
    ensures SparesPipBoy(ApplyDiff(store, context, gameCell, PLAYER_REFERENCE, lines, keys))
    decreases |lines|
  {
    if lines != [] {
      var first := LineStep(store, context, gameCell, PLAYER_REFERENCE, lines[0], keys[0]);
      LineSparesPipBoy(store, context, gameCell, lines[0], keys[0]);
      ApplyDiffSparesPipBoy(first.store, context, gameCell, lines[1..], keys[1..]);
    }
  }

  /** GetRemoveAllItemsEx: every scanned record is removed silently, without a key. */
  function RemoveRecords(store: Store, context: seq<int>, gameCell: int, ref: int, records: seq<ScanRecords.Record>): (r: Step)
    ensures r.store == store
    ensures |r.issued| + |r.deferred| <= |records|
    ensures forall c :: c in r.issued + r.deferred ==> c.RemoveItem? && c.ref == ref && c.silent && c.key == NO_KEY
    decreases |records|
  {
    if records == [] then Step(store, [], [])
    else
      var first := RemoveItem(store, context, gameCell, ref, records[0].baseID, records[0].count, true, NO_KEY);
      var rest := RemoveRecords(first.store, context, gameCell, ref, records[1..]);
      Step(rest.store, first.issued + rest.issued, first.deferred + rest.deferred)
  }

  function RemoveAllItemsEx(store: Store, context: seq<int>, gameCell: int, ref: int, data: seq<ScanRecords.byte>): Step
  {
    RemoveRecords(store, context, gameCell, ref, ScanRecords.Records(data))
  }

  /**
   * For a container other than the player in context: one silent
   * RemoveItem per record, in record order, and no slot is touched.
   */
  lemma {:induction false} RemoveRecordsInContext(store: Store, context: seq<int>, gameCell: int, ref: int, records: seq<ScanRecords.Record>)
    requires ref != PLAYER_REFERENCE && IsInContext(context, gameCell)
    ensures RemoveRecords(store, context, gameCell, ref, records).store == store
    ensures RemoveRecords(store, context, gameCell, ref, records).deferred == []
    ensures |RemoveRecords(store, context, gameCell, ref, records).issued| == |records|
    ensures forall i :: 0 <= i < |records| ==>
              RemoveRecords(store, context, gameCell, ref, records).issued[i] ==
              Command.RemoveItem(ref, records[i].baseID, records[i].count, true, NO_KEY)
    decreases |records|
  {
    if records != [] {
      RemoveRecordsInContext(store, context, gameCell, ref, records[1..]);
    }
  }
}
