/**
 * The cell interest index: which refIDs the client knows in which cell, by
 * object type, and which cells surround the player (the context). Objects are
 * enabled in game when their cell is in context and disabled otherwise.
 */
module CellIndex {
  import opened Base
  import opened CellSets
  import opened Slots
  import TypeFlags
  import opened RefSets
  import Switching

  /** The refIDs of the buckets of one cell whose type matches the mask. */
  function CellPart(refs: CellRefs, cell: int, mask: bv8): set<int>
  {
    if cell == 0 then {}
    else
      var m := Inner(refs, cell);
      Gather(m, m.Keys, mask)
  }

  /** The refIDs GetContext gathers: the matching buckets of every nonzero context cell. */
  function ContextRefs(refs: CellRefs, context: seq<int>, mask: bv8): (r: set<int>)
    ensures forall c :: c in context ==> CellPart(refs, c, mask) <= r
  {
    if context == [] then {}
    else
      var init, last := context[..|context| - 1], context[|context| - 1];
      assert context == init + [last];
      ContextRefs(refs, init, mask) + CellPart(refs, last, mask)
  }

  /** Membership in ContextRefs, both ways, in terms of single buckets. */
  lemma {:induction false} ContextRefsMembers(refs: CellRefs, context: seq<int>, mask: bv8, x: int)
    ensures x in ContextRefs(refs, context, mask) <==>
            exists c, t :: c in context && c != 0 && HasType(t, mask) && x in Bucket(refs, c, t)
  {
    if context != [] {
      var init, last := context[..|context| - 1], context[|context| - 1];
      assert context == init + [last];
      ContextRefsMembers(refs, init, mask, x);
      if x in CellPart(refs, last, mask) {
        var m := Inner(refs, last);
        var t :| t in m.Keys && t in m && x in m[t] && HasType(t, mask);
        assert x in Bucket(refs, last, t);
      }
      if exists c, t :: c in context && c != 0 && HasType(t, mask) && x in Bucket(refs, c, t) {
        var c, t :| c in context && c != 0 && HasType(t, mask) && x in Bucket(refs, c, t);
        if c !in init {
          assert c == last;
          var m := Inner(refs, last);
          assert t in m.Keys && t in m && x in m[t];
          assert x in CellPart(refs, last, mask);
        }
      }
    }
  }

  /** An object's fields that the index reads and writes. */
  class Obj {
    var refID: int
    const objectType: bv8
    const baseID: int
    const persistent: bool
    var networkCell: int
    var gameCell: int
    var enabled: bool

    constructor (refID: int, objectType: bv8, baseID: int, persistent: bool, networkCell: int)
      ensures this.refID == refID && this.objectType == objectType && this.baseID == baseID
      ensures this.persistent == persistent && this.networkCell == networkCell
      ensures gameCell == 0 && !enabled
    {
      this.refID := refID;
      this.objectType := objectType;
      this.baseID := baseID;
      this.persistent := persistent;
      this.networkCell := networkCell;
      gameCell := 0;
      enabled := false;
    }
  }

  /** The bucket key of an object's type. */
  function Key8(t: bv8): int
  {
    t as int
  }

  /** The forms a cell scan asks for; GetNextRef maps them to object types. */
  datatype FormType = InventoryForms | ActorForms | OtherForms(code: int)

  /** `typemap[type]`: an unknown form type is default-inserted as type 0. */
  function TypeMap(f: FormType): (t: int)
    ensures f.InventoryForms? ==> t == Key8(TypeFlags.ID_ITEM)
    ensures f.ActorForms? ==> t == Key8(TypeFlags.ID_ACTOR)
    ensures f.OtherForms? ==> t == 0
  {
    match f
    case InventoryForms => Key8(TypeFlags.ID_ITEM)
    case ActorForms => Key8(TypeFlags.ID_ACTOR)
    case OtherForms(_) => 0
  }

  /**
   * A scan stores into one bucket: the items' or the actors' tag, each a
   * single object bit; any other form type lands in bucket 0, which no
   * type mask gathers, so GetContext never returns its refIDs.
   */
  lemma ScanBucketTag(f: FormType)
    ensures TypeMap(f) == 0 <==> f.OtherForms?
    ensures TypeMap(f) != 0 ==> 0 < TypeMap(f) < 256 && TypeFlags.SingleBit(TypeMap(f) as bv8) &&
                                TypeFlags.Within(TypeMap(f) as bv8, TypeFlags.ALL_OBJECTS)
    ensures HasType(TypeMap(f), TypeFlags.ID_ITEM) <==> f.InventoryForms?
    ensures HasType(TypeMap(f), TypeFlags.ALL_ACTORS) <==> f.ActorForms?
    ensures f.OtherForms? ==> forall mask: bv8 :: !HasType(TypeMap(f), mask)
  {
  }

  /** `cellRefs[cell][type].swap(data)`: the bucket becomes `s`. */
  function SetBucket(refs: CellRefs, cell: int, t: int, s: set<int>): (r: CellRefs)
    ensures Bucket(r, cell, t) == s
    ensures forall c, u :: c != cell || u != t ==> Bucket(r, c, u) == Bucket(refs, c, u)
  {
    var r := refs[cell := Inner(refs, cell)[t := s]];
    assert Inner(r, cell) == Inner(refs, cell)[t := s];
    assert forall c :: c != cell ==> Inner(r, c) == Inner(refs, c);
    r
  }

  /** The client side of the cell index: the buckets, the context and the state of a running cell scan. */
  class Index {
    var cellRefs: CellRefs
    var cellContext: seq<int>
    /** The engine commands issued so far. */
    var commands: seq<Command>

    /** GetNextRef's static state. */
    var scanFirst: bool
    var scanCell: int
    var scanType: int
    var scanData: set<int>
    /** The nonzero refIDs reported since the running scan began. */
    ghost var scanReported: seq<int>

    ghost predicate Valid()
      reads this
    {
      Sorted(cellContext) &&
      scanData == Elems(scanReported) &&
      (scanFirst ==> scanData == {} && scanReported == [])
    }

    constructor ()
      ensures Valid() && cellRefs == map[] && cellContext == [] && commands == []
      ensures scanFirst && scanData == {}
    {
      cellRefs, cellContext, commands := map[], [], [];
      scanFirst, scanCell, scanType, scanData := true, 0, 0, {};
      scanReported := [];
    }

    /**
     * NewObject, as far as the index goes: an object without a refID is
     * placed at the player with PlaceAtMe under a fresh `key` and gets the
     * refID the engine answers (none in time is an error); a persistent
     * object is enabled in its network cell; then its refID joins the
     * bucket of its network cell and type. `condition` stands for the item
     * condition the placement passes (1.0 for anything but an item).
     */
    method NewObject(obj: Obj, key: Key, condition: int, answer: Option<int>) returns (res: Result<int>)
      requires Valid()
      modifies this`cellRefs, this`commands, obj
      ensures Valid()
      ensures old(obj.refID) == 0 ==> commands == old(commands) + [PlaceAtMe(PLAYER_REFERENCE, obj.baseID, condition, 1, key)]
      ensures old(obj.refID) != 0 ==> commands == old(commands)
      ensures old(obj.refID) == 0 && answer.None? ==> res == Err(Timeout) && cellRefs == old(cellRefs)
      ensures old(obj.refID) == 0 && answer.None? ==> obj.refID == 0 && obj.enabled == old(obj.enabled)
      ensures res.Ok? ==> res.value == obj.refID &&
                          obj.refID == (if old(obj.refID) == 0 then answer.value else old(obj.refID))
      ensures res.Ok? ==> cellRefs == Insert(old(cellRefs), obj.networkCell, Key8(obj.objectType), obj.refID)
      ensures res.Ok? && obj.persistent ==> obj.enabled && obj.gameCell == obj.networkCell
      ensures res.Ok? && !obj.persistent ==> obj.enabled == old(obj.enabled) && obj.gameCell == old(obj.gameCell)
      ensures obj.networkCell == old(obj.networkCell)
    {
      if obj.refID == 0 {
        commands := commands + [PlaceAtMe(PLAYER_REFERENCE, obj.baseID, condition, 1, key)];
        if answer.None? {
          return Err(Timeout);
        }
        obj.refID := answer.value;
      }
      if obj.persistent {
        obj.enabled := true;
        obj.gameCell := obj.networkCell;
      }
      cellRefs := Insert(cellRefs, obj.networkCell, Key8(obj.objectType), obj.refID);
      res := Ok(obj.refID);
    }

    /** RemoveObject: disable it if enabled, mark it for deletion, drop it from its bucket. */
    method RemoveObject(obj: Obj)
      requires Valid()
      modifies this`cellRefs, this`commands, obj`enabled
      ensures Valid() && !obj.enabled
      ensures cellRefs == Erase(old(cellRefs), obj.networkCell, Key8(obj.objectType), obj.refID)
      ensures commands == old(commands) + (if old(obj.enabled) then [ToggleEnabled(obj.refID)] else [])
                          + [MarkForDelete(obj.refID)]
    {
      if obj.enabled {
        obj.enabled := false;
        commands := commands + [ToggleEnabled(obj.refID)];
      }
      commands := commands + [MarkForDelete(obj.refID)];
      cellRefs := Erase(cellRefs, obj.networkCell, Key8(obj.objectType), obj.refID);
    }

    /**
     * The first half of LoadEnvironment's per-object step: a non-persistent
     * object, and the player, is dropped from its bucket; a non-persistent
     * object other than the player also forgets its refID, so that it is
     * placed anew.
     */
    method ForgetForReload(obj: Obj)
      requires Valid()
      modifies this`cellRefs, obj`refID
      ensures Valid()
      ensures !obj.persistent || old(obj.refID) == PLAYER_REFERENCE ==>
                cellRefs == Erase(old(cellRefs), obj.networkCell, Key8(obj.objectType), old(obj.refID))
      ensures obj.persistent && old(obj.refID) != PLAYER_REFERENCE ==> cellRefs == old(cellRefs)
      ensures obj.refID == (if !obj.persistent && old(obj.refID) != PLAYER_REFERENCE then 0 else old(obj.refID))
    {
      if !obj.persistent || obj.refID == PLAYER_REFERENCE {
        cellRefs := Erase(cellRefs, obj.networkCell, Key8(obj.objectType), obj.refID);
        if obj.refID != PLAYER_REFERENCE {
          obj.refID := 0;
        }
      }
    }

    /**
     * net_SetCell: the object's network cell becomes `cell`; an object other
     * than the player is enabled and moved to the player when the cell is in
     * context and disabled otherwise; its refID moves from the old cell's
     * bucket to the new one's.
     */
    method SetCell(obj: Obj, player: Obj, cell: int)
      requires Valid()
      modifies this`cellRefs, this`commands, obj
      ensures Valid()
      ensures obj.networkCell == cell && obj.refID == old(obj.refID)
      ensures cellRefs == Insert(Erase(old(cellRefs), old(obj.networkCell), Key8(obj.objectType), obj.refID),
                                 cell, Key8(obj.objectType), obj.refID)
      ensures obj.refID in Bucket(cellRefs, cell, Key8(obj.objectType))
      ensures old(obj.networkCell) != cell ==> obj.refID !in Bucket(cellRefs, old(obj.networkCell), Key8(obj.objectType))
      ensures obj != player ==> obj.enabled == IsInContext(cellContext, cell)
      ensures obj != player && IsInContext(cellContext, cell) ==> obj.gameCell == cell
      ensures obj == player || !IsInContext(cellContext, cell) ==> obj.gameCell == old(obj.gameCell)
      ensures obj == player ==> obj.enabled == old(obj.enabled) && commands == old(commands)
      ensures obj != player ==> commands == old(commands) + SetCellCommands(obj.refID, player.refID,
                IsInContext(cellContext, cell), old(obj.enabled), old(obj.gameCell) != cell)
    {
      var oldCell := obj.networkCell;
      obj.networkCell := cell;
      if obj != player {
        var inContext := IsInContext(cellContext, cell);
        ApplyCellChange(obj, player.refID, inContext, cell);
      }
      cellRefs := MoveRef(cellRefs, oldCell, cell, Key8(obj.objectType), obj.refID);
    }

    /** The enable / move part of net_SetCell for an object other than the player. */
    method ApplyCellChange(obj: Obj, player: int, inContext: bool, cell: int)
      modifies this`commands, obj`enabled, obj`gameCell
      ensures obj.enabled == inContext
      ensures obj.gameCell == if inContext then cell else old(obj.gameCell)
      ensures commands == old(commands) + SetCellCommands(obj.refID, player, inContext, old(obj.enabled), old(obj.gameCell) != cell)
    {
      if inContext {
        if !obj.enabled {
          obj.enabled := true;
          commands := commands + [ToggleEnabled(obj.refID)];
        }
        if obj.gameCell != cell {
          obj.gameCell := cell;
          commands := commands + [MoveTo(obj.refID, player, true, NO_KEY)];
        }
      } else {
        if obj.enabled {
          obj.enabled := false;
          commands := commands + [ToggleEnabled(obj.refID)];
        }
      }
    }

    /**
     * GetContext: every refID in a bucket of a nonzero context cell whose
     * type shares a bit with the mask.
     */
    method GetContext(mask: bv8) returns (result: seq<int>)
      ensures Elems(result) == ContextRefs(cellRefs, cellContext, mask)
    {
      result := [];
      var i := 0;
      while i < |cellContext|
        invariant 0 <= i <= |cellContext|
        invariant Elems(result) == ContextRefs(cellRefs, cellContext[..i], mask)
      {
        var cell := cellContext[i];
        assert cellContext[..i + 1][..i] == cellContext[..i];
        if cell != 0 {
          var part := CellRefsOf(Inner(cellRefs, cell), mask);
          result := result + part;
        }
        i := i + 1;
      }
      assert cellContext[..i] == cellContext;
    }

    /**
     * The first half of net_UpdateContext: the player moves to the first
     * cell of the new context (in the player bucket too); the context is
     * replaced by the sorted new list; the buckets of the cells that entered
     * and that left are copied.
     */
    method Recenter(player: Obj, context: seq<int>) returns (entering: seq<int>, leaving: seq<int>, copy: CellRefs)
      requires Valid() && |context| > 0
      modifies this`cellRefs, this`cellContext, player`networkCell, player`gameCell
      ensures Valid()
      ensures player.networkCell == context[0] && player.gameCell == context[0]
      ensures cellRefs == Insert(Erase(old(cellRefs), old(player.networkCell), Key8(TypeFlags.ID_PLAYER), PLAYER_REFERENCE),
                                 context[0], Key8(TypeFlags.ID_PLAYER), PLAYER_REFERENCE)
      ensures cellContext == Sort(context)
      ensures entering == SetDifference(Sort(context), old(cellContext))
      ensures leaving == SetDifference(old(cellContext), Sort(context))
      ensures forall c :: c in copy <==> c != 0 && (c in entering || c in leaving)
      ensures forall c :: c in copy ==> copy[c] == Inner(cellRefs, c)
    {
      var oldCell := player.networkCell;
      player.networkCell := context[0];
      player.gameCell := context[0];
      cellRefs := Erase(cellRefs, oldCell, Key8(TypeFlags.ID_PLAYER), PLAYER_REFERENCE);
      cellRefs := Insert(cellRefs, context[0], Key8(TypeFlags.ID_PLAYER), PLAYER_REFERENCE);
      var sorted := Sort(context);
      entering := SetDifference(sorted, cellContext);
      leaving := SetDifference(cellContext, sorted);
      cellContext := sorted;
      copy := CopyBuckets(cellRefs, leaving, entering);
    }

    /**
     * net_UpdateContext: Recenter, then every object of a leaving cell is
     * disabled unless it is persistent, and every object of an entering
     * cell is enabled and moved to the player when its game cell changes.
     * `objs` is what the client knows of its objects; `switched` is their
     * new state.
     */
    method UpdateContext(player: Obj, context: seq<int>, objs: Switching.Objects)
      returns (entering: seq<int>, leaving: seq<int>, copy: CellRefs, switched: Switching.Objects)
      requires Valid() && |context| > 0
      modifies this`cellRefs, this`cellContext, this`commands, player`networkCell, player`gameCell
      ensures Valid()
      ensures player.networkCell == context[0] && player.gameCell == context[0]
      ensures cellRefs == Insert(Erase(old(cellRefs), old(player.networkCell), Key8(TypeFlags.ID_PLAYER), PLAYER_REFERENCE),
                                 context[0], Key8(TypeFlags.ID_PLAYER), PLAYER_REFERENCE)
      ensures cellContext == Sort(context)
      ensures entering == SetDifference(Sort(context), old(cellContext))
      ensures leaving == SetDifference(old(cellContext), Sort(context))
      ensures forall c :: c in copy <==> c != 0 && (c in entering || c in leaving)
      ensures forall c :: c in copy ==> copy[c] == Inner(cellRefs, c)
      ensures (switched, commands) == (Switching.Switch(objs, copy, leaving, entering).0,
                                       old(commands) + Switching.Switch(objs, copy, leaving, entering).1)
      ensures switched.Keys == objs.Keys
      ensures forall r :: r in objs && r != PLAYER_REFERENCE && Switching.InCells(cellRefs, entering, r) ==>
                switched[r] == Switching.Known(objs[r].persistent, true, Switching.LastCell(cellRefs, entering, r))
      ensures forall r :: r in objs && r != PLAYER_REFERENCE && !Switching.InCells(cellRefs, entering, r) &&
                          Switching.InCells(cellRefs, leaving, r) && !objs[r].persistent ==>
                switched[r] == objs[r].(enabled := false)
      ensures forall r :: r in objs && (r == PLAYER_REFERENCE || (!Switching.InCells(cellRefs, entering, r) &&
                          (!Switching.InCells(cellRefs, leaving, r) || objs[r].persistent))) ==>
                switched[r] == objs[r]
    {
      entering, leaving, copy := Recenter(player, context);
      var cmds;
      switched, cmds := Switching.SwitchObjects(objs, copy, leaving, entering);
      commands := commands + cmds;
      Switching.SwitchOnIndex(objs, copy, cellRefs, leaving, entering);
    }

    /**
     * GetNextRef: the first call of a scan fixes the player's cell and the
     * object type; a nonzero refID is accumulated and the next one asked
     * for; the terminating 0 answers the slot with the difference to the
     * stored bucket, stores the scanned set in its place and starts afresh.
     */
    method GetNextRef(key: Key, refID: int, form: FormType, playerCell: int, store: Store) returns (res: Result<Store>)
      requires Valid()
      modifies this`cellRefs, this`commands, this`scanFirst, this`scanCell, this`scanType, this`scanData, this`scanReported
      ensures Valid()
      ensures scanCell == (if old(scanFirst) then playerCell else old(scanCell))
      ensures scanType == (if old(scanFirst) then TypeMap(form) else old(scanType))
      ensures refID != 0 ==> res == Ok(store) && scanData == old(scanData) + {refID} && !scanFirst
      ensures refID != 0 ==> commands == old(commands) + [NextRef(key)] && cellRefs == old(cellRefs)
      ensures refID == 0 ==> commands == old(commands)
      ensures refID == 0 && key !in store ==> res == Err(StorageExpired)
      ensures refID == 0 && key in store && store[key].tag != CellDiffSlot ==> res == Err(StorageCorrupted)
      ensures refID == 0 && res.Err? ==> !scanFirst && scanData == old(scanData) && cellRefs == old(cellRefs)
      ensures refID == 0 && key in store && store[key].tag == CellDiffSlot ==>
                res == FutureSet(store, key, CellDiffValue(CellDiff(
                         old(scanData) - Bucket(old(cellRefs), scanCell, scanType),
                         Bucket(old(cellRefs), scanCell, scanType) - old(scanData)))) &&
                res.Ok? &&
                cellRefs == SetBucket(old(cellRefs), scanCell, scanType, old(scanData)) &&
                scanFirst && scanData == {}
    {
      if scanFirst {
        scanCell := playerCell;
        scanType := TypeMap(form);
        scanFirst := false;
      }
      if refID != 0 {
        scanData := scanData + {refID};
        scanReported := scanReported + [refID];
        commands := commands + [NextRef(key)];
        return Ok(store);
      }
      if key !in store {
        return Err(StorageExpired);
      }
      if store[key].tag != CellDiffSlot {
        return Err(StorageCorrupted);
      }
      var refs := Bucket(cellRefs, scanCell, scanType);
      var diff := CellDiff(scanData - refs, refs - scanData);
      cellRefs := SetBucket(cellRefs, scanCell, scanType, scanData);
      scanData := {};
      scanReported := [];
      res := FutureSet(store, key, CellDiffValue(diff));
      scanFirst := true;
    }
  }

  /** net_SetCell's bucket step: erase from the old cell's bucket, insert into the new one's. */
  function MoveRef(refs: CellRefs, from: int, to: int, t: int, ref: int): (r: CellRefs)
    ensures r == Insert(Erase(refs, from, t, ref), to, t, ref)
    ensures ref in Bucket(r, to, t)
    ensures from != to ==> ref !in Bucket(r, from, t)
    ensures forall c, u :: (c != from && c != to) || u != t ==> Bucket(r, c, u) == Bucket(refs, c, u)
  {
    Insert(Erase(refs, from, t, ref), to, t, ref)
  }

  /** The commands net_SetCell issues for an object other than the player. */
  function SetCellCommands(ref: int, player: int, inContext: bool, wasEnabled: bool, moves: bool): seq<Command>
  {
    if inContext then
      (if !wasEnabled then [ToggleEnabled(ref)] else []) + (if moves then [MoveTo(ref, player, true, NO_KEY)] else [])
    else
      (if wasEnabled then [ToggleEnabled(ref)] else [])
  }

  /** The buckets of the nonzero cells that left and that entered the context. */
  method CopyBuckets(refs: CellRefs, leaving: seq<int>, entering: seq<int>) returns (copy: CellRefs)
    ensures forall c :: c in copy <==> c != 0 && (c in entering || c in leaving)
    ensures forall c :: c in copy ==> copy[c] == Inner(refs, c)
  {
    copy := map[];
    var i := 0;
    while i < |leaving|
      invariant 0 <= i <= |leaving|
      invariant forall c :: c in copy <==> c != 0 && c in leaving[..i]
      invariant forall c :: c in copy ==> copy[c] == Inner(refs, c)
    {
      if leaving[i] != 0 {
        copy := copy[leaving[i] := Inner(refs, leaving[i])];
      }
      assert leaving[..i + 1] == leaving[..i] + [leaving[i]];
      i := i + 1;
    }
    assert leaving[..i] == leaving;
    i := 0;
    while i < |entering|
      invariant 0 <= i <= |entering|
      invariant forall c :: c in copy <==> c != 0 && (c in leaving || c in entering[..i])
      invariant forall c :: c in copy ==> copy[c] == Inner(refs, c)
    {
      if entering[i] != 0 {
        copy := copy[entering[i] := Inner(refs, entering[i])];
      }
      assert entering[..i + 1] == entering[..i] + [entering[i]];
      i := i + 1;
    }
    assert entering[..i] == entering;
  }

  /** The object kinds LoadEnvironment places anew. */
  datatype Spawn = SpawnObject | SpawnItem | SpawnContainer | SpawnActor | SpawnPlayer | StaysInContainer

  /**
   * LoadEnvironment's dispatch on an object's type: one New* per type, an
   * item inside a container is left to its container, any other type throws.
   */
  function SpawnKind(objectType: bv8, inContainer: bool): (r: Result<Spawn>)
    ensures r.Err? <==> objectType !in TypeFlags.TAGS[1..]
    ensures r.Err? ==> r.error == UnknownType(objectType)
    ensures r == Ok(StaysInContainer) <==> objectType == TypeFlags.ID_ITEM && inContainer
  {
    if objectType == TypeFlags.ID_OBJECT then Ok(SpawnObject)
    else if objectType == TypeFlags.ID_ITEM then (if inContainer then Ok(StaysInContainer) else Ok(SpawnItem))
    else if objectType == TypeFlags.ID_CONTAINER then Ok(SpawnContainer)
    else if objectType == TypeFlags.ID_ACTOR then Ok(SpawnActor)
    else if objectType == TypeFlags.ID_PLAYER then Ok(SpawnPlayer)
    else Err(UnknownType(objectType))
  }

  /**
   * LoadEnvironment first restores every global and then, when one is set,
   * the weather. The globals are restored in ascending id order here; the
   * unordered_map they come from fixes no order of its own.
   */
  function EnvironmentCommands(globals: Globals, weather: int): (r: seq<Command>)
    ensures Restores(globals, weather, r)
  {
    var ids := Switching.Ascending(globals.Keys);
    IdsInGlobals(globals, ids);
    var restore := GlobalCommands(globals, ids);
    var tail: seq<Command> := if weather != 0 then [SetWeather(weather)] else [];
    EnvironmentShape(globals, weather, ids, restore, tail);
    restore + tail
  }

  lemma IdsInGlobals(globals: Globals, ids: seq<int>)
    requires Elems(ids) == globals.Keys
    ensures forall i :: 0 <= i < |ids| ==> ids[i] in globals
  {
    forall i | 0 <= i < |ids|
      ensures ids[i] in globals
    {
      assert ids[i] in Elems(ids);
    }
  }

  /**
   * What LoadEnvironment issues first: every global with its value, each
   * command before the weather a SetGlobalValue of a stored global, and
   * the weather last exactly when it is set.
   */
  ghost predicate Restores(globals: Globals, weather: int, r: seq<Command>)
  {
    (forall g :: g in globals ==> SetGlobalValue(g, globals[g]) in r) &&
    (weather != 0 ==> r != [] && r[|r| - 1] == SetWeather(weather)) &&
    (forall i :: 0 <= i < |r| && !(weather != 0 && i == |r| - 1) ==>
       r[i].SetGlobalValue? && r[i].global in globals && r[i].value == globals[r[i].global]) &&
    (SetWeather(weather) in r <==> weather != 0)
  }

  lemma EnvironmentShape(globals: Globals, weather: int, ids: seq<int>, restore: seq<Command>, tail: seq<Command>)
    requires Elems(ids) == globals.Keys && forall i :: 0 <= i < |ids| ==> ids[i] in globals
    requires restore == GlobalCommands(globals, ids)
    requires tail == if weather != 0 then [SetWeather(weather)] else []
    ensures Restores(globals, weather, restore + tail)
  {
    var r := restore + tail;
    forall g | g in globals
      ensures SetGlobalValue(g, globals[g]) in r
    {
      assert g in Elems(ids);
      var i :| 0 <= i < |ids| && ids[i] == g;
      assert r[i] == restore[i];
    }
    forall i | 0 <= i < |r| && !(weather != 0 && i == |r| - 1)
      ensures r[i].SetGlobalValue? && r[i].global in globals && r[i].value == globals[r[i].global]
    {
      assert i < |restore|;
      assert r[i] == restore[i] == SetGlobalValue(ids[i], globals[ids[i]]);
    }
    assert forall c :: c in restore ==> c.SetGlobalValue?;
  }

  /** SetGlobalValue for each id of `ids`, in their order. */
  function GlobalCommands(globals: Globals, ids: seq<int>): (r: seq<Command>)
    requires forall i :: 0 <= i < |ids| ==> ids[i] in globals
    ensures |r| == |ids|
    ensures forall i :: 0 <= i < |ids| ==> r[i] == SetGlobalValue(ids[i], globals[ids[i]])
  {
    if ids == [] then []
    else [SetGlobalValue(ids[0], globals[ids[0]])] + GlobalCommands(globals, ids[1..])
  }

  /** A repeated context update reports no entering and no leaving cell. */
  lemma RepeatedContextIsQuiet(context: seq<int>)
    ensures SetDifference(Sort(context), Sort(context)) == []
  {
    DifferenceWithSelf(Sort(context));
  }

  /**
   * On context lists without repeated cells, entering is exactly the new
   * cells that were not in context and leaving the old cells that are no
   * longer in it.
   */
  lemma ContextDiffMembers(oldContext: seq<int>, context: seq<int>, c: int)
    requires Sorted(oldContext)
    ensures c in SetDifference(Sort(context), oldContext) ==> c in context
    ensures c in context && c !in oldContext ==> c in SetDifference(Sort(context), oldContext)
    ensures c in SetDifference(oldContext, Sort(context)) ==> c in oldContext
    ensures c in oldContext && c !in context ==> c in SetDifference(oldContext, Sort(context))
  {
    var s := Sort(context);
    assert c in s <==> c in multiset(s);
    assert c in context <==> c in multiset(context);
    DifferenceMembers(s, oldContext, c);
    DifferenceMembers(oldContext, s, c);
  }
}
