/**
 * CommandHandler: the engine's answer to one command comes back with the
 * command's key, its opcode and arguments, a result and an error flag. On
 * success the key is polled, kept or released depending on the opcode, and
 * the answer is written into the key's slot or handed to the handler for
 * the object it concerns; on failure only PlaceAtMeHealthPercent is
 * issued again, as written with the key in the place of the count
 * (`CommandHandler`) and as corrected (`FixedCommandHandler`). Also the
 * startup job queue.
 */
module Dispatch {
  import opened Base
  import opened Slots
  import Limbs
  import ScanRecords

  /** An engine function, by name. */
  type Opcode = string

  /** Opcodes whose key is polled: their waiter reads the answer from the slot. */
  const POLLED: set<Opcode> := {
    "ForceRespawn", "RemoveAllItemsEx", "ScanContainer", "CenterOnCell", "CenterOnExterior",
    "PlaceAtMeHealthPercent", "GetCauseofDeath", "GetRefCount", "GetBaseObject", "CenterOnWorld", "Load"}

  /** Opcodes whose key is neither polled nor released here: their own handler uses it. */
  const KEPT: set<Opcode> := {"IsLimbGone", "GetFirstRef", "GetNextRef"}

  /** Opcodes whose answer goes to the handler for the object named in the arguments. */
  const OBSERVED: set<Opcode> := {
    "GetPos", "GetAngle", "GetActorValue", "GetBaseActorValue", "GetActorState", "GetDead",
    "GetLocked", "Chat", "GetParentCell", "GetControl", "GetFirstRef", "GetNextRef"}

  /** Opcodes whose answer is dropped. */
  const SILENT: set<Opcode> := {
    "SetPos", "SetAngle", "ForceActorValue", "DamageActorValue", "RestoreActorValue", "SetActorValue",
    "PlayGroup", "PlayIdle", "Kill", "MoveTo", "Enable", "Disable", "SetRestrained", "SetAlert",
    "SetForceSneak", "AddItem", "AddItemHealthPercent", "RemoveItem", "RemoveAllItems", "EquipItem",
    "UnequipItem", "FireWeapon", "EnablePlayerControls", "DisablePlayerControls", "SetINISetting",
    "Lock", "Unlock", "SetOwnership", "Chatbox", "SetGlobalValue", "MarkForDelete", "AgeRace",
    "MatchRace", "SexChange", "ForceWeather", "SetRefCount", "SetCurrentHealth", "UIMessage",
    "EnableControl", "DisableControl", "DisableKey", "EnableKey", "SetName"}

  /** Every opcode the success switch has a case for. */
  const HANDLED: set<Opcode> := POLLED + KEPT + OBSERVED + SILENT

  /** The arguments of the answer a handler receives: opcode, the arguments it reads, the result. */
  datatype Observation = Observation(op: Opcode, args: seq<int>, result: int)

  datatype Effect =
    | Quiet                              // nothing beyond the key routing
    | Answered                           // the key's slot was written and its promise fulfilled
    | Observed(obs: Observation)         // handed to the object's handler
    | ObservedAnswered(obs: Observation) // handed on, then the slot fulfilled with `true`
    | Reissued(cmd: Command)             // the failed command goes out again

  /** The slots after the call, and what the call did or the exception it raised. */
  datatype Handled = Handled(store: Store, outcome: Result<Effect>)

  /** `info.at(i)`; info[0] is the opcode, so argument i is `args[i - 1]`. */
  function At(args: seq<int>, i: nat): (r: Result<int>)
    requires i >= 1
    ensures r.Ok? <==> i <= |args|
    ensures r.Ok? ==> r.value == args[i - 1]
    ensures r.Err? ==> r.error == MissingArgument
  {
    if i <= |args| then Ok(args[i - 1]) else Err(MissingArgument)
  }

  /** The first `n` arguments, or the exception of the first missing one. */
  function Args(args: seq<int>, n: nat): (r: Result<seq<int>>)
    ensures r.Ok? <==> n <= |args|
    ensures r.Ok? ==> r.value == args[..n]
    ensures r.Err? ==> r.error == MissingArgument
  {
    if n <= |args| then Ok(args[..n]) else Err(MissingArgument)
  }

  /** How many arguments the handler of an observed opcode reads. */
  function ArgsRead(op: Opcode): nat
  {
    if op in {"GetPos", "GetAngle", "GetActorValue", "GetBaseActorValue"} then 2
    else if op in {"GetNextRef", "Chat"} then 0
    else 1
  }

  /** The key routing before the switch: polled, kept, or released. */
  function RouteKey(store: Store, key: Key, op: Opcode): (r: Store)
    ensures key == NO_KEY || op in POLLED || op in KEPT ==> r == store
    ensures key != NO_KEY && op !in POLLED && op !in KEPT ==> r == Retrieve(store, key)
  {
    if key != NO_KEY && op !in POLLED && op !in KEPT then Retrieve(store, key) else store
  }

  /** Lockable::Poll: the slot behind a nonzero key, if it still exists. */
  function Poll(store: Store, key: Key, op: Opcode): (shared: Option<Key>)
    ensures shared.Some? <==> key != NO_KEY && op in POLLED && key in store
    ensures shared.Some? ==> shared.value == key
  {
    if key != NO_KEY && op in POLLED && key in store then Some(key) else None
  }

  /** FutureSet on the polled slot: an empty handle has expired. */
  function SetShared(store: Store, shared: Option<Key>, v: Value): (r: Handled)
    ensures shared.None? ==> r == Handled(store, Err(StorageExpired))
    ensures shared.Some? && FutureSet(store, shared.value, v).Ok? ==> r == Handled(FutureSet(store, shared.value, v).value, Ok(Answered))
    ensures shared.Some? && FutureSet(store, shared.value, v).Err? ==> r == Handled(store, Err(FutureSet(store, shared.value, v).error))
  {
    if shared.None? then Handled(store, Err(StorageExpired))
    else
      match FutureSet(store, shared.value, v)
      case Ok(s) => Handled(s, Ok(Answered))
      case Err(e) => Handled(store, Err(e))
  }

  /** A handler that reads `n` arguments, then gets the answer. */
  function Observe(store: Store, op: Opcode, args: seq<int>, n: nat, result: int): (r: Handled)
  {
    match Args(args, n)
    case Err(e) => Handled(store, Err(e))
    case Ok(a) => Handled(store, Ok(Observed(Observation(op, a, result))))
  }

  /** Every slot but `key`'s is where it was, with the same contents. */
  ghost predicate OnlyOwnSlot(before: Store, after: Store, key: Key)
  {
    forall k :: k != key ==> (k in after <==> k in before) && (k in before ==> after[k] == before[k])
  }

  /**
   * The success path. `result` is the command's result as an integer;
   * `data` is the buffer a scan's result points at. An answer touches no
   * other caller's slot; a released key is gone; an unknown opcode raises
   * after the routing.
   */
  function OnSuccess(store0: Store, key: Key, op: Opcode, args: seq<int>, result: int, data: seq<ScanRecords.byte>): (r: Handled)
    ensures OnlyOwnSlot(store0, r.store, key)
    ensures key != NO_KEY && op !in POLLED && op !in KEPT ==> key !in r.store
    ensures op !in HANDLED ==> r == Handled(RouteKey(store0, key, op), Err(UnhandledFunction(op)))
  {
    var shared := Poll(store0, key, op);
    var store := RouteKey(store0, key, op);
    if op == "PlaceAtMeHealthPercent" || op == "GetBaseObject" || op == "GetRefCount" then
      SetShared(store, shared, UIntValue(result))
    else if op == "GetCauseofDeath" then SetShared(store, shared, SCharValue(result))
    else if op in {"CenterOnCell", "CenterOnExterior", "ForceRespawn", "CenterOnWorld", "Load"} then
      SetShared(store, shared, BoolValue(true))
    else if op == "ScanContainer" then
      match At(args, 1)
      case Err(e) => Handled(store, Err(e))
      case Ok(ref) =>
        if key != NO_KEY then SetShared(store, shared, ContainerValue(ScanRecords.Records(data)))
        else Handled(store, Ok(Observed(Observation(op, [ref], result))))
    else if op == "RemoveAllItemsEx" then
      match At(args, 1)
      case Err(e) => Handled(store, Err(e))
      case Ok(ref) =>
        var done := SetShared(store, shared, BoolValue(true));
        if done.outcome.Ok? then Handled(done.store, Ok(ObservedAnswered(Observation(op, [ref], result)))) else done
    else if op == "IsLimbGone" then
      match At(args, 2)
      case Err(e) => Handled(store, Err(e))
      case Ok(limb) =>
        match Limbs.IsLimbGone(store, key, limb, result != 0)
        case Ok(s) => Handled(s, Ok(Answered))
        case Err(e) => Handled(store, Err(e))
    else if op == "Chat" then
      if result == 0 then Handled(store, Ok(Quiet)) else Observe(store, op, args, 0, result)
    else if op in OBSERVED then Observe(store, op, args, ArgsRead(op), result)
    else if op in SILENT then Handled(store, Ok(Quiet))
    else Handled(store, Err(UnhandledFunction(op)))
  }

  /**
   * The failure path's retry as written: the third argument given as the
   * condition, and the key passed in the place of the count, so the
   * command goes out again with count `key` and no key.
   */
  function RetryAsWritten(args: seq<int>, key: Key): (r: Result<Command>)
    ensures r.Ok? <==> |args| >= 3
    ensures r.Ok? ==> r.value == PlaceAtMe(args[0], args[1], args[2], key, NO_KEY)
  {
    match Args(args, 3)
    case Err(e) => Err(e)
    case Ok(a) => Ok(PlaceAtMe(a[0], a[1], a[2], key, NO_KEY))
  }

  /** The retry as evidently intended: the same placement again, carrying the same key. */
  function Retry(args: seq<int>, key: Key): (r: Result<Command>)
    ensures r.Ok? <==> |args| >= 4
    ensures r.Ok? ==> r.value == PlaceAtMe(args[0], args[1], args[2], args[3], key)
  {
    match Args(args, 4)
    case Err(e) => Err(e)
    case Ok(a) => Ok(PlaceAtMe(a[0], a[1], a[2], a[3], key))
  }

  /** The failure path as written: only PlaceAtMeHealthPercent goes out again, through `RetryAsWritten`. */
  function OnFailure(store: Store, key: Key, op: Opcode, args: seq<int>): (r: Handled)
    ensures r.store == store
    ensures op != "PlaceAtMeHealthPercent" ==> r.outcome == Ok(Quiet)
    ensures op == "PlaceAtMeHealthPercent" && |args| >= 3 ==>
              r.outcome == Ok(Reissued(PlaceAtMe(args[0], args[1], args[2], key, NO_KEY)))
    ensures op == "PlaceAtMeHealthPercent" && |args| < 3 ==> r.outcome == Err(MissingArgument)
  {
    if op == "PlaceAtMeHealthPercent" then
      match RetryAsWritten(args, key)
      case Err(e) => Handled(store, Err(e))
      case Ok(c) => Handled(store, Ok(Reissued(c)))
    else Handled(store, Ok(Quiet))
  }

  /** The failure path corrected: the placement goes out again through `Retry`. */
  function FixedOnFailure(store: Store, key: Key, op: Opcode, args: seq<int>): (r: Handled)
    ensures r.store == store
    ensures op != "PlaceAtMeHealthPercent" ==> r.outcome == Ok(Quiet)
    ensures op == "PlaceAtMeHealthPercent" && |args| >= 4 ==>
              r.outcome == Ok(Reissued(PlaceAtMe(args[0], args[1], args[2], args[3], key)))
    ensures op == "PlaceAtMeHealthPercent" && |args| < 4 ==> r.outcome == Err(MissingArgument)
  {
    if op == "PlaceAtMeHealthPercent" then
      match Retry(args, key)
      case Err(e) => Handled(store, Err(e))
      case Ok(c) => Handled(store, Ok(Reissued(c)))
    else Handled(store, Ok(Quiet))
  }

  /** Game::CommandHandler as written. */
  function CommandHandler(store: Store, key: Key, op: Opcode, args: seq<int>, result: int,
                          data: seq<ScanRecords.byte>, error: bool): (r: Handled)
    ensures OnlyOwnSlot(store, r.store, key)
    ensures error ==> r.store == store
  {
    if error then OnFailure(store, key, op, args) else OnSuccess(store, key, op, args, result, data)
  }

  /** Game::CommandHandler with the corrected retry; the success path is the same. */
  function FixedCommandHandler(store: Store, key: Key, op: Opcode, args: seq<int>, result: int,
                               data: seq<ScanRecords.byte>, error: bool): (r: Handled)
    ensures error ==> r.store == store
    ensures !error ==> r == CommandHandler(store, key, op, args, result, data, false)
  {
    if error then FixedOnFailure(store, key, op, args) else OnSuccess(store, key, op, args, result, data)
  }

  /**
   * Key routing on success: an opcode outside the polled and kept groups
   * releases its key before anything else happens, an unknown opcode
   * included, which then raises "Unhandled function".
   */
  lemma ReleasedUnlessPolledOrKept(store: Store, key: Key, op: Opcode, args: seq<int>, result: int, data: seq<ScanRecords.byte>)
    requires key != NO_KEY && op !in POLLED && op !in KEPT
    ensures key !in CommandHandler(store, key, op, args, result, data, false).store
    ensures op !in HANDLED ==> CommandHandler(store, key, op, args, result, data, false) ==
                               Handled(Retrieve(store, key), Err(UnhandledFunction(op)))
  {
  }

  /** An answer for a polled opcode without a key finds no slot: "Storage has expired", nothing changes. */
  lemma UnkeyedAnswerExpires(store: Store, op: Opcode, args: seq<int>, result: int, data: seq<ScanRecords.byte>)
    requires op in {"PlaceAtMeHealthPercent", "GetBaseObject", "GetRefCount", "GetCauseofDeath",
                    "CenterOnCell", "CenterOnExterior", "ForceRespawn", "CenterOnWorld", "Load"}
    ensures CommandHandler(store, NO_KEY, op, args, result, data, false) == Handled(store, Err(StorageExpired))
  {
  }

  /** A polled answer fulfils the key's slot with the result, and only that slot. */
  lemma PolledAnswerFulfils(store: Store, key: Key, args: seq<int>, result: int, data: seq<ScanRecords.byte>)
    requires key != NO_KEY && key in store && store[key].tag == UIntSlot
    ensures CommandHandler(store, key, "PlaceAtMeHealthPercent", args, result, data, false).outcome == Ok(Answered)
    ensures Answer(CommandHandler(store, key, "PlaceAtMeHealthPercent", args, result, data, false).store, key) == Some(UIntValue(result))
    ensures forall k :: k != key ==>
              Answer(CommandHandler(store, key, "PlaceAtMeHealthPercent", args, result, data, false).store, k) == Answer(store, k)
  {
    FutureSetAnswers(store, key, UIntValue(result));
  }

  /**
   * A failed command other than PlaceAtMeHealthPercent is dropped and its
   * key left alone; the placement is reissued as written, with `key` as
   * its count and no key.
   */
  lemma OnlyPlacementIsRetried(store: Store, key: Key, op: Opcode, args: seq<int>, result: int, data: seq<ScanRecords.byte>)
    ensures CommandHandler(store, key, op, args, result, data, true).store == store
    ensures op != "PlaceAtMeHealthPercent" ==> CommandHandler(store, key, op, args, result, data, true).outcome == Ok(Quiet)
    ensures op == "PlaceAtMeHealthPercent" && |args| >= 3 ==>
              CommandHandler(store, key, op, args, result, data, true).outcome ==
              Ok(Reissued(PlaceAtMe(args[0], args[1], args[2], key, NO_KEY)))
  {
  }

  /**
   * The retry as written loses the correlation: the handler reissues the
   * failed placement with `key` copies and no key, and the answer to
   * that reissue, having no key, raises "Storage has expired" instead of
   * fulfilling the waiter's slot, which stays unanswered.
   */
  lemma RetryAsWrittenLosesKey(store: Store, key: Key, args: seq<int>, result: int, data: seq<ScanRecords.byte>)
    requires |args| >= 3 && key != NO_KEY && key in store && !store[key].promised
    ensures var h := CommandHandler(store, key, "PlaceAtMeHealthPercent", args, result, data, true);
            h.outcome.Ok? && h.outcome.value.Reissued? &&
            h.outcome.value.cmd.count == key && KeyOf(h.outcome.value.cmd) == NO_KEY &&
            CommandHandler(h.store, KeyOf(h.outcome.value.cmd), "PlaceAtMeHealthPercent", args, result, data, false) ==
              Handled(store, Err(StorageExpired)) &&
            Answer(CommandHandler(h.store, KeyOf(h.outcome.value.cmd), "PlaceAtMeHealthPercent", args, result, data, false).store, key) == None
  {
  }

  /**
   * The corrected retry keeps the correlation: the reissued placement
   * carries its own count and the key, and its answer fulfils the
   * waiter's slot.
   */
  lemma RetryKeepsKey(store: Store, key: Key, args: seq<int>, result: int, data: seq<ScanRecords.byte>)
    requires |args| >= 4 && key != NO_KEY && key in store && store[key].tag == UIntSlot
    ensures var h := FixedCommandHandler(store, key, "PlaceAtMeHealthPercent", args, result, data, true);
            h.outcome.Ok? && h.outcome.value.Reissued? &&
            h.outcome.value.cmd.count == args[3] && KeyOf(h.outcome.value.cmd) == key &&
            Answer(FixedCommandHandler(h.store, KeyOf(h.outcome.value.cmd), "PlaceAtMeHealthPercent", args, result, data, false).store, key) ==
              Some(UIntValue(result))
  {
    PolledAnswerFulfils(store, key, args, result, data);
  }

  /** A job handed to the engine's scheduler: its delay and what it runs. */
  datatype Job = Job(delayMs: nat, id: int)

  /**
   * The startup queue: before startup, dispatched jobs wait in a queue;
   * Startup hands them to the engine in the order they came; after
   * startup, jobs go to the engine at once.
   */
  class Scheduler {
    var started: bool
    var queue: seq<Job>
    var pushed: seq<Job>          // the jobs handed to the engine, in order
    ghost var dispatched: seq<Job> // every job JobDispatch was given, in order

    ghost predicate Valid()
      reads this
    {
      pushed + queue == dispatched && (started ==> queue == [])
    }

    constructor()
      ensures Valid() && !started && queue == [] && pushed == [] && dispatched == []
    {
      started := false;
      queue := [];
      pushed := [];
      dispatched := [];
    }

    method JobDispatch(job: Job)
      requires Valid()
      modifies this
      ensures Valid()
      ensures started == old(started) && dispatched == old(dispatched) + [job]
      ensures !started ==> queue == old(queue) + [job] && pushed == old(pushed)
      ensures started ==> pushed == old(pushed) + [job] && queue == old(queue)
    {
      dispatched := dispatched + [job];
      if !started {
        queue := queue + [job];
      } else {
        pushed := pushed + [job];
      }
    }

    method Startup()
      requires Valid()
      modifies this
      ensures Valid() && started && queue == []
      ensures pushed == old(pushed) + old(queue)
      ensures pushed == dispatched && dispatched == old(dispatched)
    {
      started := true;
      while queue != []
        invariant started && pushed + queue == dispatched && dispatched == old(dispatched)
        invariant pushed + queue == old(pushed) + old(queue)
        decreases |queue|
      {
        assert pushed + queue == (pushed + [queue[0]]) + queue[1..];
        pushed := pushed + [queue[0]];
        queue := queue[1..];
      }
    }
  }
}
