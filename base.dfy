/**
 * State types, sentinels and default arguments shared by the client's game
 * bookkeeping (the typedefs and default arguments of class Game).
 */
module Base {

  /** The sentinel value of an `unsigned int` (UINT_MAX). */
  const UINT_MAX: int := 0xFFFF_FFFF

  /** The refID and baseID the game gives the player; fixed form IDs of the game data. */
  const PLAYER_REFERENCE: int := 0x14
  const PLAYER_BASE: int := 0x07

  /**
   * A correlation key names a slot that waits for the result of one engine
   * command. Every command-issuing operation defaults its key to 0, which
   * means "no slot": nobody waits for the answer.
   */
  type Key = int
  const NO_KEY: Key := 0

  datatype Option<T> = None | Some(value: T)

  /** The exceptions the modelled code raises. */
  datatype Error =
    | StorageExpired          // the slot behind a key is gone
    | StorageCorrupted        // the slot holds a value of another type
    | UnknownObject           // FactoryObject: StartSession returned null
    | UnhandledFunction(opcode: string)
    | MissingArgument         // std::vector::at past the end of the command's arguments
    | UnknownType(objectType: bv8)
    | Timeout                 // a waited-for answer did not arrive in time

  datatype Result<T> = Ok(value: T) | Err(error: Error)

  /**
   * CellRefs: cell -> object type -> the refIDs known in that cell.
   * Buckets are sets, so a refID occurs at most once per (cell, type).
   */
  type CellRefs = map<int, map<int, set<int>>>

  /** CellDiff: the refIDs that appeared and the refIDs that vanished since the previous scan. */
  datatype CellDiff = CellDiff(appeared: set<int>, vanished: set<int>)

  /** BaseRaces: baseID -> the race last applied to actors of that base. */
  type BaseRaces = map<int, int>

  /** Globals: global id -> its value. */
  type Globals = map<int, int>

  /** The seven flags of EnablePlayerControls / DisablePlayerControls. */
  datatype Controls = Controls(movement: bool, pipboy: bool, fighting: bool, pov: bool,
                               looking: bool, rollover: bool, sneaking: bool)

  /** EnablePlayerControls with its defaults: everything is enabled. */
  const ENABLE_DEFAULTS: Controls := Controls(true, true, true, true, true, true, true)

  /**
   * DisablePlayerControls called with only its first four arguments:
   * looking, rollover and sneaking keep their default `false`.
   */
  function DisableControls(movement: bool, pipboy: bool, fighting: bool, pov: bool): (c: Controls)
    ensures c.movement == movement && c.pipboy == pipboy && c.fighting == fighting && c.pov == pov
    ensures !c.looking && !c.rollover && !c.sneaking
  {
    Controls(movement, pipboy, fighting, pov, false, false, false)
  }

  /** DisablePlayerControls with no argument at all. */
  const DISABLE_DEFAULTS: Controls := DisableControls(true, true, true, true)

  /** The engine commands the modelled code issues, each with the key it carries. */
  datatype Command =
    | ToggleEnabled(ref: int)
    | MoveTo(ref: int, target: int, toCell: bool, key: Key)
    | MarkForDelete(ref: int)
    | PlaceAtMe(ref: int, base: int, condition: int, count: int, key: Key)
    | Kill(ref: int, limb: int, cause: int, key: Key)
    | MatchRace(ref: int, race: int, key: Key)
    | AgeRace(ref: int, age: int, key: Key)
    | SexChange(ref: int, female: bool, key: Key)
    | Lock(ref: int, level: int, key: Key)
    | Unlock(ref: int, key: Key)
    | SetOwnership(ref: int, owner: int, key: Key)
    | AddItem(ref: int, base: int, count: int, silent: bool, key: Key)
    | RemoveItem(ref: int, base: int, count: int, silent: bool, key: Key)
    | EquipItem(ref: int, base: int, silent: bool, stick: bool, key: Key)
    | UnequipItem(ref: int, base: int, silent: bool, stick: bool, key: Key)
    | EnablePlayerControls(flags: Controls)
    | DisablePlayerControls(flags: Controls)
    | NextRef(key: Key)
    | CenterOnCell(cellName: string, key: Key)
    | CenterOnExterior(x: int, y: int, key: Key)
    | CenterOnWorld(world: int, x: int, y: int, key: Key)
    | SetGlobalValue(global: int, value: int)
    | SetWeather(weather: int)

  /** The key a command carries; the commands that take none go out uncorrelated. */
  function KeyOf(c: Command): Key
  {
    match c
    case ToggleEnabled(_) => NO_KEY
    case MarkForDelete(_) => NO_KEY
    case EnablePlayerControls(_) => NO_KEY
    case DisablePlayerControls(_) => NO_KEY
    case SetGlobalValue(_, _) => NO_KEY
    case SetWeather(_) => NO_KEY
    case _ => c.key
  }

  /** The base form an item command names. */
  function BaseOf(c: Command): Option<int>
  {
    match c
    case PlaceAtMe(_, base, _, _, _) => Some(base)
    case AddItem(_, base, _, _, _) => Some(base)
    case RemoveItem(_, base, _, _, _) => Some(base)
    case EquipItem(_, base, _, _, _) => Some(base)
    case UnequipItem(_, base, _, _, _) => Some(base)
    case _ => None
  }

  /** The packets the modelled code queues for the server. */
  datatype Packet =
    | UpdatePos(ref: int)
    | UpdateAngle(ref: int, axis: int)
    | UpdateCell(ref: int, cell: int)
    | UpdateState(ref: int)
    | UpdateLock(ref: int, level: int)
    | Chat(message: string)
}
