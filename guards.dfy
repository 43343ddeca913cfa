/**
 * The client's remembered state between engine answers: the race applied
 * per base, the chat and quit mode and weapon-animation buffer of the
 * actor-state poll, the pending player-position update, and the
 * remembered spawn destination. Also the outgoing chat message.
 */
module Guards {
  import opened Base
  import opened Slots
  import Routing
  import Dispatch
  import ScanRecords

  /** Whatever happens, the caller's key either rides on an issued command or has been released. */
  predicate KeyAccounted(before: Store, after: Store, issued: seq<Command>, key: Key)
  {
    (after == before && |issued| > 0 && KeyOf(issued[|issued| - 1]) == key &&
     forall i :: 0 <= i < |issued| - 1 ==> KeyOf(issued[i]) == NO_KEY)
    || (after == Routing.Release(before, key) && issued == [])
  }

  // ---------------------------------------------------------------- races

  datatype RaceOut = RaceOut(races: BaseRaces, store: Store, issued: seq<Command>)

  /**
   * SetActorRace: a base gets its race once. The lookup inserts the
   * default 0 for a base not seen before; a race equal to the remembered
   * one, or the creature marker UINT_MAX, releases the key and issues
   * nothing. Otherwise MatchRace, and AgeRace when there is an age delta,
   * the key riding on the last command.
   */
  function RaceStep(races: BaseRaces, store: Store, ref: int, base: int, race: int, deltaAge: int, key: Key): (r: RaceOut)
    ensures KeyAccounted(store, r.store, r.issued, key)
    ensures base in r.races && forall b :: b != base ==> (b in r.races <==> b in races)
    ensures forall b :: b in races && b != base ==> r.races[b] == races[b]
    ensures r.issued != [] <==> race != UINT_MAX && race != (if base in races then races[base] else 0)
    ensures r.issued != [] ==> r.races[base] == race && r.issued[0] == MatchRace(ref, race, KeyOf(r.issued[0]))
    ensures r.issued != [] ==> (|r.issued| == 2 <==> deltaAge != 0)
    ensures |r.issued| == 2 ==> r.issued[1] == AgeRace(ref, deltaAge, key)
  {
    var seen := if base in races then races else races[base := 0];
    if seen[base] == race || race == UINT_MAX then RaceOut(seen, Routing.Release(store, key), [])
    else
      RaceOut(seen[base := race], store,
              [MatchRace(ref, race, if deltaAge != 0 then NO_KEY else key)] +
              (if deltaAge != 0 then [AgeRace(ref, deltaAge, key)] else []))
  }

  /** The race is applied once per base: asking again with the same race issues nothing and releases the key. */
  lemma RaceAppliedOnce(races: BaseRaces, store: Store, ref: int, ref2: int, base: int, race: int,
                        age: int, age2: int, key: Key, key2: Key)
    ensures var first := RaceStep(races, store, ref, base, race, age, key);
            var again := RaceStep(first.races, first.store, ref2, base, race, age2, key2);
            again.issued == [] && again.races == first.races && again.store == Routing.Release(first.store, key2)
  {
  }

  /** Once the cache is cleared for a respawn, every race but the default and the creature marker is applied again. */
  lemma ClearedRaceReapplied(store: Store, ref: int, base: int, race: int, age: int, key: Key)
    requires race != 0 && race != UINT_MAX
    ensures RaceStep(map[], store, ref, base, race, age, key).issued != []
  {
  }

  class RaceCache {
    var baseRaces: BaseRaces

    constructor()
      ensures baseRaces == map[]
    {
      baseRaces := map[];
    }

    method SetActorRace(store: Store, ref: int, base: int, race: int, deltaAge: int, key: Key)
      returns (after: Store, issued: seq<Command>)
      modifies this
      ensures RaceOut(baseRaces, after, issued) == RaceStep(old(baseRaces), store, ref, base, race, deltaAge, key)
    {
      if base !in baseRaces {
        baseRaces := baseRaces[base := 0];
      }
      if baseRaces[base] == race || race == UINT_MAX {
        after := Routing.Release(store, key);
        issued := [];
        return;
      }
      baseRaces := baseRaces[base := race];
      after := store;
      issued := [MatchRace(ref, race, if deltaAge != 0 then NO_KEY else key)];
      if deltaAge != 0 {
        issued := issued + [AgeRace(ref, deltaAge, key)];
      }
    }

    /** Before a respawn every base's race is forgotten, so LoadEnvironment applies them again. */
    method Clear()
      modifies this
      ensures baseRaces == map[]
    {
      baseRaces := map[];
    }
  }

  /** SetActorFemale: a creature releases the key; anyone else gets SexChange carrying it. */
  function SexStep(store: Store, ref: int, race: int, female: bool, key: Key): (r: Routing.Step)
    ensures KeyAccounted(store, r.store, r.issued, key) && r.deferred == []
    ensures r.issued == [] <==> race == UINT_MAX
    ensures r.issued != [] ==> r.issued == [SexChange(ref, female, key)]
  {
    if race == UINT_MAX then Routing.Step(Routing.Release(store, key), [], [])
    else Routing.Step(store, [SexChange(ref, female, key)], [])
  }

  // ---------------------------------------------------------------- actor state

  /** The animation state of the actor the poll reports on. */
  datatype Actor = Actor(idle: int, moving: int, movingXY: int, sneaking: bool, weapon: int, alerted: bool)

  /** The engine's Idle, Equip and Unequip animation group numbers; the header that fixes them is not part of this model. */
  datatype Groups = Groups(idle: int, equip: int, unequip: int)

  /** The poll's remembered state: chat mode, quit mode and the last two weapon samples. */
  datatype Watch = Watch(chat: bool, quit: bool, first: int, second: int)

  datatype ChatMode = ChatMode(chat: bool, quit: bool, controls: seq<Command>, end: bool)

  /** The controls disabled while the chat window is open. */
  const CHAT_CONTROLS: Controls := DisableControls(true, true, true, false)

  /**
   * The chat and quit keys (bit 0 opens chat, bits 1 and 2 close it; bit 1
   * outside chat quits). Controls are disabled exactly when chat opens and
   * enabled exactly when it closes, and the game ends only on the quit key
   * outside chat after a quiet poll.
   */
  function ChatStep(chat: bool, quit: bool, keys: int): (r: ChatMode)
    requires 0 <= keys < 0x40
    ensures (chat ==> !quit) ==> (r.chat ==> !r.quit)
    ensures r.controls == [DisablePlayerControls(CHAT_CONTROLS)] <==> !chat && r.chat
    ensures r.controls == [EnablePlayerControls(ENABLE_DEFAULTS)] <==> chat && !r.chat
    ensures r.controls == [] <==> r.chat == chat
    ensures r.chat && !chat <==> keys == 1 && !chat
    ensures chat && !r.chat <==> chat && keys / 2 % 4 != 0
    ensures r.end <==> keys == 2 && !chat && quit
    ensures r.end ==> r.chat == chat && r.quit == quit
  {
    if keys == 0 && !chat then ChatMode(chat, true, [], false)
    else if keys == 1 && !chat then ChatMode(true, false, [DisablePlayerControls(CHAT_CONTROLS)], false)
    else if keys / 2 % 4 != 0 && chat then ChatMode(false, quit, [EnablePlayerControls(ENABLE_DEFAULTS)], false)
    else if keys == 2 && quit then ChatMode(chat, quit, [], true)
    else ChatMode(chat, quit, [], false)
  }

  /** What one poll of the actor state leaves: the watch, the actor, controls issued, the end signal, whether a state packet goes out. */
  datatype StateOut = StateOut(watch: Watch, actor: Actor, controls: seq<Command>, signalEnd: bool, sent: bool)

  function Normal(g: Groups, anim: int): int
  {
    if anim == 0xFF then g.idle else anim
  }

  /**
   * GetActorState: the chat keys first (ending the game returns at once);
   * then the idle, moving, moving-direction and sneaking values are set,
   * and the weapon animation only once two polls in a row agree on it.
   */
  function StateStep(g: Groups, w: Watch, a: Actor, idle: int, moving: int, weapon: int, flags: int, sneaking: bool): (r: StateOut)
    requires 0 <= flags < 0x100
    ensures r.signalEnd ==> r.actor == a && !r.sent
    ensures !r.signalEnd ==> r.actor.idle == idle && r.actor.sneaking == sneaking && r.actor.movingXY == flags % 4
    ensures !r.signalEnd ==> r.actor.moving == Normal(g, moving)
  {
    var cm := ChatStep(w.chat, w.quit, flags / 4);
    if cm.end then StateOut(Watch(cm.chat, cm.quit, w.first, w.second), a, cm.controls, true, false)
    else
      var mv := Normal(g, moving);
      var wp := Normal(g, weapon);
      var xy := flags % 4;
      var changed := a.idle != idle || a.moving != mv || a.movingXY != xy || a.sneaking != sneaking;
      var a1 := a.(idle := idle, moving := mv, movingXY := xy, sneaking := sneaking);
      var takes := w.second == wp && a1.weapon != wp;
      var a2 := if takes then a1.(weapon := wp, alerted := if wp == g.equip then true else if wp == g.unequip then false else a1.alerted)
                else a1;
      StateOut(Watch(cm.chat, cm.quit, w.second, wp), a2, cm.controls, false, changed || takes)
  }

  /** A state packet goes out exactly when the poll changed the actor; ending the game changes nothing. */
  lemma StateSentIffChanged(g: Groups, w: Watch, a: Actor, idle: int, moving: int, weapon: int, flags: int, sneaking: bool)
    requires 0 <= flags < 0x100
    ensures var r := StateStep(g, w, a, idle, moving, weapon, flags, sneaking);
            (r.sent <==> r.actor != a) && (r.signalEnd ==> r.actor == a && r.watch.first == w.first && r.watch.second == w.second)
  {
  }

  /**
   * The weapon animation is debounced: it changes only to a value the
   * previous poll already reported, and a value reported twice in a row is
   * taken; alerted changes only with the weapon, to true on Equip and to
   * false on Unequip.
   */
  lemma WeaponNeedsTwoPolls(g: Groups, w: Watch, a: Actor, idle: int, moving: int, weapon: int, flags: int, sneaking: bool)
    requires 0 <= flags < 0x100
    ensures var r := StateStep(g, w, a, idle, moving, weapon, flags, sneaking);
            (r.actor.weapon != a.weapon ==> r.actor.weapon == w.second == Normal(g, weapon)) &&
            (!r.signalEnd && w.second == Normal(g, weapon) ==> r.actor.weapon == Normal(g, weapon)) &&
            (!r.signalEnd ==> r.watch.second == Normal(g, weapon) && r.watch.first == w.second) &&
            (r.actor.alerted != a.alerted ==>
               (r.actor.weapon != a.weapon && (r.actor.alerted <==> r.actor.weapon == g.equip) &&
                (r.actor.weapon == g.equip || r.actor.weapon == g.unequip)))
  {
  }

  /** Two polls reporting the same new weapon animation: the first leaves the weapon, the second takes it and sends the state. */
  lemma SteadyWeaponTaken(g: Groups, w: Watch, a: Actor, idle: int, moving: int, weapon: int, flags: int, sneaking: bool)
    requires 0 <= flags < 0x100 && flags / 4 == 0 && Normal(g, weapon) != a.weapon && Normal(g, weapon) != w.second
    ensures var r1 := StateStep(g, w, a, idle, moving, weapon, flags, sneaking);
            var r2 := StateStep(g, r1.watch, r1.actor, idle, moving, weapon, flags, sneaking);
            r1.actor.weapon == a.weapon && r2.actor.weapon == Normal(g, weapon) && r2.sent
  {
  }

  class StateWatch {
    const groups: Groups
    var chatState: bool
    var quitState: bool
    var bufFirst: int
    var bufSecond: int

    function Current(): Watch
      reads this
    {
      Watch(chatState, quitState, bufFirst, bufSecond)
    }

    /** Chat mode and quit mode never hold together. */
    ghost predicate Valid()
      reads this
    {
      chatState ==> !quitState
    }

    constructor(groups: Groups)
      ensures Valid() && this.groups == groups
      ensures Current() == Watch(false, true, groups.idle, groups.idle)
    {
      this.groups := groups;
      chatState := false;
      quitState := true;
      bufFirst := groups.idle;
      bufSecond := groups.idle;
    }

    method GetActorState(a: Actor, idle: int, moving: int, weapon: int, flags: int, sneaking: bool)
      returns (after: Actor, controls: seq<Command>, signalEnd: bool, sent: bool)
      requires Valid() && 0 <= flags < 0x100
      modifies this
      ensures Valid()
      ensures StateOut(Current(), after, controls, signalEnd, sent) ==
              StateStep(groups, old(Current()), a, idle, moving, weapon, flags, sneaking)
    {
      var chatKeys := flags / 4;
      var movingXY := flags % 4;
      controls := [];
      signalEnd := false;
      after := a;
      sent := false;
      if chatKeys == 0 && !chatState {
        quitState := true;
      } else if chatKeys == 1 && !chatState {
        controls := [DisablePlayerControls(CHAT_CONTROLS)];
        chatState := true;
        quitState := false;
      } else if chatKeys / 2 % 4 != 0 && chatState {
        controls := [EnablePlayerControls(ENABLE_DEFAULTS)];
        chatState := false;
      } else if chatKeys == 2 && quitState {
        signalEnd := true;
        return;
      }
      var mv := moving;
      if mv == 0xFF {
        mv := groups.idle;
      }
      var wp := weapon;
      if wp == 0xFF {
        wp := groups.idle;
      }
      sent := after.idle != idle || after.moving != mv || after.movingXY != movingXY || after.sneaking != sneaking;
      after := after.(idle := idle, moving := mv, movingXY := movingXY, sneaking := sneaking);
      bufFirst := bufSecond;
      bufSecond := wp;
      if bufFirst == bufSecond && after.weapon != wp {
        sent := true;
        after := after.(weapon := wp);
        if wp == groups.equip {
          after := after.(alerted := true);
        } else if wp == groups.unequip {
          after := after.(alerted := false);
        }
      }
    }
  }

  // ---------------------------------------------------------------- position

  datatype Axis = X | Y | Z

  /**
   * GetPos: a change on any axis of the player marks an update pending; the
   * Z answer, the last of a round, sends the position and clears the mark.
   */
  function PosStep(update: bool, ref: int, axis: Axis, changed: bool): (r: (bool, Option<Packet>))
    ensures ref != PLAYER_REFERENCE ==> r == (update, None)
    ensures r.1.Some? <==> ref == PLAYER_REFERENCE && axis == Z && (update || changed)
    ensures r.1.Some? ==> r.1.value == UpdatePos(ref) && !r.0
    ensures ref == PLAYER_REFERENCE && r.1.None? ==> r.0 == (update || changed)
  {
    if ref != PLAYER_REFERENCE then (update, None)
    else
      var u := update || changed;
      if axis == Z && u then (false, Some(UpdatePos(ref))) else (u, None)
  }

  /** A round X, Y, Z for the player sends one position exactly when some axis changed, or one was pending. */
  lemma PosRound(update: bool, cx: bool, cy: bool, cz: bool)
    ensures var sx := PosStep(update, PLAYER_REFERENCE, X, cx);
            var sy := PosStep(sx.0, PLAYER_REFERENCE, Y, cy);
            var sz := PosStep(sy.0, PLAYER_REFERENCE, Z, cz);
            sx.1 == None && sy.1 == None &&
            (sz.1 == Some(UpdatePos(PLAYER_REFERENCE)) <==> update || cx || cy || cz) &&
            !sz.0
  {
  }

  class PosWatch {
    var update: bool

    constructor()
      ensures !update
    {
      update := false;
    }

    method GetPos(ref: int, axis: Axis, changed: bool) returns (packet: Option<Packet>)
      modifies this
      ensures (update, packet) == PosStep(old(update), ref, axis, changed)
    {
      packet := None;
      if ref == PLAYER_REFERENCE {
        update := update || changed;
        if axis == Z && update {
          update := false;
          packet := Some(UpdatePos(ref));
        }
      }
    }
  }

  // ---------------------------------------------------------------- spawn

  /** Where CenterOnCell, CenterOnExterior and CenterOnWorld send the player. */
  datatype Destination = Interior(cell: string) | Exterior(x: int, y: int) | World(world: int, x: int, y: int)

  function CenterCommand(d: Destination, key: Key): (c: Command)
    ensures KeyOf(c) == key
  {
    match d
    case Interior(cell) => CenterOnCell(cell, key)
    case Exterior(x, y) => CenterOnExterior(x, y, key)
    case World(w, x, y) => CenterOnWorld(w, x, y, key)
  }

  /** The remembered spawn, the commands issued, and whether LoadEnvironment follows (or the wait's failure). */
  datatype CenterOut = CenterOut(spawn: Option<Destination>, issued: seq<Command>, outcome: Result<bool>)

  /**
   * CenterOn*: a spawn request remembers the destination; only the first
   * one travels there and loads the environment, later ones only replace
   * the remembered destination. `key` is the fresh key of the `bool` slot
   * the call waits on, `answered` whether the answer came within 60
   * seconds.
   */
  function CenterStep(spawnFunc: Option<Destination>, d: Destination, spawn: bool, key: Key, answered: bool): (r: CenterOut)
    ensures r.spawn == if spawn then Some(d) else spawnFunc
    ensures r.issued == [] <==> spawn && spawnFunc.Some?
    ensures r.issued != [] ==> r.issued == [CenterCommand(d, key)] && (r.outcome.Err? <==> !answered)
    ensures r.outcome == Ok(true) <==> spawn && spawnFunc.None? && answered
    ensures r.outcome.Err? ==> r.outcome.error == Timeout
  {
    var first := spawn && spawnFunc.None?;
    var remembered := if spawn then Some(d) else spawnFunc;
    if spawn && !first then CenterOut(remembered, [], Ok(false))
    else CenterOut(remembered, [CenterCommand(d, key)], if answered then Ok(first) else Err(Timeout))
  }

  /**
   * Two spawn requests in a row: the first travels, the second travels
   * nowhere, and the respawn replays the second.
   */
  lemma LatestSpawnReplayed(d1: Destination, d2: Destination, k1: Key, k2: Key, k3: Key, answered: bool)
    ensures var s1 := CenterStep(None, d1, true, k1, answered);
            var s2 := CenterStep(s1.spawn, d2, true, k2, answered);
            var replay := CenterStep(s2.spawn, s2.spawn.value, false, k3, answered);
            s1.issued == [CenterCommand(d1, k1)] && s2.issued == [] && s2.outcome == Ok(false) &&
            replay.issued == [CenterCommand(d2, k3)] && replay.spawn == Some(d2)
  {
  }

  /** The waiter's slot is answered by the command handler: the Center opcodes fulfil a `bool` slot with true. */
  lemma CenterIsAnswered(store: Store, key: Key, d: Destination, args: seq<int>, result: int, data: seq<ScanRecords.byte>)
    requires key != NO_KEY && key !in store
    ensures var op := match d
                      case Interior(_) => "CenterOnCell"
                      case Exterior(_, _) => "CenterOnExterior"
                      case World(_, _, _) => "CenterOnWorld";
            var h := Dispatch.CommandHandler(Share(store, key, BoolSlot), key, op, args, result, data, false);
            h.outcome == Ok(Dispatch.Answered) && Answer(h.store, key) == Some(BoolValue(true))
  {
    FutureSetAnswers(Share(store, key, BoolSlot), key, BoolValue(true));
  }

  class Spawner {
    var spawnFunc: Option<Destination>

    constructor()
      ensures spawnFunc == None
    {
      spawnFunc := None;
    }

    method CenterOn(d: Destination, spawn: bool, key: Key, answered: bool) returns (issued: seq<Command>, outcome: Result<bool>)
      modifies this
      ensures CenterOut(spawnFunc, issued, outcome) == CenterStep(old(spawnFunc), d, spawn, key, answered)
    {
      var first := false;
      if spawn {
        first := spawnFunc.None?;
        spawnFunc := Some(d);
        if !first {
          return [], Ok(false);
        }
      }
      issued := [CenterCommand(d, key)];
      if !answered {
        return issued, Err(Timeout);
      }
      outcome := Ok(first);
    }
  }

  // ---------------------------------------------------------------- chat

  /** GetMessage: an empty line is dropped; a longer one is cut to the chat limit and sent. */
  function GetMessage(message: string, maxChat: nat): (r: Option<Packet>)
    ensures r.Some? <==> message != []
    ensures r.Some? ==> r.value.Chat? && r.value.message <= message
    ensures r.Some? ==> |r.value.message| == if |message| <= maxChat then |message| else maxChat
  {
    if message == [] then None
    else if |message| > maxChat then Some(Chat(message[..maxChat]))
    else Some(Chat(message))
  }

  /** A message that was sent, sent again, goes out unchanged. */
  lemma GetMessageIdempotent(message: string, maxChat: nat)
    requires maxChat > 0 && message != []
    ensures GetMessage(GetMessage(message, maxChat).value.message, maxChat) == GetMessage(message, maxChat)
  {
  }
}
