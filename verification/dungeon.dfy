/** The runtime half of `RoomManager` (Assets/Scripts/RoomManager.cs) together
    with the room handlers that call back into it (Assets/Scripts/Object/Room.cs):
    entering a room, enemy deaths, clearance, and the requests these make of
    the rest of the game (camera, spawns, teleport, item, portal). */
module Dungeon {
  import opened Wrappers
  import opened Grid
  import opened Doors
  import opened Rooms
  import Generation
  import Spawning
  import Mathf

  /** The manager's state: the room arena and `currentRoom`. */
  datatype Manager = Manager(rooms: seq<Room>, current: Option<nat>)

  /** Where the player is placed on arrival: at a door of the new room, or at
      the room's centre. */
  datatype Arrival = AtDoor(slot: nat) | AtCentre

  /** A request made of the parts of the game outside the model, in order. */
  datatype Effect =
    | CameraTo(room: nat)
    | Spawned(room: nat, enemies: seq<Spawning.Spawn>)
    | SpawnAborted(room: nat, enemies: seq<Spawning.Spawn>)
    | MissingSpawnPoints(room: nat)
    | MissingEnemyManager
    | TeleportTo(room: nat, arrival: Arrival)
    | UnlinkedEntryDoor
    | PortalAt(room: nat)
    | ItemAt(room: nat)
    | DestroyedAllEnemies

  datatype Outcome = Outcome(m: Manager, effects: seq<Effect>)

  /** The singletons `EnterRoom` consults: the enemy manager (its settings, if
      it exists) and whether the player exists. */
  datatype Services = Services(enemyManager: Option<Spawning.Settings>, playerPresent: bool)

  /** A well-formed manager: a generated arena (the start room first) whose
      structure is intact, whose doors are consistent with their links, and
      whose current room, if any, is one of its rooms. */
  predicate Valid(m: Manager)
  {
    && |m.rooms| >= 1 && m.rooms[0].isStart
    && Generation.Structure(m.rooms) && Generation.Consistent(m.rooms)
    && (m.current.Some? ==> m.current.value < |m.rooms|)
  }

  /** The current room, if any, is one of the arena's rooms: all that
      `EnterRoom` needs of the manager. */
  predicate InRange(m: Manager)
  {
    m.current.Some? ==> m.current.value < |m.rooms|
  }

  /** Two arenas that differ at most in door states, door visibility,
      counters and the visited/cleared flags. */
  predicate SameLinks(a: seq<Room>, b: seq<Room>)
  {
    |a| == |b| && forall i :: 0 <= i < |a| ==> SameShape(a[i], b[i])
  }

  lemma SameLinksUpdate(a: seq<Room>, i: nat, r: Room)
    requires i < |a| && SameShape(a[i], r)
    ensures SameLinks(a, a[i := r])
  {
  }

  lemma SameLinksTransitive(a: seq<Room>, b: seq<Room>, c: seq<Room>)
    requires SameLinks(a, b) && SameLinks(b, c)
    ensures SameLinks(a, c)
  {
  }

  /** The pairing of one door survives any change that keeps the links. */
  lemma SameLinksKeepsDoorPaired(a: seq<Room>, b: seq<Room>, i: nat, k: nat)
    requires SameLinks(a, b) && i < |a| && k < |a[i].doors|
    requires Generation.Owned(a) && Generation.DoorPaired(a, i, k)
    ensures Generation.DoorPaired(b, i, k)
  {
    var door := a[i].doors[k];
    if door.connected.Some? {
      var j := door.connected.value;
      FirstTaggedDependsOnTags(a[i].doors, b[i].doors, door.tag.dir);
      FirstTaggedDependsOnTags(a[j].doors, b[j].doors, Opposite(door.tag.dir));
    }
  }

  /** Door states, counters and flags play no part in the structural
      invariants of the arena. */
  lemma SameLinksKeepsStructure(a: seq<Room>, b: seq<Room>)
    requires SameLinks(a, b) && Generation.Structure(a)
    ensures Generation.Structure(b)
  {
    forall i, k | 0 <= i < |b| && 0 <= k < |b[i].doors| ensures Generation.DoorPaired(b, i, k) {
      SameLinksKeepsDoorPaired(a, b, i, k);
    }
  }

  /** Replacing one room by a room of the same shape keeps the manager valid
      as long as the new room's doors are consistent. */
  lemma UpdateKeepsValid(m: Manager, i: nat, r: Room)
    requires Valid(m) && i < |m.rooms| && SameShape(m.rooms[i], r) && DoorsConsistent(r)
    ensures Valid(m.(rooms := m.rooms[i := r]))
  {
    SameLinksUpdate(m.rooms, i, r);
    SameLinksKeepsStructure(m.rooms, m.rooms[i := r]);
  }

  /** `b` differs from `a` only by opening linked doors and marking rooms
      cleared: no door is locked or unlinked, no cleared flag is reset, and
      no visited flag changes. */
  predicate OnlyOpens(a: seq<Room>, b: seq<Room>)
  {
    && SameLinks(a, b)
    && forall i :: 0 <= i < |a| ==>
         && (a[i].isCleared ==> b[i].isCleared)
         && b[i].isVisited == a[i].isVisited
         && forall k :: 0 <= k < |a[i].doors| ==>
              b[i].doors[k].state == a[i].doors[k].state
              || (b[i].doors[k].state == Unlocked && a[i].doors[k].connected.Some?)
  }

  /** Opening doors of a single room. */
  lemma OnlyOpensUpdate(a: seq<Room>, i: nat, r: Room)
    requires i < |a| && SameShape(a[i], r)
    requires (a[i].isCleared ==> r.isCleared) && r.isVisited == a[i].isVisited
    requires forall k :: 0 <= k < |r.doors| ==>
      r.doors[k].state == a[i].doors[k].state || (r.doors[k].state == Unlocked && a[i].doors[k].connected.Some?)
    ensures OnlyOpens(a, a[i := r])
  {
  }

  lemma OnlyOpensTransitive(a: seq<Room>, b: seq<Room>, c: seq<Room>)
    requires OnlyOpens(a, b) && OnlyOpens(b, c)
    ensures OnlyOpens(a, c)
  {
  }

  /** Opening only linked doors keeps every door consistent with its link. */
  lemma OnlyOpensKeepsValid(m: Manager, rooms: seq<Room>)
    requires Valid(m) && OnlyOpens(m.rooms, rooms)
    ensures Valid(m.(rooms := rooms))
  {
    SameLinksKeepsStructure(m.rooms, rooms);
    forall i | 0 <= i < |rooms| ensures DoorsConsistent(rooms[i]) {
      assert DoorsConsistent(m.rooms[i]);
    }
  }

  // ---------------------------------------------------------------------
  // Arrival position
  // ---------------------------------------------------------------------

  /** `GetConnectedDoorPosition(room, enteredDoor)` with
      `GetDoorWorldDirection`: an untagged entry door yields the room centre;
      otherwise the arrival door is the room's first door tagged with the
      opposite direction, falling back to the centre when there is none. */
  function ConnectedDoorPosition(room: Room, entered: Tag): (a: Arrival)
    ensures entered == Untagged ==> a == AtCentre
    ensures a.AtDoor? ==>
      && entered.Tagged?
      && a.slot < |room.doors| && room.doors[a.slot].tag == Tagged(Opposite(entered.dir))
      && forall k :: 0 <= k < a.slot ==> room.doors[k].tag != Tagged(Opposite(entered.dir))
    ensures a == AtCentre && entered.Tagged? ==>
      forall k :: 0 <= k < |room.doors| ==> room.doors[k].tag != Tagged(Opposite(entered.dir))
  {
    match entered
    case Untagged => AtCentre
    case Tagged(d) =>
      match FirstTagged(room.doors, Opposite(d))
      case Some(k) => AtDoor(k)
      case None => AtCentre
  }

  /** In a generated arena, walking through a linked door lands the player at
      the door of the far room that leads straight back. */
  lemma ArrivalLeadsBack(rooms: seq<Room>, i: nat, k: nat)
    requires Generation.Structure(rooms) && i < |rooms| && k < |rooms[i].doors|
    requires rooms[i].doors[k].connected.Some?
    ensures var j := rooms[i].doors[k].connected.value;
      j < |rooms| &&
      var a := ConnectedDoorPosition(rooms[j], rooms[i].doors[k].tag);
      a.AtDoor? && a.slot < |rooms[j].doors| && rooms[j].doors[a.slot].connected == Some(i)
  {
    assert Generation.DoorPaired(rooms, i, k);
  }

  /** The teleport request at the end of `EnterRoom`: made only when the
      player came through a door and exists; an entry door without a link
      aborts with an error instead. */
  function Arrive(rooms: seq<Room>, t: nat, entered: Option<DoorRef>, playerPresent: bool): (e: seq<Effect>)
    requires t < |rooms| && (entered.Some? ==> Generation.IsDoor(rooms, entered.value))
    ensures |e| <= 1
    ensures |e| == 1 <==> entered.Some? && playerPresent
    ensures forall x :: x in e ==> x.TeleportTo? || x.UnlinkedEntryDoor?
    ensures e == [UnlinkedEntryDoor] <==>
      entered.Some? && playerPresent && rooms[entered.value.room].doors[entered.value.slot].connected.None?
  {
    if entered.None? || !playerPresent then []
    else
      var door := rooms[entered.value.room].doors[entered.value.slot];
      if door.connected.None? then [UnlinkedEntryDoor]
      else [TeleportTo(t, ConnectedDoorPosition(rooms[t], door.tag))]
  }

  // ---------------------------------------------------------------------
  // EnterRoom
  // ---------------------------------------------------------------------

  /** A room after its visit step, and the requests made on the way. */
  datatype Visited = Visited(room: Room, effects: seq<Effect>)

  /** The spawn step of a first visit: `EnemyManager.SpawnEnemiesForRoom`
      when the enemy manager exists, an error otherwise. When `Instantiate`
      throws on an unassigned prefab, the request lists the enemies placed
      before it as `SpawnAborted`, and the room is unchanged. */
  function SpawnFor(room: Room, t: nat, enemyManager: Option<Spawning.Settings>, roll: int, draws: seq<real>): (v: Visited)
    requires !room.isStart && |draws| >= room.spawnPoints
    ensures SameShape(room, v.room) && v.room.(alive := room.alive) == room
    ensures v.room.alive >= 0 || v.room.alive == room.alive
    ensures |v.effects| == 1
    ensures v.effects[0].SpawnAborted? <==> enemyManager.Some? && Spawning.Throws(room, enemyManager.value, roll, draws)
    ensures v.effects[0].SpawnAborted? ==> v.room == room && v.effects[0].room == t
    ensures enemyManager.None? ==> v == Visited(room, [MissingEnemyManager])
    ensures enemyManager.Some? && room.spawnPoints == 0 ==> v == Visited(room, [MissingSpawnPoints(t)])
    ensures enemyManager.Some? && room.spawnPoints > 0 && !v.effects[0].SpawnAborted? ==>
      && v.effects[0].Spawned? && v.effects[0].room == t
      && v.room.alive == |v.effects[0].enemies| <= room.spawnPoints
  {
    if enemyManager.None? then Visited(room, [MissingEnemyManager])
    else
      var s := Spawning.SpawnEnemiesForRoom(Some(room), enemyManager.value, roll, draws);
      if s.missingSpawnPoints then Visited(room, [MissingSpawnPoints(t)])
      else if s.missingPrefab then Visited(room, [SpawnAborted(t, s.enemies)])
      else Visited(s.room.value, [Spawned(t, s.enemies)])
  }

  /** The first visit of `room` ends in the exception of an unassigned
      prefab. */
  predicate Aborts(room: Room, svc: Services, roll: int, draws: seq<real>)
    requires |draws| >= room.spawnPoints
  {
    !room.isVisited && svc.enemyManager.Some? && Spawning.Throws(room, svc.enemyManager.value, roll, draws)
  }

  /** The visit step of `EnterRoom` for the room stored at index `t`: a first
      visit to a non-start room spawns enemies and then locks the doors
      (sparing `entered` if it is a door of this room); every first visit
      marks the room visited; a revisit unlocks every connected door. When
      spawning throws, the rest of the step is skipped: the room is neither
      locked nor marked visited. */
  function Visit(room: Room, t: nat, entered: Option<DoorRef>, svc: Services, roll: int, draws: seq<real>): (v: Visited)
    requires |draws| >= room.spawnPoints
    ensures SameShape(room, v.room) && v.room.isCleared == room.isCleared
    ensures v.room.isVisited <==> !Aborts(room, svc, roll, draws)
    ensures DoorsConsistent(room) ==> DoorsConsistent(v.room)
    ensures room.isVisited ==> v == Visited(UnlockConnected(room), [])
    ensures !room.isVisited && room.isStart ==> v == Visited(room.(isVisited := true), [])
    ensures Aborts(room, svc, roll, draws) ==> v.room == room && |v.effects| == 1 && v.effects[0].SpawnAborted?
    ensures !room.isVisited && !room.isStart && !Aborts(room, svc, roll, draws) ==>
      var s := SpawnFor(room, t, svc.enemyManager, roll, draws);
      v == Visited(LockAllDoors(s.room, t, entered).(isVisited := true), s.effects)
    ensures (|v.effects| > 0 && v.effects[0].SpawnAborted?) <==> Aborts(room, svc, roll, draws)
  {
    if room.isVisited then Visited(UnlockConnected(room), [])
    else if room.isStart then Visited(room.(isVisited := true), [])
    else
      var s := SpawnFor(room, t, svc.enemyManager, roll, draws);
      if s.effects[0].SpawnAborted? then s
      else Visited(LockAllDoors(s.room, t, entered).(isVisited := true), s.effects)
  }

  /** The arena after the previous room is closed: its doors are hidden. */
  function Leave(m: Manager): (rooms: seq<Room>)
    requires m.current.Some? ==> m.current.value < |m.rooms|
    ensures SameLinks(m.rooms, rooms)
    ensures forall i :: 0 <= i < |rooms| && Some(i) != m.current ==> rooms[i] == m.rooms[i]
    ensures m.current.Some? ==> rooms[m.current.value] == DeactivateRoom(m.rooms[m.current.value])
  {
    if m.current.Some? then m.rooms[m.current.value := DeactivateRoom(m.rooms[m.current.value])] else m.rooms
  }

  /** `EnterRoom(newRoom, enteredDoor)`. `target` is the room index (`None`
      for a null room), `entered` the door the player came through, `roll`
      and `draws` the random draws of the spawn step. */
  function EnterRoom(m: Manager, target: Option<nat>, entered: Option<DoorRef>, svc: Services, roll: int, draws: seq<real>): (o: Outcome)
    requires InRange(m)
    requires target.Some? ==> target.value < |m.rooms| && |draws| >= m.rooms[target.value].spawnPoints
    requires entered.Some? ==> Generation.IsDoor(m.rooms, entered.value)
    ensures SameLinks(m.rooms, o.m.rooms)
    ensures target.Some? ==> o.m.current == target
    ensures target.None? ==> o == Outcome(m, [])
  {
    if target.None? then Outcome(m, [])
    else
      var t := target.value;
      if entered.None? && m.current.None? then
        SameLinksUpdate(m.rooms, t, ActivateRoom(m.rooms[t]));
        Outcome(Manager(m.rooms[t := ActivateRoom(m.rooms[t])], Some(t)), [CameraTo(t)])
      else if m.current == Some(t) then Outcome(m, [])
      else
        var left := Leave(m);
        var shown := ActivateRoom(left[t]);
        var v := Visit(shown, t, entered, svc, roll, draws);
        var rooms := left[t := v.room];
        SameShapeTransitive(left[t], shown, v.room);
        SameLinksUpdate(left, t, v.room);
        SameLinksTransitive(m.rooms, left, rooms);
        if |v.effects| > 0 && v.effects[0].SpawnAborted? then Outcome(Manager(rooms, Some(t)), v.effects)
        else Outcome(Manager(rooms, Some(t)), v.effects + [CameraTo(t)] + Arrive(rooms, t, entered, svc.playerPresent))
  }

  /** `EnterRoom` keeps the manager valid. */
  lemma EnterRoomKeepsValid(m: Manager, target: Option<nat>, entered: Option<DoorRef>, svc: Services, roll: int, draws: seq<real>)
    requires Valid(m)
    requires target.Some? ==> target.value < |m.rooms| && |draws| >= m.rooms[target.value].spawnPoints
    requires entered.Some? ==> Generation.IsDoor(m.rooms, entered.value)
    ensures Valid(EnterRoom(m, target, entered, svc, roll, draws).m)
  {
    var o := EnterRoom(m, target, entered, svc, roll, draws);
    SameLinksKeepsStructure(m.rooms, o.m.rooms);
    if target.Some? {
      var t := target.value;
      if entered.None? && m.current.None? {
      } else if m.current != Some(t) {
        var left := Leave(m);
        assert forall i :: 0 <= i < |left| ==> DoorsConsistent(left[i]);
      }
    }
  }

  /** Entering the room the player is already in changes nothing. */
  lemma EnterCurrentRoomIsNoop(m: Manager, t: nat, entered: Option<DoorRef>, svc: Services, roll: int, draws: seq<real>)
    requires InRange(m) && m.current == Some(t) && t < |m.rooms| && |draws| >= m.rooms[t].spawnPoints
    requires entered.Some? ==> Generation.IsDoor(m.rooms, entered.value)
    ensures EnterRoom(m, Some(t), entered, svc, roll, draws) == Outcome(m, [])
  {
  }

  /** A second `EnterRoom` for the same room, through any door, is a no-op:
      a repeated trigger cannot spawn twice or relock. */
  lemma EnterTwiceIsNoop(m: Manager, t: nat, entered: Option<DoorRef>, again: Option<DoorRef>, svc: Services, roll: int, draws: seq<real>, roll2: int, draws2: seq<real>)
    requires Valid(m) && t < |m.rooms| && |draws| >= m.rooms[t].spawnPoints && |draws2| >= m.rooms[t].spawnPoints
    requires entered.Some? ==> Generation.IsDoor(m.rooms, entered.value)
    requires again.Some? ==> Generation.IsDoor(m.rooms, again.value)
    ensures var o := EnterRoom(m, Some(t), entered, svc, roll, draws);
      Valid(o.m) && EnterRoom(o.m, Some(t), again, svc, roll2, draws2) == Outcome(o.m, [])
  {
    EnterRoomKeepsValid(m, Some(t), entered, svc, roll, draws);
  }

  /** The bootstrap path, taken only when there is neither a current room
      nor an entry door: the room is shown and the camera moved, and nothing
      else happens; in particular the room is not marked visited. */
  lemma EnterBootstrap(m: Manager, t: nat, svc: Services, roll: int, draws: seq<real>)
    requires InRange(m) && m.current.None? && t < |m.rooms| && |draws| >= m.rooms[t].spawnPoints
    ensures var o := EnterRoom(m, Some(t), None, svc, roll, draws);
      && o.effects == [CameraTo(t)]
      && o.m.rooms == m.rooms[t := ActivateRoom(m.rooms[t])]
      && o.m.rooms[t].isVisited == m.rooms[t].isVisited
  {
  }

  /** A regular transition (not bootstrap, not the current room): the
      previous room's doors are hidden, the target is visited, the camera
      follows, and every room other than these two is untouched. */
  lemma EnterTransition(m: Manager, t: nat, entered: Option<DoorRef>, svc: Services, roll: int, draws: seq<real>)
    requires InRange(m) && t < |m.rooms| && |draws| >= m.rooms[t].spawnPoints
    requires entered.Some? ==> Generation.IsDoor(m.rooms, entered.value)
    requires entered.Some? || m.current.Some?
    requires m.current != Some(t)
    ensures var o := EnterRoom(m, Some(t), entered, svc, roll, draws);
      && (o.m.rooms[t].isVisited <==> !Aborts(m.rooms[t], svc, roll, draws))
      && o.m.rooms[t].isCleared == m.rooms[t].isCleared
      && (forall i :: 0 <= i < |m.rooms| && i != t && Some(i) != m.current ==> o.m.rooms[i] == m.rooms[i])
      && (m.current.Some? ==> o.m.rooms[m.current.value] == DeactivateRoom(m.rooms[m.current.value]))
      && (CameraTo(t) in o.effects <==> !Aborts(m.rooms[t], svc, roll, draws))
  {
    TransitionSteps(m, t, entered, svc, roll, draws);
  }

  /** A transition between two rooms, step by step: the room left is
      hidden, the visit step acts on the shown target, and the camera move
      and the teleport follow unless the spawn step threw. */
  lemma TransitionSteps(m: Manager, t: nat, entered: Option<DoorRef>, svc: Services, roll: int, draws: seq<real>)
    requires InRange(m) && t < |m.rooms| && |draws| >= m.rooms[t].spawnPoints
    requires entered.Some? ==> Generation.IsDoor(m.rooms, entered.value)
    requires !(entered.None? && m.current.None?) && m.current != Some(t)
    ensures var o := EnterRoom(m, Some(t), entered, svc, roll, draws);
      var v := Visit(ActivateRoom(m.rooms[t]), t, entered, svc, roll, draws);
      && o.m.current == Some(t)
      && o.m.rooms[t] == v.room
      && o.effects == if |v.effects| > 0 && v.effects[0].SpawnAborted? then v.effects
                      else v.effects + [CameraTo(t)] + Arrive(o.m.rooms, t, entered, svc.playerPresent)
  {
    var left := Leave(m);
    assert left[t] == m.rooms[t];
  }

  /** The first visit to a non-start room entered through a door of another
      room: the spawn step runs, and then every connected door of the new
      room is locked. The door passed as the exception belongs to the room
      the player left, so no door of the new room is spared. */
  lemma FirstVisitLocksEveryDoor(m: Manager, t: nat, entered: DoorRef, svc: Services, roll: int, draws: seq<real>)
    requires InRange(m) && t < |m.rooms| && |draws| >= m.rooms[t].spawnPoints
    requires Generation.IsDoor(m.rooms, entered) && entered.room != t
    requires m.current != Some(t) && !m.rooms[t].isVisited && !m.rooms[t].isStart
    ensures var o := EnterRoom(m, Some(t), Some(entered), svc, roll, draws);
      && (!Aborts(m.rooms[t], svc, roll, draws) ==>
            forall k :: 0 <= k < |o.m.rooms[t].doors| && o.m.rooms[t].doors[k].connected.Some? ==>
              o.m.rooms[t].doors[k].state == Locked)
      && (svc.enemyManager.Some? && m.rooms[t].spawnPoints > 0 && !Aborts(m.rooms[t], svc, roll, draws) ==>
            o.effects[0].Spawned? && o.m.rooms[t].alive == |o.effects[0].enemies|)
      && (svc.enemyManager.None? ==> o.effects[0] == MissingEnemyManager)
  {
    var room := ActivateRoom(m.rooms[t]);
    var s := SpawnFor(room, t, svc.enemyManager, roll, draws);
    LockAllDoorsExceptForeignDoor(s.room, t, Some(entered));
    TransitionSteps(m, t, Some(entered), svc, roll, draws);
    if !Aborts(m.rooms[t], svc, roll, draws) {
      assert Visit(room, t, Some(entered), svc, roll, draws) == Visited(LockAllDoors(s.room, t, Some(entered)).(isVisited := true), s.effects);
    }
  }

  /** A first visit whose spawning throws on an unassigned prefab ends
      `EnterRoom` early: the room is current and shown but neither locked
      nor marked visited, its counter is untouched, and neither the camera
      move nor the teleport is requested. Entering it again from elsewhere
      runs the spawn step again. */
  lemma AbortedEntryStopsEarly(m: Manager, t: nat, entered: Option<DoorRef>, svc: Services, roll: int, draws: seq<real>)
    requires InRange(m) && t < |m.rooms| && |draws| >= m.rooms[t].spawnPoints
    requires entered.Some? ==> Generation.IsDoor(m.rooms, entered.value)
    requires entered.Some? || m.current.Some?
    requires m.current != Some(t) && Aborts(m.rooms[t], svc, roll, draws)
    ensures var o := EnterRoom(m, Some(t), entered, svc, roll, draws);
      && o.m.current == Some(t)
      && o.m.rooms[t] == ActivateRoom(m.rooms[t])
      && !o.m.rooms[t].isVisited && o.m.rooms[t].alive == m.rooms[t].alive
      && |o.effects| == 1 && o.effects[0].SpawnAborted? && o.effects[0].room == t
  {
    var left := Leave(m);
    assert left[t] == m.rooms[t];
  }

  /** A revisit unlocks every connected door of the room and spawns nothing. */
  lemma RevisitUnlocks(m: Manager, t: nat, entered: Option<DoorRef>, svc: Services, roll: int, draws: seq<real>)
    requires InRange(m) && t < |m.rooms| && |draws| >= m.rooms[t].spawnPoints
    requires entered.Some? ==> Generation.IsDoor(m.rooms, entered.value)
    requires entered.Some? || m.current.Some?
    requires m.current != Some(t) && m.rooms[t].isVisited
    ensures var o := EnterRoom(m, Some(t), entered, svc, roll, draws);
      && (forall k :: 0 <= k < |o.m.rooms[t].doors| && o.m.rooms[t].doors[k].connected.Some? ==>
            o.m.rooms[t].doors[k].state == Unlocked)
      && o.m.rooms[t].alive == m.rooms[t].alive
      && forall x :: x in o.effects ==> !x.Spawned?
  {
    var left := Leave(m);
    assert left[t] == m.rooms[t];
    var shown := ActivateRoom(left[t]);
    var v := Visit(shown, t, entered, svc, roll, draws);
    assert v == Visited(UnlockConnected(shown), []);
    var o := EnterRoom(m, Some(t), entered, svc, roll, draws);
    assert o.m.rooms[t] == v.room;
    assert o.effects == v.effects + [CameraTo(t)] + Arrive(left[t := v.room], t, entered, svc.playerPresent);
  }

  /** Entering the start room never locks a door and never spawns. */
  lemma StartRoomNeverLocks(m: Manager, t: nat, entered: Option<DoorRef>, svc: Services, roll: int, draws: seq<real>)
    requires InRange(m) && t < |m.rooms| && |draws| >= m.rooms[t].spawnPoints && m.rooms[t].isStart
    requires entered.Some? ==> Generation.IsDoor(m.rooms, entered.value)
    ensures var o := EnterRoom(m, Some(t), entered, svc, roll, draws);
      && (forall k :: 0 <= k < |m.rooms[t].doors| ==>
            o.m.rooms[t].doors[k].state == (if m.rooms[t].isVisited && m.current != Some(t) && (entered.Some? || m.current.Some?)
                                               && m.rooms[t].doors[k].connected.Some?
                                            then Unlocked else m.rooms[t].doors[k].state))
      && forall x :: x in o.effects ==> !x.Spawned?
  {
    var o := EnterRoom(m, Some(t), entered, svc, roll, draws);
    if entered.None? && m.current.None? {
      assert o.effects == [CameraTo(t)];
    } else if m.current != Some(t) {
      var shown := ActivateRoom(m.rooms[t]);
      VisitStartRoom(shown, t, entered, svc, roll, draws);
      TransitionSteps(m, t, entered, svc, roll, draws);
    }
  }


  /** The visit step for the start room spawns nothing; it only reopens the
      connected doors of a room already visited. */
  lemma VisitStartRoom(room: Room, t: nat, entered: Option<DoorRef>, svc: Services, roll: int, draws: seq<real>)
    requires room.isStart && |draws| >= room.spawnPoints
    ensures var v := Visit(room, t, entered, svc, roll, draws);
      && v.effects == [] && |v.room.doors| == |room.doors|
      && forall k :: 0 <= k < |room.doors| ==>
           v.room.doors[k].state == (if room.isVisited && room.doors[k].connected.Some? then Unlocked else room.doors[k].state)
  {
  }

  /** The teleport at the end of a transition through a linked door of a
      generated arena lands the player at the door that leads back. */
  lemma EnterThroughDoorArrivesAtPartner(m: Manager, entered: DoorRef, svc: Services, roll: int, draws: seq<real>)
    requires InRange(m) && Generation.Structure(m.rooms) && Generation.IsDoor(m.rooms, entered) && svc.playerPresent
    requires m.rooms[entered.room].doors[entered.slot].connected.Some?
    requires var t := m.rooms[entered.room].doors[entered.slot].connected.value;
      t < |m.rooms| && |draws| >= m.rooms[t].spawnPoints && m.current != Some(t)
    ensures var t := m.rooms[entered.room].doors[entered.slot].connected.value;
      var o := EnterRoom(m, Some(t), Some(entered), svc, roll, draws);
      !Aborts(m.rooms[t], svc, roll, draws) ==>
      var last := o.effects[|o.effects| - 1];
      && last.TeleportTo? && last.room == t && last.arrival.AtDoor?
      && last.arrival.slot < |m.rooms[t].doors|
      && m.rooms[t].doors[last.arrival.slot].connected == Some(entered.room)
  {
    var door := m.rooms[entered.room].doors[entered.slot];
    var t := door.connected.value;
    ArrivalLeadsBack(m.rooms, entered.room, entered.slot);
    TransitionEndsWithArrival(m, t, entered, svc, roll, draws);
    assert Arrive(m.rooms, t, Some(entered), true) == [TeleportTo(t, ConnectedDoorPosition(m.rooms[t], door.tag))];
  }

  /** The teleport request depends only on links and tags, which no
      operation of the manager changes. */
  lemma ArriveSameLinks(a: seq<Room>, b: seq<Room>, t: nat, entered: Option<DoorRef>, playerPresent: bool)
    requires SameLinks(a, b) && t < |a|
    requires entered.Some? ==> Generation.IsDoor(a, entered.value)
    ensures entered.Some? ==> Generation.IsDoor(b, entered.value)
    ensures Arrive(a, t, entered, playerPresent) == Arrive(b, t, entered, playerPresent)
  {
    if entered.Some? && playerPresent {
      var door := a[entered.value.room].doors[entered.value.slot];
      assert SameShape(a[entered.value.room], b[entered.value.room]);
      if door.tag.Tagged? {
        FirstTaggedDependsOnTags(a[t].doors, b[t].doors, Opposite(door.tag.dir));
      }
    }
  }

  /** A transition through a door, with the player present, ends with the
      arrival request computed on the arena as it was before. */
  lemma TransitionEndsWithArrival(m: Manager, t: nat, entered: DoorRef, svc: Services, roll: int, draws: seq<real>)
    requires InRange(m) && t < |m.rooms| && |draws| >= m.rooms[t].spawnPoints
    requires Generation.IsDoor(m.rooms, entered) && svc.playerPresent && m.current != Some(t)
    ensures var o := EnterRoom(m, Some(t), Some(entered), svc, roll, draws);
      !Aborts(m.rooms[t], svc, roll, draws) ==>
        |o.effects| >= 1 && [o.effects[|o.effects| - 1]] == Arrive(m.rooms, t, Some(entered), true)
  {
    var o := EnterRoom(m, Some(t), Some(entered), svc, roll, draws);
    var left := Leave(m);
    assert left[t] == m.rooms[t];
    var v := Visit(ActivateRoom(left[t]), t, Some(entered), svc, roll, draws);
    var rooms := left[t := v.room];
    if !Aborts(m.rooms[t], svc, roll, draws) {
      assert o.effects == v.effects + [CameraTo(t)] + Arrive(rooms, t, Some(entered), true);
      ArriveSameLinks(m.rooms, rooms, t, Some(entered), true);
    }
  }

  // ---------------------------------------------------------------------
  // Clearance
  // ---------------------------------------------------------------------

  /** `ReportRoomCleared(room)`: nothing for the start room; otherwise the
      room is marked cleared and, if it carries an item spawner, one item is
      requested. */
  function ReportRoomCleared(m: Manager, i: nat): (o: Outcome)
    requires i < |m.rooms|
    ensures o.m.current == m.current && OnlyOpens(m.rooms, o.m.rooms)
    ensures m.rooms[i].isStart ==> o == Outcome(m, [])
    ensures !m.rooms[i].isStart ==>
      && o.m.rooms == m.rooms[i := m.rooms[i].(isCleared := true)]
      && (o.effects == [ItemAt(i)] <==> m.rooms[i].hasItemSpawner)
      && (o.effects == [] <==> !m.rooms[i].hasItemSpawner)
  {
    var r := m.rooms[i];
    if r.isStart then Outcome(m, [])
    else Outcome(m.(rooms := m.rooms[i := r.(isCleared := true)]), if r.hasItemSpawner then [ItemAt(i)] else [])
  }

  /** `CheckRoomCleared`: acts on the CURRENT room only: if it is not yet
      cleared and its counter is at most zero, its doors are unlocked and it
      is reported cleared. */
  function CheckRoomCleared(m: Manager): (o: Outcome)
    requires m.current.Some? ==> m.current.value < |m.rooms|
    ensures o.m.current == m.current && OnlyOpens(m.rooms, o.m.rooms)
    ensures forall i :: 0 <= i < |m.rooms| && Some(i) != m.current ==> o.m.rooms[i] == m.rooms[i]
    ensures forall x :: x in o.effects ==> x.ItemAt? && Some(x.room) == m.current
    ensures forall j :: 0 <= j < |m.rooms| ==> o.m.rooms[j].alive == m.rooms[j].alive
    ensures m.current.None? || m.rooms[m.current.value].isCleared || m.rooms[m.current.value].alive > 0 ==>
      o == Outcome(m, [])
    ensures m.current.Some? && !m.rooms[m.current.value].isCleared && m.rooms[m.current.value].alive <= 0 ==>
      var c := m.current.value;
      && o.m.rooms[c].isCleared
      && (o.effects == [ItemAt(c)] <==> !m.rooms[c].isStart && m.rooms[c].hasItemSpawner)
      && forall k :: 0 <= k < |m.rooms[c].doors| && m.rooms[c].doors[k].connected.Some? ==>
           o.m.rooms[c].doors[k].state == Unlocked
  {
    if m.current.Some? && !m.rooms[m.current.value].isCleared && m.rooms[m.current.value].alive <= 0 then
      var c := m.current.value;
      var m1 := m.(rooms := m.rooms[c := UnlockDoors(m.rooms[c])]);
      OnlyOpensUpdate(m.rooms, c, UnlockDoors(m.rooms[c]));
      var o := ReportRoomCleared(m1, c);
      OnlyOpensTransitive(m.rooms, m1.rooms, o.m.rooms);
      o
    else Outcome(m, [])
  }

  /** `Room.HandleEnemyDeath` for room `i`: the counter drops by one but not
      below zero; when it is then zero the room is cleared, a boss room
      requests its portal, `CheckRoomCleared` runs (on the current room,
      whichever that is), every connected door of room `i` is unlocked, and
      room `i` is reported cleared. */
  function HandleEnemyDeath(m: Manager, i: nat): (o: Outcome)
    requires i < |m.rooms| && (m.current.Some? ==> m.current.value < |m.rooms|)
    ensures o.m.current == m.current && OnlyOpens(m.rooms, o.m.rooms)
    ensures forall j :: 0 <= j < |m.rooms| ==>
      o.m.rooms[j].alive == if j == i then CountDeath(m.rooms[i].alive) else m.rooms[j].alive
  {
    var r := m.rooms[i].(alive := CountDeath(m.rooms[i].alive));
    OnlyOpensUpdate(m.rooms, i, r);
    if r.alive > 0 then Outcome(m.(rooms := m.rooms[i := r]), [])
    else
      var o := Clearance(m.(rooms := m.rooms[i := r]), i);
      OnlyOpensTransitive(m.rooms, m.rooms[i := r], o.m.rooms);
      o
  }

  /** The clearance branch of `HandleEnemyDeath` for room `i`, whose counter
      is already zero. */
  function Clearance(m: Manager, i: nat): (o: Outcome)
    requires i < |m.rooms| && (m.current.Some? ==> m.current.value < |m.rooms|)
    ensures o.m.current == m.current && OnlyOpens(m.rooms, o.m.rooms)
    ensures forall j :: 0 <= j < |m.rooms| ==> o.m.rooms[j].alive == m.rooms[j].alive
  {
    var r := m.rooms[i];
    var portal := if r.isBoss && r.hasPortalPrefab then [PortalAt(i)] else [];
    var c := ClearAndCheck(m, i);
    var report := ReportRoomCleared(c.m, i);
    OnlyOpensTransitive(m.rooms, c.m.rooms, report.m.rooms);
    Outcome(report.m, portal + c.effects + report.effects)
  }

  /** The first part of the clearance branch: the room is marked cleared,
      `CheckRoomCleared` runs, and the room's connected doors are unlocked. */
  function ClearAndCheck(m: Manager, i: nat): (o: Outcome)
    requires i < |m.rooms| && (m.current.Some? ==> m.current.value < |m.rooms|)
    ensures o.m.current == m.current && OnlyOpens(m.rooms, o.m.rooms)
    ensures forall j :: 0 <= j < |m.rooms| ==> o.m.rooms[j].alive == m.rooms[j].alive
  {
    var r := m.rooms[i];
    var m1 := m.(rooms := m.rooms[i := r.(isCleared := true)]);
    var check := CheckRoomCleared(m1);
    var m2 := check.m.(rooms := check.m.rooms[i := UnlockConnected(check.m.rooms[i])]);
    OnlyOpensUpdate(m.rooms, i, r.(isCleared := true));
    OnlyOpensUpdate(check.m.rooms, i, UnlockConnected(check.m.rooms[i]));
    OnlyOpensTransitive(m.rooms, m1.rooms, check.m.rooms);
    OnlyOpensTransitive(m.rooms, check.m.rooms, m2.rooms);
    Outcome(m2, check.effects)
  }


  /** Enemy deaths keep the manager valid. */
  lemma HandleEnemyDeathKeepsValid(m: Manager, i: nat)
    requires Valid(m) && i < |m.rooms|
    ensures Valid(HandleEnemyDeath(m, i).m)
  {
    OnlyOpensKeepsValid(m, HandleEnemyDeath(m, i).m.rooms);
  }

  /** While enemies remain after the death, only the counter moves. */
  lemma DeathWithEnemiesLeft(m: Manager, i: nat)
    requires Valid(m) && i < |m.rooms| && m.rooms[i].alive >= 2
    ensures HandleEnemyDeath(m, i) == Outcome(m.(rooms := m.rooms[i := m.rooms[i].(alive := m.rooms[i].alive - 1)]), [])
  {
  }

  /** The death that brings the counter to zero clears the room: it is
      marked cleared, every connected door is unlocked, the portal is
      requested exactly for a boss room with a portal prefab, and an item
      exactly for a non-start room with an item spawner. */
  lemma LastDeathClearsRoom(m: Manager, i: nat)
    requires Valid(m) && i < |m.rooms| && m.rooms[i].alive <= 1
    ensures var o := HandleEnemyDeath(m, i);
      && o.m.rooms[i].alive == 0 && o.m.rooms[i].isCleared
      && (forall k :: 0 <= k < |m.rooms[i].doors| && m.rooms[i].doors[k].connected.Some? ==>
            o.m.rooms[i].doors[k].state == Unlocked)
      && (PortalAt(i) in o.effects <==> m.rooms[i].isBoss && m.rooms[i].hasPortalPrefab)
      && (ItemAt(i) in o.effects <==> !m.rooms[i].isStart && m.rooms[i].hasItemSpawner)
  {
    var mm := m.(rooms := m.rooms[i := m.rooms[i].(alive := 0)]);
    assert HandleEnemyDeath(m, i) == Clearance(mm, i);
    ClearanceRooms(mm, i);
    ClearanceEffects(mm, i);
  }

  /** What the clearance branch does to room `i`. */
  lemma ClearanceRooms(m: Manager, i: nat)
    requires i < |m.rooms| && (m.current.Some? ==> m.current.value < |m.rooms|)
    ensures var o := Clearance(m, i);
      && o.m.rooms[i].isCleared
      && forall k :: 0 <= k < |m.rooms[i].doors| && m.rooms[i].doors[k].connected.Some? ==>
           o.m.rooms[i].doors[k].state == Unlocked
  {
    var r := m.rooms[i];
    var m1 := m.(rooms := m.rooms[i := r.(isCleared := true)]);
    var check := CheckRoomCleared(m1);
    var m2 := check.m.(rooms := check.m.rooms[i := UnlockConnected(check.m.rooms[i])]);
    var report := ReportRoomCleared(m2, i);
    assert Clearance(m, i).m == report.m;
    assert SameShape(m.rooms[i], check.m.rooms[i]);
  }

  /** What the clearance branch requests for room `i`. */
  lemma ClearanceEffects(m: Manager, i: nat)
    requires i < |m.rooms| && (m.current.Some? ==> m.current.value < |m.rooms|)
    ensures var o := Clearance(m, i);
      && (PortalAt(i) in o.effects <==> m.rooms[i].isBoss && m.rooms[i].hasPortalPrefab)
      && (ItemAt(i) in o.effects <==> !m.rooms[i].isStart && m.rooms[i].hasItemSpawner)
  {
    var r := m.rooms[i];
    var m1 := m.(rooms := m.rooms[i := r.(isCleared := true)]);
    var check := CheckRoomCleared(m1);
    assert ItemAt(i) !in check.effects by {
      if m1.current == Some(i) {
        assert check == Outcome(m1, []);
      }
    }
    var m2 := check.m.(rooms := check.m.rooms[i := UnlockConnected(check.m.rooms[i])]);
    var report := ReportRoomCleared(m2, i);
    assert m2.rooms[i].isStart == r.isStart && m2.rooms[i].hasItemSpawner == r.hasItemSpawner;
    var portal := if r.isBoss && r.hasPortalPrefab then [PortalAt(i)] else [];
    assert Clearance(m, i).effects == portal + check.effects + report.effects;
  }

  /** A cleared boss room requests the portal AND still goes through the
      item path of `ReportRoomCleared`; one does not replace the other. */
  lemma BossClearanceRequestsPortalAndItem(m: Manager, i: nat)
    requires Valid(m) && i < |m.rooms| && m.rooms[i].alive <= 1
    requires m.rooms[i].isBoss && !m.rooms[i].isStart && m.rooms[i].hasPortalPrefab && m.rooms[i].hasItemSpawner
    ensures PortalAt(i) in HandleEnemyDeath(m, i).effects && ItemAt(i) in HandleEnemyDeath(m, i).effects
  {
    LastDeathClearsRoom(m, i);
  }

  /** The clearance branch is not guarded by the cleared flag: a further
      death notification at zero runs it again and requests another item. */
  lemma ClearanceRepeats(m: Manager, i: nat)
    requires Valid(m) && i < |m.rooms| && m.rooms[i].alive <= 1
    requires !m.rooms[i].isStart && m.rooms[i].hasItemSpawner
    ensures var o := HandleEnemyDeath(m, i);
      Valid(o.m) && ItemAt(i) in o.effects && ItemAt(i) in HandleEnemyDeath(o.m, i).effects
  {
    LastDeathClearsRoom(m, i);
    var o := HandleEnemyDeath(m, i);
    HandleEnemyDeathKeepsValid(m, i);
    LastDeathClearsRoom(o.m, i);
  }

  /** `CheckRoomCleared` inside the handler looks at the current room, not at
      the room whose enemy died: when the player stands in another room that
      is not cleared and has no enemies, that room is cleared too. */
  lemma DeathElsewhereClearsCurrentRoom(m: Manager, i: nat, c: nat)
    requires Valid(m) && i < |m.rooms| && m.rooms[i].alive <= 1
    requires m.current == Some(c) && c != i && !m.rooms[c].isCleared && m.rooms[c].alive <= 0
    ensures HandleEnemyDeath(m, i).m.rooms[c].isCleared
  {
  }

  /** `n` death notifications for room `i`, one after another. */
  function Deaths(m: Manager, i: nat, n: nat): (o: Manager)
    requires Valid(m) && i < |m.rooms|
    ensures Valid(o) && o.current == m.current && OnlyOpens(m.rooms, o.rooms)
    decreases n
  {
    if n == 0 then m
    else
      HandleEnemyDeathKeepsValid(m, i);
      var next := HandleEnemyDeath(m, i).m;
      var o := Deaths(next, i, n - 1);
      OnlyOpensTransitive(m.rooms, next.rooms, o.rooms);
      o
  }

  /** Killing every enemy a room counts clears it and opens its doors. */
  lemma {:induction false} KillingEveryEnemyClearsRoom(m: Manager, i: nat)
    requires Valid(m) && i < |m.rooms| && m.rooms[i].alive >= 1
    ensures var o := Deaths(m, i, m.rooms[i].alive);
      && o.rooms[i].isCleared && o.rooms[i].alive == 0
      && forall k :: 0 <= k < |m.rooms[i].doors| && m.rooms[i].doors[k].connected.Some? ==>
           o.rooms[i].doors[k].state == Unlocked
    decreases m.rooms[i].alive
  {
    HandleEnemyDeathKeepsValid(m, i);
    var next := HandleEnemyDeath(m, i).m;
    if m.rooms[i].alive == 1 {
      LastDeathClearsRoom(m, i);
      assert Deaths(m, i, 1) == Deaths(next, i, 0);
    } else {
      DeathWithEnemiesLeft(m, i);
      KillingEveryEnemyClearsRoom(next, i);
      assert Deaths(m, i, m.rooms[i].alive) == Deaths(next, i, next.rooms[i].alive);
    }
  }

  // ---------------------------------------------------------------------
  // ClearAllEnemies
  // ---------------------------------------------------------------------

  /** One room's part of `ClearAllEnemies`: the counter is zeroed and every
      locked door unlocked. */
  function ClearRoomEnemies(room: Room): (r: Room)
    ensures SameShape(room, r) && r.alive == 0
    ensures r.(alive := room.alive, doors := room.doors) == room
    ensures forall k :: 0 <= k < |r.doors| ==>
      && (room.doors[k].state == Locked ==> r.doors[k] == Unlock(room.doors[k]))
      && (room.doors[k].state != Locked ==> r.doors[k] == room.doors[k])
  {
    room.(alive := 0, doors := seq(|room.doors|, k requires 0 <= k < |room.doors| =>
      if room.doors[k].state == Locked then Unlock(room.doors[k]) else room.doors[k]))
  }

  /** `RoomManager.ClearAllEnemies`: every enemy is destroyed, every counter
      zeroed and every locked door unlocked. */
  function ClearAllEnemies(m: Manager): (o: Outcome)
    requires Valid(m)
    ensures o.m.current == m.current && OnlyOpens(m.rooms, o.m.rooms)
    ensures o.effects == [DestroyedAllEnemies]
    ensures forall i :: 0 <= i < |o.m.rooms| ==> o.m.rooms[i].alive == 0
    ensures forall i, k :: 0 <= i < |o.m.rooms| && 0 <= k < |o.m.rooms[i].doors| ==> o.m.rooms[i].doors[k].state != Locked
  {
    var rooms := seq(|m.rooms|, i requires 0 <= i < |m.rooms| => ClearRoomEnemies(m.rooms[i]));
    assert forall i, k :: 0 <= i < |rooms| && 0 <= k < |rooms[i].doors| && rooms[i].doors[k].state != m.rooms[i].doors[k].state ==>
      m.rooms[i].doors[k].connected.Some? by {
      forall i, k | 0 <= i < |rooms| && 0 <= k < |rooms[i].doors| && rooms[i].doors[k].state != m.rooms[i].doors[k].state
        ensures m.rooms[i].doors[k].connected.Some?
      {
        assert DoorsConsistent(m.rooms[i]);
      }
    }
    Outcome(m.(rooms := rooms), [DestroyedAllEnemies])
  }

  /** Clearing twice is the same as clearing once. */
  lemma ClearAllEnemiesIdempotent(m: Manager)
    requires Valid(m)
    ensures var o := ClearAllEnemies(m); Valid(o.m) && ClearAllEnemies(o.m).m == o.m
  {
    var o := ClearAllEnemies(m);
    OnlyOpensKeepsValid(m, o.m.rooms);
    var o2 := ClearAllEnemies(o.m);
    forall i | 0 <= i < |o.m.rooms| ensures o2.m.rooms[i] == o.m.rooms[i] {
      assert o2.m.rooms[i].doors == o.m.rooms[i].doors;
    }
  }

  // ---------------------------------------------------------------------
  // Run-time invariants
  // ---------------------------------------------------------------------

  /** Every linked door of the start room is open. */
  predicate StartOpen(m: Manager)
    requires |m.rooms| >= 1
  {
    forall k :: 0 <= k < |m.rooms[0].doors| && m.rooms[0].doors[k].connected.Some? ==> m.rooms[0].doors[k].state == Unlocked
  }

  /** No flag goes back: visited rooms stay visited, cleared rooms cleared. */
  predicate Progress(a: seq<Room>, b: seq<Room>)
  {
    |a| == |b| && forall i :: 0 <= i < |a| ==>
      (a[i].isVisited ==> b[i].isVisited) && (a[i].isCleared ==> b[i].isCleared)
  }

  /** `EnterRoom` only ever sets the visited flag, leaves every cleared flag
      as it was, and never locks a door of the start room. */
  lemma EnterRoomInvariants(m: Manager, target: Option<nat>, entered: Option<DoorRef>, svc: Services, roll: int, draws: seq<real>)
    requires Valid(m)
    requires target.Some? ==> target.value < |m.rooms| && |draws| >= m.rooms[target.value].spawnPoints
    requires entered.Some? ==> Generation.IsDoor(m.rooms, entered.value)
    ensures var o := EnterRoom(m, target, entered, svc, roll, draws);
      && Progress(m.rooms, o.m.rooms)
      && (forall i :: 0 <= i < |m.rooms| ==> o.m.rooms[i].isCleared == m.rooms[i].isCleared)
      && (StartOpen(m) ==> StartOpen(o.m))
  {
    EnterKeepsFlags(m, target, entered, svc, roll, draws);
    if StartOpen(m) {
      EnterKeepsStartOpen(m, target, entered, svc, roll, draws);
    }
  }

  /** The flag half of `EnterRoomInvariants`. */
  lemma EnterKeepsFlags(m: Manager, target: Option<nat>, entered: Option<DoorRef>, svc: Services, roll: int, draws: seq<real>)
    requires InRange(m)
    requires target.Some? ==> target.value < |m.rooms| && |draws| >= m.rooms[target.value].spawnPoints
    requires entered.Some? ==> Generation.IsDoor(m.rooms, entered.value)
    ensures var o := EnterRoom(m, target, entered, svc, roll, draws);
      && |o.m.rooms| == |m.rooms|
      && forall i :: 0 <= i < |m.rooms| ==>
           (m.rooms[i].isVisited ==> o.m.rooms[i].isVisited) && o.m.rooms[i].isCleared == m.rooms[i].isCleared
  {
    var o := EnterRoom(m, target, entered, svc, roll, draws);
    if target.Some? && !(entered.None? && m.current.None?) && m.current != target {
      var t := target.value;
      var left := Leave(m);
      var v := Visit(ActivateRoom(left[t]), t, entered, svc, roll, draws);
      assert o.m.rooms == left[t := v.room];
      forall i | 0 <= i < |m.rooms|
        ensures (m.rooms[i].isVisited ==> o.m.rooms[i].isVisited) && o.m.rooms[i].isCleared == m.rooms[i].isCleared
      {
        if i != t {
          assert o.m.rooms[i] == left[i];
        }
      }
    }
  }

  /** The start-room half of `EnterRoomInvariants`. */
  lemma EnterKeepsStartOpen(m: Manager, target: Option<nat>, entered: Option<DoorRef>, svc: Services, roll: int, draws: seq<real>)
    requires Valid(m)
    requires target.Some? ==> target.value < |m.rooms| && |draws| >= m.rooms[target.value].spawnPoints
    requires entered.Some? ==> Generation.IsDoor(m.rooms, entered.value)
    requires StartOpen(m)
    ensures StartOpen(EnterRoom(m, target, entered, svc, roll, draws).m)
  {
    var o := EnterRoom(m, target, entered, svc, roll, draws);
    if target.Some? && !(entered.None? && m.current.None?) && m.current != target {
      var t := target.value;
      var left := Leave(m);
      var shown := ActivateRoom(left[t]);
      var v := Visit(shown, t, entered, svc, roll, draws);
      assert o.m.rooms == left[t := v.room];
      if t == 0 {
        VisitStartRoom(shown, t, entered, svc, roll, draws);
      } else {
        assert o.m.rooms[0] == left[0];
      }
    }
  }

  /** Enemy deaths and `ClearAllEnemies` only open doors and set flags, so
      they keep every run-time invariant. */
  lemma HandlersKeepInvariants(m: Manager, i: nat)
    requires Valid(m) && i < |m.rooms|
    ensures Progress(m.rooms, HandleEnemyDeath(m, i).m.rooms)
    ensures StartOpen(m) ==> StartOpen(HandleEnemyDeath(m, i).m)
    ensures Progress(m.rooms, ClearAllEnemies(m).m.rooms)
    ensures StartOpen(m) ==> StartOpen(ClearAllEnemies(m).m)
  {
  }

  // ---------------------------------------------------------------------
  // Start-up and door presentation
  // ---------------------------------------------------------------------

  /** `RoomManager.Start` once the dungeon exists: the bootstrap `EnterRoom`
      of the start room, after which the start room is made current and
      activated again and the camera moved again. */
  function Begin(rooms: seq<Room>, svc: Services): (o: Outcome)
    requires Valid(Manager(rooms, None))
    ensures o.m.current == Some(0) && SameLinks(rooms, o.m.rooms)
  {
    var draws := seq(rooms[0].spawnPoints, _ => 0.0);
    var boot := EnterRoom(Manager(rooms, None), Some(0), None, svc, 0, draws);
    SameLinksUpdate(boot.m.rooms, 0, ActivateRoom(boot.m.rooms[0]));
    Outcome(Manager(boot.m.rooms[0 := ActivateRoom(boot.m.rooms[0])], Some(0)), boot.effects + [CameraTo(0)])
  }

  /** Start-up shows the start room's linked doors and changes nothing else:
      no door state, no flag (the start room is NOT marked visited), no
      other room. */
  lemma BeginShowsStartRoom(rooms: seq<Room>, svc: Services)
    requires Valid(Manager(rooms, None))
    ensures var o := Begin(rooms, svc);
      && Valid(o.m)
      && o.effects == [CameraTo(0), CameraTo(0)]
      && o.m.rooms[0].isVisited == rooms[0].isVisited
      && (forall i :: 1 <= i < |rooms| ==> o.m.rooms[i] == rooms[i])
      && forall k :: 0 <= k < |rooms[0].doors| ==>
           o.m.rooms[0].doors[k].state == rooms[0].doors[k].state
           && (rooms[0].doors[k].connected.Some? ==> o.m.rooms[0].doors[k].active)
  {
    var o := Begin(rooms, svc);
    SameLinksKeepsStructure(rooms, o.m.rooms);
    assert forall i :: 0 <= i < |o.m.rooms| ==> DoorsConsistent(o.m.rooms[i]);
  }

  /** `RoomManager.Start`: generate the dungeon, then enter the start room.
      The game starts valid, in the start room, with its doors open, and no
      room visited, cleared or holding counted enemies. */
  method StartGame(cfg: Generation.Config, prefab: Prefab, branchDraws: seq<real>, picks: seq<nat>, svc: Services)
    returns (o: Outcome, boss: Option<nat>)
    requires Generation.ValidConfig(cfg) && |branchDraws| >= 4 * cfg.maxDepth
    ensures Valid(o.m) && o.m.current == Some(0) && StartOpen(o.m)
    ensures boss.Some? ==> boss.value < |o.m.rooms| && o.m.rooms[boss.value].isBoss && boss.value != 0
    ensures Generation.Fresh(o.m.rooms)
  {
    var rooms, reached, expanded, bfsCount, picksUsed;
    rooms, boss, reached, expanded, bfsCount, picksUsed := Generation.GenerateRooms(cfg, prefab, branchDraws, picks);
    assert Valid(Manager(rooms, None));
    BeginShowsStartRoom(rooms, svc);
    o := Begin(rooms, svc);
  }

  /** Whether a door uses the boss sprites: its own room or the room it
      leads to is the boss room. */
  predicate IsBossDoor(rooms: seq<Room>, d: Door)
  {
    || (d.parent.Some? && d.parent.value < |rooms| && rooms[d.parent.value].isBoss)
    || (d.connected.Some? && d.connected.value < |rooms| && rooms[d.connected.value].isBoss)
  }

  /** `UpdateDoorAppearance` for door `r` of the arena. */
  function DoorAppearance(rooms: seq<Room>, r: DoorRef): (a: Appearance)
    requires Generation.IsDoor(rooms, r)
  {
    var d := rooms[r.room].doors[r.slot];
    AppearanceOf(d.state, IsBossDoor(rooms, d))
  }

  /** In a generated arena, exactly the visible doors of the boss room and
      the visible doors leading into it wear the boss sprites. */
  lemma BossSprites(rooms: seq<Room>, r: DoorRef)
    requires Generation.Structure(rooms) && Generation.IsDoor(rooms, r)
    ensures var d := rooms[r.room].doors[r.slot];
      var skin := DoorAppearance(rooms, r).skin;
      (skin == BossLockedSkin || skin == BossUnlockedSkin) <==>
        d.state != Unconnected && (rooms[r.room].isBoss || (d.connected.Some? && rooms[d.connected.value].isBoss))
  {
  }
}
