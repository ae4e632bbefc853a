/** The earlier versions of the room, door and enemy components that remain
    at the top of the scripts folder (Assets/Scripts/Room.cs, Door.cs and
    Enemy.cs). Their door has the same three-state machine as the current one
    and reuses `Doors.Door` with no parent room; the room and the enemy
    differ and are modelled here, with lemmas that name each difference. */
module Legacy {
  import opened Wrappers
  import opened Grid
  import Doors
  import Rooms

  /** The legacy `UpdateDoorAppearance`: the same colliders as the current
      door, and never a boss sprite. */
  function DoorAppearance(state: Doors.DoorState): (a: Doors.Appearance)
    ensures a == Doors.AppearanceOf(state, false)
    ensures a.skin != Doors.BossLockedSkin && a.skin != Doors.BossUnlockedSkin
    ensures a.triggerCollider <==> state == Doors.Unlocked
  {
    match state
    case Unconnected => Doors.Appearance(Doors.Hidden, true, false)
    case Locked => Doors.Appearance(Doors.LockedSkin, true, false)
    case Unlocked => Doors.Appearance(Doors.UnlockedSkin, false, true)
  }

  /** The legacy `OnTriggerEnter2D`: the player, an unlocked door and a
      connected room suffice; the room manager is dereferenced unchecked (its
      absence is an exception, not modelled). */
  function OnTriggerEnter(d: Doors.Door, self: Doors.DoorRef, isPlayer: bool): (r: Option<Doors.EnterRequest>)
    ensures r.Some? <==> isPlayer && d.state == Doors.Unlocked && d.connected.Some?
    ensures r.Some? ==> r.value == Doors.EnterRequest(d.connected.value, self)
  {
    if isPlayer && d.state == Doors.Unlocked && d.connected.Some? then
      Some(Doors.EnterRequest(d.connected.value, self))
    else
      None
  }

  /** With a room manager present the two triggers agree. */
  lemma TriggerMatchesCurrentDoor(d: Doors.Door, self: Doors.DoorRef, isPlayer: bool)
    ensures OnTriggerEnter(d, self, isPlayer) == Doors.OnTriggerEnter(d, self, isPlayer, true)
    ensures !Doors.OnTriggerEnter(d, self, isPlayer, false).Some?
  {
  }

  /** The legacy room: no item spawner or portal, one `enemyPrefab` that may
      be unassigned, and the same counter and flags as the current room. */
  datatype Room = Room(
    grid: Cell,
    doors: seq<Doors.Door>,
    isStart: bool,
    isBoss: bool,
    isVisited: bool,
    isCleared: bool,
    alive: int,
    spawnPoints: nat,
    hasEnemyPrefab: bool)

  /** Everything except the doors' states and active flags is the same. */
  predicate SameShape(a: Room, b: Room)
  {
    && a.(doors := b.doors) == b
    && |a.doors| == |b.doors|
    && forall k :: 0 <= k < |a.doors| ==>
         a.doors[k].(state := b.doors[k].state, active := b.doors[k].active) == b.doors[k]
  }

  /** `Initialize(gridPos)`: the grid cell is set, every door is forced to
      `Unconnected` and re-initialised, and a starting room then unlocks its
      connected doors. Unlike the current room, no parent is recorded. */
  function Initialize(room: Room, grid: Cell): (r: Room)
    ensures r.grid == grid && |r.doors| == |room.doors|
    ensures r.(grid := room.grid, doors := room.doors) == room
    ensures forall k :: 0 <= k < |r.doors| ==>
      && r.doors[k].state == (if room.isStart && room.doors[k].connected.Some? then Doors.Unlocked else Doors.Unconnected)
      && r.doors[k].(state := room.doors[k].state) == room.doors[k]
  {
    room.(grid := grid, doors := seq(|room.doors|, k requires 0 <= k < |room.doors| =>
      var d := Doors.Initialize(room.doors[k].(state := Doors.Unconnected));
      if room.isStart && d.connected.Some? then Doors.Unlock(d) else d))
  }

  /** Initialising twice is the same as once. */
  lemma InitializeIdempotent(room: Room, grid: Cell)
    ensures Initialize(Initialize(room, grid), grid) == Initialize(room, grid)
  {
    var once := Initialize(room, grid);
    var twice := Initialize(once, grid);
    assert forall k :: 0 <= k < |twice.doors| ==> twice.doors[k] == once.doors[k];
  }

  /** `ActivateRoom`: shows the connected doors, leaving the others as they
      were; no door state changes. */
  function ActivateRoom(room: Room): (r: Room)
    ensures SameShape(room, r)
    ensures forall k :: 0 <= k < |r.doors| ==>
      r.doors[k].state == room.doors[k].state && r.doors[k].active == (room.doors[k].connected.Some? || room.doors[k].active)
  {
    room.(doors := seq(|room.doors|, k requires 0 <= k < |room.doors| =>
      if room.doors[k].connected.Some? then room.doors[k].(active := true) else room.doors[k]))
  }

  /** `DeactivateRoom`: hides every door; no door state changes. */
  function DeactivateRoom(room: Room): (r: Room)
    ensures SameShape(room, r)
    ensures forall k :: 0 <= k < |r.doors| ==> r.doors[k].state == room.doors[k].state && !r.doors[k].active
  {
    room.(doors := seq(|room.doors|, k requires 0 <= k < |room.doors| => room.doors[k].(active := false)))
  }

  /** Leaving undoes entering: deactivating after activating is the same as
      deactivating. */
  lemma DeactivateUndoesActivate(room: Room)
    ensures DeactivateRoom(ActivateRoom(room)) == DeactivateRoom(room)
  {
    assert DeactivateRoom(ActivateRoom(room)).doors == DeactivateRoom(room).doors;
  }

  /** `UnlockDoors` (and `CheckEnemiesCleared`, which only calls it): marks
      the room cleared and unlocks exactly the connected doors. */
  function UnlockDoors(room: Room): (r: Room)
    ensures r.isCleared && SameShape(room.(isCleared := true), r)
    ensures forall k :: 0 <= k < |r.doors| ==>
      && (room.doors[k].connected.Some? ==> r.doors[k] == Doors.Unlock(room.doors[k]))
      && (room.doors[k].connected.None? ==> r.doors[k] == room.doors[k])
  {
    room.(isCleared := true, doors := seq(|room.doors|, k requires 0 <= k < |room.doors| =>
      if room.doors[k].connected.Some? then Doors.Unlock(room.doors[k]) else room.doors[k]))
  }

  /** `LockAllDoors(exceptDoor)` for the room stored at index `self`:
      unconnected doors are skipped, the connected door that is `except` is
      unlocked and every other connected door locked. */
  function LockAllDoors(room: Room, self: nat, except: Option<Doors.DoorRef>): (r: Room)
    ensures SameShape(room, r)
    ensures forall k :: 0 <= k < |r.doors| ==>
      && (room.doors[k].connected.None? ==> r.doors[k] == room.doors[k])
      && (room.doors[k].connected.Some? ==>
            r.doors[k].state == (if except == Some(Doors.DoorRef(self, k)) then Doors.Unlocked else Doors.Locked))
  {
    room.(doors := seq(|room.doors|, k requires 0 <= k < |room.doors| =>
      if room.doors[k].connected.None? then room.doors[k]
      else if except == Some(Doors.DoorRef(self, k)) then Doors.Unlock(room.doors[k])
      else Doors.Lock(room.doors[k])))
  }

  /** `GetConnectedDoorPosition(door)`: the door itself when it belongs to
      this room and is connected, the room's centre (`None`) otherwise. */
  function ConnectedDoorSlot(room: Room, door: Option<nat>): (r: Option<nat>)
    ensures r.Some? <==> door.Some? && door.value < |room.doors| && room.doors[door.value].connected.Some?
    ensures r.Some? ==> r == door
  {
    if door.Some? && door.value < |room.doors| && room.doors[door.value].connected.Some? then door else None
  }

  /** The outcome of `SpawnEnemies`: the room, the number of enemies
      created, and whether the call ended in an exception. */
  datatype Spawned = Spawned(room: Room, created: nat, threw: bool)

  /** `SpawnEnemies`: without an enemy prefab only a warning. Otherwise the
      counter is set to the number of spawn points first, then one enemy is
      created on each spawn point and the room's death handler registered on
      its `Enemy` component. `enemyComponent` says whether the prefab carries
      that component: when it does not, the first registration dereferences
      null and throws, so one enemy exists while the counter already says
      `spawnPoints`. */
  function SpawnEnemies(room: Room, enemyComponent: bool): (r: Spawned)
    ensures !room.hasEnemyPrefab ==> r == Spawned(room, 0, false)
    ensures room.hasEnemyPrefab ==> r.room == room.(alive := room.spawnPoints)
    ensures r.threw <==> room.hasEnemyPrefab && room.spawnPoints > 0 && !enemyComponent
    ensures r.created <= room.spawnPoints
    ensures room.hasEnemyPrefab && !r.threw ==> r.created == room.spawnPoints
    ensures r.threw ==> r.created == 1
    ensures !r.threw ==> r.room.alive == (if room.hasEnemyPrefab then r.created else room.alive)
  {
    if !room.hasEnemyPrefab then Spawned(room, 0, false)
    else if room.spawnPoints > 0 && !enemyComponent then Spawned(room.(alive := room.spawnPoints), 1, true)
    else Spawned(room.(alive := room.spawnPoints), room.spawnPoints, false)
  }

  /** When the prefab has no `Enemy` component, the counter overstates the
      enemies that exist by `spawnPoints - 1`, and no death handler was
      registered, so no enemy death ever lowers it. */
  lemma MissingComponentOvercounts(room: Room)
    requires room.hasEnemyPrefab && room.spawnPoints > 0
    ensures SpawnEnemies(room, false).threw
    ensures SpawnEnemies(room, false).room.alive - SpawnEnemies(room, false).created == room.spawnPoints - 1
  {
  }

  /** `HandleEnemyDeath`: the counter is decremented without a floor; once it
      is at most zero the connected doors that are `Locked` are unlocked.
      Unlike `UnlockDoors`, the room is not marked cleared, and a connected
      door still in the `Unconnected` state stays so. */
  function HandleEnemyDeath(room: Room): (r: Room)
    ensures r.alive == room.alive - 1
    ensures SameShape(room.(alive := r.alive), r)
    ensures forall k :: 0 <= k < |r.doors| ==>
      r.doors[k].state == (if room.alive - 1 <= 0 && room.doors[k].connected.Some? && room.doors[k].state == Doors.Locked
                           then Doors.Unlocked else room.doors[k].state)
  {
    var counted := room.(alive := room.alive - 1);
    if counted.alive <= 0 then
      counted.(doors := seq(|room.doors|, k requires 0 <= k < |room.doors| => OpenIfLocked(room.doors[k])))
    else counted
  }

  /** One door's share of the unlock loop: only a connected, locked door
      changes, and it becomes unlocked. */
  function OpenIfLocked(d: Doors.Door): (r: Doors.Door)
    ensures r.state == (if d.connected.Some? && d.state == Doors.Locked then Doors.Unlocked else d.state)
    ensures r.(state := d.state) == d
  {
    if d.connected.Some? && d.state == Doors.Locked then Doors.Unlock(d) else d
  }

  /** The counter goes below zero on a surplus death, where the current room
      stops at zero. */
  lemma SurplusDeathGoesNegative(room: Room)
    requires room.alive == 0
    ensures HandleEnemyDeath(room).alive == -1 && Rooms.CountDeath(room.alive) == 0
  {
  }

  /** The room after `n` death notifications. */
  function Deaths(room: Room, n: nat): Room
    decreases n
  {
    if n == 0 then room else Deaths(HandleEnemyDeath(room), n - 1)
  }

  /** After `n` deaths the counter is exactly `n` lower, the room is never
      marked cleared by them, and once the counter has reached zero no
      connected door is left `Locked`. */
  lemma {:induction false} DeathsUnlockWithoutClearing(room: Room, n: nat)
    ensures Deaths(room, n).alive == room.alive - n
    ensures Deaths(room, n).isCleared == room.isCleared
    ensures SameShape(room.(alive := room.alive - n), Deaths(room, n))
    ensures n >= 1 && room.alive - n <= 0 ==>
      forall k :: 0 <= k < |room.doors| && room.doors[k].connected.Some? ==> Deaths(room, n).doors[k].state != Doors.Locked
  {
    DeathsKeepShape(room, n);
    if n >= 1 && room.alive - n <= 0 {
      DeathsOpenDoors(room, n);
    }
  }

  lemma {:induction false} DeathsKeepShape(room: Room, n: nat)
    ensures Deaths(room, n).alive == room.alive - n
    ensures Deaths(room, n).isCleared == room.isCleared
    ensures SameShape(room.(alive := room.alive - n), Deaths(room, n))
    decreases n
  {
    if n > 0 {
      var next := HandleEnemyDeath(room);
      DeathsKeepShape(next, n - 1);
      assert SameShape(room.(alive := room.alive - n), next.(alive := room.alive - n));
      ShapeTransitive(room.(alive := room.alive - n), next.(alive := room.alive - n), Deaths(room, n));
    }
  }

  lemma {:induction false} DeathsOpenDoors(room: Room, n: nat)
    requires n >= 1 && room.alive - n <= 0
    ensures |Deaths(room, n).doors| == |room.doors|
    ensures forall k :: 0 <= k < |room.doors| && room.doors[k].connected.Some? ==> Deaths(room, n).doors[k].state != Doors.Locked
    decreases n
  {
    var next := HandleEnemyDeath(room);
    if n > 1 {
      DeathsOpenDoors(next, n - 1);
      assert forall k :: 0 <= k < |room.doors| ==> next.doors[k].connected == room.doors[k].connected;
    }
  }

  lemma ShapeTransitive(a: Room, b: Room, c: Room)
    requires SameShape(a, b) && SameShape(b, c)
    ensures SameShape(a, c)
  {
  }

  /** The legacy enemy: integer health, and no dead state. */
  datatype Enemy = Enemy(health: int, maxHealth: int)

  /** `Start`: full health. */
  function StartEnemy(e: Enemy): (r: Enemy)
    ensures r.health == e.maxHealth && r.maxHealth == e.maxHealth
  {
    e.(health := e.maxHealth)
  }

  /** `TakeDamage(damage)`: the health drops by `damage` and `OnDeath` fires
      (the second component) whenever it is then at most zero, however often
      that has happened before. */
  function TakeDamage(e: Enemy, damage: int): (r: (Enemy, bool))
    ensures r.0 == e.(health := e.health - damage)
    ensures r.1 <==> e.health - damage <= 0
  {
    var hurt := e.(health := e.health - damage);
    (hurt, hurt.health <= 0)
  }

  /** The number of `OnDeath` events over a run of hits. */
  function DeathEvents(e: Enemy, hits: seq<int>): nat
    decreases |hits|
  {
    if |hits| == 0 then 0
    else
      var h := TakeDamage(e, hits[0]);
      DeathEvents(h.0, hits[1..]) + if h.1 then 1 else 0
  }

  /** With no guard against a second death, every non-negative hit on an
      enemy at zero health fires `OnDeath` again. */
  lemma {:induction false} EveryHitAfterDeathFires(e: Enemy, hits: seq<int>)
    requires e.health <= 0
    requires forall i :: 0 <= i < |hits| ==> hits[i] >= 0
    ensures DeathEvents(e, hits) == |hits|
    decreases |hits|
  {
    if |hits| > 0 {
      EveryHitAfterDeathFires(TakeDamage(e, hits[0]).0, hits[1..]);
    }
  }
}
