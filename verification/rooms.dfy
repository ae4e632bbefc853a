/** `Room` (Assets/Scripts/Object/Room.cs): a node of the dungeon holding its
    doors, grid cell, flags and live-enemy counter. Operations that touch only
    one room are here; those that go through `RoomManager` are in `Dungeon`. */
module Rooms {
  import opened Wrappers
  import opened Grid
  import opened Doors
  import Mathf

  /** The parts of the room prefab that the core depends on: the direction
      tags of its doors (in array order), its number of enemy spawn points,
      whether it carries an `ItemSpawner`, and whether `levelPortalPrefab` is
      assigned. */
  datatype Prefab = Prefab(doorTags: seq<Tag>, spawnPoints: nat, hasItemSpawner: bool, hasPortalPrefab: bool)

  datatype Room = Room(
    grid: Cell,
    doors: seq<Door>,
    isStart: bool,
    isBoss: bool,
    isVisited: bool,
    isCleared: bool,
    alive: int,
    spawnPoints: nat,
    hasItemSpawner: bool,
    hasPortalPrefab: bool)

  /** A freshly instantiated prefab: every flag at its default, no connected
      door, every door object active. */
  function Instantiate(p: Prefab): (r: Room)
    ensures |r.doors| == |p.doorTags|
    ensures forall k :: 0 <= k < |r.doors| ==> r.doors[k] == Door(p.doorTags[k], Unconnected, None, None, true)
    ensures !r.isStart && !r.isBoss && !r.isVisited && !r.isCleared && r.alive == 0
  {
    Room(Origin,
         seq(|p.doorTags|, k requires 0 <= k < |p.doorTags| => Door(p.doorTags[k], Unconnected, None, None, true)),
         false, false, false, false, 0, p.spawnPoints, p.hasItemSpawner, p.hasPortalPrefab)
  }

  /** Everything about a room except its doors' states and active flags is
      the same. */
  predicate SameShape(a: Room, b: Room)
  {
    && a.grid == b.grid
    && |a.doors| == |b.doors|
    && a.isStart == b.isStart && a.isBoss == b.isBoss
    && a.spawnPoints == b.spawnPoints
    && a.hasItemSpawner == b.hasItemSpawner && a.hasPortalPrefab == b.hasPortalPrefab
    && forall k :: 0 <= k < |a.doors| ==>
         a.doors[k].tag == b.doors[k].tag
         && a.doors[k].connected == b.doors[k].connected
         && a.doors[k].parent == b.doors[k].parent
  }

  lemma SameShapeTransitive(a: Room, b: Room, c: Room)
    requires SameShape(a, b) && SameShape(b, c)
    ensures SameShape(a, c)
  {
  }

  /** Every door is `Unconnected` exactly when it has no connected room. */
  predicate DoorsConsistent(r: Room)
  {
    forall k :: 0 <= k < |r.doors| ==> Consistent(r.doors[k])
  }

  /** `Room.Initialize(gridPos)`, for the room stored at index `self`: the
      grid cell is set, every door is forced to `Unconnected` and then
      re-initialised (which keeps it so), every door's parent becomes this
      room, and a starting room then unlocks its connected doors. */
  function Initialize(room: Room, self: nat, grid: Cell): (r: Room)
    ensures r.grid == grid && |r.doors| == |room.doors|
    ensures forall k :: 0 <= k < |r.doors| ==>
      && r.doors[k].parent == Some(self)
      && r.doors[k].state == (if room.isStart && room.doors[k].connected.Some? then Unlocked else Unconnected)
      && r.doors[k].(state := room.doors[k].state, parent := room.doors[k].parent) == room.doors[k]
    ensures r.(grid := room.grid, doors := room.doors) == room
    ensures (forall k :: 0 <= k < |room.doors| ==> room.doors[k].connected.None?) ==> DoorsConsistent(r)
  {
    var doors := seq(|room.doors|, k requires 0 <= k < |room.doors| =>
      var d := Doors.Initialize(room.doors[k].(state := Unconnected)).(parent := Some(self));
      if room.isStart && d.connected.Some? then Unlock(d) else d);
    room.(grid := grid, doors := doors)
  }

  /** `GetDoorForDirection`: the first door, in array order, tagged `d`. */
  function FirstTagged(doors: seq<Door>, d: Direction): (r: Option<nat>)
    ensures r.Some? ==> r.value < |doors| && doors[r.value].tag == Tagged(d)
    ensures r.Some? ==> forall k :: 0 <= k < r.value ==> doors[k].tag != Tagged(d)
    ensures r.None? ==> forall k :: 0 <= k < |doors| ==> doors[k].tag != Tagged(d)
  {
    if |doors| == 0 then None
    else if doors[0].tag == Tagged(d) then Some(0)
    else
      match FirstTagged(doors[1..], d)
      case None => None
      case Some(k) => Some(k + 1)
  }

  /** The first door tagged `d` depends only on the tags. */
  lemma FirstTaggedDependsOnTags(a: seq<Door>, b: seq<Door>, d: Direction)
    requires |a| == |b|
    requires forall k :: 0 <= k < |a| ==> a[k].tag == b[k].tag
    ensures FirstTagged(a, d) == FirstTagged(b, d)
  {
  }

  /** `ActivateRoom`: shows exactly the connected doors (others keep their
      active flag); no door state changes. */
  function ActivateRoom(room: Room): (r: Room)
    ensures SameShape(room, r)
    ensures r.(doors := room.doors) == room
    ensures forall k :: 0 <= k < |r.doors| ==>
      && r.doors[k].state == room.doors[k].state
      && r.doors[k].active == (room.doors[k].connected.Some? || room.doors[k].active)
    ensures DoorsConsistent(room) ==> DoorsConsistent(r)
  {
    room.(doors := seq(|room.doors|, k requires 0 <= k < |room.doors| =>
      if room.doors[k].connected.Some? then room.doors[k].(active := true) else room.doors[k]))
  }

  /** `DeactivateRoom`: hides every door; no door state changes. */
  function DeactivateRoom(room: Room): (r: Room)
    ensures SameShape(room, r)
    ensures r.(doors := room.doors) == room
    ensures forall k :: 0 <= k < |r.doors| ==> r.doors[k].state == room.doors[k].state && !r.doors[k].active
    ensures DoorsConsistent(room) ==> DoorsConsistent(r)
  {
    room.(doors := seq(|room.doors|, k requires 0 <= k < |room.doors| => room.doors[k].(active := false)))
  }

  /** The loop shared by `UnlockDoors`, the clearance branch of
      `HandleEnemyDeath` and the revisit branch of `EnterRoom`: every
      connected door is unlocked, every unconnected door is left alone. */
  function UnlockConnected(room: Room): (r: Room)
    ensures SameShape(room, r)
    ensures r.(doors := room.doors) == room
    ensures forall k :: 0 <= k < |r.doors| ==>
      if room.doors[k].connected.Some? then r.doors[k] == Unlock(room.doors[k]) else r.doors[k] == room.doors[k]
    ensures DoorsConsistent(room) ==> DoorsConsistent(r)
  {
    room.(doors := seq(|room.doors|, k requires 0 <= k < |room.doors| =>
      if room.doors[k].connected.Some? then Unlock(room.doors[k]) else room.doors[k]))
  }

  /** `UnlockDoors`: marks the room cleared and unlocks exactly the connected
      doors. */
  function UnlockDoors(room: Room): (r: Room)
    ensures r.isCleared && SameShape(room, r)
    ensures r.(isCleared := room.isCleared, doors := room.doors) == room
    ensures forall k :: 0 <= k < |r.doors| ==>
      (room.doors[k].connected.Some? ==> Passable(r.doors[k]))
      && (room.doors[k].connected.None? ==> r.doors[k] == room.doors[k])
      && r.doors[k].active == room.doors[k].active
    ensures DoorsConsistent(room) ==> DoorsConsistent(r)
  {
    UnlockConnected(room).(isCleared := true)
  }

  /** `LockAllDoors(exceptDoor)` for the room stored at index `self`:
      unconnected doors are untouched, the connected door that IS `except`
      (same room, same slot) is unlocked, every other connected door locked. */
  function LockAllDoors(room: Room, self: nat, except: Option<DoorRef>): (r: Room)
    ensures SameShape(room, r)
    ensures r.(doors := room.doors) == room
    ensures forall k :: 0 <= k < |r.doors| ==>
      && (room.doors[k].connected.None? ==> r.doors[k] == room.doors[k])
      && (room.doors[k].connected.Some? ==>
            r.doors[k].state == (if except == Some(DoorRef(self, k)) then Unlocked else Locked))
      && r.doors[k].active == room.doors[k].active
    ensures DoorsConsistent(room) ==> DoorsConsistent(r)
  {
    room.(doors := seq(|room.doors|, k requires 0 <= k < |room.doors| =>
      LockOne(room.doors[k], except == Some(DoorRef(self, k)))))
  }

  /** One door's share of `LockAllDoors`. */
  function LockOne(door: Door, spared: bool): (r: Door)
    ensures door.connected.None? ==> r == door
    ensures door.connected.Some? ==> r.state == (if spared then Unlocked else Locked)
    ensures r.(state := door.state) == door
    ensures Consistent(door) ==> Consistent(r)
  {
    if door.connected.None? then door
    else if spared then Unlock(door)
    else Lock(door)
  }

  /** A door of another room never matches, so every connected door locks. */
  lemma LockAllDoorsExceptForeignDoor(room: Room, self: nat, except: Option<DoorRef>)
    requires except.None? || except.value.room != self
    ensures forall k :: 0 <= k < |room.doors| && room.doors[k].connected.Some? ==>
      LockAllDoors(room, self, except).doors[k].state == Locked
  {
  }

  /** The counter update of `HandleEnemyDeath`: one fewer, never below zero. */
  function CountDeath(alive: int): (r: int)
    ensures r >= 0
    ensures alive >= 1 ==> r == alive - 1
    ensures alive <= 1 ==> r == 0
  {
    Mathf.Max(alive - 1, 0)
  }

  /** However many death notifications arrive, the counter stays non-negative
      and reaches zero after at most `alive` of them. */
  function CountDeaths(alive: int, n: nat): int
    decreases n
  {
    if n == 0 then alive else CountDeaths(CountDeath(alive), n - 1)
  }

  lemma {:induction false} CountDeathsFloor(alive: int, n: nat)
    ensures n >= 1 ==> CountDeaths(alive, n) >= 0
    ensures n >= 1 ==> CountDeaths(alive, n) == Mathf.Max(alive - n, 0)
    decreases n
  {
    if n > 1 {
      CountDeathsFloor(CountDeath(alive), n - 1);
    }
  }
}
