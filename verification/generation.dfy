/** `RoomManager.GenerateRooms` and its helpers (Assets/Scripts/RoomManager.cs):
    the dungeon is an arena `seq<Room>` whose index 0 is the starting room;
    door links are room indices. The random draws are oracle inputs. */
module Generation {
  import opened Wrappers
  import opened Grid
  import opened Doors
  import opened Rooms
  import Mathf

  /** The generation parameters of `RoomManager`. The room size is a pair of
      positive integers. */
  datatype Config = Config(
    minRooms: int,
    maxRooms: int,
    roomWidth: int,
    roomHeight: int,
    branchChance: real,
    maxDepth: int)

  predicate ValidConfig(cfg: Config)
  {
    cfg.roomWidth > 0 && cfg.roomHeight > 0
  }

  /** `r` names a door of the arena. */
  predicate IsDoor(rooms: seq<Room>, r: DoorRef)
  {
    r.room < |rooms| && r.slot < |rooms[r.room].doors|
  }

  /** The set of occupied grid cells. */
  function Cells(rooms: seq<Room>): set<Cell>
  {
    set i | 0 <= i < |rooms| :: rooms[i].grid
  }

  /** Arenas whose rooms sit on the same cells, index by index, occupy the
      same set of cells. */
  lemma SameGridsCells(a: seq<Room>, b: seq<Room>)
    requires |a| == |b| && forall i :: 0 <= i < |a| ==> a[i].grid == b[i].grid
    ensures Cells(a) == Cells(b)
  {
    forall c | c in Cells(a) ensures c in Cells(b) {
      var i :| 0 <= i < |a| && a[i].grid == c;
      assert b[i].grid == c;
    }
    forall c | c in Cells(b) ensures c in Cells(a) {
      var i :| 0 <= i < |b| && b[i].grid == c;
      assert a[i].grid == c;
    }
  }

  /** No two rooms share a grid cell. */
  predicate DistinctCells(rooms: seq<Room>)
  {
    forall i, j :: 0 <= i < j < |rooms| ==> rooms[i].grid != rooms[j].grid
  }

  /** Every door's parent is the room holding it, and every link stays inside
      the arena. */
  predicate Owned(rooms: seq<Room>)
  {
    forall i, k :: 0 <= i < |rooms| && 0 <= k < |rooms[i].doors| ==>
      rooms[i].doors[k].parent == Some(i)
      && (rooms[i].doors[k].connected.Some? ==> rooms[i].doors[k].connected.value < |rooms|)
  }

  /** The pairing invariant for door `k` of room `i`: if it leads to room
      `j`, then it is room `i`'s door for its direction `d`, room `j` lies one
      step in direction `d`, and room `j`'s door for `Opposite(d)` leads back
      to room `i`. */
  predicate DoorPaired(rooms: seq<Room>, i: nat, k: nat)
    requires i < |rooms| && k < |rooms[i].doors|
  {
    var door := rooms[i].doors[k];
    door.connected.Some? ==>
      var j := door.connected.value;
      && j < |rooms|
      && door.tag.Tagged?
      && FirstTagged(rooms[i].doors, door.tag.dir) == Some(k)
      && rooms[j].grid == Step(rooms[i].grid, door.tag.dir)
      && var back := FirstTagged(rooms[j].doors, Opposite(door.tag.dir));
         back.Some? && rooms[j].doors[back.value].connected == Some(i)
  }

  predicate Paired(rooms: seq<Room>)
  {
    forall i, k :: 0 <= i < |rooms| && 0 <= k < |rooms[i].doors| ==> DoorPaired(rooms, i, k)
  }

  /** The structural invariants of a generated dungeon. */
  predicate Structure(rooms: seq<Room>)
  {
    Owned(rooms) && DistinctCells(rooms) && Paired(rooms)
  }

  /** Every room's doors are `Unconnected` exactly when unlinked. */
  predicate Consistent(rooms: seq<Room>)
  {
    forall i :: 0 <= i < |rooms| ==> DoorsConsistent(rooms[i])
  }

  /** Every linked door is `Unlocked`. */
  predicate AllLinkedUnlocked(rooms: seq<Room>)
  {
    forall i, k :: 0 <= i < |rooms| && 0 <= k < |rooms[i].doors| && rooms[i].doors[k].connected.Some? ==>
      rooms[i].doors[k].state == Unlocked
  }

  /** The door states generation leaves behind. */
  predicate Settled(rooms: seq<Room>)
  {
    Consistent(rooms) && AllLinkedUnlocked(rooms)
  }

  /** Same cells, flags, doors and tags: all that `ConnectRooms` leaves alone. */
  predicate SameLayout(a: seq<Room>, b: seq<Room>)
  {
    && |a| == |b|
    && forall i :: 0 <= i < |a| ==>
      && a[i].(doors := b[i].doors) == b[i]
      && |a[i].doors| == |b[i].doors|
      && forall k :: 0 <= k < |a[i].doors| ==>
           a[i].doors[k].tag == b[i].doors[k].tag && a[i].doors[k].parent == b[i].doors[k].parent
  }

  /** Replace door `k` of room `i`. */
  function SetDoor(rooms: seq<Room>, i: nat, k: nat, door: Door): (r: seq<Room>)
    requires i < |rooms| && k < |rooms[i].doors|
    ensures |r| == |rooms|
    ensures forall j :: 0 <= j < |r| && j != i ==> r[j] == rooms[j]
    ensures r[i] == rooms[i].(doors := rooms[i].doors[k := door])
    ensures door.tag == rooms[i].doors[k].tag && door.parent == rooms[i].doors[k].parent ==> SameLayout(rooms, r)
  {
    rooms[i := rooms[i].(doors := rooms[i].doors[k := door])]
  }

  lemma SameLayoutTransitive(a: seq<Room>, b: seq<Room>, c: seq<Room>)
    requires SameLayout(a, b) && SameLayout(b, c)
    ensures SameLayout(a, c)
  {
  }

  lemma SameLayoutCells(a: seq<Room>, b: seq<Room>)
    requires SameLayout(a, b)
    ensures Cells(a) == Cells(b)
    ensures DistinctCells(a) <==> DistinctCells(b)
  {
    forall c | c in Cells(a) ensures c in Cells(b) {
      var i :| 0 <= i < |a| && a[i].grid == c;
      assert b[i].grid == c;
    }
    forall c | c in Cells(b) ensures c in Cells(a) {
      var i :| 0 <= i < |b| && b[i].grid == c;
      assert a[i].grid == c;
    }
  }

  /** `CreateRoom(position)` for the room that will sit at index `index`:
      instantiate the prefab and initialise it at the rounded grid cell. */
  function CreateRoom(prefab: Prefab, index: nat, position: Point, cfg: Config): (r: Room)
    requires ValidConfig(cfg)
    ensures r.grid == GridPosition(position, cfg.roomWidth, cfg.roomHeight)
    ensures |r.doors| == |prefab.doorTags|
    ensures forall k :: 0 <= k < |r.doors| ==>
      r.doors[k] == Door(prefab.doorTags[k], Unconnected, None, Some(index), true)
    ensures !r.isStart && !r.isBoss && !r.isVisited && !r.isCleared && r.alive == 0
    ensures r.spawnPoints == prefab.spawnPoints && r.hasItemSpawner == prefab.hasItemSpawner
    ensures r.hasPortalPrefab == prefab.hasPortalPrefab
  {
    Rooms.Initialize(Instantiate(prefab), index, GridPosition(position, cfg.roomWidth, cfg.roomHeight))
  }

  /** `ConnectRooms(roomA, roomB, direction)`: roomA's first door tagged
      `d` and roomB's first door tagged `Opposite(d)` are linked to each other
      and both end `Unlocked` and active; a self-connection or a missing
      directional door leaves everything unchanged. */
  function ConnectRooms(rooms: seq<Room>, a: nat, b: nat, d: Direction): (r: seq<Room>)
    requires a < |rooms| && b < |rooms|
    ensures SameLayout(rooms, r)
    ensures a == b || FirstTagged(rooms[a].doors, d).None? || FirstTagged(rooms[b].doors, Opposite(d)).None?
            ==> r == rooms
  {
    if a == b then rooms
    else
      var ka := FirstTagged(rooms[a].doors, d);
      var kb := FirstTagged(rooms[b].doors, Opposite(d));
      if ka.None? || kb.None? then rooms
      else
        var doorA := Doors.ConnectRoom(rooms[a].doors[ka.value], Some(b)).(active := true);
        var doorB := Doors.ConnectRoom(rooms[b].doors[kb.value], Some(a)).(active := true);
        var doorA' := if rooms[a].isStart then Unlock(doorA) else doorA;
        var r1 := SetDoor(rooms, a, ka.value, doorA');
        var r2 := SetDoor(r1, b, kb.value, doorB);
        SameLayoutTransitive(rooms, r1, r2);
        r2
  }

  /** When both directional doors exist, `ConnectRooms` links exactly those
      two doors to each other, leaves both `Unlocked` and active, and changes
      no other door. */
  lemma ConnectRoomsLinksPair(rooms: seq<Room>, a: nat, b: nat, d: Direction)
    requires a < |rooms| && b < |rooms| && a != b
    requires FirstTagged(rooms[a].doors, d).Some? && FirstTagged(rooms[b].doors, Opposite(d)).Some?
    ensures
      var r := ConnectRooms(rooms, a, b, d);
      var ka := FirstTagged(rooms[a].doors, d).value;
      var kb := FirstTagged(rooms[b].doors, Opposite(d)).value;
      && r[a].doors[ka].connected == Some(b) && r[a].doors[ka].state == Unlocked && r[a].doors[ka].active
      && r[b].doors[kb].connected == Some(a) && r[b].doors[kb].state == Unlocked && r[b].doors[kb].active
      && forall i, k :: 0 <= i < |r| && 0 <= k < |r[i].doors| && (i, k) != (a, ka) && (i, k) != (b, kb) ==>
           r[i].doors[k] == rooms[i].doors[k]
  {
    ConnectSetsPair(rooms, a, b, d);
    ConnectTouchesNothingElse(rooms, a, b, d);
  }

  /** The two doors `ConnectRooms` writes. */
  lemma ConnectSetsPair(rooms: seq<Room>, a: nat, b: nat, d: Direction)
    requires a < |rooms| && b < |rooms| && a != b
    requires FirstTagged(rooms[a].doors, d).Some? && FirstTagged(rooms[b].doors, Opposite(d)).Some?
    ensures
      var r := ConnectRooms(rooms, a, b, d);
      var ka := FirstTagged(rooms[a].doors, d).value;
      var kb := FirstTagged(rooms[b].doors, Opposite(d)).value;
      && r[a].doors[ka].connected == Some(b) && r[a].doors[ka].state == Unlocked && r[a].doors[ka].active
      && r[b].doors[kb].connected == Some(a) && r[b].doors[kb].state == Unlocked && r[b].doors[kb].active
  {
  }

  /** Every door other than the two written keeps its value. */
  lemma ConnectTouchesNothingElse(rooms: seq<Room>, a: nat, b: nat, d: Direction)
    requires a < |rooms| && b < |rooms| && a != b
    requires FirstTagged(rooms[a].doors, d).Some? && FirstTagged(rooms[b].doors, Opposite(d)).Some?
    ensures
      var r := ConnectRooms(rooms, a, b, d);
      var ka := FirstTagged(rooms[a].doors, d).value;
      var kb := FirstTagged(rooms[b].doors, Opposite(d)).value;
      forall i, k :: 0 <= i < |r| && 0 <= k < |r[i].doors| && (i, k) != (a, ka) && (i, k) != (b, kb) ==>
        r[i].doors[k] == rooms[i].doors[k]
  {
    var r := ConnectRooms(rooms, a, b, d);
    var ka := FirstTagged(rooms[a].doors, d).value;
    var kb := FirstTagged(rooms[b].doors, Opposite(d)).value;
    forall i, k | 0 <= i < |r| && 0 <= k < |r[i].doors| && (i, k) != (a, ka) && (i, k) != (b, kb)
      ensures r[i].doors[k] == rooms[i].doors[k]
    {
    }
  }

  /** No door of `a` leads to `b` and no door of `b` leads to `a`. */
  predicate Unlinked(rooms: seq<Room>, a: nat, b: nat)
    requires a < |rooms| && b < |rooms|
  {
    && (forall k :: 0 <= k < |rooms[a].doors| ==> rooms[a].doors[k].connected != Some(b))
    && (forall k :: 0 <= k < |rooms[b].doors| ==> rooms[b].doors[k].connected != Some(a))
  }

  /** Connecting two unlinked neighbouring rooms keeps the pairing symmetric
      and the door states settled. */
  lemma ConnectPreservesStructure(rooms: seq<Room>, a: nat, b: nat, d: Direction)
    requires Structure(rooms) && Settled(rooms)
    requires a < |rooms| && b < |rooms| && a != b
    requires rooms[b].grid == Step(rooms[a].grid, d)
    requires Unlinked(rooms, a, b)
    ensures Structure(ConnectRooms(rooms, a, b, d)) && Settled(ConnectRooms(rooms, a, b, d))
  {
    var r := ConnectRooms(rooms, a, b, d);
    if FirstTagged(rooms[a].doors, d).Some? && FirstTagged(rooms[b].doors, Opposite(d)).Some? {
      FreeDoorsBeforeConnect(rooms, a, b, d);
      SameLayoutCells(rooms, r);
      ConnectKeepsPaired(rooms, a, b, d);
      ConnectKeepsSettled(rooms, a, b, d);
    }
  }

  /** Both directional doors of two unlinked neighbours are free: a link from
      either would have to lead to the room on the neighbouring cell, which
      is the other one. */
  lemma FreeDoorsBeforeConnect(rooms: seq<Room>, a: nat, b: nat, d: Direction)
    requires Structure(rooms)
    requires a < |rooms| && b < |rooms| && a != b
    requires rooms[b].grid == Step(rooms[a].grid, d)
    requires Unlinked(rooms, a, b)
    requires FirstTagged(rooms[a].doors, d).Some? && FirstTagged(rooms[b].doors, Opposite(d)).Some?
    ensures rooms[a].doors[FirstTagged(rooms[a].doors, d).value].connected.None?
    ensures rooms[b].doors[FirstTagged(rooms[b].doors, Opposite(d)).value].connected.None?
  {
    var ka := FirstTagged(rooms[a].doors, d).value;
    var kb := FirstTagged(rooms[b].doors, Opposite(d)).value;
    StepBack(rooms[a].grid, d);
    OppositeIsInvolution(d);
    assert DoorPaired(rooms, a, ka) && DoorPaired(rooms, b, kb);
  }

  /** Linking two free directional doors of neighbours keeps every door
      paired. */
  lemma ConnectKeepsPaired(rooms: seq<Room>, a: nat, b: nat, d: Direction)
    requires Structure(rooms)
    requires a < |rooms| && b < |rooms| && a != b
    requires rooms[b].grid == Step(rooms[a].grid, d)
    requires FirstTagged(rooms[a].doors, d).Some? && FirstTagged(rooms[b].doors, Opposite(d)).Some?
    requires rooms[a].doors[FirstTagged(rooms[a].doors, d).value].connected.None?
    requires rooms[b].doors[FirstTagged(rooms[b].doors, Opposite(d)).value].connected.None?
    ensures Owned(ConnectRooms(rooms, a, b, d)) && Paired(ConnectRooms(rooms, a, b, d))
  {
    var r := ConnectRooms(rooms, a, b, d);
    ConnectRoomsLinksPair(rooms, a, b, d);
    forall i, k | 0 <= i < |r| && 0 <= k < |r[i].doors|
      ensures DoorPaired(r, i, k)
    {
      ConnectKeepsDoorPaired(rooms, a, b, d, i, k);
    }
  }

  /** Linking two doors leaves every linked door `Unlocked` and every door
      consistent with its link. */
  lemma ConnectKeepsSettled(rooms: seq<Room>, a: nat, b: nat, d: Direction)
    requires Settled(rooms)
    requires a < |rooms| && b < |rooms| && a != b
    requires FirstTagged(rooms[a].doors, d).Some? && FirstTagged(rooms[b].doors, Opposite(d)).Some?
    ensures Settled(ConnectRooms(rooms, a, b, d))
  {
    var r := ConnectRooms(rooms, a, b, d);
    ConnectRoomsLinksPair(rooms, a, b, d);
    forall i | 0 <= i < |r| ensures DoorsConsistent(r[i]) {
      assert DoorsConsistent(rooms[i]);
    }
  }

  /** One door's share of `ConnectPreservesStructure`. */
  lemma ConnectKeepsDoorPaired(rooms: seq<Room>, a: nat, b: nat, d: Direction, i: nat, k: nat)
    requires Structure(rooms)
    requires a < |rooms| && b < |rooms| && a != b
    requires rooms[b].grid == Step(rooms[a].grid, d)
    requires FirstTagged(rooms[a].doors, d).Some? && FirstTagged(rooms[b].doors, Opposite(d)).Some?
    requires rooms[a].doors[FirstTagged(rooms[a].doors, d).value].connected.None?
    requires rooms[b].doors[FirstTagged(rooms[b].doors, Opposite(d)).value].connected.None?
    requires i < |rooms| && k < |rooms[i].doors|
    ensures k < |ConnectRooms(rooms, a, b, d)[i].doors| && DoorPaired(ConnectRooms(rooms, a, b, d), i, k)
  {
    var ka := FirstTagged(rooms[a].doors, d).value;
    var kb := FirstTagged(rooms[b].doors, Opposite(d)).value;
    if (i, k) == (a, ka) || (i, k) == (b, kb) {
      ConnectLinksArePaired(rooms, a, b, d);
    } else {
      assert DoorPaired(rooms, i, k);
      ConnectKeepsOtherDoor(rooms, a, b, d, i, k);
    }
  }

  /** The two doors `ConnectRooms` links are paired with each other. */
  lemma ConnectLinksArePaired(rooms: seq<Room>, a: nat, b: nat, d: Direction)
    requires a < |rooms| && b < |rooms| && a != b
    requires rooms[b].grid == Step(rooms[a].grid, d)
    requires FirstTagged(rooms[a].doors, d).Some? && FirstTagged(rooms[b].doors, Opposite(d)).Some?
    ensures var r := ConnectRooms(rooms, a, b, d);
      && DoorPaired(r, a, FirstTagged(rooms[a].doors, d).value)
      && DoorPaired(r, b, FirstTagged(rooms[b].doors, Opposite(d)).value)
  {
    var r := ConnectRooms(rooms, a, b, d);
    ConnectRoomsLinksPair(rooms, a, b, d);
    StepBack(rooms[a].grid, d);
    OppositeIsInvolution(d);
    FirstTaggedDependsOnTags(r[a].doors, rooms[a].doors, d);
    FirstTaggedDependsOnTags(r[b].doors, rooms[b].doors, Opposite(d));
  }

  /** A door other than the two linked ones keeps its pairing: neither it
      nor the door it is paired with changes. */
  lemma ConnectKeepsOtherDoor(rooms: seq<Room>, a: nat, b: nat, d: Direction, i: nat, k: nat)
    requires a < |rooms| && b < |rooms| && a != b
    requires FirstTagged(rooms[a].doors, d).Some? && FirstTagged(rooms[b].doors, Opposite(d)).Some?
    requires rooms[a].doors[FirstTagged(rooms[a].doors, d).value].connected.None?
    requires rooms[b].doors[FirstTagged(rooms[b].doors, Opposite(d)).value].connected.None?
    requires i < |rooms| && k < |rooms[i].doors| && DoorPaired(rooms, i, k)
    requires (i, k) != (a, FirstTagged(rooms[a].doors, d).value)
    requires (i, k) != (b, FirstTagged(rooms[b].doors, Opposite(d)).value)
    ensures k < |ConnectRooms(rooms, a, b, d)[i].doors| && DoorPaired(ConnectRooms(rooms, a, b, d), i, k)
  {
    var r := ConnectRooms(rooms, a, b, d);
    ConnectRoomsLinksPair(rooms, a, b, d);
    var door := rooms[i].doors[k];
    if door.connected.Some? {
      var back := FirstTagged(rooms[door.connected.value].doors, Opposite(door.tag.dir));
      assert rooms[door.connected.value].doors[back.value].connected == Some(i);
    }
    PairingTransfers(rooms, r, i, k);
  }

  /** A pairing carries over to an arena of the same layout in which the
      door and the door it pairs with keep their links. */
  lemma PairingTransfers(x: seq<Room>, y: seq<Room>, i: nat, k: nat)
    requires SameLayout(x, y) && i < |x| && k < |x[i].doors| && DoorPaired(x, i, k)
    requires y[i].doors[k].connected == x[i].doors[k].connected
    requires x[i].doors[k].connected.Some? ==>
      var j := x[i].doors[k].connected.value;
      var back := FirstTagged(x[j].doors, Opposite(x[i].doors[k].tag.dir)).value;
      y[j].doors[back].connected == x[j].doors[back].connected
    ensures k < |y[i].doors| && DoorPaired(y, i, k)
  {
    var door := x[i].doors[k];
    if door.connected.Some? {
      var j := door.connected.value;
      FirstTaggedDependsOnTags(y[i].doors, x[i].doors, door.tag.dir);
      FirstTaggedDependsOnTags(y[j].doors, x[j].doors, Opposite(door.tag.dir));
    }
  }

  /** Appending a new room on a free cell keeps every invariant, and the
      added room is unlinked from every other room. */
  lemma AddRoomPreservesStructure(rooms: seq<Room>, added: Room)
    requires Structure(rooms) && Settled(rooms)
    requires added.grid !in Cells(rooms)
    requires forall k :: 0 <= k < |added.doors| ==>
      added.doors[k].connected.None? && added.doors[k].state == Unconnected && added.doors[k].parent == Some(|rooms|)
    ensures Structure(rooms + [added]) && Settled(rooms + [added])
    ensures Cells(rooms + [added]) == Cells(rooms) + {added.grid}
    ensures forall a :: 0 <= a < |rooms| ==> Unlinked(rooms + [added], a, |rooms|)
  {
    var r := rooms + [added];
    forall i | 0 <= i < |rooms| ensures r[i] == rooms[i] { }
    forall i, j | 0 <= i < j < |r| ensures r[i].grid != r[j].grid {
      if j == |rooms| {
        assert rooms[i].grid in Cells(rooms);
      }
    }
    forall i, k | 0 <= i < |r| && 0 <= k < |r[i].doors| ensures DoorPaired(r, i, k) {
      if i < |rooms| {
        assert DoorPaired(rooms, i, k);
      }
    }
    forall c | c in Cells(r) ensures c in Cells(rooms) + {added.grid} {
      var i :| 0 <= i < |r| && r[i].grid == c;
      if i < |rooms| {
        assert rooms[i].grid == c;
      }
    }
    forall c | c in Cells(rooms) + {added.grid} ensures c in Cells(r) {
      if c == added.grid {
        assert r[|rooms|].grid == c;
      } else {
        var i :| 0 <= i < |rooms| && rooms[i].grid == c;
        assert r[i].grid == c;
      }
    }
  }

  /** No room has been visited or cleared yet and no enemy is counted. */
  predicate Fresh(rooms: seq<Room>)
  {
    forall i :: 0 <= i < |rooms| ==> !rooms[i].isVisited && !rooms[i].isCleared && rooms[i].alive == 0
  }

  /** The invariant of both generation loops: a settled, well-structured,
      fresh arena whose room 0 is the starting room at the origin, with no
      other starting room and no boss yet. */
  predicate GenInv(rooms: seq<Room>)
  {
    && |rooms| >= 1
    && rooms[0].grid == Origin && rooms[0].isStart
    && (forall i :: 1 <= i < |rooms| ==> !rooms[i].isStart)
    && (forall i :: 0 <= i < |rooms| ==> !rooms[i].isBoss)
    && Structure(rooms) && Settled(rooms) && Fresh(rooms)
  }

  /** One placement step shared by both loops: create a room on the cell next
      to room `from` in direction `d`, then connect the two. */
  function Attach(rooms: seq<Room>, from: nat, d: Direction, prefab: Prefab, cfg: Config): seq<Room>
    requires ValidConfig(cfg) && from < |rooms|
  {
    var position := WorldPosition(rooms[from].grid, cfg.roomWidth, cfg.roomHeight);
    var cell := NewGridPosition(position, d, cfg.roomWidth, cfg.roomHeight);
    var created := CreateRoom(prefab, |rooms|, WorldPosition(cell, cfg.roomWidth, cfg.roomHeight), cfg);
    ConnectRooms(rooms + [created], from, |rooms|, d)
  }

  lemma AttachPreserves(rooms: seq<Room>, from: nat, d: Direction, prefab: Prefab, cfg: Config)
    requires ValidConfig(cfg) && from < |rooms|
    requires GenInv(rooms)
    requires Step(rooms[from].grid, d) !in Cells(rooms)
    ensures GenInv(Attach(rooms, from, d, prefab, cfg))
    ensures |Attach(rooms, from, d, prefab, cfg)| == |rooms| + 1
    ensures Cells(Attach(rooms, from, d, prefab, cfg)) == Cells(rooms) + {Step(rooms[from].grid, d)}
  {
    var w, h := cfg.roomWidth, cfg.roomHeight;
    var cell := Step(rooms[from].grid, d);
    NewGridPositionOfRoom(rooms[from].grid, d, w, h);
    GridOfWorld(cell, w, h);
    var created := CreateRoom(prefab, |rooms|, WorldPosition(cell, w, h), cfg);
    assert created.grid == cell;
    AddRoomPreservesStructure(rooms, created);
    var r1 := rooms + [created];
    assert Unlinked(r1, from, |rooms|);
    ConnectPreservesStructure(r1, from, |rooms|, d);
    var r := ConnectRooms(r1, from, |rooms|, d);
    SameLayoutCells(r1, r);
    assert r[0].grid == Origin && r[0].isStart;
  }

  /** The first direction, in enumeration order, whose neighbouring cell is
      free (the inner loop of the minimum-room fill). */
  function FirstFreeDirection(c: Cell, occupied: set<Cell>): (r: Option<Direction>)
    ensures r.Some? ==> Step(c, r.value) !in occupied
    ensures r.None? ==> forall i :: 0 <= i < |Directions| ==> Step(c, Directions[i]) in occupied
    ensures r.Some? ==> forall i :: 0 <= i < |Directions| && Directions[i] == r.value ==>
      forall j :: 0 <= j < i ==> Step(c, Directions[j]) in occupied
  {
    if Step(c, North) !in occupied then Some(North)
    else if Step(c, East) !in occupied then Some(East)
    else if Step(c, South) !in occupied then Some(South)
    else if Step(c, West) !in occupied then Some(West)
    else None
  }

  /** The index of a room with the largest x coordinate. */
  function Eastmost(rooms: seq<Room>): (i: nat)
    requires |rooms| > 0
    ensures i < |rooms|
    ensures forall j :: 0 <= j < |rooms| ==> rooms[j].grid.x <= rooms[i].grid.x
  {
    if |rooms| == 1 then 0
    else
      var i := Eastmost(rooms[..|rooms| - 1]);
      if rooms[|rooms| - 1].grid.x > rooms[i].grid.x then |rooms| - 1 else i
  }

  /** The fill loop can always make progress: the eastmost room's East cell
      is free, so whenever the oracle picks that room a room is added. */
  lemma FillCanProgress(rooms: seq<Room>)
    requires |rooms| > 0
    ensures FirstFreeDirection(rooms[Eastmost(rooms)].grid, Cells(rooms)).Some?
  {
    var e := Eastmost(rooms);
    assert Step(rooms[e].grid, East) !in Cells(rooms);
  }

  /** The squared world distance between rooms `s` and `j`. */
  function Distance(rooms: seq<Room>, s: nat, j: nat, cfg: Config): int
    requires s < |rooms| && j < |rooms|
  {
    SquaredDistance(WorldPosition(rooms[s].grid, cfg.roomWidth, cfg.roomHeight),
                    WorldPosition(rooms[j].grid, cfg.roomWidth, cfg.roomHeight))
  }

  /** `FindFarthestRoom(startRoom)`: the first room, in arena order, at the
      strictly greatest distance from the start; the start itself when no
      room is farther than distance 0. */
  method FindFarthestRoom(rooms: seq<Room>, start: nat, cfg: Config) returns (farthest: nat)
    requires start < |rooms|
    ensures farthest < |rooms|
    ensures forall j :: 0 <= j < |rooms| ==> Distance(rooms, start, j, cfg) <= Distance(rooms, start, farthest, cfg)
    ensures Distance(rooms, start, farthest, cfg) == 0 ==> farthest == start
    ensures Distance(rooms, start, farthest, cfg) > 0 ==>
      forall j :: 0 <= j < farthest ==> Distance(rooms, start, j, cfg) < Distance(rooms, start, farthest, cfg)
  {
    farthest := start;
    var maxDistance := 0;
    for i := 0 to |rooms|
      invariant farthest < |rooms|
      invariant maxDistance == Distance(rooms, start, farthest, cfg)
      invariant forall j :: 0 <= j < i ==> Distance(rooms, start, j, cfg) <= maxDistance
      invariant maxDistance == 0 ==> farthest == start
      invariant maxDistance > 0 ==> farthest < i
      invariant maxDistance > 0 ==> forall j :: 0 <= j < farthest ==> Distance(rooms, start, j, cfg) < maxDistance
    {
      var distance := Distance(rooms, start, i, cfg);
      if distance > maxDistance {
        maxDistance := distance;
        farthest := i;
      }
    }
  }

  /** In a dungeon with distinct cells and more than one room, the farthest
      room is never the start. */
  lemma FarthestIsNotStart(rooms: seq<Room>, start: nat, farthest: nat, cfg: Config)
    requires ValidConfig(cfg) && DistinctCells(rooms) && |rooms| > 1
    requires start < |rooms| && farthest < |rooms|
    requires forall j :: 0 <= j < |rooms| ==> Distance(rooms, start, j, cfg) <= Distance(rooms, start, farthest, cfg)
    ensures farthest != start
  {
    var other := if start == 0 then 1 else 0;
    assert rooms[other].grid != rooms[start].grid;
    if Distance(rooms, start, other, cfg) == 0 {
      WorldPositionInjective(rooms[start].grid, rooms[other].grid, cfg.roomWidth, cfg.roomHeight);
    }
  }

  /** The final two door loops of `GenerateRooms`: the starting room's linked
      doors are unlocked and its unlinked doors forced `Unconnected`; then
      every unlinked door of every room is forced `Unconnected`. */
  function FinalizeDoors(rooms: seq<Room>): (r: seq<Room>)
    requires |rooms| > 0
    ensures SameLayout(rooms, r)
    ensures forall i, k :: 0 <= i < |r| && 0 <= k < |r[i].doors| ==>
      && r[i].doors[k].connected == rooms[i].doors[k].connected
      && r[i].doors[k].active == rooms[i].doors[k].active
      && (rooms[i].doors[k].connected.None? ==> r[i].doors[k].state == Unconnected)
      && (rooms[i].doors[k].connected.Some? && i == 0 ==> r[i].doors[k].state == Unlocked)
      && (rooms[i].doors[k].connected.Some? && i != 0 ==> r[i].doors[k] == rooms[i].doors[k])
  {
    seq(|rooms|, i requires 0 <= i < |rooms| => SettleRoom(rooms[i], i == 0))
  }

  /** Both loops applied to one room; only the start room goes through the
      first. */
  function SettleRoom(room: Room, isStart: bool): (r: Room)
    ensures r.(doors := room.doors) == room && |r.doors| == |room.doors|
    ensures forall k :: 0 <= k < |r.doors| ==>
      && r.doors[k].tag == room.doors[k].tag && r.doors[k].parent == room.doors[k].parent
      && r.doors[k].connected == room.doors[k].connected
      && r.doors[k].active == room.doors[k].active
      && (room.doors[k].connected.None? ==> r.doors[k].state == Unconnected)
      && (room.doors[k].connected.Some? && isStart ==> r.doors[k].state == Unlocked)
      && (room.doors[k].connected.Some? && !isStart ==> r.doors[k] == room.doors[k])
  {
    if isStart then ResetRoom(OpenStartRoom(room)) else ResetRoom(room)
  }

  /** The start-room loop: linked doors are unlocked, the others reset. */
  function OpenStartRoom(room: Room): (r: Room)
    ensures r.(doors := room.doors) == room && |r.doors| == |room.doors|
    ensures forall k :: 0 <= k < |r.doors| ==>
      && r.doors[k].(state := room.doors[k].state) == room.doors[k]
      && r.doors[k].state == (if room.doors[k].connected.Some? then Unlocked else Unconnected)
  {
    room.(doors := seq(|room.doors|, k requires 0 <= k < |room.doors| =>
      if room.doors[k].connected.Some? then Unlock(room.doors[k]) else room.doors[k].(state := Unconnected)))
  }

  /** The all-rooms loop: unlinked doors are reset, linked ones kept. */
  function ResetRoom(room: Room): (r: Room)
    ensures r.(doors := room.doors) == room && |r.doors| == |room.doors|
    ensures forall k :: 0 <= k < |r.doors| ==>
      && (room.doors[k].connected.None? ==> r.doors[k] == room.doors[k].(state := Unconnected))
      && (room.doors[k].connected.Some? ==> r.doors[k] == room.doors[k])
  {
    room.(doors := seq(|room.doors|, k requires 0 <= k < |room.doors| =>
      if room.doors[k].connected.None? then room.doors[k].(state := Unconnected) else room.doors[k]))
  }

  /** On a settled arena the finalisation loops repair nothing. */
  lemma FinalizeIsIdentityWhenSettled(rooms: seq<Room>)
    requires |rooms| > 0 && Settled(rooms)
    ensures FinalizeDoors(rooms) == rooms
  {
    var r := FinalizeDoors(rooms);
    forall i | 0 <= i < |rooms| ensures r[i] == rooms[i] {
      assert DoorsConsistent(rooms[i]);
      assert r[i].doors == rooms[i].doors;
    }
  }

  /** The cells the branching step offers around cell `c` from its first `n`
      directions: the neighbour in direction `Directions[t]` for each
      `t < n` whose draw is at most `chance`. */
  function DrawnCells(c: Cell, draws: seq<real>, chance: real, n: nat): set<Cell>
    requires n <= 4 && n <= |draws|
  {
    if n == 0 then {}
    else DrawnCells(c, draws, chance, n - 1) + (if draws[n - 1] <= chance then {Step(c, Directions[n - 1])} else {})
  }

  /** A cell is offered exactly when it is the neighbour in a drawn
      direction. */
  lemma {:induction false} DrawnCellsMembers(c: Cell, draws: seq<real>, chance: real, n: nat, x: Cell)
    requires n <= 4 && n <= |draws|
    ensures x in DrawnCells(c, draws, chance, n) <==>
      exists t :: 0 <= t < n && draws[t] <= chance && x == Step(c, Directions[t])
  {
    if n > 0 {
      DrawnCellsMembers(c, draws, chance, n - 1, x);
      if x in DrawnCells(c, draws, chance, n) && x !in DrawnCells(c, draws, chance, n - 1) {
        assert draws[n - 1] <= chance && x == Step(c, Directions[n - 1]);
      }
    }
  }

  /** The cells the branching step places rooms on around cell `c` from its
      first `n` directions, in enumeration order: the neighbour in each drawn
      direction that is free at that moment, that is, neither in `occupied`
      nor drawn by an earlier direction. */
  function BranchCells(c: Cell, draws: seq<real>, chance: real, n: nat, occupied: set<Cell>): seq<Cell>
    requires n <= 4 && n <= |draws|
  {
    if n == 0 then []
    else
      var x := Step(c, Directions[n - 1]);
      BranchCells(c, draws, chance, n - 1, occupied)
        + (if draws[n - 1] <= chance && x !in occupied + DrawnCells(c, draws, chance, n - 1) then [x] else [])
  }

  /** The cells offered around cell `c` when it is the `i`-th room dequeued by
      the breadth-first loop, which reads draws `4 * i` to `4 * i + 3`. */
  function Offered(c: Cell, branchDraws: seq<real>, i: nat, chance: real): set<Cell>
    requires 4 * i + 4 <= |branchDraws|
  {
    DrawnCells(c, branchDraws[4 * i .. 4 * i + 4], chance, 4)
  }

  /** One iteration of the breadth-first loop: for each direction in
      enumeration order whose draw is at most `branchChance`, place a room on
      the free neighbouring cell of room `current` and connect it. Returns the
      indices of the rooms placed, in order, for the generation queue. */
  method BranchOut(rooms: seq<Room>, occupied: set<Cell>, current: nat, draws: seq<real>, prefab: Prefab, cfg: Config)
    returns (rooms': seq<Room>, occupied': set<Cell>, placed: seq<nat>)
    requires ValidConfig(cfg) && GenInv(rooms) && occupied == Cells(rooms)
    requires current < |rooms| && |draws| == 4
    ensures GenInv(rooms') && occupied' == Cells(rooms')
    ensures occupied' == occupied + DrawnCells(rooms[current].grid, draws, cfg.branchChance, 4)
    ensures forall j :: |rooms| <= j < |rooms'| ==> rooms'[j].grid in DrawnCells(rooms[current].grid, draws, cfg.branchChance, 4)
    ensures Layout(rooms') == Layout(rooms) + BranchCells(rooms[current].grid, draws, cfg.branchChance, 4, occupied)
    ensures |rooms| <= |rooms'| <= |rooms| + 4
    ensures |placed| == |rooms'| - |rooms|
    ensures forall k :: 0 <= k < |placed| ==> placed[k] == |rooms| + k
    ensures forall i :: 0 <= i < |rooms| ==> rooms'[i].grid == rooms[i].grid
  {
    var c := rooms[current].grid;
    rooms', occupied', placed := rooms, occupied, [];
    for t := 0 to 4
      invariant GenInv(rooms') && occupied' == Cells(rooms')
      invariant BranchProgress(rooms, occupied, current, draws, cfg.branchChance, t, rooms', occupied', placed)
    {
      rooms', occupied', placed := BranchTurn(rooms, occupied, current, draws, prefab, cfg, t, rooms', occupied', placed);
    }
  }

  /** What the branching loop has done after its first `t` directions. */
  ghost predicate BranchProgress(rooms: seq<Room>, occupied: set<Cell>, current: nat, draws: seq<real>, chance: real,
                                 t: nat, rooms': seq<Room>, occupied': set<Cell>, placed: seq<nat>)
    requires current < |rooms| && t <= 4 && |draws| == 4
  {
    && occupied' == occupied + DrawnCells(rooms[current].grid, draws, chance, t)
    && (forall j :: |rooms| <= j < |rooms'| ==> rooms'[j].grid in DrawnCells(rooms[current].grid, draws, chance, t))
    && |rooms| <= |rooms'| <= |rooms| + t
    && Layout(rooms') == Layout(rooms) + BranchCells(rooms[current].grid, draws, chance, t, occupied)
    && |placed| == |rooms'| - |rooms|
    && (forall k :: 0 <= k < |placed| ==> placed[k] == |rooms| + k)
    && (forall i :: 0 <= i < |rooms| ==> rooms'[i].grid == rooms[i].grid)
  }

  /** One turn of the branching loop: direction `Directions[t]`. */
  method BranchTurn(rooms: seq<Room>, occupied: set<Cell>, current: nat, draws: seq<real>, prefab: Prefab, cfg: Config,
                    t: nat, rooms': seq<Room>, occupied': set<Cell>, placed: seq<nat>)
    returns (rooms'': seq<Room>, occupied'': set<Cell>, placed': seq<nat>)
    requires ValidConfig(cfg) && current < |rooms| && |draws| == 4 && t < 4
    requires GenInv(rooms') && occupied' == Cells(rooms')
    requires BranchProgress(rooms, occupied, current, draws, cfg.branchChance, t, rooms', occupied', placed)
    ensures GenInv(rooms'') && occupied'' == Cells(rooms'')
    ensures BranchProgress(rooms, occupied, current, draws, cfg.branchChance, t + 1, rooms'', occupied'', placed')
  {
    var c := rooms[current].grid;
    assert rooms'[current].grid == c;
    rooms'', occupied'' := BranchStep(rooms', occupied', current, Directions[t], draws[t] <= cfg.branchChance, prefab, cfg);
    placed' := if |rooms''| > |rooms'| then placed + [|rooms'|] else placed;
    BranchProgressStep(rooms, occupied, current, draws, cfg.branchChance, t, rooms', occupied', placed, rooms'', occupied'', placed');
  }

  /** The loop-level bookkeeping of `BranchTurn`, apart from the arena
      invariant: one more direction extends the progress by the cell that
      direction placed a room on, if any. */
  lemma BranchProgressStep(rooms: seq<Room>, occupied: set<Cell>, current: nat, draws: seq<real>, chance: real, t: nat,
                           r1: seq<Room>, o1: set<Cell>, p1: seq<nat>, r2: seq<Room>, o2: set<Cell>, p2: seq<nat>)
    requires current < |rooms| && |draws| == 4 && t < 4
    requires BranchProgress(rooms, occupied, current, draws, chance, t, r1, o1, p1)
    requires o2 == o1 + (if draws[t] <= chance then {Step(rooms[current].grid, Directions[t])} else {})
    requires |r2| == (if draws[t] <= chance && Step(rooms[current].grid, Directions[t]) !in o1 then |r1| + 1 else |r1|)
    requires |r2| > |r1| ==> r2[|r1|].grid == Step(rooms[current].grid, Directions[t])
    requires forall i :: 0 <= i < |r1| ==> r2[i].grid == r1[i].grid
    requires p2 == if |r2| > |r1| then p1 + [|r1|] else p1
    ensures BranchProgress(rooms, occupied, current, draws, chance, t + 1, r2, o2, p2)
  {
    var c := rooms[current].grid;
    if |r2| > |r1| {
      assert Layout(r2) == Layout(r1) + [Step(c, Directions[t])];
    } else {
      assert Layout(r2) == Layout(r1);
    }
  }

  /** One direction of the branching step: when the draw allows it and the
      neighbouring cell is free, a new room is placed there and linked. A
      drawn cell is occupied afterwards either way. */
  method BranchStep(rooms: seq<Room>, occupied: set<Cell>, current: nat, direction: Direction, drawn: bool, prefab: Prefab, cfg: Config)
    returns (rooms': seq<Room>, occupied': set<Cell>)
    requires ValidConfig(cfg) && GenInv(rooms) && occupied == Cells(rooms) && current < |rooms|
    ensures GenInv(rooms') && occupied' == Cells(rooms')
    ensures occupied' == occupied + (if drawn then {Step(rooms[current].grid, direction)} else {})
    ensures |rooms'| == (if drawn && Step(rooms[current].grid, direction) !in occupied then |rooms| + 1 else |rooms|)
    ensures |rooms'| > |rooms| ==> rooms'[|rooms|].grid == Step(rooms[current].grid, direction)
    ensures forall i :: 0 <= i < |rooms| ==> rooms'[i].grid == rooms[i].grid
  {
    if !drawn {
      return rooms, occupied;
    }
    NewGridPositionOfRoom(rooms[current].grid, direction, cfg.roomWidth, cfg.roomHeight);
    var newGridPos := NewGridPosition(WorldPosition(rooms[current].grid, cfg.roomWidth, cfg.roomHeight),
                                      direction, cfg.roomWidth, cfg.roomHeight);
    if newGridPos in occupied {
      assert occupied + {newGridPos} == occupied;
      return rooms, occupied;
    }
    rooms', occupied' := PlaceBranch(rooms, occupied, current, direction, prefab, cfg);
  }

  /** The placing half of `BranchStep`: the neighbouring cell is free, so a
      room is created there and linked back to room `current`. */
  method PlaceBranch(rooms: seq<Room>, occupied: set<Cell>, current: nat, direction: Direction, prefab: Prefab, cfg: Config)
    returns (rooms': seq<Room>, occupied': set<Cell>)
    requires ValidConfig(cfg) && GenInv(rooms) && occupied == Cells(rooms) && current < |rooms|
    requires Step(rooms[current].grid, direction) !in occupied
    ensures GenInv(rooms') && occupied' == Cells(rooms')
    ensures occupied' == occupied + {Step(rooms[current].grid, direction)}
    ensures |rooms'| == |rooms| + 1 && rooms'[|rooms|].grid == Step(rooms[current].grid, direction)
    ensures forall i :: 0 <= i < |rooms| ==> rooms'[i].grid == rooms[i].grid
  {
    AttachPreserves(rooms, current, direction, prefab, cfg);
    AttachKeepsCells(rooms, current, direction, prefab, cfg);
    rooms' := Attach(rooms, current, direction, prefab, cfg);
    occupied' := occupied + {Step(rooms[current].grid, direction)};
  }

  /** Attaching a room appends exactly one room and moves no other. */
  lemma AttachKeepsCells(rooms: seq<Room>, from: nat, d: Direction, prefab: Prefab, cfg: Config)
    requires ValidConfig(cfg) && from < |rooms|
    ensures |Attach(rooms, from, d, prefab, cfg)| == |rooms| + 1
    ensures forall i :: 0 <= i < |rooms| ==> Attach(rooms, from, d, prefab, cfg)[i].grid == rooms[i].grid
    ensures Attach(rooms, from, d, prefab, cfg)[|rooms|].grid == Step(rooms[from].grid, d)
  {
    var w, h := cfg.roomWidth, cfg.roomHeight;
    NewGridPositionOfRoom(rooms[from].grid, d, w, h);
    var cell := NewGridPosition(WorldPosition(rooms[from].grid, w, h), d, w, h);
    GridOfWorld(cell, w, h);
    var created := CreateRoom(prefab, |rooms|, WorldPosition(cell, w, h), cfg);
    var r1 := rooms + [created];
    assert SameLayout(r1, ConnectRooms(r1, from, |rooms|, d));
    assert forall i :: 0 <= i < |rooms| ==> r1[i] == rooms[i];
  }

  /** Room `j` was placed by the branching of one of the first `expanded`
      rooms dequeued, an earlier room, on one of the cells it offered. */
  predicate PlacedByBranching(rooms: seq<Room>, branchDraws: seq<real>, chance: real, expanded: nat, j: nat)
    requires j < |rooms| && 4 * expanded <= |branchDraws|
  {
    exists i :: 0 <= i < expanded && i < j && rooms[j].grid in Offered(rooms[i].grid, branchDraws, i, chance)
  }

  /** Every cell offered by the first `n` rooms dequeued. */
  function OfferedBy(rooms: seq<Room>, branchDraws: seq<real>, chance: real, n: nat): set<Cell>
    requires n <= |rooms| && 4 * n <= |branchDraws|
  {
    set i, x | 0 <= i < n && x in Offered(rooms[i].grid, branchDraws, i, chance) :: x
  }

  /** When every cell the dequeued rooms offered is occupied, and every other
      room stands on a cell offered before it, the arena occupies exactly
      the start cell and the offered cells. */
  lemma BreadthFirstCells(rooms: seq<Room>, branchDraws: seq<real>, chance: real, expanded: nat)
    requires 1 <= |rooms| && expanded <= |rooms| && 4 * expanded <= |branchDraws|
    requires forall i :: 0 <= i < expanded ==> Offered(rooms[i].grid, branchDraws, i, chance) <= Cells(rooms)
    requires forall j :: 1 <= j < |rooms| ==> PlacedByBranching(rooms, branchDraws, chance, expanded, j)
    ensures Cells(rooms) == {rooms[0].grid} + OfferedBy(rooms, branchDraws, chance, expanded)
  {
    forall x | x in Cells(rooms) ensures x in {rooms[0].grid} + OfferedBy(rooms, branchDraws, chance, expanded) {
      var j :| 0 <= j < |rooms| && rooms[j].grid == x;
      if j >= 1 {
        assert PlacedByBranching(rooms, branchDraws, chance, expanded, j);
        var i :| 0 <= i < expanded && i < j && x in Offered(rooms[i].grid, branchDraws, i, chance);
      }
    }
    forall x | x in OfferedBy(rooms, branchDraws, chance, expanded) ensures x in Cells(rooms) {
      var i :| 0 <= i < expanded && x in Offered(rooms[i].grid, branchDraws, i, chance);
    }
  }

  /** The breadth-first loop: dequeue at most `maxDepth` rooms, checking the
      room cap only at the loop head, so one iteration may overshoot it by up
      to three rooms. The queue always holds the rooms not yet dequeued, in
      arena order, so the `expanded` rooms dequeued are rooms `0` to
      `expanded - 1`. Each of them has all its offered cells occupied, and
      every other room was placed on a cell that an earlier dequeued room
      offered. The loop stops when every room has been dequeued, when the
      room cap is reached, or after `maxDepth` rooms. */
  method ExpandBreadthFirst(start: seq<Room>, prefab: Prefab, cfg: Config, branchDraws: seq<real>)
    returns (rooms: seq<Room>, occupied: set<Cell>, expanded: nat)
    requires ValidConfig(cfg) && GenInv(start) && |start| == 1
    requires |branchDraws| >= 4 * cfg.maxDepth
    ensures GenInv(rooms) && occupied == Cells(rooms)
    ensures rooms[0].grid == start[0].grid
    ensures |rooms| <= Mathf.Max(1, cfg.maxRooms + 3)
    ensures expanded <= |rooms| && expanded <= Mathf.Max(cfg.maxDepth, 0) && 4 * expanded <= |branchDraws|
    ensures expanded == |rooms| || |rooms| >= cfg.maxRooms || expanded >= cfg.maxDepth
    ensures expanded == 0 ==> |rooms| == 1
    ensures forall i :: 0 <= i < expanded ==> Offered(rooms[i].grid, branchDraws, i, cfg.branchChance) <= occupied
    ensures forall j :: 1 <= j < |rooms| ==> PlacedByBranching(rooms, branchDraws, cfg.branchChance, expanded, j)
    ensures occupied == {Origin} + OfferedBy(rooms, branchDraws, cfg.branchChance, expanded)
    ensures Layout(rooms) == Breadth(Layout(start), 0, branchDraws, cfg.branchChance, cfg.maxRooms, cfg.maxDepth)
  {
    assert start[0].grid == Origin;
    BreadthStart(start, branchDraws, cfg);
    var queue;
    rooms, occupied, queue, expanded := BreadthLoop(start, prefab, cfg, branchDraws, start, {Origin}, [0], 0);
    BreadthDone(start, branchDraws, cfg, rooms, occupied, queue, expanded);
  }

  /** The loop of the breadth-first phase from the state `rooms`, `occupied`,
      `queue`, `expanded`, run until the queue is empty, the cap is reached or
      `maxDepth` rooms were dequeued. */
  method BreadthLoop(start: seq<Room>, prefab: Prefab, cfg: Config, branchDraws: seq<real>,
                     rooms: seq<Room>, occupied: set<Cell>, queue: seq<nat>, expanded: nat)
    returns (rooms': seq<Room>, occupied': set<Cell>, queue': seq<nat>, expanded': nat)
    requires ValidConfig(cfg) && |start| == 1 && |branchDraws| >= 4 * cfg.maxDepth
    requires GenInv(rooms) && occupied == Cells(rooms)
    requires BreadthProgress(start, branchDraws, cfg, rooms, occupied, queue, expanded)
    ensures GenInv(rooms') && occupied' == Cells(rooms')
    ensures BreadthProgress(start, branchDraws, cfg, rooms', occupied', queue', expanded')
    ensures !(|queue'| > 0 && |rooms'| < cfg.maxRooms && expanded' < cfg.maxDepth)
    decreases cfg.maxDepth - expanded
  {
    if |queue| > 0 && |rooms| < cfg.maxRooms && expanded < cfg.maxDepth {
      var r, o, q := BreadthTurn(start, prefab, cfg, branchDraws, rooms, occupied, queue, expanded);
      rooms', occupied', queue', expanded' := BreadthLoop(start, prefab, cfg, branchDraws, r, o, q, expanded + 1);
    } else {
      rooms', occupied', queue', expanded' := rooms, occupied, queue, expanded;
    }
  }

  /** One iteration of the breadth-first loop: room `expanded`, at the head
      of the queue, is dequeued and branches out, and the rooms it placed are
      enqueued in order. */
  method BreadthTurn(start: seq<Room>, prefab: Prefab, cfg: Config, branchDraws: seq<real>,
                     rooms: seq<Room>, occupied: set<Cell>, queue: seq<nat>, expanded: nat)
    returns (rooms': seq<Room>, occupied': set<Cell>, queue': seq<nat>)
    requires ValidConfig(cfg) && |start| == 1 && |branchDraws| >= 4 * cfg.maxDepth
    requires GenInv(rooms) && occupied == Cells(rooms)
    requires BreadthProgress(start, branchDraws, cfg, rooms, occupied, queue, expanded)
    requires |queue| > 0 && |rooms| < cfg.maxRooms && expanded < cfg.maxDepth
    ensures GenInv(rooms') && occupied' == Cells(rooms')
    ensures BreadthProgress(start, branchDraws, cfg, rooms', occupied', queue', expanded + 1)
  {
    var placed;
    rooms', occupied', placed := BranchOut(rooms, occupied, expanded, branchDraws[4 * expanded .. 4 * expanded + 4], prefab, cfg);
    BreadthProgressStep(start, branchDraws, cfg, rooms, occupied, queue, expanded, rooms', occupied', placed);
    queue' := queue[1..] + placed;
  }

  /** The breadth-first loop starts from the lone start room, queued and not
      yet dequeued. */
  lemma BreadthStart(start: seq<Room>, branchDraws: seq<real>, cfg: Config)
    requires |start| == 1 && |branchDraws| >= 4 * cfg.maxDepth && start[0].grid == Origin
    ensures Cells(start) == {Origin}
    ensures BreadthProgress(start, branchDraws, cfg, start, {Origin}, [0], 0)
  {
    assert start[0].grid in Cells(start);
  }

  /** When the breadth-first loop stops, its progress gives the phase's
      result: the occupied cells are the origin plus the offered ones, and the
      layout is the `Breadth` of the start room. */
  lemma BreadthDone(start: seq<Room>, branchDraws: seq<real>, cfg: Config,
                    rooms: seq<Room>, occupied: set<Cell>, queue: seq<nat>, expanded: nat)
    requires |start| == 1 && |branchDraws| >= 4 * cfg.maxDepth && start[0].grid == Origin
    requires BreadthProgress(start, branchDraws, cfg, rooms, occupied, queue, expanded)
    requires !(|queue| > 0 && |rooms| < cfg.maxRooms && expanded < cfg.maxDepth)
    requires occupied == Cells(rooms)
    ensures rooms[0].grid == start[0].grid
    ensures |rooms| <= Mathf.Max(1, cfg.maxRooms + 3)
    ensures expanded <= |rooms| && expanded <= Mathf.Max(cfg.maxDepth, 0) && 4 * expanded <= |branchDraws|
    ensures expanded == |rooms| || |rooms| >= cfg.maxRooms || expanded >= cfg.maxDepth
    ensures expanded == 0 ==> |rooms| == 1
    ensures forall i :: 0 <= i < expanded ==> Offered(rooms[i].grid, branchDraws, i, cfg.branchChance) <= occupied
    ensures forall j :: 1 <= j < |rooms| ==> PlacedByBranching(rooms, branchDraws, cfg.branchChance, expanded, j)
    ensures occupied == {Origin} + OfferedBy(rooms, branchDraws, cfg.branchChance, expanded)
    ensures Layout(rooms) == Breadth(Layout(start), 0, branchDraws, cfg.branchChance, cfg.maxRooms, cfg.maxDepth)
  {
    BreadthFirstCells(rooms, branchDraws, cfg.branchChance, expanded);
    assert Breadth(Layout(rooms), expanded, branchDraws, cfg.branchChance, cfg.maxRooms, cfg.maxDepth) == Layout(rooms);
  }

  /** What the breadth-first loop has established after dequeuing `expanded`
      rooms: the queue holds exactly the rooms not yet dequeued, in order;
      every dequeued room's offered cells are occupied; every other room
      stands on a cell an earlier dequeued room offered; and the cells so far
      lead to the same `Breadth` result as the start room alone. */
  ghost predicate BreadthProgress(start: seq<Room>, branchDraws: seq<real>, cfg: Config,
                                  rooms: seq<Room>, occupied: set<Cell>, queue: seq<nat>, expanded: nat)
    requires |start| == 1 && |branchDraws| >= 4 * cfg.maxDepth
  {
    && 1 <= |rooms| && rooms[0].grid == start[0].grid
    && expanded <= |rooms| && |queue| == |rooms| - expanded
    && (forall k :: 0 <= k < |queue| ==> queue[k] == expanded + k)
    && expanded <= Mathf.Max(cfg.maxDepth, 0) && 4 * expanded <= |branchDraws|
    && |rooms| <= Mathf.Max(1, cfg.maxRooms + 3)
    && (expanded == 0 ==> |rooms| == 1)
    && (forall i :: 0 <= i < expanded ==> Offered(rooms[i].grid, branchDraws, i, cfg.branchChance) <= occupied)
    && (forall j :: 1 <= j < |rooms| ==> PlacedByBranching(rooms, branchDraws, cfg.branchChance, expanded, j))
    && Breadth(Layout(rooms), expanded, branchDraws, cfg.branchChance, cfg.maxRooms, cfg.maxDepth)
       == Breadth(Layout(start), 0, branchDraws, cfg.branchChance, cfg.maxRooms, cfg.maxDepth)
  }

  /** The bookkeeping of one breadth-first iteration, apart from the arena
      invariant: dequeuing room `expanded` and branching out from it, as
      `BranchOut` states, extends the progress by one room. */
  lemma BreadthProgressStep(start: seq<Room>, branchDraws: seq<real>, cfg: Config,
                            before: seq<Room>, occupiedBefore: set<Cell>, queue: seq<nat>, expanded: nat,
                            rooms: seq<Room>, occupied: set<Cell>, placed: seq<nat>)
    requires |start| == 1 && |branchDraws| >= 4 * cfg.maxDepth
    requires BreadthProgress(start, branchDraws, cfg, before, occupiedBefore, queue, expanded)
    requires |queue| > 0 && |before| < cfg.maxRooms && expanded < cfg.maxDepth
    requires occupiedBefore == Cells(before)
    requires occupied == occupiedBefore + DrawnCells(before[expanded].grid, branchDraws[4 * expanded .. 4 * expanded + 4], cfg.branchChance, 4)
    requires forall j :: |before| <= j < |rooms| ==>
      rooms[j].grid in DrawnCells(before[expanded].grid, branchDraws[4 * expanded .. 4 * expanded + 4], cfg.branchChance, 4)
    requires Layout(rooms) == Layout(before) + BranchCells(before[expanded].grid, branchDraws[4 * expanded .. 4 * expanded + 4], cfg.branchChance, 4, occupiedBefore)
    requires |before| <= |rooms| <= |before| + 4
    requires |placed| == |rooms| - |before| && forall k :: 0 <= k < |placed| ==> placed[k] == |before| + k
    requires forall i :: 0 <= i < |before| ==> rooms[i].grid == before[i].grid
    ensures BreadthProgress(start, branchDraws, cfg, rooms, occupied, queue[1..] + placed, expanded + 1)
  {
    var next := expanded + 1;
    var offered := DrawnCells(before[expanded].grid, branchDraws[4 * expanded .. 4 * expanded + 4], cfg.branchChance, 4);
    assert Offered(before[expanded].grid, branchDraws, expanded, cfg.branchChance) == offered;
    OfferedStaysOccupied(before, occupiedBefore, rooms, occupied, expanded, branchDraws, cfg.branchChance);
    PlacedStaysPlaced(before, rooms, expanded, next, branchDraws, cfg.branchChance);
    BreadthAdvance(before, rooms, expanded, branchDraws, cfg.branchChance, cfg.maxRooms, cfg.maxDepth);
    var queue' := queue[1..] + placed;
    assert forall k :: 0 <= k < |queue'| ==> queue'[k] == next + k;
  }

  /** After room `e` branches out, every room dequeued so far has its offered
      cells occupied. */
  lemma OfferedStaysOccupied(before: seq<Room>, occupiedBefore: set<Cell>, rooms: seq<Room>, occupied: set<Cell>,
                             e: nat, branchDraws: seq<real>, chance: real)
    requires e < |before| <= |rooms| && 4 * e + 4 <= |branchDraws|
    requires forall i :: 0 <= i < e ==> Offered(before[i].grid, branchDraws, i, chance) <= occupiedBefore
    requires occupied == occupiedBefore + Offered(before[e].grid, branchDraws, e, chance)
    requires forall i :: 0 <= i < |before| ==> rooms[i].grid == before[i].grid
    ensures forall i :: 0 <= i < e + 1 ==> Offered(rooms[i].grid, branchDraws, i, chance) <= occupied
  {
    forall i | 0 <= i < e + 1
      ensures Offered(rooms[i].grid, branchDraws, i, chance) <= occupied
    {
      assert rooms[i].grid == before[i].grid;
    }
  }

  /** After room `e` branches out, every room but the first still stands on
      a cell an earlier dequeued room offered. */
  lemma PlacedStaysPlaced(before: seq<Room>, rooms: seq<Room>, e: nat, next: nat, branchDraws: seq<real>, chance: real)
    requires e < |before| <= |rooms| && 4 * e + 4 <= |branchDraws| && next == e + 1
    requires forall j :: 1 <= j < |before| ==> PlacedByBranching(before, branchDraws, chance, e, j)
    requires forall j :: |before| <= j < |rooms| ==> rooms[j].grid in Offered(before[e].grid, branchDraws, e, chance)
    requires forall i :: 0 <= i < |before| ==> rooms[i].grid == before[i].grid
    ensures forall j :: 1 <= j < |rooms| ==> PlacedByBranching(rooms, branchDraws, chance, next, j)
  {
    forall j | 1 <= j < |rooms|
      ensures PlacedByBranching(rooms, branchDraws, chance, next, j)
    {
      if j < |before| {
        assert PlacedByBranching(before, branchDraws, chance, e, j);
        var i :| 0 <= i < e && i < j && before[j].grid in Offered(before[i].grid, branchDraws, i, chance);
        assert rooms[i].grid == before[i].grid && rooms[j].grid == before[j].grid;
      } else {
        assert rooms[e].grid == before[e].grid;
      }
    }
  }

  /** The cells of an arena, in room order. */
  function Layout(rooms: seq<Room>): (g: seq<Cell>)
    ensures |g| == |rooms| && forall i :: 0 <= i < |rooms| ==> g[i] == rooms[i].grid
  {
    seq(|rooms|, i requires 0 <= i < |rooms| => rooms[i].grid)
  }

  /** The set of cells in a layout. */
  function CellSet(g: seq<Cell>): set<Cell>
  {
    set i | 0 <= i < |g| :: g[i]
  }

  /** The breadth-first phase on the cells alone, in room order: from layout
      `g` whose first `e` cells were already dequeued, while some cell waits,
      the cap is not reached and fewer than `maxDepth` cells were dequeued,
      cell `e` reads draws `4 * e` to `4 * e + 3` and the cells it branches to
      are appended in direction order. */
  function Breadth(g: seq<Cell>, e: nat, branchDraws: seq<real>, chance: real, maxRooms: int, maxDepth: int): (r: seq<Cell>)
    requires e <= |g| && 4 * maxDepth <= |branchDraws|
    ensures g <= r
    decreases maxDepth - e
  {
    if e < |g| && |g| < maxRooms && e < maxDepth then
      Breadth(g + BranchCells(g[e], branchDraws[4 * e .. 4 * e + 4], chance, 4, CellSet(g)), e + 1, branchDraws, chance, maxRooms, maxDepth)
    else g
  }

  /** One dequeued room of the breadth-first loop advances `Breadth` by one
      cell without changing where it ends. */
  lemma BreadthAdvance(before: seq<Room>, rooms: seq<Room>, e: nat, branchDraws: seq<real>, chance: real, maxRooms: int, maxDepth: int)
    requires e < |before| && |before| < maxRooms && e < maxDepth && 4 * maxDepth <= |branchDraws|
    requires Layout(rooms) == Layout(before) + BranchCells(before[e].grid, branchDraws[4 * e .. 4 * e + 4], chance, 4, Cells(before))
    ensures Breadth(Layout(rooms), e + 1, branchDraws, chance, maxRooms, maxDepth)
         == Breadth(Layout(before), e, branchDraws, chance, maxRooms, maxDepth)
  {
    assert CellSet(Layout(before)) == Cells(before);
    assert Layout(before)[e] == before[e].grid;
  }

  /** The cells of the breadth-first phase of `GenerateRooms`, in room order,
      from the start room at the origin. */
  function BreadthLayout(cfg: Config, branchDraws: seq<real>): seq<Cell>
    requires |branchDraws| >= 4 * cfg.maxDepth
  {
    Breadth([Origin], 0, branchDraws, cfg.branchChance, cfg.maxRooms, cfg.maxDepth)
  }

  /** With every branch drawn and a depth of two, the start room places its
      neighbours north, east, south and west in that order, and the first of
      them, north, then places its own free neighbours in the same order. */
  lemma BreadthOrderExample()
    ensures BreadthLayout(Config(1, 20, 1, 1, 1.0, 2), seq(8, _ => 0.0))
         == [Cell(0, 0), Cell(0, 1), Cell(1, 0), Cell(0, -1), Cell(-1, 0), Cell(0, 2), Cell(1, 1), Cell(-1, 1)]
  {
    var draws: seq<real> := seq(8, _ => 0.0);
    assert draws[0..4] == [0.0, 0.0, 0.0, 0.0] && draws[4..8] == [0.0, 0.0, 0.0, 0.0];
    var g0 := [Origin];
    assert g0[0] in CellSet(g0);
    assert CellSet(g0) == {Origin};
    var b0 := StartBranchExample();
    assert BranchCells(g0[0], draws[0..4], 1.0, 4, CellSet(g0)) == b0;
    var g1 := g0 + b0;
    assert g1 == [Cell(0, 0), Cell(0, 1), Cell(1, 0), Cell(0, -1), Cell(-1, 0)];
    var b1 := SecondBranchExample(g1);
    assert BranchCells(g1[1], draws[4..8], 1.0, 4, CellSet(g1)) == b1;
    assert Breadth(g0, 0, draws, 1.0, 20, 2) == Breadth(g1, 1, draws, 1.0, 20, 2);
    assert Breadth(g1, 1, draws, 1.0, 20, 2) == Breadth(g1 + b1, 2, draws, 1.0, 20, 2);
  }

  /** The start room of `BreadthOrderExample` branches to all four sides. */
  lemma StartBranchExample() returns (b: seq<Cell>)
    ensures b == [Cell(0, 1), Cell(1, 0), Cell(0, -1), Cell(-1, 0)]
    ensures BranchCells(Origin, [0.0, 0.0, 0.0, 0.0], 1.0, 4, {Origin}) == b
  {
    var d: seq<real> := [0.0, 0.0, 0.0, 0.0];
    assert DrawnCells(Origin, d, 1.0, 1) == {Cell(0, 1)};
    assert DrawnCells(Origin, d, 1.0, 2) == {Cell(0, 1), Cell(1, 0)};
    assert DrawnCells(Origin, d, 1.0, 3) == {Cell(0, 1), Cell(1, 0), Cell(0, -1)};
    assert BranchCells(Origin, d, 1.0, 1, {Origin}) == [Cell(0, 1)];
    assert BranchCells(Origin, d, 1.0, 2, {Origin}) == [Cell(0, 1), Cell(1, 0)];
    assert BranchCells(Origin, d, 1.0, 3, {Origin}) == [Cell(0, 1), Cell(1, 0), Cell(0, -1)];
    b := [Cell(0, 1), Cell(1, 0), Cell(0, -1), Cell(-1, 0)];
  }

  /** The north room of `BreadthOrderExample` branches to every side but the
      start room's. */
  lemma SecondBranchExample(g: seq<Cell>) returns (b: seq<Cell>)
    requires g == [Cell(0, 0), Cell(0, 1), Cell(1, 0), Cell(0, -1), Cell(-1, 0)]
    ensures b == [Cell(0, 2), Cell(1, 1), Cell(-1, 1)]
    ensures BranchCells(g[1], [0.0, 0.0, 0.0, 0.0], 1.0, 4, CellSet(g)) == b
  {
    var d: seq<real> := [0.0, 0.0, 0.0, 0.0];
    var c := Cell(0, 1);
    assert g[0] in CellSet(g) && g[1] in CellSet(g) && g[2] in CellSet(g) && g[3] in CellSet(g) && g[4] in CellSet(g);
    assert CellSet(g) == {Cell(0, 0), Cell(0, 1), Cell(1, 0), Cell(0, -1), Cell(-1, 0)};
    assert DrawnCells(c, d, 1.0, 1) == {Cell(0, 2)};
    assert DrawnCells(c, d, 1.0, 2) == {Cell(0, 2), Cell(1, 1)};
    assert DrawnCells(c, d, 1.0, 3) == {Cell(0, 2), Cell(1, 1), Cell(0, 0)};
    assert BranchCells(c, d, 1.0, 1, CellSet(g)) == [Cell(0, 2)];
    assert BranchCells(c, d, 1.0, 2, CellSet(g)) == [Cell(0, 2), Cell(1, 1)];
    assert BranchCells(c, d, 1.0, 3, CellSet(g)) == [Cell(0, 2), Cell(1, 1)];
    b := [Cell(0, 2), Cell(1, 1), Cell(-1, 1)];
  }


  /** One fill pass on the cells alone: the picked cell gains its first free
      neighbour, if it has one. */
  function FillPick(g: seq<Cell>, pick: nat): seq<Cell>
    requires |g| >= 1
  {
    var c := g[pick % |g|];
    match FirstFreeDirection(c, CellSet(g))
    case None => g
    case Some(d) => g + [Step(c, d)]
  }

  /** The fill loop on the cells alone, pick by pick, stopping once there
      are `required` cells: a reference for `FillToMinimum` that knows
      nothing of rooms, doors or links. */
  function FillCells(g: seq<Cell>, picks: seq<nat>, required: int): (r: seq<Cell>)
    requires |g| >= 1
    ensures |g| <= |r|
    decreases |picks|
  {
    if |picks| == 0 then g
    else
      var h := FillCells(g, picks[..|picks| - 1], required);
      if |h| < required then FillPick(h, picks[|picks| - 1]) else h
  }

  /** Once the fill has reached `required` cells, the remaining picks change
      nothing. */
  lemma {:induction false} FillCellsSettles(g: seq<Cell>, picks: seq<nat>, required: int, u: nat)
    requires |g| >= 1 && u <= |picks| && |FillCells(g, picks[..u], required)| >= required
    ensures FillCells(g, picks, required) == FillCells(g, picks[..u], required)
    decreases |picks|
  {
    if u < |picks| {
      var p := picks[..|picks| - 1];
      assert p[..u] == picks[..u];
      FillCellsSettles(g, p, required, u);
    } else {
      assert picks[..u] == picks;
    }
  }

  /** The reference fill only appends, at most one cell per pick, and never
      past `required` cells unless it started there. */
  lemma {:induction false} FillCellsShape(g: seq<Cell>, picks: seq<nat>, required: int)
    requires |g| >= 1
    ensures var r := FillCells(g, picks, required);
      && |r| <= Mathf.Max(|g|, required) && |r| - |g| <= |picks|
      && r[..|g|] == g
      && (|g| >= required ==> r == g)
    decreases |picks|
  {
    if |picks| > 0 {
      var p := picks[..|picks| - 1];
      FillCellsShape(g, p, required);
      var h := FillCells(g, p, required);
      if |h| < required {
        assert FillPick(h, picks[|picks| - 1])[..|h|] == h;
      }
    }
  }

  /** One pass of the minimum-room loop: the pick chooses a room (the oracle
      value reduced into range), which gains a room on its first free side
      if it has one; a room with no free side gains nothing. */
  method FillStep(rooms: seq<Room>, occupied: set<Cell>, pick: nat, prefab: Prefab, cfg: Config)
    returns (rooms': seq<Room>, occupied': set<Cell>)
    requires ValidConfig(cfg) && GenInv(rooms) && occupied == Cells(rooms)
    ensures GenInv(rooms') && occupied' == Cells(rooms')
    ensures var c := rooms[pick % |rooms|].grid;
      match FirstFreeDirection(c, occupied)
      case None => rooms' == rooms && occupied' == occupied
      case Some(d) =>
        && |rooms'| == |rooms| + 1 && rooms'[|rooms|].grid == Step(c, d)
        && occupied' == occupied + {Step(c, d)}
    ensures |rooms| <= |rooms'| <= |rooms| + 1
    ensures forall i :: 0 <= i < |rooms| ==> rooms'[i].grid == rooms[i].grid
    ensures Layout(rooms') == FillPick(Layout(rooms), pick)
  {
    rooms', occupied' := rooms, occupied;
    assert CellSet(Layout(rooms)) == occupied;
    var randomRoom := pick % |rooms|;
    var cell := rooms[randomRoom].grid;
    var dir := FirstFreeDirection(cell, occupied);
    if dir.Some? {
      AttachPreserves(rooms, randomRoom, dir.value, prefab, cfg);
      AttachKeepsCells(rooms, randomRoom, dir.value, prefab, cfg);
      NewGridPositionOfRoom(cell, dir.value, cfg.roomWidth, cfg.roomHeight);
      rooms' := Attach(rooms, randomRoom, dir.value, prefab, cfg);
      occupied' := occupied + {Step(cell, dir.value)};
      assert Layout(rooms') == Layout(rooms) + [Step(cell, dir.value)];
    }
  }

  /** The minimum-room loop itself: one `FillStep` per pick, until there are
      `required` rooms or the picks run out. Its layout is the reference
      fill over the picks consumed, and it consumes a pick only while it is
      below `required`. */
  method FillLoop(start: seq<Room>, occupiedIn: set<Cell>, prefab: Prefab, cfg: Config, picks: seq<nat>, required: int)
    returns (rooms: seq<Room>, used: nat)
    requires ValidConfig(cfg) && GenInv(start) && occupiedIn == Cells(start)
    ensures GenInv(rooms) && used <= |picks|
    ensures |start| >= required ==> rooms == start && used == 0
    ensures Layout(rooms) == FillCells(Layout(start), picks[..used], required)
    ensures used < |picks| ==> |rooms| >= required
    ensures used > 0 ==> |FillCells(Layout(start), picks[..used - 1], required)| < required
  {
    rooms := start;
    var occupied := occupiedIn;
    used := 0;
    while |rooms| < required && used < |picks|
      invariant GenInv(rooms) && occupied == Cells(rooms)
      invariant 0 <= used <= |picks|
      invariant |start| >= required ==> rooms == start && used == 0
      invariant Layout(rooms) == FillCells(Layout(start), picks[..used], required)
      invariant used > 0 ==> |FillCells(Layout(start), picks[..used - 1], required)| < required
      decreases |picks| - used
    {
      assert picks[..used + 1][..used] == picks[..used];
      rooms, occupied := FillStep(rooms, occupied, picks[used], prefab, cfg);
      used := used + 1;
    }
  }

  /** The minimum-room loop of `GenerateRooms`, with `required` being
      `max(minRooms, 1)`. `used` is the number of picks consumed; the loop
      falls short of the minimum only when it has consumed every pick. */
  method FillToMinimum(start: seq<Room>, occupiedIn: set<Cell>, prefab: Prefab, cfg: Config, picks: seq<nat>)
    returns (rooms: seq<Room>, used: nat)
    requires ValidConfig(cfg) && GenInv(start) && occupiedIn == Cells(start)
    ensures GenInv(rooms)
    ensures |start| <= |rooms| <= Mathf.Max(|start|, Mathf.Max(cfg.minRooms, 1))
    ensures used <= |picks| && |rooms| - |start| <= used
    ensures |rooms| < Mathf.Max(cfg.minRooms, 1) ==> used == |picks|
    ensures |start| >= Mathf.Max(cfg.minRooms, 1) ==> rooms == start && used == 0
    ensures forall i :: 0 <= i < |start| ==> rooms[i].grid == start[i].grid
    ensures Cells(start) <= Cells(rooms)
    ensures Layout(rooms) == FillCells(Layout(start), picks, Mathf.Max(cfg.minRooms, 1))
    ensures Layout(rooms) == FillCells(Layout(start), picks[..used], Mathf.Max(cfg.minRooms, 1))
    ensures used < |picks| ==> |rooms| >= Mathf.Max(cfg.minRooms, 1)
    ensures used > 0 ==> |FillCells(Layout(start), picks[..used - 1], Mathf.Max(cfg.minRooms, 1))| < Mathf.Max(cfg.minRooms, 1)
  {
    var required := Mathf.Max(cfg.minRooms, 1);
    rooms, used := FillLoop(start, occupiedIn, prefab, cfg, picks, required);
    if used < |picks| {
      FillCellsSettles(Layout(start), picks, required, used);
    } else {
      assert picks[..used] == picks;
    }
    FillCellsShape(Layout(start), picks[..used], required);
    assert forall i :: 0 <= i < |start| ==> rooms[i].grid == Layout(rooms)[i] == start[i].grid;
  }

  /** Arenas whose rooms sit on the same cells, index by index, have the
      same layout. */
  lemma SameGridsLayout(a: seq<Room>, b: seq<Room>)
    requires |a| == |b| && forall i :: 0 <= i < |a| ==> a[i].grid == b[i].grid
    ensures Layout(a) == Layout(b)
  {
  }

  /** The cells offered by the first `n` rooms depend only on where those
      rooms stand. */
  lemma OfferedBySameGrids(a: seq<Room>, b: seq<Room>, branchDraws: seq<real>, chance: real, n: nat)
    requires n <= |a| && n <= |b| && 4 * n <= |branchDraws|
    requires forall i :: 0 <= i < n ==> a[i].grid == b[i].grid
    ensures OfferedBy(a, branchDraws, chance, n) == OfferedBy(b, branchDraws, chance, n)
  {
    forall x | x in OfferedBy(a, branchDraws, chance, n) ensures x in OfferedBy(b, branchDraws, chance, n) {
      var i :| 0 <= i < n && x in Offered(a[i].grid, branchDraws, i, chance);
      assert x in Offered(b[i].grid, branchDraws, i, chance);
    }
    forall x | x in OfferedBy(b, branchDraws, chance, n) ensures x in OfferedBy(a, branchDraws, chance, n) {
      var i :| 0 <= i < n && x in Offered(b[i].grid, branchDraws, i, chance);
      assert x in Offered(a[i].grid, branchDraws, i, chance);
    }
  }

  /** The breadth-first phase of `GenerateRooms`: the start room at the
      origin, then the loop over `branchDraws`. */
  method ExpandFromOrigin(cfg: Config, prefab: Prefab, branchDraws: seq<real>)
    returns (rooms: seq<Room>, occupied: set<Cell>, expanded: nat)
    requires ValidConfig(cfg)
    requires |branchDraws| >= 4 * cfg.maxDepth
    ensures GenInv(rooms) && occupied == Cells(rooms) && rooms[0].grid == Origin
    ensures |rooms| <= Mathf.Max(1, cfg.maxRooms + 3)
    ensures expanded <= |rooms| && expanded <= Mathf.Max(cfg.maxDepth, 0) && 4 * expanded <= |branchDraws|
    ensures expanded == |rooms| || |rooms| >= cfg.maxRooms || expanded >= cfg.maxDepth
    ensures expanded == 0 ==> |rooms| == 1
    ensures occupied == {Origin} + OfferedBy(rooms, branchDraws, cfg.branchChance, expanded)
    ensures Layout(rooms) == BreadthLayout(cfg, branchDraws)
  {
    var startRoom := CreateRoom(prefab, 0, WorldPosition(Origin, cfg.roomWidth, cfg.roomHeight), cfg);
    GridOfWorld(Origin, cfg.roomWidth, cfg.roomHeight);
    var start := [startRoom.(isStart := true)];
    assert GenInv(start) by {
      assert forall k :: 0 <= k < |start[0].doors| ==> DoorPaired(start, 0, k);
    }
    assert Layout(start) == [Origin];
    rooms, occupied, expanded := ExpandBreadthFirst(start, prefab, cfg, branchDraws);
  }

  /** The two growth phases of `GenerateRooms`: the start room at the
      origin, the breadth-first loop over `branchDraws`, then the fill loop
      over `picks`. The first `bfsCount` rooms are those of the breadth-first
      loop, which dequeued `expanded` of them; the fill loop consumed
      `picksUsed` picks. */
  method GrowArena(cfg: Config, prefab: Prefab, branchDraws: seq<real>, picks: seq<nat>)
    returns (rooms: seq<Room>, expanded: nat, bfsCount: nat, picksUsed: nat)
    requires ValidConfig(cfg)
    requires |branchDraws| >= 4 * cfg.maxDepth
    ensures GenInv(rooms)
    ensures |rooms| <= Mathf.Max(Mathf.Max(1, cfg.maxRooms + 3), Mathf.Max(cfg.minRooms, 1))
    ensures 1 <= bfsCount <= |rooms| && expanded <= bfsCount && expanded <= Mathf.Max(cfg.maxDepth, 0)
    ensures 4 * expanded <= |branchDraws|
    ensures expanded == bfsCount || bfsCount >= cfg.maxRooms || expanded >= cfg.maxDepth
    ensures expanded == 0 ==> bfsCount == 1
    ensures Cells(rooms[..bfsCount]) == {Origin} + OfferedBy(rooms, branchDraws, cfg.branchChance, expanded)
    ensures Layout(rooms)[..bfsCount] == BreadthLayout(cfg, branchDraws)
    ensures Layout(rooms) == FillCells(BreadthLayout(cfg, branchDraws), picks, Mathf.Max(cfg.minRooms, 1))
    ensures picksUsed <= |picks|
    ensures Layout(rooms) == FillCells(Layout(rooms)[..bfsCount], picks, Mathf.Max(cfg.minRooms, 1))
    ensures Layout(rooms) == FillCells(Layout(rooms)[..bfsCount], picks[..picksUsed], Mathf.Max(cfg.minRooms, 1))
    ensures picksUsed < |picks| ==> |rooms| >= Mathf.Max(cfg.minRooms, 1)
    ensures |rooms| < Mathf.Max(cfg.minRooms, 1) ==> picksUsed == |picks|
    ensures picksUsed > 0 ==>
      |FillCells(Layout(rooms)[..bfsCount], picks[..picksUsed - 1], Mathf.Max(cfg.minRooms, 1))| < Mathf.Max(cfg.minRooms, 1)
  {
    var bfs, occupied;
    bfs, occupied, expanded := ExpandFromOrigin(cfg, prefab, branchDraws);
    rooms, picksUsed := FillToMinimum(bfs, occupied, prefab, cfg, picks);
    bfsCount := |bfs|;
    assert Layout(rooms)[..bfsCount] == Layout(bfs);
    SameGridsCells(rooms[..bfsCount], bfs);
    OfferedBySameGrids(rooms, bfs, branchDraws, cfg.branchChance, expanded);
  }

  /** `GenerateRooms`. `branchDraws` supplies the `Random.value` draws of the
      breadth-first loop (four per dequeued room; a branch is taken when the
      draw is at most `branchChance`), and `picks` the `Random.Range` draws of
      the fill loop. `expanded` is the number of rooms the breadth-first loop
      dequeued (rooms `0` to `expanded - 1`), `bfsCount` the number of rooms
      it left, `picksUsed` the number of picks the fill loop consumed, and
      `reachedMinimum` whether it got to `max(minRooms, 1)` rooms. */
  method GenerateRooms(cfg: Config, prefab: Prefab, branchDraws: seq<real>, picks: seq<nat>)
    returns (rooms: seq<Room>, boss: Option<nat>, reachedMinimum: bool, expanded: nat, bfsCount: nat, picksUsed: nat)
    requires ValidConfig(cfg)
    requires |branchDraws| >= 4 * cfg.maxDepth
    ensures |rooms| >= 1 && rooms[0].grid == Origin && rooms[0].isStart
    ensures forall i :: 1 <= i < |rooms| ==> !rooms[i].isStart
    ensures Structure(rooms) && Settled(rooms) && Fresh(rooms)
    ensures reachedMinimum <==> |rooms| >= Mathf.Max(cfg.minRooms, 1)
    ensures picksUsed <= |picks| && (!reachedMinimum ==> picksUsed == |picks|)
    ensures |rooms| <= Mathf.Max(Mathf.Max(1, cfg.maxRooms + 3), Mathf.Max(cfg.minRooms, 1))
    ensures expanded <= |rooms| && 4 * expanded <= |branchDraws|
    ensures cfg.maxDepth >= 1 && cfg.maxRooms > 1 ==> expanded >= 1
    ensures forall i :: 0 <= i < expanded ==> Offered(rooms[i].grid, branchDraws, i, cfg.branchChance) <= Cells(rooms)
    ensures 1 <= bfsCount <= |rooms| && expanded <= bfsCount && expanded <= Mathf.Max(cfg.maxDepth, 0)
    ensures expanded == bfsCount || bfsCount >= cfg.maxRooms || expanded >= cfg.maxDepth
    ensures Cells(rooms[..bfsCount]) == {Origin} + OfferedBy(rooms, branchDraws, cfg.branchChance, expanded)
    ensures Layout(rooms)[..bfsCount] == BreadthLayout(cfg, branchDraws)
    ensures Layout(rooms) == FillCells(BreadthLayout(cfg, branchDraws), picks, Mathf.Max(cfg.minRooms, 1))
    ensures Layout(rooms) == FillCells(Layout(rooms)[..bfsCount], picks, Mathf.Max(cfg.minRooms, 1))
    ensures Layout(rooms) == FillCells(Layout(rooms)[..bfsCount], picks[..picksUsed], Mathf.Max(cfg.minRooms, 1))
    ensures picksUsed < |picks| ==> reachedMinimum
    ensures picksUsed > 0 ==>
      |FillCells(Layout(rooms)[..bfsCount], picks[..picksUsed - 1], Mathf.Max(cfg.minRooms, 1))| < Mathf.Max(cfg.minRooms, 1)
    ensures boss.Some? <==> |rooms| > 1
    ensures forall i :: 0 <= i < |rooms| ==> (rooms[i].isBoss <==> boss == Some(i))
    ensures boss.Some? ==> IsFarthest(rooms, boss.value, cfg) && boss.value != 0
  {
    var filled;
    filled, expanded, bfsCount, picksUsed := GrowArena(cfg, prefab, branchDraws, picks);
    reachedMinimum := |filled| >= Mathf.Max(cfg.minRooms, 1);
    rooms, boss := ChooseBoss(filled, cfg);
    FinalizeIsIdentityWhenSettled(rooms);
    var chosen := rooms;
    rooms := FinalizeDoors(rooms);
    assert forall i :: 0 <= i < |rooms| ==> rooms[i].grid == filled[i].grid;
    SameGridsLayout(rooms, filled);
    SameGridsCells(rooms, filled);
    SameGridsCells(rooms[..bfsCount], filled[..bfsCount]);
    OfferedBySameGrids(rooms, filled, branchDraws, cfg.branchChance, expanded);
    forall i | 0 <= i < expanded
      ensures Offered(rooms[i].grid, branchDraws, i, cfg.branchChance) <= Cells(rooms)
    {
      assert Offered(rooms[i].grid, branchDraws, i, cfg.branchChance) <= OfferedBy(rooms, branchDraws, cfg.branchChance, expanded);
      assert Cells(rooms[..bfsCount]) <= Cells(rooms);
    }
  }

  /** Room `b` is the first room, in arena order, at the strictly greatest
      distance from the start room (index 0). */
  predicate IsFarthest(rooms: seq<Room>, b: nat, cfg: Config)
    requires 0 < |rooms|
  {
    && b < |rooms|
    && (forall j :: 0 <= j < |rooms| ==> Distance(rooms, 0, j, cfg) <= Distance(rooms, 0, b, cfg))
    && (forall j :: 0 <= j < b ==> Distance(rooms, 0, j, cfg) < Distance(rooms, 0, b, cfg))
  }

  /** The boss step of `GenerateRooms`: only when there is more than one room,
      the farthest room from the start becomes the boss room. */
  method ChooseBoss(rooms: seq<Room>, cfg: Config) returns (rooms': seq<Room>, boss: Option<nat>)
    requires ValidConfig(cfg) && GenInv(rooms)
    ensures |rooms'| == |rooms| && rooms'[0].grid == Origin && rooms'[0].isStart
    ensures forall i :: 0 <= i < |rooms| ==> rooms'[i].grid == rooms[i].grid
    ensures Cells(rooms') == Cells(rooms)
    ensures forall i :: 1 <= i < |rooms'| ==> !rooms'[i].isStart
    ensures Structure(rooms') && Settled(rooms') && Fresh(rooms')
    ensures boss.Some? <==> |rooms| > 1
    ensures forall i :: 0 <= i < |rooms'| ==> (rooms'[i].isBoss <==> boss == Some(i))
    ensures boss.Some? ==> IsFarthest(rooms', boss.value, cfg) && boss.value != 0
  {
    if |rooms| > 1 {
      var farthest := FindFarthestRoom(rooms, 0, cfg);
      FarthestIsNotStart(rooms, 0, farthest, cfg);
      BossChoice(rooms, farthest, cfg);
      rooms', boss := MarkBoss(rooms, farthest), Some(farthest);
    } else {
      rooms', boss := rooms, None;
    }
    SameGridsCells(rooms, rooms');
  }

  /** What `ChooseBoss` promises, for a boss room found by `FindFarthestRoom`. */
  lemma BossChoice(rooms: seq<Room>, b: nat, cfg: Config)
    requires GenInv(rooms) && 0 < b < |rooms|
    requires forall j :: 0 <= j < |rooms| ==> Distance(rooms, 0, j, cfg) <= Distance(rooms, 0, b, cfg)
    requires Distance(rooms, 0, b, cfg) > 0 ==>
      forall j :: 0 <= j < b ==> Distance(rooms, 0, j, cfg) < Distance(rooms, 0, b, cfg)
    requires Distance(rooms, 0, b, cfg) == 0 ==> b == 0
    ensures MarkBoss(rooms, b)[0].grid == Origin && MarkBoss(rooms, b)[0].isStart
    ensures forall i :: 1 <= i < |rooms| ==> !MarkBoss(rooms, b)[i].isStart
    ensures Structure(MarkBoss(rooms, b)) && Settled(MarkBoss(rooms, b)) && Fresh(MarkBoss(rooms, b))
    ensures forall i :: 0 <= i < |rooms| ==> (MarkBoss(rooms, b)[i].isBoss <==> i == b)
    ensures IsFarthest(MarkBoss(rooms, b), b, cfg)
  {
    BossKeepsStructure(rooms, b);
    BossKeepsDistances(rooms, b, cfg);
  }

  /** Room `b` becomes the boss room; nothing else changes. */
  function MarkBoss(rooms: seq<Room>, b: nat): (r: seq<Room>)
    requires b < |rooms|
    ensures |r| == |rooms|
    ensures forall i :: 0 <= i < |r| ==>
      && r[i].grid == rooms[i].grid && r[i].doors == rooms[i].doors
      && r[i].isStart == rooms[i].isStart
      && (r[i].isBoss <==> i == b || rooms[i].isBoss)
      && r[i].(isBoss := rooms[i].isBoss) == rooms[i]
  {
    rooms[b := rooms[b].(isBoss := true)]
  }

  /** Marking the boss moves no room, so every distance is unchanged. */
  lemma BossKeepsDistances(rooms: seq<Room>, b: nat, cfg: Config)
    requires b < |rooms|
    ensures forall j :: 0 <= j < |rooms| ==>
      Distance(MarkBoss(rooms, b), 0, j, cfg) == Distance(rooms, 0, j, cfg)
  {
  }

  /** Marking a room as the boss changes no cell, door or link. */
  lemma BossKeepsStructure(rooms: seq<Room>, b: nat)
    requires b < |rooms| && Structure(rooms) && Settled(rooms)
    ensures Structure(MarkBoss(rooms, b))
    ensures Settled(MarkBoss(rooms, b))
  {
    var r := MarkBoss(rooms, b);
    forall i | 0 <= i < |r| ensures r[i].doors == rooms[i].doors && r[i].grid == rooms[i].grid { }
    forall i, k | 0 <= i < |r| && 0 <= k < |r[i].doors| ensures DoorPaired(r, i, k) {
      assert DoorPaired(rooms, i, k);
    }
  }
}
