# Black Myth Nezha: dungeon, doors, enemies and health in Dafny

A model of the room-and-door core of the Unity game *Black-Myth-Nezha*, with proofs about it.
- `RoomManager` generates a grid dungeon: breadth-first branching, then a fill loop up to the minimum room count. The room farthest from the start becomes the boss room.
- Doors are three-state machines (`Unconnected`, `Locked`, `Unlocked`), and each door's look and colliders are a pure function of its state.
- Entering a room for the first time spawns enemies through `EnemyManager` and locks the room's doors.
- Enemy deaths count down; the last one clears the room, reopens it and requests an item, or a portal in the boss room.
- The enemy base class is a distance-driven state machine.
- The player's health is clamped, saved and announced.
- The heart bar shows that health as half-heart pieces.
- The older root-level `Room`, `Door` and `Enemy` components are modelled separately, in module `Legacy`.

Files and modules:

| file | module | models |
|---|---|---|
| `base.dfy` | `Wrappers`, `Mathf` | null references as `Option`; `Mathf.Max/Min/Clamp`; C#'s truncating `/ 2` and `% 2` |
| `grid.dfy` | `Grid` | directions, grid cells, the grid/world mapping with `Mathf.RoundToInt` |
| `doors.dfy` | `Doors` | `Object/Door.cs` |
| `rooms.dfy` | `Rooms` | the single-room operations of `Object/Room.cs` |
| `generation.dfy` | `Generation` | `RoomManager.GenerateRooms` and its helpers |
| `enemy_manager.dfy` | `Spawning` | `Enemy/EnemyManager.cs` |
| `dungeon.dfy` | `Dungeon` | `RoomManager` at run time, and the room handlers that call back into it |
| `enemies.dfy` | `Enemies` | the base class in `Enemy/Enemy.cs` |
| `player_health.dfy` | `Player` | `Player/PlayerHealth.cs` |
| `health_bar.dfy` | `HealthDisplay` | `HealthBar.cs` |
| `legacy.dfy` | `Legacy` | the root-level `Room.cs`, `Door.cs` and `Enemy.cs` |

How the model represents the game:

- **Rooms and doors.** The dungeon is an arena: `seq<Room>`, with the start room at index 0. A room or door reference is an index: a door link is `Option<nat>`, and a door's identity is `DoorRef(room, slot)`. `null` is `None`.
- **Randomness.** Every random draw is an input to the operation that makes it:
  - the four `Random.value` draws per dequeued room of the breadth-first loop;
  - the `Random.Range` picks of the fill loop;
  - the enemy-count roll, and one prefab draw per enemy.
- **Requests to the rest of the game.** The camera, spawned enemies, teleports, items and the portal are returned as an ordered list of `Effect` values.
- **Events.** `OnHealthChanged` notifications are returned as `Change` values. `OnDeath` and `OnHit` are flags on the result.
- **Exceptions.** `Instantiate` on an unassigned enemy prefab throws, and so does the old room's handler registration on a prefab without an `Enemy` component (the `threw` flag of `Legacy.SpawnEnemies`). The throw is the `missingPrefab` flag of the spawn result and the `SpawnAborted` effect, and `EnterRoom` stops where the source would: the room is current and shown but not locked or marked visited, and no camera move or teleport follows (`Dungeon.AbortedEntryStopsEarly`).
- **Persistence.** `PlayerPrefs` is a two-key store, `Prefs`.

Where the code does not do the obvious thing, the model follows the code:

- Generation leaves every linked door `Unlocked`, not `Locked` (`Generation.GenerateRooms`).
- `EnterRoom` passes the door the player came through to `LockAllDoors` as the door to spare. That door belongs to the room the player left, so every connected door of the new room locks (`Dungeon.FirstVisitLocksEveryDoor`).
- A cleared boss room requests its portal and still takes the item path of `ReportRoomCleared` (`Dungeon.BossClearanceRequestsPortalAndItem`).
- The clearance branch of `HandleEnemyDeath` is not guarded by `isCleared`. Each further death notification at zero runs it again (`Dungeon.ClearanceRepeats`).
- The `CheckRoomCleared` call inside `HandleEnemyDeath` examines the current room, not the room whose enemy died (`Dungeon.DeathElsewhereClearsCurrentRoom`).
- The bootstrap entry into the start room does not mark it visited (`Dungeon.EnterBootstrap`, `Dungeon.StartGame`).
- `InitializeHealthBar` refreshes the display before setting `initialized`, so that refresh does nothing and new pieces keep the prefab's fill (`HealthDisplay.InitializeHealthBar`). When the bar is linked to the player, a rebuild replaces the notified maximum with the player's own.

## Model

| member | source | states |
|---|---|---|
| Mathf.Clamp | Assets/Scripts/Player/PlayerHealth.cs:54 | `Mathf.Clamp` on ints: the result is in range when the range is non-empty, the value is kept when already inside it, and when the range is empty small values give the lower bound and large ones the upper |
| Mathf.Div2 | Assets/Scripts/HealthBar.cs:118 | C#'s `/ 2` truncates toward zero: twice the quotient is the value moved toward zero by at most one, for negative values too |
| Mathf.Rem2 | Assets/Scripts/HealthBar.cs:119 | C#'s `% 2` satisfies `a == 2 * (a / 2) + a % 2` and takes the sign of `a` |
| Grid.Opposite | Assets/Scripts/RoomManager.cs:269-279 | the opposite of a direction is never the direction itself |
| Grid.OppositeIsInvolution | Assets/Scripts/RoomManager.cs:269-279 | taking the opposite twice gives the direction back |
| Grid.Step | Assets/Scripts/RoomManager.cs:187-194 | one step moves exactly one unit along exactly one axis, so it never stays on the same cell |
| Grid.StepBack | Assets/Scripts/RoomManager.cs:187-194 | a step followed by a step in the opposite direction returns to the starting cell |
| Grid.StepInjective | Assets/Scripts/RoomManager.cs:187-194 | different directions lead from a cell to different neighbours |
| Grid.RoundDiv | Assets/Scripts/RoomManager.cs:301-304 | `Mathf.RoundToInt(a / b)` lies within half a divisor of the true quotient, is exact for multiples, and rounds a tie to the even neighbour |
| Grid.GridOfWorld | Assets/Scripts/RoomManager.cs:197-200 | rounding a world position back to the grid inverts `GetWorldPosition` for every cell and every positive room size |
| Grid.WorldPositionInjective | Assets/Scripts/RoomManager.cs:197-200 | distinct cells have distinct world positions |
| Grid.NewGridPosition | Assets/Scripts/RoomManager.cs:180-195 | `GetNewGridPosition` is a neighbour of the rounded cell of the position, never that cell itself, and a step back in the opposite direction returns to it |
| Grid.NewGridPositionOfRoom | Assets/Scripts/RoomManager.cs:180-195 | for a room standing on a cell, `GetNewGridPosition` is the neighbouring cell |
| Grid.SquaredDistance | Assets/Scripts/RoomManager.cs:288 | the distance measure is non-negative and zero exactly for equal positions |
| Doors.AppearanceOf | Assets/Scripts/Object/Door.cs:103-138 | the wall collider is on exactly when the door is not `Unlocked`; the trigger is on exactly when it is `Unlocked`; the sprite is hidden exactly when `Unconnected`; a boss sprite is worn exactly by a boss door that is not `Unconnected`, and the locked sprites exactly by `Locked` doors |
| Doors.Lock | Assets/Scripts/Object/Door.cs:91-95 | locking gives `Locked`, closes the passage and raises the wall, and touches no other field (the root-level `Door.cs:79-83` is the same) |
| Doors.Unlock | Assets/Scripts/Object/Door.cs:97-101 | unlocking gives `Unlocked`, opens the passage and lowers the wall, and touches no other field (root-level `Door.cs:85-89` is the same) |
| Doors.LastWriteWins | Assets/Scripts/Object/Door.cs:91-101 | of a sequence of locks and unlocks only the last one matters, and both operations are idempotent |
| Doors.Initialize | Assets/Scripts/Object/Door.cs:140-146 | an unlinked door resets to `Unconnected`; a linked door is left exactly as it was (root-level `Door.cs:124-130` is the same) |
| Doors.ConnectRoom | Assets/Scripts/Object/Door.cs:148-165 | a door connected to a room is `Unlocked`, and a door connected to null is `Unconnected`; either way the door ends consistent with its link (root-level `Door.cs:132-143` is the same) |
| Doors.InitializeAfterConnect | Assets/Scripts/Object/Door.cs:140-165 | initialising a just-connected door changes nothing |
| Doors.InitializeKeepsConsistency | Assets/Scripts/Object/Door.cs:140-146 | initialisation keeps a door consistent with its link and is idempotent |
| Doors.OnTriggerEnter | Assets/Scripts/Object/Door.cs:74-89 | a room transition is requested exactly when the player touches an unlocked, connected door while the manager exists; the request names the linked room and this door |
| Doors.TriggerOnlyThroughPassableDoor | Assets/Scripts/Object/Door.cs:74-138 | a transition only ever comes from a door whose trigger collider is enabled and whose wall is down |
| Doors.ValidateOrientation | Assets/Scripts/Object/Door.cs:47-64 | a direction tag is kept; a missing one is derived from the sign of the offset, y before x, and a zero offset leaves the door untagged |
| Doors.ValidateIdempotent | Assets/Scripts/Object/Door.cs:47-64 | validating a tag twice is the same as validating it once |
| Rooms.Instantiate | Assets/Scripts/RoomManager.cs:311-313 | a new room from the prefab has every door unlinked, `Unconnected` and active, and every flag and the counter at their defaults |
| Rooms.Initialize | Assets/Scripts/Object/Room.cs:70-100 | every door is forced to `Unconnected` and gets this room as parent, except that a start room's linked doors end `Unlocked`; nothing else changes; an unlinked room ends consistent |
| Rooms.FirstTagged | Assets/Scripts/RoomManager.cs:258-267 | `GetDoorForDirection` returns the first door carrying the direction's tag, and null only when no door carries it |
| Rooms.FirstTaggedDependsOnTags | Assets/Scripts/RoomManager.cs:258-267 | which door is found depends only on the tags, not on states or links |
| Rooms.ActivateRoom | Assets/Scripts/Object/Room.cs:103-126 | exactly the linked doors become visible, no door state changes, and consistency is kept |
| Rooms.DeactivateRoom | Assets/Scripts/Object/Room.cs:127-146 | every door is hidden, no door state changes, and consistency is kept |
| Rooms.UnlockConnected | Assets/Scripts/Object/Room.cs:172-179 | every linked door is unlocked and every unlinked door is left alone |
| Rooms.UnlockDoors | Assets/Scripts/Object/Room.cs:169-180 | the room is marked cleared, every linked door becomes passable, and nothing else changes |
| Rooms.LockAllDoors | Assets/Scripts/Object/Room.cs:311-327 | unlinked doors are skipped; the linked door that is the given door is unlocked, and every other linked door locked |
| Rooms.LockAllDoorsExceptForeignDoor | Assets/Scripts/RoomManager.cs:388 | when the door to spare belongs to another room, every linked door locks |
| Rooms.CountDeath | Assets/Scripts/Object/Room.cs:259 | a death lowers the counter by one and never below zero |
| Rooms.CountDeathsFloor | Assets/Scripts/Object/Room.cs:259-261 | after n ≥ 1 deaths the counter is `max(alive - n, 0)` |
| Generation.CreateRoom | Assets/Scripts/RoomManager.cs:298-333 | a created room stands on the rounded grid cell of its position, its doors are those of the prefab (unlinked, `Unconnected`, owned by the room), and its flags are at their defaults |
| Generation.ConnectRooms | Assets/Scripts/RoomManager.cs:203-254 | cells, flags, tags and parents never change; a self-connection or a missing directional door changes nothing |
| Generation.ConnectRoomsLinksPair | Assets/Scripts/RoomManager.cs:203-254 | when both directional doors exist, exactly those two doors are linked to each other, left `Unlocked` and active, and no other door changes |
| Generation.ConnectPreservesStructure | Assets/Scripts/RoomManager.cs:203-254 | linking two neighbouring unlinked rooms keeps every link symmetric and every door state consistent |
| Generation.AddRoomPreservesStructure | Assets/Scripts/RoomManager.cs:110-116 | a room placed on a free cell keeps the dungeon's invariants, adds exactly its cell, and is linked to nothing yet |
| Generation.AttachPreserves | Assets/Scripts/RoomManager.cs:109-116 | one placement step on a free neighbouring cell keeps the generation invariant and adds exactly one room and one cell |
| Generation.FirstFreeDirection | Assets/Scripts/RoomManager.cs:128-138 | the fill loop takes the first direction, in enumeration order, whose neighbour is free, and finds none only when all four are occupied |
| Generation.FillCanProgress | Assets/Scripts/RoomManager.cs:123-139 | some room always has a free side, so the fill loop can always make progress |
| Generation.FindFarthestRoom | Assets/Scripts/RoomManager.cs:281-296 | the result is the first room at the greatest distance from the start, or the start itself when nothing is farther |
| Generation.FarthestIsNotStart | Assets/Scripts/RoomManager.cs:141-146 | in a dungeon of two or more rooms the boss room is never the start room |
| Generation.FinalizeDoors | Assets/Scripts/RoomManager.cs:148-176 | every unlinked door ends `Unconnected`, the start room's linked doors end `Unlocked`, and other linked doors are untouched |
| Generation.FinalizeIsIdentityWhenSettled | Assets/Scripts/RoomManager.cs:148-176 | on the dungeon the loops produce, the final door loops repair nothing |
| Generation.BranchOut | Assets/Scripts/RoomManager.cs:102-118 | one dequeued room gains at most four neighbours and the invariant is kept; the occupied set grows by exactly the neighbours in drawn directions, and the new rooms stand, in order, on `BranchCells`: the drawn neighbours free at the moment their direction comes up, in `Directions` enumeration order |
| Generation.BranchStep | Assets/Scripts/RoomManager.cs:105-117 | one direction of a dequeued room adds a room exactly when the draw passes the branch chance and the neighbouring cell is free; the new room stands on that cell; a drawn cell is occupied afterwards either way; the invariant is kept |
| Generation.PlaceBranch | Assets/Scripts/RoomManager.cs:110-115 | on a free neighbouring cell, exactly one room is appended there, linked without breaking the invariant, no other room moves, and the occupied set grows by exactly that cell |
| Generation.BranchTurn | Assets/Scripts/RoomManager.cs:105-117 | one direction of the branching loop extends its progress: the occupied set includes the cell drawn for that direction, and the arena's cells are the cells before the loop followed by `BranchCells` for one more direction |
| Generation.ExpandBreadthFirst | Assets/Scripts/RoomManager.cs:99-119 | the breadth-first phase keeps the invariant and exceeds `maxRooms` by at most three; it stops only when the queue is empty, the cap is reached or `maxDepth` rooms were dequeued; every cell a dequeued room offered is occupied, every other room stands on a cell an earlier dequeued room offered, the occupied cells are exactly the start cell and the offered ones; and the rooms stand, in order, on the cell-level breadth-first reference `Breadth` of the start cell |
| Generation.BreadthLoop | Assets/Scripts/RoomManager.cs:100-119 | from any state the breadth-first progress holds in, the loop keeps the invariant and the breadth-first progress, and ends only when the queue is empty, the cap is reached or `maxDepth` rooms were dequeued |
| Generation.BreadthTurn | Assets/Scripts/RoomManager.cs:102-118 | dequeuing the head of the queue and branching out from it keeps the invariant and extends the breadth-first progress by one dequeued room, with the new rooms enqueued in order |
| Generation.BreadthProgressStep | Assets/Scripts/RoomManager.cs:102-118 | one branching, as `BranchOut` states it, keeps every dequeued room's offered cells occupied, every other room placed by an earlier one, the queue in room order and the `Breadth` result unchanged |
| Generation.BreadthAdvance | Assets/Scripts/RoomManager.cs:102-118 | appending the cells one dequeued room branches to moves `Breadth` one step on without changing where it ends |
| Generation.BreadthDone | Assets/Scripts/RoomManager.cs:100 | when the loop condition fails, the progress yields the phase's result: the stop condition, the occupied cells and the layout equal to `Breadth` of the start cell |
| Generation.BreadthOrderExample | Assets/Scripts/RoomManager.cs:99-119 | with every branch drawn and a depth of two, the layout is the start cell, its north, east, south and west neighbours in that order, then the north room's free neighbours north, east and west |
| Generation.BranchProgressStep | Assets/Scripts/RoomManager.cs:105-117 | one direction, as `BranchStep` states it, appends its cell to the ordered `BranchCells` exactly when it placed a room |
| Generation.FillToMinimum | Assets/Scripts/RoomManager.cs:121-139 | the fill phase keeps the invariant, never exceeds `max(minRooms, 1)` rooms, adds at most one room per pick consumed, and stops short of the minimum only after consuming every pick; its rooms stand, in order, on the cells of the cell-level fill `FillCells` run on all the picks and on exactly the picks it consumed; when it leaves picks unused it has reached the minimum, and it consumed no pick after the minimum was reached |
| Generation.FillLoop | Assets/Scripts/RoomManager.cs:121-139 | the fill loop keeps the invariant, leaves a big-enough arena alone, and its layout is `FillCells` on the picks it consumed; it stops before the last pick only at the minimum, and before its last consumed pick the minimum had not been reached |
| Generation.FillCellsShape | Assets/Scripts/RoomManager.cs:121-139 | the cell-level fill only appends cells, at most one per pick and never past the required count, and leaves a layout that already meets the count alone |
| Generation.ExpandFromOrigin | Assets/Scripts/RoomManager.cs:91-119 | starting from the lone start room at the origin, the breadth-first phase keeps the invariant, respects the depth and room limits, stops only on an empty queue or a limit, occupies exactly the origin plus the offered cells, and its rooms stand in order on `BreadthLayout`, the cell-level breadth-first result for the draws |
| Generation.GrowArena | Assets/Scripts/RoomManager.cs:91-139 | the first `bfsCount` rooms stand in order on `BreadthLayout`, which is the origin plus the cells offered by the `expanded` dequeued rooms, with `expanded` bounded by `maxDepth` and the stop condition; the whole layout is `FillCells` of `BreadthLayout` on all picks and on the consumed picks, and unused picks mean the minimum was reached |
| Generation.FillStep | Assets/Scripts/RoomManager.cs:123-138 | one pick: the picked room gains a room on its first free side, which becomes occupied, or nothing changes when all four sides are taken; the cells follow the cell-level pass `FillPick` |
| Generation.FillCellsSettles | Assets/Scripts/RoomManager.cs:121-139 | once the fill has reached the minimum, further picks change nothing |
| Generation.BreadthFirstCells | Assets/Scripts/RoomManager.cs:99-119 | when every offered cell is occupied and every other room stands on an offered cell, the occupied cells are exactly the start cell and the offered ones |
| Generation.DrawnCellsMembers | Assets/Scripts/RoomManager.cs:105-108 | a cell is offered by a dequeued room exactly when it is the neighbour in a direction whose draw is at most the branch chance |
| Generation.GenerateRooms | Assets/Scripts/RoomManager.cs:85-177 | a generated dungeon has the start room first at the origin and no other start room; links are symmetric between neighbouring cells and every linked door is `Unlocked`; nothing is visited, cleared or counted; exactly one boss room, the farthest one, when there are two rooms or more; every cell offered by a dequeued room is a room's cell, and at least one room is dequeued when the limits allow it; the first `bfsCount` rooms stand in order on `BreadthLayout`, the cell-level breadth-first result for the draws, which is the origin plus the cells offered by the `expanded` dequeued rooms, `expanded` is at most `max(maxDepth, 0)` and the breadth-first loop stopped only on an empty queue or a limit; so the whole layout is `FillCells(BreadthLayout(...), picks, ...)`, fixed by the draws and picks alone; it is the cell-level fill of that prefix on all picks and on the `picksUsed` consumed picks; unused picks imply `reachedMinimum`, a missed minimum implies every pick was consumed, and no pick was consumed after the minimum was reached; and size bounds |
| Generation.ChooseBoss | Assets/Scripts/RoomManager.cs:141-146 | a boss is chosen exactly when there is more than one room; it is the farthest room, not the start, and the only room flagged boss; no room moves |
| Generation.BossChoice | Assets/Scripts/RoomManager.cs:141-146 | flagging the farthest room as the boss keeps every structural invariant and leaves it the farthest |
| Generation.MarkBoss | Assets/Scripts/RoomManager.cs:145 | only the boss flag of the chosen room changes |
| Generation.BossKeepsDistances | Assets/Scripts/RoomManager.cs:281-296 | flagging the boss moves no room, so every distance from the start is unchanged |
| Generation.BossKeepsStructure | Assets/Scripts/RoomManager.cs:141-146 | flagging the boss changes no cell, door or link |
| Spawning.SpawnEnemiesForRoom | Assets/Scripts/Enemy/EnemyManager.cs:28-59 | a null or start room is ignored; a room with no spawn points raises the error and gets nothing; otherwise the roll clamped to `[0, spawnPoints]` enemies are placed on spawn points, each of the kind its draw selects, and the room's counter equals the number placed; the loop throws exactly when one of those draws selects an unassigned prefab, and then the enemies before it stay placed and the counter is untouched |
| Spawning.AssignedPrefabsNeverThrow | Assets/Scripts/Enemy/EnemyManager.cs:47-49 | with both regular prefabs assigned, spawning never throws |
| Spawning.UnassignedBasicPrefabThrows | Assets/Scripts/Enemy/EnemyManager.cs:47-49 | an unassigned basic prefab makes a spawn whose draw selects the basic enemy throw before placing anything |
| Spawning.SpawnPointsUsedOnce | Assets/Scripts/Enemy/EnemyManager.cs:39-45 | the wrap-around index never wraps, so no spawn point is used twice |
| Spawning.SpawnCountIsCappedRoll | Assets/Scripts/Enemy/EnemyManager.cs:39-40 | when spawning does not throw, the enemy count is the roll capped by the number of spawn points, and at least the configured minimum when the room has that many points |
| Spawning.GetEnemyPrefab | Assets/Scripts/Enemy/EnemyManager.cs:92-104 | the table always finds the type and returns that type's field, null exactly when that field is unassigned |
| Spawning.GetEnemyPrefabInjective | Assets/Scripts/Enemy/EnemyManager.cs:92-104 | with three distinct assigned prefabs, a prefab determines its type |
| Spawning.SpawnEnemy | Assets/Scripts/Enemy/EnemyManager.cs:71-88 | an unassigned prefab spawns nothing; otherwise exactly the new enemy is appended to the tracked list |
| Spawning.RemoveEnemy | Assets/Scripts/Enemy/EnemyManager.cs:106-112 | removing an untracked enemy does nothing; removing a tracked one shortens the list by exactly one |
| Spawning.RemoveEnemyTakesOne | Assets/Scripts/Enemy/EnemyManager.cs:106-112 | removal takes exactly one copy of the enemy out of the tracked multiset and leaves every other count alone |
| Spawning.RemoveEnemyCutsFirst | Assets/Scripts/Enemy/EnemyManager.cs:106-112 | it is the first occurrence that is cut, and the others keep their order |
| Spawning.RemoveUndoesSpawn | Assets/Scripts/Enemy/EnemyManager.cs:71-112 | spawning an untracked enemy and then removing it restores the tracked list |
| Spawning.ClearAllEnemies | Assets/Scripts/Enemy/EnemyManager.cs:114-122 | every tracked enemy is destroyed and the list is left empty |
| Dungeon.ConnectedDoorPosition | Assets/Scripts/RoomManager.cs:446-493 | an untagged entry door gives the room centre; otherwise the arrival door is the new room's first door facing back, or the centre when there is none |
| Dungeon.ArrivalLeadsBack | Assets/Scripts/RoomManager.cs:446-481 | in a generated dungeon, the arrival door is the one linked back to the room the player came from |
| Dungeon.Arrive | Assets/Scripts/RoomManager.cs:411-429 | a teleport or an error is produced exactly when the player came through a door and exists; the error occurs exactly when that door has no link |
| Dungeon.SpawnFor | Assets/Scripts/RoomManager.cs:378-389 | without an enemy manager an error and no spawn; otherwise the spawn result, with the room's counter equal to the enemies placed, or an aborted entry with the room untouched exactly when spawning throws |
| Dungeon.Visit | Assets/Scripts/RoomManager.cs:374-402 | after the visit step the room is visited exactly when spawning did not throw, and its cleared flag is unchanged; a revisit unlocks the linked doors, a first visit to the start room only marks it, any other first visit spawns and then locks, and a throwing spawn leaves the room as it was |
| Dungeon.Leave | Assets/Scripts/RoomManager.cs:364-368 | only the previous room changes, and only by hiding its doors |
| Dungeon.EnterRoom | Assets/Scripts/RoomManager.cs:335-430 | entering a null room does nothing; otherwise the target becomes the current room; no link changes |
| Dungeon.EnterRoomKeepsValid | Assets/Scripts/RoomManager.cs:335-430 | entering a room keeps the dungeon's structure and door consistency |
| Dungeon.EnterCurrentRoomIsNoop | Assets/Scripts/RoomManager.cs:358-363 | entering the current room changes nothing and requests nothing |
| Dungeon.EnterTwiceIsNoop | Assets/Scripts/RoomManager.cs:358-391 | a repeated trigger for the same room cannot spawn twice or lock again |
| Dungeon.EnterBootstrap | Assets/Scripts/RoomManager.cs:344-356 | with no current room and no door, only the room's doors are shown and the camera moved; the room is not marked visited |
| Dungeon.EnterTransition | Assets/Scripts/RoomManager.cs:364-409 | a transition marks the target visited and moves the camera exactly when spawning does not throw, keeps its cleared flag, hides the previous room, and leaves every other room untouched |
| Dungeon.FirstVisitLocksEveryDoor | Assets/Scripts/RoomManager.cs:374-391 | a first visit through another room's door spawns first and then, unless spawning threw, locks every connected door of the new room, the one leading back included |
| Dungeon.AbortedEntryStopsEarly | Assets/Scripts/RoomManager.cs:371-409 | when spawning throws, the room is current and shown but neither locked nor marked visited, its counter is untouched, and neither the camera move nor the teleport is requested |
| Dungeon.RevisitUnlocks | Assets/Scripts/RoomManager.cs:392-402 | a revisit unlocks every linked door, spawns nothing, and leaves the counter alone |
| Dungeon.VisitStartRoom | Assets/Scripts/RoomManager.cs:374-402 | visiting the start room spawns nothing and at most reopens the connected doors of a room already visited |
| Dungeon.StartRoomNeverLocks | Assets/Scripts/RoomManager.cs:377-402 | entering the start room never locks a door and never spawns |
| Dungeon.EnterThroughDoorArrivesAtPartner | Assets/Scripts/RoomManager.cs:411-429 | unless spawning throws, the last request of a transition through a linked door is a teleport to the door linked back |
| Dungeon.ReportRoomCleared | Assets/Scripts/RoomManager.cs:518-534 | the start room is ignored; any other room is marked cleared, and one item is requested exactly when it has an item spawner |
| Dungeon.CheckRoomCleared | Assets/Scripts/RoomManager.cs:537-547 | only an uncleared current room with no enemies left is touched: it is cleared, its linked doors are opened, and it gets an item exactly when it is not the start room and has a spawner |
| Dungeon.HandleEnemyDeath | Assets/Scripts/Object/Room.cs:257-290 | only this room's counter moves, by one and never below zero; the death only opens doors and sets cleared flags |
| Dungeon.Clearance | Assets/Scripts/Object/Room.cs:261-289 | the clearance branch changes no counter and only opens doors and sets cleared flags |
| Dungeon.HandleEnemyDeathKeepsValid | Assets/Scripts/Object/Room.cs:257-290 | enemy deaths keep the dungeon's structure and door consistency |
| Dungeon.DeathWithEnemiesLeft | Assets/Scripts/Object/Room.cs:259-261 | a death that leaves enemies only decrements the counter |
| Dungeon.LastDeathClearsRoom | Assets/Scripts/Object/Room.cs:257-290 | the death that empties the room clears it and opens every linked door; the portal is requested exactly for a boss room with a portal prefab, and an item exactly for a non-start room with a spawner |
| Dungeon.ClearanceRooms | Assets/Scripts/Object/Room.cs:261-289 | the clearance branch leaves the room cleared and every linked door open |
| Dungeon.ClearanceEffects | Assets/Scripts/Object/Room.cs:266-288 | the clearance branch requests the portal exactly for a boss room with a portal prefab, and the item exactly for a non-start room with a spawner |
| Dungeon.BossClearanceRequestsPortalAndItem | Assets/Scripts/Object/Room.cs:266-288 | a cleared boss room with an item spawner requests both the portal and an item |
| Dungeon.ClearanceRepeats | Assets/Scripts/Object/Room.cs:257-290 | a further death notification at zero requests another item |
| Dungeon.DeathElsewhereClearsCurrentRoom | Assets/Scripts/Object/Room.cs:280 | a death in one room also clears the current room when that room is uncleared and empty |
| Dungeon.Deaths | Assets/Scripts/Object/Room.cs:257-290 | any number of deaths keeps the dungeon valid and only opens doors and sets cleared flags |
| Dungeon.KillingEveryEnemyClearsRoom | Assets/Scripts/Object/Room.cs:257-290 | once every counted enemy of a room has died, the room is cleared, its counter is zero and every linked door is open |
| Dungeon.ClearRoomEnemies | Assets/Scripts/RoomManager.cs:505-515 | one room's counter is zeroed and exactly its locked doors are unlocked |
| Dungeon.ClearAllEnemies | Assets/Scripts/RoomManager.cs:495-516 | all enemies are destroyed, every counter is zero, no door anywhere is locked, and nothing else changes |
| Dungeon.ClearAllEnemiesIdempotent | Assets/Scripts/RoomManager.cs:495-516 | clearing twice is the same as clearing once |
| Dungeon.EnterRoomInvariants | Assets/Scripts/RoomManager.cs:335-430 | entering never resets a visited flag, never changes a cleared flag, and never locks a door of the start room |
| Dungeon.HandlersKeepInvariants | Assets/Scripts/Object/Room.cs:257-290 | enemy deaths and clearing all enemies reset no flag and never lock the start room |
| Dungeon.Begin | Assets/Scripts/RoomManager.cs:47-76 | start-up makes the start room current and changes no link |
| Dungeon.BeginShowsStartRoom | Assets/Scripts/RoomManager.cs:47-76 | start-up only shows the start room's linked doors and moves the camera twice; no door state, flag or other room changes |
| Dungeon.StartGame | Assets/Scripts/RoomManager.cs:38-83 | the game starts valid, in the start room, with its linked doors open; no room is visited, cleared or counted; the boss room, if any, is flagged and is not the start room |
| Dungeon.BossSprites | Assets/Scripts/Object/Door.cs:115-126 | in a linked dungeon, a door wears a boss sprite exactly when it is not `Unconnected` and either belongs to the boss room or leads into it |
| Enemies.Start | Assets/Scripts/Enemy/Enemy.cs:59-69 | an enemy starts at full health |
| Enemies.Update | Assets/Scripts/Enemy/Enemy.cs:71-145 | a dead or retreating enemy stays as it is; an idle one chases exactly within the chase range; a chasing one attacks exactly within the attack range and goes idle exactly beyond both ranges; an attacking one resumes the chase exactly beyond the attack range; only the state changes, and never to `Dead` |
| Enemies.UpdateSettles | Assets/Scripts/Enemy/Enemy.cs:104-140 | at a fixed distance, and with the attack range inside the chase range, the state settles after two updates |
| Enemies.Die | Assets/Scripts/Enemy/Enemy.cs:162-166 | dying sets `Dead` and fires `OnDeath`; nothing else changes |
| Enemies.TakeDamage | Assets/Scripts/Enemy/Enemy.cs:148-160 | a dead enemy ignores hits and fires nothing; otherwise health drops by exactly the damage, `OnHit` fires, and the enemy dies exactly when its health reaches zero or below |
| Enemies.DeathAtMostOnce | Assets/Scripts/Enemy/Enemy.cs:148-166 | over any run of frames and hits `OnDeath` fires at most once, never for an enemy already dead, and the enemy ends dead exactly when it was dead or the event fired |
| Player.Load | Assets/Scripts/Player/PlayerHealth.cs:44-48 | each saved number is read back, and a missing key falls back to the current maximum |
| Player.LoadRestoresSaved | Assets/Scripts/Player/PlayerHealth.cs:44-66 | loading what `TakeDamage` saved restores the component |
| Player.Start | Assets/Scripts/Player/PlayerHealth.cs:22-30 | the player starts at full health at the saved maximum (or the default), within bounds exactly when that maximum is non-negative; one notification, nothing saved |
| Player.StartOverridesAwake | Assets/Scripts/Player/PlayerHealth.cs:22-48 | what `Awake` loaded makes no difference after `Start` |
| Player.TakeDamage | Assets/Scripts/Player/PlayerHealth.cs:50-67 | an invincible player ignores a hit; otherwise health drops by the damage, clamped into `[0, max]`; invincibility starts; the change is announced and both numbers saved; the player dies exactly when health hits zero; health stays within bounds |
| Player.EndInvincibility | Assets/Scripts/Player/PlayerHealth.cs:70-85 | the invincibility window closes and nothing else changes |
| Player.HitsInsideWindowAreIgnored | Assets/Scripts/Player/PlayerHealth.cs:50-85 | a second hit inside the window changes nothing |
| Player.Heal | Assets/Scripts/Player/PlayerHealth.cs:109-114 | healing raises health by the amount, clamped into `[0, max]`; health stays within bounds and only it is saved; a fully saved state stays fully saved |
| Player.IncreaseMaxHealth | Assets/Scripts/Player/PlayerHealth.cs:116-127 | the maximum grows by the amount and the player is refilled to it; only the maximum is saved; health is within bounds exactly when the new maximum is non-negative |
| Player.ReloadAfterIncrease | Assets/Scripts/Player/PlayerHealth.cs:116-127 | reloading after an increase restores the new maximum but the older saved health |
| Player.RunKeepsHealthy | Assets/Scripts/Player/PlayerHealth.cs:50-127 | over any sequence of hits, heals, non-negative increases and window ends, health stays in `[0, max]`, and so does every announced pair |
| HealthDisplay.ShouldShowFilled | Assets/Scripts/HealthBar.cs:117-139 | the half-heart arithmetic fills a piece exactly when its index is below the health, for every integer health |
| HealthDisplay.UpdateHealthDisplay | Assets/Scripts/HealthBar.cs:113-148 | before initialisation nothing changes; afterwards exactly the pieces below the health are filled, and nothing else changes |
| HealthDisplay.InitializeHealthBar | Assets/Scripts/HealthBar.cs:54-93 | an initialised bar is left alone; otherwise it takes the linked player's numbers and builds `max(max, 0)` pieces, left halves at even indices, all with the prefab's fill |
| HealthDisplay.SetHealth | Assets/Scripts/HealthBar.cs:95-99 | health is clamped into `[0, max]`, and only health and pieces change |
| HealthDisplay.SetMaxHealth | Assets/Scripts/HealthBar.cs:101-111 | unlinked, the maximum becomes at least one and the health is lowered to fit; linked, both numbers become the player's; the bar is rebuilt with one piece per point |
| HealthDisplay.HandleHealthChanged | Assets/Scripts/HealthBar.cs:158-166 | after a notification the bar shows its numbers: the notified (unlinked) or the player's (linked) maximum, and the notified health clamped to it |
| HealthDisplay.Start | Assets/Scripts/HealthBar.cs:32-51 | the bar links to the player found in the scene if none is assigned, and a linked bar shows the player's numbers at once |
| HealthDisplay.FilledPrefixCount | Assets/Scripts/HealthBar.cs:113-148 | when exactly the pieces below the health are filled, the number filled is the health cut into `[0, pieces]` |
| HealthDisplay.ShownCountIsHealth | Assets/Scripts/HealthBar.cs:113-148 | a bar that shows a health within its maximum has exactly `max` pieces and exactly `health` of them filled |
| HealthDisplay.NotifiedBarShowsPlayer | Assets/Scripts/HealthBar.cs:158-166 | after any player health change, the linked bar has one piece per point of the player's maximum and exactly the player's health filled |
| HealthDisplay.HitShownOnBar | Assets/Scripts/HealthBar.cs:158-166 | after a hit, the linked bar shows the player's health minus the damage, clamped into `[0, max]` |
| Legacy.DoorAppearance | Assets/Scripts/Door.cs:91-122 | the old door looks and collides like the current one and never shows a boss sprite |
| Legacy.OnTriggerEnter | Assets/Scripts/Door.cs:68-77 | the old trigger requests a transition exactly for the player at an unlocked, connected door, without checking for the manager |
| Legacy.TriggerMatchesCurrentDoor | Assets/Scripts/Door.cs:68-77 | with a manager present the old and current triggers agree |
| Legacy.Initialize | Assets/Scripts/Room.cs:50-76 | every door is forced to `Unconnected`, except that a start room's linked doors end `Unlocked`; no parent is recorded |
| Legacy.InitializeIdempotent | Assets/Scripts/Room.cs:50-76 | initialising twice is the same as once |
| Legacy.ActivateRoom | Assets/Scripts/Room.cs:79-102 | exactly the linked doors become visible, and no door state changes |
| Legacy.DeactivateRoom | Assets/Scripts/Room.cs:103-122 | every door is hidden, and no door state changes |
| Legacy.DeactivateUndoesActivate | Assets/Scripts/Room.cs:79-122 | deactivating after activating is the same as deactivating |
| Legacy.UnlockDoors | Assets/Scripts/Room.cs:145-163 | the room is marked cleared, exactly the linked doors are unlocked, and nothing else changes |
| Legacy.LockAllDoors | Assets/Scripts/Room.cs:209-225 | unlinked doors are skipped; the linked door that is the given door is unlocked, and every other linked door locked |
| Legacy.ConnectedDoorSlot | Assets/Scripts/Room.cs:167-175 | the arrival point is the given door exactly when it is a linked door of this room, and the room centre otherwise |
| Legacy.SpawnEnemies | Assets/Scripts/Room.cs:179-192 | without an enemy prefab nothing happens; otherwise the counter is set to the number of spawn points; it throws exactly when a prefab without an `Enemy` component meets a spawn point, after creating one enemy; without a throw the counter equals the number created |
| Legacy.MissingComponentOvercounts | Assets/Scripts/Room.cs:186-190 | when the prefab lacks an `Enemy` component, the call throws and the counter exceeds the enemies created by `spawnPoints - 1` |
| Legacy.HandleEnemyDeath | Assets/Scripts/Room.cs:194-207 | the counter drops by exactly one with no floor; once it is at most zero, exactly the linked `Locked` doors are unlocked; the room is not marked cleared |
| Legacy.SurplusDeathGoesNegative | Assets/Scripts/Room.cs:196 | a death at zero drives the old counter to -1, where the current room's counter stays at 0 |
| Legacy.DeathsUnlockWithoutClearing | Assets/Scripts/Room.cs:194-207 | after n deaths the counter is exactly n lower and the cleared flag unchanged; once the counter has reached zero no linked door is `Locked` |
| Legacy.StartEnemy | Assets/Scripts/Enemy.cs:14-17 | the old enemy starts at full health |
| Legacy.TakeDamage | Assets/Scripts/Enemy.cs:19-26 | health drops by exactly the damage, and `OnDeath` fires exactly when health is then zero or below |
| Legacy.EveryHitAfterDeathFires | Assets/Scripts/Enemy.cs:19-32 | once the old enemy's health is zero or below, every further non-negative hit fires `OnDeath` again |

## Left out

- Unity plumbing has no counterpart:
  - object activation of the room itself, and spawn-point objects;
  - logging, sprite colours, hit flashes, blinking, animators, gizmos, layout offsets;
  - `Destroy` timing;
  - the `Awake` singleton checks of `RoomManager`, `EnemyManager` and `PlayerHealth`, and `DontDestroyOnLoad`.
- Camera bounds: `CreateRoom` computes them and `EnterRoom` and `Start` pass them to `CameraController`, which the model assumes is present. A camera move is the `CameraTo` effect.
- `RoomManager.Start` destroys rooms left in `allRooms`; the model starts from an empty dungeon.
- `Room.Start` (both versions) looks up doors and spawn points in the children; the prefab supplies them directly.
- The ownership checks become index checks. The `IsChildOf` check in `ConnectRooms` and the `parent.parent` check in `EnterRoom` always hold when door ownership is a room index. The 0.1 position check in `ConnectRooms` only logs.
- Never called on any modelled path:
  - `Room.SpawnEnemies`, `SpawnBossWithDelay`, `GetRoomCenter`, `GetRandomPositionInRoom` and `IsPositionInRoom` (in `Object/Room.cs`);
  - `GenerateEnemies` and `CheckEnemiesCleared` (both room versions; the latter is only a call to `UnlockDoors`);
  - `GetHierarchyPath` and `EnemyManager.GetWeightedEnemyType`.

  In particular, boss rooms get regular enemies through `EnemyManager`.
- Enemy subclasses (`BasicEnemy`, `ShooterEnemy`, `BossEnemy`) override the handlers, and they are not part of this model. Neither are the chase movement, sprite flipping, death effect and the random item drop of `Die`.
- `Die` on the player: disabling control, stopping physics and `GameManager.HandlePlayerDeath` are the `died` flag. The invincibility coroutine's timing is the `Recover` action.
- The heart bar's event subscription and unsubscription. `HealthDisplay.NotifiedBarShowsPlayer` states what a delivered notification does.
- The legacy trigger's call on a missing room manager (a null dereference), and null entries in the legacy room's door array.
- Rooms.Initialize: a door slot is always a door. The source skips a null slot in its reset loop (Object/Room.cs:77) but then dereferences every slot when setting the parent room (:85). A prefab with a null door entry would therefore throw in `Initialize`, and so in `CreateRoom`. The model has no null door, so it does not show that exception.
- C# `int` overflow is not modelled, because every integer is unbounded. This affects `IncreaseMaxHealth` and the counters.
- Grid.SquaredDistance: stands in for the floating-point `Vector2.Distance`. Both order rooms the same way.
- Grid.RoundDiv: room width and height are positive integers instead of floats, so positions are exact and `Mathf.RoundToInt` acts on exact quotients.
- Enemies.TakeDamage: float health is modelled as an exact `real`. Rounding of `currentHealth -= damage` is not modelled.
- Spawning.SpawnEnemiesForRoom: the 0.3 threshold is compared as an exact real. Each enemy's death subscriptions are not modelled, but the room's counter is set as the source sets it.
- Generation.FillToMinimum: the source loops until the minimum is reached, drawing as many `Random.Range` values as that takes. The model consumes a finite list of picks and can stop short of the minimum, but only once every pick is consumed. `Generation.FillCanProgress` shows that some room always has a free side; whether the random picks ever find one is not modelled.
- Generation.GenerateRooms: a missed minimum is reported as `reachedMinimum` being false; the ensures `!reachedMinimum ==> picksUsed == |picks|` and `picksUsed < |picks| ==> reachedMinimum` tie it to the picks (see above).
- Doors.AppearanceOf: the source caches the sprite when the state is written. A door whose boss status changes later keeps its old sprite until its next state change. The model derives the sprite from the current state.
