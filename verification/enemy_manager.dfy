/** `EnemyManager` (Assets/Scripts/Enemy/EnemyManager.cs): how many enemies a
    room gets and where, the prefab table, and the list of tracked enemies.
    Prefabs and enemies are identified by numbers; an unassigned prefab field
    is `None`. */
module Spawning {
  import opened Wrappers
  import opened Rooms
  import Mathf

  datatype EnemyType = Basic | Shooter | Boss

  /** The three prefab fields of the manager. */
  datatype Prefabs = Prefabs(basic: Option<nat>, shooter: Option<nat>, boss: Option<nat>)

  /** The inspector settings: the prefabs and the per-room enemy range. */
  datatype Settings = Settings(prefabs: Prefabs, minEnemies: int, maxEnemies: int)

  /** One enemy placed by `SpawnEnemiesForRoom`: the spawn point it stands on
      and which of the two regular prefabs it was made from. */
  datatype Spawn = Spawn(point: nat, kind: EnemyType)

  /** The room after the call (`None` for a null room), the enemies placed,
      whether the "no spawn points" error was raised, and whether
      `Instantiate` threw on an unassigned prefab. The exception leaves the
      call at once: the enemies placed before it stay, and the room's counter
      is not set. */
  datatype SpawnResult = SpawnResult(room: Option<Room>, enemies: seq<Spawn>, missingSpawnPoints: bool, missingPrefab: bool)

  /** The prefab chosen for the `i`-th enemy: the basic one when the draw
      exceeds 0.3, the shooter otherwise. */
  function KindOf(draw: real): EnemyType
  {
    if draw > 0.3 then Basic else Shooter
  }

  /** The prefab field `Instantiate` receives for a draw. */
  function PrefabFor(p: Prefabs, draw: real): Option<nat>
  {
    GetEnemyPrefab(p, KindOf(draw))
  }

  /** The number of enemies a non-start room with spawn points receives. */
  function EnemyCount(room: Room, roll: int): nat
  {
    Mathf.Clamp(roll, 0, room.spawnPoints)
  }

  /** The loop of `SpawnEnemiesForRoom` throws: the room takes part in
      spawning and one of the enemies it is to receive draws an unassigned
      prefab. */
  predicate Throws(room: Room, s: Settings, roll: int, draws: seq<real>)
    requires |draws| >= room.spawnPoints
  {
    && !room.isStart && room.spawnPoints > 0
    && exists i :: 0 <= i < EnemyCount(room, roll) && PrefabFor(s.prefabs, draws[i]).None?
  }

  /** The first enemy, from `i` on and below `count`, whose prefab is
      unassigned. */
  function FirstMissing(p: Prefabs, draws: seq<real>, i: nat, count: nat): (r: Option<nat>)
    requires count <= |draws|
    ensures r.Some? ==> i <= r.value < count && PrefabFor(p, draws[r.value]).None?
    ensures r.Some? ==> forall j :: i <= j < r.value ==> PrefabFor(p, draws[j]).Some?
    ensures r.None? ==> forall j :: i <= j < count ==> PrefabFor(p, draws[j]).Some?
    decreases count - i
  {
    if i >= count then None
    else if PrefabFor(p, draws[i]).None? then Some(i)
    else FirstMissing(p, draws, i + 1, count)
  }

  /** `SpawnEnemiesForRoom`. `roll` is the `Random.Range(min, max + 1)` draw
      and `draws` the `Random.value` draws, one per enemy. The room's death
      handler is registered only on spawned objects that carry an `Enemy`
      component, but the room's counter is set to the number placed either
      way, unless `Instantiate` throws first on an unassigned prefab. */
  function SpawnEnemiesForRoom(room: Option<Room>, s: Settings, roll: int, draws: seq<real>): (r: SpawnResult)
    requires room.Some? ==> |draws| >= room.value.spawnPoints
    ensures room.None? || room.value.isStart ==> r == SpawnResult(room, [], false, false)
    ensures room.Some? && !room.value.isStart && room.value.spawnPoints == 0 ==> r == SpawnResult(room, [], true, false)
    ensures room.Some? ==> (r.missingPrefab <==> Throws(room.value, s, roll, draws))
    ensures room.Some? && !room.value.isStart && room.value.spawnPoints > 0 ==>
      && !r.missingSpawnPoints
      && |r.enemies| <= EnemyCount(room.value, roll) <= room.value.spawnPoints
      && (forall i :: 0 <= i < |r.enemies| ==>
            && r.enemies[i].point < room.value.spawnPoints && r.enemies[i].kind == KindOf(draws[i])
            && PrefabFor(s.prefabs, draws[i]).Some?)
      && (!r.missingPrefab ==>
            r.room == Some(room.value.(alive := |r.enemies|)) && |r.enemies| == EnemyCount(room.value, roll))
      && (r.missingPrefab ==>
            r.room == room && PrefabFor(s.prefabs, draws[|r.enemies|]).None?)
  {
    if room.None? || room.value.isStart then SpawnResult(room, [], false, false)
    else
      var points := room.value.spawnPoints;
      if points == 0 then SpawnResult(room, [], true, false)
      else
        var count := EnemyCount(room.value, roll);
        match FirstMissing(s.prefabs, draws, 0, count)
        case Some(f) => SpawnResult(room, Placed(f, points, draws), false, true)
        case None => SpawnResult(Some(room.value.(alive := count)), Placed(count, points, draws), false, false)
  }

  /** The `count` enemies of a room with `points` spawn points: enemy `i`
      stands on point `i % points` and is of the kind its draw selects. */
  function Placed(count: nat, points: nat, draws: seq<real>): (r: seq<Spawn>)
    requires points > 0 && count <= |draws|
    ensures |r| == count
    ensures forall i :: 0 <= i < count ==> r[i] == Spawn(i % points, KindOf(draws[i]))
  {
    seq(count, i requires 0 <= i < count => Spawn(i % points, KindOf(draws[i])))
  }

  lemma ModBelow(i: nat, n: nat)
    requires i < n
    ensures i % n == i
  {
  }

  /** Since at most as many enemies are placed as there are spawn points, the
      wrap-around index never wraps: enemy `i` stands on point `i` and no
      spawn point is used twice. */
  lemma SpawnPointsUsedOnce(room: Room, s: Settings, roll: int, draws: seq<real>)
    requires |draws| >= room.spawnPoints
    ensures var r := SpawnEnemiesForRoom(Some(room), s, roll, draws);
      (forall i :: 0 <= i < |r.enemies| ==> r.enemies[i].point == i)
      && forall i, j :: 0 <= i < j < |r.enemies| ==> r.enemies[i].point != r.enemies[j].point
  {
    var r := SpawnEnemiesForRoom(Some(room), s, roll, draws);
    if !room.isStart && room.spawnPoints > 0 {
      forall i | 0 <= i < |r.enemies| ensures r.enemies[i].point == i {
        ModBelow(i, room.spawnPoints);
      }
    }
  }

  /** With both regular prefabs assigned, spawning never throws. */
  lemma AssignedPrefabsNeverThrow(room: Room, s: Settings, roll: int, draws: seq<real>)
    requires |draws| >= room.spawnPoints
    requires s.prefabs.basic.Some? && s.prefabs.shooter.Some?
    ensures !SpawnEnemiesForRoom(Some(room), s, roll, draws).missingPrefab
  {
  }

  /** An unassigned basic prefab makes the very first spawn throw when its
      draw selects the basic enemy: nothing is placed and the room's counter
      keeps its value. */
  lemma UnassignedBasicPrefabThrows(room: Room)
    requires !room.isStart && room.spawnPoints == 1 && room.alive == 0
    ensures var r := SpawnEnemiesForRoom(Some(room), Settings(Prefabs(None, Some(1), None), 1, 1), 1, [0.5]);
      r.missingPrefab && r.enemies == [] && r.room == Some(room) && r.room.value.alive == 0
  {
    assert PrefabFor(Prefabs(None, Some(1), None), [0.5][0]).None?;
  }

  /** With a roll inside `[minEnemies, maxEnemies]` and a non-negative
      minimum, a spawn that does not throw places the roll capped by the
      number of spawn points. */
  lemma SpawnCountIsCappedRoll(room: Room, s: Settings, roll: int, draws: seq<real>)
    requires |draws| >= room.spawnPoints && !room.isStart && room.spawnPoints > 0
    requires 0 <= s.minEnemies <= roll <= s.maxEnemies
    requires !SpawnEnemiesForRoom(Some(room), s, roll, draws).missingPrefab
    ensures |SpawnEnemiesForRoom(Some(room), s, roll, draws).enemies| == Mathf.Min(roll, room.spawnPoints)
    ensures SpawnEnemiesForRoom(Some(room), s, roll, draws).room.value.alive >= Mathf.Min(s.minEnemies, room.spawnPoints)
  {
  }

  /** `GetEnemyPrefab`: the table holds every enemy type, so the lookup always
      finds its key and returns that type's field, assigned or not. */
  function GetEnemyPrefab(p: Prefabs, t: EnemyType): (r: Option<nat>)
    ensures r in {p.basic, p.shooter, p.boss}
    ensures r.None? <==> (t == Basic && p.basic.None?) || (t == Shooter && p.shooter.None?) || (t == Boss && p.boss.None?)
  {
    match t
    case Basic => p.basic
    case Shooter => p.shooter
    case Boss => p.boss
  }

  /** Distinct assigned prefabs make the table one-to-one: the prefab
      determines the type it was looked up for. */
  lemma GetEnemyPrefabInjective(p: Prefabs, t: EnemyType, u: EnemyType)
    requires p.basic.Some? && p.shooter.Some? && p.boss.Some?
    requires p.basic != p.shooter && p.shooter != p.boss && p.basic != p.boss
    ensures GetEnemyPrefab(p, t) == GetEnemyPrefab(p, u) <==> t == u
  {
  }

  /** `SpawnEnemy`: nothing happens when the type's prefab is unassigned;
      otherwise the new enemy `id` is appended to the active list. */
  function SpawnEnemy(active: seq<nat>, p: Prefabs, t: EnemyType, id: nat): (r: seq<nat>)
    ensures GetEnemyPrefab(p, t).None? ==> r == active
    ensures GetEnemyPrefab(p, t).Some? ==> |r| == |active| + 1 && r[..|active|] == active && r[|active|] == id
  {
    if GetEnemyPrefab(p, t).None? then active else active + [id]
  }

  /** `RemoveEnemy` (`List.Remove`): drops the first occurrence of `id`, if
      there is one. */
  function RemoveEnemy(active: seq<nat>, id: nat): (r: seq<nat>)
    ensures id !in active ==> r == active
    ensures id in active ==> |r| == |active| - 1
  {
    if |active| == 0 then active
    else
      assert active == [active[0]] + active[1..];
      if active[0] == id then active[1..]
      else [active[0]] + RemoveEnemy(active[1..], id)
  }

  /** Removal takes exactly one copy of `id` out of the tracked enemies and
      leaves every other enemy's count alone. */
  lemma {:induction false} RemoveEnemyTakesOne(active: seq<nat>, id: nat)
    ensures multiset(RemoveEnemy(active, id)) == multiset(active) - multiset{id}
  {
    if |active| > 0 {
      assert active == [active[0]] + active[1..];
      RemoveEnemyTakesOne(active[1..], id);
    }
  }

  /** The position of the first occurrence of `x`. */
  function IndexOf(s: seq<nat>, x: nat): (k: nat)
    requires x in s
    ensures k < |s| && s[k] == x && x !in s[..k]
  {
    if s[0] == x then 0
    else
      assert s[..IndexOf(s[1..], x) + 1] == [s[0]] + s[1..][..IndexOf(s[1..], x)];
      IndexOf(s[1..], x) + 1
  }

  /** The removal cuts out exactly the first occurrence; every other enemy
      keeps its relative order. */
  lemma RemoveEnemyCutsFirst(active: seq<nat>, id: nat)
    requires id in active
    ensures RemoveEnemy(active, id) == active[..IndexOf(active, id)] + active[IndexOf(active, id) + 1..]
  {
    var k := IndexOf(active, id);
    assert forall i :: 0 <= i < k ==> active[i] != id by {
      forall i | 0 <= i < k ensures active[i] != id {
        assert active[i] == active[..k][i];
      }
    }
    RemoveAt(active, id, k);
  }

  /** Removal cuts at `k` when `k` is the first position holding `id`. */
  lemma {:induction false} RemoveAt(active: seq<nat>, id: nat, k: nat)
    requires k < |active| && active[k] == id
    requires forall i :: 0 <= i < k ==> active[i] != id
    ensures RemoveEnemy(active, id) == active[..k] + active[k + 1..]
    decreases k
  {
    if k > 0 {
      var rest := active[1..];
      RemoveAt(rest, id, k - 1);
      assert active[..k] == [active[0]] + rest[..k - 1];
      assert active[k + 1..] == rest[k..];
    }
  }

  /** Spawning and then removing a new enemy restores the active list. */
  lemma RemoveUndoesSpawn(active: seq<nat>, p: Prefabs, t: EnemyType, id: nat)
    requires id !in active
    ensures RemoveEnemy(SpawnEnemy(active, p, t, id), id) == active
  {
    if GetEnemyPrefab(p, t).Some? {
      RemoveAppended(active, id);
    }
  }

  lemma {:induction false} RemoveAppended(active: seq<nat>, id: nat)
    requires id !in active
    ensures RemoveEnemy(active + [id], id) == active
  {
    if |active| > 0 {
      assert (active + [id])[1..] == active[1..] + [id];
      RemoveAppended(active[1..], id);
    }
  }

  /** `ClearAllEnemies`: every tracked enemy is destroyed and the list is
      emptied; the destroyed enemies are returned. */
  function ClearAllEnemies(active: seq<nat>): (r: (seq<nat>, seq<nat>))
    ensures r.0 == [] && multiset(r.1) == multiset(active)
  {
    ([], active)
  }
}
