/** The enemy base class (Assets/Scripts/Enemy/Enemy.cs): a five-state
    machine driven by the distance to the player, a real-valued health pool,
    and a death event that fires at most once. */
module Enemies {

  datatype EnemyState = Idle | Chase | Attack | Retreat | Dead

  /** The fields the state machine reads and writes. */
  datatype Enemy = Enemy(state: EnemyState, health: real, maxHealth: real, attackRange: real, chaseRange: real)

  /** `Start`: the enemy begins at full health. */
  function Start(e: Enemy): (r: Enemy)
    ensures r.health == e.maxHealth && r.(health := e.health) == e
  {
    e.(health := e.maxHealth)
  }

  /** One `Update` with the current distance to the player. A dead enemy does
      nothing; an idle one starts chasing within `chaseRange`; a chasing one
      attacks within `attackRange` and gives up beyond `chaseRange`; an
      attacking one resumes the chase beyond `attackRange`; the base retreat
      handler does nothing. Only the state changes, and never to `Dead`. */
  function Update(e: Enemy, distance: real): (r: Enemy)
    ensures r.(state := e.state) == e
    ensures r.state == Dead <==> e.state == Dead
    ensures e.state == Dead || e.state == Retreat ==> r == e
    ensures e.state == Idle ==> (r.state == Chase <==> distance <= e.chaseRange) && (r.state == Idle <==> distance > e.chaseRange)
    ensures e.state == Chase ==>
      && (r.state == Attack <==> distance <= e.attackRange)
      && (r.state == Idle <==> e.attackRange < distance && e.chaseRange < distance)
      && (r.state == Chase <==> e.attackRange < distance <= e.chaseRange)
    ensures e.state == Attack ==> (r.state == Chase <==> distance > e.attackRange) && (r.state == Attack <==> distance <= e.attackRange)
  {
    match e.state
    case Dead => e
    case Idle => if distance <= e.chaseRange then e.(state := Chase) else e
    case Chase =>
      if distance <= e.attackRange then e.(state := Attack)
      else if distance > e.chaseRange then e.(state := Idle)
      else e
    case Attack => if distance > e.attackRange then e.(state := Chase) else e
    case Retreat => e
  }

  /** With the usual ranges (attack range inside chase range), an enemy that
      stays at one distance settles after at most two updates. */
  lemma UpdateSettles(e: Enemy, distance: real)
    requires e.attackRange <= e.chaseRange
    ensures Update(Update(Update(e, distance), distance), distance) == Update(Update(e, distance), distance)
  {
  }

  /** The result of one `TakeDamage`: the enemy afterwards, whether `OnHit`
      fired, and whether `OnDeath` fired. */
  datatype Hit = Hit(enemy: Enemy, hitFired: bool, deathFired: bool)

  /** `Die`: the state becomes `Dead` before `OnDeath` is invoked. */
  function Die(e: Enemy): (r: Hit)
    ensures r.enemy.state == Dead && r.deathFired
    ensures r.enemy.(state := e.state) == e
  {
    Hit(e.(state := Dead), true, true)
  }

  /** `TakeDamage(damage)`: nothing once dead; otherwise health drops by
      exactly `damage`, `OnHit` fires, and the enemy dies exactly when its
      health is then at most zero. */
  function TakeDamage(e: Enemy, damage: real): (r: Hit)
    ensures e.state == Dead ==> r == Hit(e, false, false)
    ensures e.state != Dead ==>
      && r.hitFired
      && r.enemy.health == e.health - damage
      && (r.deathFired <==> e.health - damage <= 0.0)
      && (r.enemy.state == Dead <==> r.deathFired)
      && (!r.deathFired ==> r.enemy.state == e.state)
  {
    if e.state == Dead then Hit(e, false, false)
    else
      var hurt := e.(health := e.health - damage);
      if hurt.health <= 0.0 then Hit(Die(hurt).enemy, true, true) else Hit(hurt, true, false)
  }

  /** Something that happens to an enemy: a frame at some distance, or a hit. */
  datatype Event = Frame(distance: real) | Damage(amount: real)

  /** The enemy after a run of events, and how many times `OnDeath` fired. */
  function Run(e: Enemy, events: seq<Event>): (r: (Enemy, nat))
    decreases |events|
  {
    if |events| == 0 then (e, 0)
    else
      match events[0]
      case Frame(d) => Run(Update(e, d), events[1..])
      case Damage(a) =>
        var h := TakeDamage(e, a);
        var rest := Run(h.enemy, events[1..]);
        (rest.0, rest.1 + if h.deathFired then 1 else 0)
  }

  /** `Dead` is absorbing and `OnDeath` fires at most once over any run, and
      never for an enemy that is already dead. */
  lemma {:induction false} DeathAtMostOnce(e: Enemy, events: seq<Event>)
    ensures Run(e, events).1 <= 1
    ensures e.state == Dead ==> Run(e, events) == (e, 0)
    ensures Run(e, events).1 == 1 ==> Run(e, events).0.state == Dead
    ensures Run(e, events).0.state == Dead <==> e.state == Dead || Run(e, events).1 == 1
    decreases |events|
  {
    if |events| > 0 {
      match events[0]
      case Frame(d) =>
        DeathAtMostOnce(Update(e, d), events[1..]);
      case Damage(a) =>
        var h := TakeDamage(e, a);
        DeathAtMostOnce(h.enemy, events[1..]);
    }
  }
}
