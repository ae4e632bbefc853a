/** The player's health (Assets/Scripts/Player/PlayerHealth.cs): a pool of
    half-hearts bounded by a maximum, a fixed damage per hit, a short
    invincibility after each hit, and persistence of both numbers in
    `PlayerPrefs`. Every change raises `OnHealthChanged(current, max)`. */
module Player {
  import opened Wrappers
  import Mathf

  /** The component's fields: the damage one hit deals, the maximum, the
      current health, and whether the invincibility window is open. */
  datatype PlayerHealth = PlayerHealth(damage: int, max: int, current: int, invincible: bool)

  /** The two `PlayerPrefs` keys the component reads and writes
      (`"PlayerHealth"` and `"MaxHealth"`); `None` is a key never written. */
  datatype Prefs = Prefs(health: Option<int>, maxHealth: Option<int>)

  /** One `OnHealthChanged(current, max)` notification. */
  datatype Change = Change(current: int, max: int)

  /** The component and the store after an operation, the notifications it
      raised, and whether `Die` ran. */
  datatype Outcome = Outcome(p: PlayerHealth, prefs: Prefs, changes: seq<Change>, died: bool)

  /** Health within its bounds. */
  predicate Healthy(p: PlayerHealth)
  {
    0 <= p.current <= p.max
  }

  /** Both numbers are stored exactly as the component holds them. */
  predicate Saved(p: PlayerHealth, prefs: Prefs)
  {
    prefs == Prefs(Some(p.current), Some(p.max))
  }

  /** `LoadPlayerHealth` (run from `Awake`): each number is read back from the
      store, a missing key keeping the maximum the component already has. */
  function Load(p: PlayerHealth, prefs: Prefs): (r: PlayerHealth)
    ensures r.damage == p.damage && r.invincible == p.invincible
    ensures prefs.health.Some? ==> r.current == prefs.health.value
    ensures prefs.maxHealth.Some? ==> r.max == prefs.maxHealth.value
    ensures prefs.health.None? ==> r.current == p.max
    ensures prefs.maxHealth.None? ==> r.max == p.max
  {
    p.(current := prefs.health.GetOr(p.max), max := prefs.maxHealth.GetOr(p.max))
  }

  /** Loading what was saved gives the component back. */
  lemma LoadRestoresSaved(p: PlayerHealth, q: PlayerHealth, prefs: Prefs)
    requires Saved(p, prefs) && q.damage == p.damage && q.invincible == p.invincible
    ensures Load(q, prefs) == p
  {
  }

  /** `Start`: the saved maximum is loaded (the saved health is read but then
      overwritten), the player starts at full health, and one notification
      is raised. Nothing is written to the store. */
  function Start(p: PlayerHealth, prefs: Prefs): (r: Outcome)
    ensures Healthy(r.p) <==> r.p.max >= 0
    ensures r.p.max == (if prefs.maxHealth.Some? then prefs.maxHealth.value else p.max)
    ensures r.p.current == r.p.max && r.p.damage == p.damage && r.p.invincible == p.invincible
    ensures r.prefs == prefs && r.changes == [Change(r.p.max, r.p.max)] && !r.died
  {
    var loaded := Load(p, prefs);
    var full := loaded.(current := loaded.max);
    Outcome(full, prefs, [Change(full.current, full.max)], false)
  }

  /** What `Awake` loads is overwritten by `Start`: starting from the loaded
      component or from the fresh one gives the same player. */
  lemma StartOverridesAwake(p: PlayerHealth, prefs: Prefs)
    ensures Start(Load(p, prefs), prefs) == Start(p, prefs)
  {
  }

  /** `TakeDamage`: ignored while invincible. Otherwise the health drops by
      `damage`, clamped into `[0, max]`; the change is announced; the
      invincibility window opens at once (the coroutine runs up to its first
      wait before `TakeDamage` goes on); `Die` runs exactly when the health
      is then at most zero; and both numbers are saved. */
  function TakeDamage(p: PlayerHealth, prefs: Prefs): (r: Outcome)
    ensures p.invincible ==> r == Outcome(p, prefs, [], false)
    ensures !p.invincible ==>
      && r.p == p.(current := Mathf.Clamp(p.current - p.damage, 0, p.max), invincible := true)
      && r.changes == [Change(r.p.current, r.p.max)]
      && (r.died <==> r.p.current <= 0)
      && Saved(r.p, r.prefs)
    ensures Healthy(p) ==> Healthy(r.p)
    ensures Healthy(p) && p.damage >= 0 ==> r.p.current <= p.current
    ensures Healthy(p) && !p.invincible ==> (r.died <==> p.current <= p.damage || p.max == 0)
  {
    if p.invincible then Outcome(p, prefs, [], false)
    else
      var hurt := p.(current := Mathf.Clamp(p.current - p.damage, 0, p.max), invincible := true);
      Outcome(hurt, Prefs(Some(hurt.current), Some(hurt.max)), [Change(hurt.current, hurt.max)], hurt.current <= 0)
  }

  /** The end of the `InvincibilityFrame` coroutine, `invincibleDuration`
      seconds after the hit. */
  function EndInvincibility(p: PlayerHealth): (r: PlayerHealth)
    ensures !r.invincible && r.(invincible := p.invincible) == p
  {
    p.(invincible := false)
  }

  /** A second hit inside the invincibility window changes nothing: the
      player takes at most one hit per window. */
  lemma HitsInsideWindowAreIgnored(p: PlayerHealth, prefs: Prefs)
    ensures var o := TakeDamage(p, prefs);
      TakeDamage(o.p, o.prefs) == Outcome(o.p, o.prefs, [], false)
  {
  }

  /** `Heal(amount)`: the health rises by `amount`, clamped into `[0, max]`;
      the change is announced and only the health is saved. */
  function Heal(p: PlayerHealth, prefs: Prefs, amount: int): (r: Outcome)
    ensures r.p == p.(current := Mathf.Clamp(p.current + amount, 0, p.max))
    ensures r.prefs == prefs.(health := Some(r.p.current))
    ensures r.changes == [Change(r.p.current, r.p.max)] && !r.died
    ensures Healthy(p) ==> Healthy(r.p)
    ensures Healthy(p) && amount >= 0 ==> p.current <= r.p.current
    ensures Saved(p, prefs) ==> Saved(r.p, r.prefs)
  {
    var healed := p.(current := Mathf.Clamp(p.current + amount, 0, p.max));
    Outcome(healed, prefs.(health := Some(healed.current)), [Change(healed.current, healed.max)], false)
  }

  /** `IncreaseMaxHealth(amount)`: the maximum grows by `amount` and the
      player is refilled to it; the change is announced and only the maximum
      is saved, so the stored health keeps its older value. */
  function IncreaseMaxHealth(p: PlayerHealth, prefs: Prefs, amount: int): (r: Outcome)
    ensures r.p.max == p.max + amount && r.p.current == r.p.max
    ensures r.p.damage == p.damage && r.p.invincible == p.invincible
    ensures r.prefs == prefs.(maxHealth := Some(r.p.max))
    ensures r.changes == [Change(r.p.max, r.p.max)] && !r.died
    ensures Healthy(r.p) <==> p.max + amount >= 0
  {
    var grown := p.(max := p.max + amount);
    var full := grown.(current := grown.max);
    Outcome(full, prefs.(maxHealth := Some(full.max)), [Change(full.current, full.max)], false)
  }

  /** Reloading after `IncreaseMaxHealth` restores the new maximum, but the
      health comes back as whatever was saved before the increase. */
  lemma ReloadAfterIncrease(p: PlayerHealth, prefs: Prefs, amount: int)
    requires Saved(p, prefs)
    ensures var o := IncreaseMaxHealth(p, prefs, amount);
      Load(o.p, o.prefs).max == o.p.max && Load(o.p, o.prefs).current == p.current
  {
  }

  /** What can happen to the player while the game runs. */
  datatype Action = Hit | HealBy(amount: int) | Grow(amount: int) | Recover

  function Apply(p: PlayerHealth, prefs: Prefs, a: Action): Outcome
  {
    match a
    case Hit => TakeDamage(p, prefs)
    case HealBy(n) => Heal(p, prefs, n)
    case Grow(n) => IncreaseMaxHealth(p, prefs, n)
    case Recover => Outcome(EndInvincibility(p), prefs, [], false)
  }

  /** The player after a run of actions, and every notification raised. */
  function Run(p: PlayerHealth, prefs: Prefs, actions: seq<Action>): (r: Outcome)
    decreases |actions|
  {
    if |actions| == 0 then Outcome(p, prefs, [], false)
    else
      var o := Apply(p, prefs, actions[0]);
      var rest := Run(o.p, o.prefs, actions[1..]);
      Outcome(rest.p, rest.prefs, o.changes + rest.changes, o.died || rest.died)
  }

  /** Health stays within `[0, max]` over any run in which the maximum never
      shrinks, and every notification carries numbers within bounds. */
  lemma {:induction false} RunKeepsHealthy(p: PlayerHealth, prefs: Prefs, actions: seq<Action>)
    requires Healthy(p)
    requires forall i :: 0 <= i < |actions| && actions[i].Grow? ==> actions[i].amount >= 0
    ensures Healthy(Run(p, prefs, actions).p)
    ensures forall i :: 0 <= i < |Run(p, prefs, actions).changes| ==>
      0 <= Run(p, prefs, actions).changes[i].current <= Run(p, prefs, actions).changes[i].max
    decreases |actions|
  {
    if |actions| > 0 {
      var o := Apply(p, prefs, actions[0]);
      assert Healthy(o.p) && (o.changes == [] || o.changes == [Change(o.p.current, o.p.max)]);
      RunKeepsHealthy(o.p, o.prefs, actions[1..]);
    }
  }
}
