/** The heart display (Assets/Scripts/HealthBar.cs): one UI piece per point
    of health, alternating left and right halves of a heart, the first
    `current` of them filled. The bar may be linked to the player's health
    component, whose numbers then take precedence when the bar is rebuilt. */
module HealthDisplay {
  import opened Wrappers
  import Mathf
  import Player

  /** One half-heart: which half it draws, and whether its filled image is
      shown (the outline always is). */
  datatype Piece = Piece(isLeft: bool, filled: bool)

  /** The bar's fields; `linked` is the `playerHealth` reference. */
  datatype HealthBar = HealthBar(linked: Option<Player.PlayerHealth>, max: int, current: int, initialized: bool, pieces: seq<Piece>)

  /** Whether piece `i` is filled for health `current`, computed as the source
      does from whole hearts (`current / 2`) and a leftover half
      (`current % 2`) with C#'s truncating operators. It is exactly the
      first `current` pieces, for every integer `current`. */
  function ShouldShowFilled(i: nat, current: int): (r: bool)
    ensures r <==> i < current
  {
    var heart := i / 2;
    var fullHearts := Mathf.Div2(current);
    var halfHeart := Mathf.Rem2(current);
    heart < fullHearts || (heart == fullHearts && i % 2 == 0 && halfHeart > 0)
  }

  /** `UpdateHealthDisplay`: nothing before the bar is initialised; then each
      piece is filled exactly when its index is below the current health. */
  function UpdateHealthDisplay(hb: HealthBar): (r: HealthBar)
    ensures !hb.initialized ==> r == hb
    ensures r.(pieces := hb.pieces) == hb && |r.pieces| == |hb.pieces|
    ensures hb.initialized ==> forall k :: 0 <= k < |r.pieces| ==>
      r.pieces[k].isLeft == hb.pieces[k].isLeft && (r.pieces[k].filled <==> k < hb.current)
  {
    if !hb.initialized then hb
    else
      var shown := seq(|hb.pieces|, k requires 0 <= k < |hb.pieces| => hb.pieces[k].(filled := ShouldShowFilled(k, hb.current)));
      hb.(pieces := shown)
  }

  /** `InitializeHealthBar`: nothing once initialised. Otherwise the numbers
      are taken from the linked player, if any, and the pieces are rebuilt
      from the prefab, one per point of health, left halves at even indices.
      The display refresh inside runs while the bar is still uninitialised
      and so does nothing: every new piece keeps the prefab's fill,
      `prefabFilled`. */
  function InitializeHealthBar(hb: HealthBar, prefabFilled: bool): (r: HealthBar)
    ensures hb.initialized ==> r == hb
    ensures !hb.initialized ==>
      && r.initialized && r.linked == hb.linked
      && (hb.linked.Some? ==> r.max == hb.linked.value.max && r.current == hb.linked.value.current)
      && (hb.linked.None? ==> r.max == hb.max && r.current == hb.current)
      && |r.pieces| == Mathf.Max(r.max, 0)
      && forall k :: 0 <= k < |r.pieces| ==> r.pieces[k] == Piece(k % 2 == 0, prefabFilled)
  {
    if hb.initialized then hb
    else
      var synced := if hb.linked.Some? then hb.(max := hb.linked.value.max, current := hb.linked.value.current) else hb;
      var count := Mathf.Max(synced.max, 0);
      var built := synced.(pieces := seq(count, k requires 0 <= k < count => Piece(k % 2 == 0, prefabFilled)));
      UpdateHealthDisplay(built).(initialized := true)
  }

  /** `SetHealth(health)`: the health is clamped into `[0, max]` and shown. */
  function SetHealth(hb: HealthBar, health: int): (r: HealthBar)
    ensures r.current == Mathf.Clamp(health, 0, hb.max)
    ensures hb.max >= 0 ==> 0 <= r.current <= r.max
    ensures r.(pieces := hb.pieces, current := hb.current) == hb
  {
    UpdateHealthDisplay(hb.(current := Mathf.Clamp(health, 0, hb.max)))
  }

  /** `SetMaxHealth(max)`: at least one point, the health lowered to fit, and
      the bar rebuilt. When the bar is linked the rebuild then replaces both
      numbers by the player's. */
  function SetMaxHealth(hb: HealthBar, max: int, prefabFilled: bool): (r: HealthBar)
    ensures r.initialized && r.linked == hb.linked
    ensures hb.linked.None? ==> r.max == Mathf.Max(max, 1) && r.current == Mathf.Min(hb.current, r.max)
    ensures hb.linked.Some? ==> r.max == hb.linked.value.max && r.current == hb.linked.value.current
    ensures |r.pieces| == Mathf.Max(r.max, 0)
  {
    var m := Mathf.Max(max, 1);
    InitializeHealthBar(hb.(max := m, current := Mathf.Min(hb.current, m), initialized := false), prefabFilled)
  }

  /** The bar shows its own numbers: initialised, one piece per point of
      health, halves alternating from the left, the first `current`
      filled. */
  predicate Shows(hb: HealthBar)
  {
    && hb.initialized
    && |hb.pieces| == Mathf.Max(hb.max, 0)
    && forall k :: 0 <= k < |hb.pieces| ==> (hb.pieces[k].isLeft <==> k % 2 == 0) && (hb.pieces[k].filled <==> k < hb.current)
  }

  /** `HandleHealthChanged(current, max)`: the maximum first, then the
      health. Afterwards the bar shows what it holds; unlinked, that is the
      notified numbers brought into range; linked, the player's maximum and
      the notified health clamped to it. */
  function HandleHealthChanged(hb: HealthBar, current: int, max: int, prefabFilled: bool): (r: HealthBar)
    ensures Shows(r) && r.linked == hb.linked
    ensures hb.linked.None? ==> r.max == Mathf.Max(max, 1) && r.current == Mathf.Clamp(current, 0, r.max)
    ensures hb.linked.Some? ==> r.max == hb.linked.value.max && r.current == Mathf.Clamp(current, 0, r.max)
  {
    SetHealth(SetMaxHealth(hb, max, prefabFilled), current)
  }

  /** `Start`: link to the player found in the scene if none is assigned,
      build the bar, and, when linked, show the player's numbers at once. */
  function Start(hb: HealthBar, found: Option<Player.PlayerHealth>, prefabFilled: bool): (r: HealthBar)
    ensures r.linked == (if hb.linked.Some? then hb.linked else found)
    ensures r.initialized
    ensures r.linked.Some? ==> Shows(r) && r.max == r.linked.value.max && r.current == Mathf.Clamp(r.linked.value.current, 0, r.max)
  {
    var withLink := if hb.linked.None? then hb.(linked := found) else hb;
    var built := InitializeHealthBar(withLink, prefabFilled);
    if built.linked.Some? then HandleHealthChanged(built, built.linked.value.current, built.linked.value.max, prefabFilled)
    else built
  }

  /** The number of filled pieces. */
  function FilledCount(pieces: seq<Piece>): nat
  {
    if |pieces| == 0 then 0
    else FilledCount(pieces[..|pieces| - 1]) + if pieces[|pieces| - 1].filled then 1 else 0
  }

  /** When exactly the pieces below `current` are filled, the number filled is
      `current` cut into `[0, |pieces|]`. */
  lemma {:induction false} FilledPrefixCount(pieces: seq<Piece>, current: int)
    requires forall k :: 0 <= k < |pieces| ==> (pieces[k].filled <==> k < current)
    ensures FilledCount(pieces) == Mathf.Min(Mathf.Max(current, 0), |pieces|)
    decreases |pieces|
  {
    if |pieces| > 0 {
      var front := pieces[..|pieces| - 1];
      assert forall k :: 0 <= k < |front| ==> front[k] == pieces[k];
      FilledPrefixCount(front, current);
    }
  }

  /** A bar that shows a health within its maximum has exactly that many
      filled halves among its `max` pieces. */
  lemma ShownCountIsHealth(hb: HealthBar)
    requires Shows(hb) && 0 <= hb.current <= hb.max
    ensures |hb.pieces| == hb.max && FilledCount(hb.pieces) == hb.current
  {
    FilledPrefixCount(hb.pieces, hb.current);
  }

  /** A bar linked to the player, notified by any health operation of the
      player, ends up with one piece per point of the player's maximum and
      exactly the player's health filled. */
  lemma NotifiedBarShowsPlayer(hb: HealthBar, o: Player.Outcome, prefabFilled: bool)
    requires Player.Healthy(o.p) && |o.changes| > 0
    requires o.changes[|o.changes| - 1] == Player.Change(o.p.current, o.p.max)
    ensures var r := HandleHealthChanged(hb.(linked := Some(o.p)), o.p.current, o.p.max, prefabFilled);
      |r.pieces| == o.p.max && FilledCount(r.pieces) == o.p.current
  {
    var r := HandleHealthChanged(hb.(linked := Some(o.p)), o.p.current, o.p.max, prefabFilled);
    ShownCountIsHealth(r);
  }

  /** In particular, after a hit the linked bar loses exactly the halves the
      player lost. */
  lemma HitShownOnBar(hb: HealthBar, p: Player.PlayerHealth, prefs: Player.Prefs, prefabFilled: bool)
    requires Player.Healthy(p) && !p.invincible
    ensures var o := Player.TakeDamage(p, prefs);
      var r := HandleHealthChanged(hb.(linked := Some(o.p)), o.p.current, o.p.max, prefabFilled);
      FilledCount(r.pieces) == Mathf.Clamp(p.current - p.damage, 0, p.max)
  {
    NotifiedBarShowsPlayer(hb, Player.TakeDamage(p, prefs), prefabFilled);
  }
}
