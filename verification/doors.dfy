/** `Door` (Assets/Scripts/Object/Door.cs): a connection endpoint with a
    three-state machine, a direction tag, and the presentation flags that are
    a pure function of the state. */
module Doors {
  import opened Wrappers
  import opened Grid

  datatype DoorState = Unconnected | Locked | Unlocked

  /** A door's Unity tag: one of the four direction names, or any other tag. */
  datatype Tag = Tagged(dir: Direction) | Untagged

  /** Identity of a door in the dungeon: the index of the room that owns it
      and its slot in that room's `doors` array. Two door references denote
      the same object exactly when both indices agree. */
  datatype DoorRef = DoorRef(room: nat, slot: nat)

  /** The fields of a door that the core reads or writes. `connected` and
      `parent` are room indices (`connectedRoom`, `parentRoom`); `active` is
      the door object's `SetActive` flag. */
  datatype Door = Door(tag: Tag, state: DoorState, connected: Option<nat>, parent: Option<nat>, active: bool)

  /** A door without a connected room is `Unconnected`, and conversely. */
  predicate Consistent(d: Door)
  {
    d.state == Unconnected <==> d.connected.None?
  }

  /** The sprite shown by `UpdateDoorAppearance`. */
  datatype Skin = Hidden | LockedSkin | UnlockedSkin | BossLockedSkin | BossUnlockedSkin

  /** What `UpdateDoorAppearance` applies: the sprite and the two colliders. */
  datatype Appearance = Appearance(skin: Skin, wallCollider: bool, triggerCollider: bool)

  /** `UpdateDoorAppearance` as a function of the state and of whether the
      door belongs to, or leads to, the boss room. */
  function AppearanceOf(state: DoorState, bossDoor: bool): (a: Appearance)
    ensures a.wallCollider <==> state != Unlocked
    ensures a.triggerCollider <==> state == Unlocked
    ensures a.skin == Hidden <==> state == Unconnected
    ensures (a.skin == BossLockedSkin || a.skin == BossUnlockedSkin) <==> bossDoor && state != Unconnected
    ensures (a.skin == LockedSkin || a.skin == BossLockedSkin) <==> state == Locked
  {
    match state
    case Unconnected => Appearance(Hidden, true, false)
    case Locked => Appearance(if bossDoor then BossLockedSkin else LockedSkin, true, false)
    case Unlocked => Appearance(if bossDoor then BossUnlockedSkin else UnlockedSkin, false, true)
  }

  /** A door the player can walk through: its passage trigger is enabled. */
  predicate Passable(d: Door)
  {
    AppearanceOf(d.state, false).triggerCollider
  }

  /** `Lock`: always yields `Locked`, whatever the connection. */
  function Lock(d: Door): (r: Door)
    ensures r.state == Locked && !Passable(r)
    ensures AppearanceOf(r.state, false).wallCollider
    ensures r.(state := d.state) == d
  {
    d.(state := Locked)
  }

  /** `Unlock`: always yields `Unlocked`, whatever the connection. */
  function Unlock(d: Door): (r: Door)
    ensures r.state == Unlocked && Passable(r)
    ensures !AppearanceOf(r.state, false).wallCollider
    ensures r.(state := d.state) == d
  {
    d.(state := Unlocked)
  }

  /** `Initialize`: a door with no connected room is reset to `Unconnected`;
      a connected door keeps its state. */
  function Initialize(d: Door): (r: Door)
    ensures d.connected.None? ==> r.state == Unconnected
    ensures d.connected.Some? ==> r == d
    ensures r.(state := d.state) == d
  {
    if d.connected.None? then d.(state := Unconnected) else d
  }

  /** `ConnectRoom`: records the far room and derives the state from it. */
  function ConnectRoom(d: Door, room: Option<nat>): (r: Door)
    ensures r.connected == room
    ensures room.Some? ==> r.state == Unlocked
    ensures room.None? ==> r.state == Unconnected
    ensures Consistent(r)
    ensures r.(state := d.state, connected := d.connected) == d
  {
    d.(connected := room, state := if room.Some? then Unlocked else Unconnected)
  }

  /** Locking and unlocking overwrite each other: only the last one counts. */
  lemma LastWriteWins(d: Door)
    ensures Unlock(Lock(d)) == Unlock(d) && Lock(Unlock(d)) == Lock(d)
    ensures Lock(Lock(d)) == Lock(d) && Unlock(Unlock(d)) == Unlock(d)
  {
  }

  /** `Initialize` after `ConnectRoom` changes nothing: a freshly connected
      or disconnected door is already in its initial state. */
  lemma InitializeAfterConnect(d: Door, room: Option<nat>)
    ensures Initialize(ConnectRoom(d, room)) == ConnectRoom(d, room)
  {
  }

  /** `Initialize` keeps a consistent door consistent and is idempotent. */
  lemma InitializeKeepsConsistency(d: Door)
    ensures Consistent(d) ==> Consistent(Initialize(d))
    ensures Initialize(Initialize(d)) == Initialize(d)
  {
  }

  /** A room transition request: enter `target`, having come through `door`. */
  datatype EnterRequest = EnterRequest(target: nat, door: DoorRef)

  /** `OnTriggerEnter2D`: a transition is requested only for the player, only
      through an unlocked connected door, and only when the room manager
      exists; the door passes itself as the entered door. */
  function OnTriggerEnter(d: Door, self: DoorRef, isPlayer: bool, managerExists: bool): (r: Option<EnterRequest>)
    ensures r.Some? <==> isPlayer && d.state == Unlocked && d.connected.Some? && managerExists
    ensures r.Some? ==> r.value == EnterRequest(d.connected.value, self)
  {
    if isPlayer && d.state == Unlocked && d.connected.Some? && managerExists then
      Some(EnterRequest(d.connected.value, self))
    else
      None
  }

  /** Only a passable door ever requests a transition: the trigger guard
      agrees with the trigger collider that `UpdateDoorAppearance` enables. */
  lemma TriggerOnlyThroughPassableDoor(d: Door, self: DoorRef, isPlayer: bool, managerExists: bool, bossDoor: bool)
    requires OnTriggerEnter(d, self, isPlayer, managerExists).Some?
    ensures Passable(d) && AppearanceOf(d.state, bossDoor).triggerCollider
    ensures !AppearanceOf(d.state, bossDoor).wallCollider
  {
  }

  /** `ValidateDoorOrientation`: a direction tag is kept; any other tag is
      replaced by one derived from the door's offset from its parent (only the
      signs matter: y first, then x); a zero offset leaves the tag as it was. */
  function ValidateOrientation(tag: Tag, offsetX: int, offsetY: int): (r: Tag)
    ensures tag.Tagged? ==> r == tag
    ensures r.Tagged? <==> tag.Tagged? || offsetX != 0 || offsetY != 0
    ensures tag.Untagged? && r.Tagged? ==>
      match r.dir
      case North => offsetY > 0
      case South => offsetY < 0
      case East => offsetY == 0 && offsetX > 0
      case West => offsetY == 0 && offsetX < 0
  {
    if tag.Tagged? then tag
    else if offsetY > 0 then Tagged(North)
    else if offsetY < 0 then Tagged(South)
    else if offsetX > 0 then Tagged(East)
    else if offsetX < 0 then Tagged(West)
    else tag
  }

  /** A validated tag is stable: validating again changes nothing. */
  lemma ValidateIdempotent(tag: Tag, offsetX: int, offsetY: int)
    ensures ValidateOrientation(ValidateOrientation(tag, offsetX, offsetY), offsetX, offsetY)
         == ValidateOrientation(tag, offsetX, offsetY)
  {
  }
}
