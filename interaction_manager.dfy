/** The E-key interaction of src/interactionManager.cpp: the first map
    object in reach of the player decides what happens (a door or a
    terminal is hacked, a box hides the player, a disguise disguises the
    player) and nothing further is looked at, whatever that object is. */
module InteractionManager {
  import opened Geometry
  import opened Wrappers
  import P = Player

  /** Reach: the player's bounds overlap the object's sprite bounds, or the
      two positions are less than 30 units apart. */
  predicate InRange(playerPos: Vec2, obj: GameObject)
  {
    Intersects(P.Bounds(playerPos), obj.bounds) || DistSq(playerPos, obj.pos) < 30.0 * 30.0
  }

  /** The index of the first object in reach, if any. */
  function FirstInRange(playerPos: Vec2, objects: seq<GameObject>): (r: Option<nat>)
    ensures r.Some? ==> r.value < |objects| && InRange(playerPos, objects[r.value])
    ensures r.Some? ==> forall j | 0 <= j < r.value :: !InRange(playerPos, objects[j])
    ensures r.None? <==> forall j | 0 <= j < |objects| :: !InRange(playerPos, objects[j])
  {
    if objects == [] then None
    else if InRange(playerPos, objects[0]) then Some(0)
    else match FirstInRange(playerPos, objects[1..])
      case None => None
      case Some(i) => Some(i + 1)
  }

  /** The player action an object category triggers. */
  datatype Action = DoHack | DoHide | DoDisguise

  function ActionFor(kind: ObjectType): Option<Action>
  {
    match kind
    case Door => Some(DoHack)
    case Terminal => Some(DoHack)
    case Box => Some(DoHide)
    case Disguise => Some(DoDisguise)
    case _ => None
  }

  /** Every action has a clock to read. */
  predicate Ready(s: P.Status)
  {
    P.HasClock(s, P.HackKey) && P.HasClock(s, P.HideKey) && P.HasClock(s, P.DisguiseKey)
  }

  function Perform(s: P.Status, a: Action, now: real): P.Status
    requires Ready(s)
  {
    match a
    case DoHack => P.HackEffect(s, now)
    case DoHide => P.HideEffect(s, now)
    case DoDisguise => P.DisguiseEffect(s, now)
  }

  /** The player's status after E is pressed at `playerPos`. */
  function Interact(s: P.Status, playerPos: Vec2, objects: seq<GameObject>, now: real): P.Status
    requires Ready(s)
  {
    match FirstInRange(playerPos, objects)
    case None => s
    case Some(i) =>
      match ActionFor(objects[i].kind)
      case None => s
      case Some(a) => Perform(s, a, now)
  }

  /** At most one action is performed per press, and it is the one of the
      first object in reach. */
  lemma {:induction false} AtMostOneAction(s: P.Status, playerPos: Vec2, objects: seq<GameObject>, now: real)
    requires Ready(s)
    ensures var r := Interact(s, playerPos, objects, now);
      r == s || r == P.HackEffect(s, now) || r == P.HideEffect(s, now) || r == P.DisguiseEffect(s, now)
    ensures forall i | 0 <= i < |objects| && FirstInRange(playerPos, objects) == Some(i) && ActionFor(objects[i].kind).Some? ::
      Interact(s, playerPos, objects, now) == Perform(s, ActionFor(objects[i].kind).value, now)
  {
    match FirstInRange(playerPos, objects)
    case None =>
    case Some(i) =>
      match ActionFor(objects[i].kind)
      case None =>
      case Some(a) =>
  }

  /** An inert object in reach ahead of a door in the object list makes the
      press do nothing, although the door is in reach too. */
  lemma InertObjectFirstBlocks(s: P.Status, playerPos: Vec2, wall: GameObject, door: GameObject, now: real)
    requires Ready(s)
    requires wall.kind == Wall && door.kind == Door
    requires InRange(playerPos, wall) && InRange(playerPos, door)
    ensures Interact(s, playerPos, [wall, door], now) == s
  {
  }

  /** No object in reach: nothing happens. */
  lemma NothingInReach(s: P.Status, playerPos: Vec2, objects: seq<GameObject>, now: real)
    requires Ready(s)
    requires forall j | 0 <= j < |objects| :: !InRange(playerPos, objects[j])
    ensures Interact(s, playerPos, objects, now) == s
  {
  }

  /** InteractionManager::handle, with the state of the E key as a parameter. */
  method Handle(player: P.Player, objects: seq<GameObject>, ePressed: bool, now: real)
    requires Ready(player.State())
    modifies player
    ensures player.State() == (if ePressed then Interact(old(player.State()), old(player.position), objects, now)
                               else old(player.State()))
    ensures player.position == old(player.position)
  {
    if !ePressed {
      return;
    }
    for i := 0 to |objects|
      invariant player.State() == old(player.State()) && player.position == old(player.position)
      invariant forall j | 0 <= j < i :: !InRange(player.position, objects[j])
    {
      if Intersects(P.Bounds(player.position), objects[i].bounds)
         || DistSq(player.position, objects[i].pos) < 30.0 * 30.0 {
        assert FirstInRange(player.position, objects) == Some(i) by {
          FirstInRangeIs(player.position, objects, i);
        }
        match objects[i].kind {
          case Door => player.Hack(now);
          case Box => player.Hide(now);
          case Disguise => player.Disguise(now);
          case Terminal => player.Hack(now);
          case _ =>
        }
        return;
      }
    }
  }

  /** The first object in reach is the one the scan stops at. */
  lemma FirstInRangeIs(playerPos: Vec2, objects: seq<GameObject>, i: nat)
    requires i < |objects| && InRange(playerPos, objects[i])
    requires forall j | 0 <= j < i :: !InRange(playerPos, objects[j])
    ensures FirstInRange(playerPos, objects) == Some(i)
  {
  }
}
