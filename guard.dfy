/** The guard of src/guard.cpp: a patrol / alert / chase / search state
    machine with timed transitions, a sight test against walls and boxes, and
    a patrol rule that reverses on collisions and at the ends of its beat.

    Clocks are readings of one time line: each sf::Clock is the time `now`
    at which it was last restarted, and its elapsed time is `now` minus that.
    The C maths functions (hypot, sqrt, acos, cos, sin) are a parameter that
    obeys their defining laws over the reals. */
module Guard {
  import opened Geometry
  import opened Wrappers
  import Pathfinder

  datatype GuardState = Patrolling | Alerted | Chasing | Searching

  datatype SearchPhase = LookAround | Wander | ReturnToPatrol

  /** The maths library calls of the guard. */
  datatype Maths = Maths(hypot: (real, real) -> real, acos: real -> real,
                         cos: real -> real, sin: real -> real, pi: real)

  /** What the sight proofs need of the library: dividing a nonzero vector
      by its hypot gives a vector of length one, acos(1) is 0, and pi is
      positive. */
  ghost predicate Lawful(m: Maths)
  {
    m.pi > 0.0 && m.acos(1.0) == 0.0 &&
    forall a: real, b: real {:trigger m.hypot(a, b)} :: m.hypot(a, b) != 0.0 ==>
      Vec2(a, b).Div(m.hypot(a, b)).Dot(Vec2(a, b).Div(m.hypot(a, b))) == 1.0
  }

  /** std::clamp. */
  function Clamp(v: real, lo: real, hi: real): real
  {
    if v < lo then lo else if hi < v then hi else v
  }

  /** The angle in degrees between a facing and a unit direction, as canSeePlayer computes it. */
  function AngleDeg(m: Maths, facing: Vec2, dir: Vec2): real
    requires m.pi != 0.0
  {
    m.acos(Clamp(facing.Dot(dir), -1.0, 1.0)) * 180.0 / m.pi
  }

  const Radius: real := 10.0
  const PatrolViewDistance: real := 100.0
  const ChaseViewDistance: real := 115.0
  const ChaseSpeed: real := 0.2
  const SearchSpeed: real := 0.08
  const LookAroundSeconds: real := 2.0
  const HomeRadius: real := 50.0
  const SightStep: real := 5.0

  /** The global bounds of the guard's circle at `pos` (origin at the top
      left corner), idealised as the full square of side 2 * Radius; the
      30-point polygon that draws the circle is slightly narrower. */
  function Bounds(pos: Vec2): Rect
  {
    Rect(pos.x, pos.y, 2.0 * Radius, 2.0 * Radius)
  }

  // ---------------------------------------------------------------
  // Sight
  // ---------------------------------------------------------------

  /** Only walls and boxes block the line of sight. */
  predicate Occludes(ob: GameObject)
  {
    ob.kind == Wall || ob.kind == Box
  }

  /** The 2 by 2 probe rectangle at a sampled point meets an occluding obstacle. */
  ghost predicate PointBlocked(p: Vec2, obstacles: seq<GameObject>)
  {
    exists i | 0 <= i < |obstacles| :: Occludes(obstacles[i]) && Intersects(obstacles[i].bounds, Rect(p.x, p.y, 2.0, 2.0))
  }

  /** The `k`-th sample along the sight line: `t` advances from 0 in steps of 5. */
  function Sample(pos: Vec2, dir: Vec2, k: nat): Vec2
  {
    pos.Plus(dir.Scale(SightStep * k as real))
  }

  /** No sample strictly before `distance` is blocked. */
  ghost predicate SightClear(pos: Vec2, dir: Vec2, distance: real, obstacles: seq<GameObject>)
  {
    forall k: nat :: SightStep * k as real < distance ==> !PointBlocked(Sample(pos, dir, k), obstacles)
  }

  /** The sight test as evidently intended: the player is within view
      distance, at a nonzero distance (a zero distance makes the direction
      NaN, and every comparison with NaN fails), no sample on the way is
      blocked, and the direction to the player lies within half the field of
      view of the guard's facing. */
  ghost predicate Visible(m: Maths, pos: Vec2, facing: Vec2, target: Vec2, obstacles: seq<GameObject>,
                          viewDistance: real, fieldOfView: real)
    requires m.pi != 0.0
  {
    var to := target.Minus(pos);
    var d := m.hypot(to.x, to.y);
    d <= viewDistance && d != 0.0 && SightClear(pos, to.Div(d), d, obstacles) &&
    AngleDeg(m, facing, to.Div(d)) <= fieldOfView / 2.0
  }

  /** A vector divided by its norm; the zero vector is left as it is. */
  function Unit(m: Maths, v: Vec2): Vec2
  {
    var d := m.hypot(v.x, v.y);
    if d == 0.0 then v else v.Div(d)
  }

  /** The unit direction from `pos` to `target` (the zero vector when they coincide). */
  function DirTo(m: Maths, pos: Vec2, target: Vec2): Vec2
  {
    Unit(m, target.Minus(pos))
  }

  /** The sight test as written: the facing is overwritten with the direction
      to the player before the angle is measured. */
  ghost predicate VisibleAsWritten(m: Maths, pos: Vec2, target: Vec2, obstacles: seq<GameObject>,
                                   viewDistance: real, fieldOfView: real)
    requires m.pi != 0.0
  {
    Visible(m, pos, DirTo(m, pos, target), target, obstacles, viewDistance, fieldOfView)
  }

  /** The sight test update() runs: canSeePlayer as written, or, when
      `corrected`, the test as evidently intended. */
  ghost predicate Sees(corrected: bool, m: Maths, pos: Vec2, facing: Vec2, target: Vec2,
                       obstacles: seq<GameObject>, viewDistance: real, fieldOfView: real)
    requires m.pi != 0.0
  {
    if corrected then Visible(m, pos, facing, target, obstacles, viewDistance, fieldOfView)
    else VisibleAsWritten(m, pos, target, obstacles, viewDistance, fieldOfView)
  }

  /** The facing a sight test leaves: canSeePlayer as written turns the guard
      towards the player as soon as the range and the line of sight pass,
      whatever the angle; the corrected test turns it only when the player is
      seen. Otherwise the facing is kept. */
  ghost function SightFacing(corrected: bool, m: Maths, pos: Vec2, facing: Vec2, target: Vec2,
                             obstacles: seq<GameObject>, viewDistance: real, fieldOfView: real): Vec2
    requires m.pi != 0.0
  {
    var to := target.Minus(pos);
    var d := m.hypot(to.x, to.y);
    if corrected then
      (if Visible(m, pos, facing, target, obstacles, viewDistance, fieldOfView) then DirTo(m, pos, target) else facing)
    else if d <= viewDistance && d != 0.0 && SightClear(pos, to.Div(d), d, obstacles) then to.Div(d)
    else facing
  }

  /** Because the facing is turned to the player before the angle is taken,
      the angle is always 0 and the field of view never rejects anything:
      the test reduces to range, nonzero distance and a clear line. */
  lemma FieldOfViewIgnored(m: Maths, pos: Vec2, target: Vec2, obstacles: seq<GameObject>,
                           viewDistance: real, fieldOfView: real)
    requires Lawful(m)
    ensures var to := target.Minus(pos);
      var d := m.hypot(to.x, to.y);
      VisibleAsWritten(m, pos, target, obstacles, viewDistance, fieldOfView) <==>
      d <= viewDistance && d != 0.0 && SightClear(pos, to.Div(d), d, obstacles) && fieldOfView >= 0.0
  {
    var to := target.Minus(pos);
    var d := m.hypot(to.x, to.y);
    if d != 0.0 {
      var dir := to.Div(d);
      assert DirTo(m, pos, target) == dir;
      assert Clamp(dir.Dot(dir), -1.0, 1.0) == 1.0;
      assert AngleDeg(m, dir, dir) == 0.0;
    }
  }

  /** Measuring from the old facing only removes sightings: whatever the
      corrected test sees, the test as written sees too. */
  lemma CorrectedNarrows(m: Maths, pos: Vec2, facing: Vec2, target: Vec2, obstacles: seq<GameObject>,
                         viewDistance: real, fieldOfView: real)
    requires Lawful(m)
    requires forall c: real :: -1.0 <= c <= 1.0 ==> m.acos(c) >= 0.0
    ensures Visible(m, pos, facing, target, obstacles, viewDistance, fieldOfView) ==>
      VisibleAsWritten(m, pos, target, obstacles, viewDistance, fieldOfView)
  {
    if Visible(m, pos, facing, target, obstacles, viewDistance, fieldOfView) {
      var to := target.Minus(pos);
      var c := Clamp(facing.Dot(to.Div(m.hypot(to.x, to.y))), -1.0, 1.0);
      assert m.acos(c) >= 0.0;
      assert m.acos(c) * 180.0 / m.pi >= 0.0;
      FieldOfViewIgnored(m, pos, target, obstacles, viewDistance, fieldOfView);
    }
  }

  /** With the facing tested before it is overwritten, a guard facing right
      does not see a player 50 units straight behind it with a 90 degree
      field of view. Only the library values at hand are needed. */
  lemma BehindNotSeen(m: Maths)
    requires m.pi > 0.0 && m.hypot(-50.0, 0.0) == 50.0 && m.acos(-1.0) == m.pi
    ensures !Visible(m, Vec2(0.0, 0.0), Vec2(1.0, 0.0), Vec2(-50.0, 0.0), [], 100.0, 90.0)
  {
    var right := Vec2(1.0, 0.0);
    OppositeAngle(m, right);
    assert right.Neg() == Vec2(-1.0, 0.0);
    assert AngleDeg(m, right, Vec2(-1.0, 0.0)) == 180.0;
    VisibleWithinHalfView(m, Vec2(0.0, 0.0), Vec2(1.0, 0.0), Vec2(-50.0, 0.0), [], 100.0, 90.0);
  }

  /** A visible target lies within half the field of view of the facing. */
  lemma VisibleWithinHalfView(m: Maths, pos: Vec2, facing: Vec2, target: Vec2, obstacles: seq<GameObject>,
                              viewDistance: real, fieldOfView: real)
    requires m.pi != 0.0
    ensures Visible(m, pos, facing, target, obstacles, viewDistance, fieldOfView) ==>
      AngleDeg(m, facing, DirTo(m, pos, target)) <= fieldOfView / 2.0
  {
  }

  /** A unit facing and its opposite direction are 180 degrees apart. */
  lemma OppositeAngle(m: Maths, u: Vec2)
    requires m.pi > 0.0 && m.acos(-1.0) == m.pi
    requires u.Dot(u) == 1.0
    ensures AngleDeg(m, u, u.Neg()) == 180.0
  {
    assert u.Dot(u.Neg()) == -u.Dot(u);
    assert Clamp(u.Dot(u.Neg()), -1.0, 1.0) == -1.0;
    HalfTurn(m.pi);
  }

  /** As written, the same player straight behind the guard is seen. */
  lemma BehindSeenAsWritten(m: Maths)
    requires m.pi > 0.0 && m.hypot(-50.0, 0.0) == 50.0 && m.acos(1.0) == 0.0
    ensures VisibleAsWritten(m, Vec2(0.0, 0.0), Vec2(-50.0, 0.0), [], 100.0, 90.0)
  {
    var to := Vec2(-50.0, 0.0).Minus(Vec2(0.0, 0.0));
    assert to == Vec2(-50.0, 0.0);
    var dir := to.Div(m.hypot(to.x, to.y));
    assert dir == Vec2(-1.0, 0.0);
    assert DirTo(m, Vec2(0.0, 0.0), Vec2(-50.0, 0.0)) == dir;
    assert Clamp(dir.Dot(dir), -1.0, 1.0) == 1.0;
    assert AngleDeg(m, dir, dir) == 0.0;
    assert SightClear(Vec2(0.0, 0.0), dir, 50.0, []);
  }

  /** Through update(): a patrolling guard facing right, with the player 50
      units straight behind it, is alerted by the test as written and keeps
      patrolling with the corrected one. */
  lemma BehindAlertsOnlyAsWritten(m: Maths, c: Control, touching: bool, now: real,
                                  alertDuration: real, searchDuration: real)
    requires m.pi > 0.0 && m.hypot(-50.0, 0.0) == 50.0 && m.acos(1.0) == 0.0 && m.acos(-1.0) == m.pi
    requires c.state == Patrolling
    ensures var sees := VisibleAsWritten(m, Vec2(0.0, 0.0), Vec2(-50.0, 0.0), [], 100.0, 90.0);
      Step(c, sees, false, touching, Vec2(-50.0, 0.0), now, alertDuration, searchDuration).0 == c.(state := Alerted)
    ensures var sees := Visible(m, Vec2(0.0, 0.0), Vec2(1.0, 0.0), Vec2(-50.0, 0.0), [], 100.0, 90.0);
      Step(c, sees, false, touching, Vec2(-50.0, 0.0), now, alertDuration, searchDuration).0 == c
  {
    BehindSeenAsWritten(m);
    BehindNotSeen(m);
  }

  /** pi radians are 180 degrees. */
  lemma HalfTurn(pi: real)
    requires pi != 0.0
    ensures pi * 180.0 / pi == 180.0
  {
  }

  // ---------------------------------------------------------------
  // The state machine
  // ---------------------------------------------------------------

  /** The discrete part of the guard: state, search phase, the two
      "clock started" flags, the two clock restart times and the last known
      player position. */
  datatype Control = Control(state: GuardState, phase: SearchPhase,
                             searchClockStarted: bool, alertClockStarted: bool,
                             searchClockStart: real, alertClockStart: real,
                             lastKnown: Vec2)

  /** Starts a clock that is not running yet. */
  function StartSearchClock(c: Control, now: real): Control
  {
    if c.searchClockStarted then c else c.(searchClockStart := now, searchClockStarted := true)
  }

  /** The phase logic of search(): LookAround lasts until its clock passes two
      seconds, Wander until it passes the search duration, and ReturnToPatrol
      always ends the search. */
  function SearchStep(c: Control, now: real, searchDuration: real): Control
  {
    match c.phase
    case LookAround =>
      var s := StartSearchClock(c, now);
      if now - s.searchClockStart > LookAroundSeconds then s.(phase := Wander, searchClockStart := now) else s
    case Wander =>
      var s := StartSearchClock(c, now);
      if now - s.searchClockStart > searchDuration then s.(phase := ReturnToPatrol, searchClockStart := now) else s
    case ReturnToPatrol =>
      c.(state := Patrolling, phase := LookAround, searchClockStarted := false)
  }

  /** Losing the player: remember where they were and start a fresh search. */
  function LoseSight(c: Control, playerPos: Vec2): Control
  {
    c.(lastKnown := playerPos, phase := LookAround, searchClockStarted := false, state := Searching)
  }

  /** One tick of update(): the new control state and whether the player was
      captured. `sees` is the first sight test, `seesAfter` the one after the
      search step, `touching` whether the guard's bounds meet the player's. */
  function Step(c: Control, sees: bool, seesAfter: bool, touching: bool, playerPos: Vec2, now: real,
                alertDuration: real, searchDuration: real): (Control, bool)
  {
    match c.state
    case Patrolling =>
      (if sees then c.(state := Alerted) else c, false)
    case Alerted =>
      if !sees then
        (LoseSight(c, playerPos).(alertClockStarted := false), false)
      else
        var a := if c.alertClockStarted then c else c.(alertClockStart := now, alertClockStarted := true);
        (if now - a.alertClockStart >= alertDuration then a.(alertClockStarted := false, state := Chasing) else a, false)
    case Chasing =>
      if !sees then (LoseSight(c, playerPos), false)
      else if touching then (c, true)
      else (c.(state := Chasing), false)
    case Searching =>
      var s := SearchStep(c, now, searchDuration);
      (if seesAfter then s.(state := Alerted, alertClockStart := now) else s, false)
  }

  /** The search timeline: LookAround lasts until its clock has run for more
      than two seconds, Wander until it has run for more than the search
      duration (each phase change restarts the clock), and ReturnToPatrol
      ends the search with the guard patrolling and the search clock
      stopped. The alert clock and the last known position are untouched. */
  lemma SearchStepSpec(c: Control, now: real, searchDuration: real)
    ensures var r := SearchStep(c, now, searchDuration);
      var elapsed := now - StartSearchClock(c, now).searchClockStart;
      (c.phase == LookAround ==> (r.phase == Wander <==> elapsed > LookAroundSeconds) &&
                                 (r.phase == LookAround <==> elapsed <= LookAroundSeconds)) &&
      (c.phase == Wander ==> (r.phase == ReturnToPatrol <==> elapsed > searchDuration) &&
                             (r.phase == Wander <==> elapsed <= searchDuration)) &&
      (c.phase == ReturnToPatrol ==> r.state == Patrolling && r.phase == LookAround && !r.searchClockStarted) &&
      (c.phase != ReturnToPatrol ==> r.state == c.state && r.searchClockStarted &&
                                     (r.phase != c.phase ==> r.searchClockStart == now)) &&
      r.alertClockStarted == c.alertClockStarted && r.alertClockStart == c.alertClockStart &&
      r.lastKnown == c.lastKnown
  {
  }

  /** The transitions of one tick: only a chasing guard that sees and
      touches the player captures them; a patrolling guard becomes alerted
      exactly when it sees the player; an alerted or chasing guard that loses
      sight starts searching from the player's current position; an alerted
      guard that keeps seeing the player starts chasing once its alert clock,
      started on the first such tick, has run for the alert duration; a
      searching guard that sees the player again is alerted. */
  lemma StepSpec(c: Control, sees: bool, seesAfter: bool, touching: bool, playerPos: Vec2, now: real,
                 alertDuration: real, searchDuration: real)
    ensures var (r, captured) := Step(c, sees, seesAfter, touching, playerPos, now, alertDuration, searchDuration);
      (captured <==> c.state == Chasing && sees && touching) &&
      (c.state == Patrolling ==> r == c.(state := if sees then Alerted else Patrolling)) &&
      (c.state in {Alerted, Chasing} && !sees ==>
         r.state == Searching && r.phase == LookAround && !r.searchClockStarted && r.lastKnown == playerPos) &&
      (c.state == Alerted && sees ==>
         var start := if c.alertClockStarted then c.alertClockStart else now;
         r.alertClockStart == start &&
         (r.state == Chasing <==> now - start >= alertDuration) &&
         (r.state == Alerted <==> now - start < alertDuration) &&
         (r.alertClockStarted <==> r.state == Alerted)) &&
      (c.state == Chasing && sees ==> r == c) &&
      (c.state == Searching ==> (r.state == Alerted <==> seesAfter))
  {
  }

  /** What every reachable control state satisfies: a patrolling guard has no
      search or alert clock running and is at the start of a search, and the
      alert clock runs only while alerted. */
  ghost predicate Settled(c: Control)
  {
    (c.state == Patrolling ==> c.phase == LookAround && !c.searchClockStarted && !c.alertClockStarted) &&
    (c.alertClockStarted ==> c.state == Alerted)
  }

  /** Every tick keeps the guard settled. */
  lemma StepKeepsSettled(c: Control, sees: bool, seesAfter: bool, touching: bool, playerPos: Vec2, now: real,
                         alertDuration: real, searchDuration: real)
    requires Settled(c)
    ensures Settled(Step(c, sees, seesAfter, touching, playerPos, now, alertDuration, searchDuration).0)
  {
    if c.state == Searching {
      var s := SearchStep(c, now, searchDuration);
      assert !s.alertClockStarted;
    }
  }

  /** Entering the search from any other state starts it afresh: phase
      LookAround, its clock not started, and the last known position is the
      player's current one. */
  lemma EnteringSearchResets(c: Control, sees: bool, seesAfter: bool, touching: bool, playerPos: Vec2, now: real,
                             alertDuration: real, searchDuration: real)
    requires Settled(c) && c.state != Searching
    ensures var r := Step(c, sees, seesAfter, touching, playerPos, now, alertDuration, searchDuration).0;
      r.state == Searching ==> r.phase == LookAround && !r.searchClockStarted && r.lastKnown == playerPos &&
                               !r.alertClockStarted && !sees
  {
  }

  // ---------------------------------------------------------------
  // Patrol
  // ---------------------------------------------------------------

  /** The obstacle loop of patrol(): each obstacle the guard touches steps it
      back by its velocity and reverses the velocity; later obstacles see the
      updated position. */
  function PatrolScan(pos: Vec2, vel: Vec2, obstacles: seq<GameObject>): (Vec2, Vec2)
    decreases |obstacles|
  {
    if obstacles == [] then (pos, vel)
    else if Intersects(Bounds(pos), obstacles[0].bounds) then PatrolScan(pos.Minus(vel), vel.Neg(), obstacles[1..])
    else PatrolScan(pos, vel, obstacles[1..])
  }

  /** The scan only ever undoes or redoes the last step: it ends either where
      it started with the same velocity, or one velocity back with the
      velocity reversed. */
  lemma {:induction false} PatrolScanAlternates(pos: Vec2, vel: Vec2, obstacles: seq<GameObject>)
    decreases |obstacles|
    ensures var r := PatrolScan(pos, vel, obstacles);
      r == (pos, vel) || r == (pos.Minus(vel), vel.Neg())
    ensures (forall i | 0 <= i < |obstacles| :: !Intersects(Bounds(pos), obstacles[i].bounds)) ==>
      PatrolScan(pos, vel, obstacles) == (pos, vel)
  {
    if obstacles != [] {
      var rest := obstacles[1..];
      if Intersects(Bounds(pos), obstacles[0].bounds) {
        PatrolScanAlternates(pos.Minus(vel), vel.Neg(), rest);
        assert pos.Minus(vel).Minus(vel.Neg()) == pos && vel.Neg().Neg() == vel;
      } else {
        PatrolScanAlternates(pos, vel, rest);
        assert forall i | 0 <= i < |rest| :: rest[i] == obstacles[i + 1];
      }
    }
  }

  /** The guard at `pos` touches one of the obstacles. */
  predicate Blocked(pos: Vec2, obstacles: seq<GameObject>)
  {
    exists i | 0 <= i < |obstacles| :: Intersects(Bounds(pos), obstacles[i].bounds)
  }

  /** One step of `speed` along `dir`, stepped back by `back` along `dir`
      when the guard then touches an obstacle. */
  function Moved(pos: Vec2, dir: Vec2, speed: real, back: real, obstacles: seq<GameObject>): Vec2
  {
    var p := pos.Plus(dir.Scale(speed));
    if Blocked(p, obstacles) then p.Minus(dir.Scale(back)) else p
  }

  /** The end-of-beat rule: the horizontal velocity flips when the position
      after the move is left of 100 or right of 500. */
  function BeatTurn(moved: Vec2, vel: Vec2): Vec2
  {
    if moved.x < 100.0 || moved.x > 500.0 then Vec2(-vel.x, vel.y) else vel
  }

  /** One step along a findPath route from `from` to `target`: a route
      exists exactly when both cells are walkable and connected; without one
      the guard stays put with facing `facing0`; with one it faces the first
      waypoint (kept when `turnOnlyIfMoving` and already there) and moves by
      `speed`, stepping back by `back` on touching an obstacle. */
  ghost predicate Advanced(m: Maths, pf: Pathfinder.PathFinder, from: Vec2, facing0: Vec2, target: Vec2,
                           obstacles: seq<GameObject>, speed: real, back: real, turnOnlyIfMoving: bool,
                           path: seq<Vec2>, pos: Vec2, facing: Vec2)
    requires pf.Valid()
  {
    var s, e := pf.CellOf(from), pf.CellOf(target);
    (path != [] <==> pf.Walkable(s) && pf.Walkable(e) && pf.Reachable(s, e)) &&
    (path == [] ==> pos == from && facing == facing0) &&
    (path != [] ==>
       var to := path[0].Minus(from);
       pos == Moved(from, Unit(m, to), speed, back, obstacles) &&
       facing == (if turnOnlyIfMoving && m.hypot(to.x, to.y) == 0.0 then facing0 else Unit(m, to)))
  }

  /** How one tick of update() moves the guard from (pos0, vel0, facing0,
      view0) to (pos, vel, facing, view), given its control state `c`, the
      first sight test's answer `seen`, whether it touched the player, and
      the route findPath gave the move, if any:
      - patrolling and seeing: nothing moves;
      - patrolling and not seeing: patrol(), with view distance 100 and the
        facing along the new velocity;
      - alerted: nothing moves;
      - chasing: a chase step with view distance 115 when seeing and not
        touching, otherwise nothing moves;
      - searching: the search step leaves the facing `facingBefore` (the
        sweep while looking around, with the guard kept in place; a step
        towards the last known position otherwise), and the second sight
        test then leaves `facing`. */
  ghost predicate TickMotion(m: Maths, pf: Pathfinder.PathFinder, c: Control, seen: bool, touching: bool,
                             playerPos: Vec2, obstacles: seq<GameObject>, now: real, corrected: bool,
                             fieldOfView: real, pos0: Vec2, vel0: Vec2, facing0: Vec2, view0: real,
                             route: seq<Vec2>, facingBefore: Vec2, pos: Vec2, vel: Vec2, facing: Vec2, view: real)
    requires m.pi != 0.0 && pf.Valid()
  {
    match c.state
    case Patrolling =>
      if seen then pos == pos0 && vel == vel0 && facing == facing0 && view == view0
      else
        var scanned := PatrolScan(pos0.Plus(vel0), vel0, obstacles);
        pos == scanned.0 && vel == BeatTurn(pos0.Plus(vel0), scanned.1) &&
        facing == (if vel == Vec2(0.0, 0.0) then facing0 else Unit(m, vel)) && view == PatrolViewDistance
    case Alerted =>
      pos == pos0 && vel == vel0 && facing == facing0 && view == view0
    case Chasing =>
      vel == vel0 &&
      if seen && !touching then
        view == ChaseViewDistance &&
        Advanced(m, pf, pos0, facing0, playerPos, obstacles, ChaseSpeed, ChaseSpeed, true, route, pos, facing)
      else pos == pos0 && facing == facing0 && view == view0
    case Searching =>
      var t := now - StartSearchClock(c, now).searchClockStart;
      vel == vel0 && view == view0 &&
      (c.phase == LookAround ==> pos == pos0 && facingBefore == Vec2(m.cos(t * 2.0), m.sin(t * 2.0))) &&
      (c.phase != LookAround ==>
         Advanced(m, pf, pos0, facing0, c.lastKnown, obstacles, SearchSpeed, 1.0, false, route, pos, facingBefore)) &&
      facing == SightFacing(corrected, m, pos, facingBefore, playerPos, obstacles, view, fieldOfView)
  }

  // ---------------------------------------------------------------
  // The guard
  // ---------------------------------------------------------------

  class Guard {
    var position: Vec2
    var velocity: Vec2
    var facing: Vec2
    var viewDistance: real
    var state: GuardState
    var phase: SearchPhase
    var searchClockStarted: bool
    var alertClockStarted: bool
    var searchClockStart: real
    var alertClockStart: real
    var lastKnownPlayerPosition: Vec2
    const initialPosition: Vec2
    const alertDuration: real
    const searchDuration: real
    const fieldOfView: real

    function Ctl(): Control
      reads this
    {
      Control(state, phase, searchClockStarted, alertClockStarted, searchClockStart, alertClockStart,
              lastKnownPlayerPosition)
    }

    /** Guard(): at (400, 150), patrolling to the right at 0.1 per tick and
        facing along that velocity; both clocks start now. */
    constructor(alertDuration: real, searchDuration: real, fieldOfView: real, viewDistance: real, now: real)
      ensures position == Vec2(400.0, 150.0) && initialPosition == position
      ensures velocity == Vec2(0.1, 0.0) && facing == velocity
      ensures state == Patrolling && Settled(Ctl())
      ensures this.alertDuration == alertDuration && this.searchDuration == searchDuration
      ensures this.fieldOfView == fieldOfView && this.viewDistance == viewDistance
    {
      position := Vec2(400.0, 150.0);
      state := Patrolling;
      velocity := Vec2(0.1, 0.0);
      facing := Vec2(0.1, 0.0);
      initialPosition := Vec2(400.0, 150.0);
      phase := LookAround;
      searchClockStarted := false;
      alertClockStarted := false;
      searchClockStart := now;
      alertClockStart := now;
      lastKnownPlayerPosition := Vec2(0.0, 0.0);
      this.alertDuration := alertDuration;
      this.searchDuration := searchDuration;
      this.fieldOfView := fieldOfView;
      this.viewDistance := viewDistance;
    }

    /** checkCollision over a list, stopping at the first obstacle that meets the guard. */
    method Collides(obstacles: seq<GameObject>) returns (hit: bool)
      ensures hit <==> Blocked(position, obstacles)
    {
      for i := 0 to |obstacles|
        invariant forall j | 0 <= j < i :: !Intersects(Bounds(position), obstacles[j].bounds)
      {
        if Intersects(Bounds(position), obstacles[i].bounds) {
          return true;
        }
      }
      return false;
    }

    /** The sampling loop of canSeePlayer: walks from `position` towards the
        player in steps of 5 and fails at the first sample whose probe meets
        a wall or a box. */
    method SampleSight(dir: Vec2, distance: real, obstacles: seq<GameObject>) returns (clear: bool)
      ensures clear <==> SightClear(position, dir, distance, obstacles)
    {
      var t := 0.0;
      ghost var k: nat := 0;
      while t < distance
        invariant t == SightStep * k as real
        invariant forall j: nat | j < k :: !PointBlocked(Sample(position, dir, j), obstacles)
        decreases (distance - t).Floor
      {
        var point := position.Plus(dir.Scale(t));
        assert point == Sample(position, dir, k);
        for i := 0 to |obstacles|
          invariant forall j | 0 <= j < i :: !(Occludes(obstacles[j]) && Intersects(obstacles[j].bounds, Rect(point.x, point.y, 2.0, 2.0)))
        {
          var ob := obstacles[i];
          if ob.kind == Wall || ob.kind == Box {
            if Intersects(ob.bounds, Rect(point.x, point.y, 2.0, 2.0)) {
              assert PointBlocked(Sample(position, dir, k), obstacles);
              return false;
            }
          }
        }
        t, k := t + SightStep, k + 1;
      }
      forall j: nat | SightStep * j as real < distance
        ensures !PointBlocked(Sample(position, dir, j), obstacles)
      {
        assert j < k;
      }
      return true;
    }

    /** canSeePlayer as written: range check, sampling loop, then the facing
        is turned towards the player and only then compared with the field of
        view. */
    method CanSeePlayer(m: Maths, playerPos: Vec2, obstacles: seq<GameObject>) returns (visible: bool)
      requires m.pi != 0.0
      modifies this
      ensures visible == VisibleAsWritten(m, old(position), playerPos, obstacles, viewDistance, fieldOfView)
      ensures var to := playerPos.Minus(position);
        var d := m.hypot(to.x, to.y);
        facing == (if d <= viewDistance && d != 0.0 && SightClear(position, to.Div(d), d, obstacles)
                   then to.Div(d) else old(facing))
      ensures position == old(position) && Ctl() == old(Ctl()) && velocity == old(velocity)
      ensures viewDistance == old(viewDistance)
    {
      var toPlayer := playerPos.Minus(position);
      var distance := m.hypot(toPlayer.x, toPlayer.y);
      if distance > viewDistance {
        return false;
      }
      if distance == 0.0 {
        return false;
      }
      var dir := toPlayer.Div(distance);
      var clear := SampleSight(dir, distance, obstacles);
      if !clear {
        return false;
      }
      facing := dir;
      var dot := Clamp(facing.Dot(dir), -1.0, 1.0);
      var angle := m.acos(dot) * 180.0 / m.pi;
      visible := angle <= fieldOfView / 2.0;
      assert DirTo(m, position, playerPos) == dir;
    }

    /** canSeePlayer corrected: the angle is measured from the facing the guard
        had, and the guard turns towards the player only once it has seen them. */
    method CanSeePlayerCorrected(m: Maths, playerPos: Vec2, obstacles: seq<GameObject>) returns (visible: bool)
      requires m.pi != 0.0
      modifies this
      ensures visible == Visible(m, position, old(facing), playerPos, obstacles, viewDistance, fieldOfView)
      ensures facing == (if visible then DirTo(m, position, playerPos) else old(facing))
      ensures position == old(position) && Ctl() == old(Ctl()) && velocity == old(velocity)
      ensures viewDistance == old(viewDistance)
    {
      var toPlayer := playerPos.Minus(position);
      var distance := m.hypot(toPlayer.x, toPlayer.y);
      if distance > viewDistance {
        return false;
      }
      if distance == 0.0 {
        return false;
      }
      var dir := toPlayer.Div(distance);
      var clear := SampleSight(dir, distance, obstacles);
      if !clear {
        return false;
      }
      var dot := Clamp(facing.Dot(dir), -1.0, 1.0);
      var angle := m.acos(dot) * 180.0 / m.pi;
      visible := angle <= fieldOfView / 2.0;
      if visible {
        facing := dir;
      }
    }

    /** One sight test: canSeePlayer as written, or the corrected one. */
    method Look(m: Maths, playerPos: Vec2, obstacles: seq<GameObject>, corrected: bool) returns (visible: bool)
      requires m.pi != 0.0
      modifies this
      ensures visible == Sees(corrected, m, position, old(facing), playerPos, obstacles, viewDistance, fieldOfView)
      ensures facing == SightFacing(corrected, m, position, old(facing), playerPos, obstacles, viewDistance, fieldOfView)
      ensures position == old(position) && Ctl() == old(Ctl()) && velocity == old(velocity)
      ensures viewDistance == old(viewDistance)
    {
      if corrected {
        visible := CanSeePlayerCorrected(m, playerPos, obstacles);
      } else {
        visible := CanSeePlayer(m, playerPos, obstacles);
      }
    }

    /** The obstacle loop of patrol(), on the guard's own position and velocity. */
    method PatrolObstacles(obstacles: seq<GameObject>)
      modifies this
      ensures (position, velocity) == PatrolScan(old(position), old(velocity), obstacles)
      ensures facing == old(facing) && viewDistance == old(viewDistance) && Ctl() == old(Ctl())
    {
      for i := 0 to |obstacles|
        invariant PatrolScan(old(position), old(velocity), obstacles) == PatrolScan(position, velocity, obstacles[i..])
        invariant facing == old(facing) && viewDistance == old(viewDistance) && Ctl() == old(Ctl())
      {
        assert obstacles[i..][1..] == obstacles[i + 1..];
        if Intersects(Bounds(position), obstacles[i].bounds) {
          position := position.Minus(velocity);
          velocity := velocity.Neg();
        }
      }
      assert obstacles[|obstacles|..] == [];
    }

    /** patrol(): view distance 100, one step along the velocity, the
        collision scan, the end-of-beat turn, and the facing along the new
        velocity. */
    method Patrol(m: Maths, obstacles: seq<GameObject>)
      modifies this
      ensures var scanned := PatrolScan(old(position).Plus(old(velocity)), old(velocity), obstacles);
        position == scanned.0 && velocity == BeatTurn(old(position).Plus(old(velocity)), scanned.1)
      ensures facing == (if velocity == Vec2(0.0, 0.0) then old(facing) else Unit(m, velocity))
      ensures viewDistance == PatrolViewDistance && Ctl() == old(Ctl())
    {
      viewDistance := PatrolViewDistance;
      position := position.Plus(velocity);
      var pos := position;
      PatrolObstacles(obstacles);
      if pos.x < 100.0 || pos.x > 500.0 {
        velocity := Vec2(-velocity.x, velocity.y);
      }
      if velocity != Vec2(0.0, 0.0) {
        facing := velocity;
        var len := m.hypot(facing.x, facing.y);
        if len != 0.0 {
          facing := facing.Div(len);
        }
      }
    }

    /** The movement shared by chase and the two moving search phases: head
        for the first waypoint of a route from findPath, step by `speed`, and
        on touching an obstacle step back by `back` times the direction. The
        route is returned so that callers can speak about it. */
    method Advance(m: Maths, pf: Pathfinder.PathFinder, target: Vec2, obstacles: seq<GameObject>,
                   speed: real, back: real, turnOnlyIfMoving: bool)
      returns (path: seq<Vec2>)
      requires pf.Valid()
      modifies this
      ensures Advanced(m, pf, old(position), old(facing), target, obstacles, speed, back, turnOnlyIfMoving,
                       path, position, facing)
      ensures Ctl() == old(Ctl()) && velocity == old(velocity) && viewDistance == old(viewDistance)
    {
      ghost var walk;
      path, walk := Pathfinder.FindPath(pf, position, target);
      if path != [] {
        var direction := path[0].Minus(position);
        var length := m.hypot(direction.x, direction.y);
        if length != 0.0 {
          direction := direction.Div(length);
        }
        if length != 0.0 || !turnOnlyIfMoving {
          facing := direction;
        }
        var movement := direction.Scale(speed);
        position := position.Plus(movement);
        var hit := Collides(obstacles);
        if hit {
          position := position.Minus(direction.Scale(back));
        }
      }
    }

    /** chase(): view distance 115, state Chasing, and one step of 0.2 along
        the findPath `route` to the player, undone on touching an obstacle. */
    method Chase(m: Maths, pf: Pathfinder.PathFinder, playerPos: Vec2, obstacles: seq<GameObject>)
      returns (ghost route: seq<Vec2>)
      requires pf.Valid()
      modifies this
      ensures Ctl() == old(Ctl()).(state := Chasing)
      ensures viewDistance == ChaseViewDistance && velocity == old(velocity)
      ensures Advanced(m, pf, old(position), old(facing), playerPos, obstacles, ChaseSpeed, ChaseSpeed, true,
                       route, position, facing)
    {
      viewDistance := ChaseViewDistance;
      state := Chasing;
      route := Advance(m, pf, playerPos, obstacles, ChaseSpeed, ChaseSpeed, true);
    }

    /** search(): the phase logic of SearchStep, with the look-around sweep of
        the facing, and steps of 0.08 towards the last known player position
        while wandering and returning along the findPath `route` (stepping
        back by a whole unit on touching an obstacle). */
    method Search(m: Maths, pf: Pathfinder.PathFinder, obstacles: seq<GameObject>, now: real)
      returns (ghost route: seq<Vec2>)
      requires pf.Valid()
      modifies this
      ensures Ctl() == SearchStep(old(Ctl()), now, searchDuration)
      ensures old(phase) == LookAround ==>
        position == old(position) &&
        facing == Vec2(m.cos((now - StartSearchClock(old(Ctl()), now).searchClockStart) * 2.0),
                       m.sin((now - StartSearchClock(old(Ctl()), now).searchClockStart) * 2.0))
      ensures old(phase) != LookAround ==>
        Advanced(m, pf, old(position), old(facing), old(lastKnownPlayerPosition), obstacles, SearchSpeed, 1.0, false,
                 route, position, facing)
      ensures velocity == old(velocity) && viewDistance == old(viewDistance)
    {
      route := [];
      match phase {
        case LookAround =>
          if !searchClockStarted {
            searchClockStart := now;
            searchClockStarted := true;
          }
          var elapsed := now - searchClockStart;
          facing := Vec2(m.cos(elapsed * 2.0), m.sin(elapsed * 2.0));
          if elapsed > LookAroundSeconds {
            phase := Wander;
            searchClockStart := now;
          }
        case Wander =>
          if !searchClockStarted {
            searchClockStart := now;
            searchClockStarted := true;
          }
          route := Advance(m, pf, lastKnownPlayerPosition, obstacles, SearchSpeed, 1.0, false);
          if now - searchClockStart > searchDuration {
            searchClockStart := now;
            phase := ReturnToPatrol;
          }
        case ReturnToPatrol =>
          route := Advance(m, pf, lastKnownPlayerPosition, obstacles, SearchSpeed, 1.0, false);
          var home := position.Minus(initialPosition);
          if m.hypot(home.x, home.y) < HomeRadius {
            state := Patrolling;
            phase := LookAround;
            searchClockStarted := false;
          } else {
            state := Patrolling;
            phase := LookAround;
            searchClockStarted := false;
          }
      }
    }

    /** update(): one tick of the state machine, with both sight tests run
        by canSeePlayer as written; `sees` and `seesAfter` report their
        results, `facingBefore` is the facing the second test starts from,
        and `route` is the findPath route the guard moved along, if any. */
    method Update(m: Maths, pf: Pathfinder.PathFinder, playerBounds: Rect, playerPos: Vec2,
                  obstacles: seq<GameObject>, gameState: GameState, now: real)
      returns (newGameState: GameState, ghost sees: bool, ghost seesAfter: bool, ghost facingBefore: Vec2,
               ghost route: seq<Vec2>)
      requires m.pi != 0.0 && pf.Valid()
      modifies this
      ensures sees == VisibleAsWritten(m, old(position), playerPos, obstacles, old(viewDistance), fieldOfView)
      ensures old(state) != Searching ==> !seesAfter
      ensures old(state) == Searching ==>
        seesAfter == VisibleAsWritten(m, position, playerPos, obstacles, viewDistance, fieldOfView)
      ensures var r := Step(old(Ctl()), sees, seesAfter, Intersects(Bounds(old(position)), playerBounds),
                            playerPos, now, alertDuration, searchDuration);
        Ctl() == r.0 && newGameState == (if r.1 then GameOver else gameState)
      ensures TickMotion(m, pf, old(Ctl()), sees, Intersects(Bounds(old(position)), playerBounds), playerPos,
                         obstacles, now, false, fieldOfView, old(position), old(velocity),
                         SightFacing(false, m, old(position), old(facing), playerPos, obstacles, old(viewDistance), fieldOfView),
                         old(viewDistance), route, facingBefore, position, velocity, facing, viewDistance)
    {
      var seen := Look(m, playerPos, obstacles, false);
      sees := seen;
      newGameState, seesAfter, facingBefore, route :=
        React(m, pf, seen, playerBounds, playerPos, obstacles, gameState, now, false);
    }

    /** update() with both sight tests run by the corrected canSeePlayer,
        which measures the angle from the facing the guard had. */
    method UpdateCorrected(m: Maths, pf: Pathfinder.PathFinder, playerBounds: Rect, playerPos: Vec2,
                           obstacles: seq<GameObject>, gameState: GameState, now: real)
      returns (newGameState: GameState, ghost sees: bool, ghost seesAfter: bool, ghost facingBefore: Vec2,
               ghost route: seq<Vec2>)
      requires m.pi != 0.0 && pf.Valid()
      modifies this
      ensures sees == Visible(m, old(position), old(facing), playerPos, obstacles, old(viewDistance), fieldOfView)
      ensures old(state) != Searching ==> !seesAfter
      ensures old(state) == Searching ==>
        seesAfter == Visible(m, position, facingBefore, playerPos, obstacles, viewDistance, fieldOfView)
      ensures var r := Step(old(Ctl()), sees, seesAfter, Intersects(Bounds(old(position)), playerBounds),
                            playerPos, now, alertDuration, searchDuration);
        Ctl() == r.0 && newGameState == (if r.1 then GameOver else gameState)
      ensures TickMotion(m, pf, old(Ctl()), sees, Intersects(Bounds(old(position)), playerBounds), playerPos,
                         obstacles, now, true, fieldOfView, old(position), old(velocity),
                         SightFacing(true, m, old(position), old(facing), playerPos, obstacles, old(viewDistance), fieldOfView),
                         old(viewDistance), route, facingBefore, position, velocity, facing, viewDistance)
    {
      var seen := Look(m, playerPos, obstacles, true);
      sees := seen;
      newGameState, seesAfter, facingBefore, route :=
        React(m, pf, seen, playerBounds, playerPos, obstacles, gameState, now, true);
    }

    /** The switch of update(), given the result of the first sight test;
        `corrected` chooses the second sight test of the Searching case. */
    method React(m: Maths, pf: Pathfinder.PathFinder, seen: bool, playerBounds: Rect, playerPos: Vec2,
                 obstacles: seq<GameObject>, gameState: GameState, now: real, corrected: bool)
      returns (newGameState: GameState, ghost seesAfter: bool, ghost facingBefore: Vec2, ghost route: seq<Vec2>)
      requires m.pi != 0.0 && pf.Valid()
      modifies this
      ensures old(state) != Searching ==> !seesAfter
      ensures old(state) == Searching ==>
        seesAfter == Sees(corrected, m, position, facingBefore, playerPos, obstacles, viewDistance, fieldOfView)
      ensures var r := Step(old(Ctl()), seen, seesAfter, Intersects(Bounds(old(position)), playerBounds),
                            playerPos, now, alertDuration, searchDuration);
        Ctl() == r.0 && newGameState == (if r.1 then GameOver else gameState)
      ensures TickMotion(m, pf, old(Ctl()), seen, Intersects(Bounds(old(position)), playerBounds), playerPos,
                         obstacles, now, corrected, fieldOfView, old(position), old(velocity), old(facing),
                         old(viewDistance), route, facingBefore, position, velocity, facing, viewDistance)
    {
      seesAfter, route := false, [];
      facingBefore := facing;
      newGameState := gameState;
      match state {
        case Patrolling =>
          if seen {
            state := Alerted;
          } else {
            Patrol(m, obstacles);
          }
        case Alerted =>
          AlertTick(seen, playerPos, now);
        case Chasing =>
          var captured;
          captured, route := ChaseTick(m, pf, seen, playerBounds, playerPos, obstacles);
          if captured {
            newGameState := GameOver;
          }
        case Searching =>
          seesAfter, facingBefore, route := SearchTick(m, pf, playerPos, obstacles, now, corrected);
      }
    }

    /** The Alerted case of update(): losing sight starts a search; seeing
        the player starts the alert clock if it is not running, and once it
        has run for the alert duration the guard starts chasing. */
    method AlertTick(seen: bool, playerPos: Vec2, now: real)
      requires state == Alerted
      modifies this
      ensures Ctl() == Step(old(Ctl()), seen, false, false, playerPos, now, alertDuration, searchDuration).0
      ensures position == old(position) && velocity == old(velocity)
      ensures facing == old(facing) && viewDistance == old(viewDistance)
    {
      if !seen {
        lastKnownPlayerPosition := playerPos;
        phase := LookAround;
        searchClockStarted := false;
        alertClockStarted := false;
        state := Searching;
        return;
      }
      if !alertClockStarted {
        alertClockStart := now;
        alertClockStarted := true;
      }
      if now - alertClockStart >= alertDuration {
        alertClockStarted := false;
        state := Chasing;
      }
    }

    /** The Chasing case of update(): losing sight starts a search; touching
        the player captures them; otherwise the guard chases. */
    method ChaseTick(m: Maths, pf: Pathfinder.PathFinder, seen: bool, playerBounds: Rect, playerPos: Vec2,
                     obstacles: seq<GameObject>)
      returns (captured: bool, ghost route: seq<Vec2>)
      requires state == Chasing && pf.Valid()
      modifies this
      ensures var r := Step(old(Ctl()), seen, false, Intersects(Bounds(old(position)), playerBounds),
                            playerPos, 0.0, alertDuration, searchDuration);
        Ctl() == r.0 && captured == r.1
      ensures velocity == old(velocity)
      ensures seen && !Intersects(Bounds(old(position)), playerBounds) ==>
        viewDistance == ChaseViewDistance &&
        Advanced(m, pf, old(position), old(facing), playerPos, obstacles, ChaseSpeed, ChaseSpeed, true,
                 route, position, facing)
      ensures !seen || Intersects(Bounds(old(position)), playerBounds) ==>
        position == old(position) && facing == old(facing) && viewDistance == old(viewDistance)
    {
      captured, route := false, [];
      if !seen {
        lastKnownPlayerPosition := playerPos;
        phase := LookAround;
        searchClockStarted := false;
        state := Searching;
      } else if Intersects(Bounds(position), playerBounds) {
        captured := true;
      } else {
        route := Chase(m, pf, playerPos, obstacles);
      }
    }

    /** The Searching case of update(): a search step, then a second sight
        test, starting from the facing `facingBefore` the search left, that
        sends the guard back to Alerted with its alert clock restarted. */
    method SearchTick(m: Maths, pf: Pathfinder.PathFinder, playerPos: Vec2, obstacles: seq<GameObject>,
                      now: real, corrected: bool)
      returns (seesAfter: bool, ghost facingBefore: Vec2, ghost route: seq<Vec2>)
      requires m.pi != 0.0 && pf.Valid()
      modifies this
      ensures seesAfter == Sees(corrected, m, position, facingBefore, playerPos, obstacles, viewDistance, fieldOfView)
      ensures facing == SightFacing(corrected, m, position, facingBefore, playerPos, obstacles, viewDistance, fieldOfView)
      ensures old(phase) != LookAround ==>
        Advanced(m, pf, old(position), old(facing), old(lastKnownPlayerPosition), obstacles, SearchSpeed, 1.0, false,
                 route, position, facingBefore)
      ensures old(phase) == LookAround ==>
        position == old(position) &&
        facingBefore == Vec2(m.cos((now - StartSearchClock(old(Ctl()), now).searchClockStart) * 2.0),
                             m.sin((now - StartSearchClock(old(Ctl()), now).searchClockStart) * 2.0))
      ensures var s := SearchStep(old(Ctl()), now, searchDuration);
        Ctl() == (if seesAfter then s.(state := Alerted, alertClockStart := now) else s)
      ensures velocity == old(velocity) && viewDistance == old(viewDistance)
    {
      route := Search(m, pf, obstacles, now);
      facingBefore := facing;
      seesAfter := Look(m, playerPos, obstacles, corrected);
      if seesAfter {
        state := Alerted;
        alertClockStart := now;
      }
    }
  }
}
