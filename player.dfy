/** The player of src/player.cpp: movement with collision undo, four
    actions (hack, hide, disguise, distract) gated by per-action cooldowns,
    timed expiry of the disguise and of hiding, and the list of thrown
    distractions, which are dropped once they expire.

    Every sf::Clock is the time `now` at which it was last restarted; its
    elapsed time is `now` minus that. */
module Player {
  import opened Geometry
  import Utils

  const HackKey: string := "hack"
  const HideKey: string := "hide"
  const DisguiseKey: string := "disguise"
  const DistractKey: string := "distract"

  /** How long the disguise and hiding last once started, in seconds. */
  const StatusSeconds: real := 10.0
  /** Distance to the goal below which the level is won. */
  const GoalRadius: real := 10.0
  const DistractionRadius: real := 100.0
  /** The default duration of a Distraction. */
  const DistractionSeconds: real := 3.0

  /** A thrown distraction: where, how large, how long it lasts and when
      its clock started. */
  datatype Distraction = Distraction(pos: Vec2, radius: real, duration: real, start: real)

  /** Distraction::isExpired: strictly more than its duration has elapsed. */
  predicate Expired(d: Distraction, now: real)
  {
    now - d.start > d.duration
  }

  /** The distractions of `s` that have not expired, in their order. */
  function Live(s: seq<Distraction>, now: real): seq<Distraction>
  {
    if s == [] then []
    else Live(s[..|s| - 1], now) + (if Expired(s[|s| - 1], now) then [] else [s[|s| - 1]])
  }

  /** Keeping the live distractions keeps exactly those, and never more
      than there were. */
  lemma {:induction false} LiveMembers(a: seq<Distraction>, now: real)
    ensures forall d :: d in Live(a, now) <==> d in a && !Expired(d, now)
    ensures |Live(a, now)| <= |a|
  {
    if a != [] {
      LiveMembers(a[..|a| - 1], now);
      assert a == a[..|a| - 1] + [a[|a| - 1]];
    }
  }

  /** Keeping the live distractions works piecewise over a concatenation,
      so what is kept stays in its original order. */
  lemma {:induction false} LiveConcat(a: seq<Distraction>, b: seq<Distraction>, now: real)
    ensures Live(a + b, now) == Live(a, now) + Live(b, now)
    decreases |b|
  {
    if b == [] {
      assert a + b == a;
    } else {
      var ab := a + b;
      assert ab[..|ab| - 1] == a + b[..|b| - 1];
      LiveConcat(a, b[..|b| - 1], now);
    }
  }

  /** The action tables and status flags of a player. */
  datatype Status = Status(cooldowns: map<string, real>, clocks: map<string, real>,
                           disguised: bool, hidden: bool, distractions: seq<Distraction>)

  /** actionClocks.at(action) exists whenever the action has a cooldown. */
  predicate HasClock(s: Status, action: string)
  {
    action in s.cooldowns ==> action in s.clocks
  }

  /** Player::isOnCooldown. */
  predicate OnCooldown(s: Status, action: string, now: real)
    requires HasClock(s, action)
  {
    action in s.cooldowns && now - s.clocks[action] < s.cooldowns[action]
  }

  /** Restarting the clock of an action. */
  function Restart(s: Status, action: string, now: real): Status
  {
    s.(clocks := s.clocks[action := now])
  }

  function DisguiseEffect(s: Status, now: real): Status
    requires HasClock(s, DisguiseKey)
  {
    if OnCooldown(s, DisguiseKey, now) then s else Restart(s.(disguised := true), DisguiseKey, now)
  }

  function HideEffect(s: Status, now: real): Status
    requires HasClock(s, HideKey)
  {
    if OnCooldown(s, HideKey, now) then s.(hidden := false) else Restart(s.(hidden := true), HideKey, now)
  }

  function HackEffect(s: Status, now: real): Status
    requires HasClock(s, HackKey)
  {
    if OnCooldown(s, HackKey, now) then s else Restart(s, HackKey, now)
  }

  function DistractEffect(s: Status, pos: Vec2, now: real): Status
    requires HasClock(s, DistractKey)
  {
    if OnCooldown(s, DistractKey, now) then s
    else Restart(s.(distractions := s.distractions + [Distraction(pos, DistractionRadius, DistractionSeconds, now)]),
                 DistractKey, now)
  }

  /** An action performed off cooldown is on cooldown for exactly its
      duration afterwards: from `now` until `now` plus the duration, and no
      longer. Only that action's clock moves; the cooldown table is fixed. */
  lemma RestartStartsCooldown(s: Status, action: string, now: real, t: real)
    requires action in s.cooldowns && now <= t
    ensures var r := Restart(s, action, now);
      HasClock(r, action) &&
      (OnCooldown(r, action, t) <==> t < now + s.cooldowns[action]) &&
      r.cooldowns == s.cooldowns &&
      (forall a | a != action :: (a in r.clocks <==> a in s.clocks) && (a in s.clocks ==> r.clocks[a] == s.clocks[a]))
  {
  }

  /** What the four actions do: on cooldown, disguise, hack and distract
      change nothing and hide only clears `hidden`; off cooldown, each sets
      its flag or adds one distraction at the given position, and restarts
      its own clock. */
  lemma ActionsSpec(s: Status, pos: Vec2, now: real)
    requires HasClock(s, DisguiseKey) && HasClock(s, HideKey) && HasClock(s, HackKey) && HasClock(s, DistractKey)
    ensures OnCooldown(s, DisguiseKey, now) ==> DisguiseEffect(s, now) == s
    ensures !OnCooldown(s, DisguiseKey, now) ==>
      DisguiseEffect(s, now) == s.(disguised := true, clocks := s.clocks[DisguiseKey := now])
    ensures OnCooldown(s, HideKey, now) ==> HideEffect(s, now) == s.(hidden := false)
    ensures !OnCooldown(s, HideKey, now) ==> HideEffect(s, now) == s.(hidden := true, clocks := s.clocks[HideKey := now])
    ensures OnCooldown(s, HackKey, now) ==> HackEffect(s, now) == s
    ensures !OnCooldown(s, HackKey, now) ==> HackEffect(s, now) == s.(clocks := s.clocks[HackKey := now])
    ensures var r := DistractEffect(s, pos, now);
      (OnCooldown(s, DistractKey, now) ==> r == s) &&
      (!OnCooldown(s, DistractKey, now) ==>
         |r.distractions| == |s.distractions| + 1 && r.distractions[..|s.distractions|] == s.distractions &&
         r.distractions[|s.distractions|].pos == pos && r.clocks[DistractKey] == now)
  {
  }

  /** The tables and flags of a player constructed at `now`. */
  function Initial(now: real): Status
  {
    Status(map[HackKey := 10.0, DisguiseKey := 8.0, HideKey := 10.0, DistractKey := 2.0],
           map[HackKey := now, HideKey := now, DisguiseKey := now, DistractKey := now],
           false, false, [])
  }

  /** Every clock starts when the player is created, so each action is
      refused until its cooldown has elapsed since then: hack and hide for
      10 s, disguise for 8 s and distract for 2 s. */
  lemma FreshActionsWait(now: real, t: real)
    requires now <= t
    ensures var s := Initial(now);
      HasClock(s, HackKey) && HasClock(s, HideKey) && HasClock(s, DisguiseKey) && HasClock(s, DistractKey) &&
      (OnCooldown(s, HackKey, t) <==> t < now + 10.0) &&
      (OnCooldown(s, HideKey, t) <==> t < now + 10.0) &&
      (OnCooldown(s, DisguiseKey, t) <==> t < now + 8.0) &&
      (OnCooldown(s, DistractKey, t) <==> t < now + 2.0)
  {
  }

  /** The global bounds of the 32 by 32 sprite, whose origin is the middle
      of its bottom edge. */
  function Bounds(pos: Vec2): Rect
  {
    Rect(pos.x - 16.0, pos.y - 32.0, 32.0, 32.0)
  }

  /** The player at `pos` touches an obstacle's collision box. */
  predicate Collides(pos: Vec2, obstacles: seq<GameObject>)
  {
    exists i | 0 <= i < |obstacles| :: Intersects(Bounds(pos), obstacles[i].collisionBox)
  }

  /** A missing clock is created, started now, when its elapsed time is read
      through operator[] — which update() does only for a set flag. */
  function Touch(clocks: map<string, real>, action: string, now: real, read: bool): map<string, real>
  {
    if read && action !in clocks then clocks[action := now] else clocks
  }

  class Player {
    var cooldowns: map<string, real>
    var clocks: map<string, real>
    var disguised: bool
    var hidden: bool
    var distractions: seq<Distraction>
    var position: Vec2
    const speed: real
    const goal: Vec2

    function State(): Status
      reads this
    {
      Status(cooldowns, clocks, disguised, hidden, distractions)
    }

    /** Player(tex, sp): not disguised, not hidden, no distractions, a clock
        for each action started now, and cooldowns of 10 s for hack and
        hide, 8 s for disguise and 2 s for distract. */
    constructor(speed: real, goal: Vec2, now: real)
      ensures State() == Initial(now) && position == Vec2(0.0, 0.0)
      ensures this.speed == speed && this.goal == goal
    {
      this.speed := speed;
      this.goal := goal;
      disguised := false;
      hidden := false;
      distractions := [];
      position := Vec2(0.0, 0.0);
      clocks := map[HackKey := now, HideKey := now, DisguiseKey := now, DistractKey := now];
      cooldowns := map[];
      new;
      SetActionCooldown(HackKey, 10.0);
      SetActionCooldown(DisguiseKey, 8.0);
      SetActionCooldown(HideKey, 10.0);
      SetActionCooldown(DistractKey, 2.0);
    }

    /** setActionCooldown: sets one entry of the cooldown table. */
    method SetActionCooldown(action: string, duration: real)
      modifies this
      ensures cooldowns == old(cooldowns)[action := duration]
      ensures clocks == old(clocks) && disguised == old(disguised) && hidden == old(hidden)
      ensures distractions == old(distractions) && position == old(position)
    {
      cooldowns := cooldowns[action := duration];
    }

    /** isOnCooldown: no cooldown configured means never on cooldown;
        otherwise on cooldown while less than the duration has elapsed. */
    method IsOnCooldown(action: string, now: real) returns (on: bool)
      requires HasClock(State(), action)
      ensures on <==> action in cooldowns && now - clocks[action] < cooldowns[action]
    {
      if action !in cooldowns {
        return false;
      }
      return now - clocks[action] < cooldowns[action];
    }

    method Disguise(now: real)
      requires HasClock(State(), DisguiseKey)
      modifies this
      ensures State() == DisguiseEffect(old(State()), now) && position == old(position)
    {
      var on := IsOnCooldown(DisguiseKey, now);
      if on {
        return;
      }
      disguised := true;
      clocks := clocks[DisguiseKey := now];
    }

    method Hide(now: real)
      requires HasClock(State(), HideKey)
      modifies this
      ensures State() == HideEffect(old(State()), now) && position == old(position)
    {
      var on := IsOnCooldown(HideKey, now);
      if on {
        hidden := false;
        return;
      }
      hidden := true;
      clocks := clocks[HideKey := now];
    }

    method Hack(now: real)
      requires HasClock(State(), HackKey)
      modifies this
      ensures State() == HackEffect(old(State()), now) && position == old(position)
    {
      var on := IsOnCooldown(HackKey, now);
      if on {
        return;
      }
      clocks := clocks[HackKey := now];
    }

    method Distract(now: real)
      requires HasClock(State(), DistractKey)
      modifies this
      ensures State() == DistractEffect(old(State()), position, now) && position == old(position)
    {
      var on := IsOnCooldown(DistractKey, now);
      if on {
        return;
      }
      distractions := distractions + [Distraction(position, DistractionRadius, DistractionSeconds, now)];
      clocks := clocks[DistractKey := now];
    }

    /** cleanupDistractions: the erase-remove of expired distractions. */
    method CleanupDistractions(now: real)
      modifies this
      ensures distractions == Live(old(distractions), now)
      ensures cooldowns == old(cooldowns) && clocks == old(clocks) && disguised == old(disguised)
      ensures hidden == old(hidden) && position == old(position)
    {
      var kept: seq<Distraction> := [];
      for i := 0 to |distractions|
        invariant kept == Live(distractions[..i], now)
      {
        assert distractions[..i + 1][..i] == distractions[..i];
        if !Expired(distractions[i], now) {
          kept := kept + [distractions[i]];
        }
      }
      assert distractions[..|distractions|] == distractions;
      distractions := kept;
    }

    /** The level is won once the player is less than 10 units from the goal. */
    predicate Won()
      reads this
    {
      DistSq(position, goal) < GoalRadius * GoalRadius
    }

    /** The first half of update: the disguise and hiding end once more
        than 10 s have elapsed on their clocks. */
    method ExpireStatus(now: real)
      modifies this
      ensures var c1 := Touch(old(clocks), DisguiseKey, now, old(disguised));
        var c2 := Touch(c1, HideKey, now, old(hidden));
        clocks == c2 &&
        disguised == (old(disguised) && !(now - c1[DisguiseKey] > StatusSeconds)) &&
        hidden == (old(hidden) && !(now - c2[HideKey] > StatusSeconds))
      ensures distractions == old(distractions) && cooldowns == old(cooldowns) && position == old(position)
    {
      if disguised {
        if DisguiseKey !in clocks {
          clocks := clocks[DisguiseKey := now];
        }
        if now - clocks[DisguiseKey] > StatusSeconds {
          disguised := false;
        }
      }
      if hidden {
        if HideKey !in clocks {
          clocks := clocks[HideKey := now];
        }
        if now - clocks[HideKey] > StatusSeconds {
          hidden := false;
        }
      }
    }

    /** update: the disguise and hiding expire, reaching the goal clears
        the level, and expired distractions are dropped. */
    method Update(gameState: GameState, now: real) returns (newGameState: GameState)
      modifies this
      ensures var c1 := Touch(old(clocks), DisguiseKey, now, old(disguised));
        var c2 := Touch(c1, HideKey, now, old(hidden));
        clocks == c2 &&
        disguised == (old(disguised) && !(now - c1[DisguiseKey] > StatusSeconds)) &&
        hidden == (old(hidden) && !(now - c2[HideKey] > StatusSeconds))
      ensures newGameState == (if Won() then LevelClear else gameState)
      ensures distractions == Live(old(distractions), now)
      ensures cooldowns == old(cooldowns) && position == old(position)
    {
      ExpireStatus(now);
      newGameState := gameState;
      if DistSq(position, goal) < GoalRadius * GoalRadius {
        newGameState := LevelClear;
      }
      CleanupDistractions(now);
    }

    /** canMove: apply the offset, and undo it if the player then touches an
        obstacle's collision box. */
    method CanMove(offset: Vec2, obstacles: seq<GameObject>) returns (ok: bool)
      modifies this
      ensures ok <==> !Collides(old(position).Plus(offset), obstacles)
      ensures position == (if ok then old(position).Plus(offset) else old(position))
      ensures State() == old(State())
    {
      position := position.Plus(offset);
      for i := 0 to |obstacles|
        invariant position == old(position).Plus(offset)
        invariant forall j | 0 <= j < i :: !Intersects(Bounds(position), obstacles[j].collisionBox)
      {
        if Intersects(Bounds(position), obstacles[i].collisionBox) {
          position := position.Minus(offset);
          return false;
        }
      }
      return true;
    }

    /** moveUp, moveDown, moveLeft and moveRight: the screen direction of a
        grid step, scaled by the speed and the frame time, if the move is free. */
    method Move(gridDir: Vec2, deltaTime: real, obstacles: seq<GameObject>) returns (moved: bool)
      modifies this
      ensures var offset := Utils.ToIsometricDir(gridDir, 64.0).Scale(speed).Scale(deltaTime);
        moved == !Collides(old(position).Plus(offset), obstacles) &&
        position == (if moved then old(position).Plus(offset) else old(position))
      ensures State() == old(State())
    {
      var dir := Utils.ToIsometricDir(gridDir, 64.0);
      moved := CanMove(dir.Scale(speed).Scale(deltaTime), obstacles);
    }
  }

  /** The tables the constructor builds give every action a clock, and the
      actions keep that true. */
  lemma ActionsKeepClocks(s: Status, pos: Vec2, now: real, action: string)
    requires HasClock(s, DisguiseKey) && HasClock(s, HideKey) && HasClock(s, HackKey) && HasClock(s, DistractKey)
    requires HasClock(s, action)
    ensures HasClock(DisguiseEffect(s, now), action) && HasClock(HideEffect(s, now), action)
    ensures HasClock(HackEffect(s, now), action) && HasClock(DistractEffect(s, pos, now), action)
  {
  }
}
