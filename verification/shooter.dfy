/**
 The Shooter's engagement machine. It approaches until the player is closer
 than 240 units, then stops accelerating; after more than 500 ticks in range
 it fires at most one projectile per frame, more than 50 ticks apart. Leaving
 range resets the machine. Steering, the facing angle and its random spread
 are outside the model: each frame supplies the distance to the player
 (measured before the move), the position after the move and the aim angle.
 */
module Shooter {
  import opened Enemy
  import opened Projectiles

  const EngageRange: real := 240.0
  const AimDelay: int := 500
  const Cooldown: int := 50
  const Acceleration: real := 0.2

  /** `Approaching` is the game's `move_stop = None`; `Engaging(since)` records
      the tick at which the player came in range. */
  datatype Mode = Approaching | Engaging(since: int)

  datatype State = State(body: Body, mode: Mode, prevFire: int, acceleration: real,
                         projectiles: seq<Projectile>)

  datatype Frame = Frame(now: int, distance: real, x: real, y: real, aim: real)

  /** A new Shooter at the spawn position: speed 2, health 5, approaching,
      last shot at tick 0, no projectiles. */
  function Init(x: real, y: real): (s: State)
    ensures s.body == Body(x, y, 2, 5)
    ensures s.mode == Approaching && s.acceleration == Acceleration
    ensures s.prevFire == 0 && s.projectiles == []
  {
    State(Body(x, y, 2, 5), Approaching, 0, Acceleration, [])
  }

  predicate InRange(f: Frame)
  {
    f.distance < EngageRange
  }

  /** The tick engagement started, as it stands after this frame's update. */
  function EntryTime(s: State, f: Frame): int
  {
    if s.mode.Engaging? then s.mode.since else f.now
  }

  /** The frame fires: in range, engaged for more than the aim delay, and the
      cooldown since the previous shot has passed. */
  predicate Fires(s: State, f: Frame)
  {
    InRange(f) && Elapsed(f.now, EntryTime(s, f), AimDelay) && Elapsed(f.now, s.prevFire, Cooldown)
  }

  function Shot(f: Frame): Projectile
  {
    Spawn(f.x, f.y, f.aim)
  }

  /** One update, with the projectile list pruned at the end. */
  function Step(s: State, f: Frame): (r: State)
    ensures r.body == s.body.(x := f.x, y := f.y)
    ensures !InRange(f) ==> r.mode == Approaching && r.acceleration == Acceleration
    ensures InRange(f) ==> r.acceleration == 0.0 && r.mode.Engaging?
    ensures InRange(f) && s.mode.Engaging? ==> r.mode == s.mode
    ensures InRange(f) && s.mode.Approaching? ==> r.mode == Engaging(f.now)
    ensures Fires(s, f) ==> r.prevFire == f.now && r.projectiles == Prune(s.projectiles) + [Shot(f)]
    ensures !Fires(s, f) ==> r.prevFire == s.prevFire && r.projectiles == Prune(s.projectiles)
    ensures NoneDestroyed(r.projectiles)
  {
    var body := s.body.(x := f.x, y := f.y);
    if InRange(f) then
      var mode := if s.mode.Approaching? then Engaging(f.now) else s.mode;
      var fire := Elapsed(f.now, mode.since, AimDelay) && Elapsed(f.now, s.prevFire, Cooldown);
      var shots := if fire then [Shot(f)] else [];
      PruneAppend(s.projectiles, shots);
      State(body, mode, if fire then f.now else s.prevFire, 0.0, Prune(s.projectiles + shots))
    else
      State(body, Approaching, s.prevFire, Acceleration, Prune(s.projectiles))
  }

  /** At most one projectile per frame: the list grows by at most one over
      the pruned previous list, and the frame that enters range never fires. */
  lemma AtMostOneShot(s: State, f: Frame)
    ensures |Step(s, f).projectiles| <= |Prune(s.projectiles)| + 1
    ensures s.mode.Approaching? ==> !Fires(s, f)
    ensures Step(s, f).prevFire != s.prevFire <==> Fires(s, f)
  {
  }

  function Run(s: State, frames: seq<Frame>): State
    decreases |frames|
  {
    if |frames| == 0 then s else Run(Step(s, frames[0]), frames[1..])
  }

  /** The ticks at which a series of frames fires, in order. */
  function ShotTimes(s: State, frames: seq<Frame>): seq<int>
    decreases |frames|
  {
    if |frames| == 0 then []
    else
      (if Fires(s, frames[0]) then [frames[0].now] else [])
      + ShotTimes(Step(s, frames[0]), frames[1..])
  }

  /** The cooldown timer of a series of frames ends at its last shot. */
  lemma {:induction false} RunEndsAtLastShot(s: State, frames: seq<Frame>)
    ensures var ts := ShotTimes(s, frames);
            Run(s, frames).prevFire == if |ts| == 0 then s.prevFire else ts[|ts| - 1]
    decreases |frames|
  {
    if |frames| > 0 {
      var f := frames[0];
      var s1 := Step(s, f);
      RunEndsAtLastShot(s1, frames[1..]);
    }
  }

  /** Over any series of frames, shots are more than 50 ticks apart, and the
      first is more than 50 ticks after the last shot before the series. */
  lemma {:induction false} ShotsRespectCooldown(s: State, frames: seq<Frame>)
    ensures Spaced(s.prevFire, ShotTimes(s, frames), Cooldown)
    decreases |frames|
  {
    if |frames| > 0 {
      var f := frames[0];
      var s1 := Step(s, f);
      var rest := ShotTimes(s1, frames[1..]);
      ShotsRespectCooldown(s1, frames[1..]);
      if Fires(s, f) {
        assert s1.prevFire == f.now;
        assert ShotTimes(s, frames) == [f.now] + rest;
        assert ([f.now] + rest)[1..] == rest;
      } else {
        assert s1.prevFire == s.prevFire;
        assert ShotTimes(s, frames) == rest;
      }
    }
  }

  predicate AllOutOfRange(frames: seq<Frame>)
  {
    forall i :: 0 <= i < |frames| ==> !InRange(frames[i])
  }

  predicate AllInRange(frames: seq<Frame>)
  {
    forall i :: 0 <= i < |frames| ==> InRange(frames[i])
  }

  /** While the player stays at 240 or further, nothing is fired and the
      Shooter keeps approaching at full acceleration. */
  lemma {:induction false} OutOfRangeNeverFires(s: State, frames: seq<Frame>)
    requires AllOutOfRange(frames)
    ensures ShotTimes(s, frames) == []
    ensures |frames| > 0 ==>
              Run(s, frames).mode == Approaching && Run(s, frames).acceleration == Acceleration
    decreases |frames|
  {
    if |frames| > 0 {
      assert !InRange(frames[0]);
      assert AllOutOfRange(frames[1..]) by {
        forall i | 0 <= i < |frames[1..]| ensures !InRange(frames[1..][i]) {
          assert frames[1..][i] == frames[i + 1];
        }
      }
      OutOfRangeNeverFires(Step(s, frames[0]), frames[1..]);
    }
  }

  /** Every time in `ts` is more than the aim delay after `since`. */
  predicate AllAfterAimDelay(since: int, ts: seq<int>)
  {
    forall i :: 0 <= i < |ts| ==> ts[i] - since > AimDelay
  }

  /** While the player stays in range, the engagement start is kept. */
  lemma {:induction false} InRangeKeepsEntry(s: State, frames: seq<Frame>, since: int)
    requires s.mode == Engaging(since)
    requires AllInRange(frames)
    ensures Run(s, frames).mode == Engaging(since)
    decreases |frames|
  {
    if |frames| > 0 {
      assert InRange(frames[0]);
      assert AllInRange(frames[1..]) by {
        forall i | 0 <= i < |frames[1..]| ensures InRange(frames[1..][i]) {
          assert frames[1..][i] == frames[i + 1];
        }
      }
      InRangeKeepsEntry(Step(s, frames[0]), frames[1..], since);
    }
  }

  /** While the player stays in range, every shot comes more than 500 ticks
      after the engagement start. */
  lemma {:induction false} EngagedShotsWaitForAimDelay(s: State, frames: seq<Frame>, since: int)
    requires s.mode == Engaging(since)
    requires AllInRange(frames)
    ensures AllAfterAimDelay(since, ShotTimes(s, frames))
    decreases |frames|
  {
    if |frames| > 0 {
      var f := frames[0];
      var s1 := Step(s, f);
      assert InRange(f);
      assert s1.mode == Engaging(since);
      assert AllInRange(frames[1..]) by {
        forall i | 0 <= i < |frames[1..]| ensures InRange(frames[1..][i]) {
          assert frames[1..][i] == frames[i + 1];
        }
      }
      EngagedShotsWaitForAimDelay(s1, frames[1..], since);
      var rest := ShotTimes(s1, frames[1..]);
      if Fires(s, f) {
        assert f.now - since > AimDelay;
        assert ShotTimes(s, frames) == [f.now] + rest;
        AfterAimDelayCons(since, f.now, rest);
      } else {
        assert ShotTimes(s, frames) == rest;
      }
    }
  }

  lemma AfterAimDelayCons(since: int, t: int, rest: seq<int>)
    requires t - since > AimDelay && AllAfterAimDelay(since, rest)
    ensures AllAfterAimDelay(since, [t] + rest)
  {
  }

  /** Starting from approach, a stretch of in-range frames never fires within
      500 ticks of the first of them. */
  lemma FirstShotAfterAimDelay(s: State, frames: seq<Frame>)
    requires s.mode == Approaching
    requires |frames| > 0 && AllInRange(frames)
    ensures AllAfterAimDelay(frames[0].now, ShotTimes(s, frames))
  {
    var s1 := Step(s, frames[0]);
    assert InRange(frames[0]);
    assert AllInRange(frames[1..]) by {
      forall i | 0 <= i < |frames[1..]| ensures InRange(frames[1..][i]) {
        assert frames[1..][i] == frames[i + 1];
      }
    }
    EngagedShotsWaitForAimDelay(s1, frames[1..], frames[0].now);
    assert !Fires(s, frames[0]);
    assert ShotTimes(s, frames) == ShotTimes(s1, frames[1..]);
  }
}
