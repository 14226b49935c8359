/**
 The Chaser's afterimage trail: a first-in first-out buffer of at most
 fifteen (position, direction) samples, sampled when more than forty ticks
 have passed since the previous sample. The steering that produces the
 position and direction is outside the model; each frame supplies them.
 */
module Chaser {
  import opened Enemy

  const TrailCapacity: nat := 15
  const TrailPeriod: int := 40

  /** One afterimage: where the Chaser was and which way it faced. */
  datatype Sample = Sample(x: real, y: real, dirX: real, dirY: real)

  datatype State = State(body: Body, trail: seq<Sample>, prevTrail: int)

  /** What one frame of steering produced: the tick count, the position after
      integration and the direction towards the player. */
  datatype Frame = Frame(now: int, x: real, y: real, dirX: real, dirY: real)

  /** A new Chaser at the spawn position: speed 3, health 5, empty trail, last
      sample at tick 0. */
  function Init(x: real, y: real): (s: State)
    ensures s.body == Body(x, y, 3, 5)
    ensures s.trail == [] && s.prevTrail == 0
  {
    State(Body(x, y, 3, 5), [], 0)
  }

  function SampleOf(f: Frame): Sample
  {
    Sample(f.x, f.y, f.dirX, f.dirY)
  }

  predicate Samples(s: State, f: Frame)
  {
    Elapsed(f.now, s.prevTrail, TrailPeriod)
  }

  /** The trail part of one update. A sample is taken exactly when more than
      forty ticks have passed; it goes last, and the oldest entry is dropped
      when that overflows the capacity. Otherwise trail and timer stay. */
  function Step(s: State, f: Frame): (r: State)
    ensures r.body == s.body.(x := f.x, y := f.y)
    ensures |s.trail| <= TrailCapacity ==> |r.trail| <= TrailCapacity
    ensures Samples(s, f) ==>
              && r.prevTrail == f.now
              && |r.trail| > 0 && r.trail[|r.trail| - 1] == SampleOf(f)
              && (|s.trail| < TrailCapacity ==> r.trail == s.trail + [SampleOf(f)])
              && (|s.trail| == TrailCapacity ==> r.trail == s.trail[1..] + [SampleOf(f)])
    ensures !Samples(s, f) ==> r.trail == s.trail && r.prevTrail == s.prevTrail
  {
    var body := s.body.(x := f.x, y := f.y);
    if Samples(s, f) then
      var grown := s.trail + [SampleOf(f)];
      var trail := if |grown| > TrailCapacity then grown[1..] else grown;
      State(body, trail, f.now)
    else
      State(body, s.trail, s.prevTrail)
  }

  /** The state after a series of frames. */
  function Run(s: State, frames: seq<Frame>): State
    decreases |frames|
  {
    if |frames| == 0 then s else Run(Step(s, frames[0]), frames[1..])
  }

  /** The samples a series of frames takes, oldest first. */
  function Taken(s: State, frames: seq<Frame>): seq<Sample>
    decreases |frames|
  {
    if |frames| == 0 then []
    else
      (if Samples(s, frames[0]) then [SampleOf(frames[0])] else [])
      + Taken(Step(s, frames[0]), frames[1..])
  }

  /** The newest `n` entries of `q` (all of them when there are fewer). */
  function Newest(q: seq<Sample>, n: nat): seq<Sample>
  {
    if |q| <= n then q else q[|q| - n..]
  }

  /** Over any series of frames the trail is the newest fifteen of all the
      samples it ever held, in the order they were taken. */
  lemma {:induction false} RunTrailIsNewestSamples(s: State, frames: seq<Frame>)
    requires |s.trail| <= TrailCapacity
    ensures Run(s, frames).trail == Newest(s.trail + Taken(s, frames), TrailCapacity)
    decreases |frames|
  {
    if |frames| == 0 {
      assert s.trail + [] == s.trail;
    } else {
      var f := frames[0];
      var s1 := Step(s, f);
      RunTrailIsNewestSamples(s1, frames[1..]);
      var rest := Taken(s1, frames[1..]);
      if Samples(s, f) {
        assert s1.trail == Newest(s.trail + [SampleOf(f)], TrailCapacity);
        assert s.trail == Newest(s.trail, TrailCapacity);
        NewestOfNewest(s.trail + [SampleOf(f)], rest);
        assert s.trail + Taken(s, frames) == (s.trail + [SampleOf(f)]) + rest;
      } else {
        assert Taken(s, frames) == rest;
      }
    }
  }

  /** Keeping the newest fifteen and then appending more keeps the same
      newest fifteen as appending to everything. */
  lemma NewestOfNewest(q: seq<Sample>, more: seq<Sample>)
    ensures Newest(Newest(q, TrailCapacity) + more, TrailCapacity) == Newest(q + more, TrailCapacity)
  {
  }

  predicate AllNoLaterThan(frames: seq<Frame>, t: int)
  {
    forall i :: 0 <= i < |frames| ==> frames[i].now <= t
  }

  /** Sampling is rate limited: if no frame's tick count exceeds `t`, the
      series takes at most one sample per 41 ticks after the previous sample. */
  lemma {:induction false} TakenIsRateLimited(s: State, frames: seq<Frame>, t: int)
    requires AllNoLaterThan(frames, t) && s.prevTrail <= t
    ensures 41 * |Taken(s, frames)| <= t - s.prevTrail
    ensures s.prevTrail + 41 * |Taken(s, frames)| <= Run(s, frames).prevTrail <= t
    decreases |frames|
  {
    if |frames| > 0 {
      var s1 := Step(s, frames[0]);
      assert AllNoLaterThan(frames[1..], t) by {
        forall i | 0 <= i < |frames[1..]| ensures frames[1..][i].now <= t {
          assert frames[1..][i] == frames[i + 1];
        }
      }
      assert frames[0].now <= t;
      TakenIsRateLimited(s1, frames[1..], t);
    }
  }
}
