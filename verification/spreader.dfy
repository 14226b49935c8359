/**
 The Spreader: it moves diagonally, flipping each direction component on its
 own when the moved position lies outside the play field shrunk by the stage
 padding and its radius, and every more-than-500 ticks it fires a burst of
 four projectiles a quarter turn apart, rotated by the tick count over ten.
 The play field size and the padding are parameters; the initial random
 direction is an argument of `Init`.
 */
module Spreader {
  import opened Enemy
  import opened Projectiles

  const Radius: int := 15
  const BurstCooldown: int := 500

  /** The play field's width and height and the stage padding around it. */
  datatype Field = Field(width: int, height: int, padding: int)

  /** `dx` and `dy` are the direction components, each -1 or +1. */
  datatype State = State(body: Body, dx: int, dy: int, prevFire: int, projectiles: seq<Projectile>)

  predicate Unit(d: int)
  {
    d == -1 || d == 1
  }

  /** A new Spreader at the spawn position: speed 1, health 5, exactly the
      given (randomly chosen) direction, last burst at tick 0, no projectiles. */
  function Init(x: real, y: real, dx: int, dy: int): (s: State)
    requires Unit(dx) && Unit(dy)
    ensures s.body == Body(x, y, 1, 5)
    ensures s.dx == dx && s.dy == dy && Unit(s.dx) && Unit(s.dy)
    ensures s.prevFire == 0 && s.projectiles == []
  {
    State(Body(x, y, 1, 5), dx, dy, 0, [])
  }

  /** The smallest coordinate the Spreader may reach without bouncing. */
  function Low(field: Field): int
  {
    field.padding + Radius
  }

  function HighX(field: Field): int
  {
    field.width - field.padding - Radius
  }

  function HighY(field: Field): int
  {
    field.height - field.padding - Radius
  }

  /** Motion along one axis. */
  datatype Axis = Axis(pos: real, dir: int)

  /** Move first, then flip the direction if the moved position is strictly
      outside `[lo, hi]`. */
  function Bounce(a: Axis, speed: int, lo: int, hi: int): (r: Axis)
    requires Unit(a.dir)
    ensures r.pos == a.pos + (a.dir * speed) as real
    ensures r.dir == -a.dir <==> r.pos < lo as real || r.pos > hi as real
    ensures Unit(r.dir)
  {
    var pos := a.pos + (a.dir * speed) as real;
    if pos < lo as real || pos > hi as real then Axis(pos, -a.dir) else Axis(pos, a.dir)
  }

  /** The four projectiles of a burst at tick `now`, spawned at (x, y): base
      angles 0, 90, 180 and 270 degrees, each minus `now / 10` (Python's `//` floors,
      and Dafny's `/` agrees with it for a positive divisor). */
  function Burst(x: real, y: real, now: int): (r: seq<Projectile>)
    ensures |r| == 4 && NoneDestroyed(r)
    ensures r[0].angle == -(now / 10) as real
    ensures forall k :: 0 < k < 4 ==> r[k].angle == r[k - 1].angle + 90.0
    ensures forall k :: 0 <= k < 4 ==> r[k].x == x && r[k].y == y && r[k].speed == ProjectileSpeed
  {
    var offset := now / 10;
    [Spawn(x, y, (0 - offset) as real), Spawn(x, y, (90 - offset) as real),
     Spawn(x, y, (180 - offset) as real), Spawn(x, y, (270 - offset) as real)]
  }

  predicate Bursts(s: State, now: int)
  {
    Elapsed(now, s.prevFire, BurstCooldown)
  }

  /** One update: each axis bounces independently, a burst is appended after
      the existing projectiles when its cooldown has passed, and the list is
      pruned. */
  function Step(s: State, now: int, field: Field): (r: State)
    requires Unit(s.dx) && Unit(s.dy)
    ensures r.body.health == s.body.health && r.body.speed == s.body.speed
    ensures r.body.x == s.body.x + (s.dx * s.body.speed) as real
    ensures r.body.y == s.body.y + (s.dy * s.body.speed) as real
    ensures r.dx == -s.dx <==> r.body.x < Low(field) as real || r.body.x > HighX(field) as real
    ensures r.dy == -s.dy <==> r.body.y < Low(field) as real || r.body.y > HighY(field) as real
    ensures Unit(r.dx) && Unit(r.dy)
    ensures Bursts(s, now) ==>
              r.prevFire == now && r.projectiles == Prune(s.projectiles) + Burst(r.body.x, r.body.y, now)
    ensures !Bursts(s, now) ==> r.prevFire == s.prevFire && r.projectiles == Prune(s.projectiles)
    ensures NoneDestroyed(r.projectiles)
  {
    var ax := Bounce(Axis(s.body.x, s.dx), s.body.speed, Low(field), HighX(field));
    var ay := Bounce(Axis(s.body.y, s.dy), s.body.speed, Low(field), HighY(field));
    var body := s.body.(x := ax.pos, y := ay.pos);
    if Bursts(s, now) then
      var burst := Burst(ax.pos, ay.pos, now);
      PruneAppend(s.projectiles, burst);
      PruneLiveIsIdentity(burst);
      State(body, ax.dir, ay.dir, now, Prune(s.projectiles + burst))
    else
      State(body, ax.dir, ay.dir, s.prevFire, Prune(s.projectiles))
  }

  /** An axis is within one step of `[lo, hi]`, and heading back whenever it
      is outside it. */
  predicate Contained(a: Axis, speed: int, lo: int, hi: int)
  {
    && Unit(a.dir)
    && (lo - speed) as real <= a.pos <= (hi + speed) as real
    && (a.pos < lo as real ==> a.dir == 1)
    && (a.pos > hi as real ==> a.dir == -1)
  }

  /** Bouncing keeps an axis contained, so the Spreader never strays more
      than one step beyond the padded field. */
  lemma BounceKeepsContained(a: Axis, speed: int, lo: int, hi: int)
    requires speed > 0 && lo <= hi
    requires Contained(a, speed, lo, hi)
    ensures Contained(Bounce(a, speed, lo, hi), speed, lo, hi)
  {
  }

  predicate Inside(s: State, field: Field)
  {
    && Contained(Axis(s.body.x, s.dx), s.body.speed, Low(field), HighX(field))
    && Contained(Axis(s.body.y, s.dy), s.body.speed, Low(field), HighY(field))
  }

  /** A field wide and tall enough for the padded bounds to be non-empty. */
  predicate Roomy(field: Field)
  {
    Low(field) <= HighX(field) && Low(field) <= HighY(field)
  }

  function Run(s: State, times: seq<int>, field: Field): (r: State)
    requires Unit(s.dx) && Unit(s.dy)
    ensures Unit(r.dx) && Unit(r.dy)
    decreases |times|
  {
    if |times| == 0 then s else Run(Step(s, times[0], field), times[1..], field)
  }

  /** Over any series of frames in a fixed field, a Spreader that starts
      inside stays within one step of the padded field, with unit direction. */
  lemma {:induction false} RunStaysInside(s: State, times: seq<int>, field: Field)
    requires s.body.speed > 0 && Roomy(field)
    requires Inside(s, field)
    ensures Inside(Run(s, times, field), field)
    ensures Run(s, times, field).body.speed == s.body.speed
    decreases |times|
  {
    if |times| > 0 {
      var s1 := Step(s, times[0], field);
      BounceKeepsContained(Axis(s.body.x, s.dx), s.body.speed, Low(field), HighX(field));
      BounceKeepsContained(Axis(s.body.y, s.dy), s.body.speed, Low(field), HighY(field));
      assert Inside(s1, field);
      RunStaysInside(s1, times[1..], field);
    }
  }

  /** At the left padded edge heading left, one update moves a further step
      left and then turns right: the move happens before the bounds check. */
  lemma LeftEdgeMovesThenTurns(s: State, now: int, field: Field)
    requires s.body.speed == 1 && s.dx == -1 && Unit(s.dy) && s.body.x == Low(field) as real
    ensures Step(s, now, field).body.x == (Low(field) - 1) as real
    ensures Step(s, now, field).dx == 1
  {
  }

  /** The bounce ignores the heading: a Spreader more than one step left of
      the padded field and heading right moves one step in, is still outside
      and flips, moves back and flips again, so it never reaches the field. */
  lemma OutsideJitters(s: State, t1: int, t2: int, field: Field)
    requires s.body.speed > 0 && s.dx == 1 && Unit(s.dy)
    requires s.body.x + s.body.speed as real < Low(field) as real
    ensures Step(s, t1, field).dx == -1
    ensures Step(Step(s, t1, field), t2, field).body.x == s.body.x
    ensures Step(Step(s, t1, field), t2, field).dx == 1
  {
  }

  /** Just outside the padded field but heading further out, the Spreader
      moves out, flips, moves back and flips again, so it never re-enters. */
  lemma HeadingOutJitters(s: State, t1: int, t2: int, field: Field)
    requires s.body.speed > 0 && s.dx == -1 && Unit(s.dy)
    requires s.body.x < Low(field) as real
    ensures Step(s, t1, field).dx == 1
    ensures Step(Step(s, t1, field), t2, field).body.x == s.body.x
    ensures Step(Step(s, t1, field), t2, field).dx == -1
  {
  }

  /** The ticks at which a series of frames fires a burst, in order. */
  function BurstTimes(s: State, times: seq<int>, field: Field): seq<int>
    requires Unit(s.dx) && Unit(s.dy)
    decreases |times|
  {
    if |times| == 0 then []
    else
      (if Bursts(s, times[0]) then [times[0]] else [])
      + BurstTimes(Step(s, times[0], field), times[1..], field)
  }

  /** Over any series of frames, bursts are more than 500 ticks apart, and the
      first is more than 500 ticks after the burst before the series. */
  lemma {:induction false} BurstsRespectCooldown(s: State, times: seq<int>, field: Field)
    requires Unit(s.dx) && Unit(s.dy)
    ensures Spaced(s.prevFire, BurstTimes(s, times, field), BurstCooldown)
    decreases |times|
  {
    if |times| > 0 {
      var s1 := Step(s, times[0], field);
      var rest := BurstTimes(s1, times[1..], field);
      BurstsRespectCooldown(s1, times[1..], field);
      if Bursts(s, times[0]) {
        assert s1.prevFire == times[0];
        assert BurstTimes(s, times, field) == [times[0]] + rest;
        assert ([times[0]] + rest)[1..] == rest;
      } else {
        assert s1.prevFire == s.prevFire;
        assert BurstTimes(s, times, field) == rest;
      }
    }
  }
}
