# Enemy behaviour of a 2D arcade shooter, in Dafny

This project models the timer-driven decisions of the game's three enemy
kinds, taken out of the rendering and physics library. Each kind becomes an
immutable state record with a pure `Step` function. The game's millisecond
tick counter is passed in as `now`. The results of the floating-point
steering are passed in per frame, as are the play-field size and the random
choices.

- `Enemy` (enemy.dfy) holds what all kinds share: the body (position, base
  speed, health) and damage bookkeeping. A hit lowers health by its amount
  and signals `destroy` whenever health ends at or below zero. Nothing
  guards against doing so again. `Elapsed(now, since, period)` is the strict
  "more than `period` ticks" test that every timer uses.
- `Projectiles` (projectiles.dfy) holds a projectile record with an opaque
  `destroyed` flag. It also holds `Prune`, the per-frame filter that keeps
  the live projectiles in order. `Prune` is proved to be the unique longest
  order-preserving selection of live entries.
- `Chaser` (chaser.dfy) models the afterimage trail. It is a first-in
  first-out buffer of at most 15 samples, sampled when more than 40 ticks
  have passed.
- `Shooter` (shooter.dfy) models the engagement machine. `Approaching` stands
  for the game's `move_stop = None` and `Engaging(since)` for `move_stop = since`. The
  Shooter engages below distance 240. It stops accelerating while engaged.
  It fires at most once per frame, only after more than 500 ticks engaged
  and more than 50 ticks since the last shot.
- `Spreader` (spreader.dfy) models bounce and burst. The Spreader moves,
  then flips each direction component on its own when the moved position is
  outside the field shrunk by the stage padding and radius 15. Every
  more-than-500 ticks it appends four projectiles at 0, 90, 180 and 270
  degrees minus `now / 10`.

Two behaviours of the code are modelled as written, although a reader might
expect otherwise:

- The code has no "alive" guard. Every hit at or below zero health signals
  `destroy` again (`RepeatedDestroyScenario`), not exactly once.
- Every timer comparison is strict: trail sampling needs more than 40 ticks,
  firing more than 500 ticks engaged and more than 50 ticks of cooldown, and
  a burst more than 500 ticks. A wait of exactly the period is not enough.

The bounce flips a direction component whenever the moved position is outside
the padded field, whichever way the Spreader is heading. A Spreader inside
the padded field, or within one step of it and heading back in, stays so
(`RunStaysInside`). One that is outside and heading further out jitters in
place: it moves out, flips, moves back and flips again (`HeadingOutJitters`).
So does one that is more than one step out, even heading in, for instance
spawned there or left outside by a smaller window (`OutsideJitters`).

Python's `//` floors. For the positive divisor 10 this agrees with Dafny's
`/`, so `now / 10` models `get_ticks() // 10` for every integer `now`. The clock
reads of one update are all taken to be the same `now` (see "## Left out").

## Model

| member | source | states |
|---|---|---|
| Enemy.TakeDamage | enemy.py:29-36 | health drops by exactly the amount, position and speed are untouched, and `destroy` is signalled iff the amount is at least the old health (new health at or below zero) |
| Enemy.HitsSubtractTotal | enemy.py:29-30 | any series of hits lowers health by their sum and changes nothing else |
| Enemy.HitsAfterDepletionAllSignal | enemy.py:29-36 | with no alive guard, every non-negative hit on a body at or below zero health signals `destroy` again |
| Enemy.HitsSignalIffDepleted | enemy.py:29-32 | a non-empty series of non-negative hits signals at least once iff it leaves health at or below zero |
| Enemy.RepeatedDestroyScenario | enemy.py:29-36 | health 5 hit by 3 and 3 ends at -1 with one signal; a third hit of 3 signals a second time |
| Projectiles.Prune | enemy.py:148 | the result has no destroyed entry, embeds in the input in order, and holds each live projectile as often as the input does and no destroyed one |
| Projectiles.PruneAppend | enemy.py:141-148 | pruning a list with new projectiles appended equals pruning the old list then appending the pruned new ones, so new shots stay after the old ones |
| Projectiles.PruneKeepsLiveLists | enemy.py:206 | pruning leaves a list unchanged iff it has no destroyed entry, and pruning twice equals pruning once |
| Projectiles.PruneLiveIsIdentity | enemy.py:206 | a list with no destroyed entry, such as a fresh burst, survives pruning unchanged |
| Projectiles.PruneIsLongest | enemy.py:148 | no order-preserving selection of live entries is longer than the pruned list |
| Projectiles.PruneIsUnique | enemy.py:206 | any order-preserving selection of live entries as long as the pruned list is the pruned list |
| Chaser.Init | enemy.py:43-56 | a new Chaser sits at the spawn position with speed 3 and health 5, an empty trail and its last sample at tick 0 |
| Chaser.Step | enemy.py:72-76 | a sample is taken iff more than 40 ticks passed; it goes last and the timer moves to `now`; a full trail of 15 drops its oldest entry; otherwise trail and timer are unchanged; a trail of at most 15 stays at most 15 |
| Chaser.RunTrailIsNewestSamples | enemy.py:73-75 | after any series of frames the trail is exactly the newest 15 of all samples ever held, oldest first |
| Chaser.TakenIsRateLimited | enemy.py:72-76 | if no frame is later than tick t, the frames take at most (t - previous sample) / 41 samples, and the timer stays at or below t |
| Shooter.Init | enemy.py:97-114 | a new Shooter sits at the spawn position with speed 2 and health 5, is approaching at acceleration 0.2, has its last shot at tick 0 (so nothing fires before tick 51) and has no projectiles |
| Shooter.Step | enemy.py:131-148 | out of range (240 or more): approaching, acceleration 0.2, no shot. In range: acceleration 0, entry time set only on entry, otherwise kept. A shot happens iff engaged more than 500 ticks and more than 50 ticks since the last shot; it is appended last and sets the timer to `now`. The result has no destroyed projectile |
| Shooter.AtMostOneShot | enemy.py:131-143 | a frame adds at most one projectile to the pruned list; the frame that enters range never fires; the shot timer changes iff the frame fires |
| Shooter.RunEndsAtLastShot | enemy.py:136-142 | after any series of frames the shot timer is the tick of the last shot, or unchanged if none |
| Shooter.ShotsRespectCooldown | enemy.py:136-142 | over any series of frames, consecutive shots are more than 50 ticks apart, and the first is more than 50 after the previous shot |
| Shooter.OutOfRangeNeverFires | enemy.py:131-146 | while every frame is at distance 240 or more, nothing is fired, and the Shooter ends approaching at acceleration 0.2 |
| Shooter.InRangeKeepsEntry | enemy.py:131-133 | while every frame stays in range, the engagement start tick is kept |
| Shooter.EngagedShotsWaitForAimDelay | enemy.py:131-135 | while every frame stays in range, every shot is more than 500 ticks after the engagement start |
| Shooter.FirstShotAfterAimDelay | enemy.py:131-135 | from approach, a stretch of in-range frames fires nothing within 500 ticks of its first frame |
| Spreader.Init | enemy.py:164-176 | a new Spreader sits at the spawn position with speed 1 and health 5, moves in exactly the chosen direction (each component -1 or +1), has its last burst at tick 0 and has no projectiles |
| Spreader.Bounce | enemy.py:179-192 | the axis moves by direction times speed; the direction flips iff the moved position is below the low bound or above the high bound; it stays -1 or +1 |
| Spreader.Burst | enemy.py:194-203 | exactly four live projectiles at the Spreader's position and speed 5; the first angle is `-(now / 10)` and each next one is 90 degrees more |
| Spreader.Step | enemy.py:178-206 | each axis moves and flips independently against padding + 15 and size - padding - 15. A burst happens iff more than 500 ticks passed; it appends four projectiles after the pruned old ones and sets the timer to `now`. Otherwise the list is only pruned and the timer kept |
| Spreader.Run | enemy.py:178-192 | over any series of frames both direction components stay -1 or +1 |
| Spreader.BurstsRespectCooldown | enemy.py:194-204 | over any series of frames, bursts are more than 500 ticks apart, and the first is more than 500 after the burst before the series |
| Spreader.BounceKeepsContained | enemy.py:181-192 | an axis within one step of the padded bounds, and heading back whenever outside them, stays so after a move and bounce |
| Spreader.RunStaysInside | enemy.py:178-192 | in a field wide enough for non-empty bounds, a Spreader that starts contained stays within one step of the padded field forever |
| Spreader.OutsideJitters | enemy.py:179-192 | a Spreader more than one step left of the padded field and heading right moves one step in and flips, then moves back and flips again: after two updates it is where it started, heading the same way |
| Spreader.HeadingOutJitters | enemy.py:179-192 | a Spreader left of the padded field and heading left moves out and flips, then moves back and flips again: after two updates it is where it started, heading left again |
| Spreader.LeftEdgeMovesThenTurns | enemy.py:179-186 | at the left bound heading left with speed 1, an update moves one further left and then turns right (move before check) |

## Left out

- Chaser and Shooter steering is left out: direction normalisation, friction, acceleration, speed clamping and position integration (enemy.py:59-70, 117-129). This is floating-point vector arithmetic. Each frame supplies its results instead: the position after the move and the Chaser's direction. The Shooter's frame supplies the distance to the player measured before the move.
- The Shooter's aim angle is left out. The arctangent in degrees plus `random.randint(-20, 20)` (enemy.py:137-139) is floating point plus a random draw. It arrives as the frame's `aim` value.
- Spreader.Bounce: requires a direction component of -1 or +1. `Init` guarantees this and `Step` keeps it, so no Spreader has any other value. With a zero component, flipping and keeping would coincide.
- Spreader.Init: the random choice of each direction component (enemy.py:176) is an argument restricted to -1 or +1.
- `check_collision` (enemy.py:38-39) is left out. It only calls the graphics library's rectangle intersection, whose behaviour is not part of this model. The collision rectangle is left out with it.
- Drawing, image loading, rotation and alpha are left out, as is the `print` in `destroy`. These are rendering and console output. `destroy` itself has no other effect, so it is modelled as the signal flag of `Damaged`.
- Projectile flight and drawing are left out. `projectile.py` is not part of this model. A projectile keeps its spawn position, angle, speed and `destroyed` flag. A new projectile is assumed not destroyed. The owner reference is dropped.
- The calls to `update` on each remaining projectile after pruning (enemy.py:149-150, 207-208) belong to the projectile subsystem. A `destroyed` flag they set is seen by the next frame's pruning only if the caller marks it in the state between two `Step`s. The `Run` functions chain `Step`s with nothing in between, so within a `Run` no projectile becomes destroyed, and every pruning after the first frame leaves the list unchanged.
- The base class's abstract `update`/`draw` (enemy.py:21-27) raise "not implemented". Each kind's module has its own `Step` instead, so there is no base-class dispatch.
- The display size and `STAGE_PADDING` come from the graphics context and the configuration file. They are the `Field` argument, and the padding's configured value is unknown here. The padding is assumed to be an integer, like the display size.
- Positions are exact `real`s, so floating-point rounding is not modelled. The game keeps positions as Python floats and moves the Spreader with float additions (enemy.py:179-180). The model's arithmetic is exact for whole-number positions, which is what a speed of 1 and a direction of ±1 produce from a whole-number spawn point. For other positions a sum can round: `OutsideJitters` and `HeadingOutJitters` then return only approximately to the start (0.1 + 1.0 - 1.0 is 0.10000000000000009 in floats).
- The Chaser's and Shooter's remaining constants (maximum speed 7 and 1.5, friction 0.95, Chaser acceleration 0.7) only matter to the steering that is left out. The Shooter's radius 15 (enemy.py:109) is never read; only the Spreader reads its own radius.
- Each update's clock reads are modelled as one `now`, in the Chaser and the Shooter as well as in the Spreader. The Chaser tests one `get_ticks()` read (enemy.py:72) but stores a second read as `prev_trail` (enemy.py:76), which can be a later tick. The Shooter stores one read as `move_stop` (enemy.py:133) and tests a separate `current_time` read (enemy.py:134-136). The Spreader reads the clock five times in a burst frame: once for the cooldown test (enemy.py:194) and once per projectile inside the loop (enemy.py:200). So "the timer moves to `now`" (Chaser.Step), "the frame that enters range never fires" (Shooter.AtMostOneShot) and "each next angle is 90 degrees more" (Spreader.Burst, Spreader.Step) assume that all reads of a frame return the same tick. The tick counter never goes back, so if it crosses a multiple of 10 during the burst loop, two neighbouring angles are less than 90 degrees apart (89 for one crossing).
