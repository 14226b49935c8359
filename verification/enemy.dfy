/**
 The part every enemy kind shares: its body (position, base speed, health),
 damage bookkeeping, and the strict "more than N ticks since T" timer test that
 all three kinds use against the game's millisecond tick counter.
 */
module Enemy {

  /** Position (pixels), base movement rate and remaining health. */
  datatype Body = Body(x: real, y: real, speed: int, health: int)

  /** The state after a hit, and whether the hit signalled `destroy`. */
  datatype Damaged = Damaged(body: Body, destroy: bool)

  /** More than `period` ticks have passed between `since` and `now`. */
  predicate Elapsed(now: int, since: int, period: int)
  {
    now - since > period
  }

  /** Each tick in `ts` is more than `period` after the one before it, and
      the first is more than `period` after `last`. */
  predicate Spaced(last: int, ts: seq<int>, period: int)
    decreases |ts|
  {
    |ts| == 0 || (Elapsed(ts[0], last, period) && Spaced(ts[0], ts[1..], period))
  }

  /** A hit lowers health by exactly `amount` and touches nothing else; it
      signals `destroy` whenever the health left is at or below zero. There
      is no "already dead" guard: a body at or below zero signals again. */
  function TakeDamage(b: Body, amount: int): (r: Damaged)
    ensures r.body.x == b.x && r.body.y == b.y && r.body.speed == b.speed
    ensures r.body.health == b.health - amount
    ensures r.destroy <==> b.health <= amount
  {
    var left := b.health - amount;
    Damaged(b.(health := left), left <= 0)
  }

  /** The outcome of a series of hits: the final body and how many of the
      hits signalled `destroy`. */
  datatype HitLog = HitLog(body: Body, signals: nat)

  function TakeHits(b: Body, amounts: seq<int>): HitLog
    decreases |amounts|
  {
    if |amounts| == 0 then HitLog(b, 0)
    else
      var d := TakeDamage(b, amounts[0]);
      var rest := TakeHits(d.body, amounts[1..]);
      HitLog(rest.body, rest.signals + if d.destroy then 1 else 0)
  }

  function Sum(s: seq<int>): int
    decreases |s|
  {
    if |s| == 0 then 0 else s[0] + Sum(s[1..])
  }

  predicate AllNonNegative(s: seq<int>)
  {
    forall i :: 0 <= i < |s| ==> s[i] >= 0
  }

  lemma {:induction false} SumNonNegative(s: seq<int>)
    requires AllNonNegative(s)
    ensures Sum(s) >= 0
    decreases |s|
  {
    if |s| > 0 {
      assert AllNonNegative(s[1..]) by {
        forall i | 0 <= i < |s[1..]| ensures s[1..][i] >= 0 {
          assert s[1..][i] == s[i + 1];
        }
      }
      SumNonNegative(s[1..]);
    }
  }

  /** A series of hits takes off their total and leaves position and speed alone. */
  lemma {:induction false} HitsSubtractTotal(b: Body, amounts: seq<int>)
    ensures TakeHits(b, amounts).body == b.(health := b.health - Sum(amounts))
    decreases |amounts|
  {
    if |amounts| > 0 {
      HitsSubtractTotal(TakeDamage(b, amounts[0]).body, amounts[1..]);
    }
  }

  /** Without an alive guard, every non-negative hit on a body already at or
      below zero health signals `destroy` again. */
  lemma {:induction false} HitsAfterDepletionAllSignal(b: Body, amounts: seq<int>)
    requires b.health <= 0
    requires AllNonNegative(amounts)
    ensures TakeHits(b, amounts).signals == |amounts|
    decreases |amounts|
  {
    if |amounts| > 0 {
      assert AllNonNegative(amounts[1..]) by {
        forall i | 0 <= i < |amounts[1..]| ensures amounts[1..][i] >= 0 {
          assert amounts[1..][i] == amounts[i + 1];
        }
      }
      HitsAfterDepletionAllSignal(TakeDamage(b, amounts[0]).body, amounts[1..]);
    }
  }

  /** With non-negative hits, a non-empty series signals `destroy` at least
      once exactly when it leaves the body at or below zero health. */
  lemma {:induction false} HitsSignalIffDepleted(b: Body, amounts: seq<int>)
    requires |amounts| > 0
    requires AllNonNegative(amounts)
    ensures TakeHits(b, amounts).signals > 0 <==> TakeHits(b, amounts).body.health <= 0
    decreases |amounts|
  {
    var d := TakeDamage(b, amounts[0]);
    var tail := amounts[1..];
    assert AllNonNegative(tail) by {
      forall i | 0 <= i < |tail| ensures tail[i] >= 0 {
        assert tail[i] == amounts[i + 1];
      }
    }
    if |tail| > 0 {
      HitsSignalIffDepleted(d.body, tail);
      if d.destroy {
        HitsSubtractTotal(d.body, tail);
        SumNonNegative(tail);
      }
    }
  }

  /** Five health, hit for 3, 3 and 3: the second hit leaves -1 and signals,
      and the third signals once more, since nothing remembers the first. */
  lemma {:induction false} RepeatedDestroyScenario(b: Body)
    requires b.health == 5
    ensures TakeHits(b, [3, 3]).body.health == -1
    ensures TakeHits(b, [3, 3]).signals == 1
    ensures TakeHits(b, [3, 3, 3]).signals == 2
  {
    assert [3, 3][1..] == [3];
    assert [3, 3, 3][1..] == [3, 3];
    assert [3][1..] == [];
  }
}
