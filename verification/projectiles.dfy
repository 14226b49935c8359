/**
 The projectiles an enemy owns. The projectile's own flight and drawing are
 outside this model; all an enemy's update looks at is the `destroyed` flag,
 which it uses to drop finished projectiles from its list once per frame.
 */
module Projectiles {

  /** Every projectile an enemy spawns flies at this speed. */
  const ProjectileSpeed: int := 5

  /** A fired shot: where it was spawned, its heading in degrees, its speed,
      and whether the projectile subsystem has marked it finished. */
  datatype Projectile = Projectile(x: real, y: real, angle: real, speed: int, destroyed: bool)

  /** A freshly spawned projectile (not yet destroyed). */
  function Spawn(x: real, y: real, angle: real): Projectile
  {
    Projectile(x, y, angle, ProjectileSpeed, false)
  }

  predicate NoneDestroyed(ps: seq<Projectile>)
  {
    forall i :: 0 <= i < |ps| ==> !ps[i].destroyed
  }

  /** `a` can be embedded in `b` keeping its order (not necessarily contiguously). */
  predicate IsSubsequence(a: seq<Projectile>, b: seq<Projectile>)
    decreases |b|
  {
    |a| == 0 ||
    (|b| > 0 && ((a[0] == b[0] && IsSubsequence(a[1..], b[1..])) || IsSubsequence(a, b[1..])))
  }

  /** The per-frame list comprehension keeping the projectiles that are not
      destroyed: the result keeps every live entry, in the original order, and
      nothing else. */
  function Prune(ps: seq<Projectile>): (r: seq<Projectile>)
    ensures NoneDestroyed(r)
    ensures IsSubsequence(r, ps)
    ensures forall p :: multiset(r)[p] == if p.destroyed then 0 else multiset(ps)[p]
    decreases |ps|
  {
    if |ps| == 0 then []
    else
      assert ps == [ps[0]] + ps[1..];
      if ps[0].destroyed then Prune(ps[1..]) else [ps[0]] + Prune(ps[1..])
  }

  /** Pruning a concatenation prunes each part separately, so entries appended
      after the existing ones stay after them. */
  lemma {:induction false} PruneAppend(a: seq<Projectile>, b: seq<Projectile>)
    ensures Prune(a + b) == Prune(a) + Prune(b)
    decreases |a|
  {
    if |a| == 0 {
      assert a + b == b;
    } else {
      assert (a + b)[1..] == a[1..] + b;
      PruneAppend(a[1..], b);
    }
  }

  /** Pruning changes nothing exactly when no entry is destroyed; in
      particular pruning twice is the same as pruning once. */
  lemma {:induction false} PruneKeepsLiveLists(ps: seq<Projectile>)
    ensures Prune(ps) == ps <==> NoneDestroyed(ps)
    ensures Prune(Prune(ps)) == Prune(ps)
    decreases |ps|
  {
    if |ps| > 0 {
      PruneKeepsLiveLists(ps[1..]);
      if NoneDestroyed(ps) {
        assert NoneDestroyed(ps[1..]) by {
          forall i | 0 <= i < |ps[1..]| ensures !ps[1..][i].destroyed {
            assert ps[1..][i] == ps[i + 1];
          }
        }
      }
    }
    PruneLiveIsIdentity(Prune(ps));
  }

  lemma {:induction false} PruneLiveIsIdentity(ps: seq<Projectile>)
    requires NoneDestroyed(ps)
    ensures Prune(ps) == ps
    decreases |ps|
  {
    if |ps| > 0 {
      assert NoneDestroyed(ps[1..]) by {
        forall i | 0 <= i < |ps[1..]| ensures !ps[1..][i].destroyed {
          assert ps[1..][i] == ps[i + 1];
        }
      }
      PruneLiveIsIdentity(ps[1..]);
    }
  }

  /** No order-preserving selection of live entries is longer than `Prune`'s. */
  lemma {:induction false} PruneIsLongest(r: seq<Projectile>, ps: seq<Projectile>)
    requires IsSubsequence(r, ps) && NoneDestroyed(r)
    ensures |r| <= |Prune(ps)|
    decreases |ps|
  {
    if |r| > 0 {
      assert NoneDestroyed(r[1..]) by {
        forall i | 0 <= i < |r[1..]| ensures !r[1..][i].destroyed {
          assert r[1..][i] == r[i + 1];
        }
      }
      if r[0] == ps[0] && IsSubsequence(r[1..], ps[1..]) {
        PruneIsLongest(r[1..], ps[1..]);
      } else {
        PruneIsLongest(r, ps[1..]);
      }
    }
  }

  /** `Prune` is THE longest order-preserving selection of live entries: any
      other selection of that length is equal to it. */
  lemma {:induction false} PruneIsUnique(r: seq<Projectile>, ps: seq<Projectile>)
    requires IsSubsequence(r, ps) && NoneDestroyed(r)
    requires |r| == |Prune(ps)|
    ensures r == Prune(ps)
    decreases |ps|
  {
    if |r| > 0 {
      assert NoneDestroyed(r[1..]) by {
        forall i | 0 <= i < |r[1..]| ensures !r[1..][i].destroyed {
          assert r[1..][i] == r[i + 1];
        }
      }
      if ps[0].destroyed {
        assert r[0] != ps[0];
        PruneIsUnique(r, ps[1..]);
      } else if r[0] == ps[0] && IsSubsequence(r[1..], ps[1..]) {
        PruneIsUnique(r[1..], ps[1..]);
      } else {
        PruneIsLongest(r, ps[1..]);
        assert false;
      }
    }
  }
}
