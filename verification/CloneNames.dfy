/**
 Clone names (pkg/util/clones.go) and the substring test by which the ZFS
 manager decides whether a clone exists (internal/provision/thinclones/zfs/zfs.go).
 */
module CloneNames {
  import opened Text

  const CLONE_PREFIX := "dblab_clone_"

  /** Container and dataset name of the clone that listens on `port`. */
  function GetCloneName(port: nat): string {
    CLONE_PREFIX + Decimal(port)
  }

  lemma {:induction false} DecimalInjective(p: nat, q: nat)
    requires Decimal(p) == Decimal(q)
    ensures p == q
  {
    var x, y := Decimal(p), Decimal(q);
    assert x[|x| - 1] == y[|y| - 1];
    if p >= 10 && q >= 10 {
      assert x[..|x| - 1] == Decimal(p / 10) && y[..|y| - 1] == Decimal(q / 10);
      DecimalInjective(p / 10, q / 10);
    }
  }

  /** The port-to-name map is injective. */
  lemma CloneNameInjective(p: nat, q: nat)
    requires GetCloneName(p) == GetCloneName(q)
    ensures p == q
  {
    assert GetCloneName(p)[|CLONE_PREFIX|..] == Decimal(p);
    assert GetCloneName(q)[|CLONE_PREFIX|..] == Decimal(q);
    DecimalInjective(p, q);
  }

  /** Dropping the last decimal digits of `q` until `p` is left. */
  predicate ShortensTo(q: nat, p: nat)
    decreases q
  {
    q == p || (q >= 10 && ShortensTo(q / 10, p))
  }

  lemma {:induction false} DecimalPrefix(p: nat, q: nat)
    ensures Decimal(p) <= Decimal(q) <==> ShortensTo(q, p)
    decreases q
  {
    var x, y := Decimal(p), Decimal(q);
    if q >= 10 {
      DecimalPrefix(p, q / 10);
      assert y[..|y| - 1] == Decimal(q / 10);
      if |x| == |y| && x <= y {
        assert x == y;
        DecimalInjective(p, q);
      } else if x <= y {
        assert x <= y[..|y| - 1];
      }
    } else if x <= y {
      assert x == y;
      DecimalInjective(p, q);
    }
  }

  /** One clone name occurs in another exactly when the port's digits start the other's. */
  lemma NameInName(p: nat, q: nat)
    ensures Contains(GetCloneName(q), GetCloneName(p)) <==> ShortensTo(q, p)
  {
    var x, y := GetCloneName(p), GetCloneName(q);
    if Contains(y, x) {
      var i :| 0 <= i <= |y| - |x| && OccursAt(y, x, i);
      assert y[i] == x[0] == 'd';
      assert forall k :: 0 < k < |CLONE_PREFIX| ==> CLONE_PREFIX[k] != 'd';
      assert i == 0;
      assert Decimal(p) == x[|CLONE_PREFIX|..] && Decimal(q) == y[|CLONE_PREFIX|..];
      assert Decimal(p) == y[..|x|][|CLONE_PREFIX|..];
      assert Decimal(p) <= Decimal(q);
    }
    if Decimal(p) <= Decimal(q) {
      assert x <= y;
      assert OccursAt(y, x, 0);
    }
    DecimalPrefix(p, q);
  }

  lemma {:induction false} ShorteningBounds(q: nat, p: nat)
    requires ShortensTo(q, p) && p != q
    ensures 10 * p <= q
    decreases q
  {
    if q / 10 != p {
      ShorteningBounds(q / 10, p);
    }
  }

  /** The test the ZFS manager applies to `zfs list` output tells two clones apart. */
  ghost predicate SubstringTestExact(from: nat, to: nat) {
    forall p, q :: from <= p < to && from <= q < to ==>
      (Contains(GetCloneName(q), GetCloneName(p)) <==> p == q)
  }

  /**
   The substring test is exact on a port pool if and only if the pool's upper
   bound is at most ten times its lower bound.
   */
  lemma SubstringTestExactIff(from: nat, to: nat)
    requires 0 < from < to
    ensures SubstringTestExact(from, to) <==> to <= 10 * from
  {
    if to <= 10 * from {
      forall p, q | from <= p < to && from <= q < to
        ensures Contains(GetCloneName(q), GetCloneName(p)) <==> p == q
      {
        NameInName(p, q);
        if ShortensTo(q, p) && p != q {
          ShorteningBounds(q, p);
        }
      }
    } else {
      NameInName(from, 10 * from);
      assert ShortensTo(10 * from / 10, from);
      assert Contains(GetCloneName(10 * from), GetCloneName(from));
    }
  }
}
