/** Sums over the values of a map, whatever the order in which its keys come up. */
module Sums {

  ghost function Sum(m: map<string, real>): real {
    if m.Keys == {} then 0.0
    else
      var k :| k in m;
      m[k] + Sum(m - {k})
  }

  lemma {:induction false} SumWithout(m: map<string, real>, k: string)
    requires k in m
    ensures Sum(m) == m[k] + Sum(m - {k})
    decreases m.Keys
  {
    var c :| c in m && Sum(m) == m[c] + Sum(m - {c});
    if c != k {
      SumWithout(m - {c}, k);
      SumWithout(m - {k}, c);
      assert m - {c} - {k} == m - {k} - {c};
    }
  }

  function ValueAt(m: map<string, real>, k: string): real {
    if k in m then m[k] else 0.0
  }

  lemma SumUpdate(m: map<string, real>, k: string, v: real)
    ensures Sum(m[k := v]) == Sum(m) - ValueAt(m, k) + v
  {
    SumWithout(m[k := v], k);
    if k in m {
      SumWithout(m, k);
      assert m[k := v] - {k} == m - {k};
    } else {
      assert m[k := v] - {k} == m;
    }
  }

  const TOTAL_PERCENT := 100.0

  /** A part as a percentage of the whole. */
  function Share(part: real, whole: real): real
    requires whole != 0.0
  {
    TOTAL_PERCENT * part / whole
  }

  lemma ShareAdds(a: real, b: real, whole: real)
    requires whole != 0.0
    ensures Share(a + b, whole) == Share(a, whole) + Share(b, whole)
  {
  }

  lemma ShareEnds(whole: real)
    requires whole != 0.0
    ensures Share(whole, whole) == TOTAL_PERCENT && Share(0.0, whole) == 0.0
  {
  }

  function Shares(m: map<string, real>, whole: real): map<string, real>
    requires whole != 0.0
  {
    map k | k in m :: Share(m[k], whole)
  }

  lemma {:induction false} SumShares(m: map<string, real>, whole: real)
    requires whole != 0.0
    ensures Sum(Shares(m, whole)) == Share(Sum(m), whole)
    decreases m.Keys
  {
    if m.Keys == {} {
      ShareEnds(whole);
      assert Shares(m, whole) == map[];
    } else {
      var k :| k in m;
      SumWithout(m, k);
      SumWithout(Shares(m, whole), k);
      assert Shares(m, whole) - {k} == Shares(m - {k}, whole);
      SumShares(m - {k}, whole);
      ShareAdds(m[k], Sum(m - {k}), whole);
    }
  }

  /** The entries whose keys the predicate holds of. */
  function Where(m: map<string, real>, p: string -> bool): map<string, real> {
    map k | k in m && p(k) :: m[k]
  }

  /** Adding a new key adds its value to the sum of one side. */
  lemma WhereUpdate(m: map<string, real>, k: string, v: real, p: string -> bool)
    requires k !in m
    ensures Sum(Where(m[k := v], p)) == Sum(Where(m, p)) + if p(k) then v else 0.0
  {
    if p(k) {
      assert Where(m[k := v], p) == Where(m, p)[k := v];
      SumUpdate(Where(m, p), k, v);
    } else {
      assert Where(m[k := v], p) == Where(m, p);
    }
  }

  lemma {:induction false} SumNonNegative(m: map<string, real>)
    requires forall k :: k in m ==> m[k] >= 0.0
    ensures Sum(m) >= 0.0
    decreases m.Keys
  {
    if m.Keys != {} {
      var k :| k in m;
      SumWithout(m, k);
      SumNonNegative(m - {k});
    }
  }
}
