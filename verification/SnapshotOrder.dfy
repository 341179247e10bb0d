/**
 The latest snapshot (internal/cloning/snapshots.go): the fold over the fetched
 entries compares printed times, and still leaves the newest one.
 */
module SnapshotOrder {
  import opened Options
  import opened Text
  import opened TimeText
  import opened Provision
  import opened Cloning
  import opened CloningSafety

  /** A data state: no time at all, which prints as the zero time, or a time whose year has this many digits. */
  predicate DataState(t: Time, digits: nat) {
    t == ZERO_TIME || (t.Valid() && Digits(t.year) == digits)
  }

  /** The entries carry the printed times. */
  ghost predicate Printed(entries: seq<SnapshotEntry>, times: seq<Time>) {
    |entries| == |times| && forall k :: 0 <= k < |entries| ==> entries[k].dataStateAt == FormatTime(times[k])
  }

  ghost predicate Dated(entries: seq<SnapshotEntry>, times: seq<Time>, digits: nat) {
    Printed(entries, times) && forall k :: 0 <= k < |times| ==> DataState(times[k], digits)
  }

  lemma PrintedOrder(a: Time, b: Time, digits: nat)
    requires DataState(a, digits) && DataState(b, digits)
    ensures LexLess(FormatTime(a), FormatTime(b)) <==> Earlier(a, b)
    ensures FormatTime(a) != ""
  {
    assert Digits(1) == 1 by { assert Decimal(1) == ['1']; }
    if a.Valid() && b.Valid() && Digits(a.year) == Digits(b.year) {
      FormatTimeOrder(a, b);
    } else if a == ZERO_TIME {
      ZeroTimeFirst(b);
    } else {
      ZeroTimeFirst(a);
    }
  }

  /** The fold leaves the first entry with the greatest text. */
  lemma {:induction false} LatestByText(entries: seq<SnapshotEntry>) returns (k: nat)
    requires entries != [] && forall j :: 0 <= j < |entries| ==> entries[j].dataStateAt != ""
    ensures k < |entries| && LatestOf(entries) == Some(entries[k])
    ensures forall j :: 0 <= j < |entries| ==> !LexLess(entries[k].dataStateAt, entries[j].dataStateAt)
    ensures forall j :: 0 <= j < k ==> LexLess(entries[j].dataStateAt, entries[k].dataStateAt)
  {
    var n := |entries| - 1;
    var rest, last := entries[..n], entries[n].dataStateAt;
    LexIrreflexive(last);
    if n == 0 {
      assert rest == [];
      k := 0;
    } else {
      k := LatestByText(rest);
      if LexLess(entries[k].dataStateAt, last) {
        forall j | 0 <= j < n ensures LexLess(entries[j].dataStateAt, last) && !LexLess(last, entries[j].dataStateAt) {
          LexTotal(rest[j].dataStateAt, rest[k].dataStateAt);
          if entries[j].dataStateAt != entries[k].dataStateAt {
            LexTransitive(entries[j].dataStateAt, entries[k].dataStateAt, last);
          }
          if LexLess(last, entries[j].dataStateAt) {
            LexTransitive(last, entries[j].dataStateAt, last);
          }
        }
        k := n;
      }
    }
  }

  lemma LatestOfIsNewest(entries: seq<SnapshotEntry>, times: seq<Time>, digits: nat) returns (k: nat)
    requires Dated(entries, times, digits) && entries != []
    ensures k < |entries| && LatestOf(entries) == Some(entries[k])
    ensures forall j :: 0 <= j < |entries| ==> !Earlier(times[k], times[j])
    ensures forall j :: 0 <= j < k ==> Earlier(times[j], times[k])
  {
    forall j | 0 <= j < |entries| ensures entries[j].dataStateAt != "" {
      PrintedOrder(times[j], times[j], digits);
    }
    k := LatestByText(entries);
    forall j | 0 <= j < |entries| ensures !Earlier(times[k], times[j]) && (j < k ==> Earlier(times[j], times[k])) {
      PrintedOrder(times[k], times[j], digits);
      PrintedOrder(times[j], times[k], digits);
    }
  }

  /**
   After a fetch the latest snapshot is in the box and no item of the box is
   newer; among equally new entries the first one listed is taken.
   */
  lemma FetchFindsNewest(e: Engine, entries: seq<SnapshotEntry>, times: seq<Time>, digits: nat) returns (k: nat)
    requires Dated(entries, times, digits) && entries != []
    ensures k < |entries| && Fetch(e, entries).latest == Some(entries[k]) && entries[k].id in Fetch(e, entries).items
    ensures forall s :: s in Fetch(e, entries).items ==>
      exists j :: 0 <= j < |entries| && Fetch(e, entries).items[s].entry == entries[j] && !Earlier(times[k], times[j])
    ensures forall j :: 0 <= j < k ==> Earlier(times[j], times[k])
  {
    k := LatestOfIsNewest(entries, times, digits);
    FetchCounts(entries, e.clones, e.wrappers);
  }

  /** Whatever entries of these years are listed, the latest one is one of the newest. */
  ghost predicate FindsNewest(lo: nat, hi: nat) {
    forall entries: seq<SnapshotEntry>, times: seq<Time> ::
      Printed(entries, times) && entries != [] && (forall k :: 0 <= k < |times| ==> InYears(times[k], lo, hi)) ==>
          NewestTaken(entries, times)
  }

  ghost predicate NewestTaken(entries: seq<SnapshotEntry>, times: seq<Time>)
    requires |entries| == |times|
  {
    exists k :: 0 <= k < |entries| && LatestOf(entries) == Some(entries[k]) && NoneNewer(times, k)
  }

  ghost predicate NoneNewer(times: seq<Time>, k: nat)
    requires k < |times|
  {
    forall j :: 0 <= j < |times| ==> !Earlier(times[k], times[j])
  }

  /**
   The engine finds the newest snapshot over a range of years if and only if the range does not
   reach the next power of ten above its beginning.
   */
  lemma FindsNewestIff(lo: nat, hi: nat)
    requires lo < hi
    ensures FindsNewest(lo, hi) <==> hi <= Pow10(Digits(lo))
  {
    var w := Digits(lo);
    if hi <= Pow10(w) {
      forall entries: seq<SnapshotEntry>, times: seq<Time> | Printed(entries, times) && entries != [] &&
        (forall k :: 0 <= k < |times| ==> InYears(times[k], lo, hi))
        ensures NewestTaken(entries, times)
      {
        forall k | 0 <= k < |times| ensures DataState(times[k], w) {
          SameDigits(lo, times[k].year);
        }
        var k := LatestOfIsNewest(entries, times, w);
        assert NoneNewer(times, k);
      }
    } else {
      TurnOfYears(w);
      OlderIsTaken(lo, hi, NewYear(Pow10(w) - 1), NewYear(Pow10(w)));
    }
  }

  /** A time that prints as no earlier than a later one is taken for the newest. */
  lemma OlderIsTaken(lo: nat, hi: nat, a: Time, b: Time)
    requires InYears(a, lo, hi) && InYears(b, lo, hi) && Earlier(a, b)
    requires FormatTime(a) != "" && !LexLess(FormatTime(a), FormatTime(b))
    ensures !FindsNewest(lo, hi)
  {
    FirstIsTaken(a, b);
    var entries, times := Two(a, b), [a, b];
    assert Printed(entries, times) && forall k :: 0 <= k < |times| ==> InYears(times[k], lo, hi);
    assert !NewestTaken(entries, times);
  }

  function Two(a: Time, b: Time): seq<SnapshotEntry> {
    [SnapshotEntry("a", "", FormatTime(a)), SnapshotEntry("b", "", FormatTime(b))]
  }

  lemma FirstIsTaken(a: Time, b: Time)
    requires Earlier(a, b) && FormatTime(a) != "" && !LexLess(FormatTime(a), FormatTime(b))
    ensures !NewestTaken(Two(a, b), [a, b])
  {
    var entries, times := Two(a, b), [a, b];
    FirstOfTwo(entries[0], entries[1]);
    assert entries == [entries[0], entries[1]];
    forall k | 0 <= k < |entries| && LatestOf(entries) == Some(entries[k]) ensures !NoneNewer(times, k) {
      assert entries[0] != entries[1];
      assert Earlier(times[k], times[1]);
    }
  }

  lemma FirstOfTwo(x: SnapshotEntry, y: SnapshotEntry)
    requires x.dataStateAt != "" && !LexLess(x.dataStateAt, y.dataStateAt)
    ensures LatestOf([x, y]) == Some(x)
  {
    assert [x, y][..1] == [x] && [x][..0] == [];
    assert LatestOf([x]) == Some(x);
  }

  // -------------------------------------------- what a reset to the latest takes

  /** The snapshots of one pool. */
  type PoolList = seq<SnapshotEntry>

  /** The snapshots of the active pools, one pool after the other. */
  function Gathered(pools: seq<PoolList>): seq<SnapshotEntry> {
    if pools == [] then [] else pools[0] + Gathered(pools[1..])
  }

  /** Each pool lists its snapshots from the newest data state to the oldest. */
  ghost predicate NewestFirst(list: PoolList) {
    forall i, j :: 0 <= i < j < |list| ==> !LexLess(list[i].dataStateAt, list[j].dataStateAt)
  }

  ghost predicate EachNewestFirst(pools: seq<PoolList>) {
    forall p: PoolList :: p in pools ==> NewestFirst(p)
  }

  /** A reset to the latest snapshot takes one than which none is newer. */
  ghost predicate TakesNewest(pools: seq<PoolList>) {
    var chosen := ChooseSnapshot(Gathered(pools), "");
    chosen.Some? && forall x :: x in Gathered(pools) ==> !LexLess(chosen.value.dataStateAt, x.dataStateAt)
  }

  lemma {:induction false} GatheredMembers(pools: seq<PoolList>, x: SnapshotEntry)
    ensures x in Gathered(pools) <==> exists p :: p in pools && x in p
  {
    if pools != [] {
      GatheredMembers(pools[1..], x);
      assert forall p: PoolList :: p in pools <==> p == pools[0] || p in pools[1..];
    }
  }

  /** The list begins with the first snapshot of some pool. */
  lemma {:induction false} GatheredHead(pools: seq<PoolList>) returns (p: PoolList)
    requires Gathered(pools) != []
    ensures p in pools && p != [] && p[0] == Gathered(pools)[0]
    ensures pools[0] != [] ==> p == pools[0]
  {
    if pools[0] != [] {
      p := pools[0];
    } else {
      p := GatheredHead(pools[1..]);
    }
  }

  lemma TakesNewestIff(pools: seq<PoolList>)
    requires EachNewestFirst(pools) && Gathered(pools) != []
    ensures TakesNewest(pools) <==>
      forall p: PoolList :: p in pools && p != [] ==> !LexLess(Gathered(pools)[0].dataStateAt, p[0].dataStateAt)
  {
    var first := Gathered(pools)[0];
    forall p: PoolList | p in pools && p != [] ensures p[0] in Gathered(pools) {
      GatheredMembers(pools, p[0]);
    }
    if forall p: PoolList :: p in pools && p != [] ==> !LexLess(first.dataStateAt, p[0].dataStateAt) {
      forall x | x in Gathered(pools) ensures !LexLess(first.dataStateAt, x.dataStateAt) {
        GatheredMembers(pools, x);
        var p :| p in pools && x in p;
        var i :| 0 <= i < |p| && p[i] == x;
        NotNewer(first.dataStateAt, p, i);
      }
    }
  }

  lemma NotNewer(text: string, p: PoolList, i: nat)
    requires NewestFirst(p) && i < |p| && !LexLess(text, p[0].dataStateAt)
    ensures !LexLess(text, p[i].dataStateAt)
  {
    if i > 0 && LexLess(text, p[i].dataStateAt) {
      LexTotal(p[0].dataStateAt, p[i].dataStateAt);
      if p[0].dataStateAt != p[i].dataStateAt {
        LexTotal(text, p[0].dataStateAt);
        LexTransitive(p[i].dataStateAt, p[0].dataStateAt, text);
        LexTransitive(text, p[i].dataStateAt, text);
        LexIrreflexive(text);
      }
    }
  }

  /** The newest snapshots of all pools that have any are equally new. */
  ghost predicate HeadsTie(pools: seq<PoolList>) {
    forall p: PoolList, q: PoolList :: p in pools && q in pools && p != [] && q != [] ==>
        p[0].dataStateAt == q[0].dataStateAt
  }

  /** An order in which the active pools may come up. */
  ghost predicate OrderOf(order: seq<PoolList>, pools: seq<PoolList>) {
    multiset(order) == multiset(pools)
  }

  lemma OrderMembers(order: seq<PoolList>, pools: seq<PoolList>)
    requires OrderOf(order, pools)
    ensures forall p :: p in order <==> p in pools
    ensures forall x :: x in Gathered(order) <==> x in Gathered(pools)
  {
    forall p ensures p in order <==> p in pools {
      assert p in order <==> p in multiset(order);
      assert p in pools <==> p in multiset(pools);
    }
    forall x ensures x in Gathered(order) <==> x in Gathered(pools) {
      GatheredMembers(order, x);
      GatheredMembers(pools, x);
    }
  }

  /** This pool comes up first. */
  lemma PoolFirst(pools: seq<PoolList>, p: PoolList) returns (order: seq<PoolList>)
    requires p in pools
    ensures OrderOf(order, pools) && order != [] && order[0] == p
  {
    var k :| 0 <= k < |pools| && pools[k] == p;
    order := [p] + (pools[..k] + pools[k + 1..]);
    assert pools == pools[..k] + [p] + pools[k + 1..];
  }

  lemma OlderFirst(pools: seq<PoolList>, p: PoolList, q: PoolList)
    returns (order: seq<PoolList>)
    requires p in pools && q in pools && p != [] && q != [] && LexLess(p[0].dataStateAt, q[0].dataStateAt)
    ensures OrderOf(order, pools) && !TakesNewest(order)
  {
    order := PoolFirst(pools, p);
    OrderMembers(order, pools);
    GatheredMembers(order, q[0]);
    assert Gathered(order)[0] == p[0];
  }

  lemma TieTakesNewest(pools: seq<PoolList>, order: seq<PoolList>)
    requires EachNewestFirst(pools) && Gathered(pools) != [] && HeadsTie(pools) && OrderOf(order, pools)
    ensures TakesNewest(order)
  {
    OrderMembers(order, pools);
    assert Gathered(pools)[0] in Gathered(order);
    var first := GatheredHead(order);
    LexIrreflexive(first[0].dataStateAt);
    TakesNewestIff(order);
  }

  /**
   A reset to the latest snapshot takes the first of the list, whose pools come up in
   any order. It lands on a newest one in every order if and only if the newest
   snapshots of all active pools that have snapshots are equally new.
   */
  lemma ResetToLatestIff(pools: seq<PoolList>)
    requires EachNewestFirst(pools) && Gathered(pools) != []
    ensures (forall order :: OrderOf(order, pools) ==> TakesNewest(order)) <==> HeadsTie(pools)
  {
    if HeadsTie(pools) {
      forall order | OrderOf(order, pools) ensures TakesNewest(order) {
        TieTakesNewest(pools, order);
      }
    } else {
      var p: PoolList, q: PoolList :| p in pools && q in pools && p != [] && q != [] &&
        p[0].dataStateAt != q[0].dataStateAt;
      LexTotal(p[0].dataStateAt, q[0].dataStateAt);
      if LexLess(p[0].dataStateAt, q[0].dataStateAt) {
        var order := OlderFirst(pools, p, q);
      } else {
        var order := OlderFirst(pools, q, p);
      }
    }
  }
}
