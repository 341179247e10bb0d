/**
 Pool discovery (examineEntries of internal/provision/pool/pool_manager.go):
 the entries of the mount directory become the map of pool managers and the
 queue of their names.
 */
module PoolDiscovery {
  import opened Options
  import opened PoolQueue

  datatype FileSystem = Unknown | Zfs | Lvm | Other

  /** A directory entry and what the host says about it when its turn comes. */
  datatype Entry = Entry(
    name: string, isDir: bool, fs: FileSystem,
    dataStateAt: Option<int>,              // none: no marker, an empty one, or one that cannot be parsed
    mappings: Option<map<string, string>>, // ZFS pool names by directory, if they can be listed
    managerCreated: bool)

  /** Without a data state the time stays at its zero value. */
  const ZERO_DSA := 0

  datatype Pool = Pool(fs: FileSystem, dirName: string, dsa: int, status: PoolStatus)

  datatype Named = Named(name: string, pool: Pool)

  function NewPool(e: Entry): Pool {
    match e.dataStateAt
    case Some(t) => Pool(e.fs, e.name, t, ActivePool)
    case None => Pool(e.fs, e.name, ZERO_DSA, EmptyPool)
  }

  predicate Eligible(e: Entry, selected: string) {
    e.isDir && (selected == "" || selected == e.name) && (e.fs == Zfs || e.fs == Lvm)
  }

  /** The mappings known once an entry has been examined; they are listed when needed and not known yet. */
  function MappingsAfter(e: Entry, selected: string, known: map<string, string>): map<string, string> {
    if Eligible(e, selected) && e.fs == Zfs && |known| == 0
    then (if e.mappings.Some? then e.mappings.value else map[])
    else known
  }

  /** The pool of an entry, if the entry is accepted. */
  function Classify(e: Entry, selected: string, known: map<string, string>): Option<Named> {
    if !Eligible(e, selected) || !e.managerCreated then None
    else if e.fs == Lvm then Some(Named(e.name, NewPool(e)))
    else if |known| == 0 && e.mappings.None? then None
    else
      var mappings := MappingsAfter(e, selected, known);
      Some(Named(if e.name in mappings then mappings[e.name] else e.name, NewPool(e)))
  }

  function Accepted(entries: seq<Entry>, selected: string, known: map<string, string>): seq<Named>
    decreases entries
  {
    if entries == [] then []
    else
      (match Classify(entries[0], selected, known) case Some(p) => [p] case None => [])
      + Accepted(entries[1..], selected, MappingsAfter(entries[0], selected, known))
  }

  // --------------------------------------------------- which are accepted

  /** A directory, the one selected if one is. */
  predicate Looked(e: Entry, selected: string) {
    e.isDir && (selected == "" || e.name == selected)
  }

  /** The entry of ZFS supplies the pool names for itself and for what comes after it. */
  predicate Supplies(e: Entry, selected: string) {
    Looked(e, selected) && e.fs == Zfs && e.mappings.Some? && e.mappings.value != map[]
  }

  /** The pool names known when entry `k` has its turn: those that the first supplier before it has listed. */
  ghost predicate KnownAt(entries: seq<Entry>, selected: string, k: nat, known: map<string, string>)
    requires k <= |entries|
  {
    if exists j: nat :: j < k && Supplies(entries[j], selected) then
      exists j: nat :: (&& j < k && Supplies(entries[j], selected) && entries[j].mappings == Some(known)
                        && forall i: nat :: i < j ==> !Supplies(entries[i], selected))
    else known == map[]
  }

  /** The name under which ZFS knows the directory, if it does. */
  function NameIn(mappings: map<string, string>, dir: string): string {
    if dir in mappings then mappings[dir] else dir
  }

  /**
   Exactly which entries are accepted, and as what: a directory of LVM under its own
   name, and one of ZFS, if pool names are known or can be listed, under its name there;
   a pool with a data state is active, one without is empty.
   */
  lemma ClassifyIs(e: Entry, selected: string, known: map<string, string>)
    ensures Classify(e, selected, known).Some? <==>
      && Looked(e, selected) && e.managerCreated
      && (e.fs == Lvm || (e.fs == Zfs && (known != map[] || e.mappings.Some?)))
    ensures Classify(e, selected, known).Some? ==>
      && Classify(e, selected, known).value.name ==
           (if e.fs == Lvm then e.name else NameIn(if known != map[] then known else e.mappings.value, e.name))
      && Classify(e, selected, known).value.pool ==
           (if e.dataStateAt.Some? then Pool(e.fs, e.name, e.dataStateAt.value, ActivePool)
            else Pool(e.fs, e.name, 0, EmptyPool))
    ensures MappingsAfter(e, selected, known) ==
      (if known == map[] && Supplies(e, selected) then e.mappings.value else known)
  {
    assert |known| == 0 <==> known == map[];
  }

  lemma KnownNext(entries: seq<Entry>, selected: string, k: nat, known: map<string, string>)
    requires k < |entries| && KnownAt(entries, selected, k, known)
    ensures KnownAt(entries, selected, k + 1, MappingsAfter(entries[k], selected, known))
  {
    ClassifyIs(entries[k], selected, known);
    if j: nat :| j < k && Supplies(entries[j], selected) {
      assert j < k + 1;
    } else if Supplies(entries[k], selected) {
      assert known == map[];
    }
  }

  /** Entry `k` is accepted as this pool. */
  ghost predicate AcceptedAt(entries: seq<Entry>, selected: string, k: nat, p: Named) {
    && k < |entries|
    && exists known :: KnownAt(entries, selected, k, known) && Classify(entries[k], selected, known) == Some(p)
  }

  lemma KnownOnce(entries: seq<Entry>, selected: string, k: nat, a: map<string, string>, b: map<string, string>)
    requires k <= |entries| && KnownAt(entries, selected, k, a) && KnownAt(entries, selected, k, b)
    ensures a == b
  {
    if exists j: nat :: j < k && Supplies(entries[j], selected) {
      var i: nat :| i < k && Supplies(entries[i], selected) && entries[i].mappings == Some(a)
                    && forall m: nat :: m < i ==> !Supplies(entries[m], selected);
      var j: nat :| j < k && Supplies(entries[j], selected) && entries[j].mappings == Some(b)
                    && forall m: nat :: m < j ==> !Supplies(entries[m], selected);
      assert i == j;
    }
  }

  lemma {:induction false} AcceptedFrom(entries: seq<Entry>, selected: string, k: nat, known: map<string, string>,
                                        p: Named)
    requires k <= |entries| && KnownAt(entries, selected, k, known)
    ensures p in Accepted(entries[k..], selected, known) <==>
        exists i: nat :: k <= i && AcceptedAt(entries, selected, i, p)
    decreases |entries| - k
  {
    if k < |entries| {
      var next := MappingsAfter(entries[k], selected, known);
      KnownNext(entries, selected, k, known);
      AcceptedFrom(entries, selected, k + 1, next, p);
      assert entries[k..][0] == entries[k] && entries[k..][1..] == entries[k + 1..];
      if Classify(entries[k], selected, known) == Some(p) {
        assert AcceptedAt(entries, selected, k, p);
      }
      if AcceptedAt(entries, selected, k, p) {
        var other :| KnownAt(entries, selected, k, other) && Classify(entries[k], selected, other) == Some(p);
        KnownOnce(entries, selected, k, known, other);
      }
    }
  }

  /** The pools found are exactly those as which some entry is accepted. */
  lemma AcceptedIff(entries: seq<Entry>, selected: string, p: Named)
    ensures p in Accepted(entries, selected, map[]) <==> exists k: nat :: AcceptedAt(entries, selected, k, p)
  {
    AcceptedFrom(entries, selected, 0, map[], p);
    assert entries[0..] == entries;
    assert forall k: nat :: AcceptedAt(entries, selected, k, p) ==> 0 <= k;
  }

  datatype Found = Found(managers: map<string, Pool>, list: seq<string>) {
    predicate Valid() {
      forall name :: name in list ==> name in managers
    }
  }

  /** A pool goes to the front if it is newer than the one there, otherwise to the back. */
  function Add(f: Found, p: Named): Found
    requires f.Valid()
  {
    var managers := f.managers[p.name := p.pool];
    var front := f.list == [] || managers[f.list[0]].dsa < p.pool.dsa;
    Found(managers, if front then [p.name] + f.list else f.list + [p.name])
  }

  function Listed(pools: seq<Named>): (f: Found)
    ensures f.Valid()
  {
    if pools == [] then Found(map[], []) else Add(Listed(pools[..|pools| - 1]), pools[|pools| - 1])
  }

  function Names(pools: seq<Named>): (names: seq<string>)
    ensures |names| == |pools| && forall k :: 0 <= k < |pools| ==> names[k] == pools[k].name
  {
    seq(|pools|, k requires 0 <= k < |pools| => pools[k].name)
  }

  predicate FrontIsNewest(f: Found)
    requires f.Valid()
  {
    forall name :: name in f.list ==> f.managers[name].dsa <= f.managers[f.list[0]].dsa
  }

  /** Each accepted pool is listed as often as its name was found, and the map knows exactly the listed names. */
  lemma {:induction false} ListedElements(pools: seq<Named>)
    ensures multiset(Listed(pools).list) == multiset(Names(pools))
    ensures Listed(pools).managers.Keys == set name | name in Listed(pools).list
  {
    if pools != [] {
      var n := |pools| - 1;
      ListedElements(pools[..n]);
      assert Names(pools) == Names(pools[..n]) + [pools[n].name];
      var f, name := Listed(pools[..n]), pools[n].name;
      assert Listed(pools).list == [name] + f.list || Listed(pools).list == f.list + [name];
    }
  }

  lemma {:induction false} CountDistinct(names: seq<string>)
    ensures Distinct(names) <==> forall x :: multiset(names)[x] <= 1
  {
    if names != [] {
      var n := |names| - 1;
      var front, last := names[..n], names[n];
      CountDistinct(front);
      assert names == front + [last];
      assert multiset(names)[last] == multiset(front)[last] + 1;
      if Distinct(names) {
        assert last !in front;
        assert last !in multiset(front);
      } else if Distinct(front) {
        var i, j :| 0 <= i < j < |names| && names[i] == names[j];
        assert j == n && last in front && last in multiset(front);
      } else {
        var x :| multiset(front)[x] > 1;
        assert multiset(names)[x] > 1;
      }
    }
  }

  lemma NamesInList(pools: seq<Named>, name: string)
    ensures name in Listed(pools).list <==> name in Names(pools)
    ensures Distinct(Listed(pools).list) <==> Distinct(Names(pools))
  {
    ListedElements(pools);
    CountDistinct(Listed(pools).list);
    CountDistinct(Names(pools));
    assert name in Listed(pools).list <==> name in multiset(Listed(pools).list);
    assert name in Names(pools) <==> name in multiset(Names(pools));
  }

  lemma FrontDistinct(pools: seq<Named>)
    requires pools != [] && Distinct(Names(pools))
    ensures var n := |pools| - 1;
      Distinct(Names(pools[..n])) && pools[n].name !in Listed(pools[..n]).list &&
        pools[n].name !in Listed(pools[..n]).managers
  {
    var n := |pools| - 1;
    assert Names(pools[..n]) == Names(pools)[..n];
    NamesInList(pools[..n], pools[n].name);
    ListedElements(pools[..n]);
  }

  lemma {:induction false} DistinctAgree(pools: seq<Named>)
    requires Distinct(Names(pools))
    ensures forall k :: 0 <= k < |pools| ==>
        pools[k].name in Listed(pools).managers && Listed(pools).managers[pools[k].name] == pools[k].pool
  {
    if pools != [] {
      var n := |pools| - 1;
      FrontDistinct(pools);
      DistinctAgree(pools[..n]);
      assert forall k :: 0 <= k < n ==> pools[..n][k] == pools[k];
    }
  }

  lemma {:induction false} DistinctFront(pools: seq<Named>)
    requires Distinct(Names(pools))
    ensures FrontIsNewest(Listed(pools))
  {
    if pools != [] {
      FrontDistinct(pools);
      DistinctFront(pools[..|pools| - 1]);
    }
  }

  /**
   Each accepted pool is listed once, with the newest at the front, if and only
   if no two entries have the same pool name; the map then holds each of them.
   */
  lemma DiscoveryIff(entries: seq<Entry>, selected: string)
    ensures var pools := Accepted(entries, selected, map[]); var f := Listed(pools);
      && (Distinct(Names(pools)) <==> Distinct(f.list) && FrontIsNewest(f))
      && (Distinct(Names(pools)) ==>
            multiset(f.list) == multiset(Names(pools))
            && forall k :: 0 <= k < |pools| ==>
                pools[k].name in f.managers && f.managers[pools[k].name] == pools[k].pool)
  {
    var pools := Accepted(entries, selected, map[]);
    NamesInList(pools, "");
    ListedElements(pools);
    if Distinct(Names(pools)) {
      DistinctAgree(pools);
      DistinctFront(pools);
    }
  }

  /** The pool at this place is not found again. */
  predicate IsLast(pools: seq<Named>, k: nat)
    requires k < |pools|
  {
    forall j :: k < j < |pools| ==> pools[j].name != pools[k].name
  }

  lemma {:induction false} LastOfName(pools: seq<Named>, i: nat) returns (k: nat)
    requires i < |pools|
    ensures i <= k < |pools| && pools[k].name == pools[i].name && IsLast(pools, k)
    decreases |pools| - i
  {
    k := i;
    if j :| i < j < |pools| && pools[j].name == pools[i].name {
      k := LastOfName(pools, j);
    }
  }

  /** The map holds each pool as it was found for the last time. */
  lemma {:induction false} LastIsHeld(pools: seq<Named>, k: nat)
    requires k < |pools| && IsLast(pools, k)
    ensures var f := Listed(pools); pools[k].name in f.list && f.managers[pools[k].name] == pools[k].pool
  {
    var n := |pools| - 1;
    if k < n {
      assert IsLast(pools[..n], k);
      LastIsHeld(pools[..n], k);
    }
  }

  /** What is listed was found somewhere for the last time. */
  lemma ListedIsFound(pools: seq<Named>, name: string) returns (k: nat)
    requires name in Listed(pools).list
    ensures k < |pools| && pools[k].name == name && IsLast(pools, k)
  {
    NamesInList(pools, name);
    var i :| 0 <= i < |pools| && Names(pools)[i] == name;
    k := LastOfName(pools, i);
  }

  /**
   The entry that leads, going through the entries once: the next one takes over
   if it has the leader's name, whatever its data state, or is newer than the leader.
   */
  function Leader(pools: seq<Named>): (h: nat)
    requires pools != []
    ensures h < |pools|
    decreases |pools|
  {
    var n := |pools| - 1;
    if n == 0 then 0
    else
      var h := Leader(pools[..n]);
      if pools[n].name == pools[h].name || pools[h].pool.dsa < pools[n].pool.dsa then n else h
  }

  /** The pool at the front is this entry, nothing of its name is found after it, and nothing newer. */
  ghost predicate Leads(pools: seq<Named>, h: nat, f: Found) {
    && f.Valid() && h < |pools| && f.list != [] && f.list[0] == pools[h].name
    && f.managers[f.list[0]] == pools[h].pool && IsLast(pools, h)
    && forall k :: h < k < |pools| ==> pools[k].pool.dsa <= pools[h].pool.dsa
  }

  lemma LeadsNext(pools: seq<Named>, h: nat, f: Found, p: Named)
    requires Leads(pools, h, f)
    ensures var over := p.name == pools[h].name || pools[h].pool.dsa < p.pool.dsa;
      Leads(pools + [p], if over then |pools| else h, Add(f, p))
  {
    var next := pools + [p];
    assert forall k :: 0 <= k < |pools| ==> next[k] == pools[k];
  }

  lemma {:induction false} LeaderIsFront(pools: seq<Named>)
    requires pools != []
    ensures Leads(pools, Leader(pools), Listed(pools))
    decreases |pools|
  {
    var n := |pools| - 1;
    if n == 0 {
      assert pools[..n] == [];
    } else {
      LeaderIsFront(pools[..n]);
      LeadsNext(pools[..n], Leader(pools[..n]), Listed(pools[..n]), pools[n]);
      assert pools == pools[..n] + [pools[n]];
    }
  }

  /** No newer pool is found for the last time before this entry. */
  ghost predicate NoneNewerBefore(pools: seq<Named>, h: nat)
    requires h < |pools|
  {
    forall k :: 0 <= k < h && IsLast(pools, k) ==> pools[k].pool.dsa <= pools[h].pool.dsa
  }

  lemma NewestHasNoneBefore(pools: seq<Named>, h: nat)
    requires Leads(pools, h, Listed(pools)) && FrontIsNewest(Listed(pools))
    ensures NoneNewerBefore(pools, h)
  {
    forall k | 0 <= k < h && IsLast(pools, k) ensures pools[k].pool.dsa <= pools[h].pool.dsa {
      LastIsHeld(pools, k);
    }
  }

  lemma NoneBeforeIsNewest(pools: seq<Named>, h: nat)
    requires Leads(pools, h, Listed(pools)) && NoneNewerBefore(pools, h)
    ensures FrontIsNewest(Listed(pools))
  {
    forall name | name in Listed(pools).list ensures Listed(pools).managers[name].dsa <= pools[h].pool.dsa {
      var k := ListedIsFound(pools, name);
      LastIsHeld(pools, k);
    }
  }

  /**
   The front of the queue is the newest pool if and only if no newer pool was found
   for the last time before the leading entry.
   */
  lemma FrontIsNewestIff(pools: seq<Named>)
    requires pools != []
    ensures FrontIsNewest(Listed(pools)) <==> NoneNewerBefore(pools, Leader(pools))
  {
    LeaderIsFront(pools);
    if FrontIsNewest(Listed(pools)) {
      NewestHasNoneBefore(pools, Leader(pools));
    }
    if NoneNewerBefore(pools, Leader(pools)) {
      NoneBeforeIsNewest(pools, Leader(pools));
    }
  }

  /** Three directories in the order of their names: two of one ZFS pool, and one of LVM between them. */
  function Shared(): seq<Entry> {
    var mappings := Some(map["a" := "a", "c" := "a"]);
    [Entry("a", true, Zfs, Some(5), mappings, true), Entry("b", true, Lvm, Some(4), None, true),
     Entry("c", true, Zfs, Some(3), mappings, true)]
  }

  lemma SharedAccepted()
    ensures var e := Shared(); Accepted(e, "", map[]) == [Named("a", NewPool(e[0])), Named("b", NewPool(e[1])),
                                                          Named("a", NewPool(e[2]))]
  {
    var mappings := map["a" := "a", "c" := "a"];
    var e := Shared();
    assert e[1..] == [e[1], e[2]] && [e[1], e[2]][1..] == [e[2]] && [e[2]][1..] == [];
    assert "a" in mappings && mappings != map[] && |mappings| != 0;
    assert Accepted([e[2]], "", mappings) == [Named("a", NewPool(e[2]))];
    assert Accepted([e[1], e[2]], "", mappings) == [Named("b", NewPool(e[1])), Named("a", NewPool(e[2]))];
  }

  /** The front pool is found again with an older data state, behind a pool that is newer than that. */
  lemma RefoundOlder(a: Named, b: Named, again: Named)
    requires a.name == again.name != b.name && again.pool.dsa < b.pool.dsa <= a.pool.dsa
    ensures var f := Listed([a, b, again]); f.list == [a.name, b.name, a.name] && !FrontIsNewest(f)
  {
    assert [] + [a] == [a] && [a] + [b] == [a, b] && [a, b] + [again] == [a, b, again];
    ListedNext([], a);
    ListedNext([a], b);
    ListedNext([a, b], again);
    var f := Listed([a, b, again]);
    assert f.list[1] == b.name && f.managers[b.name] == b.pool;
  }

  /** With these the front need not be the newest pool any more. */
  lemma SharedNameMisleads()
    ensures var f := Listed(Accepted(Shared(), "", map[])); f.list == ["a", "b", "a"] && !FrontIsNewest(f)
  {
    var e := Shared();
    SharedAccepted();
    RefoundOlder(Named("a", NewPool(e[0])), Named("b", NewPool(e[1])), Named("a", NewPool(e[2])));
  }

  /** The refresher right after discovery. */
  function Discovered(f: Found, snapshots: map<string, seq<string>>): Refresher {
    Refresher(f.list, map name | name in f.managers :: f.managers[name].status, snapshots, Inactive, None)
  }

  lemma StartsReady(pools: seq<Named>, snapshots: map<string, seq<string>>)
    requires forall name :: name in Names(pools) ==> name in snapshots
    requires forall p :: p in pools ==> p.pool.status != RefreshingPool
    ensures Ready(Discovered(Listed(pools), snapshots)) <==> Distinct(Names(pools))
  {
    var s := Discovered(Listed(pools), snapshots);
    NeverRefreshing(pools);
    NamesInList(pools, "");
    forall name | name in s.queue ensures name in s.status && name in s.snapshots && s.status[name] != RefreshingPool {
      NamesInList(pools, name);
    }
    assert Sound(s);
  }

  /** The refresher that discovery starts is ready for its rounds, unless two entries have the same pool name. */
  lemma DiscoveredIsReady(entries: seq<Entry>, selected: string, snapshots: map<string, seq<string>>)
    requires forall name :: name in Names(Accepted(entries, selected, map[])) ==> name in snapshots
    ensures var pools := Accepted(entries, selected, map[]);
      Ready(Discovered(Listed(pools), snapshots)) <==> Distinct(Names(pools))
  {
    var pools := Accepted(entries, selected, map[]);
    AcceptedAreNew(entries, selected, map[]);
    StartsReady(pools, snapshots);
  }

  lemma {:induction false} AcceptedAreNew(entries: seq<Entry>, selected: string, known: map<string, string>)
    ensures forall p :: p in Accepted(entries, selected, known) ==> p.pool.status != RefreshingPool
    decreases entries
  {
    if entries != [] {
      AcceptedAreNew(entries[1..], selected, MappingsAfter(entries[0], selected, known));
    }
  }

  lemma {:induction false} NeverRefreshing(pools: seq<Named>)
    requires forall k :: 0 <= k < |pools| ==> pools[k].pool.status != RefreshingPool
    ensures forall name :: name in Listed(pools).managers ==> Listed(pools).managers[name].status != RefreshingPool
  {
    if pools != [] {
      NeverRefreshing(pools[..|pools| - 1]);
    }
  }

  /** One entry: refused, or a new pool under the name by which ZFS knows its directory. */
  method ExamineEntry(e: Entry, selected: string, known: map<string, string>)
    returns (r: Option<Named>, poolMappings: map<string, string>)
    ensures r == Classify(e, selected, known) && poolMappings == MappingsAfter(e, selected, known)
  {
    poolMappings := known;
    if !e.isDir {
      return None, poolMappings;
    }
    if selected != "" && selected != e.name {
      return None, poolMappings;
    }
    if e.fs != Zfs && e.fs != Lvm {
      return None, poolMappings;
    }
    var pool := Pool(e.fs, e.name, ZERO_DSA, EmptyPool);
    if e.dataStateAt.Some? {
      pool := pool.(dsa := e.dataStateAt.value, status := ActivePool);
    }
    var name := e.name;
    if e.fs == Zfs {
      if |poolMappings| == 0 {
        poolMappings := if e.mappings.Some? then e.mappings.value else map[];
        if e.mappings.None? {
          return None, poolMappings;
        }
      }
      if e.name in poolMappings {
        name := poolMappings[e.name];
      }
    }
    return if e.managerCreated then Some(Named(name, pool)) else None, poolMappings;
  }

  /** The loop over the directory. */
  method ExamineEntries(entries: seq<Entry>, selected: string)
    returns (fsManagers: map<string, Pool>, poolList: seq<string>)
    ensures Found(fsManagers, poolList) == Listed(Accepted(entries, selected, map[]))
  {
    fsManagers, poolList := map[], [];
    var poolMappings: map<string, string> := map[];
    ghost var done: seq<Named> := [];
    for k := 0 to |entries|
      invariant Found(fsManagers, poolList) == Listed(done)
      invariant done + Accepted(entries[k..], selected, poolMappings) == Accepted(entries, selected, map[])
    {
      var found: Option<Named>;
      AcceptedStep(done, entries, k, selected, poolMappings);
      found, poolMappings := ExamineEntry(entries[k], selected, poolMappings);
      if found.Some? {
        fsManagers, poolList := AddPool(fsManagers, poolList, found.value);
        ListedNext(done, found.value);
        done := done + [found.value];
      }
    }
    assert done + [] == done;
  }

  lemma AcceptedStep(done: seq<Named>, entries: seq<Entry>, k: nat, selected: string, known: map<string, string>)
    requires k < |entries|
    ensures var found := Classify(entries[k], selected, known);
      var rest := Accepted(entries[k + 1..], selected, MappingsAfter(entries[k], selected, known));
      done + Accepted(entries[k..], selected, known) == (if found.Some? then done + [found.value] else done) + rest
  {
    assert entries[k..][0] == entries[k] && entries[k..][1..] == entries[k + 1..];
    var found := Classify(entries[k], selected, known);
    var rest := Accepted(entries[k + 1..], selected, MappingsAfter(entries[k], selected, known));
    if found.Some? {
      assert done + ([found.value] + rest) == done + [found.value] + rest;
    } else {
      assert [] + rest == rest;
    }
  }

  method AddPool(fsManagers: map<string, Pool>, poolList: seq<string>, p: Named)
    returns (managers: map<string, Pool>, list: seq<string>)
    requires Found(fsManagers, poolList).Valid()
    ensures Found(managers, list) == Add(Found(fsManagers, poolList), p)
  {
    managers := fsManagers[p.name := p.pool];
    if poolList == [] || managers[poolList[0]].dsa < p.pool.dsa {
      list := [p.name] + poolList;
    } else {
      list := poolList + [p.name];
    }
  }

  lemma ListedNext(pools: seq<Named>, p: Named)
    ensures Listed(pools + [p]) == Add(Listed(pools), p)
  {
  }
}
