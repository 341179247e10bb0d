/**
 Restart of the engine (Run in internal/cloning/base.go with
 internal/cloning/storage.go): the saved registry is filtered against the
 snapshot box and the running containers, everything else is removed, and the
 port table is read anew.
 */
module Restart {
  import opened Options
  import opened CloneNames
  import opened Provision
  import opened Cloning
  import opened CloningSafety
  import opened Provisioning

  /** A registry entry as it is saved; a damaged file may lack any part. */
  datatype StoredClone = StoredClone(snapshot: Option<string>, protected: bool, status: Status)
  datatype Stored = Stored(clone: Option<StoredClone>, session: Option<Session>)

  type Registry = map<string, Stored>

  function NameOf(s: Stored): string
    requires s.session.Some?
  {
    GetCloneName(s.session.value.port)
  }

  predicate IsRunning(containers: map<string, Container>, name: string) {
    name in containers && containers[name].running
  }

  // ------------------------------------------------------------ the filter

  /** The entry is complete and not FATAL. */
  predicate Complete(s: Stored) {
    s.clone.Some? && s.clone.value.snapshot.Some? && s.session.Some? && s.clone.value.status != StatusFatal
  }

  /** The filter gets as far as asking whether the clone runs. */
  predicate Reaches(s: Stored, items: map<string, Item>) {
    Complete(s) && s.clone.value.snapshot.value in items
  }

  predicate Survives(s: Stored, items: map<string, Item>, containers: map<string, Container>) {
    Reaches(s, items) && IsRunning(containers, NameOf(s))
  }

  function Kept(clones: Registry, items: map<string, Item>, containers: map<string, Container>): Registry {
    map id | id in clones && Survives(clones[id], items, containers) :: clones[id]
  }

  /** The entries whose snapshot is `s` and that reach the check. */
  function ReachedFor(clones: Registry, items: map<string, Item>, s: string): set<string> {
    set id | id in clones && Reaches(clones[id], items) && clones[id].clone.value.snapshot.value == s
  }

  function KeptFor(clones: Registry, items: map<string, Item>, containers: map<string, Container>,
                   s: string): set<string> {
    set id | id in Kept(clones, items, containers) && clones[id].clone.value.snapshot.value == s
  }

  /** Dropped only because the container does not run. */
  function StoppedFor(clones: Registry, items: map<string, Item>, containers: map<string, Container>,
                      s: string): set<string> {
    set id | id in clones && Reaches(clones[id], items) && !IsRunning(containers, NameOf(clones[id]))
             && clones[id].clone.value.snapshot.value == s
  }

  /** The counts the filter leaves behind. */
  ghost predicate CountedBy(items: map<string, Item>, items': map<string, Item>, clones: Registry, seen: set<string>) {
    && items'.Keys == items.Keys
    && forall s :: s in items ==>
         && items'[s].entry == items[s].entry
         && items'[s].numClones == items[s].numClones + |ReachedFor(clones, items, s) * seen|
  }

  /** The filter counts a clone also when it has just dropped it as not running. */
  lemma CountsAfterFilter(clones: Registry, items: map<string, Item>, containers: map<string, Container>, s: string)
    ensures |ReachedFor(clones, items, s)| ==
      |KeptFor(clones, items, containers, s)| + |StoppedFor(clones, items, containers, s)|
  {
    var kept, stopped := KeptFor(clones, items, containers, s), StoppedFor(clones, items, containers, s);
    assert ReachedFor(clones, items, s) == kept + stopped;
    assert kept !! stopped;
  }

  lemma CountOne(clones: Registry, items: map<string, Item>, s: string, seen: set<string>, id: string)
    requires id !in seen
    ensures |ReachedFor(clones, items, s) * (seen + {id})| ==
            |ReachedFor(clones, items, s) * seen| + (if id in ReachedFor(clones, items, s) then 1 else 0)
  {
    var r := ReachedFor(clones, items, s);
    assert r * (seen + {id}) == r * seen + (if id in r then {id} else {});
  }

  /** The registry while the filter still has `rest` to look at. */
  function Remaining(clones: Registry, items: map<string, Item>, containers: map<string, Container>,
                     rest: set<string>): Registry {
    map id | id in clones && (id in rest || Survives(clones[id], items, containers)) :: clones[id]
  }

  lemma RemainingStep(clones: Registry, items: map<string, Item>, containers: map<string, Container>,
                      rest: set<string>, id: string)
    requires id in rest && id in clones
    ensures Remaining(clones, items, containers, rest - {id}) ==
            if Survives(clones[id], items, containers) then Remaining(clones, items, containers, rest)
            else Remaining(clones, items, containers, rest) - {id}
  {
  }

  /** The count update of one turn of the filter. */
  function FilterItems(items: map<string, Item>, s: Stored): map<string, Item> {
    if Reaches(s, items) then Increment(items, s.clone.value.snapshot.value) else items
  }

  lemma CountStep(items0: map<string, Item>, items: map<string, Item>, clones: Registry, seen: set<string>, id: string)
    requires CountedBy(items0, items, clones, seen) && id !in seen && id in clones
    ensures CountedBy(items0, FilterItems(items, clones[id]), clones, seen + {id})
  {
    forall s {
      CountOne(clones, items0, s, seen, id);
    }
  }

  /** What the filter's loop keeps. */
  ghost predicate Filtering(clones0: Registry, items0: map<string, Item>, containers: map<string, Container>,
                            clones: Registry, items: map<string, Item>, cache: set<string>, rest: set<string>) {
    && rest <= clones0.Keys && rest <= clones.Keys
    && clones == Remaining(clones0, items0, containers, rest)
    && cache <= items.Keys == items0.Keys
    && CountedBy(items0, items, clones0, clones0.Keys - rest)
  }

  lemma FilterBegins(clones: Registry, items: map<string, Item>, containers: map<string, Container>)
    ensures Filtering(clones, items, containers, clones, items, {}, clones.Keys)
  {
  }

  lemma FilterStep(clones0: Registry, items0: map<string, Item>, containers: map<string, Container>,
                   clones: Registry, items: map<string, Item>, rest: set<string>, id: string)
    requires exists cache :: Filtering(clones0, items0, containers, clones, items, cache, rest)
    requires id in rest
    ensures id in clones
    ensures forall cache :: cache <= items.Keys ==>
      Filtering(clones0, items0, containers,
                if Survives(clones[id], items, containers) then clones else clones - {id},
                FilterItems(items, clones[id]), cache, rest - {id})
  {
    RemainingStep(clones0, items0, containers, rest, id);
    CountStep(items0, items, clones0, clones0.Keys - rest, id);
    assert clones0.Keys - (rest - {id}) == clones0.Keys - rest + {id};
  }

  lemma FilterEnds(clones0: Registry, items0: map<string, Item>, containers: map<string, Container>,
                   clones: Registry, items: map<string, Item>, cache: set<string>)
    requires Filtering(clones0, items0, containers, clones, items, cache, {})
    ensures clones == Kept(clones0, items0, containers)
    ensures CountedBy(items0, items, clones0, clones0.Keys)
  {
    assert clones0.Keys - {} == clones0.Keys;
  }

  // ------------------------------------------------------------ the clean-up

  function KeepNames(clones: Registry): set<string> {
    set id | id in clones && clones[id].session.Some? :: NameOf(clones[id])
  }

  predicate ForeignContainer(pools: set<string>, keep: set<string>, name: string, c: Container) {
    c.pool in pools && name !in keep
  }

  predicate ForeignDataset(pools: set<string>, keep: set<string>, d: Dataset) {
    d.pool in pools && CLONE_PREFIX <= d.name && d.name !in keep
  }

  /** No container and no clone dataset is left in the pools but those named in `keep`. */
  ghost predicate Cleaned(st: Storage, pools: set<string>, keep: set<string>) {
    && (forall n :: n in st.containers ==> !ForeignContainer(pools, keep, n, st.containers[n]))
    && (forall d :: d in st.datasets ==> !ForeignDataset(pools, keep, d))
  }

  /** Whatever was removed was foreign; ports are as before. */
  ghost predicate OnlyForeignRemoved(st: Storage, st': Storage, pools: set<string>, keep: set<string>) {
    && st'.from == st.from && st'.ports == st.ports
    && st'.containers.Keys <= st.containers.Keys
    && (forall n :: n in st'.containers ==> st'.containers[n] == st.containers[n])
    && (forall n :: n in st.containers && !ForeignContainer(pools, keep, n, st.containers[n]) ==> n in st'.containers)
    && st'.datasets <= st.datasets
    && (forall d :: d in st.datasets && !ForeignDataset(pools, keep, d) ==> d in st'.datasets)
  }

  /** The clean-up leaves every kept clone running and keeps its datasets. */
  lemma KeptUntouched(st: Storage, st': Storage, pools: set<string>, clones: Registry, items: map<string, Item>)
    requires forall id :: id in clones ==> Survives(clones[id], items, st.containers)
    requires OnlyForeignRemoved(st, st', pools, KeepNames(clones))
    ensures forall id :: id in clones ==> Survives(clones[id], items, st'.containers)
    ensures forall d: Dataset :: d.name in KeepNames(clones) ==> (d in st'.datasets <==> d in st.datasets)
    ensures forall n :: n in KeepNames(clones) && n in st.containers ==> n in st'.containers
  {
  }

  /** Only the keys of the box matter to the filter. */
  lemma SameItems(clones: Registry, items: map<string, Item>, items': map<string, Item>,
                  containers: map<string, Container>)
    requires items.Keys == items'.Keys
    ensures Kept(clones, items, containers) == Kept(clones, items', containers)
    ensures forall s :: ReachedFor(clones, items, s) == ReachedFor(clones, items', s)
  {
  }

  /** The box was fetched before the registry was restored, so its counts started at zero. */
  lemma CountsFromZero(entries: seq<SnapshotEntry>, fetched: map<string, Item>, items: map<string, Item>,
                       clones: Registry)
    requires fetched == ItemsOf(entries, map[], map[]) && CountedBy(fetched, items, clones, clones.Keys)
    ensures forall s :: s in items ==> items[s].numClones == |ReachedFor(clones, fetched, s)|
  {
    FetchCounts(entries, map[], map[]);
    forall s | s in items ensures items[s].numClones == |ReachedFor(clones, fetched, s)| {
      assert ClonesOf(map[], map[], s) == {};
      assert ReachedFor(clones, fetched, s) * clones.Keys == ReachedFor(clones, fetched, s);
    }
  }

  /** What can fail while the foreign sessions are stopped. */
  datatype CleanupView = CleanupView(unlisted: set<string>, stuckContainers: set<string>, stuckDatasets: set<Dataset>)

  /** All pools can be listed, and no foreign container or dataset of theirs is stuck. */
  ghost predicate CanClean(st: Storage, pools: set<string>, keep: set<string>, view: CleanupView) {
    && pools !! view.unlisted
    && (forall n :: n in st.containers && st.containers[n].pool in pools && n !in keep ==> n !in view.stuckContainers)
    && (forall d :: d in st.datasets && d.pool in pools && CLONE_PREFIX <= d.name && d.name !in keep ==>
          d !in view.stuckDatasets)
  }

  /** One pool more: what was removed so far did not lie in it. */
  lemma CanCleanOne(before: Storage, now: Storage, done: set<string>, pool: string, keep: set<string>,
                    view: CleanupView)
    requires OnlyForeignRemoved(before, now, done, keep) && pool !in done && CanClean(before, done, keep, view)
    ensures CanClean(now, {pool}, keep, view) <==> CanClean(before, done + {pool}, keep, view)
  {
    if CanClean(now, {pool}, keep, view) {
      forall n | n in before.containers && before.containers[n].pool in done + {pool} && n !in keep
        ensures n !in view.stuckContainers
      {
        if before.containers[n].pool == pool {
          assert !ForeignContainer(done, keep, n, before.containers[n]);
        }
      }
      forall d | d in before.datasets && d.pool in done + {pool} && CLONE_PREFIX <= d.name && d.name !in keep
        ensures d !in view.stuckDatasets
      {
        if d.pool == pool {
          assert !ForeignDataset(done, keep, d);
        }
      }
    }
  }

  lemma CleanMore(st: Storage, pools: set<string>, more: set<string>, keep: set<string>, view: CleanupView)
    requires pools <= more && CanClean(st, more, keep, view)
    ensures CanClean(st, pools, keep, view)
  {
  }

  lemma OnlyMoreRemoved(a: Storage, b: Storage, pools: set<string>, more: set<string>, keep: set<string>)
    requires OnlyForeignRemoved(a, b, pools, keep) && pools <= more
    ensures OnlyForeignRemoved(a, b, more, keep)
  {
  }

  lemma RemovedFurther(a: Storage, b: Storage, c: Storage, done: set<string>, pool: string, keep: set<string>)
    requires OnlyForeignRemoved(a, b, done, keep) && OnlyForeignRemoved(b, c, {pool}, keep)
    ensures OnlyForeignRemoved(a, c, done + {pool}, keep)
  {
  }

  // --------------------------------------------------- what the filter means

  /** Containers after those of clones with a session were started where that can be done. */
  ghost predicate Restarted(before: map<string, Container>, after: map<string, Container>, clones: Registry,
                            startable: set<string>) {
    && after.Keys == before.Keys
    && forall n :: n in after ==>
         && after[n].pool == before[n].pool
         && (after[n].running <==>
               || before[n].running
               || (n in startable && exists id :: id in clones && clones[id].clone.Some? && clones[id].session.Some?
                                                  && NameOf(clones[id]) == n))
  }

  /**
   A restored clone stays if and only if the saved entry is whole, its status is not
   FATAL, its snapshot is in the box, and its container runs or can be started.
   */
  lemma KeptIff(restored: Registry, items: map<string, Item>, before: map<string, Container>,
                after: map<string, Container>, startable: set<string>, id: string)
    requires Restarted(before, after, restored, startable)
    ensures id in Kept(restored, items, after) <==>
      (&& id in restored && restored[id].clone.Some? && restored[id].session.Some?
       && restored[id].clone.value.status != StatusFatal
       && restored[id].clone.value.snapshot.Some? && restored[id].clone.value.snapshot.value in items
       && var n := GetCloneName(restored[id].session.value.port);
          n in before && (before[n].running || n in startable))
  {
  }

  /** Counted for a snapshot are the whole entries that use it and are not FATAL, whether they run or not. */
  lemma ReachedIs(restored: Registry, items: map<string, Item>, s: string)
    requires s in items
    ensures ReachedFor(restored, items, s) ==
      set id | id in restored && restored[id].clone.Some? && restored[id].session.Some?
               && restored[id].clone.value.status != StatusFatal && restored[id].clone.value.snapshot == Some(s)
  {
  }

  /** Nothing is left in the pools but what belongs to a kept clone. */
  lemma CleanedIff(st: Storage, pools: set<string>, kept: Registry)
    requires forall id :: id in kept ==> kept[id].session.Some?
    ensures Cleaned(st, pools, KeepNames(kept)) <==>
      && (forall n :: n in st.containers && st.containers[n].pool in pools ==>
            exists id :: id in kept && GetCloneName(kept[id].session.value.port) == n)
      && (forall d :: d in st.datasets && d.pool in pools && CLONE_PREFIX <= d.name ==>
            exists id :: id in kept && GetCloneName(kept[id].session.value.port) == d.name)
  {
    forall n ensures n in KeepNames(kept) <==>
        exists id :: id in kept && GetCloneName(kept[id].session.value.port) == n {
      if id :| id in kept && GetCloneName(kept[id].session.value.port) == n {
        assert NameOf(kept[id]) == n;
      }
    }
  }

  // ------------------------------------------------- runs across restarts

  /** What the running engine saves. */
  function Saved(e: Engine): Registry {
    map id | id in e.clones && e.Has(id) ::
      var w := e.Get(id); Stored(Some(StoredClone(w.snapshot, w.protected, w.status)), w.session)
  }

  ghost predicate HeldByKept(e: Engine, kept: Registry, t: nat) {
    exists id :: id in kept && e.Has(id) && e.Get(id).session.Some? && e.Get(id).session.value.token == t
  }

  /**
   The engine with the registry, storage and box that a restart leaves: its goroutines are gone,
   and so are the sessions nobody kept.
   */
  ghost function Resumed(e: Engine, kept: Registry, st: Storage, items: map<string, Item>): Engine {
    Engine(st, e.wrappers, map id | id in kept && id in e.clones :: e.clones[id], items, None, map[],
           map t | t in e.held && HeldByKept(e, kept, t) :: e.held[t], e.next)
  }

  ghost predicate KeptOf(e: Engine, kept: Registry) {
    forall id :: id in kept ==> id in Saved(e) && kept[id] == Saved(e)[id] && kept[id].session.Some?
  }

  /** The registry of the resumed engine is, as it would be saved again, the one that was kept. */
  lemma ResumedSaves(e: Engine, kept: Registry, st: Storage, items: map<string, Item>)
    requires KeptOf(e, kept)
    ensures Saved(Resumed(e, kept, st, items)) == kept
  {
  }

  /** All kept clones have their ports bound. */
  ghost predicate PortsBound(kept: Registry, st: Storage) {
    forall id :: id in kept && kept[id].session.Some? ==> st.Bound(kept[id].session.value.port)
  }

  /**
   A restart after any safe run leads, with the next fetch, to a state from which
   every run is safe again, if and only if the ports of all kept clones are bound.
   */
  lemma RestartResumesIff(e: Engine, kept: Registry, st: Storage, items: map<string, Item>, entries: seq<SnapshotEntry>)
    requires Inv(e) && KeptOf(e, kept)
    ensures Inv(Fetch(Resumed(e, kept, st, items), entries)) <==> PortsBound(kept, st)
  {
    var owner, stopper :| InvBy(e, owner, stopper);
    var e1 := Resumed(e, kept, st, items);
    if PortsBound(kept, st) {
      ResumedPorts(e, kept, st);
      ResumedLinks(e, owner, stopper, kept, st);
      FetchKeeps(Resumed(e, kept, st, map[]), owner, stopper, entries);
      assert Fetch(e1, entries) == Fetch(Resumed(e, kept, st, map[]), entries);
    } else {
      var id :| id in kept && kept[id].session.Some? && !st.Bound(kept[id].session.value.port);
      var s := kept[id].session.value;
      assert e.Has(id) && e.Get(id).session == Some(s) && Live(e, s);
      assert HeldByKept(e, kept, s.token);
      assert s.token in e1.held && e1.held[s.token] == s.port;
      assert !PortsExclusive(Fetch(e1, entries));
    }
  }

  lemma ResumedPorts(e: Engine, kept: Registry, st: Storage)
    requires Inv(e) && KeptOf(e, kept) && PortsBound(kept, st)
    ensures PortsExclusive(Resumed(e, kept, st, map[])) && CountsExact(Resumed(e, kept, st, map[]))
  {
    var owner, stopper :| InvBy(e, owner, stopper);
    forall t | t in e.held && HeldByKept(e, kept, t) ensures st.Bound(e.held[t]) {
      var id :| id in kept && e.Has(id) && e.Get(id).session.Some? && e.Get(id).session.value.token == t;
      assert kept[id].session == e.Get(id).session;
    }
  }

  lemma ResumedLinks(e: Engine, owner: map<nat, Owner>, stopper: map<string, Stopper>, kept: Registry, st: Storage)
    requires Linked(e, owner, stopper) && KeptOf(e, kept)
    ensures Linked(Resumed(e, kept, st, map[]), owner, stopper)
  {
    var e1 := Resumed(e, kept, st, map[]);
    forall id | id in e1.clones && e1.Get(id).session.Some?
      ensures Live(e1, e1.Get(id).session.value)
    {
      assert e1.Get(id) == e.Get(id);
      assert HeldByKept(e, kept, e.Get(id).session.value.token);
    }
  }

  /** What one start of the service meets, in the order in which it asks. */
  datatype RunView = RunView(
    hostKnown: bool, busy: set<nat>, imageReady: bool, entries: seq<SnapshotEntry>, restored: Registry,
    startable: set<string>, pools: set<string>, cleanup: CleanupView, hostKnownAfter: bool, busyAfter: set<nat>)

  /** The container named after the port of the session is running. */
  predicate RunsIn(s: Stored, containers: map<string, Container>) {
    s.session.Some? && var n := GetCloneName(s.session.value.port); n in containers && containers[n].running
  }

  /** Starting containers changes nothing for the clean-up. */
  lemma SameForeign(before: Storage, after: Storage, pools: set<string>, keep: set<string>, view: CleanupView)
    requires after.datasets == before.datasets && after.containers.Keys == before.containers.Keys
    requires forall n :: n in after.containers ==> after.containers[n].pool == before.containers[n].pool
    ensures CanClean(after, pools, keep, view) <==> CanClean(before, pools, keep, view)
  {
  }

  lemma RegistryMeans(view: RunView, clones: Registry, items: map<string, Item>, before: map<string, Container>,
                      atFilter: map<string, Container>)
    requires clones == Kept(view.restored, items, atFilter)
    requires Restarted(before, atFilter, view.restored, view.startable)
    requires items.Keys == ItemsOf(view.entries, map[], map[]).Keys
    ensures forall id :: id in clones <==>
      (&& id in view.restored && view.restored[id].clone.Some? && view.restored[id].session.Some?
       && view.restored[id].clone.value.status != StatusFatal
       && view.restored[id].clone.value.snapshot.Some? && view.restored[id].clone.value.snapshot.value in items
       && var n := GetCloneName(view.restored[id].session.value.port);
          n in before && (before[n].running || n in view.startable))
    ensures forall id :: id in clones ==> clones[id] == view.restored[id]
    ensures forall s :: s in items <==> exists k :: 0 <= k < |view.entries| && view.entries[k].id == s
    ensures forall s :: s in items ==> (ReachedFor(view.restored, items, s) ==
      set id | id in view.restored && view.restored[id].clone.Some? && view.restored[id].session.Some?
               && view.restored[id].clone.value.status != StatusFatal
               && view.restored[id].clone.value.snapshot == Some(s))
  {
    FetchCounts(view.entries, map[], map[]);
    forall id {
      KeptIff(view.restored, items, before, atFilter, view.startable, id);
    }
    forall s | s in items {
      ReachedIs(view.restored, items, s);
    }
  }

  lemma SavedMeans(e: Engine, clones: Registry, items: map<string, Item>, before: map<string, Container>,
                   startable: set<string>)
    requires forall id :: id in clones <==>
      (&& id in Saved(e) && Saved(e)[id].clone.Some? && Saved(e)[id].session.Some?
       && Saved(e)[id].clone.value.status != StatusFatal
       && Saved(e)[id].clone.value.snapshot.Some? && Saved(e)[id].clone.value.snapshot.value in items
       && var n := GetCloneName(Saved(e)[id].session.value.port);
          n in before && (before[n].running || n in startable))
    requires forall id :: id in clones ==> clones[id] == Saved(e)[id]
    ensures KeptOf(e, clones)
    ensures forall id :: id in clones <==>
      (&& id in e.clones && e.Has(id) && e.Get(id).session.Some? && e.Get(id).status != StatusFatal
       && e.Get(id).snapshot.Some? && e.Get(id).snapshot.value in items
       && var n := GetCloneName(e.Get(id).session.value.port);
          n in before && (before[n].running || n in startable))
    ensures forall id :: id in clones ==>
      var w := e.Get(id); clones[id] == Stored(Some(StoredClone(w.snapshot, w.protected, w.status)), w.session)
  {
  }

  lemma StateMeans(clones: Registry, items: map<string, Item>, st: Storage, pools: set<string>)
    requires forall id :: id in clones ==> clones[id].session.Some?
    ensures (forall id :: id in clones ==> Survives(clones[id], items, st.containers)) ==>
      forall id :: id in clones ==> RunsIn(clones[id], st.containers)
    ensures Cleaned(st, pools, KeepNames(clones)) ==>
      && (forall n :: n in st.containers && st.containers[n].pool in pools ==>
            exists id :: id in clones && clones[id].session.Some? && GetCloneName(clones[id].session.value.port) == n)
      && (forall d :: d in st.datasets && d.pool in pools && CLONE_PREFIX <= d.name ==>
            exists id :: id in clones && clones[id].session.Some? &&
              GetCloneName(clones[id].session.value.port) == d.name)
  {
    CleanedIff(st, pools, clones);
  }

  class Restarter {
    const provision: Provisioner
    var clones: Registry
    var items: map<string, Item>

    constructor (provision: Provisioner)
      ensures this.provision == provision && clones == map[] && items == map[]
    {
      this.provision, clones, items := provision, map[], map[];
    }

    /**
     Start of the service. On success the registry holds exactly the restored
     clones that are complete, not FATAL, have their snapshot and run; nothing
     else is left in the managed pools; what was removed was nobody's; and a
     port is bound exactly when it answered as in use. `atFilter` are the
     containers as the filter saw them.
     */
    method Run(view: RunView) returns (ok: bool, ghost atFilter: map<string, Container>)
      modifies this, provision, provision.ports
      ensures ok ==> clones == Kept(view.restored, items, atFilter)
      ensures ok ==> Restarted(old(provision.containers), atFilter, view.restored, view.startable)
      ensures ok ==> forall id :: id in clones <==>
        (&& id in view.restored && view.restored[id].clone.Some? && view.restored[id].session.Some?
         && view.restored[id].clone.value.status != StatusFatal
         && view.restored[id].clone.value.snapshot.Some? && view.restored[id].clone.value.snapshot.value in items
         && var n := GetCloneName(view.restored[id].session.value.port);
            n in old(provision.containers) && (old(provision.containers)[n].running || n in view.startable))
      ensures ok ==> forall id :: id in clones ==> clones[id] == view.restored[id]
      ensures ok ==> items.Keys == ItemsOf(view.entries, map[], map[]).Keys
      ensures ok ==> forall s :: s in items <==> exists k :: 0 <= k < |view.entries| && view.entries[k].id == s
      ensures ok ==> forall s :: s in items ==> items[s].numClones == |ReachedFor(view.restored, items, s)|
      ensures ok ==> forall s :: s in items ==> (ReachedFor(view.restored, items, s) ==
        set id | id in view.restored && view.restored[id].clone.Some? && view.restored[id].session.Some?
                 && view.restored[id].clone.value.status != StatusFatal
                 && view.restored[id].clone.value.snapshot == Some(s))
      ensures ok ==> forall n :: n in provision.containers && provision.containers[n].pool in view.pools ==>
        exists id :: id in clones && clones[id].session.Some? && GetCloneName(clones[id].session.value.port) == n
      ensures ok ==> forall d :: d in provision.datasets && d.pool in view.pools && CLONE_PREFIX <= d.name ==>
        exists id :: id in clones && clones[id].session.Some? && GetCloneName(clones[id].session.value.port) == d.name
      ensures ok ==> Cleaned(provision.State(), view.pools, KeepNames(clones))
      ensures ok ==> forall id :: id in clones ==> Survives(clones[id], items, provision.containers)
      ensures ok ==> forall id :: id in clones ==> RunsIn(clones[id], provision.containers)
      ensures ok ==> forall n :: n in KeepNames(clones) && n in old(provision.containers) ==> n in provision.containers
      ensures ok ==> forall d: Dataset :: d.name in KeepNames(clones) ==>
        (d in provision.datasets <==> d in old(provision.datasets))
      ensures ok ==> forall p: nat :: provision.State().InPool(p) ==>
        (provision.State().Bound(p) <==> p in view.busyAfter)
      ensures ok <==>
        && view.hostKnown && view.imageReady && view.hostKnownAfter
        && CanClean(old(provision.State()), view.pools, KeepNames(clones), view.cleanup)
    {
      atFilter := provision.containers;
      ok := provision.RevisePortPool(view.hostKnown, view.busy);
      if !ok || !view.imageReady {
        return false, atFilter;
      }
      atFilter := Restore(view);
      SameForeign(old(provision.State()), provision.State(), view.pools, KeepNames(clones), view.cleanup);
      RegistryMeans(view, clones, items, old(provision.containers), atFilter);
      ok := Settle(view);
      StateMeans(clones, items, provision.State(), view.pools);
    }

    /**
     Start of the service with what an engine saved. The engine that goes on has the
     storage, the box and the registry left here, and after its first fetch all its
     runs are safe if and only if the port of every kept clone answered as in use.
     */
    method RunSaved(ghost e: Engine, view: RunView, ghost entries: seq<SnapshotEntry>) returns (ok: bool)
      requires Inv(e) && view.restored == Saved(e)
      modifies this, provision, provision.ports
      ensures ok ==> forall id :: id in clones <==>
        (&& id in e.clones && e.Has(id) && e.Get(id).session.Some? && e.Get(id).status != StatusFatal
         && e.Get(id).snapshot.Some? && e.Get(id).snapshot.value in items
         && var n := GetCloneName(e.Get(id).session.value.port);
            n in old(provision.containers) && (old(provision.containers)[n].running || n in view.startable))
      ensures ok ==> forall id :: id in clones ==>
        var w := e.Get(id); clones[id] == Stored(Some(StoredClone(w.snapshot, w.protected, w.status)), w.session)
      ensures ok ==> Saved(Resumed(e, clones, provision.State(), items)) == clones
      ensures ok ==> (Inv(Fetch(Resumed(e, clones, provision.State(), items), entries)) <==>
        forall id :: id in clones && clones[id].session.Some? ==>
          provision.State().InPool(clones[id].session.value.port) && clones[id].session.value.port in view.busyAfter)
    {
      ghost var atFilter;
      ghost var before := provision.containers;
      ok, atFilter := Run(view);
      if ok {
        SavedMeans(e, clones, items, before, view.startable);
        ResumedSaves(e, clones, provision.State(), items);
        RestartResumesIff(e, clones, provision.State(), items, entries);
      }
    }

    /** Snapshots, saved registry, containers, filter. */
    method Restore(view: RunView) returns (ghost atFilter: map<string, Container>)
      modifies this, provision, provision.ports
      ensures atFilter == provision.containers && provision.datasets == old(provision.datasets)
      ensures Restarted(old(provision.containers), atFilter, view.restored, view.startable)
      ensures clones == Kept(view.restored, items, atFilter) && items.Keys == ItemsOf(view.entries, map[], map[]).Keys
      ensures forall s :: s in items ==> items[s].numClones == |ReachedFor(view.restored, items, s)|
    {
      items := ItemsOf(view.entries, map[], map[]);
      ghost var fetched := items;
      clones := view.restored;
      RestartCloneContainers(view.startable);
      atFilter := provision.containers;
      FilterRunningClones();
      CountsFromZero(view.entries, fetched, items, view.restored);
      SameItems(view.restored, fetched, items, atFilter);
    }

    /** Clean-up and port revision. */
    method Settle(view: RunView) returns (ok: bool)
      requires forall id :: id in clones ==> Survives(clones[id], items, provision.containers)
      modifies provision, provision.ports
      ensures ok ==> forall id :: id in clones ==> Survives(clones[id], items, provision.containers)
      ensures ok ==> Cleaned(provision.State(), view.pools, KeepNames(clones))
      ensures ok ==> forall n :: n in KeepNames(clones) && n in old(provision.containers) ==> n in provision.containers
      ensures ok ==> forall d: Dataset :: d.name in KeepNames(clones) ==>
          (d in provision.datasets <==> d in old(provision.datasets))
      ensures ok ==> forall p: nat :: provision.State().InPool(p) ==>
          (provision.State().Bound(p) <==> p in view.busyAfter)
      ensures ok <==>
        && view.hostKnownAfter
        && CanClean(old(provision.State()), view.pools, KeepNames(clones), view.cleanup)
    {
      ok := CleanupInvalidClones(view.pools, view.cleanup);
      if !ok {
        return;
      }
      ghost var cleaned := provision.State();
      KeptUntouched(old(provision.State()), cleaned, view.pools, clones, items);
      ok := provision.RevisePortPool(view.hostKnownAfter, view.busyAfter);
    }

    /** `startable` are the containers that can be reconnected and started. */
    method RestartCloneContainers(startable: set<string>)
      modifies provision`containers
      ensures Restarted(old(provision.containers), provision.containers, clones, startable)
    {
      var rest := clones.Keys;
      while rest != {}
        invariant rest <= clones.Keys
        invariant provision.containers.Keys == old(provision.containers).Keys
        invariant forall n :: n in provision.containers ==>
          && provision.containers[n].pool == old(provision.containers)[n].pool
          && (provision.containers[n].running <==>
                || old(provision.containers)[n].running
                || (n in startable && exists id :: (&& id in clones.Keys - rest && clones[id].clone.Some?
                                                    && clones[id].session.Some? && NameOf(clones[id]) == n)))
        decreases rest
      {
        var id :| id in rest;
        var wrapper := clones[id];
        rest := rest - {id};
        if wrapper.clone.None? || wrapper.session.None? {
          continue;
        }
        var name := NameOf(wrapper);
        if IsRunning(provision.containers, name) {
          continue;
        }
        if name !in startable || name !in provision.containers {
          continue;
        }
        provision.containers := provision.containers[name := provision.containers[name].(running := true)];
      }
    }

    method FilterRunningClones()
      modifies this, provision.ports
      ensures clones == Kept(old(clones), old(items), provision.containers)
      ensures CountedBy(old(items), items, old(clones), old(clones).Keys)
    {
      ghost var clones0, items0 := clones, items;
      var snapshotCache: set<string> := {};
      var rest := clones.Keys;
      FilterBegins(clones, items, provision.containers);
      while rest != {}
        invariant Filtering(clones0, items0, provision.containers, clones, items, snapshotCache, rest)
        decreases rest
      {
        var id :| id in rest;
        ghost var clones1, items1 := clones, items;
        snapshotCache := FilterOne(id, snapshotCache);
        FilterStep(clones0, items0, provision.containers, clones1, items1, rest, id);
        rest := rest - {id};
      }
      FilterEnds(clones0, items0, provision.containers, clones, items, snapshotCache);
    }

    /** One turn of the filter's loop. */
    method FilterOne(id: string, cache: set<string>) returns (snapshotCache: set<string>)
      requires id in clones && cache <= items.Keys
      modifies this, provision.ports
      ensures snapshotCache <= items.Keys == old(items.Keys)
      ensures clones ==
        if Survives(old(clones)[id], old(items), provision.containers) then old(clones) else old(clones) - {id}
      ensures provision.containers == old(provision.containers)
      ensures items == FilterItems(old(items), old(clones)[id])
    {
      var wrapper := clones[id];
      snapshotCache := cache;
      if !Complete(wrapper) {
        clones := clones - {id};
        return;
      }
      var snapshotID := wrapper.clone.value.snapshot.value;
      if snapshotID !in snapshotCache {
        if snapshotID !in items {
          var freed := provision.SetPortStatus(wrapper.session.value.port, false);
          clones := clones - {id};
          return;
        }
        snapshotCache := snapshotCache + {snapshotID};
      }
      if !IsRunning(provision.containers, NameOf(wrapper)) {
        clones := clones - {id};
      }
      items := Increment(items, snapshotID);
    }

    /** StopAllSessions over the managed pools, in any order; a failing command ends it. */
    method CleanupInvalidClones(pools: set<string>, view: CleanupView) returns (ok: bool)
      requires forall id :: id in clones ==> clones[id].session.Some?
      modifies provision`containers, provision`datasets
      ensures OnlyForeignRemoved(old(provision.State()), provision.State(), pools, KeepNames(clones))
      ensures ok ==> Cleaned(provision.State(), pools, KeepNames(clones))
      ensures ok <==> CanClean(old(provision.State()), pools, KeepNames(clones), view)
    {
      var keep := KeepNames(clones);
      var rest := pools;
      while rest != {}
        invariant rest <= pools
        invariant OnlyForeignRemoved(old(provision.State()), provision.State(), pools - rest, keep)
        invariant Cleaned(provision.State(), pools - rest, keep)
        invariant CanClean(old(provision.State()), pools - rest, keep, view)
        decreases rest
      {
        var pool :| pool in rest;
        ghost var now := provision.State();
        CanCleanOne(old(provision.State()), now, pools - rest, pool, keep, view);
        ok := StopPoolSessions(pool, keep, view);
        RemovedFurther(old(provision.State()), now, provision.State(), pools - rest, pool, keep);
        assert pools - rest + {pool} == pools - (rest - {pool});
        if !ok {
          OnlyMoreRemoved(old(provision.State()), provision.State(), pools - rest + {pool}, pools, keep);
          assert !CanClean(old(provision.State()), pools, keep, view) by {
            if CanClean(old(provision.State()), pools, keep, view) {
              CleanMore(old(provision.State()), pools - rest + {pool}, pools, keep, view);
            }
          }
          return;
        }
        rest := rest - {pool};
      }
      assert pools - rest == pools;
      ok := true;
    }

    method StopPoolSessions(pool: string, keep: set<string>, view: CleanupView) returns (ok: bool)
      modifies provision`containers, provision`datasets
      ensures OnlyForeignRemoved(old(provision.State()), provision.State(), {pool}, keep)
      ensures ok ==> Cleaned(provision.State(), {pool}, keep)
      ensures ok <==> CanClean(old(provision.State()), {pool}, keep, view)
    {
      if pool in view.unlisted {
        return false;
      }
      ok := StopPoolContainers(pool, keep, view);
      if !ok {
        return;
      }
      ok := DestroyPoolDatasets(pool, keep, view);
    }

    method StopPoolContainers(pool: string, keep: set<string>, view: CleanupView) returns (ok: bool)
      modifies provision`containers
      ensures OnlyForeignRemoved(old(provision.State()), provision.State(), {pool}, keep)
      ensures ok ==> forall n :: n in provision.containers ==>
          !ForeignContainer({pool}, keep, n, provision.containers[n])
      ensures ok <==> forall n ::
        n in old(provision.containers) && old(provision.containers)[n].pool == pool && n !in keep ==>
          n !in view.stuckContainers
    {
      var instances := set n | n in provision.containers && provision.containers[n].pool == pool;
      while instances != {}
        invariant forall n :: n in instances ==> n in provision.containers && provision.containers[n].pool == pool
        invariant forall n :: n in provision.containers ==>
          ForeignContainer({pool}, keep, n, provision.containers[n]) ==> n in instances
        invariant forall n ::
          n in old(provision.containers) && old(provision.containers)[n].pool == pool && n !in keep ==>
            n in instances || n !in view.stuckContainers
        invariant OnlyForeignRemoved(old(provision.State()), provision.State(), {pool}, keep)
        decreases instances
      {
        var name :| name in instances;
        instances := instances - {name};
        if name in keep {
          continue;
        }
        ok := provision.StopContainer(name, if name in view.stuckContainers then Untouched else Done);
        if !ok {
          return;
        }
      }
      ok := true;
    }

    method DestroyPoolDatasets(pool: string, keep: set<string>, view: CleanupView) returns (ok: bool)
      modifies provision`datasets
      ensures OnlyForeignRemoved(old(provision.State()), provision.State(), {pool}, keep)
      ensures ok ==> forall d :: d in provision.datasets ==> !ForeignDataset({pool}, keep, d)
      ensures ok <==> forall d ::
        d in old(provision.datasets) && d.pool == pool && CLONE_PREFIX <= d.name && d.name !in keep ==>
          d !in view.stuckDatasets
    {
      var datasets := set d | d in provision.datasets && d.pool == pool && CLONE_PREFIX <= d.name;
      while datasets != {}
        invariant datasets <= provision.datasets
        invariant forall d :: d in datasets ==> d.pool == pool && CLONE_PREFIX <= d.name
        invariant forall d :: d in provision.datasets && ForeignDataset({pool}, keep, d) ==> d in datasets
        invariant forall d ::
          d in old(provision.datasets) && d.pool == pool && CLONE_PREFIX <= d.name && d.name !in keep ==>
            d in datasets || d !in view.stuckDatasets
        invariant OnlyForeignRemoved(old(provision.State()), provision.State(), {pool}, keep)
        decreases datasets
      {
        var d :| d in datasets;
        datasets := datasets - {d};
        if d.name in keep {
          continue;
        }
        OwnNameListed(provision.datasets, d.pool, d.name);
        ok := provision.DestroyClone(d.pool, d.name, true, if d in view.stuckDatasets then Untouched else Done);
        if !ok {
          return;
        }
      }
      ok := true;
    }
  }
}
