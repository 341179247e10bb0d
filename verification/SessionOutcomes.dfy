/**
 What a call on a session comes to (StartSession, StopSession and ResetSession of
 internal/provision/mode_local.go): exactly when it succeeds, and what is then, or
 otherwise, left of its container, its dataset and its port.
 */
module SessionOutcomes {
  import opened Options
  import opened CloneNames
  import opened Provision

  /** The snapshot asked for: the first one of that ID, or the first of all when no ID is given. */
  ghost predicate IsChosen(list: seq<SnapshotEntry>, id: string, k: nat) {
    && k < |list|
    && if id == "" then k == 0 else list[k].id == id && forall j :: 0 <= j < k ==> list[j].id != id
  }

  lemma {:induction false} ChosenIs(list: seq<SnapshotEntry>, id: string)
    ensures forall k: nat :: IsChosen(list, id, k) ==> ChooseSnapshot(list, id) == Some(list[k])
    ensures ChooseSnapshot(list, id).Some? ==> exists k: nat :: IsChosen(list, id, k)
    decreases |list|
  {
    if list != [] && id != "" && list[0].id != id {
      ChosenIs(list[1..], id);
      forall k: nat | IsChosen(list, id, k) ensures ChooseSnapshot(list, id) == Some(list[k]) {
        assert forall j :: 0 <= j < k - 1 ==> list[1..][j].id == list[j + 1].id;
        assert IsChosen(list[1..], id, k - 1);
      }
      if ChooseSnapshot(list, id).Some? {
        var k: nat :| IsChosen(list[1..], id, k);
        assert forall j :: 0 < j < k + 1 ==> list[j].id == list[1..][j - 1].id;
        assert IsChosen(list, id, k + 1);
      }
    } else if list != [] {
      assert IsChosen(list, id, 0);
    }
  }

  // ---------------------------------------------------------------- starts

  /** A snapshot and a port are there, and its pool is known. */
  ghost predicate StartReserves(st: Storage, id: string, view: StartView, k: nat, port: nat) {
    && IsChosen(view.snapshots, id, k) && view.hostKnown
    && IsFirstFit(st.from, st.ports, view.refused, port) && view.snapshots[k].pool in view.pools
  }

  /** There is a dataset to work with: one that lists the name, or a new one. */
  predicate HasDataset(datasets: set<Dataset>, name: string, run: StartRun) {
    run.listed && (Listed(datasets, name) || run.cloned == Done)
  }

  /** All that a start needs besides. */
  predicate StartWorks(st: Storage, port: nat, run: StartRun) {
    var name := GetCloneName(port);
    HasDataset(st.datasets, name, run) && name !in st.containers && run.started == Done && run.prepared
  }

  /** A container of the name runs in the pool, a dataset is listed by it, and nothing else has changed. */
  ghost predicate RunsNow(st: Storage, st': Storage, pool: string, port: nat) {
    var name := GetCloneName(port);
    && st'.containers == st.containers[name := Container(pool, true)]
    && st'.datasets == (if Listed(st.datasets, name) then st.datasets else st.datasets + {Dataset(pool, name)})
    && Listed(st'.datasets, name)
  }

  lemma NewDatasetListed(datasets: set<Dataset>, pool: string, name: string)
    ensures Listed(datasets + {Dataset(pool, name)}, name)
  {
    OwnNameListed(datasets + {Dataset(pool, name)}, pool, name);
  }

  /** The second half of a start, from any state. */
  lemma FinishIff(st: Storage, pool: string, port: nat, run: StartRun, undo: StopRun)
    ensures var (st', ok) := Finish(st, pool, port, run, undo);
      && (ok <==> StartWorks(st, port, run))
      && (ok ==> RunsNow(st, st', pool, port) && GetCloneName(port) !in st.containers && st'.ports == st.ports)
  {
    NewDatasetListed(st.datasets, pool, GetCloneName(port));
  }

  lemma ReservesIff(st: Storage, id: string, view: StartView, k: nat, port: nat)
    ensures StartReserves(st, id, view, k, port) ==>
      Reserve(st, id, view) == (SetPort(st, port, true), Reserved(port, view.snapshots[k].pool))
    ensures Reserve(st, id, view).1.Reserved? ==>
        exists k: nat :: StartReserves(st, id, view, k, Reserve(st, id, view).1.port)
  {
    ChosenIs(view.snapshots, id);
    AllocationComplete(st.from, st.ports, view.refused);
    if Reserve(st, id, view).1.Reserved? {
      var k: nat :| IsChosen(view.snapshots, id, k);
      assert StartReserves(st, id, view, k, Reserve(st, id, view).1.port);
    }
  }

  /**
   A start succeeds if and only if the snapshot is there, some port fits, the pool is
   known, and every command does its work; then exactly the new container runs, the
   dataset is listed, and the port is bound.
   */
  lemma StartSucceedsIff(st: Storage, id: string, view: StartView, run: StartRun, undo: StopRun)
    ensures StartSession(st, id, view, run, undo).1 <==>
      exists k: nat, port: nat :: StartReserves(st, id, view, k, port) && StartWorks(st, port, run)
    ensures forall k: nat, port: nat :: StartReserves(st, id, view, k, port) && StartWorks(st, port, run) ==>
      var st' := StartSession(st, id, view, run, undo).0;
      RunsNow(st, st', view.snapshots[k].pool, port) && st'.ports == st.ports[port - st.from := true]
  {
    var (st1, r) := Reserve(st, id, view);
    forall k: nat, port: nat ensures StartReserves(st, id, view, k, port) ==>
      Reserve(st, id, view) == (SetPort(st, port, true), Reserved(port, view.snapshots[k].pool))
    {
      ReservesIff(st, id, view, k, port);
    }
    ReservesIff(st, id, view, 0, 0);
    if r.Reserved? {
      FinishIff(st1, r.pool, r.port, run, undo);
      var k: nat :| StartReserves(st, id, view, k, r.port);
      assert StartWorks(st1, r.port, run) <==> StartWorks(st, r.port, run);
    }
  }

  /** What a clean-up takes away: a container, and a dataset of the name in the pool. */
  predicate TakesContainer(undo: StopRun) {
    undo.stopped != Untouched
  }

  lemma BuildUpLeaves(st: Storage, pool: string, name: string, run: StartRun)
    ensures var st1 := BuildUp(st, pool, name, run).0;
      && st1.from == st.from && st1.ports == st.ports
      && (name in st1.containers <==>
            name in st.containers || (HasDataset(st.datasets, name, run) && run.started != Untouched))
      && (Dataset(pool, name) in st1.datasets <==>
            || Dataset(pool, name) in st.datasets
            || (run.listed && !Listed(st.datasets, name) && run.cloned != Untouched))
  {
    if Dataset(pool, name) in st.datasets {
      OwnNameListed(st.datasets, pool, name);
    }
  }

  lemma RevertLeaves(st: Storage, pool: string, name: string, undo: StopRun)
    ensures var st1 := Revert(st, pool, name, undo);
      && st1.from == st.from && st1.ports == st.ports
      && (name in st1.containers <==> name in st.containers && !TakesContainer(undo))
      && (Dataset(pool, name) in st1.datasets <==> Dataset(pool, name) in st.datasets && !Undoes(undo))
  {
    if Dataset(pool, name) in st.datasets {
      OwnNameListed(st.datasets, pool, name);
    }
  }

  /**
   What a failed start leaves: its port is unbound, a container of the name is there
   if there was one or one was made, unless the clean-up took it, and so is the dataset.
   */
  lemma FailedFinishLeaves(st: Storage, pool: string, port: nat, run: StartRun, undo: StopRun)
    requires st.InPool(port) && !StartWorks(st, port, run)
    ensures var st', name := Finish(st, pool, port, run, undo).0, GetCloneName(port);
      && st'.ports == st.ports[port - st.from := false]
      && (name in st'.containers <==>
            && !TakesContainer(undo)
            && (name in st.containers || (HasDataset(st.datasets, name, run) && run.started != Untouched)))
      && (Dataset(pool, name) in st'.datasets <==>
            && !Undoes(undo)
            && (Dataset(pool, name) in st.datasets
                || (run.listed && !Listed(st.datasets, name) && run.cloned != Untouched)))
  {
    FinishIff(st, pool, port, run, undo);
    BuildUpLeaves(st, pool, GetCloneName(port), run);
    RevertLeaves(BuildUp(st, pool, GetCloneName(port), run).0, pool, GetCloneName(port), undo);
  }

  // ----------------------------------------------------------------- stops

  /** The session's dataset can be destroyed, and is, or its name is not listed at all. */
  predicate ClearsDataset(datasets: set<Dataset>, s: Session, run: StopRun) {
    run.listed && (!Listed(datasets, GetCloneName(s.port)) || (DatasetOf(s) in datasets && run.destroyed == Done))
  }

  /**
   A stop succeeds if and only if the pool is known, the container goes, the dataset is
   cleared away, and the port is one of the pool. Whether it does or not, the container
   is gone if the pool is known and its command got that far, the dataset likewise if the
   one before it worked, and the port is unbound exactly after a success.
   */
  lemma StopSucceedsIff(st: Storage, pools: set<string>, s: Session, run: StopRun)
    ensures var (st', ok) := StopSession(st, pools, s, run); var name := GetCloneName(s.port);
      && (ok <==> s.pool in pools && run.stopped == Done && ClearsDataset(st.datasets, s, run) && st.InPool(s.port))
      && st'.containers ==
           (if s.pool in pools && run.stopped != Untouched then st.containers - {name} else st.containers)
      && st'.datasets == (if s.pool in pools && Destroys(run) then st.datasets - {DatasetOf(s)} else st.datasets)
      && (ok ==> st'.ports == st.ports[s.port - st.from := false])
      && (!ok ==> st'.ports == st.ports)
  {
    if DatasetOf(s) in st.datasets {
      OwnNameListed(st.datasets, s.pool, GetCloneName(s.port));
    } else {
      assert st.datasets - {DatasetOf(s)} == st.datasets;
    }
  }

  /** After a stop that succeeded nothing of the session is left. */
  lemma StoppedIsGone(st: Storage, pools: set<string>, s: Session, run: StopRun)
    requires StopSession(st, pools, s, run).1
    ensures var st', name := StopSession(st, pools, s, run).0, GetCloneName(s.port);
      name !in st'.containers && DatasetOf(s) !in st'.datasets && !st'.Bound(s.port)
  {
    StopSucceedsIff(st, pools, s, run);
    if DatasetOf(s) in st.datasets {
      OwnNameListed(st.datasets, s.pool, GetCloneName(s.port));
    }
  }

  // ---------------------------------------------------------------- resets

  /** The pools of the session and of the snapshot asked for are known. */
  ghost predicate ResetFinds(s: Session, id: string, view: ResetView, k: nat) {
    s.pool in view.pools && IsChosen(view.snapshots, id, k) && view.snapshots[k].pool in view.pools
  }

  /** The old container and dataset go. */
  predicate ResetStops(st: Storage, s: Session, stop: StopRun) {
    stop.stopped == Done && ClearsDataset(st.datasets, s, stop)
  }

  /** The datasets among which the new one is looked for. */
  function AfterStop(st: Storage, s: Session): set<Dataset> {
    st.datasets - {DatasetOf(s)}
  }

  /** There is a dataset again, the container is up and the database prepared. */
  predicate ResetStarts(st: Storage, s: Session, start: StartRun) {
    HasDataset(AfterStop(st, s), GetCloneName(s.port), start) && start.started == Done && start.prepared
  }

  lemma ResetStopIs(st: Storage, s: Session, stop: StopRun)
    ensures var (st1, ok) := TearDown(st, s.pool, GetCloneName(s.port), stop);
      && (ok <==> ResetStops(st, s, stop))
      && (ok ==> st1 == st.(containers := st.containers - {GetCloneName(s.port)}, datasets := AfterStop(st, s)))
  {
    if DatasetOf(s) in st.datasets {
      OwnNameListed(st.datasets, s.pool, GetCloneName(s.port));
    } else {
      assert AfterStop(st, s) == st.datasets;
    }
  }

  /**
   A reset succeeds if and only if both pools and the snapshot are known, the old
   container and dataset go, and the new ones come up. It then returns that snapshot,
   and in the snapshot's pool, which is the session's from then on, exactly the new
   container runs and a dataset is listed.
   */
  lemma ResetSucceedsIff(st: Storage, s: Session, id: string, view: ResetView, stop: StopRun, start: StartRun,
                         undo: StopRun)
    ensures ResetSession(st, s, id, view, stop, start, undo).2.Some? <==>
      (exists k: nat :: ResetFinds(s, id, view, k)) && ResetStops(st, s, stop) && ResetStarts(st, s, start)
    ensures forall k: nat :: ResetFinds(s, id, view, k) ==> ResetIs(st, s, id, view, k, stop, start, undo)
  {
    ChosenIs(view.snapshots, id);
    forall k: nat | ResetFinds(s, id, view, k) ensures ResetIs(st, s, id, view, k, stop, start, undo) {
      ResetDelivers(st, s, id, view, k, stop, start, undo);
    }
    if ResetSession(st, s, id, view, stop, start, undo).2.Some? {
      var k: nat :| IsChosen(view.snapshots, id, k);
      assert ResetFinds(s, id, view, k);
    }
  }

  /** What a reset to snapshot `k` of the list comes to. */
  ghost predicate ResetIs(st: Storage, s: Session, id: string, view: ResetView, k: nat, stop: StopRun, start: StartRun,
                          undo: StopRun)
    requires k < |view.snapshots|
  {
    var (st', s', r) := ResetSession(st, s, id, view, stop, start, undo);
    var to := view.snapshots[k];
    && s' == s.(pool := to.pool) && st'.ports == st.ports
    && (r.Some? <==> ResetStops(st, s, stop) && ResetStarts(st, s, start))
    && (r.Some? ==>
          && r == Some(to.id)
          && RunsNow(st.(datasets := AfterStop(st, s)), st', to.pool, s.port))
  }

  lemma ResetDelivers(st: Storage, s: Session, id: string, view: ResetView, k: nat, stop: StopRun, start: StartRun,
                      undo: StopRun)
    requires ResetFinds(s, id, view, k)
    ensures ResetIs(st, s, id, view, k, stop, start, undo)
  {
    var name, pool := GetCloneName(s.port), view.snapshots[k].pool;
    ChosenIs(view.snapshots, id);
    ResetStopIs(st, s, stop);
    ResetPorts(st, s, id, view, stop, start, undo);
    NewDatasetListed(AfterStop(st, s), pool, name);
    assert (st.containers - {name})[name := Container(pool, true)] == st.containers[name := Container(pool, true)];
  }

  /** A reset that finds no snapshot or does not know a pool changes nothing. */
  lemma ResetRefused(st: Storage, s: Session, id: string, view: ResetView, stop: StopRun, start: StartRun,
                     undo: StopRun)
    requires forall k: nat :: !ResetFinds(s, id, view, k)
    ensures ResetSession(st, s, id, view, stop, start, undo) == (st, s, None)
  {
    ChosenIs(view.snapshots, id);
    if s.pool in view.pools && ChooseSnapshot(view.snapshots, id).Some? {
      var k: nat :| IsChosen(view.snapshots, id, k);
      assert !ResetFinds(s, id, view, k);
    }
  }

  /**
   The container after a reset that failed on the way: the old one if it was not stopped, or a
   new one, unless cleaned up.
   */
  lemma FailedResetLeaves(st: Storage, s: Session, id: string, view: ResetView, k: nat, stop: StopRun, start: StartRun,
                          undo: StopRun)
    requires ResetFinds(s, id, view, k) && ResetSession(st, s, id, view, stop, start, undo).2.None?
    ensures var st', name, pool := ResetSession(st, s, id, view, stop, start, undo).0, GetCloneName(s.port),
        view.snapshots[k].pool;
      && (name in st'.containers <==>
            && !TakesContainer(undo)
            && ((name in st.containers && stop.stopped == Untouched)
                || (ResetStops(st, s, stop) && HasDataset(AfterStop(st, s), name, start) &&
                    start.started != Untouched)))
      && (Dataset(pool, name) in st'.datasets <==>
            && !Undoes(undo)
            && ((Dataset(pool, name) in st.datasets && !(pool == s.pool && Destroys(stop)))
                || (ResetStops(st, s, stop) && start.listed && !Listed(AfterStop(st, s), name) &&
                    start.cloned != Untouched)))
  {
    var name, pool := GetCloneName(s.port), view.snapshots[k].pool;
    ChosenIs(view.snapshots, id);
    ResetStopIs(st, s, stop);
    TearDownLeaves(st, s.pool, name, stop);
    var (st1, stopped) := TearDown(st, s.pool, name, stop);
    if stopped {
      BuildUpLeaves(st1, pool, name, start);
      RevertLeaves(BuildUp(st1, pool, name, start).0, pool, name, undo);
    } else {
      RevertLeaves(st1, pool, name, undo);
    }
  }

  lemma TearDownLeaves(st: Storage, pool: string, name: string, stop: StopRun)
    ensures var st1 := TearDown(st, pool, name, stop).0;
      && (name in st1.containers <==> name in st.containers && stop.stopped == Untouched)
      && st1.datasets == Removed(st.datasets, Dataset(pool, name), Destroys(stop))
  {
    TearDownRemoves(st, pool, name, stop);
  }
}
