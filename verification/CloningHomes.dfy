/**
 Which runs keep every registered clone such that its session can be stopped
 and is not mistaken for another one: those in which no clone is given a session
 whose dataset lies in another pool.
 */
module CloningHomes {
  import opened Options
  import opened Text
  import opened CloneNames
  import opened Provision
  import opened Cloning
  import opened CloningSafety
  import opened CloningReach
  import opened CloningDiscipline

  // ------------------------------------------------------------- datasets

  ghost predicate IsCloneName(st: Storage, name: string) {
    exists p: nat :: st.InPool(p) && name == GetCloneName(p)
  }

  /** No pool, and no dataset but those of clones, mentions the name of a clone. */
  ghost predicate NothingForeign(st: Storage, pools: set<string>) {
    && (forall d :: d in st.datasets ==> d.pool in pools)
    && (forall pool, p: nat :: pool in pools && st.InPool(p) ==> !Contains(pool, GetCloneName(p)))
    && (forall d, p: nat :: d in st.datasets && st.InPool(p) && Contains(d.name, GetCloneName(p)) ==>
          IsCloneName(st, d.name))
  }

  /** Of each clone name there is one dataset in all pools, at most. */
  ghost predicate OneEach(st: Storage) {
    forall c, d :: c in st.datasets && d in st.datasets && c.name == d.name && IsCloneName(st, c.name) ==> c == d
  }

  ghost predicate Tidy(st: Storage, pools: set<string>) {
    0 < st.from && st.from + |st.ports| <= 10 * st.from && NothingForeign(st, pools) && OneEach(st)
  }

  /** A dataset of the session's name lies in another pool than the session says. */
  predicate Strayed(datasets: set<Dataset>, s: Session) {
    exists d :: d in datasets && d.name == GetCloneName(s.port) && d.pool != s.pool
  }

  /** A dataset mentions the name of a clone exactly when it is the name's own. */
  lemma MentionsIff(st: Storage, pools: set<string>, d: Dataset, p: nat)
    requires Tidy(st, pools) && d in st.datasets && st.InPool(p)
    ensures Contains(d.pool + "/" + d.name, GetCloneName(p)) <==> d.name == GetCloneName(p)
  {
    assert Contains(d.name, GetCloneName(p)) ==> IsCloneName(st, d.name);
    ListedExact({d}, st.from, st.from + |st.ports|, p);
    assert Listed({d}, GetCloneName(p)) <==> Contains(d.pool + "/" + d.name, GetCloneName(p));
    assert (exists c :: c in {d} && c.name == GetCloneName(p)) <==> d.name == GetCloneName(p);
  }

  /** In a tidy storage, both conditions of the exact disciplines say that the dataset is where the session says. */
  lemma AtHomeIff(st: Storage, pools: set<string>, s: Session)
    requires Tidy(st, pools) && st.InPool(s.port)
    ensures CanStop(st.datasets, s) <==> !Strayed(st.datasets, s)
    ensures NoNamesake(st.datasets, s) <==> !Strayed(st.datasets, s)
  {
    var name := GetCloneName(s.port);
    forall d | d in st.datasets ensures Contains(d.pool + "/" + d.name, name) <==> d.name == name {
      MentionsIff(st, pools, d, s.port);
    }
    assert IsCloneName(st, name);
    if Strayed(st.datasets, s) {
      var d :| d in st.datasets && d.name == name && d.pool != s.pool;
      assert Listed(st.datasets, name) && DatasetOf(s) !in st.datasets;
    }
  }

  lemma TidyLess(st: Storage, st': Storage, pools: set<string>)
    requires Tidy(st, pools) && st'.from == st.from && |st'.ports| == |st.ports| && st'.datasets <= st.datasets
    ensures Tidy(st', pools)
  {
    assert forall p: nat :: st'.InPool(p) <==> st.InPool(p);
    assert forall name :: IsCloneName(st', name) <==> IsCloneName(st, name);
  }

  lemma TidyMore(st: Storage, st': Storage, pools: set<string>, pool: string, p: nat)
    requires Tidy(st, pools) && st'.from == st.from && |st'.ports| == |st.ports|
    requires pool in pools && st.InPool(p) && !Listed(st.datasets, GetCloneName(p))
    requires st'.datasets == st.datasets + {Dataset(pool, GetCloneName(p))}
    ensures Tidy(st', pools)
  {
    assert forall p: nat :: st'.InPool(p) <==> st.InPool(p);
    assert forall name :: IsCloneName(st', name) <==> IsCloneName(st, name);
    forall d | d in st.datasets ensures d.name != GetCloneName(p) {
      MentionsIff(st, pools, d, p);
    }
  }

  /** What a build-up that may be cleaned up again leaves. */
  ghost predicate Built(st: Storage, st': Storage, pool: string, name: string) {
    && st'.from == st.from && |st'.ports| == |st.ports|
    && (st'.datasets <= st.datasets ||
        (!Listed(st.datasets, name) && st'.datasets == st.datasets + {Dataset(pool, name)}))
    && forall d :: d in st.datasets && d != Dataset(pool, name) ==> d in st'.datasets
  }

  lemma FinishBuilds(st: Storage, pool: string, port: nat, run: StartRun, undo: StopRun)
    ensures Built(st, Finish(st, pool, port, run, undo).0, pool, GetCloneName(port))
  {
    var name := GetCloneName(port);
    var st1 := BuildUp(st, pool, name, run).0;
    FinishPorts(st, pool, port, run, undo);
    BuildUpCreates(st, pool, name, run);
    TearDownRemoves(st1, pool, name, undo);
  }

  lemma BuiltTidy(st: Storage, st': Storage, pools: set<string>, pool: string, p: nat)
    requires Tidy(st, pools) && pool in pools && st.InPool(p) && Built(st, st', pool, GetCloneName(p))
    ensures Tidy(st', pools)
  {
    if st'.datasets <= st.datasets {
      TidyLess(st, st', pools);
    } else {
      TidyMore(st, st', pools, pool, p);
    }
  }

  lemma BuiltStrays(st: Storage, st': Storage, s: Session)
    requires Built(st, st', s.pool, GetCloneName(s.port))
    ensures Strayed(st'.datasets, s) <==> Strayed(st.datasets, s)
  {
  }

  /** The reset changes the pool of the session, and leaves a dataset behind. */
  predicate LeavesBehind(st: Storage, s: Session, id: string, view: ResetView, stop: StopRun) {
    var snapshot := ChooseSnapshot(view.snapshots, id);
    && s.pool in view.pools && snapshot.Some? && snapshot.value.pool in view.pools
    && snapshot.value.pool != s.pool && DatasetOf(s) in st.datasets && !Destroys(stop)
  }

  lemma ResetStrays(st: Storage, s: Session, id: string, view: ResetView, stop: StopRun, start: StartRun, undo: StopRun)
    requires !Strayed(st.datasets, s)
    ensures var (st', s', _) := ResetSession(st, s, id, view, stop, start, undo);
      Strayed(st'.datasets, s') <==> LeavesBehind(st, s, id, view, stop)
  {
    var snapshot := ChooseSnapshot(view.snapshots, id);
    if s.pool in view.pools && snapshot.Some? && snapshot.value.pool in view.pools {
      var torn, built := ResetStages(st, s, id, view, stop, start, undo);
      var st' := ResetSession(st, s, id, view, stop, start, undo).0;
      if LeavesBehind(st, s, id, view, stop) {
        assert DatasetOf(s) in st'.datasets && DatasetOf(s).name == GetCloneName(s.port);
      }
    }
  }

  lemma ResetTidy(st: Storage, pools: set<string>, s: Session, id: string, view: ResetView, stop: StopRun,
                  start: StartRun, undo: StopRun)
    requires Tidy(st, pools) && view.pools <= pools && st.InPool(s.port)
    ensures Tidy(ResetSession(st, s, id, view, stop, start, undo).0, pools)
  {
    var snapshot := ChooseSnapshot(view.snapshots, id);
    ResetPorts(st, s, id, view, stop, start, undo);
    if s.pool in view.pools && snapshot.Some? && snapshot.value.pool in view.pools {
      var torn, built := ResetStages(st, s, id, view, stop, start, undo);
      TidyLess(st, st.(datasets := torn), pools);
      var st1 := st.(datasets := built);
      if built == torn {
        TidyLess(st.(datasets := torn), st1, pools);
      } else {
        TidyMore(st.(datasets := torn), st1, pools, snapshot.value.pool, s.port);
      }
      TidyLess(st1, ResetSession(st, s, id, view, stop, start, undo).0, pools);
    }
  }

  // ---------------------------------------------------------------- engine

  ghost predicate AllTidy(e: Engine, pools: set<string>) {
    Tidy(e.storage, pools) && forall j :: j in e.jobs && e.jobs[j].Preparing? ==> e.jobs[j].started.pool in pools
  }

  /** The session of every registered clone has its dataset, if there is one, where it says. */
  ghost predicate AllHome(e: Engine) {
    forall id :: e.Has(id) && e.Get(id).session.Some? ==> !Strayed(e.storage.datasets, e.Get(id).session.value)
  }

  /** The event knows no pools but these. */
  predicate KnowsOnly(ev: Event, pools: set<string>) {
    match ev
    case EvReserve(_, view) => view.pools <= pools
    case EvFinishReset(_, view, _, _, _) => view.pools <= pools
    case _ => true
  }

  /**
   A session goes astray: a start ends well although a dataset of its name lies in
   another pool, or a reset moves it to another pool and leaves its dataset behind.
   */
  predicate Strays(e: Engine, ev: Event) {
    match ev
    case EvFinishStart(job, run, undo) =>
      && job in e.jobs && e.jobs[job].Preparing? && e.Has(e.jobs[job].id)
      && var s := e.jobs[job].started;
         Finish(e.storage, s.pool, s.port, run, undo).1 && Strayed(e.storage.datasets, s)
    case EvFinishReset(job, view, stop, _, _) =>
      && job in e.jobs && e.jobs[job].Moving? && e.jobs[job].ref in e.wrappers &&
        e.wrappers[e.jobs[job].ref].session.Some?
      && LeavesBehind(e.storage, e.wrappers[e.jobs[job].ref].session.value, e.jobs[job].snapshotID, view, stop)
    case _ => false
  }

  lemma StartTidy(e: Engine, job: nat, run: StartRun, undo: StopRun, pools: set<string>)
    requires Inv(e) && AllTidy(e, pools) && job in e.jobs && e.jobs[job].Preparing?
    ensures AllTidy(FinishStart(e, job, run, undo), pools)
  {
    var s := e.jobs[job].started;
    StartHolds(e, job);
    StaysBound(e, s.token);
    FinishBuilds(e.storage, s.pool, s.port, run, undo);
    BuiltTidy(e.storage, Finish(e.storage, s.pool, s.port, run, undo).0, pools, s.pool, s.port);
  }

  lemma DestroyTidy(e: Engine, job: nat, view: set<string>, stop: StopRun, pools: set<string>)
    requires Inv(e) && AllTidy(e, pools) && job in e.jobs && e.jobs[job].Destroying?
    ensures AllTidy(FinishDestroy(e, job, view, stop), pools)
    ensures FinishDestroy(e, job, view, stop).storage.datasets <= e.storage.datasets
  {
    StopHolds(e, job);
    var s := e.wrappers[e.jobs[job].ref].session.value;
    StopPorts(e.storage, view, s, stop);
    TidyLess(e.storage, StopSession(e.storage, view, s, stop).0, pools);
  }

  lemma MoveTidy(e: Engine, job: nat, view: ResetView, stop: StopRun, start: StartRun, undo: StopRun,
                 pools: set<string>)
    requires Inv(e) && AllTidy(e, pools) && view.pools <= pools && job in e.jobs && e.jobs[job].Moving?
    ensures AllTidy(FinishReset(e, job, view, stop, start, undo), pools)
  {
    StopHolds(e, job);
    var s := e.wrappers[e.jobs[job].ref].session.value;
    StaysBound(e, s.token);
    ResetTidy(e.storage, pools, s, e.jobs[job].snapshotID, view, stop, start, undo);
  }

  lemma ReserveTidy(e: Engine, job: nat, view: StartView, pools: set<string>)
    requires AllTidy(e, pools) && view.pools <= pools && job in e.jobs && e.jobs[job].Starting?
    ensures AllTidy(ReserveStart(e, job, view), pools)
  {
    ReserveNeverUnbinds(e.storage, e.jobs[job].snapshotID, view);
    TidyLess(e.storage, ReserveStart(e, job, view).storage, pools);
  }

  lemma QuietTidy(e: Engine, ev: Event, pools: set<string>)
    requires AllTidy(e, pools) && !ev.EvReserve? && !ev.EvFinishStart? && !ev.EvFinishDestroy? && !ev.EvFinishReset?
    ensures AllTidy(Step(e, ev), pools)
  {
    OthersCallNothing(e, ev);
    QuietJobs(e, ev);
  }

  /** Handlers start no goroutine that has a port. */
  lemma QuietJobs(e: Engine, ev: Event)
    requires !ev.EvReserve? && !ev.EvFinishStart? && !ev.EvFinishDestroy? && !ev.EvFinishReset?
    ensures var e' := Step(e, ev);
      forall j :: j in e'.jobs && e'.jobs[j].Preparing? ==> j in e.jobs && e'.jobs[j] == e.jobs[j]
  {
  }

  lemma TidyStep(e: Engine, ev: Event, pools: set<string>)
    requires Inv(e) && AllTidy(e, pools) && KnowsOnly(ev, pools)
    ensures AllTidy(Step(e, ev), pools)
  {
    match ev {
      case EvReserve(job, view) =>
        if job in e.jobs && e.jobs[job].Starting? { ReserveTidy(e, job, view, pools); }
      case EvFinishStart(job, run, undo) =>
        if job in e.jobs && e.jobs[job].Preparing? { StartTidy(e, job, run, undo, pools); }
      case EvFinishDestroy(job, view, stop) =>
        if job in e.jobs && e.jobs[job].Destroying? { DestroyTidy(e, job, view, stop, pools); }
      case EvFinishReset(job, view, stop, run, undo) =>
        if job in e.jobs && e.jobs[job].Moving? { MoveTidy(e, job, view, stop, run, undo, pools); }
      case _ => QuietTidy(e, ev, pools);
    }
  }

  // ---------------------------------------------------------- clones at home

  /** Every registered clone with a session had that session before, or is the one named. */
  ghost predicate SessionsKept(e: Engine, e': Engine, but: Option<string>) {
    forall id :: e'.Has(id) && e'.Get(id).session.Some? && Some(id) != but ==>
      e.Has(id) && e.Get(id).session == e'.Get(id).session
  }

  lemma UpdateSessions(e: Engine, id: string, status: Status)
    ensures SessionsKept(e, UpdateStatus(e, id, status), None)
  {
  }

  lemma CreateSessions(e: Engine, request: CreateRequest, entries: seq<SnapshotEntry>)
    requires Inv(e)
    ensures SessionsKept(e, CreateClone(e, request, entries).0, None)
  {
    NumbersBelowNext(e);
  }

  lemma DestroySessions(e: Engine, id: string)
    ensures SessionsKept(e, DestroyClone(e, id).0, None)
  {
    UpdateSessions(e, id, StatusDeleting);
  }

  lemma ResetSessions(e: Engine, id: string, snapshotID: string, latest: bool)
    ensures SessionsKept(e, ResetClone(e, id, snapshotID, latest).0, None)
  {
    UpdateSessions(e, id, StatusResetting);
  }

  lemma ReserveSessions(e: Engine, job: nat, view: StartView)
    ensures SessionsKept(e, ReserveStart(e, job, view), None)
  {
    if job in e.jobs && e.jobs[job].Starting? {
      var st := Reserve(e.storage, e.jobs[job].snapshotID, view).0;
      UpdateSessions(EndJob(e.(storage := st), job), e.jobs[job].id, StatusFatal);
    }
  }

  lemma FinishDestroySessions(e: Engine, job: nat, pools: set<string>, stop: StopRun)
    ensures SessionsKept(e, FinishDestroy(e, job, pools, stop), None)
  {
    if job in e.jobs && e.jobs[job].Destroying? {
      var Destroying(id, ref) := e.jobs[job];
      if ref in e.wrappers && e.wrappers[ref].session.Some? {
        var st := StopSession(e.storage, pools, e.wrappers[ref].session.value, stop).0;
        UpdateSessions(EndJob(e.(storage := st), job), id, StatusFatal);
      }
    }
  }

  lemma QuietSessions(e: Engine, ev: Event)
    requires Inv(e) && !ev.EvFinishStart? && !ev.EvFinishReset?
    ensures SessionsKept(e, Step(e, ev), None)
  {
    match ev {
      case EvCreate(request, entries) => CreateSessions(e, request, entries);
      case EvReserve(job, view) => ReserveSessions(e, job, view);
      case EvDestroy(id) => DestroySessions(e, id);
      case EvIdle(id, view) => DestroySessions(e, id);
      case EvReset(id, snapshotID, latest) => ResetSessions(e, id, snapshotID, latest);
      case EvFinishDestroy(job, pools, stop) => FinishDestroySessions(e, job, pools, stop);
      case _ =>
    }
  }

  lemma ClonesHold(e: Engine, id: string)
    requires Inv(e) && e.Has(id) && e.Get(id).session.Some?
    ensures Live(e, e.Get(id).session.value)
  {
    var owner, stopper :| InvBy(e, owner, stopper);
  }

  /** A clone that the step's goroutine does not work for stays at home. */
  lemma OtherStaysHome(e: Engine, ev: Event, id: string)
    requires Inv(e) && e.Has(id) && e.Get(id).session.Some? && !WorksFor(e, ev, e.Get(id).session.value.token)
    ensures var s := e.Get(id).session.value;
      Strayed(Step(e, ev).storage.datasets, s) <==> Strayed(e.storage.datasets, s)
  {
    ClonesHold(e, id);
    StepReaches(e, ev, e.Get(id).session.value.token);
  }

  /** A goroutine that ends a start works for no registered clone; one that moves a session works for its own clone. */
  lemma WorksForOne(e: Engine, ev: Event, id: string)
    requires Inv(e) && e.Has(id) && e.Get(id).session.Some? && WorksFor(e, ev, e.Get(id).session.value.token)
    ensures !ev.EvFinishStart? && ev.job in e.jobs && e.jobs[ev.job].id == id
  {
    var owner, stopper :| InvBy(e, owner, stopper);
    assert JobLinked(e, owner, stopper, ev.job);
  }

  /** The sessions of all registered clones but the one named are at home among these datasets. */
  ghost predicate HomeIn(e: Engine, datasets: set<Dataset>, but: Option<string>) {
    forall id :: e.Has(id) && e.Get(id).session.Some? && Some(id) != but ==> !Strayed(datasets, e.Get(id).session.value)
  }

  lemma OthersStayHome(e: Engine, ev: Event, but: Option<string>)
    requires Inv(e) && AllHome(e) &&
      (ev.EvFinishStart? || (ev.EvFinishReset? && ev.job in e.jobs && but == Some(e.jobs[ev.job].id)))
    ensures HomeIn(e, Step(e, ev).storage.datasets, but)
  {
    forall id | e.Has(id) && e.Get(id).session.Some? && Some(id) != but
      ensures !Strayed(Step(e, ev).storage.datasets, e.Get(id).session.value)
    {
      if WorksFor(e, ev, e.Get(id).session.value.token) {
        WorksForOne(e, ev, id);
      }
      OtherStaysHome(e, ev, id);
    }
  }

  lemma AllHomeBut(e: Engine, e': Engine, id: string)
    requires SessionsKept(e, e', Some(id)) && HomeIn(e, e'.storage.datasets, Some(id)) && e'.Has(id) &&
      e'.Get(id).session.Some?
    ensures AllHome(e') <==> !Strayed(e'.storage.datasets, e'.Get(id).session.value)
  {
  }

  lemma QuietHome(e: Engine, ev: Event)
    requires Inv(e) && AllHome(e) && !ev.EvFinishStart? && !ev.EvFinishReset? && !ev.EvFinishDestroy?
    ensures AllHome(Step(e, ev))
  {
    QuietSessions(e, ev);
    var e' := Step(e, ev);
    forall id | e'.Has(id) && e'.Get(id).session.Some? ensures !Strayed(e'.storage.datasets, e'.Get(id).session.value) {
      OtherStaysHome(e, ev, id);
    }
  }

  lemma DestroyHome(e: Engine, job: nat, view: set<string>, stop: StopRun, pools: set<string>)
    requires Inv(e) && AllTidy(e, pools) && AllHome(e)
    ensures AllHome(FinishDestroy(e, job, view, stop))
  {
    QuietSessions(e, EvFinishDestroy(job, view, stop));
    if job in e.jobs && e.jobs[job].Destroying? {
      DestroyTidy(e, job, view, stop, pools);
      HomeWithLess(e, FinishDestroy(e, job, view, stop));
    }
  }

  lemma HomeWithLess(e: Engine, e': Engine)
    requires AllHome(e) && SessionsKept(e, e', None) && e'.storage.datasets <= e.storage.datasets
    ensures AllHome(e')
  {
  }

  lemma StartSessions(e: Engine, job: nat, run: StartRun, undo: StopRun)
    requires Inv(e) && job in e.jobs && e.jobs[job].Preparing?
    ensures var e', s := FinishStart(e, job, run, undo), e.jobs[job].started;
      if Finish(e.storage, s.pool, s.port, run, undo).1 && e.Has(e.jobs[job].id) then
        SessionsKept(e, e', Some(e.jobs[job].id)) && e'.Has(e.jobs[job].id) && e'.Get(e.jobs[job].id).session == Some(s)
      else SessionsKept(e, e', None)
  {
    if e.Has(e.jobs[job].id) {
      OneWrapper(e, e.jobs[job].id);
    }
  }

  lemma StartHomeIff(e: Engine, job: nat, run: StartRun, undo: StopRun)
    requires Inv(e) && AllHome(e) && job in e.jobs && e.jobs[job].Preparing?
    ensures AllHome(FinishStart(e, job, run, undo)) <==> !Strays(e, EvFinishStart(job, run, undo))
  {
    var id, s, e' := e.jobs[job].id, e.jobs[job].started, FinishStart(e, job, run, undo);
    StartSessions(e, job, run, undo);
    FinishBuilds(e.storage, s.pool, s.port, run, undo);
    BuiltStrays(e.storage, Finish(e.storage, s.pool, s.port, run, undo).0, s);
    OthersStayHome(e, EvFinishStart(job, run, undo), None);
  }

  lemma MoveSessions(e: Engine, job: nat, view: ResetView, stop: StopRun, start: StartRun, undo: StopRun)
    requires Inv(e) && job in e.jobs && e.jobs[job].Moving?
    ensures var e', id := FinishReset(e, job, view, stop, start, undo), e.jobs[job].id;
      && e.Has(id) && e.clones[id] == e.jobs[job].ref && e.Get(id).session.Some? && SessionsKept(e, e', Some(id))
      && var (_, s', _) := ResetSession(e.storage, e.Get(id).session.value, e.jobs[job].snapshotID, view, stop, start,
                                        undo);
         e'.Has(id) && e'.Get(id).session == Some(s')
  {
    StopHolds(e, job);
    StopperHasClone(e, job);
    OneWrapper(e, e.jobs[job].id);
  }

  lemma MoveStrays(e: Engine, job: nat, view: ResetView, stop: StopRun, start: StartRun, undo: StopRun)
    requires Inv(e) && AllHome(e) && job in e.jobs && e.jobs[job].Moving?
    ensures var e', id := FinishReset(e, job, view, stop, start, undo), e.jobs[job].id;
      && SessionsKept(e, e', Some(id)) && e'.Has(id) && e'.Get(id).session.Some?
      && (Strayed(e'.storage.datasets, e'.Get(id).session.value) <==>
            Strays(e, EvFinishReset(job, view, stop, start, undo)))
  {
    MoveSessions(e, job, view, stop, start, undo);
    ResetStrays(e.storage, e.Get(e.jobs[job].id).session.value, e.jobs[job].snapshotID, view, stop, start, undo);
  }

  lemma MoveHomeIff(e: Engine, ev: Event)
    requires Inv(e) && AllHome(e) && ev.EvFinishReset? && ev.job in e.jobs && e.jobs[ev.job].Moving?
    ensures AllHome(Step(e, ev)) <==> !Strays(e, ev)
  {
    MoveStrays(e, ev.job, ev.reset, ev.stop, ev.run, ev.undo);
    OthersStayHome(e, ev, Some(e.jobs[ev.job].id));
    AllHomeBut(e, Step(e, ev), e.jobs[ev.job].id);
  }

  /** Exactly these steps lead a session of a registered clone astray. */
  lemma HomeIff(e: Engine, ev: Event, pools: set<string>)
    requires Inv(e) && AllTidy(e, pools) && AllHome(e)
    ensures AllHome(Step(e, ev)) <==> !Strays(e, ev)
  {
    match ev {
      case EvFinishStart(job, run, undo) =>
        if job in e.jobs && e.jobs[job].Preparing? { StartHomeIff(e, job, run, undo); }
      case EvFinishDestroy(job, view, stop) => DestroyHome(e, job, view, stop, pools);
      case EvFinishReset(job, view, stop, run, undo) =>
        if job in e.jobs && e.jobs[job].Moving? { MoveHomeIff(e, ev); }
      case _ => QuietHome(e, ev);
    }
  }

  // ------------------------------------------------------------------- runs

  ghost predicate AllStoppable(e: Engine) {
    forall id :: Stoppable(e, id)
  }

  /** In a tidy engine, to be stoppable, to be unmistakable and to be at home is the same. */
  lemma StoppableIff(e: Engine, pools: set<string>, id: string)
    requires Inv(e) && AllTidy(e, pools)
    ensures Stoppable(e, id) <==> Unmistakable(e, id)
    ensures Stoppable(e, id) <==> (e.Has(id) && e.Get(id).session.Some? ==>
                                     !Strayed(e.storage.datasets, e.Get(id).session.value))
  {
    if e.Has(id) && e.Get(id).session.Some? {
      ClonesHold(e, id);
      StaysBound(e, e.Get(id).session.value.token);
      AtHomeIff(e.storage, pools, e.Get(id).session.value);
    }
  }

  lemma AllStoppableIff(e: Engine, pools: set<string>)
    requires Inv(e) && AllTidy(e, pools)
    ensures AllStoppable(e) <==> AllHome(e)
    ensures AllStoppable(e) ==> forall id :: Unmistakable(e, id)
  {
    forall id ensures Stoppable(e, id) <==> Unmistakable(e, id) {
      StoppableIff(e, pools, id);
    }
    if AllStoppable(e) {
      forall id | e.Has(id) && e.Get(id).session.Some? ensures !Strayed(e.storage.datasets, e.Get(id).session.value) {
        StoppableIff(e, pools, id);
      }
    }
    if AllHome(e) {
      forall id ensures Stoppable(e, id) {
        StoppableIff(e, pools, id);
      }
    }
  }

  /** Before, between and after all events every registered clone can be stopped. */
  ghost predicate StoppableAlong(e: Engine, evs: seq<Event>)
    decreases |evs|
  {
    AllStoppable(e) && (evs == [] || StoppableAlong(Step(e, evs[0]), evs[1..]))
  }

  ghost predicate NeverStrays(e: Engine, evs: seq<Event>)
    decreases |evs|
  {
    evs == [] || (!Strays(e, evs[0]) && NeverStrays(Step(e, evs[0]), evs[1..]))
  }

  /**
   Over every disciplined run in a tidy storage, all registered clones can be
   stopped at all times if and only if no step leads a session astray. The storage
   stays tidy, and clones that can be stopped are not mistaken for others.
   */
  lemma {:induction false} StoppableAlongIff(e: Engine, evs: seq<Event>, pools: set<string>)
    requires Inv(e) && AllTidy(e, pools) && AllStoppable(e) && AllowedRun(e, evs)
    requires forall k :: 0 <= k < |evs| ==> KnowsOnly(evs[k], pools)
    ensures StoppableAlong(e, evs) <==> NeverStrays(e, evs)
    ensures AllTidy(Run(e, evs), pools)
    ensures StoppableAlong(e, evs) ==> forall id :: Stoppable(Run(e, evs), id) && Unmistakable(Run(e, evs), id)
    decreases |evs|
  {
    AllStoppableIff(e, pools);
    if evs != [] {
      var e' := Step(e, evs[0]);
      assert KnowsOnly(evs[0], pools) && forall k :: 0 <= k < |evs[1..]| ==> evs[1..][k] == evs[k + 1];
      HomeIff(e, evs[0], pools);
      StepKeeps(e, evs[0]);
      TidyStep(e, evs[0], pools);
      AllStoppableIff(e', pools);
      if AllStoppable(e') {
        StoppableAlongIff(e', evs[1..], pools);
      } else {
        TidyAlong(e', evs[1..], pools);
      }
    }
  }

  lemma {:induction false} TidyAlong(e: Engine, evs: seq<Event>, pools: set<string>)
    requires Inv(e) && AllTidy(e, pools) && AllowedRun(e, evs)
    requires forall k :: 0 <= k < |evs| ==> KnowsOnly(evs[k], pools)
    ensures AllTidy(Run(e, evs), pools)
    decreases |evs|
  {
    if evs != [] {
      assert KnowsOnly(evs[0], pools) && forall k :: 0 <= k < |evs[1..]| ==> evs[1..][k] == evs[k + 1];
      StepKeeps(e, evs[0]);
      TidyStep(e, evs[0], pools);
      TidyAlong(Step(e, evs[0]), evs[1..], pools);
    }
  }
}
