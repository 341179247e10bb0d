/**
 Whole-run results about single clones: a protected clone stays, and nobody
 else's calls reach a settled clone.
 */
module CloningRuns {
  import opened Options
  import opened CloneNames
  import opened Provision
  import opened Cloning
  import opened CloningSafety
  import opened CloningReach

  // ------------------------------------------------------ protected clones

  predicate Guarded(e: Engine, ref: nat) {
    ref in e.wrappers && e.wrappers[ref].protected && e.wrappers[ref].status != StatusFatal
  }

  /** The wrapper is protected and not FATAL before, between and after all events. */
  ghost predicate GuardedAlong(e: Engine, evs: seq<Event>, ref: nat)
    decreases |evs|
  {
    Guarded(e, ref) && (evs == [] || GuardedAlong(Step(e, evs[0]), evs[1..], ref))
  }

  /** Generated clone IDs are new; nothing else is asked of the run. */
  ghost predicate FreshIDs(e: Engine, evs: seq<Event>)
    decreases |evs|
  {
    evs == [] ||
    (&& (evs[0].EvCreate? && evs[0].request.id == "" ==> evs[0].request.generated !in e.clones)
     && FreshIDs(Step(e, evs[0]), evs[1..]))
  }

  ghost predicate Registered(e: Engine, id: string, ref: nat) {
    && id in e.clones && e.clones[id] == ref && ref in e.wrappers
    && (forall r :: r in e.wrappers ==> r < e.next)
    && !DestroyPending(e, id)
  }

  lemma UpdateRegistered(e: Engine, i: string, status: Status, id: string, ref: nat)
    requires Registered(e, id, ref)
    ensures Registered(UpdateStatus(e, i, status), id, ref)
  {
  }

  lemma GiveUpRegistered(e: Engine, job: nat, st: Storage, i: string, id: string, ref: nat)
    requires Registered(e, id, ref)
    ensures Registered(GiveUp(e, job, st, i), id, ref)
  {
  }

  lemma DestroyRegistered(e: Engine, i: string, id: string, ref: nat)
    requires Registered(e, id, ref) && Guarded(e, ref)
    ensures Registered(DestroyClone(e, i).0, id, ref)
  {
  }

  lemma StartRegistered(e: Engine, job: nat, view: StartView, run: StartRun, undo: StopRun, id: string, ref: nat)
    requires Registered(e, id, ref)
    ensures Registered(ReserveStart(e, job, view), id, ref)
    ensures Registered(FinishStart(e, job, run, undo), id, ref)
  {
    if job in e.jobs && e.jobs[job].Starting? {
      GiveUpRegistered(e, job, Reserve(e.storage, e.jobs[job].snapshotID, view).0, e.jobs[job].id, id, ref);
    } else if job in e.jobs && e.jobs[job].Preparing? {
      var Preparing(i, session) := e.jobs[job];
      var st := Finish(e.storage, session.pool, session.port, run, undo).0;
      UpdateRegistered(Release(EndJob(e, job), st, session.token), i, StatusFatal, id, ref);
    }
  }

  lemma FinishDestroyRegistered(e: Engine, job: nat, pools: set<string>, stop: StopRun, id: string, ref: nat)
    requires Registered(e, id, ref)
    ensures Registered(FinishDestroy(e, job, pools, stop), id, ref)
  {
    if job in e.jobs && e.jobs[job].Destroying? {
      var Destroying(i, r) := e.jobs[job];
      assert i != id;
      if r in e.wrappers && e.wrappers[r].session.Some? {
        GiveUpRegistered(e, job, StopSession(e.storage, pools, e.wrappers[r].session.value, stop).0, i, id, ref);
      }
    }
  }

  lemma ResetRegistered(e: Engine, i: string, snapshotID: string, latest: bool, id: string, ref: nat)
    requires Registered(e, id, ref)
    ensures Registered(ResetClone(e, i, snapshotID, latest).0, id, ref)
  {
  }

  lemma FinishResetRegistered(e: Engine, job: nat, view: ResetView, stop: StopRun, start: StartRun, undo: StopRun,
                              id: string, ref: nat)
    requires Registered(e, id, ref)
    ensures Registered(FinishReset(e, job, view, stop, start, undo), id, ref)
  {
    if job in e.jobs && e.jobs[job].Moving? {
      var Moving(i, r, snapshotID, original) := e.jobs[job];
      if r in e.wrappers && e.wrappers[r].session.Some? {
        var w := e.wrappers[r];
        var (st, session, o) := ResetSession(e.storage, w.session.value, snapshotID, view, stop, start, undo);
        var e1 := EndJob(e.(storage := st), job);
        UpdateRegistered(SetWrapper(e1, r, w.(session := Some(session))), i, StatusFatal, id, ref);
        if o.Some? {
          UpdateRegistered(Move(e1, r, w.(session := Some(session), snapshot := o), original), i, StatusOK, id, ref);
        }
      }
    }
  }

  lemma CreateRegistered(e: Engine, request: CreateRequest, entries: seq<SnapshotEntry>, id: string, ref: nat)
    requires Registered(e, id, ref) && (request.id == "" ==> request.generated !in e.clones)
    ensures Registered(CreateClone(e, request, entries).0, id, ref)
  {
  }

  lemma ProtectedStep(e: Engine, ev: Event, id: string, ref: nat)
    requires Registered(e, id, ref) && Guarded(e, ref)
    requires ev.EvCreate? && ev.request.id == "" ==> ev.request.generated !in e.clones
    ensures Registered(Step(e, ev), id, ref)
  {
    match ev
    case EvCreate(request, entries) => CreateRegistered(e, request, entries, id, ref);
    case EvReserve(job, view) => StartRegistered(e, job, view, StartRun(true, Done, Done, true), CLEAN_STOP, id, ref);
    case EvFinishStart(job, run, undo) => StartRegistered(e, job, StartView([], true, {}, {}), run, undo, id, ref);
    case EvDestroy(i) => DestroyRegistered(e, i, id, ref);
    case EvFinishDestroy(job, pools, stop) => FinishDestroyRegistered(e, job, pools, stop, id, ref);
    case EvReset(i, snapshotID, latest) => ResetRegistered(e, i, snapshotID, latest, id, ref);
    case EvBeginReset(job) =>
    case EvFinishReset(job, view, stop, run, undo) => FinishResetRegistered(e, job, view, stop, run, undo, id, ref);
    case EvUpdate(i, protected) =>
    case EvFetch(entries) =>
    case EvIdle(i, view) => DestroyRegistered(e, i, id, ref);
  }

  /**
   A clone that stays protected, never becomes FATAL and has no destroy pending
   is still in the registry after every run: whatever is destroyed, created
   under the same ID, swept as idle, and however often.
   */
  lemma {:induction false} ProtectedRemains(e: Engine, evs: seq<Event>, id: string, ref: nat)
    requires Registered(e, id, ref) && GuardedAlong(e, evs, ref) && FreshIDs(e, evs)
    ensures Registered(Run(e, evs), id, ref)
    decreases |evs|
  {
    if evs != [] {
      ProtectedStep(e, evs[0], id, ref);
      ProtectedRemains(Step(e, evs[0]), evs[1..], id, ref);
    }
  }

  // --------------------------------------------------------------- isolation

  /** The clone runs `s` and no goroutine works for its ID. */
  ghost predicate Settled(e: Engine, id: string, s: Session) {
    && e.Has(id) && e.Get(id).session == Some(s)
    && forall j :: j in e.jobs ==> e.jobs[j].id != id
  }

  /** The event is no destroy, reset or idle check of the clone. */
  predicate Spares(ev: Event, id: string) {
    match ev
    case EvDestroy(i) => i != id
    case EvReset(i, _, _) => i != id
    case EvIdle(i, _) => i != id
    case _ => true
  }

  /** The step of another clone leaves the settled clone as it is. */
  ghost predicate Kept(e: Engine, e': Engine, id: string, s: Session) {
    Settled(e', id, s) && LeavesAlone(e.storage, e'.storage, s.port)
  }

  /** No goroutine works for a settled clone. */
  lemma NobodyWorks(e: Engine, ev: Event, id: string, s: Session)
    requires Inv(e) && Settled(e, id, s)
    ensures Live(e, s) && !WorksFor(e, ev, s.token)
  {
    var owner, stopper :| InvBy(e, owner, stopper);
    match ev {
      case EvFinishStart(job, _, _) => assert job in e.jobs ==> JobLinked(e, owner, stopper, job);
      case EvFinishDestroy(job, _, _) => assert job in e.jobs ==> JobLinked(e, owner, stopper, job);
      case EvFinishReset(job, _, _, _, _) => assert job in e.jobs ==> JobLinked(e, owner, stopper, job);
      case _ =>
    }
  }

  lemma UpdateSettled(e: Engine, i: string, status: Status, id: string, s: Session)
    requires Settled(e, id, s)
    ensures Settled(UpdateStatus(e, i, status), id, s)
  {
  }

  lemma StartSettled(e: Engine, job: nat, run: StartRun, undo: StopRun, id: string, s: Session)
    requires Inv(e) && Settled(e, id, s)
    ensures Settled(FinishStart(e, job, run, undo), id, s)
  {
    OneWrapper(e, id);
    if job in e.jobs && e.jobs[job].Preparing? {
      var Preparing(i, session) := e.jobs[job];
      var st := Finish(e.storage, session.pool, session.port, run, undo).0;
      UpdateSettled(Release(EndJob(e, job), st, session.token), i, StatusFatal, id, s);
    }
  }

  lemma ReserveSettled(e: Engine, job: nat, view: StartView, id: string, s: Session)
    requires Settled(e, id, s)
    ensures Settled(ReserveStart(e, job, view), id, s)
  {
    if job in e.jobs && e.jobs[job].Starting? {
      var Starting(i, snapshotID) := e.jobs[job];
      UpdateSettled(EndJob(e.(storage := Reserve(e.storage, snapshotID, view).0), job), i, StatusFatal, id, s);
    }
  }

  lemma FinishDestroySettled(e: Engine, job: nat, pools: set<string>, stop: StopRun, id: string, s: Session)
    requires Settled(e, id, s)
    ensures Settled(FinishDestroy(e, job, pools, stop), id, s)
  {
    if job in e.jobs && e.jobs[job].Destroying? {
      var Destroying(i, ref) := e.jobs[job];
      if ref in e.wrappers && e.wrappers[ref].session.Some? {
        var st := StopSession(e.storage, pools, e.wrappers[ref].session.value, stop).0;
        UpdateSettled(EndJob(e.(storage := st), job), i, StatusFatal, id, s);
      }
    }
  }

  lemma FinishResetSettled(e: Engine, job: nat, view: ResetView, stop: StopRun, start: StartRun, undo: StopRun,
                           id: string, s: Session)
    requires Inv(e) && Settled(e, id, s)
    ensures Settled(FinishReset(e, job, view, stop, start, undo), id, s)
  {
    if job in e.jobs && e.jobs[job].Moving? {
      StopHolds(e, job);
      OneWrapper(e, id);
      StopperHasClone(e, job);
      var Moving(i, ref, snapshotID, original) := e.jobs[job];
      var w := e.wrappers[ref];
      var (st, session, r) := ResetSession(e.storage, w.session.value, snapshotID, view, stop, start, undo);
      var e1 := EndJob(e.(storage := st), job);
      UpdateSettled(SetWrapper(e1, ref, w.(session := Some(session))), i, StatusFatal, id, s);
      if r.Some? {
        UpdateSettled(Move(e1, ref, w.(session := Some(session), snapshot := r), original), i, StatusOK, id, s);
      }
    }
  }

  lemma DestroySettled(e: Engine, i: string, id: string, s: Session)
    requires Settled(e, id, s) && i != id
    ensures Settled(DestroyClone(e, i).0, id, s)
  {
    UpdateSettled(e, i, StatusDeleting, id, s);
  }

  lemma ResetSettled(e: Engine, i: string, snapshotID: string, latest: bool, id: string, s: Session)
    requires Settled(e, id, s) && i != id
    ensures Settled(ResetClone(e, i, snapshotID, latest).0, id, s)
  {
    UpdateSettled(e, i, StatusResetting, id, s);
  }

  lemma HandlersSettled(e: Engine, ev: Event, id: string, s: Session)
    requires Settled(e, id, s) && Spares(ev, id) && !ev.EvCreate?
    requires !ev.EvReserve? && !ev.EvFinishStart? && !ev.EvFinishDestroy? && !ev.EvFinishReset?
    ensures Settled(Step(e, ev), id, s)
  {
    match ev {
      case EvDestroy(i) => DestroySettled(e, i, id, s);
      case EvIdle(i, view) => DestroySettled(e, i, id, s);
      case EvReset(i, snapshotID, latest) => ResetSettled(e, i, snapshotID, latest, id, s);
      case _ =>
    }
  }

  lemma CreateSettled(e: Engine, request: CreateRequest, entries: seq<SnapshotEntry>, id: string, s: Session)
    requires Inv(e) && Settled(e, id, s) && (request.id == "" ==> request.generated != id)
    ensures Settled(CreateClone(e, request, entries).0, id, s)
  {
    NumbersBelowNext(e);
  }

  /** No step that spares the clone reaches it, within the discipline or not, unless its very ID is generated anew. */
  lemma IsolatedStep(e: Engine, ev: Event, id: string, s: Session)
    requires Inv(e) && Settled(e, id, s) && Spares(ev, id)
    requires ev.EvCreate? && ev.request.id == "" ==> ev.request.generated != id
    ensures Kept(e, Step(e, ev), id, s)
  {
    NobodyWorks(e, ev, id, s);
    StepReaches(e, ev, s.token);
    match ev {
      case EvCreate(request, entries) => CreateSettled(e, request, entries, id, s);
      case EvReserve(job, view) => ReserveSettled(e, job, view, id, s);
      case EvFinishStart(job, run, undo) => StartSettled(e, job, run, undo, id, s);
      case EvFinishDestroy(job, pools, stop) => FinishDestroySettled(e, job, pools, stop, id, s);
      case EvFinishReset(job, view, stop, run, undo) => FinishResetSettled(e, job, view, stop, run, undo, id, s);
      case _ => HandlersSettled(e, ev, id, s);
    }
  }

  /**
   Isolation: whatever other clones do, in any interleaving and with any
   failures, a settled clone keeps its session, its bound port, its container
   and its datasets.
   */
  lemma {:induction false} RunIsolated(e: Engine, evs: seq<Event>, id: string, s: Session)
    requires Inv(e) && Settled(e, id, s) && AllowedRun(e, evs)
    requires forall k :: 0 <= k < |evs| ==> Spares(evs[k], id)
    ensures Kept(e, Run(e, evs), id, s)
    decreases |evs|
  {
    NobodyWorks(e, EvFetch([]), id, s);
    StaysBound(e, s.token);
    if evs != [] {
      assert Spares(evs[0], id) && forall k :: 0 <= k < |evs[1..]| ==> evs[1..][k] == evs[k + 1];
      IsolatedStep(e, evs[0], id, s);
      StepKeeps(e, evs[0]);
      RunIsolated(Step(e, evs[0]), evs[1..], id, s);
      AloneTwice(e.storage, Step(e, evs[0]).storage, Run(Step(e, evs[0]), evs[1..]).storage, s.port);
    }
  }
}
