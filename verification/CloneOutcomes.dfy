/**
 What requests to the cloning service come to (internal/cloning/base.go): exactly
 which are refused, where a create, a destroy and a reset lead to when their goroutines
 are done, and that a clone that has come up stays up.
 */
module CloneOutcomes {
  import opened Options
  import opened CloneNames
  import opened Provision
  import opened SessionOutcomes
  import opened Cloning
  import opened CloningSafety
  import opened CloningReach
  import opened CloningRuns

  /** The clone differs in its status and its session, if it is still registered; the registry is the same. */
  ghost predicate Becomes(e: Engine, e': Engine, id: string, status: Status, session: Option<Session>) {
    && e'.clones == e.clones && e'.items == e.items
    && e'.wrappers ==
         if !e.Has(id) then e.wrappers
         else e.wrappers[e.clones[id] := e.Get(id).(status := status, session := session)]
  }

  ghost function SessionOf(e: Engine, id: string): Option<Session> {
    if e.Has(id) then e.Get(id).session else None
  }

  // ---------------------------------------------------------------- create

  ghost predicate InList(entries: seq<SnapshotEntry>, id: string) {
    exists k :: 0 <= k < |entries| && entries[k].id == id
  }

  /** Exactly when a create is refused, and why. */
  lemma CreateReply(e: Engine, request: CreateRequest, entries: seq<SnapshotEntry>)
    ensures var reply := CreateClone(e, request, entries).1;
      && (reply == AlreadyExists <==> e.Has(request.id))
      && (reply == NoSnapshot <==>
            && !e.Has(request.id)
            && (entries == [] || (request.snapshotID.Some? && !InList(entries, request.snapshotID.value))))
      && (reply == AlreadyExists || reply == NoSnapshot || reply == Accepted)
  {
    FetchCounts(entries, e.clones, e.wrappers);
  }

  /** An accepted create: a new clone on the snapshot asked for, else on the latest, and a goroutine that starts it. */
  lemma CreatedIs(e: Engine, request: CreateRequest, entries: seq<SnapshotEntry>)
    requires CreateClone(e, request, entries).1 == Accepted
    ensures LatestOf(entries).Some?
    ensures var e' := CreateClone(e, request, entries).0;
      var id := if request.id == "" then request.generated else request.id;
      var snapshot := if request.snapshotID.Some? then request.snapshotID.value else LatestOf(entries).value.id;
      && e'.clones == e.clones[id := e.next]
      && e'.wrappers == e.wrappers[e.next := Wrapper(id, Some(snapshot), request.protected, StatusCreating, None)]
      && e'.jobs == e.jobs[e.next + 1 := Starting(id, snapshot)]
      && e'.storage == e.storage && e'.held == e.held && e'.next == e.next + 2
  {
  }

  /** The goroutine takes the first port that fits, or its clone is FATAL. */
  lemma ReservedIs(e: Engine, job: nat, view: StartView)
    requires job in e.jobs && e.jobs[job].Starting?
    ensures var Starting(id, snapshotID) := e.jobs[job]; var e' := ReserveStart(e, job, view);
      && (forall k: nat, port: nat :: StartReserves(e.storage, snapshotID, view, k, port) ==>
            e' == e.(storage := SetPort(e.storage, port, true), held := e.held[e.next := port], next := e.next + 1,
                     jobs := e.jobs[job := Preparing(id, Session(e.next, view.snapshots[k].pool, port))]))
      && ((forall k: nat, port: nat :: !StartReserves(e.storage, snapshotID, view, k, port)) ==>
            Becomes(e, e', id, StatusFatal, SessionOf(e, id)) && job !in e'.jobs && e'.held == e.held)
  {
    var Starting(id, snapshotID) := e.jobs[job];
    forall k: nat, port: nat | StartReserves(e.storage, snapshotID, view, k, port)
      ensures Reserve(e.storage, snapshotID, view) ==
        (SetPort(e.storage, port, true), Reserved(port, view.snapshots[k].pool))
    {
      ReservesIff(e.storage, snapshotID, view, k, port);
    }
    ReservesIff(e.storage, snapshotID, view, 0, 0);
  }

  /**
   The goroutine ends: if every command does its work, its container runs, and its
   clone, if it is still registered, has the session and is OK. Otherwise the clone is
   FATAL, and the port is unbound and held by nobody.
   */
  lemma StartedIs(e: Engine, job: nat, run: StartRun, undo: StopRun)
    requires job in e.jobs && e.jobs[job].Preparing?
    ensures var Preparing(id, s) := e.jobs[job]; var e' := FinishStart(e, job, run, undo);
      && job !in e'.jobs
      && if StartWorks(e.storage, s.port, run) then
           && Becomes(e, e', id, StatusOK, Some(s)) && e'.held == e.held
           && RunsNow(e.storage, e'.storage, s.pool, s.port) && e'.storage.ports == e.storage.ports
         else
           && Becomes(e, e', id, StatusFatal, SessionOf(e, id)) && e'.held == e.held - {s.token}
           && !e'.storage.Bound(s.port)
  {
    var s := e.jobs[job].started;
    FinishIff(e.storage, s.pool, s.port, run, undo);
    FinishPorts(e.storage, s.pool, s.port, run, undo);
  }

  /** The clone has this session, and its container runs in the session's pool on a bound port. */
  ghost predicate Up(e: Engine, id: string, s: Session) {
    && e.Has(id) && e.Get(id).session == Some(s) && e.storage.Bound(s.port)
    && GetCloneName(s.port) in e.storage.containers
    && e.storage.containers[GetCloneName(s.port)] == Container(s.pool, true)
  }

  /**
   A clone that has come up stays up over every run within the discipline that spares it,
   whatever other clones do.
   */
  lemma StaysUp(e: Engine, job: nat, run: StartRun, undo: StopRun, evs: seq<Event>)
    requires Inv(e) && job in e.jobs && e.jobs[job].Preparing? && e.Has(e.jobs[job].id)
    requires StartWorks(e.storage, e.jobs[job].started.port, run)
    requires forall j :: j in e.jobs && j != job ==> e.jobs[j].id != e.jobs[job].id
    requires AllowedRun(FinishStart(e, job, run, undo), evs)
    requires forall k :: 0 <= k < |evs| ==> Spares(evs[k], e.jobs[job].id)
    ensures Up(Run(FinishStart(e, job, run, undo), evs), e.jobs[job].id, e.jobs[job].started)
  {
    var Preparing(id, s) := e.jobs[job];
    var e' := FinishStart(e, job, run, undo);
    StepKeeps(e, EvFinishStart(job, run, undo));
    SettledThen(e, job, run, undo);
    SettledStaysUp(e', evs, id, s);
  }

  lemma SettledStaysUp(e: Engine, evs: seq<Event>, id: string, s: Session)
    requires Inv(e) && Settled(e, id, s) && AllowedRun(e, evs)
    requires GetCloneName(s.port) in e.storage.containers
    requires e.storage.containers[GetCloneName(s.port)] == Container(s.pool, true)
    requires forall k :: 0 <= k < |evs| ==> Spares(evs[k], id)
    ensures Up(Run(e, evs), id, s)
  {
    RunIsolated(e, evs, id, s);
  }

  lemma SettledThen(e: Engine, job: nat, run: StartRun, undo: StopRun)
    requires job in e.jobs && e.jobs[job].Preparing? && e.Has(e.jobs[job].id)
    requires StartWorks(e.storage, e.jobs[job].started.port, run)
    requires forall j :: j in e.jobs && j != job ==> e.jobs[j].id != e.jobs[job].id
    ensures var Preparing(id, s) := e.jobs[job]; var e' := FinishStart(e, job, run, undo);
      && Settled(e', id, s) && GetCloneName(s.port) in e'.storage.containers
      && e'.storage.containers[GetCloneName(s.port)] == Container(s.pool, true)
  {
    StartedIs(e, job, run, undo);
    FinishedJobs(e, job, run, undo);
  }

  lemma FinishedJobs(e: Engine, job: nat, run: StartRun, undo: StopRun)
    requires job in e.jobs && e.jobs[job].Preparing?
    ensures FinishStart(e, job, run, undo).jobs == e.jobs - {job}
  {
    var s := e.jobs[job].started;
    var (st, ok) := Finish(e.storage, s.pool, s.port, run, undo);
    AfterStartJobs(e, job, st, ok);
  }

  lemma AfterStartJobs(e: Engine, job: nat, st: Storage, ok: bool)
    requires job in e.jobs && e.jobs[job].Preparing?
    ensures AfterStart(e, job, st, ok).jobs == e.jobs - {job}
  {
  }

  // --------------------------------------------------------------- destroy

  /** Exactly when a destroy is refused: protection holds unless the clone is FATAL. */
  lemma DestroyReply(e: Engine, id: string)
    ensures var reply := DestroyClone(e, id).1;
      && (reply == NotFound <==> !e.Has(id))
      && (reply == IsProtected <==> e.Has(id) && e.Get(id).protected && e.Get(id).status != StatusFatal)
      && (reply == NotFound || reply == IsProtected || reply == Accepted)
      && (reply != Accepted ==> DestroyClone(e, id).0 == e)
  {
  }

  /** An accepted destroy: a clone without a session goes at once, any other is being deleted by a goroutine. */
  lemma DestroyedIs(e: Engine, id: string)
    requires DestroyClone(e, id).1 == Accepted
    ensures var e' := DestroyClone(e, id).0;
      && e'.storage == e.storage && e'.held == e.held
      && if e.Get(id).session.None? then e'.clones == e.clones - {id} && e'.jobs == e.jobs
         else
           && Becomes(e, e', id, StatusDeleting, e.Get(id).session)
           && e'.jobs == e.jobs[e.next := Destroying(id, e.clones[id])]
  {
  }

  /**
   The goroutine ends: if the session could be stopped, the clone is no longer
   registered and nothing of its session is left; otherwise it is FATAL and keeps its
   session and its port.
   */
  lemma DestroyEnds(e: Engine, job: nat, pools: set<string>, stop: StopRun)
    requires job in e.jobs && e.jobs[job].Destroying?
    requires e.jobs[job].ref in e.wrappers && e.wrappers[e.jobs[job].ref].session.Some?
    ensures var Destroying(id, ref) := e.jobs[job]; var s := e.wrappers[ref].session.value;
      var e' := FinishDestroy(e, job, pools, stop);
      && job !in e'.jobs
      && if s.pool in pools && stop.stopped == Done && ClearsDataset(e.storage.datasets, s, stop)
            && e.storage.InPool(s.port) then
           && e'.clones == e.clones - {id} && e'.held == e.held - {s.token} && !e'.storage.Bound(s.port)
           && GetCloneName(s.port) !in e'.storage.containers && DatasetOf(s) !in e'.storage.datasets
         else
           Becomes(e, e', id, StatusFatal, SessionOf(e, id)) && e'.held == e.held && e'.storage.ports == e.storage.ports
  {
    var s := e.wrappers[e.jobs[job].ref].session.value;
    StopSucceedsIff(e.storage, pools, s, stop);
    if StopSession(e.storage, pools, s, stop).1 {
      StoppedIsGone(e.storage, pools, s, stop);
    }
  }

  /** Exactly when the idle sweep takes a clone; it then does what a destroy does, and nothing otherwise. */
  lemma SweptIff(e: Engine, id: string, view: IdleView)
    ensures CheckIdle(e, id, view).1 == Accepted <==>
      && e.Has(id) && !e.Get(id).protected && e.Get(id).status != StatusExporting && !view.startedRecently
      && (if e.Get(id).session.Some? then view.activity == Quiet(false) else e.Get(id).status == StatusFatal)
    ensures CheckIdle(e, id, view).0 == if CheckIdle(e, id, view).1 == Accepted then DestroyClone(e, id).0 else e
  {
  }

  // ----------------------------------------------------------------- reset

  /** Exactly when a reset is refused. */
  lemma ResetReply(e: Engine, id: string, snapshotID: string, latest: bool)
    ensures var reply := ResetClone(e, id, snapshotID, latest).1;
      && (reply == NotFound <==> !e.Has(id))
      && (reply == NotStarted <==> e.Has(id) && e.Get(id).session.None?)
      && (reply == NoSnapshot <==> e.Has(id) && e.Get(id).session.Some? && snapshotID != "" && snapshotID !in e.items)
      && (reply == NotFound || reply == NotStarted || reply == NoSnapshot || reply == Accepted)
      && (reply != Accepted ==> ResetClone(e, id, snapshotID, latest).0 == e)
  {
  }

  /**
   The place in the list that a reset is to go to: the snapshot given; if none is
   given, the first of the list for the latest one, and else the snapshot the clone has.
   */
  ghost predicate Wanted(w: Wrapper, snapshotID: string, latest: bool, list: seq<SnapshotEntry>, k: nat) {
    && k < |list|
    && if snapshotID != "" then list[k].id == snapshotID && forall j :: 0 <= j < k ==> list[j].id != snapshotID
       else if latest || w.snapshot == Some("") then k == 0
       else Some(list[k].id) == w.snapshot && forall j :: 0 <= j < k ==> Some(list[j].id) != w.snapshot
  }

  lemma WantedIsChosen(w: Wrapper, snapshotID: string, latest: bool, list: seq<SnapshotEntry>, k: nat)
    requires w.snapshot.Some? && Wanted(w, snapshotID, latest, list, k)
    ensures IsChosen(list, TargetOf(w, snapshotID, latest), k)
  {
  }

  /** The wrapper that a reset leaves behind, and its container. */
  ghost predicate ResetTo(e: Engine, e': Engine, id: string, w: Wrapper, to: SnapshotEntry, stop: StopRun,
                          start: StartRun) {
    && w.session.Some? && e.Has(id)
    && var s := w.session.value;
       && e'.clones == e.clones && e'.held == e.held && e'.storage.ports == e.storage.ports
       && if ResetStops(e.storage, s, stop) && ResetStarts(e.storage, s, start) then
            && e'.wrappers == e.wrappers[e.clones[id] :=
                 w.(snapshot := Some(to.id), session := Some(s.(pool := to.pool)), status := StatusOK)]
            && RunsNow(e.storage.(datasets := AfterStop(e.storage, s)), e'.storage, to.pool, s.port)
          else
            e'.wrappers == e.wrappers[e.clones[id] := w.(session := Some(s.(pool := to.pool)), status := StatusFatal)]
  }

  /**
   The goroutine ends: the clone is on the snapshot that was found, in that snapshot's
   pool, where its container runs again; or it is FATAL, on the snapshot it had.
   */
  lemma MovedIs(e: Engine, job: nat, view: ResetView, k: nat, stop: StopRun, start: StartRun, undo: StopRun)
    requires job in e.jobs && e.jobs[job].Moving? && e.Has(e.jobs[job].id) &&
      e.clones[e.jobs[job].id] == e.jobs[job].ref
    requires e.Get(e.jobs[job].id).session.Some?
    requires ResetFinds(e.Get(e.jobs[job].id).session.value, e.jobs[job].snapshotID, view, k)
    ensures var e', id := FinishReset(e, job, view, stop, start, undo), e.jobs[job].id;
      ResetTo(e, e', id, e.Get(id), view.snapshots[k], stop, start) && e'.jobs == e.jobs - {job}
  {
    var w := e.Get(e.jobs[job].id);
    ResetDelivers(e.storage, w.session.value, e.jobs[job].snapshotID, view, k, stop, start, undo);
    MovedBy(e, job, view, stop, start, undo);
  }

  /** What the goroutine does with the result of its calls. */
  lemma MovedBy(e: Engine, job: nat, view: ResetView, stop: StopRun, start: StartRun, undo: StopRun)
    requires job in e.jobs && e.jobs[job].Moving? && e.Has(e.jobs[job].id)
    requires e.clones[e.jobs[job].id] == e.jobs[job].ref && e.Get(e.jobs[job].id).session.Some?
    ensures var w := e.Get(e.jobs[job].id); var e' := FinishReset(e, job, view, stop, start, undo);
      var (st, s, r) := ResetSession(e.storage, w.session.value, e.jobs[job].snapshotID, view, stop, start, undo);
      && e'.storage == st && e'.held == e.held && e'.clones == e.clones && e'.jobs == e.jobs - {job}
      && e'.wrappers == e.wrappers[e.jobs[job].ref :=
           if r.Some? then w.(snapshot := r, session := Some(s), status := StatusOK)
           else w.(session := Some(s), status := StatusFatal)]
  {
    var Moving(id, ref, snapshotID, original) := e.jobs[job];
    var w := e.Get(id);
    var (st, s, r) := ResetSession(e.storage, w.session.value, snapshotID, view, stop, start, undo);
    var e1 := EndJob(e.(storage := st), job);
    if r.None? {
      StatusAfterSet(e1, id, w.(session := Some(s)), StatusFatal);
    } else {
      StatusAfterMove(e1, id, w.(session := Some(s), snapshot := r), original, StatusOK);
    }
  }

  lemma StatusAfterSet(e: Engine, id: string, w: Wrapper, status: Status)
    requires e.Has(id)
    ensures UpdateStatus(SetWrapper(e, e.clones[id], w), id, status) ==
      e.(wrappers := e.wrappers[e.clones[id] := w.(status := status)])
  {
    assert e.wrappers[e.clones[id] := w][e.clones[id] := w.(status := status)] ==
           e.wrappers[e.clones[id] := w.(status := status)];
  }

  lemma StatusAfterMove(e: Engine, id: string, w: Wrapper, from: Option<string>, status: Status)
    requires e.Has(id) && w.snapshot.Some?
    ensures UpdateStatus(Move(e, e.clones[id], w, from), id, status) ==
      e.(wrappers := e.wrappers[e.clones[id] := w.(status := status)], items := Move(e, e.clones[id], w, from).items)
  {
    assert e.wrappers[e.clones[id] := w][e.clones[id] := w.(status := status)] ==
           e.wrappers[e.clones[id] := w.(status := status)];
  }

  /** The request and the note: the clone is being reset, and the goroutine knows where to go and what it leaves. */
  lemma ResetNoted(e: Engine, id: string, snapshotID: string, latest: bool)
    requires ResetClone(e, id, snapshotID, latest).1 == Accepted
    ensures var w := e.Get(id);
      BeginReset(ResetClone(e, id, snapshotID, latest).0, e.next) == e.(
        wrappers := e.wrappers[e.clones[id] := w.(status := StatusResetting)], next := e.next + 1,
        jobs := e.jobs[e.next := Moving(id, e.clones[id], TargetOf(w, snapshotID, latest), w.snapshot)])
  {
    var e1 := ResetClone(e, id, snapshotID, latest).0;
    var note := Moving(id, e.clones[id], TargetOf(e.Get(id), snapshotID, latest), e.Get(id).snapshot);
    assert e1.jobs[e.next := note] == e.jobs[e.next := note];
  }

  /** A reset from the request to the end of its goroutine. */
  function WholeReset(e: Engine, id: string, snapshotID: string, latest: bool, view: ResetView,
                      stop: StopRun, start: StartRun, undo: StopRun): Engine {
    FinishReset(BeginReset(ResetClone(e, id, snapshotID, latest).0, e.next), e.next, view, stop, start, undo)
  }

  /**
   Where an accepted reset leads to when nothing comes between its steps: to the
   snapshot given, to the first of the list if the latest is asked for, and back to the
   snapshot it had otherwise.
   */
  lemma ResetGoesTo(e: Engine, id: string, snapshotID: string, latest: bool, view: ResetView, k: nat,
                    stop: StopRun, start: StartRun, undo: StopRun)
    requires ResetClone(e, id, snapshotID, latest).1 == Accepted && e.Get(id).snapshot.Some?
    requires Wanted(e.Get(id), snapshotID, latest, view.snapshots, k)
    requires e.Get(id).session.value.pool in view.pools && view.snapshots[k].pool in view.pools
    ensures var e' := WholeReset(e, id, snapshotID, latest, view, stop, start, undo);
      ResetTo(e, e', id, e.Get(id), view.snapshots[k], stop, start)
  {
    var e2 := BeginReset(ResetClone(e, id, snapshotID, latest).0, e.next);
    ResetNoted(e, id, snapshotID, latest);
    WantedIsChosen(e.Get(id), snapshotID, latest, view.snapshots, k);
    MovedIs(e2, e.next, view, k, stop, start, undo);
    var e' := FinishReset(e2, e.next, view, stop, start, undo);
    StatusOverwritten(e, e2, e', id, e.Get(id), view.snapshots[k], stop, start);
  }

  /** What the status was while the reset was under way does not matter. */
  lemma StatusOverwritten(e: Engine, e2: Engine, e': Engine, id: string, w: Wrapper, to: SnapshotEntry,
                          stop: StopRun, start: StartRun)
    requires e.Has(id) && e2.clones == e.clones && e2.held == e.held && e2.storage == e.storage
    requires e2.wrappers == e.wrappers[e.clones[id] := w.(status := StatusResetting)]
    requires ResetTo(e2, e', id, w.(status := StatusResetting), to, stop, start)
    ensures ResetTo(e, e', id, w, to, stop, start)
  {
  }

  /**
   A goroutine of a reset that does not find its snapshot, or does not know a pool, leaves the
   clone FATAL as it was.
   */
  lemma ResetFindsNothing(e: Engine, job: nat, view: ResetView, stop: StopRun, start: StartRun, undo: StopRun)
    requires job in e.jobs && e.jobs[job].Moving? && e.Has(e.jobs[job].id) &&
      e.clones[e.jobs[job].id] == e.jobs[job].ref
    requires e.Get(e.jobs[job].id).session.Some?
    requires forall k: nat :: !ResetFinds(e.Get(e.jobs[job].id).session.value, e.jobs[job].snapshotID, view, k)
    ensures var e', id := FinishReset(e, job, view, stop, start, undo), e.jobs[job].id;
      Becomes(e, e', id, StatusFatal, SessionOf(e, id)) && e'.storage == e.storage && e'.held == e.held
  {
    ResetRefused(e.storage, e.Get(e.jobs[job].id).session.value, e.jobs[job].snapshotID, view, stop, start, undo);
  }

  /** An update changes the protection, and nothing else. */
  lemma UpdatedIs(e: Engine, id: string, protected: bool)
    ensures var (e', reply) := UpdateClone(e, id, protected);
      && (reply == if e.Has(id) then Accepted else NotFound)
      && e' == if e.Has(id) then e.(wrappers := e.wrappers[e.clones[id] := e.Get(id).(protected := protected)]) else e
  {
  }
}
