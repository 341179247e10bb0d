/**
 Sessions that nobody is left to stop: how they come about, and that their ports
 stay bound until the engine restarts.
 */
module CloningOrphans {
  import opened Options
  import opened Provision
  import opened Cloning
  import opened CloningSafety
  import opened CloningReach

  ghost predicate HeldByClone(e: Engine, id: string, t: nat) {
    id in e.clones && e.Has(id) && e.Get(id).session.Some? && e.Get(id).session.value.token == t
  }

  ghost predicate HeldByStart(e: Engine, j: nat, t: nat) {
    j in e.jobs && e.jobs[j].Preparing? && e.jobs[j].started.token == t
  }

  /** A live allocation that no registry clone and no create goroutine knows. */
  ghost predicate Orphan(e: Engine, t: nat) {
    && t in e.held
    && (forall id :: id in e.clones && e.Has(id) && e.Get(id).session.Some? ==> e.Get(id).session.value.token != t)
    && (forall j :: j in e.jobs && e.jobs[j].Preparing? ==> e.jobs[j].started.token != t)
  }

  lemma OrphanIff(e: Engine, t: nat)
    ensures Orphan(e, t) <==>
      t in e.held && (forall id :: !HeldByClone(e, id, t)) && (forall j :: !HeldByStart(e, j, t))
  {
    if t in e.held && (forall id :: !HeldByClone(e, id, t)) && (forall j :: !HeldByStart(e, j, t)) {
      forall id | id in e.clones && e.Has(id) && e.Get(id).session.Some? ensures e.Get(id).session.value.token != t {
        assert !HeldByClone(e, id, t);
      }
      forall j | j in e.jobs && e.jobs[j].Preparing? ensures e.jobs[j].started.token != t {
        assert !HeldByStart(e, j, t);
      }
    }
  }

  /** The allocation has the same holders as before, or a holder has let it go. */
  ghost predicate SameHolders(e: Engine, e': Engine, t: nat) {
    if t in e'.held then
      && t in e.held && e'.held[t] == e.held[t]
      && (forall id :: HeldByClone(e', id, t) <==> HeldByClone(e, id, t))
      && (forall j :: HeldByStart(e', j, t) <==> HeldByStart(e, j, t))
    else !Orphan(e, t)
  }

  lemma SameOrphans(e: Engine, e': Engine, t: nat)
    requires SameHolders(e, e', t)
    ensures Orphan(e', t) <==> Orphan(e, t)
    ensures Orphan(e, t) ==> e'.held[t] == e.held[t]
  {
    OrphanIff(e, t);
    OrphanIff(e', t);
  }

  lemma UpdateHolders(e: Engine, id: string, status: Status, t: nat)
    ensures t in e.held ==> SameHolders(e, UpdateStatus(e, id, status), t)
  {
  }

  lemma UpdateOrphans(e: Engine, id: string, status: Status, t: nat)
    ensures Orphan(UpdateStatus(e, id, status), t) <==> Orphan(e, t)
    ensures UpdateStatus(e, id, status).held == e.held
  {
    if t in e.held {
      UpdateHolders(e, id, status, t);
      SameOrphans(e, UpdateStatus(e, id, status), t);
    }
  }

  /** The step makes no orphan and loses none. */
  ghost predicate OrphansKept(e: Engine, e': Engine, t: nat) {
    (Orphan(e', t) <==> Orphan(e, t)) && (Orphan(e, t) ==> e'.held[t] == e.held[t])
  }

  /** Goroutines other than those that create clones hold nothing. */
  lemma OtherJobsKeepOrphans(e: Engine, e': Engine, t: nat)
    requires e'.clones == e.clones && e'.wrappers == e.wrappers && e'.held == e.held
    requires forall j :: j in e.jobs && e.jobs[j].Preparing? ==> j in e'.jobs && e'.jobs[j] == e.jobs[j]
    requires forall j :: j in e'.jobs && e'.jobs[j].Preparing? ==> j in e.jobs && e'.jobs[j] == e.jobs[j]
    ensures OrphansKept(e, e', t)
  {
  }

  // ------------------------------------------------------ create goroutines

  /**
   The allocation whose session is lost when a create goroutine ends well: its own, or the one
   that its clone already has.
   */
  ghost predicate LostBy(e: Engine, job: nat, t: nat)
    requires job in e.jobs && e.jobs[job].Preparing?
  {
    var id := e.jobs[job].id;
    if id in e.clones then e.Has(id) && e.Get(id).session.Some? && t == e.Get(id).session.value.token
    else t == e.jobs[job].started.token
  }

  lemma LostIsKnownOnce(e: Engine, job: nat, t: nat)
    requires Inv(e) && job in e.jobs && e.jobs[job].Preparing? && LostBy(e, job, t)
    ensures t in e.held && forall j :: j != job ==> !HeldByStart(e, j, t)
    ensures forall id :: id != e.jobs[job].id ==> !HeldByClone(e, id, t)
    ensures e.jobs[job].id in e.clones ==> t != e.jobs[job].started.token
  {
    var owner, stopper :| InvBy(e, owner, stopper);
    assert JobLinked(e, owner, stopper, job);
    forall j | j != job ensures !HeldByStart(e, j, t) {
      assert j in e.jobs ==> JobLinked(e, owner, stopper, j);
    }
  }

  /**
   A create goroutine that ends well makes an orphan of its session if its clone
   is no longer registered, of the session that a clone of its ID has got from
   another create goroutine if there is one, and of nothing else.
   */
  lemma StartOrphansIff(e: Engine, job: nat, run: StartRun, undo: StopRun, t: nat)
    requires Inv(e) && job in e.jobs && e.jobs[job].Preparing?
    requires var s := e.jobs[job].started; Finish(e.storage, s.pool, s.port, run, undo).1
    ensures Orphan(FinishStart(e, job, run, undo), t) <==> Orphan(e, t) || LostBy(e, job, t)
    ensures FinishStart(e, job, run, undo).held == e.held
  {
    StartHolds(e, job);
    FilledOrphansIff(e, job, Finish(e.storage, e.jobs[job].started.pool, e.jobs[job].started.port, run, undo).0, t);
  }

  lemma FilledOrphansIff(e: Engine, job: nat, st: Storage, t: nat)
    requires Inv(e) && job in e.jobs && e.jobs[job].Preparing? && Live(e, e.jobs[job].started)
    ensures var e' := FillSession(EndJob(e.(storage := st), job), e.jobs[job].id, e.jobs[job].started);
      e'.held == e.held && (Orphan(e', t) <==> Orphan(e, t) || LostBy(e, job, t))
  {
    NumbersBelowNext(e);
    var s, e' := e.jobs[job].started, FillSession(EndJob(e.(storage := st), job), e.jobs[job].id, e.jobs[job].started);
    if LostBy(e, job, t) {
      LostIsKnownOnce(e, job, t);
      OrphanIff(e', t);
    } else if t == s.token {
      assert HeldByClone(e', e.jobs[job].id, t) && HeldByStart(e, job, t);
      OrphanIff(e', t);
    } else if t in e.held {
      if e.Has(e.jobs[job].id) {
        OneWrapper(e, e.jobs[job].id);
      }
      assert SameHolders(e, e', t);
      SameOrphans(e, e', t);
    }
  }

  lemma FailedStartKeepsOrphans(e: Engine, job: nat, run: StartRun, undo: StopRun, t: nat)
    requires Inv(e) && job in e.jobs && e.jobs[job].Preparing?
    requires var s := e.jobs[job].started; !Finish(e.storage, s.pool, s.port, run, undo).1
    ensures OrphansKept(e, FinishStart(e, job, run, undo), t)
  {
    var owner, stopper :| InvBy(e, owner, stopper);
    PreparingOwns(e, owner, stopper, job);
    var s := e.jobs[job].started;
    var e1 := Release(EndJob(e, job), Finish(e.storage, s.pool, s.port, run, undo).0, s.token);
    if t in e.held {
      assert SameHolders(e, e1, t);
      SameOrphans(e, e1, t);
    }
    UpdateOrphans(e1, e.jobs[job].id, StatusFatal, t);
  }

  lemma ReserveKeepsOrphans(e: Engine, job: nat, view: StartView, t: nat)
    requires Inv(e)
    ensures OrphansKept(e, ReserveStart(e, job, view), t)
  {
    if job in e.jobs && e.jobs[job].Starting? {
      var Starting(id, snapshotID) := e.jobs[job];
      var (st, r) := Reserve(e.storage, snapshotID, view);
      if r.Refused? {
        OtherJobsKeepOrphans(e, EndJob(e.(storage := st), job), t);
        UpdateOrphans(EndJob(e.(storage := st), job), id, StatusFatal, t);
      } else {
        AllotKeepsOrphans(e, job, st, Session(e.next, r.pool, r.port), t);
      }
    }
  }

  lemma AllotKeepsOrphans(e: Engine, job: nat, st: Storage, s: Session, t: nat)
    requires Inv(e) && job in e.jobs && e.jobs[job].Starting? && s.token == e.next
    ensures OrphansKept(e, Allot(e, job, st, e.jobs[job].id, s), t)
  {
    var owner, stopper :| InvBy(e, owner, stopper);
    var e' := Allot(e, job, st, e.jobs[job].id, s);
    if t == e.next {
      assert HeldByStart(e', job, t);
      OrphanIff(e', t);
    } else if t in e.held {
      assert SameHolders(e, e', t);
      SameOrphans(e, e', t);
    }
  }

  // --------------------------------------------------------- all other steps

  lemma RegisterKeepsOrphans(e: Engine, w: Wrapper, t: nat)
    requires w.id !in e.clones && w.snapshot.Some? && w.session.None? && e.next !in e.wrappers
    ensures OrphansKept(e, Register(e, w), t)
  {
    if t in e.held {
      forall id ensures HeldByClone(Register(e, w), id, t) <==> HeldByClone(e, id, t) {
      }
      assert SameHolders(e, Register(e, w), t);
      SameOrphans(e, Register(e, w), t);
    }
  }

  /** The request replaces a registered clone that has the session of this allocation: a generated ID was not new. */
  ghost predicate Replaces(e: Engine, request: CreateRequest, entries: seq<SnapshotEntry>, t: nat) {
    CreateClone(e, request, entries).1 == Accepted && HeldByClone(e, request.CloneID(), t)
  }

  /** A new clone takes the place of another one. */
  lemma RegisterOverOrphans(e: Engine, w: Wrapper, t: nat)
    requires Inv(e) && w.id in e.clones && w.snapshot.Some? && w.session.None?
    ensures Orphan(Register(e, w), t) <==> Orphan(e, t) || HeldByClone(e, w.id, t)
  {
    NumbersBelowNext(e);
    var e' := Register(e, w);
    if HeldByClone(e, w.id, t) {
      CloneHoldsAlone(e, w.id, t);
      OrphanIff(e', t);
    } else if t in e.held {
      assert SameHolders(e, e', t);
      SameOrphans(e, e', t);
    }
  }

  lemma CloneHoldsAlone(e: Engine, id: string, t: nat)
    requires Inv(e) && HeldByClone(e, id, t)
    ensures t in e.held && (forall i :: i != id ==> !HeldByClone(e, i, t)) && forall j :: !HeldByStart(e, j, t)
  {
    var owner, stopper :| InvBy(e, owner, stopper);
    forall j ensures !HeldByStart(e, j, t) {
      assert j in e.jobs ==> JobLinked(e, owner, stopper, j);
    }
  }

  lemma CreateOrphansIff(e: Engine, request: CreateRequest, entries: seq<SnapshotEntry>, t: nat)
    requires Inv(e)
    ensures var e' := CreateClone(e, request, entries).0;
      e'.held == e.held && (Orphan(e', t) <==> Orphan(e, t) || Replaces(e, request, entries, t))
  {
    var e1 := Fetch(e, entries);
    FetchKeepsOrphans(e, entries, t);
    var (e', r) := CreateClone(e, request, entries);
    if r.Accepted? {
      FetchSafe(e, entries);
      SpawnedOrphansIff(e1, e'.wrappers[e1.next], t);
      assert HeldByClone(e1, request.CloneID(), t) <==> HeldByClone(e, request.CloneID(), t);
    }
  }

  lemma FetchKeepsOrphans(e: Engine, entries: seq<SnapshotEntry>, t: nat)
    ensures OrphansKept(e, Fetch(e, entries), t) && Fetch(e, entries).held == e.held
  {
    OtherJobsKeepOrphans(e, Fetch(e, entries), t);
  }

  lemma SpawnedOrphansIff(e: Engine, w: Wrapper, t: nat)
    requires Inv(e) && w.snapshot.Some? && w.session.None?
    ensures var e' := Spawn(Register(e, w), Starting(w.id, w.snapshot.value));
      e'.held == e.held && (Orphan(e', t) <==> Orphan(e, t) || HeldByClone(e, w.id, t))
  {
    NumbersBelowNext(e);
    EnteredOrphansIff(e, w, t);
    OtherJobsKeepOrphans(Register(e, w), Spawn(Register(e, w), Starting(w.id, w.snapshot.value)), t);
  }

  lemma FetchSafe(e: Engine, entries: seq<SnapshotEntry>)
    requires Inv(e)
    ensures Inv(Fetch(e, entries))
  {
    StepKeeps(e, EvFetch(entries));
  }

  lemma EnteredOrphansIff(e: Engine, w: Wrapper, t: nat)
    requires Inv(e) && w.snapshot.Some? && w.session.None?
    ensures Orphan(Register(e, w), t) <==> Orphan(e, t) || HeldByClone(e, w.id, t)
  {
    NumbersBelowNext(e);
    if w.id in e.clones {
      RegisterOverOrphans(e, w, t);
    } else {
      RegisterKeepsOrphans(e, w, t);
    }
  }

 /** A clone without a live allocation is dropped. */
  lemma DropKeepsOrphans(e: Engine, id: string, snapshot: Option<string>, t: nat)
    requires e.Has(id) && (e.Get(id).session.Some? ==> e.Get(id).session.value.token !in e.held)
    ensures OrphansKept(e, Drop(e, id, snapshot), t)
  {
    if t in e.held {
      assert SameHolders(e, Drop(e, id, snapshot), t);
      SameOrphans(e, Drop(e, id, snapshot), t);
    }
  }

  lemma DestroyKeepsOrphans(e: Engine, id: string, t: nat)
    requires Inv(e)
    ensures OrphansKept(e, DestroyClone(e, id).0, t)
  {
    NumbersBelowNext(e);
    if DestroyClone(e, id).1.Accepted? {
      var e1 := UpdateStatus(e, id, StatusDeleting);
      UpdateOrphans(e, id, StatusDeleting, t);
      if e.Get(id).session.None? {
        DropKeepsOrphans(e1, id, e.Get(id).snapshot, t);
      } else {
        OtherJobsKeepOrphans(e1, DestroyClone(e, id).0, t);
      }
    }
  }

  /** An allocation that a clone holds is let go. */
  lemma ReleaseKeepsOrphans(e: Engine, id: string, st: Storage, t: nat)
    requires e.Has(id) && e.Get(id).session.Some?
    ensures OrphansKept(e, Release(e, st, e.Get(id).session.value.token), t)
  {
    var token := e.Get(id).session.value.token;
    assert HeldByClone(e, id, token);
    OrphanIff(e, token);
    if t in e.held {
      assert SameHolders(e, Release(e, st, token), t);
      SameOrphans(e, Release(e, st, token), t);
    }
  }

  lemma FinishDestroyKeepsOrphans(e: Engine, job: nat, pools: set<string>, stop: StopRun, t: nat)
    requires Inv(e)
    ensures OrphansKept(e, FinishDestroy(e, job, pools, stop), t)
  {
    var owner, stopper :| InvBy(e, owner, stopper);
    if job in e.jobs && e.jobs[job].Destroying? {
      var Destroying(id, ref) := e.jobs[job];
      assert JobLinked(e, owner, stopper, job);
      var s := e.Get(id).session.value;
      var (st, ok) := StopSession(e.storage, pools, s, stop);
      if !ok {
        OtherJobsKeepOrphans(e, EndJob(e.(storage := st), job), t);
        UpdateOrphans(EndJob(e.(storage := st), job), id, StatusFatal, t);
      } else {
        var e1 := EndJob(e, job);
        OtherJobsKeepOrphans(e, e1, t);
        ReleaseKeepsOrphans(e1, id, st, t);
        DropKeepsOrphans(Release(e1, st, s.token), id, e.Get(id).snapshot, t);
      }
    }
  }

  /** The wrapper changes, its session keeps its allocation. */
  lemma RewrittenKeepsOrphans(e: Engine, id: string, w: Wrapper, e': Engine, t: nat)
    requires e.Has(id) && w.session.Some? && e.Get(id).session.Some? &&
      w.session.value.token == e.Get(id).session.value.token
    requires e'.clones == e.clones && e'.wrappers == e.wrappers[e.clones[id] := w] && e'.held == e.held &&
      e'.jobs == e.jobs
    ensures OrphansKept(e, e', t)
  {
    if t in e.held {
      assert SameHolders(e, e', t);
      SameOrphans(e, e', t);
    }
  }

  lemma FinishResetKeepsOrphans(e: Engine, job: nat, view: ResetView, stop: StopRun, start: StartRun, undo: StopRun,
                                t: nat)
    requires Inv(e)
    ensures OrphansKept(e, FinishReset(e, job, view, stop, start, undo), t)
  {
    var owner, stopper :| InvBy(e, owner, stopper);
    if job in e.jobs && e.jobs[job].Moving? {
      var Moving(id, ref, snapshotID, original) := e.jobs[job];
      assert JobLinked(e, owner, stopper, job);
      var w := e.Get(id);
      ResetPorts(e.storage, w.session.value, snapshotID, view, stop, start, undo);
      var (st, session, r) := ResetSession(e.storage, w.session.value, snapshotID, view, stop, start, undo);
      var e1, w1 := EndJob(e.(storage := st), job), w.(session := Some(session));
      OtherJobsKeepOrphans(e, e1, t);
      if r.None? {
        RewrittenKeepsOrphans(e1, id, w1, SetWrapper(e1, ref, w1), t);
        UpdateOrphans(SetWrapper(e1, ref, w1), id, StatusFatal, t);
      } else {
        RewrittenKeepsOrphans(e1, id, w1.(snapshot := r), Move(e1, ref, w1.(snapshot := r), original), t);
        UpdateOrphans(Move(e1, ref, w1.(snapshot := r), original), id, StatusOK, t);
      }
    }
  }

  lemma ResetKeepsOrphans(e: Engine, id: string, snapshotID: string, latest: bool, t: nat)
    requires Inv(e)
    ensures OrphansKept(e, ResetClone(e, id, snapshotID, latest).0, t)
  {
    NumbersBelowNext(e);
    if ResetClone(e, id, snapshotID, latest).1.Accepted? {
      UpdateOrphans(e, id, StatusResetting, t);
      OtherJobsKeepOrphans(UpdateStatus(e, id, StatusResetting), ResetClone(e, id, snapshotID, latest).0, t);
    }
  }

  lemma UpdateCloneKeepsOrphans(e: Engine, id: string, protected: bool, t: nat)
    ensures OrphansKept(e, UpdateClone(e, id, protected).0, t)
  {
    if t in e.held {
      assert SameHolders(e, UpdateClone(e, id, protected).0, t);
      SameOrphans(e, UpdateClone(e, id, protected).0, t);
    }
  }

  // ------------------------------------------------------------------- runs

  /**
   A create goroutine ends well and loses the session of this allocation, or a new clone replaces
   the one that has it.
   */
  ghost predicate Loses(e: Engine, ev: Event, t: nat) {
    match ev
    case EvFinishStart(job, run, undo) =>
      && job in e.jobs && e.jobs[job].Preparing? && LostBy(e, job, t)
      && Finish(e.storage, e.jobs[job].started.pool, e.jobs[job].started.port, run, undo).1
    case EvCreate(request, entries) => Replaces(e, request, entries, t)
    case _ => false
  }

  lemma EndedStartOrphansIff(e: Engine, job: nat, run: StartRun, undo: StopRun, t: nat)
    requires Inv(e)
    ensures var e' := FinishStart(e, job, run, undo);
      && (Orphan(e', t) <==> Orphan(e, t) || Loses(e, EvFinishStart(job, run, undo), t))
      && (Orphan(e, t) ==> e'.held[t] == e.held[t])
  {
    if job in e.jobs && e.jobs[job].Preparing? {
      var s := e.jobs[job].started;
      if Finish(e.storage, s.pool, s.port, run, undo).1 {
        StartOrphansIff(e, job, run, undo, t);
      } else {
        FailedStartKeepsOrphans(e, job, run, undo, t);
      }
    }
  }

  lemma OtherStepKeepsOrphans(e: Engine, ev: Event, t: nat)
    requires Inv(e) && !ev.EvFinishStart? && !ev.EvCreate?
    ensures OrphansKept(e, Step(e, ev), t)
  {
    match ev {
      case EvReserve(job, view) => ReserveKeepsOrphans(e, job, view, t);
      case EvDestroy(id) => DestroyKeepsOrphans(e, id, t);
      case EvIdle(id, view) => DestroyKeepsOrphans(e, id, t);
      case EvFinishDestroy(job, pools, stop) => FinishDestroyKeepsOrphans(e, job, pools, stop, t);
      case EvReset(id, snapshotID, latest) => ResetKeepsOrphans(e, id, snapshotID, latest, t);
      case EvUpdate(id, protected) => UpdateCloneKeepsOrphans(e, id, protected, t);
      case EvFinishReset(job, view, stop, run, undo) => FinishResetKeepsOrphans(e, job, view, stop, run, undo, t);
      case EvBeginReset(job) => OtherJobsKeepOrphans(e, BeginReset(e, job), t);
      case EvFetch(entries) => FetchKeepsOrphans(e, entries, t);
    }
  }

  /** Of all steps exactly these make an orphan, and none loses one. */
  lemma OrphanedIff(e: Engine, ev: Event, t: nat)
    requires Inv(e)
    ensures Orphan(Step(e, ev), t) <==> Orphan(e, t) || Loses(e, ev, t)
    ensures Orphan(e, t) ==> Step(e, ev).held[t] == e.held[t]
  {
    match ev {
      case EvFinishStart(job, run, undo) => EndedStartOrphansIff(e, job, run, undo, t);
      case EvCreate(request, entries) => CreateOrphansIff(e, request, entries, t);
      case _ => OtherStepKeepsOrphans(e, ev, t);
    }
  }

  /** No goroutine works for an orphan. */
  lemma NobodyWorks(e: Engine, ev: Event, t: nat)
    requires Inv(e) && Orphan(e, t)
    ensures !WorksFor(e, ev, t)
  {
    OrphanIff(e, t);
    match ev {
      case EvFinishStart(job, _, _) => assert !HeldByStart(e, job, t);
      case EvFinishDestroy(job, _, _) =>
        if job in e.jobs && e.jobs[job].Destroying? {
          StopperHasClone(e, job);
          assert !HeldByClone(e, e.jobs[job].id, t);
        }
      case EvFinishReset(job, _, _, _, _) =>
        if job in e.jobs && e.jobs[job].Moving? {
          StopperHasClone(e, job);
          assert !HeldByClone(e, e.jobs[job].id, t);
        }
      case _ =>
    }
  }

  /** No run ever stops an orphan or frees its port; its container and its datasets stay as they are. */
  lemma {:induction false} OrphanForever(e: Engine, evs: seq<Event>, t: nat)
    requires Inv(e) && AllowedRun(e, evs) && Orphan(e, t)
    ensures var e' := Run(e, evs);
      Orphan(e', t) && e'.held[t] == e.held[t] && LeavesAlone(e.storage, e'.storage, e.held[t])
    decreases |evs|
  {
    StaysBound(e, t);
    if evs != [] {
      OrphanedIff(e, evs[0], t);
      NobodyWorks(e, evs[0], t);
      StepReaches(e, evs[0], t);
      StepKeeps(e, evs[0]);
      OrphanForever(Step(e, evs[0]), evs[1..], t);
      AloneTwice(e.storage, Step(e, evs[0]).storage, Run(Step(e, evs[0]), evs[1..]).storage, e.held[t]);
    }
  }
}
