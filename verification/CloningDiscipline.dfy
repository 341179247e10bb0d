/**
 Why the discipline of safe runs is the right one: whatever it forbids, and the
 code accepts, has a continuation that goes wrong.
 */
module CloningDiscipline {
  import opened Options
  import opened Provision
  import opened Cloning
  import opened CloningSafety
  import opened CloningRuns

  /** No allowed continuation ever leaves a safe state. */
  ghost predicate SafeForever(e: Engine) {
    forall evs :: AllowedRun(e, evs) ==> Safe(Run(e, evs))
  }

  lemma InvIsSafeForever(e: Engine)
    requires Inv(e)
    ensures SafeForever(e)
  {
    forall evs | AllowedRun(e, evs) ensures Safe(Run(e, evs)) {
      RunKeeps(e, evs);
    }
  }

  // --------------------------------------------------------------- runs

  /** Events that nothing is asked of. */
  predicate Free(ev: Event) {
    ev.EvBeginReset? || ev.EvFinishReset? || ev.EvFinishDestroy? || ev.EvFetch?
  }

  lemma {:induction false} FreeRun(e: Engine, evs: seq<Event>)
    requires forall k :: 0 <= k < |evs| ==> Free(evs[k])
    ensures AllowedRun(e, evs)
    decreases |evs|
  {
    if evs != [] {
      assert Free(evs[0]) && Allowed(e, evs[0]);
      FreeRun(Step(e, evs[0]), evs[1..]);
    }
  }

  lemma RunFirst(e: Engine, ev: Event, evs: seq<Event>)
    ensures Run(e, [ev] + evs) == Run(Step(e, ev), evs)
  {
    assert ([ev] + evs)[0] == ev && ([ev] + evs)[1..] == evs;
  }

  // ------------------------------------------------ beside a pending destroy

  /** The goroutine stops or resets the session of the wrapper. */
  predicate WorksOn(job: Job, id: string, ref: nat) {
    !job.Starting? && !job.Preparing? && job.id == id && job.ref == ref
  }

  /** Once a destroy has succeeded, any other goroutine on the clone works on a session that has been let go. */
  lemma DestroyLeavesStaleWork(e: Engine, d: nat, k: nat, id: string, ref: nat)
    requires d != k && d in e.jobs && k in e.jobs && e.jobs[d] == Destroying(id, ref) && WorksOn(e.jobs[k], id, ref)
    requires ref in e.wrappers && e.wrappers[ref].session.Some?
    requires var s := e.wrappers[ref].session.value; CanStop(e.storage.datasets, s) && e.storage.InPool(s.port)
    ensures !SafeForever(e)
  {
    var s := e.wrappers[ref].session.value;
    var ev := EvFinishDestroy(d, {s.pool}, CLEAN_STOP);
    assert StopSession(e.storage, {s.pool}, s, CLEAN_STOP).1;
    var e' := Step(e, ev);
    assert k in e'.jobs && e'.jobs[k] == e.jobs[k] && e'.wrappers == e.wrappers && s.token !in e'.held;
    assert !NoStaleWork(e');
    FreeRun(e, [ev] + []);
    RunFirst(e, ev, []);
  }

  /** What a request of the clone can meet: its registered wrapper, with goroutines that work on it. */
  lemma PendingWorksOn(e: Engine, id: string, j: nat)
    requires Inv(e) && j in e.jobs && !e.jobs[j].Starting? && !e.jobs[j].Preparing? && e.jobs[j].id == id
    ensures e.Has(id) && e.Get(id).session.Some? && WorksOn(e.jobs[j], id, e.clones[id]) && j < e.next
    ensures e.jobs[j].Moving? ==> e.jobs[j].original == e.Get(id).snapshot
    ensures e.Get(id).snapshot.Some? && e.storage.InPool(e.Get(id).session.value.port)
  {
    var owner, stopper :| InvBy(e, owner, stopper);
    assert JobLinked(e, owner, stopper, j);
  }

  /** Some goroutine is pending on the clone. */
  lemma PendingJob(e: Engine, id: string) returns (j: nat)
    requires Pending(e, id)
    ensures j in e.jobs && !e.jobs[j].Starting? && !e.jobs[j].Preparing? && e.jobs[j].id == id
    ensures DestroyPending(e, id) ==> e.jobs[j].Destroying?
  {
    if DestroyPending(e, id) {
      j :| j in e.jobs && e.jobs[j].Destroying? && e.jobs[j].id == id;
    } else {
      j :| j in e.jobs && (e.jobs[j].Resetting? || e.jobs[j].Moving?) && e.jobs[j].id == id;
    }
  }

  /** The session of the clone, if it has one, can be stopped. */
  ghost predicate Stoppable(e: Engine, id: string) {
    e.Has(id) && e.Get(id).session.Some? ==> CanStop(e.storage.datasets, e.Get(id).session.value)
  }

  /**
   The exact discipline for destroys, in any reachable state: a destroy request is
   safe under every continuation if and only if it is refused, or neither a
   destroy nor a reset of the clone is pending.
   */
  lemma DestroySafeIff(e: Engine, id: string)
    requires Inv(e) && Stoppable(e, id)
    ensures SafeForever(DestroyClone(e, id).0) <==> DestroyClone(e, id).1 != Accepted || !Pending(e, id)
  {
    if DestroyClone(e, id).1 != Accepted || !Pending(e, id) {
      StepKeeps(e, EvDestroy(id));
      InvIsSafeForever(DestroyClone(e, id).0);
    } else {
      var j := PendingJob(e, id);
      PendingWorksOn(e, id, j);
      DestroyLeavesStaleWork(DestroyClone(e, id).0, e.next, j, id, e.clones[id]);
    }
  }

  /** The same for the engine's own idle sweep, which destroys without looking at what is pending. */
  lemma IdleSafeIff(e: Engine, id: string, view: IdleView)
    requires Inv(e) && Stoppable(e, id)
    ensures SafeForever(CheckIdle(e, id, view).0) <==> CheckIdle(e, id, view).1 != Accepted || !Pending(e, id)
  {
    DestroySafeIff(e, id);
    InvIsSafeForever(e);
  }

  /**
   One request of a user and one idle sweep are enough to leave the discipline: a clone being
   destroyed still counts as idle.
   */
  lemma SweepAfterDestroy(e: Engine, id: string)
    requires Inv(e) && Stoppable(e, id) && e.Has(id) && e.Get(id).session.Some? && !e.Get(id).protected
    ensures var (e2, reply) := CheckIdle(DestroyClone(e, id).0, id, IdleView(false, Quiet(false)));
      reply == Accepted && !SafeForever(e2)
  {
    var e1 := DestroyClone(e, id).0;
    var e2 := CheckIdle(e1, id, IdleView(false, Quiet(false))).0;
    var owner, stopper :| InvBy(e, owner, stopper);
    DestroyLeavesStaleWork(e2, e1.next, e.next, id, e.clones[id]);
  }

  /** What stale work does: it frees the port and removes the container of whoever has got them meanwhile. */
  lemma StaleDestroyHits(e: Engine, d: nat, i: string, ref: nat, id: string, s: Session)
    requires Settled(e, id, s) && d in e.jobs && e.jobs[d] == Destroying(i, ref)
    requires ref in e.wrappers && e.wrappers[ref].session.Some? && e.wrappers[ref].session.value.port == s.port
    requires CanStop(e.storage.datasets, e.wrappers[ref].session.value) && e.storage.Bound(s.port)
    ensures !Kept(e, FinishDestroy(e, d, {e.wrappers[ref].session.value.pool}, CLEAN_STOP), id, s)
  {
    assert StopSession(e.storage, {e.wrappers[ref].session.value.pool}, e.wrappers[ref].session.value, CLEAN_STOP).1;
  }

  // -------------------------------------------------- beside a pending reset

  const CLEAN_START := StartRun(true, Done, Done, true)

  /** A reset that meets one snapshot, in the session's own pool. */
  function OneSnapshot(s: Session, snapshotID: string): ResetView {
    ResetView([SnapshotEntry(snapshotID, s.pool, "")], {s.pool})
  }

  lemma CleanResetSucceeds(st: Storage, s: Session, target: string, to: string)
    requires NoNamesake(st.datasets, s) && (target == "" || target == to)
    ensures var (st', s', r) := ResetSession(st, s, target, OneSnapshot(s, to), CLEAN_STOP, CLEAN_START, CLEAN_STOP);
      s' == s && r == Some(to) && NoNamesake(st'.datasets, s)
  {
    TornDown(st, s, CLEAN_STOP);
  }

  /** The clone runs, its registry entry is its own, and its dataset is the only one of its name. */
  ghost predicate Steady(e: Engine, id: string, ref: nat) {
    && e.Has(id) && e.clones[id] == ref && (forall i :: i in e.clones && e.clones[i] == ref ==> i == id)
    && e.Get(id).session.Some? && NoNamesake(e.storage.datasets, e.Get(id).session.value)
  }

  /** The clone moves to another snapshot, and the counts by what its goroutine has noted. */
  lemma FinishCleanReset(e: Engine, job: nat, id: string, ref: nat, target: string, from: string, to: string)
    requires Steady(e, id, ref) && job in e.jobs && e.jobs[job] == Moving(id, ref, target, Some(from)) &&
      (target == "" || target == to)
    ensures var e' := FinishReset(e, job, OneSnapshot(e.Get(id).session.value, to), CLEAN_STOP, CLEAN_START,
                                  CLEAN_STOP);
      && Steady(e', id, ref) && e'.Get(id).session == e.Get(id).session && e'.Get(id).snapshot == Some(to)
      && e'.items == Increment(Decrement(e.items, from), to) && e'.jobs == e.jobs - {job}
      && forall s :: CountClones(e'.clones, e'.wrappers, s) + One(e.Get(id).snapshot == Some(s)) ==
                     CountClones(e.clones, e.wrappers, s) + One(to == s)
  {
    var w := e.Get(id);
    CleanResetSucceeds(e.storage, w.session.value, target, to);
    var e' := FinishReset(e, job, OneSnapshot(w.session.value, to), CLEAN_STOP, CLEAN_START, CLEAN_STOP);
    var w' := w.(snapshot := Some(to), status := StatusOK);
    assert e'.wrappers == e.wrappers[ref := w'] && e'.clones == e.clones;
    forall s ensures CountClones(e'.clones, e'.wrappers, s) + One(w.snapshot == Some(s)) ==
                     CountClones(e.clones, e.wrappers, s) + One(to == s) {
      CountReplace(e.clones, e.wrappers, id, w', s);
    }
  }

  /** A reset of the clone is pending that has noted its snapshot, or is about to. */
  ghost predicate ResetReady(e: Engine, j: nat, id: string, ref: nat)
    requires e.Has(id)
  {
    && j in e.jobs && e.jobs[j].id == id
    && (e.jobs[j].Resetting? || (e.jobs[j].Moving? && e.jobs[j].original == e.Get(id).snapshot)) && e.jobs[j].ref == ref
  }

  /** Two resets of the clone are pending, and `k` does not restate its snapshot. */
  ghost predicate ResetTwice(e: Engine, j: nat, k: nat, id: string, ref: nat) {
    && Steady(e, id, ref) && e.Get(id).snapshot.Some? && j != k && ResetReady(e, j, id, ref) &&
      ResetReady(e, k, id, ref)
    && !Restates(e.Get(id), e.jobs[k].snapshotID)
  }

  /** Both goroutines have noted the snapshot, and the box holds only the place where `k` goes. */
  ghost predicate BothNoted(e: Engine, j: nat, k: nat, id: string, ref: nat, targetJ: string, targetK: string,
                            from: string, to: string) {
    && Steady(e, id, ref) && e.Get(id).snapshot == Some(from) && from != to && j != k
    && j in e.jobs && e.jobs[j] == Moving(id, ref, targetJ, Some(from))
    && k in e.jobs && e.jobs[k] == Moving(id, ref, targetK, Some(from)) && (targetK == "" || targetK == to)
    && e.items.Keys == {to} && e.items[to].numClones == CountClones(e.clones, e.wrappers, to)
  }

  lemma FetchOne(e: Engine, to: string)
    ensures var e' := Fetch(e, [SnapshotEntry(to, "", "")]);
      e'.items.Keys == {to} && e'.items[to].numClones == CountClones(e.clones, e.wrappers, to)
  {
    var entries := [SnapshotEntry(to, "", "")];
    FetchCounts(entries, e.clones, e.wrappers);
    assert entries[0].id == to;
  }

  /** Where a reset goes: to its target, or to a snapshot of our choice if it asks for the latest. */
  function GoesTo(target: string, choice: string): string {
    if target == "" then choice else target
  }

  lemma BothNote(e: Engine, j: nat, k: nat, id: string, ref: nat, to: string)
    requires ResetTwice(e, j, k, id, ref) && to == GoesTo(e.jobs[k].snapshotID, e.Get(id).snapshot.value + "x")
    ensures BothNoted(Fetch(BeginReset(BeginReset(e, j), k), [SnapshotEntry(to, "", "")]), j, k, id, ref,
                      e.jobs[j].snapshotID, e.jobs[k].snapshotID, e.Get(id).snapshot.value, to)
  {
    var e2 := BeginReset(BeginReset(e, j), k);
    assert e2 == e.(jobs := e2.jobs);
    FetchOne(e2, to);
    assert |e.Get(id).snapshot.value + "x"| == |e.Get(id).snapshot.value| + 1;
  }

  /** Finishing both leaves the snapshot to which `k` goes counted once too often. */
  lemma FinishBoth(e: Engine, j: nat, k: nat, id: string, ref: nat, targetJ: string, targetK: string, from: string,
                   toK: string, toJ: string)
    requires BothNoted(e, j, k, id, ref, targetJ, targetK, from, toK) && (targetJ == "" || targetJ == toJ)
    ensures var s := e.Get(id).session.value;
      var e1 := FinishReset(e, k, OneSnapshot(s, toK), CLEAN_STOP, CLEAN_START, CLEAN_STOP);
      !CountsExact(FinishReset(e1, j, OneSnapshot(s, toJ), CLEAN_STOP, CLEAN_START, CLEAN_STOP))
  {
    var s := e.Get(id).session.value;
    FinishCleanReset(e, k, id, ref, targetK, from, toK);
    var e1 := FinishReset(e, k, OneSnapshot(s, toK), CLEAN_STOP, CLEAN_START, CLEAN_STOP);
    assert Decrement(e.items, from) == e.items;
    FinishCleanReset(e1, j, id, ref, targetJ, from, toJ);
    assert Decrement(e1.items, from) == e1.items;
    var e2 := FinishReset(e1, j, OneSnapshot(s, toJ), CLEAN_STOP, CLEAN_START, CLEAN_STOP);
    assert e2.items[toK].numClones == CountClones(e2.clones, e2.wrappers, toK) + 1;
  }

  /** Both goroutines note the snapshot, the box is fetched, and both finish. */
  function Doubled(j: nat, k: nat, s: Session, toK: string, toJ: string): seq<Event> {
    [EvBeginReset(j)] + ([EvBeginReset(k)] + ([EvFetch([SnapshotEntry(toK, "", "")])]
    + ([EvFinishReset(k, OneSnapshot(s, toK), CLEAN_STOP, CLEAN_START, CLEAN_STOP)]
       + ([EvFinishReset(j, OneSnapshot(s, toJ), CLEAN_STOP, CLEAN_START, CLEAN_STOP)] + []))))
  }

  lemma RunDoubled(e: Engine, j: nat, k: nat, s: Session, toK: string, toJ: string)
    ensures AllowedRun(e, Doubled(j, k, s, toK, toJ))
    ensures var e3 := Fetch(BeginReset(BeginReset(e, j), k), [SnapshotEntry(toK, "", "")]);
      var e4 := FinishReset(e3, k, OneSnapshot(s, toK), CLEAN_STOP, CLEAN_START, CLEAN_STOP);
      Run(e, Doubled(j, k, s, toK, toJ)) == FinishReset(e4, j, OneSnapshot(s, toJ), CLEAN_STOP, CLEAN_START, CLEAN_STOP)
  {
    var a, b, c := EvBeginReset(j), EvBeginReset(k), EvFetch([SnapshotEntry(toK, "", "")]);
    var d := EvFinishReset(k, OneSnapshot(s, toK), CLEAN_STOP, CLEAN_START, CLEAN_STOP);
    var f := EvFinishReset(j, OneSnapshot(s, toJ), CLEAN_STOP, CLEAN_START, CLEAN_STOP);
    FreeRun(e, Doubled(j, k, s, toK, toJ));
    RunFirst(e, a, [b] + ([c] + ([d] + ([f] + []))));
    RunFirst(Step(e, a), b, [c] + ([d] + ([f] + [])));
    RunFirst(Step(Step(e, a), b), c, [d] + ([f] + []));
    RunFirst(Step(Step(Step(e, a), b), c), d, [f] + []);
    RunFirst(Step(Step(Step(Step(e, a), b), c), d), f, []);
  }

  /** Two resets of which one changes the snapshot: both have noted the same one to leave, and a count goes wrong. */
  lemma SecondResetBreaks(e: Engine, j: nat, k: nat, id: string, ref: nat) returns (evs: seq<Event>)
    requires ResetTwice(e, j, k, id, ref)
    ensures AllowedRun(e, evs) && !CountsExact(Run(e, evs))
  {
    var s, from := e.Get(id).session.value, e.Get(id).snapshot.value;
    var targetJ, targetK := e.jobs[j].snapshotID, e.jobs[k].snapshotID;
    var toK := GoesTo(targetK, from + "x");
    var toJ := GoesTo(targetJ, from);
    var e3 := Fetch(BeginReset(BeginReset(e, j), k), [SnapshotEntry(toK, "", "")]);
    BothNote(e, j, k, id, ref, toK);
    assert e3.Get(id).session == e.Get(id).session;
    FinishBoth(e3, j, k, id, ref, targetJ, targetK, from, toK, toJ);
    RunDoubled(e, j, k, s, toK, toJ);
    evs := Doubled(j, k, s, toK, toJ);
  }

  /** Of the pending resets and the new one, some one does not restate the clone's snapshot. */
  lemma ResetPair(e: Engine, id: string, target: string) returns (j: nat, k: nat)
    requires Inv(e) && e.Has(id) && e.Get(id).session.Some? && NoNamesake(e.storage.datasets, e.Get(id).session.value)
    requires ResetPending(e, id) && !DestroyPending(e, id) && !ResetFits(e, id, target)
    ensures ResetTwice(Spawn(UpdateStatus(e, id, StatusResetting), Resetting(id, e.clones[id], target)), j, k, id,
                       e.clones[id])
  {
    var p :| p in e.jobs && (e.jobs[p].Resetting? || e.jobs[p].Moving?) && e.jobs[p].id == id
             && (Restates(e.Get(id), target) ==> !Restates(e.Get(id), e.jobs[p].snapshotID));
    PendingWorksOn(e, id, p);
    j, k := if Restates(e.Get(id), target) then e.next else p, if Restates(e.Get(id), target) then p else e.next;
    var owner, stopper :| InvBy(e, owner, stopper);
    RefUnique(e, owner, stopper, id);
  }

  /** The session of the clone, if it has one, is listed by its own dataset alone. */
  ghost predicate Unmistakable(e: Engine, id: string) {
    e.Has(id) && e.Get(id).session.Some? ==> NoNamesake(e.storage.datasets, e.Get(id).session.value)
  }

  /**
   The exact discipline for resets, in any reachable state: a reset request is safe
   under every continuation if and only if it is refused, or no destroy of the
   clone is pending, and no reset either unless all of them, the new one included,
   restate the snapshot that the clone has.
   */
  lemma ResetSafeIff(e: Engine, id: string, snapshotID: string, latest: bool)
    requires Inv(e) && Unmistakable(e, id)
    ensures SafeForever(ResetClone(e, id, snapshotID, latest).0) <==>
      ResetClone(e, id, snapshotID, latest).1 != Accepted || ResetFits(e, id, TargetOf(e.Get(id), snapshotID, latest))
  {
    var (e1, reply) := ResetClone(e, id, snapshotID, latest);
    if reply != Accepted || ResetFits(e, id, TargetOf(e.Get(id), snapshotID, latest)) {
      StepKeeps(e, EvReset(id, snapshotID, latest));
      InvIsSafeForever(e1);
    } else if DestroyPending(e, id) {
      var d := PendingJob(e, id);
      PendingWorksOn(e, id, d);
      DestroyLeavesStaleWork(e1, d, e.next, id, e.clones[id]);
    } else {
      var j, k := ResetPair(e, id, TargetOf(e.Get(id), snapshotID, latest));
      var evs := SecondResetBreaks(e1, j, k, id, e.clones[id]);
    }
  }

  // ----------------------------------------------- counts beside a destroy

  lemma CleanStopSucceeds(st: Storage, s: Session)
    requires NoNamesake(st.datasets, s) && st.InPool(s.port)
    ensures var (st', ok) := StopSession(st, {s.pool}, s, CLEAN_STOP); ok && NoNamesake(st'.datasets, s)
  {
    TornDown(st, s, CLEAN_STOP);
  }

  /** Two destroys of one clone are pending. */
  ghost predicate DestroyedTwice(e: Engine, j: nat, k: nat, id: string, ref: nat) {
    && j != k && j in e.jobs && k in e.jobs
    && e.jobs[j] == e.jobs[k] == Destroying(id, ref)
    && ref in e.wrappers && e.wrappers[ref].session.Some? && e.wrappers[ref].snapshot.Some? && ref < e.next
    && e.storage.InPool(e.wrappers[ref].session.value.port)
    && NoNamesake(e.storage.datasets, e.wrappers[ref].session.value)
    && j < e.next && k < e.next
  }

  lemma FinishFirst(e: Engine, j: nat, k: nat, id: string, ref: nat)
    requires DestroyedTwice(e, j, k, id, ref)
    ensures var s := e.wrappers[ref].session.value;
      var e' := FinishDestroy(e, j, {s.pool}, CLEAN_STOP);
      && id !in e'.clones && k in e'.jobs && e'.jobs[k] == Destroying(id, ref)
      && e'.wrappers == e.wrappers && e'.next == e.next
      && e'.storage.InPool(s.port) && NoNamesake(e'.storage.datasets, s)
  {
  }

  /** The second goroutine deletes whatever clone has taken the ID meanwhile, but not from its snapshot's count. */
  lemma FinishSecond(e: Engine, k: nat, id: string, ref: nat, snapshotID: string)
    requires k in e.jobs && e.jobs[k] == Destroying(id, ref)
    requires ref in e.wrappers && e.wrappers[ref].session.Some? && e.wrappers[ref].snapshot.Some?
    requires var s := e.wrappers[ref].session.value; e.storage.InPool(s.port) && NoNamesake(e.storage.datasets, s)
    requires e.wrappers[ref].snapshot != Some(snapshotID) && snapshotID in e.items
    requires e.Has(id) && e.Get(id).snapshot == Some(snapshotID)
    requires e.items[snapshotID].numClones == CountClones(e.clones, e.wrappers, snapshotID)
    ensures !CountsExact(FinishDestroy(e, k, {e.wrappers[ref].session.value.pool}, CLEAN_STOP))
  {
    var s := e.wrappers[ref].session.value;
    CleanStopSucceeds(e.storage, s);
    CountDrop(e.clones, e.wrappers, id, snapshotID);
    var e' := FinishDestroy(e, k, {s.pool}, CLEAN_STOP);
    assert e'.clones == e.clones - {id} && e'.wrappers == e.wrappers;
    assert snapshotID in e'.items && e'.items[snapshotID] == e.items[snapshotID];
  }

  lemma CreateOver(e: Engine, id: string, snapshotID: string)
    requires id !in e.clones && forall i :: i in e.clones ==> e.clones[i] < e.next
    ensures var e' := CreateClone(e, CreateRequest(id, id, false, None), [SnapshotEntry(snapshotID, "", "")]).0;
      && e'.Has(id) && e'.Get(id).snapshot == Some(snapshotID) && snapshotID in e'.items
      && e'.clones == e.clones[id := e.next] && e'.storage == e.storage
      && e'.items[snapshotID].numClones == CountClones(e'.clones, e'.wrappers, snapshotID)
      && (forall r :: r in e.wrappers && r != e.next ==> r in e'.wrappers && e'.wrappers[r] == e.wrappers[r])
      && (forall j :: j in e.jobs && j < e.next ==> j in e'.jobs && e'.jobs[j] == e.jobs[j])
  {
    var entries := [SnapshotEntry(snapshotID, "", "")];
    FetchCounts(entries, e.clones, e.wrappers);
    assert entries[0].id == snapshotID;
    assert LatestOf(entries[..0]) == None;
    var w := Wrapper(id, Some(snapshotID), false, StatusCreating, None);
    var e' := CreateClone(e, CreateRequest(id, id, false, None), entries).0;
    var e1 := Fetch(e, entries);
    assert e1.latest == Some(entries[0]);
    assert e' == Spawn(Register(e1, w), Starting(id, snapshotID));
    CountAdd(e.clones, e.wrappers, id, e.next, w, snapshotID);
  }

  /** Two destroys: the second one deletes whatever clone has taken the ID meanwhile, and a count goes wrong. */
  lemma SecondDestroyBreaks(e: Engine, j: nat, k: nat, id: string, ref: nat) returns (evs: seq<Event>)
    requires DestroyedTwice(e, j, k, id, ref) && forall i :: i in e.clones ==> e.clones[i] < e.next
    ensures AllowedRun(e, evs) && !CountsExact(Run(e, evs))
  {
    var s := e.wrappers[ref].session.value;
    var other := e.wrappers[ref].snapshot.value + "x";
    var ev1 := EvFinishDestroy(j, {s.pool}, CLEAN_STOP);
    var ev2 := EvCreate(CreateRequest(id, id, false, None), [SnapshotEntry(other, "", "")]);
    var ev3 := EvFinishDestroy(k, {s.pool}, CLEAN_STOP);
    var e1 := Step(e, ev1);
    FinishFirst(e, j, k, id, ref);
    CreateOver(e1, id, other);
    FinishSecond(Step(e1, ev2), k, id, ref, other);
    evs := [ev1, ev2, ev3];
    ThreeEvents(e, ev1, ev2, ev3);
  }

  lemma ThreeEvents(e: Engine, a: Event, b: Event, c: Event)
    requires Allowed(e, a) && Allowed(Step(e, a), b) && Allowed(Step(Step(e, a), b), c)
    ensures AllowedRun(e, [a, b, c]) && Run(e, [a, b, c]) == Step(Step(Step(e, a), b), c)
  {
    var e1 := Step(e, a);
    var e2 := Step(e1, b);
    assert [a, b, c][1..] == [b, c] && [b, c][1..] == [c] && [c][1..] == [];
    assert AllowedRun(e2, [c]) && Run(e2, [c]) == Step(e2, c);
    assert AllowedRun(e1, [b, c]) && Run(e1, [b, c]) == Run(e2, [c]);
  }

  /** Fetching first, then the destroy, then the reset. */
  function DestroyThenReset(d: nat, k: nat, s: Session, to: string): seq<Event> {
    [EvBeginReset(k)] + ([EvFetch([SnapshotEntry(to, "", "")])]
    + ([EvFinishDestroy(d, {s.pool}, CLEAN_STOP)]
       + ([EvFinishReset(k, OneSnapshot(s, to), CLEAN_STOP, CLEAN_START, CLEAN_STOP)] + [])))
  }

  lemma RunDestroyThenReset(e: Engine, d: nat, k: nat, s: Session, to: string)
    ensures AllowedRun(e, DestroyThenReset(d, k, s, to))
    ensures var e2 := Fetch(BeginReset(e, k), [SnapshotEntry(to, "", "")]);
      var e3 := FinishDestroy(e2, d, {s.pool}, CLEAN_STOP);
      Run(e, DestroyThenReset(d, k, s, to)) ==
        FinishReset(e3, k, OneSnapshot(s, to), CLEAN_STOP, CLEAN_START, CLEAN_STOP)
  {
    var a, b, c := EvBeginReset(k), EvFetch([SnapshotEntry(to, "", "")]), EvFinishDestroy(d, {s.pool}, CLEAN_STOP);
    var f := EvFinishReset(k, OneSnapshot(s, to), CLEAN_STOP, CLEAN_START, CLEAN_STOP);
    FreeRun(e, DestroyThenReset(d, k, s, to));
    RunFirst(e, a, [b] + ([c] + ([f] + [])));
    RunFirst(Step(e, a), b, [c] + ([f] + []));
    RunFirst(Step(Step(e, a), b), c, [f] + []);
    RunFirst(Step(Step(Step(e, a), b), c), f, []);
  }

  /** The clone has gone; everything else that the reset needs is as before. */
  lemma DestroyFirst(e: Engine, d: nat, k: nat, id: string, ref: nat, to: string)
    requires Steady(e, id, ref) && d != k && e.storage.InPool(e.Get(id).session.value.port)
    requires d in e.jobs && e.jobs[d] == Destroying(id, ref) && e.Get(id).snapshot.Some? &&
      e.Get(id).snapshot != Some(to)
    requires k in e.jobs && e.items.Keys == {to}
    ensures var s := e.Get(id).session.value; var e1 := FinishDestroy(e, d, {s.pool}, CLEAN_STOP);
      && id !in e1.clones && (forall i :: i in e1.clones ==> e1.clones[i] != ref) && e1.wrappers == e.wrappers &&
        e1.items == e.items
      && k in e1.jobs && e1.jobs[k] == e.jobs[k] && NoNamesake(e1.storage.datasets, s)
      && CountClones(e1.clones, e1.wrappers, to) == CountClones(e.clones, e.wrappers, to)
  {
    CleanStopSucceeds(e.storage, e.Get(id).session.value);
    CountDrop(e.clones, e.wrappers, id, to);
  }

  /** A reset of a wrapper that is registered no more still counts it for the snapshot it moves to. */
  lemma ResetOfTheGone(e: Engine, k: nat, id: string, ref: nat, s: Session, target: string, from: string, to: string)
    requires id !in e.clones && (forall i :: i in e.clones ==> e.clones[i] != ref) && NoNamesake(e.storage.datasets, s)
    requires ref in e.wrappers && e.wrappers[ref].session == Some(s)
    requires k in e.jobs && e.jobs[k] == Moving(id, ref, target, Some(from)) && (target == "" || target == to) &&
      from != to
    requires e.items.Keys == {to} && e.items[to].numClones == CountClones(e.clones, e.wrappers, to)
    ensures !CountsExact(FinishReset(e, k, OneSnapshot(s, to), CLEAN_STOP, CLEAN_START, CLEAN_STOP))
  {
    CleanResetSucceeds(e.storage, s, target, to);
    var e2 := FinishReset(e, k, OneSnapshot(s, to), CLEAN_STOP, CLEAN_START, CLEAN_STOP);
    assert e2.clones == e.clones && e2.items == Increment(e.items, to);
    assert ClonesOf(e2.clones, e2.wrappers, to) == ClonesOf(e.clones, e.wrappers, to);
    assert e2.items[to].numClones == CountClones(e2.clones, e2.wrappers, to) + 1;
  }

  /** A destroy and a reset that changes the snapshot: after the destroy, the reset counts a clone that has gone. */
  lemma MixedBreaks(e: Engine, d: nat, k: nat, id: string, ref: nat) returns (evs: seq<Event>)
    requires Steady(e, id, ref) && e.Get(id).snapshot.Some? && e.storage.InPool(e.Get(id).session.value.port)
    requires d != k && d in e.jobs && e.jobs[d] == Destroying(id, ref) && ResetReady(e, k, id, ref)
    requires !Restates(e.Get(id), e.jobs[k].snapshotID)
    ensures AllowedRun(e, evs) && !CountsExact(Run(e, evs))
  {
    var s, from, target := e.Get(id).session.value, e.Get(id).snapshot.value, e.jobs[k].snapshotID;
    var to := GoesTo(target, from + "x");
    assert |from + "x"| == |from| + 1;
    FetchOne(BeginReset(e, k), to);
    var e2 := Fetch(BeginReset(e, k), [SnapshotEntry(to, "", "")]);
    DestroyFirst(e2, d, k, id, ref, to);
    ResetOfTheGone(FinishDestroy(e2, d, {s.pool}, CLEAN_STOP), k, id, ref, s, target, from, to);
    RunDestroyThenReset(e, d, k, s, to);
    evs := DestroyThenReset(d, k, s, to);
  }
}
