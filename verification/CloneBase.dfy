/**
 The cloning service object (internal/cloning/base.go, internal/cloning/snapshots.go):
 its handlers and goroutine steps update the registry, the snapshot box and the
 provisioner in place; each does what module Cloning says it does.
 */
module CloneBase {
  import opened Options
  import opened Provision
  import opened Cloning
  import opened CloningSafety
  import opened Provisioning

  lemma TakeOne(users: set<string>, rest: set<string>, id: string)
    requires id in rest
    ensures |users * rest| == |users * (rest - {id})| + (if id in users then 1 else 0)
  {
    assert users * rest == users * (rest - {id}) + (if id in users then {id} else {});
  }

  class Base {
    const provision: Provisioner
    var wrappers: map<nat, Wrapper>
    var clones: map<string, nat>
    var items: map<string, Item>
    var latest: Option<SnapshotEntry>
    var jobs: map<nat, Job>
    ghost var held: map<nat, nat>
    var next: nat

    ghost function State(): Engine
      reads this, provision, provision.ports
    {
      Engine(provision.State(), wrappers, clones, items, latest, jobs, held, next)
    }

    constructor (provision: Provisioner)
      ensures this.provision == provision
      ensures State() == Engine(provision.State(), map[], map[], map[], None, map[], map[], 0) && Inv(State())
    {
      this.provision := provision;
      wrappers, clones, items, latest, jobs, held, next := map[], map[], map[], None, map[], map[], 0;
      new;
      StartsSafe(provision.State());
    }

    // ---------------------------------------------------------- snapshots

    /** How many clones in the registry use the snapshot, by walking the registry in any order. */
    method CountUsers(snapshotID: string) returns (numClones: nat)
      ensures numClones == CountClones(clones, wrappers, snapshotID)
    {
      numClones := 0;
      var rest := clones.Keys;
      assert ClonesOf(clones, wrappers, snapshotID) * rest == ClonesOf(clones, wrappers, snapshotID);
      while rest != {}
        invariant rest <= clones.Keys
        invariant numClones + |ClonesOf(clones, wrappers, snapshotID) * rest| ==
          CountClones(clones, wrappers, snapshotID)
        decreases rest
      {
        var id :| id in rest;
        TakeOne(ClonesOf(clones, wrappers, snapshotID), rest, id);
        if clones[id] in wrappers && wrappers[clones[id]].snapshot == Some(snapshotID) {
          numClones := numClones + 1;
        }
        rest := rest - {id};
      }
    }

    method FetchSnapshots(entries: seq<SnapshotEntry>)
      modifies this`items, this`latest
      ensures State() == Fetch(old(State()), entries)
    {
      var newest: Option<SnapshotEntry> := None;
      var snapshots: map<string, Item> := map[];
      for k := 0 to |entries|
        invariant newest == LatestOf(entries[..k])
        invariant snapshots == ItemsOf(entries[..k], clones, wrappers)
      {
        var numClones := CountUsers(entries[k].id);
        snapshots := snapshots[entries[k].id := Item(entries[k], numClones)];
        newest := DefineLatest(newest, entries[k]);
        assert entries[..k + 1][..k] == entries[..k];
      }
      assert entries[..|entries|] == entries;
      items, latest := snapshots, newest;
    }

    method IncrementCloneNumber(snapshotID: string)
      modifies this`items
      ensures items == Increment(old(items), snapshotID)
    {
      if snapshotID !in items {
        return;
      }
      items := items[snapshotID := items[snapshotID].(numClones := items[snapshotID].numClones + 1)];
    }

    method DecrementCloneNumber(snapshotID: string)
      modifies this`items
      ensures items == Decrement(old(items), snapshotID)
    {
      if snapshotID !in items {
        return;
      }
      if items[snapshotID].numClones == 0 {
        return;
      }
      items := items[snapshotID := items[snapshotID].(numClones := items[snapshotID].numClones - 1)];
    }

    // ----------------------------------------------------------- registry

    /** findWrapper */
    method FindWrapper(id: string) returns (ref: Option<nat>)
      ensures ref == if State().Has(id) then Some(clones[id]) else None
    {
      return if id in clones && clones[id] in wrappers then Some(clones[id]) else None;
    }

    method UpdateCloneStatus(id: string, status: Status)
      modifies this`wrappers
      ensures State() == UpdateStatus(old(State()), id, status)
    {
      if id !in clones || clones[id] !in wrappers {
        return;
      }
      wrappers := wrappers[clones[id] := wrappers[clones[id]].(status := status)];
    }

    method FillCloneSession(id: string, session: Session)
      modifies this`wrappers
      ensures State() == FillSession(old(State()), id, session)
    {
      if id !in clones || clones[id] !in wrappers {
        return;
      }
      wrappers := wrappers[clones[id] := wrappers[clones[id]].(session := Some(session), status := StatusOK)];
    }

    method DeleteClone(id: string)
      modifies this`clones
      ensures clones == old(clones) - {id}
    {
      clones := clones - {id};
    }

    /** `go func() { ... }()` */
    method Go(job: Job)
      modifies this`jobs, this`next
      ensures State() == Spawn(old(State()), job)
    {
      jobs, next := jobs[next := job], next + 1;
    }

    // ----------------------------------------------------------- handlers

    method CreateClone(request: CreateRequest, entries: seq<SnapshotEntry>) returns (reply: Reply)
      modifies this
      ensures (State(), reply) == Cloning.CreateClone(old(State()), request, entries)
    {
      var found := FindWrapper(request.id);
      if found.Some? {
        return AlreadyExists;
      }
      var id := if request.id == "" then request.generated else request.id;
      FetchSnapshots(entries);
      if latest.None? {
        return NoSnapshot;
      }
      var snapshotID := latest.value.id;
      if request.snapshotID.Some? {
        if request.snapshotID.value !in items {
          return NoSnapshot;
        }
        snapshotID := request.snapshotID.value;
      }
      var w := Wrapper(id, Some(snapshotID), request.protected, StatusCreating, None);
      wrappers, clones, next := wrappers[next := w], clones[id := next], next + 1;
      IncrementCloneNumber(snapshotID);
      Go(Starting(id, snapshotID));
      return Accepted;
    }

    method DestroyClone(id: string) returns (reply: Reply)
      modifies this
      ensures (State(), reply) == Cloning.DestroyClone(old(State()), id)
    {
      var found := FindWrapper(id);
      if found.None? {
        return NotFound;
      }
      var w := wrappers[found.value];
      if w.protected && w.status != StatusFatal {
        return IsProtected;
      }
      UpdateCloneStatus(id, StatusDeleting);
      if w.session.None? {
        DeleteClone(id);
        if w.snapshot.Some? {
          DecrementCloneNumber(w.snapshot.value);
        }
        return Accepted;
      }
      Go(Destroying(id, found.value));
      return Accepted;
    }

    method ResetClone(id: string, snapshotID: string, useLatest: bool) returns (reply: Reply)
      modifies this
      ensures (State(), reply) == Cloning.ResetClone(old(State()), id, snapshotID, useLatest)
    {
      var found := FindWrapper(id);
      if found.None? {
        return NotFound;
      }
      var w := wrappers[found.value];
      if w.session.None? {
        return NotStarted;
      }
      var target := "";
      if snapshotID != "" {
        if snapshotID !in items {
          return NoSnapshot;
        }
        target := snapshotID;
      }
      if target == "" && !useLatest && w.snapshot.Some? {
        target := w.snapshot.value;
      }
      UpdateCloneStatus(id, StatusResetting);
      Go(Resetting(id, found.value, target));
      return Accepted;
    }

    method UpdateClone(id: string, protected: bool) returns (reply: Reply)
      modifies this`wrappers
      ensures (State(), reply) == Cloning.UpdateClone(old(State()), id, protected)
    {
      var found := FindWrapper(id);
      if found.None? {
        return NotFound;
      }
      wrappers := wrappers[found.value := wrappers[found.value].(protected := protected)];
      return Accepted;
    }

    /** One clone's turn in destroyIdleClones. */
    method CheckIdleClone(id: string, view: IdleView) returns (reply: Reply)
      modifies this
      ensures (State(), reply) == CheckIdle(old(State()), id, view)
    {
      var found := FindWrapper(id);
      if found.None? {
        return NotFound;
      }
      if !IsIdle(wrappers[found.value], view) {
        return NotIdle;
      }
      reply := DestroyClone(id);
    }

    // --------------------------------------------------------- goroutines

    /** The create goroutine up to the point where it has a port. */
    method RunReserve(job: nat, view: StartView)
      requires job in jobs && jobs[job].Starting?
      modifies this, provision, provision.ports
      ensures State() == ReserveStart(old(State()), job, view)
    {
      var Starting(id, snapshotID) := jobs[job];
      var r := provision.ReserveSession(snapshotID, view);
      if r.Refused? {
        jobs := jobs - {job};
        UpdateCloneStatus(id, StatusFatal);
        return;
      }
      held := held[next := r.port];
      jobs := jobs[job := Preparing(id, Session(next, r.pool, r.port))];
      next := next + 1;
    }

    /** The rest of the create goroutine. */
    method RunFinishStart(job: nat, run: StartRun, undo: StopRun)
      requires job in jobs && jobs[job].Preparing?
      modifies this, provision, provision.ports
      ensures State() == FinishStart(old(State()), job, run, undo)
    {
      var Preparing(id, session) := jobs[job];
      var ok := provision.FinishSession(session.pool, session.port, run, undo);
      jobs := jobs - {job};
      if !ok {
        held := held - {session.token};
        UpdateCloneStatus(id, StatusFatal);
        return;
      }
      FillCloneSession(id, session);
    }

    method RunFinishDestroy(job: nat, pools: set<string>, stop: StopRun)
      requires job in jobs && jobs[job].Destroying?
      requires jobs[job].ref in wrappers && wrappers[jobs[job].ref].session.Some?
      modifies this, provision, provision.ports
      ensures State() == FinishDestroy(old(State()), job, pools, stop)
    {
      var Destroying(id, ref) := jobs[job];
      var w := wrappers[ref];
      var ok := provision.StopSession(pools, w.session.value, stop);
      jobs := jobs - {job};
      if !ok {
        UpdateCloneStatus(id, StatusFatal);
        return;
      }
      held := held - {w.session.value.token};
      DeleteClone(id);
      if w.snapshot.Some? {
        DecrementCloneNumber(w.snapshot.value);
      }
    }

    /** The reset goroutine notes the snapshot it is about to leave. */
    method RunBeginReset(job: nat)
      requires job in jobs && jobs[job].Resetting? && jobs[job].ref in wrappers
      modifies this`jobs
      ensures State() == BeginReset(old(State()), job)
    {
      var Resetting(id, ref, snapshotID) := jobs[job];
      jobs := jobs[job := Moving(id, ref, snapshotID, wrappers[ref].snapshot)];
    }

    method RunFinishReset(job: nat, view: ResetView, stop: StopRun, start: StartRun, undo: StopRun)
      requires job in jobs && jobs[job].Moving?
      requires jobs[job].ref in wrappers && wrappers[jobs[job].ref].session.Some?
      modifies this, provision, provision.ports
      ensures State() == FinishReset(old(State()), job, view, stop, start, undo)
    {
      var Moving(id, ref, snapshotID, original) := jobs[job];
      var w := wrappers[ref];
      var moved, r := provision.ResetSession(w.session.value, snapshotID, view, stop, start, undo);
      jobs := jobs - {job};
      if r.None? {
        wrappers := wrappers[ref := w.(session := Some(moved))];
        UpdateCloneStatus(id, StatusFatal);
        return;
      }
      SwapSnapshot(ref, w.(session := Some(moved), snapshot := r), original);
      UpdateCloneStatus(id, StatusOK);
    }

    /** The swap of the snapshot and the two count updates that follow it. */
    method SwapSnapshot(ref: nat, w: Wrapper, original: Option<string>)
      requires w.snapshot.Some?
      modifies this`wrappers, this`items
      ensures State() == Move(old(State()), ref, w, original)
    {
      wrappers := wrappers[ref := w];
      if original.Some? {
        DecrementCloneNumber(original.value);
      }
      IncrementCloneNumber(w.snapshot.value);
    }

    // --------------------------------------------------------------- runs

    /** A request, or a step of a goroutine if there is one of the job's number to take it. */
    method Handle(ev: Event)
      modifies this, provision, provision.ports
      ensures State() == Step(old(State()), ev)
    {
      match ev {
        case EvCreate(request, entries) => var _ := CreateClone(request, entries);
        case EvDestroy(id) => var _ := DestroyClone(id);
        case EvReset(id, snapshotID, useLatest) => var _ := ResetClone(id, snapshotID, useLatest);
        case EvUpdate(id, protected) => var _ := UpdateClone(id, protected);
        case EvIdle(id, view) => var _ := CheckIdleClone(id, view);
        case EvFetch(entries) => FetchSnapshots(entries);
        case EvReserve(job, view) =>
          if job in jobs && jobs[job].Starting? {
            RunReserve(job, view);
          }
        case EvFinishStart(job, run, undo) =>
          if job in jobs && jobs[job].Preparing? {
            RunFinishStart(job, run, undo);
          }
        case EvFinishDestroy(job, pools, stop) =>
          if job in jobs && jobs[job].Destroying? && jobs[job].ref in wrappers &&
            wrappers[jobs[job].ref].session.Some? {
            RunFinishDestroy(job, pools, stop);
          }
        case EvBeginReset(job) =>
          if job in jobs && jobs[job].Resetting? && jobs[job].ref in wrappers {
            RunBeginReset(job);
          }
        case EvFinishReset(job, view, stop, run, undo) =>
          if job in jobs && jobs[job].Moving? && jobs[job].ref in wrappers && wrappers[jobs[job].ref].session.Some? {
            RunFinishReset(job, view, stop, run, undo);
          }
      }
    }

    /** The service over a whole run: started safe and kept within the discipline, the object ends safe. */
    method Serve(events: seq<Event>)
      modifies this, provision, provision.ports
      ensures State() == Run(old(State()), events)
      ensures Inv(old(State())) && AllowedRun(old(State()), events) ==> Inv(State()) && Safe(State())
    {
      ghost var before := State();
      for k := 0 to |events|
        invariant Run(State(), events[k..]) == Run(before, events)
      {
        assert events[k..][0] == events[k] && events[k..][1..] == events[k + 1..];
        Handle(events[k]);
      }
      if Inv(before) && AllowedRun(before, events) {
        RunKeeps(before, events);
      }
    }
  }
}
