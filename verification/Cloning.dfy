/**
 The clone registry as a state machine (internal/cloning/base.go,
 internal/cloning/snapshots.go). Each request handler and each step of a
 goroutine it spawns is one function on the state. A goroutine keeps a pointer
 to the clone wrapper it was started for, so wrappers live in a store of their
 own and the registry maps clone IDs to places in that store.
 */
module Cloning {
  import opened Options
  import opened Text
  import opened Provision

  datatype Status =
    | StatusOK | StatusCreating | StatusResetting | StatusDeleting | StatusExporting | StatusFatal | StatusWarning

  datatype Wrapper = Wrapper(
    id: string, snapshot: Option<string>, protected: bool, status: Status, session: Option<Session>)

  /** A snapshot in the box, with its reference count. */
  datatype Item = Item(entry: SnapshotEntry, numClones: int)

  /** What a spawned goroutine still has to do. */
  datatype Job =
    | Starting(id: string, snapshotID: string)
    | Preparing(id: string, started: Session)
    | Destroying(id: string, ref: nat)
    | Resetting(id: string, ref: nat, snapshotID: string)
    | Moving(id: string, ref: nat, snapshotID: string, original: Option<string>)

  /**
   The whole engine. `held` records which allocation holds which port, from
   the moment the port is allocated until the session is stopped or its start
   is reverted; `next` numbers wrappers, jobs and allocations.
   */
  datatype Engine = Engine(
    storage: Storage, wrappers: map<nat, Wrapper>, clones: map<string, nat>,
    items: map<string, Item>, latest: Option<SnapshotEntry>,
    jobs: map<nat, Job>, held: map<nat, nat>, next: nat)
  {
    /** The clone is in the registry. */
    predicate Has(id: string) {
      id in clones && clones[id] in wrappers
    }

    function Get(id: string): Wrapper
      requires Has(id)
    {
      wrappers[clones[id]]
    }
  }

  datatype Reply = Accepted | NotFound | AlreadyExists | NoSnapshot | NotStarted | IsProtected | NotIdle

  // ------------------------------------------------------------ snapshots

  function ClonesOf(clones: map<string, nat>, wrappers: map<nat, Wrapper>, snapshotID: string): set<string> {
    set id | id in clones && clones[id] in wrappers && wrappers[clones[id]].snapshot == Some(snapshotID)
  }

  /** How many registry clones use the snapshot. */
  function CountClones(clones: map<string, nat>, wrappers: map<nat, Wrapper>, snapshotID: string): nat {
    |ClonesOf(clones, wrappers, snapshotID)|
  }

  function DefineLatest(latest: Option<SnapshotEntry>, challenger: SnapshotEntry): Option<SnapshotEntry> {
    if latest.None? || latest.value.dataStateAt == "" || LexLess(latest.value.dataStateAt, challenger.dataStateAt)
    then Some(challenger) else latest
  }

  function LatestOf(entries: seq<SnapshotEntry>): Option<SnapshotEntry> {
    if entries == [] then None
    else DefineLatest(LatestOf(entries[..|entries| - 1]), entries[|entries| - 1])
  }

  function ItemsOf(entries: seq<SnapshotEntry>, clones: map<string, nat>, wrappers: map<nat, Wrapper>)
    : map<string, Item>
  {
    if entries == [] then map[]
    else
      var entry := entries[|entries| - 1];
      ItemsOf(entries[..|entries| - 1], clones, wrappers)
        [entry.id := Item(entry, CountClones(clones, wrappers, entry.id))]
  }

  function Fetch(e: Engine, entries: seq<SnapshotEntry>): Engine {
    e.(items := ItemsOf(entries, e.clones, e.wrappers), latest := LatestOf(entries))
  }

  function Increment(items: map<string, Item>, snapshotID: string): map<string, Item> {
    if snapshotID !in items then items
    else items[snapshotID := items[snapshotID].(numClones := items[snapshotID].numClones + 1)]
  }

  function Decrement(items: map<string, Item>, snapshotID: string): map<string, Item> {
    if snapshotID !in items || items[snapshotID].numClones == 0 then items
    else items[snapshotID := items[snapshotID].(numClones := items[snapshotID].numClones - 1)]
  }

  // ------------------------------------------------------------- registry

  function SetWrapper(e: Engine, ref: nat, w: Wrapper): Engine {
    e.(wrappers := e.wrappers[ref := w])
  }

  function UpdateStatus(e: Engine, id: string, status: Status): Engine {
    if !e.Has(id) then e else SetWrapper(e, e.clones[id], e.Get(id).(status := status))
  }

  function FillSession(e: Engine, id: string, session: Session): Engine {
    if !e.Has(id) then e
    else SetWrapper(e, e.clones[id], e.Get(id).(session := Some(session), status := StatusOK))
  }

  /** Enters a new wrapper in the registry and counts it for its snapshot. */
  function Register(e: Engine, w: Wrapper): Engine
    requires w.snapshot.Some?
  {
    e.(wrappers := e.wrappers[e.next := w], clones := e.clones[w.id := e.next],
       items := Increment(e.items, w.snapshot.value), next := e.next + 1)
  }

  /** Deletes a clone from the registry and takes it off its snapshot's count. */
  function Drop(e: Engine, id: string, snapshot: Option<string>): Engine {
    e.(clones := e.clones - {id}, items := if snapshot.Some? then Decrement(e.items, snapshot.value) else e.items)
  }

  /** Moves a wrapper to another snapshot and both counts with it. */
  function Move(e: Engine, ref: nat, w: Wrapper, from: Option<string>): Engine
    requires w.snapshot.Some?
  {
    e.(wrappers := e.wrappers[ref := w],
       items := Increment(if from.Some? then Decrement(e.items, from.value) else e.items, w.snapshot.value))
  }

  function Spawn(e: Engine, job: Job): Engine {
    e.(jobs := e.jobs[e.next := job], next := e.next + 1)
  }

  function EndJob(e: Engine, job: nat): Engine {
    e.(jobs := e.jobs - {job})
  }

  /** A goroutine ends badly: the clone of its ID, if there still is one, is FATAL. */
  function GiveUp(e: Engine, job: nat, st: Storage, id: string): Engine {
    UpdateStatus(EndJob(e.(storage := st), job), id, StatusFatal)
  }

  /** A create goroutine goes on with the port it was given. */
  function Allot(e: Engine, job: nat, st: Storage, id: string, session: Session): Engine {
    e.(storage := st, held := e.held[session.token := session.port],
       jobs := e.jobs[job := Preparing(id, session)], next := e.next + 1)
  }

  /** The calls of `st` were made and an allocation let go of its port. */
  function Release(e: Engine, st: Storage, token: nat): Engine {
    e.(storage := st, held := e.held - {token})
  }

  /** A request to create a clone; `generated` is the ID used when none is given. */
  datatype CreateRequest = CreateRequest(id: string, generated: string, protected: bool, snapshotID: Option<string>) {
    function CloneID(): string {
      if id == "" then generated else id
    }
  }

  function CreateClone(e: Engine, request: CreateRequest, entries: seq<SnapshotEntry>): (Engine, Reply) {
    if e.Has(request.id) then (e, AlreadyExists)
    else
      var e1 := Fetch(e, entries);
      if e1.latest.None? || (request.snapshotID.Some? && request.snapshotID.value !in e1.items) then (e1, NoSnapshot)
      else
        var id := request.CloneID();
        var snapshotID := if request.snapshotID.Some? then request.snapshotID.value else e1.latest.value.id;
        var w := Wrapper(id, Some(snapshotID), request.protected, StatusCreating, None);
        (Spawn(Register(e1, w), Starting(id, snapshotID)), Accepted)
  }

  /** The create goroutine takes a port. */
  function ReserveStart(e: Engine, job: nat, view: StartView): Engine {
    if job !in e.jobs || !e.jobs[job].Starting? then e
    else
      var Starting(id, snapshotID) := e.jobs[job];
      var (st, r) := Reserve(e.storage, snapshotID, view);
      if r.Refused? then GiveUp(e, job, st, id) else Allot(e, job, st, id, Session(e.next, r.pool, r.port))
  }

  /** The create goroutine finishes, well or badly. */
  function FinishStart(e: Engine, job: nat, run: StartRun, undo: StopRun): Engine {
    if job !in e.jobs || !e.jobs[job].Preparing? then e
    else
      var session := e.jobs[job].started;
      var (st, ok) := Finish(e.storage, session.pool, session.port, run, undo);
      AfterStart(e, job, st, ok)
  }

  /** The calls of a create goroutine are made, well or badly. */
  function AfterStart(e: Engine, job: nat, st: Storage, ok: bool): Engine
    requires job in e.jobs && e.jobs[job].Preparing?
  {
    var Preparing(id, session) := e.jobs[job];
    if ok then FillSession(EndJob(e.(storage := st), job), id, session)
    else UpdateStatus(Release(EndJob(e, job), st, session.token), id, StatusFatal)
  }

  function DestroyClone(e: Engine, id: string): (Engine, Reply) {
    if !e.Has(id) then (e, NotFound)
    else
      var w := e.Get(id);
      if w.protected && w.status != StatusFatal then (e, IsProtected)
      else
        var e1 := UpdateStatus(e, id, StatusDeleting);
        if w.session.None? then
          (Drop(e1, id, w.snapshot), Accepted)
        else
          (Spawn(e1, Destroying(id, e.clones[id])), Accepted)
  }

  function FinishDestroy(e: Engine, job: nat, pools: set<string>, run: StopRun): Engine {
    if job !in e.jobs || !e.jobs[job].Destroying? then e
    else
      var Destroying(id, ref) := e.jobs[job];
      if ref !in e.wrappers || e.wrappers[ref].session.None? then e
      else
        var w := e.wrappers[ref];
        var (st, ok) := StopSession(e.storage, pools, w.session.value, run);
        if !ok then GiveUp(e, job, st, id)
        else
          Release(Drop(EndJob(e, job), id, w.snapshot), st, w.session.value.token)
  }

  /** The snapshot a reset asks for; the empty text, meant as the latest one, stands for the first in the list. */
  function TargetOf(w: Wrapper, snapshotID: string, latest: bool): string {
    if snapshotID != "" || latest || w.snapshot.None? then snapshotID else w.snapshot.value
  }

  function ResetClone(e: Engine, id: string, snapshotID: string, latest: bool): (Engine, Reply) {
    if !e.Has(id) then (e, NotFound)
    else
      var w := e.Get(id);
      if w.session.None? then (e, NotStarted)
      else if snapshotID != "" && snapshotID !in e.items then (e, NoSnapshot)
      else
        (Spawn(UpdateStatus(e, id, StatusResetting), Resetting(id, e.clones[id], TargetOf(w, snapshotID, latest))),
         Accepted)
  }

  /** The reset goroutine notes the snapshot that its clone is about to leave. */
  function BeginReset(e: Engine, job: nat): Engine {
    if job !in e.jobs || !e.jobs[job].Resetting? then e
    else
      var Resetting(id, ref, snapshotID) := e.jobs[job];
      if ref !in e.wrappers then e else e.(jobs := e.jobs[job := Moving(id, ref, snapshotID, e.wrappers[ref].snapshot)])
  }

  function FinishReset(e: Engine, job: nat, view: ResetView, stop: StopRun, start: StartRun, undo: StopRun): Engine {
    if job !in e.jobs || !e.jobs[job].Moving? then e
    else
      var Moving(id, ref, snapshotID, original) := e.jobs[job];
      if ref !in e.wrappers || e.wrappers[ref].session.None? then e
      else
        var w := e.wrappers[ref];
        var (st, session, r) := ResetSession(e.storage, w.session.value, snapshotID, view, stop, start, undo);
        var e1 := EndJob(e.(storage := st), job);
        if r.None? then UpdateStatus(SetWrapper(e1, ref, w.(session := Some(session))), id, StatusFatal)
        else
          UpdateStatus(Move(e1, ref, w.(session := Some(session), snapshot := r), original), id, StatusOK)
  }

  function UpdateClone(e: Engine, id: string, protected: bool): (Engine, Reply) {
    if !e.Has(id) then (e, NotFound)
    else (SetWrapper(e, e.clones[id], e.Get(id).(protected := protected)), Accepted)
  }

  // ----------------------------------------------------------- idle sweep

  /** What the log search and the activity query find out about a session. */
  datatype Activity = Recent | SearchFailed | Quiet(queryRunning: bool) | QuietUnknown

  datatype IdleView = IdleView(startedRecently: bool, activity: Activity)

  function IsIdle(w: Wrapper, view: IdleView): bool {
    if w.protected || w.status == StatusExporting || view.startedRecently then false
    else if w.session.None? then w.status == StatusFatal
    else view.activity == Quiet(false)
  }

  /** One clone's turn in destroyIdleClones. */
  function CheckIdle(e: Engine, id: string, view: IdleView): (Engine, Reply) {
    if !e.Has(id) then (e, NotFound)
    else if IsIdle(e.Get(id), view) then DestroyClone(e, id) else (e, NotIdle)
  }

  // ------------------------------------------------------------------ runs

  datatype Event =
    | EvCreate(request: CreateRequest, entries: seq<SnapshotEntry>)
    | EvReserve(job: nat, start: StartView)
    | EvFinishStart(job: nat, run: StartRun, undo: StopRun)
    | EvDestroy(id: string)
    | EvFinishDestroy(job: nat, pools: set<string>, stop: StopRun)
    | EvReset(id: string, snapshotID: string, latest: bool)
    | EvBeginReset(job: nat)
    | EvFinishReset(job: nat, reset: ResetView, stop: StopRun, run: StartRun, undo: StopRun)
    | EvUpdate(id: string, protected: bool)
    | EvFetch(entries: seq<SnapshotEntry>)
    | EvIdle(id: string, idle: IdleView)

  function Step(e: Engine, ev: Event): Engine {
    match ev
    case EvCreate(request, entries) => CreateClone(e, request, entries).0
    case EvReserve(job, view) => ReserveStart(e, job, view)
    case EvFinishStart(job, run, undo) => FinishStart(e, job, run, undo)
    case EvDestroy(id) => DestroyClone(e, id).0
    case EvFinishDestroy(job, pools, stop) => FinishDestroy(e, job, pools, stop)
    case EvReset(id, snapshotID, latest) => ResetClone(e, id, snapshotID, latest).0
    case EvBeginReset(job) => BeginReset(e, job)
    case EvFinishReset(job, view, stop, run, undo) => FinishReset(e, job, view, stop, run, undo)
    case EvUpdate(id, protected) => UpdateClone(e, id, protected).0
    case EvFetch(entries) => Fetch(e, entries)
    case EvIdle(id, view) => CheckIdle(e, id, view).0
  }

  function Run(e: Engine, evs: seq<Event>): Engine
    decreases |evs|
  {
    if evs == [] then e else Run(Step(e, evs[0]), evs[1..])
  }
}
