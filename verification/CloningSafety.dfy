/**
 What every run of the clone registry keeps: port exclusivity, reference
 counts, and protected clones.
 */
module CloningSafety {
  import opened Options
  import opened Provision
  import opened Cloning

  // ------------------------------------------------------------ invariant

  /** Live sessions hold pairwise distinct ports, each inside the pool and marked bound. */
  ghost predicate PortsExclusive(e: Engine) {
    && (forall t, u :: t in e.held && u in e.held && t != u ==> e.held[t] != e.held[u])
    && (forall t :: t in e.held ==> e.storage.Bound(e.held[t]))
  }

  /** Each snapshot in the box counts the registry clones that use it. */
  ghost predicate CountsExact(e: Engine) {
    forall s :: s in e.items ==> e.items[s].numClones == CountClones(e.clones, e.wrappers, s)
  }

  /** The session is live: its allocation still holds its port. */
  ghost predicate Live(e: Engine, s: Session) {
    s.token in e.held && e.held[s.token] == s.port
  }

  /** Every goroutine that stops or resets a session works on one that still has its port. */
  ghost predicate NoStaleWork(e: Engine) {
    forall j :: j in e.jobs && !e.jobs[j].Starting? && !e.jobs[j].Preparing?
                && e.jobs[j].ref in e.wrappers && e.wrappers[e.jobs[j].ref].session.Some? ==>
      Live(e, e.wrappers[e.jobs[j].ref].session.value)
  }

  ghost predicate Safe(e: Engine) {
    PortsExclusive(e) && CountsExact(e) && NoStaleWork(e)
  }

  /** What is pending on a clone: one destroy or reset, or resets that all go to the snapshot it already has. */
  datatype Stopper = By(job: nat) | Restating

  /** Who may free a held port: one registry clone, one create goroutine, or nobody any more. */
  datatype Owner = ByClone(id: string) | ByJob(job: nat)

  /**
   Registry, goroutines and allocations fit together: every session belongs to
   one owner, and every pending destroy or reset works on the wrapper the registry
   still has, alone but for resets that restate its snapshot; a reset under way
   has noted that snapshot rightly.
   */
  ghost predicate Linked(e: Engine, owner: map<nat, Owner>, stopper: map<string, Stopper>) {
    && (forall id :: id in e.clones ==>
          && e.Has(id) && e.Get(id).id == id && e.Get(id).snapshot.Some?
          && (e.Get(id).session.Some? ==>
                var s := e.Get(id).session.value; Live(e, s) && s.token in owner && owner[s.token] == ByClone(id)))
    && (forall j :: j in e.jobs ==> j < e.next && JobLinked(e, owner, stopper, j))
    && (forall ref :: ref in e.wrappers ==> ref < e.next)
    && (forall t :: t in e.held ==> t < e.next)
  }

  ghost predicate JobLinked(e: Engine, owner: map<nat, Owner>, stopper: map<string, Stopper>, j: nat)
    requires j in e.jobs
  {
    match e.jobs[j]
    case Starting(_, _) => true
    case Preparing(_, s) => Live(e, s) && s.token in owner && owner[s.token] == ByJob(j)
    case Destroying(id, ref) => StopLinked(e, stopper, id, ref) && stopper[id] == By(j)
    case Resetting(id, ref, target) => StopLinked(e, stopper, id, ref) &&
      ResetLinked(e.wrappers[ref], stopper[id], j, target)
    case Moving(id, ref, target, original) =>
      StopLinked(e, stopper, id, ref) && ResetLinked(e.wrappers[ref], stopper[id], j, target) &&
        original == e.wrappers[ref].snapshot
  }

  predicate ResetLinked(w: Wrapper, stopper: Stopper, j: nat, target: string) {
    stopper == By(j) || (stopper == Restating && Restates(w, target))
  }

  /** A reset to the very snapshot that the clone has. */
  predicate Restates(w: Wrapper, target: string) {
    target != "" && w.snapshot == Some(target)
  }

  ghost predicate StopLinked(e: Engine, stopper: map<string, Stopper>, id: string, ref: nat) {
    id in e.clones && e.clones[id] == ref && ref in e.wrappers && e.wrappers[ref].session.Some? && id in stopper
  }

  ghost predicate InvBy(e: Engine, owner: map<nat, Owner>, stopper: map<string, Stopper>) {
    PortsExclusive(e) && CountsExact(e) && Linked(e, owner, stopper)
  }

  ghost predicate Inv(e: Engine) {
    exists owner, stopper :: InvBy(e, owner, stopper)
  }

  // ------------------------------------------------------------ discipline

  ghost predicate DestroyPending(e: Engine, id: string) {
    exists j :: j in e.jobs && e.jobs[j].Destroying? && e.jobs[j].id == id
  }

  ghost predicate ResetPending(e: Engine, id: string) {
    exists j :: j in e.jobs && (e.jobs[j].Resetting? || e.jobs[j].Moving?) && e.jobs[j].id == id
  }

  ghost predicate Pending(e: Engine, id: string) {
    DestroyPending(e, id) || ResetPending(e, id)
  }

  /** Every reset pending on the clone restates its snapshot. */
  ghost predicate OnlyRestating(e: Engine, id: string)
    requires e.Has(id)
  {
    forall j :: j in e.jobs && (e.jobs[j].Resetting? || e.jobs[j].Moving?) && e.jobs[j].id == id ==>
        Restates(e.Get(id), e.jobs[j].snapshotID)
  }

  /** A reset can join what is pending on the clone: nothing, or resets that like itself restate its snapshot. */
  ghost predicate ResetFits(e: Engine, id: string, target: string)
    requires e.Has(id)
  {
    !DestroyPending(e, id) && (ResetPending(e, id) ==> Restates(e.Get(id), target) && OnlyRestating(e, id))
  }

  /**
   The discipline of safe runs, which the code does not enforce: no destroy is
   accepted, from a user or from the idle sweep, for a clone that has a destroy or
   reset pending; no reset beside a destroy, nor beside a reset unless all of them
   restate the clone's snapshot; and generated clone IDs are new.
   */
  ghost predicate Allowed(e: Engine, ev: Event) {
    match ev
    case EvCreate(request, _) => request.id == "" ==> request.generated !in e.clones
    case EvDestroy(id) => DestroyClone(e, id).1 == Accepted ==> !Pending(e, id)
    case EvReset(id, snapshotID, latest) =>
      ResetClone(e, id, snapshotID, latest).1 == Accepted ==> ResetFits(e, id, TargetOf(e.Get(id), snapshotID, latest))
    case EvIdle(id, view) => CheckIdle(e, id, view).1 == Accepted ==> !Pending(e, id)
    case _ => true
  }

  ghost predicate AllowedRun(e: Engine, evs: seq<Event>)
    decreases |evs|
  {
    evs == [] || (Allowed(e, evs[0]) && AllowedRun(Step(e, evs[0]), evs[1..]))
  }

  // ---------------------------------------------------------------- counts

  lemma {:induction false} FetchCounts(entries: seq<SnapshotEntry>, clones: map<string, nat>,
                                       wrappers: map<nat, Wrapper>)
    ensures var items := ItemsOf(entries, clones, wrappers);
      && (forall s :: s in items <==> exists k :: 0 <= k < |entries| && entries[k].id == s)
      && (forall s :: s in items ==> items[s].numClones == CountClones(clones, wrappers, s)
                                     && items[s].entry in entries && items[s].entry.id == s)
  {
    if entries != [] {
      FetchCounts(entries[..|entries| - 1], clones, wrappers);
    }
  }

  function One(b: bool): nat {
    if b then 1 else 0
  }

  lemma CountAdd(clones: map<string, nat>, wrappers: map<nat, Wrapper>, id: string, ref: nat, w: Wrapper, s: string)
    requires id !in clones && forall i :: i in clones ==> clones[i] != ref
    ensures CountClones(clones[id := ref], wrappers[ref := w], s)
            == CountClones(clones, wrappers, s) + One(w.snapshot == Some(s))
  {
    var new_ := ClonesOf(clones[id := ref], wrappers[ref := w], s);
    assert new_ == ClonesOf(clones, wrappers, s) + (if w.snapshot == Some(s) then {id} else {});
  }

  lemma CountDrop(clones: map<string, nat>, wrappers: map<nat, Wrapper>, id: string, s: string)
    requires id in clones && clones[id] in wrappers
    ensures CountClones(clones, wrappers, s)
            == CountClones(clones - {id}, wrappers, s) + One(wrappers[clones[id]].snapshot == Some(s))
  {
    var left := ClonesOf(clones - {id}, wrappers, s);
    assert ClonesOf(clones, wrappers, s) == left + (if wrappers[clones[id]].snapshot == Some(s) then {id} else {});
  }

  lemma CountReplace(clones: map<string, nat>, wrappers: map<nat, Wrapper>, id: string, w: Wrapper, s: string)
    requires id in clones && clones[id] in wrappers && forall i :: i in clones && clones[i] == clones[id] ==> i == id
    ensures CountClones(clones, wrappers[clones[id] := w], s) + One(wrappers[clones[id]].snapshot == Some(s))
            == CountClones(clones, wrappers, s) + One(w.snapshot == Some(s))
  {
    CountDrop(clones, wrappers, id, s);
    CountDrop(clones, wrappers[clones[id] := w], id, s);
    var rest := clones - {id};
    assert ClonesOf(rest, wrappers, s) == ClonesOf(rest, wrappers[clones[id] := w], s);
  }

  /** Changing anything but a clone's snapshot keeps the counts. */
  lemma SameCounts(e: Engine, id: string, w: Wrapper)
    requires CountsExact(e) && e.Has(id) && w.snapshot == e.Get(id).snapshot
    requires forall i :: i in e.clones && e.clones[i] == e.clones[id] ==> i == id
    ensures CountsExact(SetWrapper(e, e.clones[id], w))
  {
    forall s {
      CountReplace(e.clones, e.wrappers, id, w, s);
    }
  }

  // ------------------------------------------------- every step keeps Inv

  /** An engine without clones, whatever ports are bound. */
  lemma StartsSafe(st: Storage)
    ensures Inv(Engine(st, map[], map[], map[], None, map[], map[], 0))
  {
    assert InvBy(Engine(st, map[], map[], map[], None, map[], map[], 0), map[], map[]);
  }

  lemma RefUnique(e: Engine, owner: map<nat, Owner>, stopper: map<string, Stopper>, id: string)
    requires Linked(e, owner, stopper) && e.Has(id)
    ensures forall i :: i in e.clones && e.clones[i] == e.clones[id] ==> i == id
  {
  }

  /** Same clone, same snapshot, same allocation: only status, protection or pool may differ. */
  ghost predicate SameClone(a: Wrapper, b: Wrapper) {
    && a.id == b.id && a.snapshot == b.snapshot
    && (a.session.None? <==> b.session.None?)
    && (a.session.Some? ==>
          a.session.value.token == b.session.value.token && a.session.value.port == b.session.value.port)
  }

  lemma AdjustKeeps(e: Engine, owner: map<nat, Owner>, stopper: map<string, Stopper>, id: string, w: Wrapper)
    requires InvBy(e, owner, stopper) && e.Has(id) && SameClone(e.Get(id), w)
    ensures InvBy(SetWrapper(e, e.clones[id], w), owner, stopper)
  {
    RefUnique(e, owner, stopper, id);
    SameCounts(e, id, w);
    AdjustLinks(e, owner, stopper, id, w, e.items);
  }

  lemma UpdateStatusKeeps(e: Engine, owner: map<nat, Owner>, stopper: map<string, Stopper>, id: string, status: Status)
    requires InvBy(e, owner, stopper)
    ensures InvBy(UpdateStatus(e, id, status), owner, stopper)
  {
    if e.Has(id) {
      AdjustKeeps(e, owner, stopper, id, e.Get(id).(status := status));
    }
  }

  lemma FetchKeeps(e: Engine, owner: map<nat, Owner>, stopper: map<string, Stopper>, entries: seq<SnapshotEntry>)
    requires InvBy(e, owner, stopper)
    ensures InvBy(Fetch(e, entries), owner, stopper)
  {
    FetchCounts(entries, e.clones, e.wrappers);
  }

  lemma RegisterCounts(e: Engine, w: Wrapper)
    requires CountsExact(e) && w.id !in e.clones && w.snapshot.Some?
    requires forall id :: id in e.clones ==> e.clones[id] != e.next
    ensures CountsExact(Register(e, w))
  {
    forall s {
      CountAdd(e.clones, e.wrappers, w.id, e.next, w, s);
    }
  }

  lemma RegisterLinks(e: Engine, owner: map<nat, Owner>, stopper: map<string, Stopper>, w: Wrapper)
    requires Linked(e, owner, stopper) && w.id !in e.clones && w.snapshot.Some? && w.session.None?
    ensures Linked(Register(e, w), owner, stopper)
  {
  }

  lemma RegisterKeeps(e: Engine, owner: map<nat, Owner>, stopper: map<string, Stopper>, w: Wrapper)
    requires InvBy(e, owner, stopper) && w.id !in e.clones && w.snapshot.Some? && w.session.None?
    ensures InvBy(Register(e, w), owner, stopper)
  {
    RegisterCounts(e, w);
    RegisterLinks(e, owner, stopper, w);
  }

  lemma SpawnStartKeeps(e: Engine, owner: map<nat, Owner>, stopper: map<string, Stopper>, job: Job)
    requires InvBy(e, owner, stopper) && job.Starting?
    ensures InvBy(Spawn(e, job), owner, stopper)
  {
  }

  lemma SpawnDestroyKeeps(e: Engine, owner: map<nat, Owner>, stopper: map<string, Stopper>, id: string)
    requires InvBy(e, owner, stopper) && !Pending(e, id) && e.Has(id) && e.Get(id).session.Some?
    ensures InvBy(Spawn(e, Destroying(id, e.clones[id])), owner, stopper[id := By(e.next)])
  {
  }

  lemma SpawnResetKeeps(e: Engine, owner: map<nat, Owner>, stopper: map<string, Stopper>, id: string, target: string)
    returns (stopper': map<string, Stopper>)
    requires InvBy(e, owner, stopper) && e.Has(id) && e.Get(id).session.Some? && ResetFits(e, id, target)
    ensures InvBy(Spawn(e, Resetting(id, e.clones[id], target)), owner, stopper')
  {
    stopper' := stopper[id := if ResetPending(e, id) then Restating else By(e.next)];
    SameRegistry(e, Spawn(e, Resetting(id, e.clones[id], target)));
    SpawnResetLinks(e, owner, stopper, id, target);
  }

  lemma SpawnResetLinks(e: Engine, owner: map<nat, Owner>, stopper: map<string, Stopper>, id: string, target: string)
    requires Linked(e, owner, stopper) && e.Has(id) && e.Get(id).session.Some? && ResetFits(e, id, target)
    ensures Linked(Spawn(e, Resetting(id, e.clones[id], target)), owner,
                   stopper[id := if ResetPending(e, id) then Restating else By(e.next)])
  {
    var stopper' := stopper[id := if ResetPending(e, id) then Restating else By(e.next)];
    var e' := Spawn(e, Resetting(id, e.clones[id], target));
    forall j | j in e'.jobs ensures JobLinked(e', owner, stopper', j) {
      if j in e.jobs && j != e.next {
        assert JobLinked(e, owner, stopper, j);
      }
    }
  }

  /** Ending a goroutine, after calls that changed neither bound ports nor allocations. */
  lemma EndJobKeeps(e: Engine, owner: map<nat, Owner>, stopper: map<string, Stopper>, job: nat, st: Storage)
    requires InvBy(e, owner, stopper)
    requires forall t :: t in e.held ==> st.Bound(e.held[t])
    ensures InvBy(EndJob(e.(storage := st), job), owner, stopper)
  {
    SameRegistry(e, EndJob(e.(storage := st), job));
    EndJobLinks(e, owner, stopper, job, st);
  }

  lemma EndJobLinks(e: Engine, owner: map<nat, Owner>, stopper: map<string, Stopper>, job: nat, st: Storage)
    requires Linked(e, owner, stopper)
    ensures Linked(EndJob(e.(storage := st), job), owner, stopper)
  {
  }

  /** Dropping a clone keeps the counts; the guard against negative counts stays silent. */
  lemma DropCounts(e: Engine, id: string)
    requires CountsExact(e) && e.Has(id) && e.Get(id).snapshot.Some?
    ensures CountsExact(Drop(e, id, e.Get(id).snapshot))
    ensures var s := e.Get(id).snapshot.value; s in e.items ==> e.items[s].numClones > 0
  {
    forall s {
      CountDrop(e.clones, e.wrappers, id, s);
    }
  }

  lemma DropLinks(e: Engine, owner: map<nat, Owner>, stopper: map<string, Stopper>, id: string)
    requires Linked(e, owner, stopper) && e.Has(id) && !Pending(e, id)
    ensures Linked(Drop(e, id, e.Get(id).snapshot), owner, stopper)
  {
  }

  lemma DropKeeps(e: Engine, owner: map<nat, Owner>, stopper: map<string, Stopper>, id: string)
    requires InvBy(e, owner, stopper) && e.Has(id) && !Pending(e, id)
    ensures InvBy(Drop(e, id, e.Get(id).snapshot), owner, stopper)
  {
    DropCounts(e, id);
    DropLinks(e, owner, stopper, id);
  }

  /** Moving a clone to another snapshot keeps the counts; the guard against negative counts stays silent. */
  lemma MoveCounts(e: Engine, id: string, w: Wrapper)
    requires CountsExact(e) && e.Has(id) && e.Get(id).snapshot.Some? && w.snapshot.Some?
    requires forall i :: i in e.clones && e.clones[i] == e.clones[id] ==> i == id
    ensures CountsExact(Move(e, e.clones[id], w, e.Get(id).snapshot))
    ensures var s := e.Get(id).snapshot.value; s in e.items ==> e.items[s].numClones > 0
  {
    CountDrop(e.clones, e.wrappers, id, e.Get(id).snapshot.value);
    forall s {
      CountReplace(e.clones, e.wrappers, id, w, s);
    }
  }

  lemma AdjustLinks(e: Engine, owner: map<nat, Owner>, stopper: map<string, Stopper>, id: string, w: Wrapper,
                    items: map<string, Item>)
    requires Linked(e, owner, stopper) && e.Has(id) && w.snapshot.Some?
    requires SameClone(e.Get(id), w.(snapshot := e.Get(id).snapshot)) &&
      (w.snapshot == e.Get(id).snapshot || !ResetPending(e, id))
    ensures Linked(e.(wrappers := e.wrappers[e.clones[id] := w], items := items), owner, stopper)
  {
  }

  lemma MoveKeeps(e: Engine, owner: map<nat, Owner>, stopper: map<string, Stopper>, id: string, w: Wrapper)
    requires InvBy(e, owner, stopper) && e.Has(id) && w.snapshot.Some?
    requires w.snapshot == e.Get(id).snapshot || !ResetPending(e, id)
    requires SameClone(e.Get(id), w.(snapshot := e.Get(id).snapshot))
    ensures InvBy(Move(e, e.clones[id], w, e.Get(id).snapshot), owner, stopper)
  {
    RefUnique(e, owner, stopper, id);
    MoveCounts(e, id, w);
    AdjustLinks(e, owner, stopper, id, w, Move(e, e.clones[id], w, e.Get(id).snapshot).items);
  }

  lemma CreateKeeps(e: Engine, owner: map<nat, Owner>, stopper: map<string, Stopper>, request: CreateRequest,
                    entries: seq<SnapshotEntry>)
    requires InvBy(e, owner, stopper) && (request.id == "" ==> request.generated !in e.clones)
    ensures InvBy(CreateClone(e, request, entries).0, owner, stopper)
  {
    if !e.Has(request.id) {
      var e1 := Fetch(e, entries);
      FetchKeeps(e, owner, stopper, entries);
      var (e', r) := CreateClone(e, request, entries);
      if r.Accepted? {
        var w := e'.wrappers[e1.next];
        RegisterKeeps(e1, owner, stopper, w);
        SpawnStartKeeps(Register(e1, w), owner, stopper, Starting(w.id, w.snapshot.value));
      }
    }
  }

  /** A fresh allocation of an unbound port, handed to a create goroutine. */
  lemma AllotKeeps(e: Engine, owner: map<nat, Owner>, stopper: map<string, Stopper>, job: nat, session: Session)
    requires InvBy(e, owner, stopper) && job in e.jobs && e.jobs[job].Starting?
    requires e.storage.InPool(session.port) && !e.storage.Bound(session.port) && session.token == e.next
    ensures InvBy(Allot(e, job, SetPort(e.storage, session.port, true), e.jobs[job].id, session),
                  owner[e.next := ByJob(job)], stopper)
  {
    var e' := Allot(e, job, SetPort(e.storage, session.port, true), e.jobs[job].id, session);
    AllotLinks(e, owner, stopper, job, e'.storage, session);
    SameRegistry(e, e');
  }

  lemma AllotLinks(e: Engine, owner: map<nat, Owner>, stopper: map<string, Stopper>, job: nat, st: Storage,
                   session: Session)
    requires Linked(e, owner, stopper) && job in e.jobs && e.jobs[job].Starting? && session.token == e.next
    ensures Linked(Allot(e, job, st, e.jobs[job].id, session), owner[e.next := ByJob(job)], stopper)
  {
  }

  lemma SameRegistry(e: Engine, e': Engine)
    requires CountsExact(e) && e'.clones == e.clones && e'.wrappers == e.wrappers && e'.items == e.items
    ensures CountsExact(e')
  {
  }

  /** A create goroutine gives up: its clone, if still registered, is FATAL. */
  lemma GiveUpKeeps(e: Engine, owner: map<nat, Owner>, stopper: map<string, Stopper>, job: nat, st: Storage, id: string)
    requires InvBy(e, owner, stopper)
    requires forall t :: t in e.held ==> st.Bound(e.held[t])
    ensures InvBy(GiveUp(e, job, st, id), owner, stopper)
  {
    EndJobKeeps(e, owner, stopper, job, st);
    UpdateStatusKeeps(EndJob(e.(storage := st), job), owner, stopper, id, StatusFatal);
  }

  lemma ReserveKeeps(e: Engine, owner: map<nat, Owner>, stopper: map<string, Stopper>, job: nat, view: StartView)
    returns (owner': map<nat, Owner>)
    requires InvBy(e, owner, stopper)
    ensures InvBy(ReserveStart(e, job, view), owner', stopper)
  {
    owner' := owner;
    if job in e.jobs && e.jobs[job].Starting? {
      var Starting(id, snapshotID) := e.jobs[job];
      ReserveNeverUnbinds(e.storage, snapshotID, view);
      var (st, r) := Reserve(e.storage, snapshotID, view);
      if r.Refused? {
        GiveUpKeeps(e, owner, stopper, job, st, id);
      } else {
        AllotKeeps(e, owner, stopper, job, Session(e.next, r.pool, r.port));
        owner' := owner[e.next := ByJob(job)];
      }
    }
  }

  /** The create goroutine hands its session to the clone of its ID. */
  lemma FillKeeps(e: Engine, owner: map<nat, Owner>, stopper: map<string, Stopper>, job: nat, st: Storage)
    returns (owner': map<nat, Owner>)
    requires InvBy(e, owner, stopper) && job in e.jobs && e.jobs[job].Preparing?
    requires forall t :: t in e.held ==> st.Bound(e.held[t])
    ensures InvBy(FillSession(EndJob(e.(storage := st), job), e.jobs[job].id, e.jobs[job].started), owner', stopper)
  {
    owner' := owner;
    var Preparing(id, session) := e.jobs[job];
    var e1 := EndJob(e.(storage := st), job);
    EndJobKeeps(e, owner, stopper, job, st);
    if e.Has(id) {
      owner' := owner[session.token := ByClone(id)];
      RefUnique(e, owner, stopper, id);
      SameCounts(e1, id, e.Get(id).(session := Some(session), status := StatusOK));
      FillLinks(e, owner, stopper, job, st);
    }
  }

  lemma FillLinks(e: Engine, owner: map<nat, Owner>, stopper: map<string, Stopper>, job: nat, st: Storage)
    requires Linked(e, owner, stopper) && job in e.jobs && e.jobs[job].Preparing? && e.Has(e.jobs[job].id)
    requires forall i :: i in e.clones && e.clones[i] == e.clones[e.jobs[job].id] ==> i == e.jobs[job].id
    ensures Linked(FillSession(EndJob(e.(storage := st), job), e.jobs[job].id, e.jobs[job].started),
                   owner[e.jobs[job].started.token := ByClone(e.jobs[job].id)], stopper)
  {
  }

  /** Releasing an allocation that belongs to a goroutine that ended or to a clone no longer registered. */
  lemma ReleaseKeeps(e: Engine, owner: map<nat, Owner>, stopper: map<string, Stopper>, token: nat, st: Storage)
    requires InvBy(e, owner, stopper) && token in e.held && token in owner
    requires owner[token].ByJob? ==> owner[token].job !in e.jobs
    requires owner[token].ByClone? ==> owner[token].id !in e.clones
    requires OnlyPort(e.storage, st, e.held[token])
    ensures InvBy(Release(e, st, token), owner, stopper)
  {
    var e' := Release(e, st, token);
    SameRegistry(e, e');
    forall t | t in e'.held ensures st.Bound(e'.held[t]) {
      assert e.storage.Bound(e.held[t]) && e.held[t] != e.held[token];
    }
    ReleaseLinks(e, owner, stopper, token, st);
  }

  lemma ReleaseLinks(e: Engine, owner: map<nat, Owner>, stopper: map<string, Stopper>, token: nat, st: Storage)
    requires Linked(e, owner, stopper) && token in owner
    requires owner[token].ByJob? ==> owner[token].job !in e.jobs
    requires owner[token].ByClone? ==> owner[token].id !in e.clones
    ensures Linked(Release(e, st, token), owner, stopper)
  {
  }

  lemma PreparingOwns(e: Engine, owner: map<nat, Owner>, stopper: map<string, Stopper>, job: nat)
    requires InvBy(e, owner, stopper) && job in e.jobs && e.jobs[job].Preparing?
    ensures var s := e.jobs[job].started;
      s.token in e.held && e.held[s.token] == s.port && s.token in owner && owner[s.token] == ByJob(job)
    ensures forall t :: t in e.held ==> e.storage.Bound(e.held[t])
  {
    assert JobLinked(e, owner, stopper, job);
  }

  /** A start that failed lets go of its port, and its clone, if still registered, is FATAL. */
  lemma FailedStartKeeps(e: Engine, owner: map<nat, Owner>, stopper: map<string, Stopper>, job: nat, st: Storage)
    requires InvBy(e, owner, stopper) && job in e.jobs && e.jobs[job].Preparing?
    requires OnlyPort(e.storage, st, e.jobs[job].started.port)
    ensures InvBy(UpdateStatus(Release(EndJob(e, job), st, e.jobs[job].started.token), e.jobs[job].id, StatusFatal),
                  owner, stopper)
  {
    PreparingOwns(e, owner, stopper, job);
    assert e.(storage := e.storage) == e;
    EndJobKeeps(e, owner, stopper, job, e.storage);
    ReleaseKeeps(EndJob(e, job), owner, stopper, e.jobs[job].started.token, st);
    UpdateStatusKeeps(Release(EndJob(e, job), st, e.jobs[job].started.token), owner, stopper, e.jobs[job].id,
                      StatusFatal);
  }

  lemma AfterStartKeeps(e: Engine, owner: map<nat, Owner>, stopper: map<string, Stopper>, job: nat, st: Storage,
                        ok: bool)
    returns (owner': map<nat, Owner>)
    requires InvBy(e, owner, stopper) && job in e.jobs && e.jobs[job].Preparing?
    requires OnlyPort(e.storage, st, e.jobs[job].started.port) && (ok ==> st.ports == e.storage.ports)
    ensures InvBy(AfterStart(e, job, st, ok), owner', stopper)
  {
    owner' := owner;
    if ok {
      owner' := FillKeeps(e, owner, stopper, job, st);
    } else {
      FailedStartKeeps(e, owner, stopper, job, st);
    }
  }

  lemma FinishStartKeeps(e: Engine, owner: map<nat, Owner>, stopper: map<string, Stopper>, job: nat, run: StartRun,
                         undo: StopRun)
    returns (owner': map<nat, Owner>)
    requires InvBy(e, owner, stopper)
    ensures InvBy(FinishStart(e, job, run, undo), owner', stopper)
  {
    owner' := owner;
    if job in e.jobs && e.jobs[job].Preparing? {
      var session := e.jobs[job].started;
      var (st, ok) := Finish(e.storage, session.pool, session.port, run, undo);
      FinishPorts(e.storage, session.pool, session.port, run, undo);
      owner' := AfterStartKeeps(e, owner, stopper, job, st, ok);
    }
  }

  lemma DestroyKeeps(e: Engine, owner: map<nat, Owner>, stopper: map<string, Stopper>, id: string)
    returns (stopper': map<string, Stopper>)
    requires InvBy(e, owner, stopper) && Allowed(e, EvDestroy(id))
    ensures InvBy(DestroyClone(e, id).0, owner, stopper')
  {
    stopper' := stopper;
    if e.Has(id) {
      var e1 := UpdateStatus(e, id, StatusDeleting);
      UpdateStatusKeeps(e, owner, stopper, id, StatusDeleting);
      if DestroyClone(e, id).1.Accepted? {
        if e.Get(id).session.None? {
          DropKeeps(e1, owner, stopper, id);
        } else {
          SpawnDestroyKeeps(e1, owner, stopper, id);
          stopper' := stopper[id := By(e.next)];
        }
      }
    }
  }

  lemma FinishDestroyKeeps(e: Engine, owner: map<nat, Owner>, stopper: map<string, Stopper>, job: nat,
                           pools: set<string>, stop: StopRun)
    requires InvBy(e, owner, stopper)
    ensures InvBy(FinishDestroy(e, job, pools, stop), owner, stopper)
  {
    if job in e.jobs && e.jobs[job].Destroying? {
      var Destroying(id, ref) := e.jobs[job];
      assert JobLinked(e, owner, stopper, job);
      var session := e.Get(id).session.value;
      var (st, ok) := StopSession(e.storage, pools, session, stop);
      StopPorts(e.storage, pools, session, stop);
      if ok {
        var e1 := EndJob(e, job);
        EndJobKeeps(e, owner, stopper, job, e.storage);
        assert !Pending(e1, id);
        DropKeeps(e1, owner, stopper, id);
        ReleaseKeeps(Drop(e1, id, e.Get(id).snapshot), owner, stopper, session.token, st);
      } else {
        GiveUpKeeps(e, owner, stopper, job, st, id);
      }
    }
  }

  lemma ResetKeeps(e: Engine, owner: map<nat, Owner>, stopper: map<string, Stopper>, id: string, snapshotID: string,
                   latest: bool)
    returns (stopper': map<string, Stopper>)
    requires InvBy(e, owner, stopper) && Allowed(e, EvReset(id, snapshotID, latest))
    ensures InvBy(ResetClone(e, id, snapshotID, latest).0, owner, stopper')
  {
    stopper' := stopper;
    if ResetClone(e, id, snapshotID, latest).1.Accepted? {
      UpdateStatusKeeps(e, owner, stopper, id, StatusResetting);
      stopper' := SpawnResetKeeps(UpdateStatus(e, id, StatusResetting), owner, stopper, id,
                                  TargetOf(e.Get(id), snapshotID, latest));
    }
  }

  lemma BeginResetKeeps(e: Engine, owner: map<nat, Owner>, stopper: map<string, Stopper>, job: nat)
    requires InvBy(e, owner, stopper)
    ensures InvBy(BeginReset(e, job), owner, stopper)
  {
    SameRegistry(e, BeginReset(e, job));
    BeginResetLinks(e, owner, stopper, job);
  }

  lemma BeginResetLinks(e: Engine, owner: map<nat, Owner>, stopper: map<string, Stopper>, job: nat)
    requires Linked(e, owner, stopper)
    ensures Linked(BeginReset(e, job), owner, stopper)
  {
  }

  lemma FinishResetKeeps(e: Engine, owner: map<nat, Owner>, stopper: map<string, Stopper>, job: nat, view: ResetView,
                         stop: StopRun, start: StartRun, undo: StopRun)
    requires InvBy(e, owner, stopper)
    ensures InvBy(FinishReset(e, job, view, stop, start, undo), owner, stopper)
  {
    if job in e.jobs && e.jobs[job].Moving? {
      var Moving(id, ref, snapshotID, original) := e.jobs[job];
      assert JobLinked(e, owner, stopper, job);
      var w := e.Get(id);
      var (st, session, r) := ResetSession(e.storage, w.session.value, snapshotID, view, stop, start, undo);
      ResetPorts(e.storage, w.session.value, snapshotID, view, stop, start, undo);
      var e1 := EndJob(e.(storage := st), job);
      EndJobKeeps(e, owner, stopper, job, st);
      if r.None? {
        var w1 := w.(session := Some(session));
        AdjustKeeps(e1, owner, stopper, id, w1);
        UpdateStatusKeeps(SetWrapper(e1, ref, w1), owner, stopper, id, StatusFatal);
      } else {
        var w1 := w.(session := Some(session), snapshot := r);
        MovesAlone(e, owner, stopper, job, st, w1);
        MoveKeeps(e1, owner, stopper, id, w1);
        UpdateStatusKeeps(Move(e1, ref, w1, w.snapshot), owner, stopper, id, StatusOK);
      }
    }
  }

  /** When a reset moves its clone to another snapshot, no other reset of the clone is pending. */
  lemma MovesAlone(e: Engine, owner: map<nat, Owner>, stopper: map<string, Stopper>, job: nat, st: Storage, w: Wrapper)
    requires Linked(e, owner, stopper) && job in e.jobs && e.jobs[job].Moving?
    requires e.jobs[job].snapshotID != "" ==> w.snapshot == Some(e.jobs[job].snapshotID)
    ensures e.Has(e.jobs[job].id) &&
      (w.snapshot == e.Get(e.jobs[job].id).snapshot || !ResetPending(EndJob(e.(storage := st), job), e.jobs[job].id))
  {
    assert JobLinked(e, owner, stopper, job);
  }

  lemma StepKeeps(e: Engine, ev: Event)
    requires Inv(e) && Allowed(e, ev)
    ensures Inv(Step(e, ev))
  {
    var owner, stopper :| InvBy(e, owner, stopper);
    var owner', stopper' := owner, stopper;
    match ev {
      case EvCreate(request, entries) => CreateKeeps(e, owner, stopper, request, entries);
      case EvReserve(job, view) => owner' := ReserveKeeps(e, owner, stopper, job, view);
      case EvFinishStart(job, run, undo) => owner' := FinishStartKeeps(e, owner, stopper, job, run, undo);
      case EvDestroy(id) => stopper' := DestroyKeeps(e, owner, stopper, id);
      case EvFinishDestroy(job, pools, stop) => FinishDestroyKeeps(e, owner, stopper, job, pools, stop);
      case EvReset(id, snapshotID, latest) => stopper' := ResetKeeps(e, owner, stopper, id, snapshotID, latest);
      case EvBeginReset(job) => BeginResetKeeps(e, owner, stopper, job);
      case EvFinishReset(job, view, stop, run, undo) => FinishResetKeeps(e, owner, stopper, job, view, stop, run, undo);
      case EvUpdate(id, protected) =>
        if e.Has(id) {
          AdjustKeeps(e, owner, stopper, id, e.Get(id).(protected := protected));
        }
      case EvFetch(entries) => FetchKeeps(e, owner, stopper, entries);
      case EvIdle(id, view) =>
        if e.Has(id) && IsIdle(e.Get(id), view) {
          stopper' := DestroyKeeps(e, owner, stopper, id);
        }
    }
    assert InvBy(Step(e, ev), owner', stopper');
  }

  lemma InvIsSafe(e: Engine)
    requires Inv(e)
    ensures Safe(e)
  {
    var owner, stopper :| InvBy(e, owner, stopper);
    forall j | j in e.jobs && !e.jobs[j].Starting? && !e.jobs[j].Preparing?
               && e.jobs[j].ref in e.wrappers && e.wrappers[e.jobs[j].ref].session.Some?
      ensures Live(e, e.wrappers[e.jobs[j].ref].session.value)
    {
      assert JobLinked(e, owner, stopper, j);
    }
  }

  /**
   Every run of creates, destroys, resets, updates, fetches and idle checks,
   however their goroutines interleave and whatever fails, keeps ports
   exclusive, reference counts exact, and goroutines off sessions that have been
   let go.
   */
  lemma {:induction false} RunKeeps(e: Engine, evs: seq<Event>)
    requires Inv(e) && AllowedRun(e, evs)
    ensures Inv(Run(e, evs))
    ensures Safe(Run(e, evs))
    decreases |evs|
  {
    InvIsSafe(e);
    if evs != [] {
      StepKeeps(e, evs[0]);
      RunKeeps(Step(e, evs[0]), evs[1..]);
    }
  }
}
