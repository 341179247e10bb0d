/**
 What the steps of the engine reach: only the session that the step's goroutine
 works on, and no port but those that are handed out, let go or leaked.
 */
module CloningReach {
  import opened Options
  import opened Provision
  import opened Cloning
  import opened CloningSafety

  // ------------------------------------------------------ one session each

  /** The event lets a goroutine make calls on the session of this allocation. */
  predicate WorksFor(e: Engine, ev: Event, t: nat) {
    match ev
    case EvFinishStart(job, _, _) => job in e.jobs && e.jobs[job].Preparing? && e.jobs[job].started.token == t
    case EvFinishDestroy(job, _, _) => job in e.jobs && e.jobs[job].Destroying? && SessionAt(e, e.jobs[job].ref, t)
    case EvFinishReset(job, _, _, _, _) => job in e.jobs && e.jobs[job].Moving? && SessionAt(e, e.jobs[job].ref, t)
    case _ => false
  }

  predicate SessionAt(e: Engine, ref: nat, t: nat) {
    ref in e.wrappers && e.wrappers[ref].session.Some? && e.wrappers[ref].session.value.token == t
  }

  /** Two allocations hold different ports, both of them bound. */
  lemma HeldApart(e: Engine, t: nat, u: nat)
    requires Inv(e) && t in e.held && u in e.held && t != u
    ensures e.held[t] != e.held[u] && e.storage.Bound(e.held[t]) && e.storage.Bound(e.held[u])
  {
    var owner, stopper :| InvBy(e, owner, stopper);
  }

  /** Numbers in use are below the next one, and what is in the registry has a wrapper. */
  lemma NumbersBelowNext(e: Engine)
    requires Inv(e)
    ensures (forall j :: j in e.jobs ==> j < e.next) && (forall ref :: ref in e.wrappers ==> ref < e.next)
    ensures forall id :: id in e.clones ==> e.Has(id)
  {
    var owner, stopper :| InvBy(e, owner, stopper);
  }

  lemma OneWrapper(e: Engine, id: string)
    requires Inv(e) && e.Has(id)
    ensures forall i :: i in e.clones && e.clones[i] == e.clones[id] ==> i == id
  {
    var owner, stopper :| InvBy(e, owner, stopper);
    RefUnique(e, owner, stopper, id);
  }

  lemma StopperHasClone(e: Engine, job: nat)
    requires Inv(e) && job in e.jobs && !e.jobs[job].Starting? && !e.jobs[job].Preparing?
    ensures e.Has(e.jobs[job].id) && e.clones[e.jobs[job].id] == e.jobs[job].ref
  {
    var owner, stopper :| InvBy(e, owner, stopper);
    assert JobLinked(e, owner, stopper, job);
  }

  lemma AloneTwice(a: Storage, b: Storage, c: Storage, port: nat)
    requires LeavesAlone(a, b, port) && LeavesAlone(b, c, port)
    ensures LeavesAlone(a, c, port)
  {
  }

  lemma StartHolds(e: Engine, job: nat)
    requires Inv(e) && job in e.jobs && e.jobs[job].Preparing?
    ensures Live(e, e.jobs[job].started)
  {
    var owner, stopper :| InvBy(e, owner, stopper);
    assert JobLinked(e, owner, stopper, job);
  }

  lemma StopHolds(e: Engine, job: nat)
    requires Inv(e) && job in e.jobs && !e.jobs[job].Starting? && !e.jobs[job].Preparing?
    ensures e.jobs[job].ref in e.wrappers && e.wrappers[e.jobs[job].ref].session.Some?
    ensures Live(e, e.wrappers[e.jobs[job].ref].session.value)
  {
    var owner, stopper :| InvBy(e, owner, stopper);
    assert JobLinked(e, owner, stopper, job);
  }

  lemma StartReaches(e: Engine, job: nat, run: StartRun, undo: StopRun, t: nat)
    requires Inv(e) && t in e.held && !WorksFor(e, EvFinishStart(job, run, undo), t)
    ensures job in e.jobs && e.jobs[job].Preparing? ==>
      LeavesAlone(e.storage, FinishStart(e, job, run, undo).storage, e.held[t])
  {
    if job in e.jobs && e.jobs[job].Preparing? {
      StartHolds(e, job);
      var s := e.jobs[job].started;
      HeldApart(e, t, s.token);
      StartTouchesItsOwn(e.storage, s.pool, s.port, run, undo);
      OthersUntouched(e.storage, Finish(e.storage, s.pool, s.port, run, undo).0, e.held[t], s.port);
    }
  }

  lemma DestroyReaches(e: Engine, job: nat, pools: set<string>, stop: StopRun, t: nat)
    requires Inv(e) && t in e.held && !WorksFor(e, EvFinishDestroy(job, pools, stop), t)
    ensures job in e.jobs && e.jobs[job].Destroying? ==>
      LeavesAlone(e.storage, FinishDestroy(e, job, pools, stop).storage, e.held[t])
  {
    if job in e.jobs && e.jobs[job].Destroying? {
      StopHolds(e, job);
      var s := e.wrappers[e.jobs[job].ref].session.value;
      HeldApart(e, t, s.token);
      StopTouchesItsOwn(e.storage, pools, s, stop);
      OthersUntouched(e.storage, StopSession(e.storage, pools, s, stop).0, e.held[t], s.port);
    }
  }

  lemma ResetReaches(e: Engine, job: nat, view: ResetView, stop: StopRun, start: StartRun, undo: StopRun, t: nat)
    requires Inv(e) && t in e.held && !WorksFor(e, EvFinishReset(job, view, stop, start, undo), t)
    ensures job in e.jobs && e.jobs[job].Moving? ==>
      LeavesAlone(e.storage, FinishReset(e, job, view, stop, start, undo).storage, e.held[t])
  {
    if job in e.jobs && e.jobs[job].Moving? {
      StopHolds(e, job);
      var s, id := e.wrappers[e.jobs[job].ref].session.value, e.jobs[job].snapshotID;
      HeldApart(e, t, s.token);
      ResetTouchesItsOwn(e.storage, s, id, view, stop, start, undo);
      OthersUntouched(e.storage, ResetSession(e.storage, s, id, view, stop, start, undo).0, e.held[t], s.port);
    }
  }

  lemma StaysBound(e: Engine, t: nat)
    requires Inv(e) && t in e.held
    ensures LeavesAlone(e.storage, e.storage, e.held[t])
  {
  }

  lemma ReserveReaches(e: Engine, job: nat, view: StartView, t: nat)
    requires Inv(e) && t in e.held
    ensures LeavesAlone(e.storage, ReserveStart(e, job, view).storage, e.held[t])
  {
    StaysBound(e, t);
    if job in e.jobs && e.jobs[job].Starting? {
      ReserveNeverUnbinds(e.storage, e.jobs[job].snapshotID, view);
    }
  }

  /** Handlers, fetches and the note of a reset make no calls. */
  lemma OthersCallNothing(e: Engine, ev: Event)
    requires !ev.EvReserve? && !ev.EvFinishStart? && !ev.EvFinishDestroy? && !ev.EvFinishReset?
    ensures Step(e, ev).storage == e.storage && Step(e, ev).held == e.held
  {
  }

  /** A step leaves the port, container and datasets of every allocation alone but the one its goroutine works for. */
  lemma StepReaches(e: Engine, ev: Event, t: nat)
    requires Inv(e) && t in e.held && !WorksFor(e, ev, t)
    ensures LeavesAlone(e.storage, Step(e, ev).storage, e.held[t])
  {
    StaysBound(e, t);
    match ev {
      case EvReserve(job, view) => ReserveReaches(e, job, view, t);
      case EvFinishStart(job, run, undo) => StartReaches(e, job, run, undo, t);
      case EvFinishDestroy(job, pools, stop) => DestroyReaches(e, job, pools, stop, t);
      case EvFinishReset(job, view, stop, run, undo) => ResetReaches(e, job, view, stop, run, undo, t);
      case _ => OthersCallNothing(e, ev);
    }
  }

  // ------------------------------------------------------------- the ports

  /** Two registered clones with sessions have different ports, and both are bound. */
  lemma ClonesApart(e: Engine, id: string, id': string)
    requires Inv(e) && id != id' && e.Has(id) && e.Has(id') && e.Get(id).session.Some? && e.Get(id').session.Some?
    ensures var p, q := e.Get(id).session.value.port, e.Get(id').session.value.port;
      p != q && e.storage.Bound(p) && e.storage.Bound(q)
  {
    var owner, stopper :| InvBy(e, owner, stopper);
  }

  ghost predicate Held(e: Engine, port: nat) {
    exists t :: t in e.held && e.held[t] == port
  }

  /** The port is bound, and no session holds it. */
  ghost predicate Loose(e: Engine, port: nat) {
    e.storage.Bound(port) && !Held(e, port)
  }

  /** A create goroutine binds the port before it finds out that it does not know the pool. */
  predicate Leaks(e: Engine, ev: Event, port: nat) {
    && ev.EvReserve? && ev.job in e.jobs && e.jobs[ev.job].Starting?
    && var snapshot := ChooseSnapshot(ev.start.snapshots, e.jobs[ev.job].snapshotID);
       && snapshot.Some? && ev.start.hostKnown && snapshot.value.pool !in ev.start.pools
       && FirstFit(e.storage.from, e.storage.ports, ev.start.refused, 0, 0) == Some(port)
  }

  lemma SamePorts(e: Engine, e': Engine, port: nat)
    requires e'.held == e.held && e'.storage.from == e.storage.from && e'.storage.ports == e.storage.ports
    ensures Loose(e', port) <==> Loose(e, port)
  {
  }

  /** A free port is bound and handed to nobody. */
  lemma LeakedPort(e: Engine, e': Engine, p: nat, port: nat)
    requires PortsExclusive(e) && e.storage.InPool(p) && !e.storage.Bound(p)
    requires e'.held == e.held && e'.storage == SetPort(e.storage, p, true)
    ensures Loose(e', port) <==> Loose(e, port) || port == p
  {
  }

  lemma ReservePorts(e: Engine, job: nat, view: StartView, port: nat)
    requires Inv(e) && job in e.jobs && e.jobs[job].Starting?
    ensures Loose(ReserveStart(e, job, view), port) <==> Loose(e, port) || Leaks(e, EvReserve(job, view), port)
  {
    InvIsSafe(e);
    NextIsNew(e);
    AllocationComplete(e.storage.from, e.storage.ports, view.refused);
    var e' := ReserveStart(e, job, view);
    var fit := FirstFit(e.storage.from, e.storage.ports, view.refused, 0, 0);
    var (st, r) := Reserve(e.storage, e.jobs[job].snapshotID, view);
    if r.Reserved? {
      AllottedPort(e, e', e.next, r.port, port);
    } else if st == e.storage {
      SamePorts(e, e', port);
    } else {
      LeakedPort(e, e', fit.value, port);
    }
  }

  lemma NextIsNew(e: Engine)
    requires Inv(e)
    ensures e.next !in e.held
  {
    var owner, stopper :| InvBy(e, owner, stopper);
  }

  /** A free port is bound and handed to a new allocation. */
  lemma AllottedPort(e: Engine, e': Engine, t: nat, p: nat, port: nat)
    requires e.storage.InPool(p) && !e.storage.Bound(p)
    requires t !in e.held && e'.held == e.held[t := p] && e'.storage == SetPort(e.storage, p, true)
    ensures Loose(e', port) <==> Loose(e, port)
  {
    if Held(e, port) {
      var u :| u in e.held && e.held[u] == port;
      assert u in e'.held && e'.held[u] == port;
    }
    assert t in e'.held && e'.held[t] == p;
  }

  lemma OtherPort(st: Storage, st': Storage, port: nat, other: nat)
    requires OnlyPort(st, st', port) && other != port
    ensures st'.Bound(other) <==> st.Bound(other)
  {
    assert st'.InPool(other) <==> st.InPool(other);
  }

  /** An allocation lets go of its port, and that is unbound. */
  lemma ReleasedPort(e: Engine, st: Storage, t: nat, port: nat)
    requires PortsExclusive(e) && t in e.held && OnlyPort(e.storage, st, e.held[t]) && !st.Bound(e.held[t])
    ensures Loose(Release(e, st, t), port) <==> Loose(e, port)
  {
    var e' := Release(e, st, t);
    assert Held(e, e.held[t]);
    if port != e.held[t] {
      OtherPort(e.storage, st, e.held[t], port);
      if Held(e, port) {
        var u :| u in e.held && e.held[u] == port;
        assert u in e'.held && e'.held[u] == port;
      }
    }
  }

  lemma StartPorts(e: Engine, job: nat, run: StartRun, undo: StopRun, port: nat)
    requires Inv(e)
    ensures Loose(FinishStart(e, job, run, undo), port) <==> Loose(e, port)
  {
    if job in e.jobs && e.jobs[job].Preparing? {
      StartHolds(e, job);
      InvIsSafe(e);
      var s, e' := e.jobs[job].started, FinishStart(e, job, run, undo);
      var (st, ok) := Finish(e.storage, s.pool, s.port, run, undo);
      FinishPorts(e.storage, s.pool, s.port, run, undo);
      if ok {
        SamePorts(e, e', port);
      } else {
        ReleasedPort(e, st, s.token, port);
        SamePorts(Release(e, st, s.token), e', port);
      }
    }
  }

  lemma DestroyPorts(e: Engine, job: nat, pools: set<string>, stop: StopRun, port: nat)
    requires Inv(e)
    ensures Loose(FinishDestroy(e, job, pools, stop), port) <==> Loose(e, port)
  {
    if job in e.jobs && e.jobs[job].Destroying? {
      StopHolds(e, job);
      InvIsSafe(e);
      var s, e' := e.wrappers[e.jobs[job].ref].session.value, FinishDestroy(e, job, pools, stop);
      var (st, ok) := StopSession(e.storage, pools, s, stop);
      StopPorts(e.storage, pools, s, stop);
      if ok {
        ReleasedPort(e, st, s.token, port);
        SamePorts(Release(e, st, s.token), e', port);
      } else {
        SamePorts(e, e', port);
      }
    }
  }

  lemma MovePorts(e: Engine, job: nat, view: ResetView, stop: StopRun, start: StartRun, undo: StopRun, port: nat)
    ensures Loose(FinishReset(e, job, view, stop, start, undo), port) <==> Loose(e, port)
  {
    var e' := FinishReset(e, job, view, stop, start, undo);
    if job in e.jobs && e.jobs[job].Moving? {
      var Moving(id, ref, snapshotID, original) := e.jobs[job];
      if ref in e.wrappers && e.wrappers[ref].session.Some? {
        ResetPorts(e.storage, e.wrappers[ref].session.value, snapshotID, view, stop, start, undo);
      }
    }
    SamePorts(e, e', port);
  }

  /** Of all steps only a leak makes a port loose, and none makes one available again. */
  lemma LooseIff(e: Engine, ev: Event, port: nat)
    requires Inv(e)
    ensures Loose(Step(e, ev), port) <==> Loose(e, port) || Leaks(e, ev, port)
  {
    match ev {
      case EvReserve(job, view) =>
        if job in e.jobs && e.jobs[job].Starting? {
          ReservePorts(e, job, view, port);
        }
      case EvFinishStart(job, run, undo) => StartPorts(e, job, run, undo, port);
      case EvFinishDestroy(job, pools, stop) => DestroyPorts(e, job, pools, stop, port);
      case EvFinishReset(job, view, stop, run, undo) => MovePorts(e, job, view, stop, run, undo, port);
      case _ =>
        OthersCallNothing(e, ev);
        SamePorts(e, Step(e, ev), port);
    }
  }

  ghost predicate LeakedAlong(e: Engine, evs: seq<Event>, port: nat)
    decreases |evs|
  {
    evs != [] && (Leaks(e, evs[0], port) || LeakedAlong(Step(e, evs[0]), evs[1..], port))
  }

  lemma {:induction false} LooseAfterRun(e: Engine, evs: seq<Event>, port: nat)
    requires Inv(e) && AllowedRun(e, evs)
    ensures Loose(Run(e, evs), port) <==> Loose(e, port) || LeakedAlong(e, evs, port)
    decreases |evs|
  {
    if evs != [] {
      LooseIff(e, evs[0], port);
      StepKeeps(e, evs[0]);
      LooseAfterRun(Step(e, evs[0]), evs[1..], port);
    }
  }

  /**
   After every run exactly these ports are bound: those that some session holds, those
   that were bound at the start and held by none, and those leaked on the way.
   */
  lemma BoundIff(e: Engine, evs: seq<Event>, port: nat)
    requires Inv(e) && AllowedRun(e, evs)
    ensures Run(e, evs).storage.Bound(port) <==>
      Held(Run(e, evs), port) || Loose(e, port) || LeakedAlong(e, evs, port)
  {
    LooseAfterRun(e, evs, port);
    RunKeeps(e, evs);
  }
}
