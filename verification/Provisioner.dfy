/**
 The provisioner object (internal/provision/mode_local.go): the port table
 updated in place, and the session calls step by step, each proved to do what
 module Provision says it does.
 */
module Provisioning {
  import opened Options
  import opened CloneNames
  import opened Provision
  import opened SessionOutcomes

  /** isValidConfigModeLocal */
  predicate IsValidConfig(from: nat, to: nat) {
    from != 0 && to != 0 && from < to
  }

  class Provisioner {
    const from: nat
    const ports: array<bool>
    var containers: map<string, Container>
    var datasets: set<Dataset>

    function State(): Storage
      reads this, ports
    {
      Storage(from, ports[..], containers, datasets)
    }

    constructor (from: nat, to: nat, containers: map<string, Container>, datasets: set<Dataset>)
      requires IsValidConfig(from, to)
      ensures State() == Storage(from, seq(to - from, _ => false), containers, datasets)
      ensures fresh(ports)
    {
      this.from := from;
      this.ports := new bool[to - from](_ => false);
      this.containers := containers;
      this.datasets := datasets;
      new;
      assert ports[..] == seq(to - from, _ => false);
    }

    method SetPortStatus(port: nat, bind: bool) returns (ok: bool)
      modifies ports
      ensures ok == State().InPool(port)
      ensures State() == SetPort(old(State()), port, bind)
    {
      if port < from || port >= from + ports.Length {
        return false;
      }
      ports[port - from] := bind;
      assert ports[..] == old(ports[..])[port - from := bind];
      return true;
    }

    /** The host lookup may fail; `refused` are the ports that do not pass the availability check. */
    method AllocatePort(hostKnown: bool, refused: set<nat>) returns (r: Option<nat>)
      modifies ports
      ensures r == if hostKnown then FirstFit(from, old(ports[..]), refused, 0, 0) else None
      ensures State() == if r.Some? then SetPort(old(State()), r.value, true) else old(State())
    {
      if !hostKnown {
        return None;
      }
      var attempts := 0;
      for index := 0 to ports.Length
        invariant ports[..] == old(ports[..])
        invariant FirstFit(from, ports[..], refused, 0, 0) == FirstFit(from, ports[..], refused, index, attempts)
      {
        if attempts >= MAX_PORTS_TO_CHECK {
          break;
        }
        if ports[index] {
          continue;
        }
        var port := from + index;
        if port in refused {
          attempts := attempts + 1;
          continue;
        }
        var bound := SetPortStatus(port, true);
        return Some(port);
      }
      return None;
    }

    /** Every port of the pool is bound exactly when it answers as in use. */
    method RevisePortPool(hostKnown: bool, busy: set<nat>) returns (ok: bool)
      modifies ports
      ensures ok == hostKnown
      ensures !ok ==> State() == old(State())
      ensures ok ==> State() == old(State()).(ports := Revised(from, ports.Length, busy))
    {
      if !hostKnown {
        return false;
      }
      for port := from to from + ports.Length
        invariant forall i :: 0 <= i < port - from ==> (ports[i] <==> from + i in busy)
      {
        if port in busy {
          var bound := SetPortStatus(port, true);
          continue;
        }
        var bound := SetPortStatus(port, false);
      }
      assert ports[..] == Revised(from, ports.Length, busy);
      return true;
    }

    method StopContainer(name: string, o: Outcome) returns (ok: bool)
      modifies this`containers
      ensures (State(), ok) == Provision.StopContainer(old(State()), name, o)
    {
      if o != Untouched {
        containers := containers - {name};
      }
      return o == Done;
    }

    method RunContainer(pool: string, name: string, o: Outcome) returns (ok: bool)
      modifies this`containers
      ensures (State(), ok) == Provision.RunContainer(old(State()), pool, name, o)
    {
      if name in containers {
        return false;
      }
      if o != Untouched {
        containers := containers[name := Container(pool, true)];
      }
      return o == Done;
    }

    method CreateClone(pool: string, name: string, listed: bool, o: Outcome) returns (ok: bool)
      modifies this`datasets
      ensures (State(), ok) == CreateDataset(old(State()), pool, name, listed, o)
    {
      if !listed {
        return false;
      }
      if Listed(datasets, name) {
        return true;
      }
      if o != Untouched {
        datasets := datasets + {Dataset(pool, name)};
      }
      return o == Done;
    }

    method DestroyClone(pool: string, name: string, listed: bool, o: Outcome) returns (ok: bool)
      modifies this`datasets
      ensures (State(), ok) == DestroyDataset(old(State()), pool, name, listed, o)
    {
      if !listed {
        return false;
      }
      if !Listed(datasets, name) {
        return true;
      }
      if Dataset(pool, name) !in datasets {
        return false;
      }
      if o != Untouched {
        datasets := datasets - {Dataset(pool, name)};
      }
      return o == Done;
    }

    method RevertSession(pool: string, name: string, undo: StopRun)
      modifies this`containers, this`datasets
      ensures State() == Revert(old(State()), pool, name, undo)
    {
      var stopped := StopContainer(name, undo.stopped);
      var destroyed := DestroyClone(pool, name, undo.listed, undo.destroyed);
    }

    /** The first half of StartSession. */
    method ReserveSession(id: string, view: StartView) returns (r: Reservation)
      modifies ports
      ensures (State(), r) == Reserve(old(State()), id, view)
    {
      var snapshot := ChooseSnapshot(view.snapshots, id);
      if snapshot.None? {
        return Refused;
      }
      var port := AllocatePort(view.hostKnown, view.refused);
      if port.None? {
        return Refused;
      }
      if snapshot.value.pool !in view.pools {
        return Refused;
      }
      return Reserved(port.value, snapshot.value.pool);
    }

    /** The second half of StartSession, with its deferred revert. */
    method FinishSession(pool: string, port: nat, run: StartRun, undo: StopRun) returns (ok: bool)
      modifies this`containers, this`datasets, ports
      ensures (State(), ok) == Finish(old(State()), pool, port, run, undo)
      ensures OnlyTouches(old(State()), State(), port)
    {
      StartTouchesItsOwn(State(), pool, port, run, undo);
      var name := GetCloneName(port);
      ok := CreateClone(pool, name, run.listed, run.cloned);
      if ok {
        ok := RunContainer(pool, name, run.started);
      }
      if ok {
        ok := run.prepared;
      }
      if !ok {
        RevertSession(pool, name, undo);
        var freed := SetPortStatus(port, false);
      }
    }

    /**
     With a clean-up that succeeds, a failed start leaves everything as it was, as far as nothing
     had the new clone's name.
     */
    method StartSession(id: string, view: StartView, run: StartRun, undo: StopRun) returns (ok: bool)
      modifies this`containers, this`datasets, ports
      ensures (State(), ok) == Provision.StartSession(old(State()), id, view, run, undo)
      ensures !ok && undo == CLEAN_STOP && Reserve(old(State()), id, view).1.Reserved? ==>
        var r := Reserve(old(State()), id, view).1; var name := GetCloneName(r.port);
        (State() == old(State()) <==> name !in old(containers) && Dataset(r.pool, name) !in old(datasets))
      ensures ok <==>
        exists k: nat, port: nat :: StartReserves(old(State()), id, view, k, port) &&
          StartWorks(old(State()), port, run)
      ensures forall k: nat, port: nat ::
        StartReserves(old(State()), id, view, k, port) && StartWorks(old(State()), port, run) ==>
          RunsNow(old(State()), State(), view.snapshots[k].pool, port) && State().Bound(port)
    {
      ghost var before := State();
      StartSucceedsIff(before, id, view, run, undo);
      ReserveNeverUnbinds(before, id, view);
      if !Provision.StartSession(before, id, view, run, CLEAN_STOP).1 {
        StartAllOrNothing(before, id, view, run);
      }
      var r := ReserveSession(id, view);
      if r.Refused? {
        return false;
      }
      ok := FinishSession(r.pool, r.port, run, undo);
    }

    method StopSession(pools: set<string>, session: Session, run: StopRun) returns (ok: bool)
      modifies this`containers, this`datasets, ports
      ensures (State(), ok) == Provision.StopSession(old(State()), pools, session, run)
      ensures OnlyTouches(old(State()), State(), session.port)
      ensures ok ==> session.pool in pools && CanStop(old(datasets), session)
      ensures ok ==> GetCloneName(session.port) !in containers && DatasetOf(session) !in datasets
      ensures ok ==> !State().Bound(session.port)
    {
      if Provision.StopSession(State(), pools, session, run).1 {
        StoppedIsGone(State(), pools, session, run);
      }
      StopTouchesItsOwn(State(), pools, session, run);
      StopPossibleIff(State(), pools, session);
      if session.pool !in pools {
        return false;
      }
      var name := GetCloneName(session.port);
      ok := StopContainer(name, run.stopped);
      if !ok {
        return;
      }
      ok := DestroyClone(session.pool, name, run.listed, run.destroyed);
      if !ok {
        return;
      }
      ok := SetPortStatus(session.port, false);
    }

    /** `moved` is the session object after the call, which overwrites its pool. */
    method ResetSession(session: Session, id: string, view: ResetView, stop: StopRun, start: StartRun, undo: StopRun)
      returns (moved: Session, r: Option<string>)
      modifies this`containers, this`datasets
      ensures (State(), moved, r) == Provision.ResetSession(old(State()), session, id, view, stop, start, undo)
      ensures OnlyTouches(old(State()), State(), session.port) && State().ports == old(State()).ports
      ensures r.Some? <==>
        && (exists k: nat :: ResetFinds(session, id, view, k))
        && ResetStops(old(State()), session, stop) && ResetStarts(old(State()), session, start)
      ensures r.Some? ==> forall k: nat :: ResetFinds(session, id, view, k) ==>
        && r == Some(view.snapshots[k].id) && moved == session.(pool := view.snapshots[k].pool)
        && RunsNow(old(State()).(datasets := AfterStop(old(State()), session)), State(), moved.pool, session.port)
    {
      ResetSucceedsIff(State(), session, id, view, stop, start, undo);
      ResetTouchesItsOwn(State(), session, id, view, stop, start, undo);
      moved, r := session, None;
      if session.pool !in view.pools {
        return;
      }
      var name := GetCloneName(session.port);
      var snapshot := ChooseSnapshot(view.snapshots, id);
      if snapshot.None? {
        return;
      }
      if snapshot.value.pool != session.pool {
        if snapshot.value.pool !in view.pools {
          return;
        }
        moved := session.(pool := snapshot.value.pool);
      }
      var ok := StopContainer(name, stop.stopped);
      if ok {
        ok := DestroyClone(session.pool, name, stop.listed, stop.destroyed);
      }
      if ok {
        ok := CreateClone(moved.pool, name, start.listed, start.cloned);
        if ok {
          ok := RunContainer(moved.pool, name, start.started);
        }
        if ok {
          ok := start.prepared;
        }
      }
      if !ok {
        RevertSession(moved.pool, name, undo);
        return;
      }
      r := Some(snapshot.value.id);
    }
  }
}
