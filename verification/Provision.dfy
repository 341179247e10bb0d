/**
 Ports, containers and datasets of clone sessions
 (internal/provision/mode_local.go). Docker and ZFS commands are state changes
 whose outcome the environment chooses.
 */
module Provision {
  import opened Options
  import opened Text
  import opened CloneNames

  const MAX_PORTS_TO_CHECK := 5

  /** A command succeeded, failed before it changed anything, or failed after it took effect. */
  datatype Outcome = Done | Untouched | Changed

  datatype Container = Container(pool: string, running: bool)
  datatype Dataset = Dataset(pool: string, name: string)

  /** What the provisioner and the host hold between two steps. */
  datatype Storage = Storage(
    from: nat, ports: seq<bool>, containers: map<string, Container>, datasets: set<Dataset>)
  {
    predicate InPool(port: nat) {
      from <= port < from + |ports|
    }

    predicate Bound(port: nat) {
      InPool(port) && ports[port - from]
    }
  }

  /** A clone session; `token` is the number of the allocation that gave it its port. */
  datatype Session = Session(token: nat, pool: string, port: nat)

  /** One line of the snapshot list of the active pools. */
  datatype SnapshotEntry = SnapshotEntry(id: string, pool: string, dataStateAt: string)

  // Outcomes of the commands of one call, in call order.
  datatype StopRun = StopRun(stopped: Outcome, listed: bool, destroyed: Outcome)
  datatype StartRun = StartRun(listed: bool, cloned: Outcome, started: Outcome, prepared: bool)

  // ---------------------------------------------------------------- ports

  function SetPort(st: Storage, port: nat, bind: bool): Storage {
    if st.InPool(port) then st.(ports := st.ports[port - st.from := bind]) else st
  }

  /** The scan of allocatePort from index `i`, after `attempts` refused ports. */
  function FirstFit(from: nat, ports: seq<bool>, refused: set<nat>, i: nat, attempts: nat): Option<nat>
    decreases |ports| - i
  {
    if i >= |ports| || attempts >= MAX_PORTS_TO_CHECK then None
    else if ports[i] then FirstFit(from, ports, refused, i + 1, attempts)
    else if from + i in refused then FirstFit(from, ports, refused, i + 1, attempts + 1)
    else Some(from + i)
  }

  function UnboundBefore(ports: seq<bool>, k: nat): nat
    requires k <= |ports|
  {
    if k == 0 then 0 else UnboundBefore(ports, k - 1) + (if ports[k - 1] then 0 else 1)
  }

  /** Every unbound port among the first `k` is refused by the port check. */
  ghost predicate RefusedBefore(from: nat, ports: seq<bool>, refused: set<nat>, k: nat)
    requires k <= |ports|
  {
    forall j :: 0 <= j < k && !ports[j] ==> from + j in refused
  }

  /** `port` is the first unbound port that passes the check, and fewer than five were refused before it. */
  ghost predicate IsFirstFit(from: nat, ports: seq<bool>, refused: set<nat>, port: nat) {
    && from <= port < from + |ports|
    && !ports[port - from]
    && port !in refused
    && RefusedBefore(from, ports, refused, port - from)
    && UnboundBefore(ports, port - from) < MAX_PORTS_TO_CHECK
  }

  lemma UnboundMonotone(ports: seq<bool>, j: nat, k: nat)
    requires j <= k <= |ports|
    ensures UnboundBefore(ports, j) <= UnboundBefore(ports, k)
  {
  }

  lemma {:induction false} FirstFitFrom(from: nat, ports: seq<bool>, refused: set<nat>, i: nat)
    requires i <= |ports|
    requires RefusedBefore(from, ports, refused, i)
    ensures var r := FirstFit(from, ports, refused, i, UnboundBefore(ports, i));
      && (r.Some? ==> IsFirstFit(from, ports, refused, r.value))
      && (r.None? ==> exists k :: i <= k <= |ports| && RefusedBefore(from, ports, refused, k)
                                  && (k == |ports| || UnboundBefore(ports, k) >= MAX_PORTS_TO_CHECK))
    decreases |ports| - i
  {
    if i < |ports| && UnboundBefore(ports, i) < MAX_PORTS_TO_CHECK {
      if ports[i] || from + i in refused {
        FirstFitFrom(from, ports, refused, i + 1);
      }
    }
  }

  /**
   Allocation completeness: the scan answers with a port exactly when that port
   is the first fit, and with "no room" exactly when every unbound port, or
   five unbound ports before any fit, were refused.
   */
  lemma AllocationComplete(from: nat, ports: seq<bool>, refused: set<nat>)
    ensures forall port: nat :: FirstFit(from, ports, refused, 0, 0) == Some(port) <==>
        IsFirstFit(from, ports, refused, port)
    ensures FirstFit(from, ports, refused, 0, 0) == None <==>
      exists k :: 0 <= k <= |ports| && RefusedBefore(from, ports, refused, k)
                  && (k == |ports| || UnboundBefore(ports, k) >= MAX_PORTS_TO_CHECK)
  {
    FirstFitFrom(from, ports, refused, 0);
    forall port: nat, k | IsFirstFit(from, ports, refused, port)
                     && 0 <= k <= |ports| && RefusedBefore(from, ports, refused, k)
      ensures k < |ports| && UnboundBefore(ports, k) < MAX_PORTS_TO_CHECK
    {
      if k <= port - from {
        UnboundMonotone(ports, k, port - from);
      }
    }
    forall port: nat, port': nat | IsFirstFit(from, ports, refused, port) && IsFirstFit(from, ports, refused, port')
      ensures port == port'
    {
    }
  }

  /** The port table when every bit says what the port check says. */
  function Revised(from: nat, size: nat, busy: set<nat>): seq<bool> {
    seq(size, i requires 0 <= i < size => from + i in busy)
  }

  // ----------------------------------------------- containers and datasets

  /** `zfs list` mentions the name somewhere. */
  predicate Listed(datasets: set<Dataset>, name: string) {
    exists d :: d in datasets && Contains(d.pool + "/" + d.name, name)
  }

  lemma NoSlash(p: nat)
    ensures '/' !in GetCloneName(p)
  {
  }

  /**
   While the port pool's upper bound is at most ten times its lower bound, and
   nothing but clone datasets mentions the name, being listed means that a
   clone dataset of exactly this name exists.
   */
  lemma ListedExact(datasets: set<Dataset>, from: nat, to: nat, p: nat)
    requires 0 < from < to <= 10 * from && from <= p < to
    requires forall d :: d in datasets ==> !Contains(d.pool, GetCloneName(p))
    requires forall d :: d in datasets && Contains(d.name, GetCloneName(p)) ==>
        exists q :: from <= q < to && d.name == GetCloneName(q)
    ensures Listed(datasets, GetCloneName(p)) <==> exists d :: d in datasets && d.name == GetCloneName(p)
  {
    SubstringTestExactIff(from, to);
    NoSlash(p);
    forall d | d in datasets ensures Contains(d.pool + "/" + d.name, GetCloneName(p)) <==> d.name == GetCloneName(p) {
      ContainsSplit(d.pool, '/', d.name, GetCloneName(p));
      ContainsSelf("", GetCloneName(p));
      assert "" + GetCloneName(p) == GetCloneName(p);
      if Contains(d.name, GetCloneName(p)) {
        var q :| from <= q < to && d.name == GetCloneName(q);
        assert p == q;
      }
    }
  }

  /** Removing a container; a container that does not exist is no failure. */
  function StopContainer(st: Storage, name: string, o: Outcome): (Storage, bool) {
    (if o.Untouched? then st else st.(containers := st.containers - {name}), o.Done?)
  }

  function DestroyDataset(st: Storage, pool: string, name: string, listed: bool, o: Outcome): (Storage, bool) {
    if !listed then (st, false)
    else if !Listed(st.datasets, name) then (st, true)
    else if Dataset(pool, name) !in st.datasets then (st, false)
    else (if o.Untouched? then st else st.(datasets := st.datasets - {Dataset(pool, name)}), o.Done?)
  }

  function CreateDataset(st: Storage, pool: string, name: string, listed: bool, o: Outcome): (Storage, bool) {
    if !listed then (st, false)
    else if Listed(st.datasets, name) then (st, true)
    else (if o.Untouched? then st else st.(datasets := st.datasets + {Dataset(pool, name)}), o.Done?)
  }

  /** `docker run --name`: Docker refuses a name that is in use. */
  function RunContainer(st: Storage, pool: string, name: string, o: Outcome): (Storage, bool) {
    if name in st.containers then (st, false)
    else (if o.Untouched? then st else st.(containers := st.containers[name := Container(pool, true)]), o.Done?)
  }

  /** Stop, then destroy; a failed stop ends it. */
  function TearDown(st: Storage, pool: string, name: string, run: StopRun): (Storage, bool) {
    var (st1, ok) := StopContainer(st, name, run.stopped);
    if !ok then (st1, false) else DestroyDataset(st1, pool, name, run.listed, run.destroyed)
  }

  /** revertSession: both commands are tried and their errors only logged. */
  function Revert(st: Storage, pool: string, name: string, run: StopRun): Storage {
    DestroyDataset(StopContainer(st, name, run.stopped).0, pool, name, run.listed, run.destroyed).0
  }

  function BuildUp(st: Storage, pool: string, name: string, run: StartRun): (Storage, bool) {
    var (st1, created) := CreateDataset(st, pool, name, run.listed, run.cloned);
    if !created then (st1, false)
    else
      var (st2, started) := RunContainer(st1, pool, name, run.started);
      (st2, started && run.prepared)
  }

  // -------------------------------------------------------------- sessions

  function ChooseSnapshot(list: seq<SnapshotEntry>, id: string): (r: Option<SnapshotEntry>)
    ensures r.Some? ==> r.value in list && (id != "" ==> r.value.id == id)
  {
    if list == [] then None
    else if id == "" || list[0].id == id then Some(list[0])
    else if |list| == 1 then None
    else ChooseSnapshot(list[1..], id)
  }

  datatype Reservation = Refused | Reserved(port: nat, pool: string)

  /** The world as one StartSession sees it before it runs commands. */
  datatype StartView = StartView(snapshots: seq<SnapshotEntry>, hostKnown: bool, refused: set<nat>, pools: set<string>)

  /** The first half of StartSession: snapshot, port, pool. */
  function Reserve(st: Storage, id: string, view: StartView): (Storage, Reservation) {
    var snapshot := ChooseSnapshot(view.snapshots, id);
    if snapshot.None? || !view.hostKnown then (st, Refused)
    else
      var port := FirstFit(st.from, st.ports, view.refused, 0, 0);
      if port.None? then (st, Refused)
      else
        var st1 := SetPort(st, port.value, true);
        (st1, if snapshot.value.pool in view.pools then Reserved(port.value, snapshot.value.pool) else Refused)
  }

  /** The second half: clone, container, database, or the deferred revert. */
  function Finish(st: Storage, pool: string, port: nat, run: StartRun, undo: StopRun): (Storage, bool) {
    var (st1, ok) := BuildUp(st, pool, GetCloneName(port), run);
    if ok then (st1, true)
    else (SetPort(Revert(st1, pool, GetCloneName(port), undo), port, false), false)
  }

  function StopSession(st: Storage, pools: set<string>, session: Session, run: StopRun): (Storage, bool) {
    if session.pool !in pools then (st, false)
    else
      var (st1, ok) := TearDown(st, session.pool, GetCloneName(session.port), run);
      if !ok then (st1, false) else (SetPort(st1, session.port, false), st1.InPool(session.port))
  }

  datatype ResetView = ResetView(snapshots: seq<SnapshotEntry>, pools: set<string>)

  /** ResetSession; the middle result is the session object, whose pool the call overwrites. */
  function ResetSession(st: Storage, session: Session, id: string, view: ResetView,
                              stop: StopRun, start: StartRun, undo: StopRun): (Storage, Session, Option<string>) {
    var snapshot := ChooseSnapshot(view.snapshots, id);
    if session.pool !in view.pools || snapshot.None? || snapshot.value.pool !in view.pools then (st, session, None)
    else
      var name, moved := GetCloneName(session.port), session.(pool := snapshot.value.pool);
      var (st1, stopped) := TearDown(st, session.pool, name, stop);
      if !stopped then (Revert(st1, moved.pool, name, undo), moved, None)
      else
        var (st2, built) := BuildUp(st1, moved.pool, name, start);
        if !built then (Revert(st2, moved.pool, name, undo), moved, None)
        else (st2, moved, Some(snapshot.value.id))
  }

  // ------------------------------------------------------ what calls touch

  /** Nothing but the port, container and datasets of one clone differs. */
  ghost predicate OnlyTouches(st: Storage, st': Storage, port: nat) {
    && st'.from == st.from && |st'.ports| == |st.ports|
    && (forall p: nat :: st.InPool(p) && p != port ==> st'.ports[p - st.from] == st.ports[p - st.from])
    && (forall n :: n != GetCloneName(port) ==> (n in st'.containers <==> n in st.containers))
    && (forall n :: n in st.containers && n != GetCloneName(port) ==> st'.containers[n] == st.containers[n])
    && (forall d: Dataset :: d.name != GetCloneName(port) ==> (d in st'.datasets <==> d in st.datasets))
  }

  lemma TouchesTrans(a: Storage, b: Storage, c: Storage, port: nat)
    requires OnlyTouches(a, b, port) && OnlyTouches(b, c, port)
    ensures OnlyTouches(a, c, port)
  {
    forall p: nat | a.InPool(p) && p != port ensures c.ports[p - a.from] == a.ports[p - a.from] {
      assert b.InPool(p);
    }
  }

  lemma TearDownTouches(st: Storage, pool: string, port: nat, run: StopRun)
    ensures OnlyTouches(st, TearDown(st, pool, GetCloneName(port), run).0, port)
    ensures OnlyTouches(st, Revert(st, pool, GetCloneName(port), run), port)
    ensures TearDown(st, pool, GetCloneName(port), run).0.ports == st.ports
    ensures Revert(st, pool, GetCloneName(port), run).ports == st.ports
  {
  }

  lemma BuildUpTouches(st: Storage, pool: string, port: nat, run: StartRun)
    ensures OnlyTouches(st, BuildUp(st, pool, GetCloneName(port), run).0, port)
    ensures BuildUp(st, pool, GetCloneName(port), run).0.ports == st.ports
  {
  }

  lemma UnbindTouches(st: Storage, st1: Storage, port: nat)
    requires OnlyTouches(st, st1, port)
    ensures OnlyTouches(st, SetPort(st1, port, false), port)
  {
  }

  /** No call on one session changes the port, container or datasets of another. */
  lemma StartTouchesItsOwn(st: Storage, pool: string, port: nat, start: StartRun, undo: StopRun)
    ensures OnlyTouches(st, Finish(st, pool, port, start, undo).0, port)
  {
    var name := GetCloneName(port);
    var st1 := BuildUp(st, pool, name, start).0;
    BuildUpTouches(st, pool, port, start);
    TearDownTouches(st1, pool, port, undo);
    TouchesTrans(st, st1, Revert(st1, pool, name, undo), port);
    UnbindTouches(st, Revert(st1, pool, name, undo), port);
  }

  lemma StopTouchesItsOwn(st: Storage, pools: set<string>, session: Session, stop: StopRun)
    ensures OnlyTouches(st, StopSession(st, pools, session, stop).0, session.port)
  {
    TearDownTouches(st, session.pool, session.port, stop);
    UnbindTouches(st, TearDown(st, session.pool, GetCloneName(session.port), stop).0, session.port);
  }

  lemma ResetTouchesItsOwn(st: Storage, session: Session, id: string, view: ResetView,
                           stop: StopRun, start: StartRun, undo: StopRun)
    ensures OnlyTouches(st, ResetSession(st, session, id, view, stop, start, undo).0, session.port)
    ensures ResetSession(st, session, id, view, stop, start, undo).0.ports == st.ports
  {
    var snapshot := ChooseSnapshot(view.snapshots, id);
    if session.pool in view.pools && snapshot.Some? && snapshot.value.pool in view.pools {
      var name, pool := GetCloneName(session.port), snapshot.value.pool;
      var st1 := TearDown(st, session.pool, name, stop).0;
      TearDownTouches(st, session.pool, session.port, stop);
      TearDownTouches(st1, pool, session.port, undo);
      TouchesTrans(st, st1, Revert(st1, pool, name, undo), session.port);
      var st2 := BuildUp(st1, pool, name, start).0;
      BuildUpTouches(st1, pool, session.port, start);
      TouchesTrans(st, st1, st2, session.port);
      TearDownTouches(st2, pool, session.port, undo);
      TouchesTrans(st, st2, Revert(st2, pool, name, undo), session.port);
    }
  }

  /** A reservation changes one bit, and only from unbound to bound. */
  lemma ReserveBindsOneFreePort(st: Storage, id: string, view: StartView)
    ensures var (st', r) := Reserve(st, id, view);
      || (st' == st && r.Refused?)
      || exists port: nat :: IsFirstFit(st.from, st.ports, view.refused, port)
                        && st' == SetPort(st, port, true) && (r.Refused? || r.port == port)
  {
    AllocationComplete(st.from, st.ports, view.refused);
  }

  // What each call means for ports alone.

  /** At most this one port is bound or unbound. */
  ghost predicate OnlyPort(st: Storage, st': Storage, port: nat) {
    && st'.from == st.from && |st'.ports| == |st.ports|
    && forall p: nat :: st.InPool(p) && p != port ==> st'.ports[p - st.from] == st.ports[p - st.from]
  }

  lemma FinishPorts(st: Storage, pool: string, port: nat, run: StartRun, undo: StopRun)
    ensures var (st', ok) := Finish(st, pool, port, run, undo);
      OnlyPort(st, st', port) && (if ok then st'.ports == st.ports else !st'.Bound(port))
  {
    BuildUpTouches(st, pool, port, run);
    TearDownTouches(BuildUp(st, pool, GetCloneName(port), run).0, pool, port, undo);
  }

  lemma StopPorts(st: Storage, pools: set<string>, session: Session, run: StopRun)
    ensures var (st', ok) := StopSession(st, pools, session, run);
      && OnlyPort(st, st', session.port)
      && (if ok then !st'.Bound(session.port) else st.InPool(session.port) ==> st'.ports == st.ports)
  {
  }

  lemma ResetPorts(st: Storage, session: Session, id: string, view: ResetView, stop: StopRun, start: StartRun,
                   undo: StopRun)
    ensures var (st', session', _) := ResetSession(st, session, id, view, stop, start, undo);
      && st'.from == st.from && st'.ports == st.ports
      && session'.token == session.token && session'.port == session.port
  {
    ResetTouchesItsOwn(st, session, id, view, stop, start, undo);
  }

  /** What a reservation means for ports: a success binds a free one, and nothing is ever unbound. */
  lemma ReserveNeverUnbinds(st: Storage, id: string, view: StartView)
    ensures var (st', r) := Reserve(st, id, view);
      && (r.Reserved? ==> st.InPool(r.port) && !st.Bound(r.port) && st' == SetPort(st, r.port, true))
      && (forall p: nat :: st.Bound(p) ==> st'.Bound(p))
      && st'.from == st.from && |st'.ports| == |st.ports|
  {
    ReserveBindsOneFreePort(st, id, view);
  }

  /** Port bit, container and datasets of the clone on this port are as before. */
  ghost predicate LeavesAlone(st: Storage, st': Storage, port: nat) {
    var name := GetCloneName(port);
    && st.Bound(port) && st'.Bound(port)
    && (name in st'.containers <==> name in st.containers)
    && (name in st.containers ==> st'.containers[name] == st.containers[name])
    && (forall d: Dataset :: d.name == name ==> (d in st'.datasets <==> d in st.datasets))
  }

  lemma OthersUntouched(st: Storage, st': Storage, port: nat, other: nat)
    requires OnlyTouches(st, st', other) && other != port && st.Bound(port)
    ensures LeavesAlone(st, st', port)
  {
    if GetCloneName(other) == GetCloneName(port) {
      CloneNameInjective(other, port);
    }
  }

  // --------------------------------------------------- start: all or nothing

  /** Every command of a stop, or of a clean-up, succeeds. */
  const CLEAN_STOP := StopRun(Done, true, Done)

  /** StartSession as a whole. */
  function StartSession(st: Storage, id: string, view: StartView, run: StartRun, undo: StopRun): (Storage, bool) {
    var (st1, r) := Reserve(st, id, view);
    if r.Refused? then (st1, false) else Finish(st1, r.pool, r.port, run, undo)
  }

  /** A dataset is always found by its own name. */
  lemma OwnNameListed(datasets: set<Dataset>, pool: string, name: string)
    requires Dataset(pool, name) in datasets
    ensures Listed(datasets, name)
  {
    ContainsSelf(pool + "/", name);
    assert Dataset(pool, name).pool == pool;
  }

  /** A build-up that is cleaned up again removes whatever has the clone's name. */
  lemma CleanedUp(st: Storage, pool: string, name: string, run: StartRun)
    ensures Revert(BuildUp(st, pool, name, run).0, pool, name, CLEAN_STOP) ==
      st.(containers := st.containers - {name}, datasets := st.datasets - {Dataset(pool, name)})
  {
    var st1 := BuildUp(st, pool, name, run).0;
    BuildUpAdds(st, pool, name, run);
    if Dataset(pool, name) in st1.datasets {
      OwnNameListed(st1.datasets, pool, name);
    }
    assert st1.containers - {name} == st.containers - {name};
    assert st1.datasets - {Dataset(pool, name)} == st.datasets - {Dataset(pool, name)};
  }

  lemma BuildUpAdds(st: Storage, pool: string, name: string, run: StartRun)
    ensures var st1 := BuildUp(st, pool, name, run).0;
      && st1.from == st.from && st1.ports == st.ports
      && (st1.containers == st.containers || st1.containers == st.containers[name := Container(pool, true)])
      && (st1.datasets == st.datasets || st1.datasets == st.datasets + {Dataset(pool, name)})
  {
  }

  /** Binding a free port and unbinding it again. */
  lemma BindUnbind(st: Storage, port: nat)
    requires st.InPool(port) && !st.Bound(port)
    ensures SetPort(SetPort(st, port, true), port, false) == st
  {
  }

  /** What a failed second half leaves when it can clean up. */
  lemma FailedFinish(st: Storage, pool: string, port: nat, run: StartRun)
    requires st.InPool(port) && !st.Bound(port) && !Finish(SetPort(st, port, true), pool, port, run, CLEAN_STOP).1
    ensures Finish(SetPort(st, port, true), pool, port, run, CLEAN_STOP).0 ==
      st.(containers := st.containers - {GetCloneName(port)},
          datasets := st.datasets - {Dataset(pool, GetCloneName(port))})
  {
    CleanedUp(SetPort(st, port, true), pool, GetCloneName(port), run);
    BindUnbind(st, port);
  }

  /**
   When the clean-up commands succeed, a failed start leaves everything as it
   was, unless the pool was unknown after a port had been bound, or a container
   or dataset already had the new clone's name.
   */
  lemma StartAllOrNothing(st: Storage, id: string, view: StartView, run: StartRun)
    requires !StartSession(st, id, view, run, CLEAN_STOP).1
    ensures StartSession(st, id, view, run, CLEAN_STOP).0 == st <==>
      || Reserve(st, id, view).0 == st
      || (&& Reserve(st, id, view).1.Reserved?
          && var r := Reserve(st, id, view).1;
             GetCloneName(r.port) !in st.containers && Dataset(r.pool, GetCloneName(r.port)) !in st.datasets)
  {
    ReserveNeverUnbinds(st, id, view);
    var r := Reserve(st, id, view).1;
    if r.Reserved? {
      FailedFinish(st, r.pool, r.port, run);
      assert Reserve(st, id, view).0.Bound(r.port) && !st.Bound(r.port);
      NothingRemoved(st, r.pool, GetCloneName(r.port));
    }
  }

  lemma NothingRemoved(st: Storage, pool: string, name: string)
    ensures st.(containers := st.containers - {name}, datasets := st.datasets - {Dataset(pool, name)}) == st <==>
      name !in st.containers && Dataset(pool, name) !in st.datasets
  {
  }

  /** The leak: an unknown pool is noticed only after the port has been bound. */
  lemma UnknownPoolLeaksPort(st: Storage, id: string, view: StartView, run: StartRun, undo: StopRun)
    requires ChooseSnapshot(view.snapshots, id).Some? && view.hostKnown
    requires ChooseSnapshot(view.snapshots, id).value.pool !in view.pools
    requires FirstFit(st.from, st.ports, view.refused, 0, 0).Some?
    ensures !StartSession(st, id, view, run, undo).1
    ensures var port := FirstFit(st.from, st.ports, view.refused, 0, 0).value;
      !st.Bound(port) && StartSession(st, id, view, run, undo).0.Bound(port)
  {
    AllocationComplete(st.from, st.ports, view.refused);
  }

  // ------------------------------------------ sessions that cannot be stopped

  function DatasetOf(s: Session): Dataset {
    Dataset(s.pool, GetCloneName(s.port))
  }

  /** The session's dataset is where the session says, or `zfs list` does not mention its name at all. */
  predicate CanStop(datasets: set<Dataset>, s: Session) {
    DatasetOf(s) in datasets || !Listed(datasets, GetCloneName(s.port))
  }

  /** A session can be stopped, with whatever luck, exactly when its pool is known and `CanStop` holds. */
  lemma StopPossibleIff(st: Storage, pools: set<string>, s: Session)
    ensures (exists run :: StopSession(st, pools, s, run).1) <==>
        s.pool in pools && CanStop(st.datasets, s) && st.InPool(s.port)
  {
    if s.pool in pools && CanStop(st.datasets, s) && st.InPool(s.port) {
      assert StopSession(st, pools, s, CLEAN_STOP).1;
    }
  }

  /** A session that cannot be stopped stays so: every try fails and keeps its port bound. */
  lemma StuckStays(st: Storage, pools: set<string>, s: Session, run: StopRun)
    requires !CanStop(st.datasets, s)
    ensures var (st', ok) := StopSession(st, pools, s, run);
      !ok && !CanStop(st'.datasets, s) && st'.ports == st.ports
  {
  }

  /** A stop gets as far as destroying the dataset. */
  predicate Destroys(run: StopRun) {
    run.stopped == Done && run.listed && run.destroyed != Untouched
  }

  /**
   A failed stop leaves a session that cannot be stopped any more exactly when it
   could not before, or the dataset was destroyed although the stop failed and
   another name that contains the clone's is still listed.
   */
  lemma FailedStopSticksIff(st: Storage, pools: set<string>, s: Session, run: StopRun)
    requires !StopSession(st, pools, s, run).1
    ensures !CanStop(StopSession(st, pools, s, run).0.datasets, s) <==>
      || !CanStop(st.datasets, s)
      || (&& s.pool in pools && Destroys(run)
          && DatasetOf(s) in st.datasets && Listed(st.datasets - {DatasetOf(s)}, GetCloneName(s.port)))
  {
    if DatasetOf(s) in st.datasets {
      OwnNameListed(st.datasets, s.pool, GetCloneName(s.port));
    }
  }

  /** `zfs list` mentions the session's name through a dataset other than these two. */
  ghost predicate OtherListed(datasets: set<Dataset>, s: Session, pool: string) {
    exists d :: d in datasets && d != DatasetOf(s) && d != Dataset(pool, GetCloneName(s.port))
                && Contains(d.pool + "/" + d.name, GetCloneName(s.port))
  }

  /** A clean-up destroys a dataset that is there. */
  predicate Undoes(undo: StopRun) {
    undo.listed && undo.destroyed != Untouched
  }

  /** Every command of a reset does its work. */
  predicate AllDone(stop: StopRun, start: StartRun) {
    stop.stopped == Done && stop.listed && stop.destroyed == Done && start.listed && start.started == Done &&
      start.prepared
  }

  function Removed(datasets: set<Dataset>, d: Dataset, removes: bool): set<Dataset> {
    if removes then datasets - {d} else datasets
  }

  lemma TearDownRemoves(st: Storage, pool: string, name: string, run: StopRun)
    ensures TearDown(st, pool, name, run).0.datasets == Removed(st.datasets, Dataset(pool, name), Destroys(run))
    ensures Revert(st, pool, name, run).datasets == Removed(st.datasets, Dataset(pool, name), Undoes(run))
  {
    if Dataset(pool, name) in st.datasets {
      OwnNameListed(st.datasets, pool, name);
    }
  }

  /** The datasets after each stage of a reset. */
  lemma ResetStages(st: Storage, session: Session, id: string, view: ResetView, stop: StopRun, start: StartRun,
                    undo: StopRun)
    returns (torn: set<Dataset>, built: set<Dataset>)
    requires session.pool in view.pools && ChooseSnapshot(view.snapshots, id).Some?
    requires ChooseSnapshot(view.snapshots, id).value.pool in view.pools
    ensures var pool, name := ChooseSnapshot(view.snapshots, id).value.pool, GetCloneName(session.port);
      var (st', _, r) := ResetSession(st, session, id, view, stop, start, undo);
      && torn == Removed(st.datasets, DatasetOf(session), Destroys(stop))
      && (built == torn || (built == torn + {Dataset(pool, name)} && !Listed(torn, name)))
      && st'.datasets == Removed(built, Dataset(pool, name), r.None? && Undoes(undo))
  {
    var pool, name := ChooseSnapshot(view.snapshots, id).value.pool, GetCloneName(session.port);
    var (st1, stopped) := TearDown(st, session.pool, name, stop);
    TearDownRemoves(st, session.pool, name, stop);
    torn, built := st1.datasets, st1.datasets;
    if stopped {
      var st2 := BuildUp(st1, pool, name, start).0;
      built := st2.datasets;
      BuildUpCreates(st1, pool, name, start);
      TearDownRemoves(st2, pool, name, undo);
    } else {
      TearDownRemoves(st1, pool, name, undo);
    }
  }

  lemma BuildUpCreates(st: Storage, pool: string, name: string, run: StartRun)
    ensures var built := BuildUp(st, pool, name, run).0.datasets;
      built == st.datasets || (built == st.datasets + {Dataset(pool, name)} && !Listed(st.datasets, name))
  {
  }

  /**
   Where the new pool still has a dataset of the name after the stop, a reset fails unless there
   is one to destroy and all goes well.
   */
  lemma ResetFailsUnless(st: Storage, session: Session, id: string, view: ResetView,
                         stop: StopRun, start: StartRun, undo: StopRun)
    requires session.pool in view.pools && ChooseSnapshot(view.snapshots, id).Some?
    requires ChooseSnapshot(view.snapshots, id).value.pool in view.pools
    ensures var pool, name := ChooseSnapshot(view.snapshots, id).value.pool, GetCloneName(session.port);
      Dataset(pool, name) in st.datasets && !(pool == session.pool && Destroys(stop)) ==>
        (ResetSession(st, session, id, view, stop, start, undo).2.None? <==>
         !(DatasetOf(session) in st.datasets && AllDone(stop, start)))
  {
    var pool, name := ChooseSnapshot(view.snapshots, id).value.pool, GetCloneName(session.port);
    if Dataset(pool, name) in st.datasets && !(pool == session.pool && Destroys(stop)) {
      OwnNameListed(st.datasets, pool, name);
      OwnNameListed(TearDown(st, session.pool, name, stop).0.datasets, pool, name);
    }
  }

  /**
   The exact state a reset leaves behind. It writes the new pool into the session
   before it removes the old dataset; the session then cannot be stopped exactly when its
   name is still listed elsewhere - by the old dataset in another pool, which was
   not destroyed, or by a dataset whose name contains the clone's - and it has no
   dataset in its own pool: none was there, or the stop or the clean-up of the
   failed reset destroyed it.
   */
  lemma ResetSticksIff(st: Storage, session: Session, id: string, view: ResetView,
                       stop: StopRun, start: StartRun, undo: StopRun)
    ensures var (st', session', _) := ResetSession(st, session, id, view, stop, start, undo);
      var name, snapshot := GetCloneName(session.port), ChooseSnapshot(view.snapshots, id);
      !CanStop(st'.datasets, session') <==>
        if session.pool in view.pools && snapshot.Some? && snapshot.value.pool in view.pools then
          var pool := snapshot.value.pool;
          && (|| OtherListed(st.datasets, session, pool)
              || (pool != session.pool && DatasetOf(session) in st.datasets && !Destroys(stop)))
          && !(&& Dataset(pool, name) in st.datasets && !(pool == session.pool && Destroys(stop))
               && (!Undoes(undo) || (DatasetOf(session) in st.datasets && AllDone(stop, start))))
        else !CanStop(st.datasets, session)
  {
    var snapshot := ChooseSnapshot(view.snapshots, id);
    if session.pool in view.pools && snapshot.Some? && snapshot.value.pool in view.pools {
      ResetFailsUnless(st, session, id, view, stop, start, undo);
      var torn, built := ResetStages(st, session, id, view, stop, start, undo);
      var (st', session', r) := ResetSession(st, session, id, view, stop, start, undo);
      MovedSticksIff(st.datasets, torn, built, st'.datasets, session, snapshot.value.pool, Destroys(stop),
                     r.None? && Undoes(undo));
    }
  }

  lemma MovedSticksIff(before: set<Dataset>, torn: set<Dataset>, built: set<Dataset>, left: set<Dataset>,
                       s: Session, pool: string, stopRemoves: bool, undoRemoves: bool)
    requires torn == Removed(before, DatasetOf(s), stopRemoves)
    requires built == torn || (built == torn + {Dataset(pool, GetCloneName(s.port))} &&
                               !Listed(torn, GetCloneName(s.port)))
    requires left == Removed(built, Dataset(pool, GetCloneName(s.port)), undoRemoves)
    ensures !CanStop(left, s.(pool := pool)) <==>
      && (OtherListed(before, s, pool) || (pool != s.pool && DatasetOf(s) in before && !stopRemoves))
      && !(Dataset(pool, GetCloneName(s.port)) in before && !(pool == s.pool && stopRemoves) && !undoRemoves)
  {
    var name := GetCloneName(s.port);
    if pool != s.pool && DatasetOf(s) in before && !stopRemoves {
      OwnNameListed(torn, s.pool, name);
      OwnNameListed(left, s.pool, name);
    } else if OtherListed(before, s, pool) {
      assert Listed(torn, name) && Listed(left, name);
    } else {
      assert forall d :: d in left && Contains(d.pool + "/" + d.name, name) ==> d == Dataset(pool, name);
    }
  }

  /** `zfs list` mentions the session's name only through its own dataset. */
  ghost predicate NoNamesake(datasets: set<Dataset>, s: Session) {
    forall d :: d in datasets && Contains(d.pool + "/" + d.name, GetCloneName(s.port)) ==> d == DatasetOf(s)
  }

  lemma TornDown(st: Storage, s: Session, stop: StopRun)
    requires NoNamesake(st.datasets, s) && TearDown(st, s.pool, GetCloneName(s.port), stop).1
    ensures !Listed(TearDown(st, s.pool, GetCloneName(s.port), stop).0.datasets, GetCloneName(s.port))
  {
    if DatasetOf(s) in st.datasets {
      OwnNameListed(st.datasets, s.pool, GetCloneName(s.port));
    }
  }
}
