/**
 The pool manager and the retrieval service as the objects they are
 (internal/provision/pool/pool_manager.go, internal/retrieval/retrieval.go),
 each call proved to do what module PoolQueue says it does.
 */
module PoolManagement {
  import opened Options
  import opened PoolQueue

  class PoolManager {
    /** Pool names, in the order of the linked list. */
    var fsManagerList: seq<string>
    var status: map<string, PoolStatus>
    var snapshots: map<string, seq<string>>

    predicate Valid()
      reads this
    {
      forall name :: name in fsManagerList ==> name in status && name in snapshots
    }

    constructor (list: seq<string>, status: map<string, PoolStatus>, snapshots: map<string, seq<string>>)
      requires forall name :: name in list ==> name in status && name in snapshots
      ensures Valid() && fsManagerList == list && this.status == status && this.snapshots == snapshots
    {
      fsManagerList, this.status, this.snapshots := list, status, snapshots;
    }

    /** Moves the element to the front and marks the pool now there as active. */
    method MakeActive(element: nat)
      requires Valid() && element < |fsManagerList|
      modifies this`fsManagerList, this`status
      ensures Valid()
      ensures fsManagerList == MoveToFront(old(fsManagerList), element)
      ensures status == old(status)[old(fsManagerList)[element] := ActivePool]
    {
      var name := fsManagerList[element];
      MoveKeepsElements(fsManagerList, element);
      fsManagerList := [name] + fsManagerList[..element] + fsManagerList[element + 1..];
      var first := fsManagerList[0];
      status := status[first := ActivePool];
    }

    /** The first element of that name, if there is one. */
    method GetPoolByName(poolName: string) returns (r: Option<nat>)
      ensures r.Some? <==> poolName in fsManagerList
      ensures r.Some? ==> poolName in fsManagerList && r.value == IndexOf(fsManagerList, poolName)
    {
      for k := 0 to |fsManagerList|
        invariant poolName !in fsManagerList[..k]
      {
        if fsManagerList[k] == poolName {
          assert forall i :: 0 <= i < k ==> fsManagerList[i] == fsManagerList[..k][i];
          return Some(k);
        }
      }
      return None;
    }

    /** From the back: the last element without clones, none after an error or past the front. */
    method GetPoolToUpdate(listings: map<string, Listing>) returns (r: Option<nat>)
      ensures r == PoolToUpdate(fsManagerList, listings)
    {
      var k := |fsManagerList|;
      assert fsManagerList[..k] == fsManagerList;
      while k > 0
        invariant 0 <= k <= |fsManagerList|
        invariant PoolToUpdate(fsManagerList[..k], listings) == PoolToUpdate(fsManagerList, listings)
      {
        assert fsManagerList[..k][..k - 1] == fsManagerList[..k - 1];
        k := k - 1;
        match ListingOf(listings, fsManagerList[k]) {
          case ListFailed => return None;
          case Clones(clones) =>
            if |clones| == 0 {
              return Some(k);
            }
        }
      }
      return None;
    }

    /** The pools new clones can use: active ones, never one that is being refreshed. */
    method GetActiveFSManagers() returns (fs: seq<string>)
      ensures Distinct(fs) && forall name :: name in fs <==> name in status && status[name] == ActivePool
    {
      fs := [];
      var rest := status.Keys;
      while rest != {}
        invariant rest <= status.Keys && Distinct(fs)
        invariant forall name :: name in fs <==> name in status.Keys - rest && status[name] == ActivePool
        decreases rest
      {
        var name :| name in rest;
        rest := rest - {name};
        if status[name] == ActivePool {
          fs := fs + [name];
        }
      }
    }
  }

  class Retrieval {
    const poolManager: PoolManager
    var status: RetrievalStatus
    /** The refresh whose jobs are running; in the source, the local variables of run and fullRefresh. */
    var running: Option<Running>

    function State(): Refresher
      reads this, poolManager
    {
      Refresher(poolManager.fsManagerList, poolManager.status, poolManager.snapshots, status, running)
    }

    constructor (pm: PoolManager)
      ensures poolManager == pm && State() == Refresher(pm.fsManagerList, pm.status, pm.snapshots, Inactive, None)
    {
      poolManager, status, running := pm, Inactive, None;
    }

    /** The pool prepared: no clones at a second look, no snapshots left. */
    method PreparePoolToRefresh(name: string, a: Answers) returns (ok: bool)
      requires State().Valid() && name in poolManager.snapshots
      modifies poolManager`snapshots
      ensures var prepared := Prepared(old(State()).snapshots[name], a);
        ok == prepared.1 && State() == old(State()).(snapshots := old(State()).snapshots[name := prepared.0])
    {
      assert poolManager.snapshots == poolManager.snapshots[name := poolManager.snapshots[name]];
      if a.relisting != Clones([]) || !a.snapshotsListed {
        return false;
      }
      var left := poolManager.snapshots[name];
      var n := 0;
      while left != []
        invariant n <= a.destroyed && n + |left| == |old(poolManager.snapshots)[name]|
        invariant left == old(poolManager.snapshots)[name][n..]
        invariant poolManager.snapshots == old(poolManager.snapshots)[name := left]
        decreases |left|
      {
        if n == a.destroyed {
          return false;
        }
        left, n := left[1..], n + 1;
        poolManager.snapshots := poolManager.snapshots[name := left];
      }
      return true;
    }

    /**
     What follows the jobs, or takes their place: the first pool of the name to the front, then
     the element itself.
     */
    method Activated(r: Running)
      requires State().Valid() && r.element < |poolManager.fsManagerList|
      modifies poolManager`fsManagerList, poolManager`status
      ensures State() == Activate(old(State()), r)
    {
      var byName := poolManager.GetPoolByName(poolManager.fsManagerList[r.element]);
      poolManager.MakeActive(byName.value);
      if r.full {
        poolManager.MakeActive(if byName.value == r.element then 0 else r.element);
      }
    }

    /** run until its jobs start; where it returns before, its caller goes on. */
    method StartRun(r: Running, a: Answers) returns (reply: Reply)
      requires State().Valid() && r.element < |poolManager.fsManagerList|
      modifies this, poolManager
      ensures Begun(State(), reply) == BeginRun(old(State()), r, a)
    {
      if a.readiness == Unusable {
        return Error;
      }
      if a.readiness == UnusableWithoutCause {
        if r.full {
          poolManager.MakeActive(r.element);
        }
        return Done;
      }
      if a.hasJobs {
        var name := poolManager.fsManagerList[r.element];
        poolManager.status := poolManager.status[name := RefreshingPool];
        status, running := Refreshing, Some(r);
        return Started;
      }
      Activated(r);
      return Done;
    }

    method FullRefresh(a: Answers) returns (reply: Reply)
      requires State().Valid()
      modifies this, poolManager
      ensures Begun(State(), reply) == BeginRefresh(old(State()), a)
    {
      if status == Refreshing {
        return Skipped;
      }
      var choice := poolManager.GetPoolToUpdate(a.listings);
      if choice.None? {
        return Skipped;
      }
      var prepared := PreparePoolToRefresh(poolManager.fsManagerList[choice.value], a);
      if !prepared {
        return Error;
      }
      reply := StartRun(Running(choice.value, true), a);
    }

    method GetPoolToDataRetrieving(logical: bool, listings: map<string, Listing>) returns (r: Choice)
      requires State().Valid()
      ensures r == PoolToRetrieve(State(), logical, listings)
    {
      if |poolManager.fsManagerList| == 0 {
        return NotFound;
      }
      var first := poolManager.fsManagerList[0];
      if poolManager.status[first] == EmptyPool {
        return Chosen(first);
      }
      if !logical {
        return Chosen(first);
      }
      var element := poolManager.GetPoolToUpdate(listings);
      if element.None? {
        return if poolManager.status[first] == ActivePool then NotNeeded else NotFound;
      }
      return Chosen(poolManager.fsManagerList[element.value]);
    }

    method InitialRun(logical: bool, a: Answers) returns (reply: Reply)
      requires State().Valid()
      modifies this, poolManager
      ensures Begun(State(), reply) == BeginInitial(old(State()), logical, a)
    {
      var choice := GetPoolToDataRetrieving(logical, a.listings);
      match choice {
        case NotNeeded =>
          status := Finished;
          return Skipped;
        case NotFound =>
          status := Failed;
          return Error;
        case Chosen(name) =>
          var element := poolManager.GetPoolByName(name);
          if element.None? {
            return Error;
          }
          reply := StartRun(Running(element.value, false), a);
      }
    }

    /** The jobs are over: on success the pool becomes the active one, on failure it counts as empty. */
    method JobsDone(ok: bool, made: seq<string>)
      requires State().Valid() && running.Some?
      modifies this, poolManager
      ensures State() == EndRun(old(State()), ok, made)
    {
      var r := running.value;
      var name := poolManager.fsManagerList[r.element];
      poolManager.snapshots := poolManager.snapshots[name := made];
      running := None;
      if ok {
        Activated(r);
        status := Finished;
      } else {
        poolManager.status := poolManager.status[name := EmptyPool];
        status := Failed;
      }
    }
  }
}
