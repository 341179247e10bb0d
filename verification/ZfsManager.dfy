/**
 The ZFS manager object (internal/provision/thinclones/zfs/zfs.go) around its
 retention clean-up.
 */
module ZfsManagement {
  import opened ZfsRetention

  class Manager {
    const pool: string
    ghost var storage: Zfs

    constructor (pool: string, ghost storage: Zfs)
      ensures this.pool == pool && this.storage == storage
    {
      this.pool, this.storage := pool, storage;
    }

    /** `lines` are the fields of each line of the clone listing. */
    method GetBusySnapshotList(lines: seq<seq<string>>) returns (busySnapshots: seq<string>)
      ensures forall s :: s in busySnapshots <==> s in BusySnapshots(pool, lines)
      ensures |busySnapshots| == |UserOrigins(pool, lines)|
    {
      var systemClones: map<string, string>, userClones: set<string> := map[], {};
      for k := 0 to |lines|
        invariant systemClones == SystemClones(pool, lines[..k])
        invariant userClones == UserOrigins(pool, lines[..k])
      {
        var cloneLine := lines[k];
        assert lines[..k + 1][..k] == lines[..k] && lines[..k + 1][k] == cloneLine;
        UserOriginsStep(pool, lines, k);
        if |cloneLine| != 2 || cloneLine[1] == "-" {
          continue;
        }
        if IsUserClone(pool, cloneLine[0]) {
          userClones := userClones + {HostOf(cloneLine[1])};
          continue;
        }
        systemClones := systemClones[cloneLine[0] := cloneLine[1]];
      }
      assert lines[..|lines|] == lines;
      busySnapshots := [];
      var rest := userClones;
      while rest != {}
        invariant rest <= userClones
        invariant |busySnapshots| + |rest| == |userClones|
        invariant forall s :: s in busySnapshots <==> exists o :: o in userClones - rest && s == Lookup(systemClones, o)
        decreases rest
      {
        var userClone :| userClone in rest;
        rest := rest - {userClone};
        busySnapshots := busySnapshots + [Lookup(systemClones, userClone)];
      }
    }

    lemma UserOriginsStep(pool: string, lines: seq<seq<string>>, k: nat)
      requires k < |lines|
      ensures UserOrigins(pool, lines[..k + 1]) == UserOrigins(pool, lines[..k]) +
              (if CloneLine(lines[k]) && IsUserClone(pool, lines[k][0]) then {HostOf(lines[k][1])} else {})
    {
    }

    /** The clean-up, given the listings it reads and the destroys that fail. */
    method CleanupSnapshots(retentionLimit: nat, clonesOutput: seq<seq<string>>, listing: seq<string>,
                            ghost failing: set<string>)
      modifies this
      ensures storage == DestroyAll(old(storage), Candidates(pool, clonesOutput, listing, retentionLimit), failing)
      ensures (&& WellBuilt(old(storage), pool) && ListsClones(old(storage), pool, clonesOutput)
               && ListsPool(pool, listing)) ==>
        forall s :: s in old(storage).snapshots && HostOf(s) == pool ==>
          (s !in storage.snapshots <==> LetGo(old(storage), pool, listing, retentionLimit, failing, s))
    {
      var busySnapshots := GetBusySnapshotList(clonesOutput);
      var kept := AllButLast(WithoutClone(listing), retentionLimit);
      var busy := set s | s in busySnapshots;
      assert busy == BusySnapshots(pool, clonesOutput);
      ghost var before := storage;
      var list := ExcludeBusy(kept, busy);
      for k := 0 to |list|
        invariant DestroyAll(storage, list[k..], failing) == DestroyAll(before, list, failing)
      {
        assert list[k..][1..] == list[k + 1..];
        if list[k] !in failing {
          storage := Destroy(storage, list[k]);
        }
      }
      assert list[|list|..] == [];
      if WellBuilt(before, pool) && ListsClones(before, pool, clonesOutput) && ListsPool(pool, listing) {
        forall s | s in before.snapshots && HostOf(s) == pool
          ensures s !in storage.snapshots <==> LetGo(before, pool, listing, retentionLimit, failing, s)
        {
          PoolSnapshotGoneIff(before, pool, clonesOutput, listing, retentionLimit, failing, s);
        }
      }
    }
  }
}
