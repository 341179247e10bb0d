/**
 Retention clean-up of ZFS snapshots (internal/provision/thinclones/zfs/zfs.go).
 `zfs destroy -R` follows a dependency graph; the clean-up chooses what to
 destroy by text filters over two listings.
 */
module ZfsRetention {
  import opened Options
  import opened Text
  import opened CloneNames

  /** Datasets with the snapshot they were cloned from, and snapshots `dataset@name`. */
  datatype Zfs = Zfs(origins: map<string, Option<string>>, snapshots: set<string>)

  datatype Node = Filesystem(name: string) | Snap(name: string)

  /** Text before the first '@'; the whole text if there is none. */
  function HostOf(s: string): (h: string)
    ensures h <= s
  {
    if s == "" || s[0] == '@' then "" else [s[0]] + HostOf(s[1..])
  }

  /** The rest of a snapshot's text, from the '@' on. */
  function NameOf(s: string): string {
    s[|HostOf(s)|..]
  }

  // ------------------------------------------------------- zfs destroy -R

  predicate Below(child: string, parent: string) {
    parent + "/" <= child
  }

  /** Destroying `parent` with -R directly takes `child` with it. */
  predicate Depends(g: Zfs, child: Node, parent: Node) {
    match (child, parent)
    case (Filesystem(d), Snap(s)) => d in g.origins && g.origins[d] == Some(s)
    case (Filesystem(d), Filesystem(p)) => d in g.origins && p in g.origins && Below(d, p)
    case (Snap(s), Filesystem(p)) => s in g.snapshots && p in g.origins && HostOf(s) == p
    case (Snap(_), Snap(_)) => false
  }

  /** `b` is `a` or depends on it over at most `n` steps. */
  ghost predicate Within(g: Zfs, a: Node, b: Node, n: nat)
    decreases n
  {
    a == b || (n > 0 && exists m :: Depends(g, b, m) && Within(g, a, m, n - 1))
  }

  /** The snapshot `x` has the name of the snapshot `t`, in a dataset below that of `t`. */
  predicate NamedBelow(t: string, x: string) {
    NameOf(x) == NameOf(t) && Below(HostOf(x), HostOf(t))
  }

  /** What `zfs destroy -R t` starts from: -R implies -r, so snapshots of that name go in all datasets below. */
  predicate Names(t: string, x: string) {
    x == t || NamedBelow(t, x)
  }

  ghost predicate Taken(g: Zfs, t: string, b: Node) {
    exists x, n: nat :: x in g.snapshots && Names(t, x) && Within(g, Snap(x), b, n)
  }

  /** `zfs destroy -R` of a snapshot: what it names and everything that depends on that, over any number of steps. */
  ghost function Destroy(g: Zfs, t: string): Zfs {
    Zfs(map d | d in g.origins && !Taken(g, t, Filesystem(d)) :: g.origins[d],
        set s | s in g.snapshots && !Taken(g, t, Snap(s)))
  }

  /** `xargs -n1`: one destroy after the other; those in `failing` change nothing. */
  ghost function DestroyAll(g: Zfs, list: seq<string>, failing: set<string>): Zfs
    decreases |list|
  {
    if list == [] then g
    else DestroyAll(if list[0] in failing then g else Destroy(g, list[0]), list[1..], failing)
  }

  // ------------------------------------------------------------- listings

  function UserPrefix(pool: string): string {
    pool + "/" + CLONE_PREFIX
  }

  predicate IsUserClone(pool: string, d: string) {
    UserPrefix(pool) <= d
  }

  /** A line of `zfs list -o name,origin` that the busy search looks at, split into its fields. */
  predicate CloneLine(fields: seq<string>) {
    |fields| == 2 && fields[1] != "-"
  }

  /** Datasets that user clones were made in, by the origin of each. */
  function UserOrigins(pool: string, lines: seq<seq<string>>): set<string> {
    set k | 0 <= k < |lines| && CloneLine(lines[k]) && IsUserClone(pool, lines[k][0]) :: HostOf(lines[k][1])
  }

  function SystemClones(pool: string, lines: seq<seq<string>>): map<string, string> {
    if lines == [] then map[]
    else
      var last := lines[|lines| - 1];
      var rest := SystemClones(pool, lines[..|lines| - 1]);
      if CloneLine(last) && !IsUserClone(pool, last[0]) then rest[last[0] := last[1]] else rest
  }

  function Lookup(m: map<string, string>, k: string): string {
    if k in m then m[k] else ""
  }

  function BusySnapshots(pool: string, lines: seq<seq<string>>): set<string> {
    set o | o in UserOrigins(pool, lines) :: Lookup(SystemClones(pool, lines), o)
  }

  /** `grep -v clone` */
  function WithoutClone(list: seq<string>): seq<string> {
    if list == [] then []
    else (if Contains(list[0], "clone") then [] else [list[0]]) + WithoutClone(list[1..])
  }

  /** `head -n -limit` */
  function AllButLast(list: seq<string>, limit: nat): seq<string> {
    if limit <= |list| then list[..|list| - limit] else []
  }

  /** One of the alternatives of the pattern occurs in the line; the empty one occurs in every line. */
  predicate MatchesAny(line: string, patterns: set<string>) {
    exists p :: p in patterns && Contains(line, p)
  }

  /** `grep -Ev 'a|b'`, left out when nothing is busy. */
  function ExcludeBusy(list: seq<string>, busy: set<string>): seq<string> {
    if list == [] then []
    else (if MatchesAny(list[0], busy) then [] else [list[0]]) + ExcludeBusy(list[1..], busy)
  }

  /** What the clean-up destroys, given both listings. */
  function Candidates(pool: string, lines: seq<seq<string>>, listing: seq<string>, limit: nat): seq<string> {
    ExcludeBusy(AllButLast(WithoutClone(listing), limit), BusySnapshots(pool, lines))
  }

  // ------------------------------------------------------ the dataset graph

  /** The pool dataset or one of the datasets it lies in. */
  predicate Above(d: string, pool: string) {
    d == pool || Below(pool, d)
  }

  /**
   A system clone that user clones may come from: a direct child of the pool, made from a pool
   snapshot, with "clone" in its name.
   */
  ghost predicate SystemClone(g: Zfs, pool: string, d: string) {
    && d in g.origins && g.origins[d].Some? && HostOf(g.origins[d].value) == pool
    && Contains(d, "clone") && !IsUserClone(pool, d)
    && exists c :: d == pool + "/" + c && '/' !in c
  }

  ghost predicate UserCloneOk(g: Zfs, pool: string, u: string)
    requires u in g.origins
  {
    g.origins[u].Some? && (HostOf(g.origins[u].value) == pool || SystemClone(g, pool, HostOf(g.origins[u].value)))
  }

  /** The graphs Database Lab builds. */
  ghost predicate WellBuilt(g: Zfs, pool: string) {
    && pool in g.origins
    && (forall d :: d in g.origins && Above(d, pool) ==> g.origins[d] == None)
    && (forall u :: u in g.origins && IsUserClone(pool, u) ==> UserCloneOk(g, pool, u))
  }

  /** `zfs list -o name,origin -H -r pool`, in any order. */
  ghost predicate ListsClones(g: Zfs, pool: string, lines: seq<seq<string>>) {
    && (forall d :: d in g.origins && (d == pool || Below(d, pool)) && g.origins[d].Some? ==>
          [d, g.origins[d].value] in lines)
    && (forall k :: 0 <= k < |lines| && CloneLine(lines[k]) ==>
          lines[k][0] in g.origins && g.origins[lines[k][0]] == Some(lines[k][1]))
    && (forall d :: d in g.origins && g.origins[d].Some? ==> g.origins[d].value != "-")
  }

  /** `zfs list -t snapshot -r pool` shows snapshots of the pool dataset and of datasets below it. */
  predicate ListsPool(pool: string, listing: seq<string>) {
    forall t :: t in listing ==> InPool(pool, t)
  }

  predicate InPool(pool: string, t: string) {
    HostOf(t) == pool || Below(HostOf(t), pool)
  }

  // --------------------------------------------------------- text lemmas

  lemma PrefixContains(a: string, b: string, c: string)
    requires a <= b && Contains(a, c)
    ensures Contains(b, c)
  {
    var i :| 0 <= i <= |a| - |c| && OccursAt(a, c, i);
    assert b[i..i + |c|] == a[i..i + |c|];
    assert OccursAt(b, c, i);
  }

  /** Whatever a user clone lies below is the pool, something above it, or a user clone. */
  lemma ParentOfUserClone(pool: string, u: string, parent: string)
    requires IsUserClone(pool, u) && Below(u, parent)
    ensures Above(parent, pool) || IsUserClone(pool, parent)
  {
    var prefix := UserPrefix(pool);
    assert u[|parent|] == (parent + "/")[|parent|] == '/';
    assert u[..|prefix|] == prefix && forall k :: |pool| < k < |prefix| ==> prefix[k] != '/';
    if |parent| + 1 <= |pool| {
      assert (parent + "/") == u[..|parent| + 1] == pool[..|parent| + 1];
    } else if |parent| == |pool| {
      assert parent == u[..|pool|] == pool;
    } else if |parent| >= |prefix| {
      assert u[..|prefix|] == parent[..|prefix|];
    }
  }

  /** Whatever a direct child of the pool lies below is the pool or something above it. */
  lemma ParentOfChild(pool: string, c: string, parent: string)
    requires '/' !in c && Below(pool + "/" + c, parent)
    ensures Above(parent, pool)
  {
    var d := pool + "/" + c;
    assert d[|parent|] == (parent + "/")[|parent|] == '/';
    assert forall k :: |pool| < k < |d| ==> d[k] == c[k - |pool| - 1];
    if |parent| + 1 <= |pool| {
      assert (parent + "/") == d[..|parent| + 1] == pool[..|parent| + 1];
    } else if |parent| == |pool| {
      assert parent == d[..|pool|] == pool;
    }
  }

  lemma {:induction false} SystemClonesFinds(pool: string, lines: seq<seq<string>>, d: string, origin: string)
    requires [d, origin] in lines && origin != "-" && !IsUserClone(pool, d)
    requires forall k :: 0 <= k < |lines| && CloneLine(lines[k]) && lines[k][0] == d ==> lines[k][1] == origin
    ensures Lookup(SystemClones(pool, lines), d) == origin
  {
    var n := |lines| - 1;
    if lines[n] != [d, origin] {
      var k :| 0 <= k < |lines| && lines[k] == [d, origin];
      assert lines[..n][k] == [d, origin];
      SystemClonesFinds(pool, lines[..n], d, origin);
    }
  }

  lemma {:induction false} SystemClonesOnly(pool: string, lines: seq<seq<string>>, d: string)
    requires forall k :: 0 <= k < |lines| && CloneLine(lines[k]) ==> lines[k][0] != d
    ensures Lookup(SystemClones(pool, lines), d) == ""
  {
    if lines != [] {
      SystemClonesOnly(pool, lines[..|lines| - 1], d);
    }
  }

  lemma {:induction false} FilterSound(list: seq<string>, busy: set<string>)
    ensures forall x :: x in WithoutClone(list) <==> x in list && !Contains(x, "clone")
    ensures forall x :: x in ExcludeBusy(list, busy) <==> x in list && !MatchesAny(x, busy)
  {
    if list != [] {
      FilterSound(list[1..], busy);
    }
  }

  lemma CandidateSound(pool: string, lines: seq<seq<string>>, listing: seq<string>, limit: nat, t: string)
    requires t in Candidates(pool, lines, listing, limit)
    ensures t in listing && !Contains(t, "clone") && !MatchesAny(t, BusySnapshots(pool, lines))
  {
    var l1 := WithoutClone(listing);
    FilterSound(listing, {});
    FilterSound(AllButLast(l1, limit), BusySnapshots(pool, lines));
    assert forall x :: x in AllButLast(l1, limit) ==> x in l1;
  }

  /** An empty alternative matches every line, and a name matches itself. */
  lemma MatchesEmptyOrItself(t: string, patterns: set<string>)
    requires "" in patterns || t in patterns
    ensures MatchesAny(t, patterns)
  {
    assert OccursAt(t, "", 0);
    assert OccursAt(t, t, 0);
  }

  // ------------------------------------------------------- what stays clear

  /** A dataset from whose snapshots some user clone was made. */
  ghost predicate HostsUserClone(g: Zfs, pool: string, d: string) {
    exists u :: u in g.origins && IsUserClone(pool, u) && g.origins[u].Some? && HostOf(g.origins[u].value) == d
  }

  /** A candidate is no snapshot that a user clone, or a system clone under one, was made from. */
  lemma CandidateIsFree(g: Zfs, pool: string, lines: seq<seq<string>>, t: string)
    requires WellBuilt(g, pool) && ListsClones(g, pool, lines)
    requires !Contains(t, "clone") && !MatchesAny(t, BusySnapshots(pool, lines))
    ensures forall u :: u in g.origins && IsUserClone(pool, u) ==> g.origins[u] != Some(t)
    ensures forall d :: d in g.origins && HostsUserClone(g, pool, d) && d != pool ==> g.origins[d] != Some(t)
    ensures !HostsUserClone(g, pool, pool)
  {
    forall u | u in g.origins && IsUserClone(pool, u)
      ensures g.origins[u] != Some(t) && HostOf(g.origins[u].value) != pool
      ensures g.origins[HostOf(g.origins[u].value)] != Some(t)
    {
      var origin := g.origins[u].value;
      var host := HostOf(origin);
      assert UserCloneOk(g, pool, u);
      assert Below(u, pool) by { assert pool + "/" <= UserPrefix(pool) <= u; }
      var k :| 0 <= k < |lines| && lines[k] == [u, origin];
      assert CloneLine(lines[k]) && lines[k][0] == u && lines[k][1] == origin;
      assert host in UserOrigins(pool, lines);
      var busy := Lookup(SystemClones(pool, lines), host);
      assert busy in BusySnapshots(pool, lines);
      if host == pool {
        SystemClonesOnly(pool, lines, pool);
        MatchesEmptyOrItself(t, BusySnapshots(pool, lines));
        assert false;
      } else {
        assert SystemClone(g, pool, host);
        var c :| host == pool + "/" + c && '/' !in c;
        assert Below(host, pool);
        SystemClonesFinds(pool, lines, host, g.origins[host].value);
        if g.origins[host] == Some(t) {
          MatchesEmptyOrItself(t, BusySnapshots(pool, lines));
          assert false;
        }
        if origin == t {
          PrefixContains(host, t, "clone");
          assert false;
        }
      }
    }
  }

  // ----------------------------------------------- what a candidate spares

  /** The user clone itself, or a user clone it lies in. */
  predicate In(u: string, v: string) {
    u == v || Below(u, v)
  }

  /** User clones, each with those it lies in. */
  ghost predicate Closed(g: Zfs, pool: string, kept: set<string>) {
    && (forall u :: u in kept ==> u in g.origins && IsUserClone(pool, u))
    && (forall u, v :: u in kept && v in g.origins && IsUserClone(pool, v) && In(u, v) ==> v in kept)
  }

  ghost predicate Hosts(g: Zfs, kept: set<string>, d: string) {
    exists u :: u in kept && u in g.origins && g.origins[u].Some? && HostOf(g.origins[u].value) == d
  }

  ghost predicate IsOrigin(g: Zfs, kept: set<string>, s: string) {
    exists u :: u in kept && u in g.origins && g.origins[u] == Some(s)
  }

  /** The clones to keep, what they come from, the pool and its other snapshots. */
  ghost predicate Sacred(g: Zfs, pool: string, t: string, kept: set<string>, b: Node) {
    match b
    case Filesystem(d) => Above(d, pool) || d in kept || Hosts(g, kept, d)
    case Snap(s) => (s != t && HostOf(s) == pool) || IsOrigin(g, kept, s)
  }

  /** A snapshot that passes both filters. */
  ghost predicate Passes(pool: string, lines: seq<seq<string>>, t: string) {
    InPool(pool, t) && !Contains(t, "clone") && !MatchesAny(t, BusySnapshots(pool, lines))
  }

  lemma SacredIsClosed(g: Zfs, pool: string, lines: seq<seq<string>>, t: string, kept: set<string>, b: Node, m: Node)
    requires WellBuilt(g, pool) && ListsClones(g, pool, lines) && Passes(pool, lines, t) && Closed(g, pool, kept)
    requires Sacred(g, pool, t, kept, b) && Depends(g, b, m)
    ensures Sacred(g, pool, t, kept, m)
  {
    match (b, m)
    case (Filesystem(d), Snap(s)) =>
      if d in kept {
        assert IsOrigin(g, kept, s);
      } else {
        HostIsSpared(g, pool, lines, t, kept, d);
      }
    case (Filesystem(d), Filesystem(p)) =>
      if Above(d, pool) {
        AboveIsClosed(pool, d, p);
      } else if d in kept {
        ParentOfUserClone(pool, d, p);
        assert IsUserClone(pool, p) ==> In(d, p);
      } else {
        HostIsSpared(g, pool, lines, t, kept, d);
        var c :| d == pool + "/" + c && '/' !in c;
        ParentOfChild(pool, c, p);
      }
    case (Snap(s), Filesystem(p)) =>
      if IsOrigin(g, kept, s) {
        assert Hosts(g, kept, p);
      }
  }

  lemma HostIsSpared(g: Zfs, pool: string, lines: seq<seq<string>>, t: string, kept: set<string>, d: string)
    requires WellBuilt(g, pool) && ListsClones(g, pool, lines) && Passes(pool, lines, t) && Closed(g, pool, kept)
    requires Hosts(g, kept, d)
    ensures SystemClone(g, pool, d) && g.origins[d] != Some(t)
  {
    CandidateIsFree(g, pool, lines, t);
    var u :| u in kept && u in g.origins && g.origins[u].Some? && HostOf(g.origins[u].value) == d;
    assert UserCloneOk(g, pool, u) && HostsUserClone(g, pool, d);
  }

  lemma AboveIsClosed(pool: string, d: string, p: string)
    requires Above(d, pool) && Below(d, p)
    ensures Above(p, pool)
  {
  }

  /** The destroy of `t` names the snapshot that one of these clones was made from. */
  ghost predicate NamesOrigin(g: Zfs, kept: set<string>, t: string) {
    exists x :: IsOrigin(g, kept, x) && NamedBelow(t, x)
  }

  /** What a destroy starts from is not sacred unless it has the name of a clone's origin. */
  lemma NothingSacredNamed(g: Zfs, pool: string, lines: seq<seq<string>>, t: string, kept: set<string>, x: string)
    requires WellBuilt(g, pool) && ListsClones(g, pool, lines) && Passes(pool, lines, t) && Closed(g, pool, kept)
    requires !NamesOrigin(g, kept, t) && Names(t, x)
    ensures !Sacred(g, pool, t, kept, Snap(x))
  {
    CandidateIsFree(g, pool, lines, t);
  }

  lemma {:induction false} NothingSacredWithin(g: Zfs, pool: string, lines: seq<seq<string>>, t: string,
                                               kept: set<string>, x: string, b: Node, n: nat)
    requires WellBuilt(g, pool) && ListsClones(g, pool, lines) && Passes(pool, lines, t) && Closed(g, pool, kept)
    requires !NamesOrigin(g, kept, t) && Names(t, x) && Sacred(g, pool, t, kept, b)
    ensures !Within(g, Snap(x), b, n)
    decreases n
  {
    NothingSacredNamed(g, pool, lines, t, kept, x);
    if Within(g, Snap(x), b, n) {
      var m :| Depends(g, b, m) && Within(g, Snap(x), m, n - 1);
      SacredIsClosed(g, pool, lines, t, kept, b, m);
      NothingSacredWithin(g, pool, lines, t, kept, x, m, n - 1);
    }
  }

  /** Nothing sacred is taken with a candidate, however far its destroy reaches. */
  lemma NothingSacredTaken(g: Zfs, pool: string, lines: seq<seq<string>>, t: string, kept: set<string>, b: Node)
    requires WellBuilt(g, pool) && ListsClones(g, pool, lines) && Passes(pool, lines, t) && Closed(g, pool, kept)
    requires !NamesOrigin(g, kept, t) && Sacred(g, pool, t, kept, b)
    ensures !Taken(g, t, b)
  {
    if Taken(g, t, b) {
      var x, n: nat :| x in g.snapshots && Names(t, x) && Within(g, Snap(x), b, n);
      NothingSacredWithin(g, pool, lines, t, kept, x, b, n);
    }
  }

  // --------------------------------------------------------- the clean-up

  /** `g'` is what is left of `g`. */
  ghost predicate LeftOf(g': Zfs, g: Zfs) {
    && g'.origins.Keys <= g.origins.Keys && (forall d :: d in g'.origins ==> g'.origins[d] == g.origins[d])
    && g'.snapshots <= g.snapshots
  }

  lemma {:induction false} WithinLeft(g': Zfs, g: Zfs, a: Node, b: Node, n: nat)
    requires LeftOf(g', g) && Within(g', a, b, n)
    ensures Within(g, a, b, n)
    decreases n
  {
    if a != b {
      var m :| Depends(g', b, m) && Within(g', a, m, n - 1);
      WithinLeft(g', g, a, m, n - 1);
      assert Depends(g, b, m);
    }
  }

  /** Everything in `keep` is still there. */
  ghost predicate StillThere(g: Zfs, keep: set<Node>) {
    forall b :: b in keep ==>
      match b
      case Filesystem(d) => d in g.origins
      case Snap(s) => s in g.snapshots
  }

  /** What no destroy of the list takes stays through the whole list. */
  lemma {:induction false} DestroyAllKeeps(g0: Zfs, g: Zfs, list: seq<string>, failing: set<string>, keep: set<Node>)
    requires LeftOf(g, g0) && StillThere(g, keep)
    requires forall t, b :: t in list && t !in failing && b in keep ==> !Taken(g0, t, b)
    ensures LeftOf(DestroyAll(g, list, failing), g0) && StillThere(DestroyAll(g, list, failing), keep)
    decreases |list|
  {
    if list != [] {
      var g1 := if list[0] in failing then g else Destroy(g, list[0]);
      forall b | list[0] !in failing && b in keep && Taken(g, list[0], b) ensures false {
        var x, n: nat :| x in g.snapshots && Names(list[0], x) && Within(g, Snap(x), b, n);
        WithinLeft(g, g0, Snap(x), b, n);
      }
      DestroyAllKeeps(g0, g1, list[1..], failing, keep);
    }
  }

  /**
   Some destroy that does not fail has the snapshot name of an origin of `u`, or of a user clone
   `u` lies in, in a dataset below.
   */
  ghost predicate Hit(g: Zfs, pool: string, list: seq<string>, failing: set<string>, u: string) {
    exists v, t :: (&& v in g.origins && IsUserClone(pool, v) && In(u, v) && g.origins[v].Some?
                    && t in list && t !in failing && NamedBelow(t, g.origins[v].value))
  }

  ghost function Missed(g: Zfs, pool: string, list: seq<string>, failing: set<string>): set<string> {
    set u | u in g.origins && IsUserClone(pool, u) && !Hit(g, pool, list, failing, u)
  }

  lemma InIsTransitive(u: string, v: string, w: string)
    requires In(u, v) && In(v, w)
    ensures In(u, w)
  {
  }

  lemma MissedClosed(g: Zfs, pool: string, list: seq<string>, failing: set<string>)
    ensures Closed(g, pool, Missed(g, pool, list, failing))
    ensures forall t :: t in list && t !in failing ==> !NamesOrigin(g, Missed(g, pool, list, failing), t)
  {
    var kept := Missed(g, pool, list, failing);
    forall u, v | u in kept && v in g.origins && IsUserClone(pool, v) && In(u, v) ensures v in kept {
      if Hit(g, pool, list, failing, v) {
        var w, t :| (&& w in g.origins && IsUserClone(pool, w) && In(v, w) && g.origins[w].Some?
                     && t in list && t !in failing && NamedBelow(t, g.origins[w].value));
        InIsTransitive(u, v, w);
      }
    }
    forall t | t in list && t !in failing && NamesOrigin(g, kept, t) ensures false {
      var x :| IsOrigin(g, kept, x) && NamedBelow(t, x);
      var u :| u in kept && g.origins[u] == Some(x);
      assert In(u, u);
    }
  }

  lemma MissedClonesStay(g: Zfs, pool: string, lines: seq<seq<string>>, listing: seq<string>, limit: nat,
                         failing: set<string>)
    requires WellBuilt(g, pool) && ListsClones(g, pool, lines) && ListsPool(pool, listing)
    ensures var list := Candidates(pool, lines, listing, limit);
      forall u :: u in Missed(g, pool, list, failing) ==> u in DestroyAll(g, list, failing).origins
  {
    var list := Candidates(pool, lines, listing, limit);
    var kept := Missed(g, pool, list, failing);
    var keep := set u | u in kept :: Filesystem(u);
    MissedClosed(g, pool, list, failing);
    forall t, b | t in list && t !in failing && b in keep ensures !Taken(g, t, b) {
      CandidateSound(pool, lines, listing, limit, t);
      NothingSacredTaken(g, pool, lines, t, kept, b);
    }
    DestroyAllKeeps(g, g, list, failing, keep);
    forall u | u in kept ensures u in DestroyAll(g, list, failing).origins {
      assert Filesystem(u) in keep;
    }
  }

  /** Snapshots that datasets were made from exist. */
  ghost predicate OriginsExist(g: Zfs) {
    forall d :: d in g.origins && g.origins[d].Some? ==> g.origins[d].value in g.snapshots
  }

  lemma DependentTaken(g: Zfs, t: string, b: Node, m: Node)
    requires Depends(g, b, m) && Taken(g, t, m)
    ensures Taken(g, t, b)
  {
    var x, n: nat :| x in g.snapshots && Names(t, x) && Within(g, Snap(x), m, n);
    assert Within(g, Snap(x), b, n + 1);
  }

  lemma DestroyLeaves(g: Zfs, t: string)
    requires OriginsExist(g)
    ensures OriginsExist(Destroy(g, t)) && LeftOf(Destroy(g, t), g)
  {
    forall d | d in Destroy(g, t).origins && g.origins[d].Some?
      ensures g.origins[d].value in Destroy(g, t).snapshots
    {
      var s := g.origins[d].value;
      if Taken(g, t, Snap(s)) {
        DependentTaken(g, t, Filesystem(d), Snap(s));
      }
    }
  }

  /** A destroy that names the origin of `v` takes `v` and the datasets below it. */
  lemma NamedTakes(g: Zfs, t: string, v: string, u: string)
    requires OriginsExist(g) && v in g.origins && g.origins[v].Some? && NamedBelow(t, g.origins[v].value)
    requires u in g.origins && In(u, v)
    ensures u !in Destroy(g, t).origins
  {
    var x := g.origins[v].value;
    assert Within(g, Snap(x), Snap(x), 0);
    DependentTaken(g, t, Filesystem(v), Snap(x));
    if u != v {
      DependentTaken(g, t, Filesystem(u), Filesystem(v));
    }
  }

  /**
   Whatever was destroyed before: a dataset whose origin is named by a destroy of the list goes,
   with all below it.
   */
  lemma {:induction false} HitIsLost(g: Zfs, list: seq<string>, failing: set<string>, t: string, v: string, u: string)
    requires OriginsExist(g) && v in g.origins && g.origins[v].Some? && NamedBelow(t, g.origins[v].value)
    requires u in g.origins && In(u, v) && t in list && t !in failing
    ensures u !in DestroyAll(g, list, failing).origins
    decreases |list|
  {
    var g1 := if list[0] in failing then g else Destroy(g, list[0]);
    DestroyLeaves(g, list[0]);
    if u in g1.origins && v !in g1.origins {
      DependentTaken(g, list[0], Filesystem(u), Filesystem(v));
    } else if t == list[0] {
      NamedTakes(g, t, v, u);
    }
    if u in g1.origins {
      HitIsLost(g1, list[1..], failing, t, v, u);
    } else {
      DestroyAllKeeps(g1, g1, list[1..], failing, {});
    }
  }

  /**
   Which user clones the clean-up destroys, however its listings are ordered,
   whichever destroys fail, and however far each one reaches: exactly those
   where a candidate of a destroy that works has the snapshot name of their
   origin, in a dataset above that of the origin.
   */
  lemma UserCloneLostIff(g: Zfs, pool: string, lines: seq<seq<string>>, listing: seq<string>, limit: nat,
                         failing: set<string>, u: string)
    requires WellBuilt(g, pool) && OriginsExist(g) && ListsClones(g, pool, lines) && ListsPool(pool, listing)
    requires u in g.origins && IsUserClone(pool, u)
    ensures var list := Candidates(pool, lines, listing, limit);
      u !in DestroyAll(g, list, failing).origins <==> Hit(g, pool, list, failing, u)
  {
    var list := Candidates(pool, lines, listing, limit);
    MissedClonesStay(g, pool, lines, listing, limit, failing);
    if Hit(g, pool, list, failing, u) {
      var v, t :| (&& v in g.origins && IsUserClone(pool, v) && In(u, v) && g.origins[v].Some?
                   && t in list && t !in failing && NamedBelow(t, g.origins[v].value));
      HitIsLost(g, list, failing, t, v, u);
    }
  }

  /** The clean-up only takes away. */
  lemma CleanupLeaves(g: Zfs, list: seq<string>, failing: set<string>)
    ensures LeftOf(DestroyAll(g, list, failing), g)
  {
    DestroyAllKeeps(g, g, list, failing, {});
  }

  predicate EndsWith(s: string, suffix: string) {
    |suffix| <= |s| && s[|s| - |suffix|..] == suffix
  }

  /**
   What a candidate is called ends in the suffix by which snapshots are kept
   from being cloned, and no user clone was made from one that ends in it.
   */
  ghost predicate SuffixKeepsApart(g: Zfs, pool: string, listing: seq<string>, suffix: string) {
    && (forall t :: t in listing && !Contains(t, "clone") ==> EndsWith(NameOf(t), suffix))
    && (forall u :: u in g.origins && IsUserClone(pool, u) && g.origins[u].Some? ==>
          !EndsWith(g.origins[u].value, suffix))
  }

  lemma EndOfName(t: string, x: string, suffix: string)
    requires EndsWith(NameOf(t), suffix) && NameOf(x) == NameOf(t)
    ensures EndsWith(x, suffix)
  {
    var n := |NameOf(x)| - |suffix|;
    assert x[|HostOf(x)| + n..] == NameOf(x)[n..];
  }

  /** With names so chosen no user clone is lost. */
  lemma CleanupSparesUserClones(g: Zfs, pool: string, lines: seq<seq<string>>, listing: seq<string>, limit: nat,
                                failing: set<string>, suffix: string)
    requires WellBuilt(g, pool) && ListsClones(g, pool, lines) && ListsPool(pool, listing)
    requires SuffixKeepsApart(g, pool, listing, suffix)
    ensures var g' := DestroyAll(g, Candidates(pool, lines, listing, limit), failing);
      && LeftOf(g', g)
      && forall u :: u in g.origins && IsUserClone(pool, u) ==> u in g'.origins && g'.origins[u] == g.origins[u]
  {
    var list := Candidates(pool, lines, listing, limit);
    CleanupLeaves(g, list, failing);
    MissedClonesStay(g, pool, lines, listing, limit, failing);
    forall u | u in g.origins && IsUserClone(pool, u) ensures !Hit(g, pool, list, failing, u) {
      if Hit(g, pool, list, failing, u) {
        var v, t :| (&& v in g.origins && IsUserClone(pool, v) && In(u, v) && g.origins[v].Some?
                     && t in list && t !in failing && NamedBelow(t, g.origins[v].value));
        CandidateSound(pool, lines, listing, limit, t);
        EndOfName(t, g.origins[v].value, suffix);
      }
    }
  }

  // ------------------------------------------------ a clone that is lost

  const SYSTEM_CLONE := "p/clone_pre_1"
  const USER_CLONE := "p/dblab_clone_6000"
  const ONE := "p" + "@s_1_pre"
  const TWO := "p" + "@s_2_pre"
  const COPY := SYSTEM_CLONE + "@s_2_pre"

  const EXAMPLE := Zfs(map["p" := None, SYSTEM_CLONE := Some(ONE), USER_CLONE := Some(COPY)], {ONE, TWO, COPY})
  const EXAMPLE_LISTING := [ONE, TWO, COPY]
  const EXAMPLE_LINES := [["p", "-"], [SYSTEM_CLONE, ONE], [USER_CLONE, COPY]]

  lemma {:induction false} HostIs(h: string, name: string)
    requires '@' !in h && name != "" && name[0] == '@'
    ensures HostOf(h + name) == h && NameOf(h + name) == name
  {
    if h != "" {
      HostIs(h[1..], name);
      assert (h + name)[1..] == h[1..] + name;
    }
  }

  lemma ExampleHosts()
    ensures HostOf(ONE) == HostOf(TWO) == "p" && HostOf(COPY) == SYSTEM_CLONE
    ensures NamedBelow(TWO, COPY)
  {
    HostIs("p", "@s_1_pre");
    HostIs("p", "@s_2_pre");
    HostIs(SYSTEM_CLONE, "@s_2_pre");
  }

  lemma ExampleIsWellBuilt()
    ensures WellBuilt(EXAMPLE, "p")
  {
    ExampleHosts();
    assert OccursAt(SYSTEM_CLONE, "clone", 2);
    var c := "clone_pre_1";
    assert SYSTEM_CLONE == "p" + "/" + c && '/' !in c;
    assert SystemClone(EXAMPLE, "p", SYSTEM_CLONE);
  }

  lemma ExampleListing()
    ensures ListsPool("p", EXAMPLE_LISTING)
  {
    ExampleHosts();
  }

  lemma ExampleLists()
    ensures ListsClones(EXAMPLE, "p", EXAMPLE_LINES)
  {
    assert EXAMPLE_LINES[1] == [SYSTEM_CLONE, ONE] && EXAMPLE_LINES[2] == [USER_CLONE, COPY];
  }

  lemma ExampleBusy()
    ensures BusySnapshots("p", EXAMPLE_LINES) <= {ONE}
  {
    ExampleHosts();
    assert EXAMPLE_LINES[1] == [SYSTEM_CLONE, ONE];
    SystemClonesFinds("p", EXAMPLE_LINES, SYSTEM_CLONE, ONE);
  }

  lemma SameLengthContains(a: string, b: string)
    requires |a| == |b| && Contains(a, b)
    ensures a == b
  {
  }

  lemma ExampleCandidate()
    ensures TWO in Candidates("p", EXAMPLE_LINES, EXAMPLE_LISTING, 0)
  {
    var busy := BusySnapshots("p", EXAMPLE_LINES);
    var list := WithoutClone(EXAMPLE_LISTING);
    ExampleBusy();
    FilterSound(EXAMPLE_LISTING, {});
    FilterSound(list, busy);
    assert TWO[4] != ONE[4];
    if Contains(TWO, ONE) {
      SameLengthContains(TWO, ONE);
    }
    assert forall c :: c in TWO ==> c != 'c';
    assert 'c' in "clone";
    assert !Contains(TWO, "clone");
    assert EXAMPLE_LISTING[1] == TWO;
    assert AllButLast(list, 0) == list;
  }

  lemma ExampleOrigins()
    ensures OriginsExist(EXAMPLE)
  {
  }

  /** This user clone is lost in a clean-up in which no destroy fails. */
  ghost predicate Lost(g: Zfs, pool: string, lines: seq<seq<string>>, listing: seq<string>, limit: nat, u: string) {
    u in g.origins && IsUserClone(pool, u) && u !in DestroyAll(g, Candidates(pool, lines, listing, limit), {}).origins
  }

  /** A candidate has the name of this user clone's origin, in a dataset above that of the origin. */
  ghost predicate Endangered(g: Zfs, pool: string, lines: seq<seq<string>>, listing: seq<string>, limit: nat,
                             u: string) {
    && OriginsExist(g) && u in g.origins && IsUserClone(pool, u) && g.origins[u].Some?
    && exists t :: t in Candidates(pool, lines, listing, limit) && NamedBelow(t, g.origins[u].value)
  }

  lemma LostByName(g: Zfs, pool: string, lines: seq<seq<string>>, listing: seq<string>, limit: nat, u: string)
    requires Endangered(g, pool, lines, listing, limit, u)
    ensures Lost(g, pool, lines, listing, limit, u)
  {
    var t :| t in Candidates(pool, lines, listing, limit) && NamedBelow(t, g.origins[u].value);
    HitIsLost(g, Candidates(pool, lines, listing, limit), {}, t, u, u);
  }

  lemma ExampleUser()
    ensures USER_CLONE in EXAMPLE.origins && IsUserClone("p", USER_CLONE) && EXAMPLE.origins[USER_CLONE] == Some(COPY)
  {
  }

  lemma ExampleEndangered()
    ensures Endangered(EXAMPLE, "p", EXAMPLE_LINES, EXAMPLE_LISTING, 0, USER_CLONE)
  {
    ExampleOrigins();
    ExampleUser();
    ExampleCandidate();
    ExampleHosts();
  }

  /**
   Without such names clones can be lost: the copy that `zfs snapshot -r` of
   the pool made in a system clone was cloned, and goes with the pool's snapshot.
   */
  lemma SameNameTakesUserClone()
    ensures Lost(EXAMPLE, "p", EXAMPLE_LINES, EXAMPLE_LISTING, 0, USER_CLONE)
  {
    ExampleEndangered();
    LostByName(EXAMPLE, "p", EXAMPLE_LINES, EXAMPLE_LISTING, 0, USER_CLONE);
  }

  // ------------------------------------------------------------- retention

  /** No two lines of the listing are equal. */
  predicate Distinct(list: seq<string>) {
    forall i, j :: 0 <= i < j < |list| ==> list[i] != list[j]
  }

  /** The last `limit` lines after `grep -v clone`. */
  function Newest(listing: seq<string>, limit: nat): seq<string> {
    var l := WithoutClone(listing);
    if limit <= |l| then l[|l| - limit..] else l
  }

  lemma {:induction false} WithoutCloneDistinct(list: seq<string>)
    requires Distinct(list)
    ensures Distinct(WithoutClone(list))
  {
    if list != [] {
      WithoutCloneDistinct(list[1..]);
      FilterSound(list[1..], {});
    }
  }

  /**
   The newest `limit` snapshots that the name filter leaves survive as far as
   they are snapshots of the pool dataset: none is a candidate, and no
   candidate takes another snapshot of the pool dataset along.
   */
  lemma CleanupKeepsNewest(g: Zfs, pool: string, lines: seq<seq<string>>, listing: seq<string>, limit: nat,
                           failing: set<string>)
    requires WellBuilt(g, pool) && ListsClones(g, pool, lines) && ListsPool(pool, listing) && Distinct(listing)
    ensures var g' := DestroyAll(g, Candidates(pool, lines, listing, limit), failing);
      forall s :: s in Newest(listing, limit) && s in g.snapshots && HostOf(s) == pool ==> s in g'.snapshots
  {
    var list := Candidates(pool, lines, listing, limit);
    var keep := set s | s in Newest(listing, limit) && s in g.snapshots && HostOf(s) == pool :: Snap(s);
    WithoutCloneDistinct(listing);
    var l := WithoutClone(listing);
    FilterSound(AllButLast(l, limit), BusySnapshots(pool, lines));
    forall t, b | t in list && b in keep ensures !Taken(g, t, b) {
      CandidateSound(pool, lines, listing, limit, t);
      assert t in AllButLast(l, limit) && b.name in Newest(listing, limit);
      assert t != b.name;
      NothingSacredTaken(g, pool, lines, t, {}, b);
    }
    DestroyAllKeeps(g, g, list, failing, keep);
    forall s | s in Newest(listing, limit) && s in g.snapshots && HostOf(s) == pool
      ensures s in DestroyAll(g, list, failing).snapshots
    {
      assert Snap(s) in keep;
    }
  }

  /** What the listing is sorted by: the data state label, then the time of creation. */
  datatype SortKey = SortKey(dataState: string, creation: int)

  predicate Older(a: SortKey, b: SortKey) {
    LexLess(a.dataState, b.dataState) || (a.dataState == b.dataState && a.creation < b.creation)
  }

  /** `zfs list -s <data state> -s creation`: no line is older than one before it. */
  ghost predicate SortedBy(listing: seq<string>, key: string -> SortKey) {
    forall i, j :: 0 <= i < j < |listing| ==> !Older(key(listing[j]), key(listing[i]))
  }

  /** The snapshots of the list that are not older than this one, itself included. */
  function NotOlder(list: seq<string>, key: string -> SortKey, s: string): set<string> {
    set x | x in list && !Older(key(x), key(s))
  }

  lemma {:induction false} WithoutCloneSorted(list: seq<string>, key: string -> SortKey)
    requires SortedBy(list, key)
    ensures SortedBy(WithoutClone(list), key)
  {
    if list != [] {
      var rest := WithoutClone(list[1..]);
      WithoutCloneSorted(list[1..], key);
      FilterSound(list[1..], {});
      forall j | 0 <= j < |rest| ensures !Older(key(rest[j]), key(list[0])) {
        assert rest[j] in list[1..];
        var i :| 0 <= i < |list[1..]| && list[1..][i] == rest[j];
        assert list[i + 1] == rest[j];
      }
    }
  }

  function Members(list: seq<string>): set<string> {
    set x | x in list
  }

  lemma {:induction false} CountDistinct(list: seq<string>)
    requires Distinct(list)
    ensures |Members(list)| == |list|
  {
    if list != [] {
      CountDistinct(list[1..]);
      assert Members(list) == {list[0]} + Members(list[1..]);
      assert list[0] !in list[1..];
    } else {
      assert Members(list) == {};
    }
  }

  lemma CountSubset(a: set<string>, b: set<string>)
    requires a <= b
    ensures |a| <= |b|
  {
    assert b == a + (b - a);
  }

  lemma TailNotOlder(l: seq<string>, key: string -> SortKey, k: nat)
    requires k < |l| && SortedBy(l, key)
    ensures Members(l[k..]) <= NotOlder(l, key, l[k])
  {
    KeyIrreflexive(key(l[k]));
    forall x | x in l[k..] ensures x in NotOlder(l, key, l[k]) {
      var j :| 0 <= j < |l[k..]| && l[k..][j] == x;
      assert l[k + j] == x;
    }
  }

  lemma AmongLast(l: seq<string>, limit: nat, k: nat)
    requires k < |l| && |l| - k <= limit
    ensures l[k] in if limit <= |l| then l[|l| - limit..] else l
  {
    assert limit <= |l| ==> l[|l| - limit..][k - (|l| - limit)] == l[k];
  }

  /** A snapshot with fewer than `limit` others that are not older is among the last `limit` lines. */
  lemma NewestByKey(listing: seq<string>, key: string -> SortKey, limit: nat, s: string)
    requires Distinct(listing) && SortedBy(listing, key)
    requires s in WithoutClone(listing) && |NotOlder(WithoutClone(listing), key, s)| <= limit
    ensures s in Newest(listing, limit)
  {
    var l := WithoutClone(listing);
    WithoutCloneSorted(listing, key);
    WithoutCloneDistinct(listing);
    var k :| 0 <= k < |l| && l[k] == s;
    CountDistinct(l[k..]);
    TailNotOlder(l, key, k);
    CountSubset(Members(l[k..]), NotOlder(l, key, s));
    AmongLast(l, limit, k);
  }

  lemma KeyIrreflexive(k: SortKey)
    ensures !Older(k, k)
  {
    LexIrreflexive(k.dataState);
  }

  /**
   The newest pool snapshots survive the clean-up: every snapshot of the pool
   dataset whose name does not contain "clone", and of which at most `limit`
   snapshots so named, itself included, are not older by data state and creation.
   */
  lemma CleanupKeepsNewestByKey(g: Zfs, pool: string, lines: seq<seq<string>>, listing: seq<string>,
                                key: string -> SortKey, limit: nat, failing: set<string>)
    requires WellBuilt(g, pool) && ListsClones(g, pool, lines) && ListsPool(pool, listing)
    requires Distinct(listing) && SortedBy(listing, key)
    ensures var g' := DestroyAll(g, Candidates(pool, lines, listing, limit), failing);
      forall s :: (&& s in listing && !Contains(s, "clone") && s in g.snapshots && HostOf(s) == pool
                   && |NotOlder(WithoutClone(listing), key, s)| <= limit) ==> s in g'.snapshots
  {
    CleanupKeepsNewest(g, pool, lines, listing, limit, failing);
    FilterSound(listing, {});
    forall s | s in WithoutClone(listing) && |NotOlder(WithoutClone(listing), key, s)| <= limit
      ensures s in Newest(listing, limit)
    {
      NewestByKey(listing, key, limit, s);
    }
  }

  /** A user clone made straight from a pool snapshot adds the empty alternative, and nothing at all is destroyed. */
  lemma CloneOfPoolBlocksCleanup(g: Zfs, pool: string, lines: seq<seq<string>>, listing: seq<string>, limit: nat,
                                 u: string)
    requires WellBuilt(g, pool) && ListsClones(g, pool, lines)
    requires u in g.origins && IsUserClone(pool, u) && HostOf(g.origins[u].value) == pool
    ensures Candidates(pool, lines, listing, limit) == []
  {
    var list := Candidates(pool, lines, listing, limit);
    if list != [] {
      var t := list[0];
      CandidateSound(pool, lines, listing, limit, t);
      CandidateIsFree(g, pool, lines, t);
      assert HostsUserClone(g, pool, pool);
    }
  }

  lemma {:induction false} DestroyAllRemoves(g: Zfs, list: seq<string>, failing: set<string>, t: string)
    requires t in list && t !in failing
    ensures t !in DestroyAll(g, list, failing).snapshots
    decreases |list|
  {
    var g1 := if list[0] in failing then g else Destroy(g, list[0]);
    if t == list[0] {
      assert Within(g, Snap(t), Snap(t), 0);
      assert t !in g1.snapshots;
      DestroyAllKeeps(g1, g1, list[1..], failing, {});
    } else {
      DestroyAllRemoves(g1, list[1..], failing, t);
    }
  }

  /** Every snapshot that passes the filters is gone afterwards, unless its own destroy failed. */
  lemma CleanupRemovesTheRest(g: Zfs, pool: string, lines: seq<seq<string>>, listing: seq<string>, limit: nat,
                              failing: set<string>, t: string)
    requires t in AllButLast(WithoutClone(listing), limit) && t !in failing
    requires forall p :: p in BusySnapshots(pool, lines) ==> !Contains(t, p)
    ensures t !in DestroyAll(g, Candidates(pool, lines, listing, limit), failing).snapshots
  {
    FilterSound(AllButLast(WithoutClone(listing), limit), BusySnapshots(pool, lines));
    DestroyAllRemoves(g, Candidates(pool, lines, listing, limit), failing, t);
  }

  // ------------------------------------------------ the fate of a snapshot

  /** The lines without "clone" behind this one. */
  function Behind(listing: seq<string>, i: nat): set<nat> {
    set j: nat | i < j < |listing| && !Contains(listing[j], "clone")
  }

  lemma {:induction false} CountBehind(listing: seq<string>, i: nat)
    requires i < |listing|
    ensures |Behind(listing, i)| == |WithoutClone(listing[i + 1..])|
    decreases |listing| - i
  {
    if i + 1 < |listing| {
      CountBehind(listing, i + 1);
      var next := listing[i + 1..];
      assert next[0] == listing[i + 1] && next[1..] == listing[i + 2..];
      var here: set<nat> := if Contains(listing[i + 1], "clone") then {} else {i + 1};
      assert Behind(listing, i) == Behind(listing, i + 1) + here;
      assert (i + 1) !in Behind(listing, i + 1);
    } else {
      assert Behind(listing, i) == {};
      assert listing[i + 1..] == [];
    }
  }

  lemma {:induction false} WithoutCloneConcat(a: seq<string>, b: seq<string>)
    ensures WithoutClone(a + b) == WithoutClone(a) + WithoutClone(b)
  {
    if a == [] {
      assert a + b == b;
    } else {
      WithoutCloneConcat(a[1..], b);
      assert (a + b)[0] == a[0] && (a + b)[1..] == a[1..] + b;
      LinesRegroup(if Contains(a[0], "clone") then [] else [a[0]], WithoutClone(a[1..]), WithoutClone(b));
    }
  }

  lemma LinesRegroup(a: seq<string>, b: seq<string>, c: seq<string>)
    ensures a + (b + c) == a + b + c
  {
  }

  /** A line without "clone" stands in the filtered listing with as many lines behind it as in the listing. */
  lemma PlaceOf(listing: seq<string>, i: nat) returns (k: nat)
    requires i < |listing| && !Contains(listing[i], "clone")
    ensures var l := WithoutClone(listing); k < |l| && l[k] == listing[i] && |l| - 1 - k == |Behind(listing, i)|
    ensures k == |WithoutClone(listing[..i])|
  {
    var l := WithoutClone(listing);
    k := |WithoutClone(listing[..i])|;
    assert listing == listing[..i] + ([listing[i]] + listing[i + 1..]);
    WithoutCloneConcat(listing[..i], [listing[i]] + listing[i + 1..]);
    WithoutCloneConcat([listing[i]], listing[i + 1..]);
    assert WithoutClone([listing[i]]) == [listing[i]] + WithoutClone([]);
    CountBehind(listing, i);
  }

  lemma {:induction false} LineAt(listing: seq<string>, k: nat) returns (i: nat)
    requires k < |WithoutClone(listing)|
    ensures i < |listing| && !Contains(listing[i], "clone") && |WithoutClone(listing[..i])| == k
  {
    if k == 0 && !Contains(listing[0], "clone") {
      i := 0;
    } else {
      var rest := LineAt(listing[1..], if Contains(listing[0], "clone") then k else k - 1);
      i := rest + 1;
      assert listing[..i][0] == listing[0] && listing[..i][1..] == listing[1..][..rest];
    }
  }

  /** The line lets its snapshot go: no "clone" in it, and the limit is reached by such lines behind it. */
  predicate BeyondLimit(listing: seq<string>, i: nat, limit: nat) {
    i < |listing| && !Contains(listing[i], "clone") && |Behind(listing, i)| >= limit
  }

  lemma AllButLastIff(listing: seq<string>, limit: nat, t: string)
    ensures t in AllButLast(WithoutClone(listing), limit) <==>
        exists i: nat :: BeyondLimit(listing, i, limit) && listing[i] == t
  {
    var l := WithoutClone(listing);
    if t in AllButLast(l, limit) {
      var k: nat :| k < |l| - limit && AllButLast(l, limit)[k] == t;
      var i := LineAt(listing, k);
      var k' := PlaceOf(listing, i);
      assert BeyondLimit(listing, i, limit) && listing[i] == t;
    }
    if i: nat :| BeyondLimit(listing, i, limit) && listing[i] == t {
      var k := PlaceOf(listing, i);
      assert AllButLast(l, limit)[k] == t;
    }
  }

  /**
   Exactly what the clean-up destroys: the snapshots of lines without "clone" that have
   at least `limit` such lines behind them, and in which no busy snapshot occurs.
   */
  lemma CandidateIff(pool: string, lines: seq<seq<string>>, listing: seq<string>, limit: nat, t: string)
    ensures t in Candidates(pool, lines, listing, limit) <==>
      && (exists i: nat :: BeyondLimit(listing, i, limit) && listing[i] == t)
      && (forall p :: p in BusySnapshots(pool, lines) ==> !Contains(t, p))
  {
    FilterSound(AllButLast(WithoutClone(listing), limit), BusySnapshots(pool, lines));
    AllButLastIff(listing, limit, t);
  }

  /**
   What keeps a user clone's snapshot: the origin of the dataset it was made in, and the empty
   text for the pool's own.
   */
  ghost function BusyFor(g: Zfs, pool: string, u: string): string
    requires u in g.origins && g.origins[u].Some?
  {
    var host := HostOf(g.origins[u].value);
    if host != pool && host in g.origins && g.origins[host].Some? then g.origins[host].value else ""
  }

  /** Busy are exactly the snapshots that user clones rest on. */
  lemma BusyIff(g: Zfs, pool: string, lines: seq<seq<string>>, p: string)
    requires WellBuilt(g, pool) && ListsClones(g, pool, lines)
    ensures p in BusySnapshots(pool, lines) <==>
      exists u :: u in g.origins && IsUserClone(pool, u) && g.origins[u].Some? && p == BusyFor(g, pool, u)
  {
    forall u | u in g.origins && IsUserClone(pool, u)
      ensures g.origins[u].Some? && BusyFor(g, pool, u) in BusySnapshots(pool, lines)
      ensures BusyFor(g, pool, u) == Lookup(SystemClones(pool, lines), HostOf(g.origins[u].value))
    {
      UserCloneIsBusy(g, pool, lines, u);
    }
    if p in BusySnapshots(pool, lines) {
      var k :| 0 <= k < |lines| && CloneLine(lines[k]) && IsUserClone(pool, lines[k][0])
               && p == Lookup(SystemClones(pool, lines), HostOf(lines[k][1]));
      assert lines[k][0] in g.origins && g.origins[lines[k][0]] == Some(lines[k][1]);
    }
  }

  lemma UserCloneIsBusy(g: Zfs, pool: string, lines: seq<seq<string>>, u: string)
    requires WellBuilt(g, pool) && ListsClones(g, pool, lines) && u in g.origins && IsUserClone(pool, u)
    ensures g.origins[u].Some?
    ensures BusyFor(g, pool, u) == Lookup(SystemClones(pool, lines), HostOf(g.origins[u].value))
    ensures BusyFor(g, pool, u) in BusySnapshots(pool, lines)
  {
    var origin := g.origins[u].value;
    var host := HostOf(origin);
    assert UserCloneOk(g, pool, u);
    assert Below(u, pool) by { assert pool + "/" <= UserPrefix(pool) <= u; }
    var k :| 0 <= k < |lines| && lines[k] == [u, origin];
    assert CloneLine(lines[k]) && lines[k][0] == u && lines[k][1] == origin;
    assert host in UserOrigins(pool, lines);
    if host == pool {
      SystemClonesOnly(pool, lines, pool);
    } else {
      assert SystemClone(g, pool, host);
      var c :| host == pool + "/" + c && '/' !in c;
      assert Below(host, pool);
      SystemClonesFinds(pool, lines, host, g.origins[host].value);
    }
  }

  /** The clean-up's own destroy of the snapshot works. */
  ghost predicate LetGo(g: Zfs, pool: string, listing: seq<string>, limit: nat, failing: set<string>, s: string) {
    && s !in failing
    && (exists i: nat :: BeyondLimit(listing, i, limit) && listing[i] == s)
    && (forall u :: u in g.origins && IsUserClone(pool, u) && g.origins[u].Some? ==> !Contains(s, BusyFor(g, pool, u)))
  }

  lemma LetGoIff(g: Zfs, pool: string, lines: seq<seq<string>>, listing: seq<string>, limit: nat, failing: set<string>,
                 s: string)
    requires WellBuilt(g, pool) && ListsClones(g, pool, lines)
    ensures LetGo(g, pool, listing, limit, failing, s) <==>
        s in Candidates(pool, lines, listing, limit) && s !in failing
  {
    CandidateIff(pool, lines, listing, limit, s);
    forall p ensures p in BusySnapshots(pool, lines) <==>
      exists u :: u in g.origins && IsUserClone(pool, u) && g.origins[u].Some? && p == BusyFor(g, pool, u)
    {
      BusyIff(g, pool, lines, p);
    }
  }

  /**
   The exact fate of a snapshot of the pool dataset: it is gone after the clean-up if
   and only if its line has no "clone" in it and at least `limit` such lines behind it,
   no snapshot that a user clone rests on occurs in it, and its own destroy works.
   */
  lemma PoolSnapshotGoneIff(g: Zfs, pool: string, lines: seq<seq<string>>, listing: seq<string>, limit: nat,
                            failing: set<string>, s: string)
    requires WellBuilt(g, pool) && ListsClones(g, pool, lines) && ListsPool(pool, listing)
    requires s in g.snapshots && HostOf(s) == pool
    ensures s !in DestroyAll(g, Candidates(pool, lines, listing, limit), failing).snapshots <==>
      LetGo(g, pool, listing, limit, failing, s)
  {
    var list := Candidates(pool, lines, listing, limit);
    LetGoIff(g, pool, lines, listing, limit, failing, s);
    if LetGo(g, pool, listing, limit, failing, s) {
      DestroyAllRemoves(g, list, failing, s);
    } else {
      forall t, b | t in list && t !in failing && b in {Snap(s)} ensures !Taken(g, t, b) {
        CandidateSound(pool, lines, listing, limit, t);
        NothingSacredTaken(g, pool, lines, t, {}, b);
      }
      DestroyAllKeeps(g, g, list, failing, {Snap(s)});
      assert Snap(s) in {Snap(s)};
    }
  }

  // ------------------------------------------------- what destroys leave whole

  /** Every snapshot has its dataset, and every clone its origin. */
  ghost predicate Whole(g: Zfs) {
    OriginsExist(g) && forall s :: s in g.snapshots ==> HostOf(s) in g.origins
  }

  /** Whatever lies below a dataset that is gone is gone too. */
  ghost predicate NoStrays(g: Zfs, g': Zfs) {
    forall d, p :: d in g'.origins && p in g.origins && Below(d, p) ==> p in g'.origins
  }

  lemma DestroyWhole(g: Zfs, t: string)
    requires Whole(g)
    ensures Whole(Destroy(g, t)) && NoStrays(g, Destroy(g, t)) && LeftOf(Destroy(g, t), g)
  {
    var g' := Destroy(g, t);
    DestroyLeaves(g, t);
    forall s | s in g'.snapshots ensures HostOf(s) in g'.origins {
      if Taken(g, t, Filesystem(HostOf(s))) {
        DependentTaken(g, t, Snap(s), Filesystem(HostOf(s)));
      }
    }
    forall d, p | d in g'.origins && p in g.origins && Below(d, p) ensures p in g'.origins {
      if Taken(g, t, Filesystem(p)) {
        DependentTaken(g, t, Filesystem(d), Filesystem(p));
      }
    }
  }

  /**
   After all destroys no clone is left without its origin, no snapshot without its dataset, and
   no dataset below one that is gone.
   */
  lemma {:induction false} DestroyAllWhole(g: Zfs, list: seq<string>, failing: set<string>)
    requires Whole(g)
    ensures var g' := DestroyAll(g, list, failing); Whole(g') && NoStrays(g, g') && LeftOf(g', g)
    decreases |list|
  {
    if list != [] {
      DestroyWhole(g, list[0]);
      DestroyAllWhole(if list[0] in failing then g else Destroy(g, list[0]), list[1..], failing);
    }
  }
}
