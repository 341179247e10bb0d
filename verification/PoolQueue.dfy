/**
 The queue of storage pools and its refresh (internal/provision/pool/pool_manager.go,
 internal/retrieval/retrieval.go). A refresh has two steps, between which its
 jobs run: what happens until the pool is marked as refreshing, and what happens
 when the jobs are over.
 */
module PoolQueue {
  import opened Options

  datatype PoolStatus = ActivePool | RefreshingPool | EmptyPool

  datatype RetrievalStatus = Inactive | Failed | Refreshing | Finished

  /** The answer to a request for the clones of a pool. */
  datatype Listing = ListFailed | Clones(names: seq<string>)

  /** The refresh in progress: the queue element, and whether the timetable started it. */
  datatype Running = Running(element: nat, full: bool)

  /** The queue from front to back, the pools by name, and the retrieval service. */
  datatype Refresher = Refresher(
    queue: seq<string>, status: map<string, PoolStatus>, snapshots: map<string, seq<string>>,
    retrieval: RetrievalStatus, running: Option<Running>)
  {
    predicate Valid() {
      && (forall name :: name in queue ==> name in status && name in snapshots)
      && (running.Some? ==> running.value.element < |queue|)
    }
  }

  /**
   What a run finds before its jobs. `run` wraps the cause of the file system's
   error, not the error: one without a cause, such as that for missing pool
   entries, becomes no error at all.
   */
  datatype Readiness = Usable | Unusable | UnusableWithoutCause

  /** What the environment answers to the first step. */
  datatype Answers = Answers(
    listings: map<string, Listing>, // when the pool is chosen
    relisting: Listing,             // when the chosen pool is prepared
    snapshotsListed: bool,
    destroyed: nat,                 // how many snapshots can be destroyed before one fails
    readiness: Readiness,           // control containers, configuration, environment and file system
    hasJobs: bool)

  datatype Reply = Skipped | Error | Started | Done

  datatype Begun = Begun(state: Refresher, reply: Reply)

  // -------------------------------------------------------------- the queue

  function ListingOf(listings: map<string, Listing>, name: string): Listing {
    if name in listings then listings[name] else ListFailed
  }

  predicate IdleIn(listings: map<string, Listing>, name: string) {
    ListingOf(listings, name) == Clones([])
  }

  predicate BusyIn(listings: map<string, Listing>, name: string) {
    ListingOf(listings, name).Clones? && !IdleIn(listings, name)
  }

  /** GetPoolToUpdate: from the back, up to the first pool without clones or without an answer. */
  function PoolToUpdate(queue: seq<string>, listings: map<string, Listing>): (r: Option<nat>)
    ensures r.Some? ==> r.value < |queue|
  {
    var n := |queue|;
    if n == 0 then None
    else if IdleIn(listings, queue[n - 1]) then Some(n - 1)
    else if BusyIn(listings, queue[n - 1]) then PoolToUpdate(queue[..n - 1], listings)
    else None
  }

  /** The element chosen is the last idle one, and everything behind it has answered and is busy. */
  lemma {:induction false} PoolToUpdateIs(queue: seq<string>, listings: map<string, Listing>, i: nat)
    ensures PoolToUpdate(queue, listings) == Some(i) <==>
      i < |queue| && IdleIn(listings, queue[i]) && forall k :: i < k < |queue| ==> BusyIn(listings, queue[k])
    ensures PoolToUpdate(queue, listings) == Some(i) <==>
      && i < |queue| && queue[i] in listings && listings[queue[i]] == Clones([])
      && forall k :: i < k < |queue| ==>
           queue[k] in listings && listings[queue[k]].Clones? && listings[queue[k]].names != []
  {
    if queue != [] {
      var n := |queue| - 1;
      if BusyIn(listings, queue[n]) {
        PoolToUpdateIs(queue[..n], listings, i);
      }
    }
  }

  /** GetPoolByName: the first element of that name. */
  function IndexOf(queue: seq<string>, name: string): (i: nat)
    requires name in queue
    ensures i < |queue| && queue[i] == name && forall k :: 0 <= k < i ==> queue[k] != name
  {
    if queue[0] == name then 0 else 1 + IndexOf(queue[1..], name)
  }

  function MoveToFront(queue: seq<string>, i: nat): seq<string>
    requires i < |queue|
  {
    [queue[i]] + queue[..i] + queue[i + 1..]
  }

  function MakeActive(s: Refresher, i: nat): Refresher
    requires i < |s.queue|
  {
    s.(queue := MoveToFront(s.queue, i), status := s.status[s.queue[i] := ActivePool])
  }

  /** run and fullRefresh each move an element: the first of that name, then the chosen one. */
  function Activate(s: Refresher, r: Running): Refresher
    requires r.element < |s.queue|
  {
    var j := IndexOf(s.queue, s.queue[r.element]);
    var s1 := MakeActive(s, j);
    if r.full then MakeActive(s1, if j == r.element then 0 else r.element) else s1
  }

  // ------------------------------------------------------------ the refresh

  /** preparePoolToRefresh: the snapshots left, and whether the pool is prepared. */
  function Prepared(snapshots: seq<string>, a: Answers): (seq<string>, bool) {
    if a.relisting != Clones([]) || !a.snapshotsListed then (snapshots, false)
    else if a.destroyed < |snapshots| then (snapshots[a.destroyed..], false)
    else ([], true)
  }

  /** run, until its jobs start, and what its caller does if it returns before them. */
  function BeginRun(s: Refresher, r: Running, a: Answers): Begun
    requires r.element < |s.queue|
  {
    if a.readiness == Unusable then Begun(s, Error)
    else if a.readiness == UnusableWithoutCause then Begun(if r.full then MakeActive(s, r.element) else s, Done)
    else if !a.hasJobs then Begun(Activate(s, r), Done)
    else
      Begun(s.(status := s.status[s.queue[r.element] := RefreshingPool], retrieval := Refreshing, running := Some(r)),
            Started)
  }

  /** fullRefresh, until the jobs of run start. */
  function BeginRefresh(s: Refresher, a: Answers): Begun
    requires s.Valid()
  {
    var choice := PoolToUpdate(s.queue, a.listings);
    if s.retrieval == Refreshing || choice.None? then Begun(s, Skipped)
    else
      var name := s.queue[choice.value];
      var (left, prepared) := Prepared(s.snapshots[name], a);
      var s1 := s.(snapshots := s.snapshots[name := left]);
      if prepared then BeginRun(s1, Running(choice.value, true), a) else Begun(s1, Error)
  }

  datatype Choice = Chosen(name: string) | NotNeeded | NotFound

  /** getPoolToDataRetrieving */
  function PoolToRetrieve(s: Refresher, logical: bool, listings: map<string, Listing>): Choice
    requires s.Valid()
  {
    if s.queue == [] then NotFound
    else if s.status[s.queue[0]] == EmptyPool || !logical then Chosen(s.queue[0])
    else
      match PoolToUpdate(s.queue, listings)
      case Some(i) => Chosen(s.queue[i])
      case None => if s.status[s.queue[0]] == ActivePool then NotNeeded else NotFound
  }

  /** Run: the retrieval at start-up. */
  function BeginInitial(s: Refresher, logical: bool, a: Answers): Begun
    requires s.Valid()
  {
    match PoolToRetrieve(s, logical, a.listings)
    case NotNeeded => Begun(s.(retrieval := Finished), Skipped)
    case NotFound => Begun(s.(retrieval := Failed), Error)
    case Chosen(name) =>
      if name in s.queue then BeginRun(s, Running(IndexOf(s.queue, name), false), a) else Begun(s, Error)
  }

  /** The end of the jobs; they leave `made` as the snapshots of the pool. */
  function EndRun(s: Refresher, ok: bool, made: seq<string>): Refresher
    requires s.Valid() && s.running.Some?
  {
    var r := s.running.value;
    var name := s.queue[r.element];
    var s1 := s.(snapshots := s.snapshots[name := made], running := None);
    if ok then Activate(s1, r).(retrieval := Finished)
    else s1.(status := s.status[name := EmptyPool], retrieval := Failed)
  }

  // ------------------------------------------------------------------- runs

  datatype Event = Initial(logical: bool, a: Answers) | Timetable(a: Answers) | JobsOver(ok: bool, made: seq<string>)

  /** A run holds a lock while its jobs are running, so a retrieval at start-up waits for it. */
  function Step(s: Refresher, e: Event): Refresher
    requires s.Valid()
  {
    match e
    case Timetable(a) => BeginRefresh(s, a).state
    case Initial(logical, a) => if s.running.Some? then s else BeginInitial(s, logical, a).state
    case JobsOver(ok, made) => if s.running.Some? then EndRun(s, ok, made) else s
  }

  /** The retrieval status says whether jobs are running, and exactly their pool is marked as refreshing. */
  ghost predicate Sound(s: Refresher) {
    && s.Valid()
    && (s.retrieval == Refreshing <==> s.running.Some?)
    && forall name :: name in s.queue ==>
         (s.status[name] == RefreshingPool <==> s.running.Some? && name == s.queue[s.running.value.element])
  }

  lemma MoveKeepsElements(queue: seq<string>, i: nat)
    requires i < |queue|
    ensures multiset(MoveToFront(queue, i)) == multiset(queue)
    ensures |MoveToFront(queue, i)| == |queue|
    ensures forall x :: x in MoveToFront(queue, i) <==> x in queue
  {
    assert queue == queue[..i] + [queue[i]] + queue[i + 1..];
    assert forall x :: x in MoveToFront(queue, i) <==> x in multiset(MoveToFront(queue, i));
    assert forall x :: x in queue <==> x in multiset(queue);
  }

  /** The pool is at the front and active; nothing else but the order of the queue differs. */
  ghost predicate IsActivated(s: Refresher, s1: Refresher, name: string) {
    && multiset(s1.queue) == multiset(s.queue) && |s1.queue| == |s.queue| &&
      (forall x :: x in s1.queue <==> x in s.queue)
    && s1 == s.(queue := s1.queue, status := s.status[name := ActivePool])
    && s1.queue != [] && s1.queue[0] == name
  }

  lemma MakeActiveKeeps(s: Refresher, i: nat)
    requires i < |s.queue|
    ensures IsActivated(s, MakeActive(s, i), s.queue[i])
  {
    MoveKeepsElements(s.queue, i);
  }

  lemma ActivatedTwice(s: Refresher, s1: Refresher, s2: Refresher, name: string)
    requires IsActivated(s, s1, name) && IsActivated(s1, s2, name)
    ensures IsActivated(s, s2, name)
  {
  }

  lemma ActivateKeeps(s: Refresher, r: Running)
    requires r.element < |s.queue|
    ensures IsActivated(s, Activate(s, r), s.queue[r.element])
  {
    var name := s.queue[r.element];
    var j := IndexOf(s.queue, name);
    var s1 := MakeActive(s, j);
    MakeActiveKeeps(s, j);
    var k := if j == r.element then 0 else r.element;
    assert s1.queue[k] == name;
    MakeActiveKeeps(s1, k);
    ActivatedTwice(s, s1, MakeActive(s1, k), name);
  }

  lemma BeginRunKeeps(s: Refresher, r: Running, a: Answers)
    requires Sound(s) && s.running.None? && r.element < |s.queue|
    ensures Sound(BeginRun(s, r, a).state) && multiset(BeginRun(s, r, a).state.queue) == multiset(s.queue)
  {
    ActivateKeeps(s, r);
    MakeActiveKeeps(s, r.element);
  }

  lemma BeginRefreshKeeps(s: Refresher, a: Answers)
    requires Sound(s)
    ensures Sound(BeginRefresh(s, a).state) && multiset(BeginRefresh(s, a).state.queue) == multiset(s.queue)
  {
    var choice := PoolToUpdate(s.queue, a.listings);
    if s.retrieval != Refreshing && choice.Some? {
      var name := s.queue[choice.value];
      var s1 := s.(snapshots := s.snapshots[name := Prepared(s.snapshots[name], a).0]);
      assert Sound(s1);
      BeginRunKeeps(s1, Running(choice.value, true), a);
    }
  }

  lemma BeginInitialKeeps(s: Refresher, logical: bool, a: Answers)
    requires Sound(s) && s.running.None?
    ensures Sound(BeginInitial(s, logical, a).state) &&
      multiset(BeginInitial(s, logical, a).state.queue) == multiset(s.queue)
  {
    match PoolToRetrieve(s, logical, a.listings) {
      case Chosen(name) =>
        if name in s.queue {
          BeginRunKeeps(s, Running(IndexOf(s.queue, name), false), a);
        }
      case _ =>
    }
  }

  lemma EndRunKeeps(s: Refresher, ok: bool, made: seq<string>)
    requires Sound(s) && s.running.Some?
    ensures Sound(EndRun(s, ok, made)) && multiset(EndRun(s, ok, made).queue) == multiset(s.queue)
  {
    var name := s.queue[s.running.value.element];
    ActivateKeeps(s.(snapshots := s.snapshots[name := made], running := None), s.running.value);
  }

  lemma StepKeeps(s: Refresher, e: Event)
    requires Sound(s)
    ensures Sound(Step(s, e)) && multiset(Step(s, e).queue) == multiset(s.queue)
  {
    match e {
      case Timetable(a) => BeginRefreshKeeps(s, a);
      case Initial(logical, a) =>
        if s.running.None? {
          BeginInitialKeeps(s, logical, a);
        }
      case JobsOver(ok, made) =>
        if s.running.Some? {
          EndRunKeeps(s, ok, made);
        }
    }
  }

  function Run(s: Refresher, events: seq<Event>): (r: Refresher)
    requires Sound(s)
    ensures Sound(r) && multiset(r.queue) == multiset(s.queue)
    decreases events
  {
    if events == [] then s
    else
      StepKeeps(s, events[0]);
      Run(Step(s, events[0]), events[1..])
  }

  lemma BeginRunTouches(s: Refresher, r: Running, a: Answers, name: string)
    requires Sound(s) && name in s.queue && r.element < |s.queue| && name != s.queue[r.element]
    ensures var s1 := BeginRun(s, r, a).state;
      s1.snapshots == s.snapshots && name in s1.status && s1.status[name] == s.status[name]
  {
  }

  /**
   A refresh touches the status or the snapshots of a pool only if it chose it, and never those
   of a pool with clones.
   */
  lemma OnlyIdlePoolTouched(s: Refresher, a: Answers, name: string)
    requires Sound(s) && name in s.queue
    requires s.retrieval == Refreshing || a.relisting != Clones([])
      || (forall i :: PoolToUpdate(s.queue, a.listings) == Some(i) ==> s.queue[i] != name || !IdleIn(a.listings, name))
    ensures var s1 := BeginRefresh(s, a).state;
      name in s1.status && s1.status[name] == s.status[name] && name in s1.snapshots &&
        s1.snapshots[name] == s.snapshots[name]
  {
    var choice := PoolToUpdate(s.queue, a.listings);
    if s.retrieval != Refreshing && choice.Some? {
      var i := choice.value;
      PoolToUpdateIs(s.queue, a.listings, i);
      if a.relisting == Clones([]) {
        var s1 := s.(snapshots := s.snapshots[s.queue[i] := Prepared(s.snapshots[s.queue[i]], a).0]);
        assert Sound(s1);
        BeginRunTouches(s1, Running(i, true), a, name);
      }
    }
  }

  /**
   The pool in use is refreshed exactly when it has no clones and every other
   pool has; a failure of the jobs then leaves the front of the queue empty.
   */
  lemma ActivePoolRefreshedIff(s: Refresher, a: Answers, made: seq<string>)
    requires Sound(s) && s.running.None? && s.queue != []
    requires a.readiness == Usable && a.hasJobs && a.relisting == Clones([]) && a.snapshotsListed
    requires forall name :: name in s.queue ==> |s.snapshots[name]| <= a.destroyed
    ensures BeginRefresh(s, a).state.running == Some(Running(0, true)) <==>
      IdleIn(a.listings, s.queue[0]) && forall k :: 0 < k < |s.queue| ==> BusyIn(a.listings, s.queue[k])
    ensures var s1 := BeginRefresh(s, a).state; s1.running == Some(Running(0, true)) ==>
      EndRun(s1, false, made).status[s.queue[0]] == EmptyPool && EndRun(s1, false, made).queue == s.queue
  {
    PoolToUpdateIs(s.queue, a.listings, 0);
  }

  /** A pool is prepared if and only if it still has no clones and all its snapshots can be listed and destroyed. */
  lemma PreparedIs(snapshots: seq<string>, a: Answers)
    ensures var (left, ok) := Prepared(snapshots, a);
      && (ok <==> a.relisting == Clones([]) && a.snapshotsListed && |snapshots| <= a.destroyed)
      && left == (if a.relisting == Clones([]) && a.snapshotsListed
                  then snapshots[if a.destroyed < |snapshots| then a.destroyed else |snapshots|..] else snapshots)
  {
  }

  /**
   Exactly when a refresh starts jobs: it is not busy with others, a pool was chosen and
   prepared, and all it needs is there. The pool then counts as being refreshed, without
   a snapshot, and the queue is as before.
   */
  lemma RefreshStartsIff(s: Refresher, a: Answers)
    requires s.Valid()
    ensures BeginRefresh(s, a).reply == Started <==>
      s.retrieval != Refreshing && a.readiness == Usable && a.hasJobs && exists i: nat :: PoolPrepared(s, a, i)
    ensures forall i: nat :: BeginRefresh(s, a).reply == Started && PoolPrepared(s, a, i) ==>
      BeginRefresh(s, a).state == s.(
        snapshots := s.snapshots[s.queue[i] := []], status := s.status[s.queue[i] := RefreshingPool],
        retrieval := Refreshing, running := Some(Running(i, true)))
    ensures (BeginRefresh(s, a).reply == Skipped <==>
      s.retrieval == Refreshing || forall i: nat :: PoolToUpdate(s.queue, a.listings) != Some(i))
    ensures BeginRefresh(s, a).reply == Skipped ==> BeginRefresh(s, a).state == s
  {
    forall i: nat ensures PoolPrepared(s, a, i) <==>
      PoolToUpdate(s.queue, a.listings) == Some(i) && Prepared(s.snapshots[s.queue[i]], a).1
    {
      PreparedIff(s, a, i);
    }
    var choice := PoolToUpdate(s.queue, a.listings);
    if s.retrieval != Refreshing && choice.Some? {
      PreparedIff(s, a, choice.value);
    }
  }

  /** A refresh that fails on the way has lost the snapshots that could be destroyed, and changed nothing else. */
  lemma FailedRefresh(s: Refresher, a: Answers)
    requires s.Valid() && BeginRefresh(s, a).reply == Error
    ensures exists i: nat :: (&& PoolToUpdate(s.queue, a.listings) == Some(i)
      && BeginRefresh(s, a).state == s.(snapshots := s.snapshots[s.queue[i] := Prepared(s.snapshots[s.queue[i]], a).0]))
  {
    var i := PoolToUpdate(s.queue, a.listings).value;
    assert PoolToUpdate(s.queue, a.listings) == Some(i);
  }

  /** The end of the jobs: the pool is active at the front with its new snapshots, or empty where it was. */
  lemma JobsEnd(s: Refresher, ok: bool, made: seq<string>)
    requires Sound(s) && s.running.Some? && Distinct(s.queue)
    ensures var r := s.running.value; var name := s.queue[r.element]; var s1 := EndRun(s, ok, made);
      && s1.snapshots == s.snapshots[name := made] && s1.running.None?
      && s1.retrieval == (if ok then Finished else Failed)
      && s1.queue == (if ok then [name] + s.queue[..r.element] + s.queue[r.element + 1..] else s.queue)
      && s1.status == s.status[name := if ok then ActivePool else EmptyPool]
  {
    var r := s.running.value;
    ActivateDistinct(s.(snapshots := s.snapshots[s.queue[r.element] := made], running := None), r);
  }

  // -------------------------------------------------- retrieval at start-up

  /**
   The pool in front is taken if it is empty or the mode is not logical; otherwise the one that a
   refresh would choose.
   */
  ghost predicate TakesAtStart(s: Refresher, logical: bool, listings: map<string, Listing>, i: nat)
    requires s.Valid()
  {
    && s.queue != []
    && if s.status[s.queue[0]] == EmptyPool || !logical then i == 0 else PoolToUpdate(s.queue, listings) == Some(i)
  }

  /**
   Exactly what the retrieval at start-up does: it runs for the pool it takes; without
   one it is not needed if the pool in front is active, and fails otherwise.
   */
  lemma InitialIs(s: Refresher, logical: bool, a: Answers)
    requires s.Valid() && Distinct(s.queue)
    ensures var b := BeginInitial(s, logical, a);
      && (forall i: nat :: TakesAtStart(s, logical, a.listings, i) ==>
            i < |s.queue| && b ==
              if a.readiness == Unusable then Begun(s, Error)
              else if a.readiness == UnusableWithoutCause then Begun(s, Done)
              else if a.hasJobs then
                Begun(s.(status := s.status[s.queue[i] := RefreshingPool], retrieval := Refreshing,
                         running := Some(Running(i, false))), Started)
              else
                Begun(s.(queue := [s.queue[i]] + s.queue[..i] + s.queue[i + 1..],
                         status := s.status[s.queue[i] := ActivePool]), Done))
      && ((forall i: nat :: !TakesAtStart(s, logical, a.listings, i)) ==>
            b == if s.queue != [] && s.status[s.queue[0]] == ActivePool then Begun(s.(retrieval := Finished), Skipped)
                 else Begun(s.(retrieval := Failed), Error))
  {
    forall i: nat | TakesAtStart(s, logical, a.listings, i)
      ensures i < |s.queue| && PoolToRetrieve(s, logical, a.listings) == Chosen(s.queue[i]) &&
        IndexOf(s.queue, s.queue[i]) == i
      ensures Activate(s, Running(i, false)) == MakeActive(s, i)
    {
      PoolToUpdateIs(s.queue, a.listings, i);
      ActivateDistinct(s, Running(i, false));
    }
    assert TakesAtStart(s, logical, a.listings, 0) || s.queue == [] || (logical && s.status[s.queue[0]] != EmptyPool);
    var choice := PoolToUpdate(s.queue, a.listings);
    assert choice.Some? && s.queue != [] && logical && s.status[s.queue[0]] != EmptyPool ==>
      TakesAtStart(s, logical, a.listings, choice.value);
  }

  /** Some pool is chosen, and at a second look it has no clones and all its snapshots can be destroyed. */
  ghost predicate PoolPrepared(s: Refresher, a: Answers, i: nat)
    requires s.Valid()
  {
    && i < |s.queue| && IdleIn(a.listings, s.queue[i]) &&
      (forall k :: i < k < |s.queue| ==> BusyIn(a.listings, s.queue[k]))
    && a.relisting == Clones([]) && a.snapshotsListed && |s.snapshots[s.queue[i]]| <= a.destroyed
  }

  /** The pool that was at place `i` is in use at the front, without a snapshot. */
  ghost predicate EmptiedInUse(s: Refresher, s1: Refresher, i: nat)
    requires i < |s.queue|
  {
    var name := s.queue[i];
    s1 == s.(queue := MoveToFront(s.queue, i), status := s.status[name := ActivePool],
             snapshots := s.snapshots[name := []])
  }

  lemma PreparedIff(s: Refresher, a: Answers, i: nat)
    requires s.Valid()
    ensures PoolPrepared(s, a, i) <==>
      && PoolToUpdate(s.queue, a.listings) == Some(i)
      && Prepared(s.snapshots[s.queue[i]], a).1
    ensures PoolPrepared(s, a, i) ==> Prepared(s.snapshots[s.queue[i]], a).0 == []
  {
    PoolToUpdateIs(s.queue, a.listings, i);
  }

  /**
   A refresh that cannot run its jobs counts as done exactly when the file system's
   error has no cause and a pool could be prepared: the pool just emptied is then
   in use at the front. Otherwise no pool changes its place or its status.
   */
  lemma EmptiedPoolActivatedIff(s: Refresher, a: Answers)
    requires s.Valid() && a.readiness != Usable
    ensures var b := BeginRefresh(s, a);
      && (b.reply == Done <==>
            s.retrieval != Refreshing && a.readiness == UnusableWithoutCause && exists i: nat :: PoolPrepared(s, a, i))
      && (b.reply == Done ==> exists i: nat :: PoolPrepared(s, a, i) && EmptiedInUse(s, b.state, i))
      && (b.reply != Done ==> b.state.queue == s.queue && b.state.status == s.status)
      && b.reply != Started
  {
    forall i: nat ensures PoolPrepared(s, a, i) <==>
      PoolToUpdate(s.queue, a.listings) == Some(i) && Prepared(s.snapshots[s.queue[i]], a).1
    {
      PreparedIff(s, a, i);
    }
    var choice := PoolToUpdate(s.queue, a.listings);
    if s.retrieval != Refreshing && choice.Some? {
      PreparedIff(s, a, choice.value);
    }
  }

  // ------------------------------------------------------------ round robin

  predicate Distinct(queue: seq<string>) {
    forall i, j :: 0 <= i < j < |queue| ==> queue[i] != queue[j]
  }

  /** The members of a queue that belong to the set, in order. */
  function Keep(queue: seq<string>, names: set<string>): seq<string> {
    if queue == [] then []
    else (if queue[0] in names then [queue[0]] else []) + Keep(queue[1..], names)
  }

  lemma {:induction false} KeepConcat(a: seq<string>, b: seq<string>, names: set<string>)
    ensures Keep(a + b, names) == Keep(a, names) + Keep(b, names)
  {
    if a == [] {
      assert a + b == b;
    } else {
      var ab := a + b;
      assert ab[0] == a[0] && ab[1..] == a[1..] + b;
      KeepConcat(a[1..], b, names);
      var one := if a[0] in names then [a[0]] else [];
      assert one + (Keep(a[1..], names) + Keep(b, names)) == one + Keep(a[1..], names) + Keep(b, names);
    }
  }

  lemma {:induction false} KeepMembers(queue: seq<string>, names: set<string>)
    ensures forall x :: x in Keep(queue, names) <==> x in queue && x in names
    ensures Distinct(queue) ==> Distinct(Keep(queue, names))
  {
    if queue != [] {
      KeepMembers(queue[1..], names);
      assert forall x :: x in queue <==> x == queue[0] || x in queue[1..];
    }
  }

  /** The whole refresh: both steps, with the outcome of the jobs. */
  function FullRefresh(s: Refresher, a: Answers, ok: bool, made: seq<string>): Refresher
    requires s.Valid()
  {
    var b := BeginRefresh(s, a);
    if b.reply == Started && b.state.Valid() && b.state.running.Some? then EndRun(b.state, ok, made) else b.state
  }

  /** Answers under which exactly the pools of the set are idle, and nothing fails. */
  ghost predicate Favourable(s: Refresher, a: Answers, idle: set<string>)
    requires s.Valid()
  {
    && (forall name :: name in s.queue ==> if name in idle then IdleIn(a.listings, name) else BusyIn(a.listings, name))
    && a.relisting == Clones([]) && a.snapshotsListed && a.readiness == Usable
    && (forall name :: name in s.queue ==> |s.snapshots[name]| <= a.destroyed)
  }

  ghost predicate Ready(s: Refresher) {
    Sound(s) && s.running.None? && Distinct(s.queue)
  }

  lemma {:induction false} KeepNone(queue: seq<string>, names: set<string>)
    requires forall k :: 0 <= k < |queue| ==> queue[k] !in names
    ensures Keep(queue, names) == []
  {
    if queue != [] {
      KeepNone(queue[1..], names);
    }
  }

  /** Where the last member of the set is. */
  lemma {:induction false} LastKept(queue: seq<string>, names: set<string>) returns (i: nat)
    requires Keep(queue, names) != []
    ensures i < |queue| && queue[i] in names && forall k :: i < k < |queue| ==> queue[k] !in names
  {
    if Keep(queue[1..], names) != [] {
      i := LastKept(queue[1..], names);
      i := i + 1;
    } else {
      i := 0;
      KeepMembers(queue[1..], names);
      assert forall k :: 0 < k < |queue| ==> queue[k] == queue[1..][k - 1];
      assert forall k :: 0 < k < |queue| ==> queue[k] in queue[1..];
    }
  }

  /** A successful refresh turns the order of the idle pools by one place and leaves all others in order. */
  lemma MoveRotates(queue: seq<string>, i: nat, idle: set<string>, busy: set<string>)
    requires i < |queue| && queue[i] in idle && idle !! busy && forall k :: i < k < |queue| ==> queue[k] !in idle
    ensures var before, after := Keep(queue, idle), Keep(MoveToFront(queue, i), idle);
      |before| > 0 && before[|before| - 1] == queue[i] && after == [queue[i]] + before[..|before| - 1]
    ensures Keep(MoveToFront(queue, i), busy) == Keep(queue, busy)
  {
    var a, b := queue[..i], queue[i + 1..];
    assert queue == a + [queue[i]] + b;
    KeepNone(b, idle);
    KeepMoved(a, queue[i], b, idle);
    KeepMoved(a, queue[i], b, busy);
  }

  /** What is kept of a queue, before and after one member has gone to its front. */
  lemma KeepMoved(a: seq<string>, name: string, b: seq<string>, names: set<string>)
    ensures var one := if name in names then [name] else [];
      && Keep(a + [name] + b, names) == Keep(a, names) + one + Keep(b, names)
      && Keep([name] + a + b, names) == one + Keep(a, names) + Keep(b, names)
  {
    KeepOne(name, names);
    KeepThree(a, [name], b, names);
    KeepThree([name], a, b, names);
  }

  lemma KeepOne(name: string, names: set<string>)
    ensures Keep([name], names) == if name in names then [name] else []
  {
  }

  lemma KeepThree(a: seq<string>, b: seq<string>, c: seq<string>, names: set<string>)
    ensures Keep(a + b + c, names) == Keep(a, names) + Keep(b, names) + Keep(c, names)
  {
    KeepConcat(a + b, c, names);
    KeepConcat(a, b, names);
  }

  /** Without repeated names both moves are of the same element. */
  lemma ActivateDistinct(s: Refresher, r: Running)
    requires Distinct(s.queue) && r.element < |s.queue|
    ensures Activate(s, r) == MakeActive(s, r.element)
  {
  }

  lemma FavourableChoice(s: Refresher, a: Answers, idle: set<string>) returns (i: nat)
    requires s.Valid() && Favourable(s, a, idle) && Keep(s.queue, idle) != []
    ensures i < |s.queue| && s.queue[i] in idle && forall k :: i < k < |s.queue| ==> s.queue[k] !in idle
    ensures PoolToUpdate(s.queue, a.listings) == Some(i) && Prepared(s.snapshots[s.queue[i]], a) == ([], true)
  {
    i := LastKept(s.queue, idle);
    PoolToUpdateIs(s.queue, a.listings, i);
  }

  lemma EndIsActivate(s: Refresher, r: Running, made: seq<string>)
    requires Ready(s) && r.element < |s.queue|
    ensures var b := s.(status := s.status[s.queue[r.element] := RefreshingPool], retrieval := Refreshing,
                        running := Some(r));
      b.Valid() && EndRun(b, true, made) == MakeActive(s, r.element).(
        snapshots := s.snapshots[s.queue[r.element] := made], retrieval := Finished)
  {
    var name := s.queue[r.element];
    var b := s.(status := s.status[name := RefreshingPool], retrieval := Refreshing, running := Some(r));
    ActivateDistinct(b.(snapshots := b.snapshots[name := made], running := None), r);
    assert s.status[name := RefreshingPool][name := ActivePool] == s.status[name := ActivePool];
  }

  lemma MoveReady(s: Refresher, i: nat)
    requires Ready(s) && i < |s.queue|
    ensures Ready(MakeActive(s, i))
  {
  }

  /** A favourable refresh of the chosen element, in both forms. */
  lemma FavourableIs(s: Refresher, a: Answers, made: seq<string>, i: nat)
    requires Ready(s) && i < |s.queue| && PoolToUpdate(s.queue, a.listings) == Some(i)
    requires a.readiness == Usable && Prepared(s.snapshots[s.queue[i]], a) == ([], true)
    ensures FullRefresh(s, a, true, made) ==
      var s1 := s.(snapshots := s.snapshots[s.queue[i] := []]);
      if a.hasJobs
      then MakeActive(s1, i).(snapshots := s1.snapshots[s.queue[i] := made], retrieval := Finished)
      else MakeActive(s1, i)
  {
    var s1 := s.(snapshots := s.snapshots[s.queue[i] := []]);
    if a.hasJobs {
      EndIsActivate(s1, Running(i, true), made);
    } else {
      ActivateDistinct(s1, Running(i, true));
    }
  }

  /** What a successful refresh does, with or without jobs. */
  lemma FullRefreshIs(s: Refresher, a: Answers, made: seq<string>, idle: set<string>) returns (i: nat)
    requires Ready(s) && Favourable(s, a, idle) && Keep(s.queue, idle) != []
    ensures i < |s.queue| && s.queue[i] in idle && forall k :: i < k < |s.queue| ==> s.queue[k] !in idle
    ensures var r := FullRefresh(s, a, true, made);
      Ready(r) && r.queue == MoveToFront(s.queue, i) && r.status == s.status[s.queue[i] := ActivePool]
  {
    i := FavourableChoice(s, a, idle);
    FavourableIs(s, a, made, i);
    MoveReady(s, i);
  }

  /** One refresh of a run of them. */
  datatype Refresh = Refresh(a: Answers, made: seq<string>)

  /** A successful refresh from one state to the next, while exactly the pools of the set are idle. */
  ghost predicate Refreshes(s: Refresher, r: Refresh, s1: Refresher, idle: set<string>) {
    s.Valid() && Favourable(s, r.a, idle) && s1 == FullRefresh(s, r.a, true, r.made)
  }

  ghost predicate IsRun(states: seq<Refresher>, run: seq<Refresh>, idle: set<string>) {
    |states| == |run| + 1 && forall k :: 0 <= k < |run| ==> Refreshes(states[k], run[k], states[k + 1], idle)
  }

  /** Refresh number `t` of the run makes this pool the active one. */
  ghost predicate Takes(states: seq<Refresher>, t: nat, name: string)
    requires t + 1 < |states|
  {
    var s1 := states[t + 1];
    s1.queue != [] && s1.queue[0] == name && name in s1.status && s1.status[name] == ActivePool
  }

  /** How far an order of `n` pools has turned after `t` refreshes: `t` modulo `n`. */
  ghost function Places(t: nat, n: nat): (r: nat)
    requires n > 0
    ensures r < n
  {
    if t == 0 || Places(t - 1, n) == n - 1 then 0 else Places(t - 1, n) + 1
  }

  lemma {:induction false} PlacesLater(t: nat, d: nat, n: nat)
    requires d < n
    ensures Places(t + d, n) == if Places(t, n) + d < n then Places(t, n) + d else Places(t, n) + d - n
  {
    if d > 0 {
      PlacesLater(t, d - 1, n);
    }
  }

  /** The last of an order has become its first. */
  ghost predicate Turned(before: seq<string>, after: seq<string>) {
    before != [] && after == [before[|before| - 1]] + before[..|before| - 1]
  }

  ghost predicate AllTurned(orders: seq<seq<string>>) {
    forall k :: 0 <= k < |orders| - 1 ==> Turned(orders[k], orders[k + 1])
  }

  lemma {:induction false} AfterTurns(orders: seq<seq<string>>, t: nat)
    requires t < |orders| && orders[0] != [] && AllTurned(orders)
    ensures var n := |orders[0]|; var p := n - Places(t, n);
      orders[t] == orders[0][p..] + orders[0][..p]
  {
    if t > 0 {
      AfterTurns(orders, t - 1);
      assert Turned(orders[t - 1], orders[t]);
      TurnOnce(orders[0], |orders[0]| - Places(t - 1, |orders[0]|), orders[t]);
    }
  }

  lemma TurnOnce(order: seq<string>, p: nat, after: seq<string>)
    requires 0 < p <= |order| && Turned(order[p..] + order[..p], after)
    ensures after == order[p - 1..] + order[..p - 1]
    ensures p == 1 ==> after == order[|order|..] + order[..|order|]
  {
    var before := order[p..] + order[..p];
    assert before[|order| - 1] == order[p - 1];
    assert before[..|order| - 1] == order[p..] + order[..p - 1];
  }

  lemma HeadAfterTurns(orders: seq<seq<string>>, t: nat)
    requires t + 1 < |orders| && orders[0] != [] && AllTurned(orders)
    ensures orders[t + 1] != [] && orders[t + 1][0] == orders[0][|orders[0]| - 1 - Places(t, |orders[0]|)]
  {
    AfterTurns(orders, t);
    assert Turned(orders[t], orders[t + 1]);
  }

  /** A refresh takes the last idle pool and turns their order by one place; the others stay as they are. */
  lemma RefreshTurns(s: Refresher, r: Refresh, s1: Refresher, idle: set<string>)
    requires Ready(s) && Refreshes(s, r, s1, idle) && Keep(s.queue, idle) != []
    ensures Ready(s1) && Turned(Keep(s.queue, idle), Keep(s1.queue, idle))
    ensures s1.queue != [] && s1.queue[0] == Keep(s1.queue, idle)[0] && s1.status == s.status[s1.queue[0] := ActivePool]
    ensures forall busy: set<string> :: busy !! idle ==> Keep(s1.queue, busy) == Keep(s.queue, busy)
  {
    var i := FullRefreshIs(s, r.a, r.made, idle);
    forall busy: set<string> | busy !! idle ensures Keep(s1.queue, busy) == Keep(s.queue, busy) {
      MoveRotates(s.queue, i, idle, busy);
    }
    MoveRotates(s.queue, i, idle, {});
  }

  function Orders(states: seq<Refresher>, idle: set<string>): seq<seq<string>> {
    seq(|states|, k requires 0 <= k < |states| => Keep(states[k].queue, idle))
  }

  lemma {:induction false} RunTurns(states: seq<Refresher>, run: seq<Refresh>, idle: set<string>, t: nat)
    requires IsRun(states, run, idle) && t <= |run| && Ready(states[0]) && Keep(states[0].queue, idle) != []
    ensures forall k :: 0 <= k <= t ==> Ready(states[k]) && Keep(states[k].queue, idle) != []
    ensures forall k :: 0 <= k < t ==> (
      Turned(Keep(states[k].queue, idle), Keep(states[k + 1].queue, idle)) &&
        Takes(states, k, Keep(states[k + 1].queue, idle)[0]))
  {
    if t > 0 {
      RunTurns(states, run, idle, t - 1);
      assert Refreshes(states[t - 1], run[t - 1], states[t], idle);
      RefreshTurns(states[t - 1], run[t - 1], states[t], idle);
    }
  }

  lemma OrdersTurn(states: seq<Refresher>, run: seq<Refresh>, idle: set<string>)
    requires IsRun(states, run, idle) && Ready(states[0]) && Keep(states[0].queue, idle) != []
    ensures AllTurned(Orders(states, idle))
  {
    RunTurns(states, run, idle, |run|);
  }

  lemma TakenAt(states: seq<Refresher>, run: seq<Refresh>, idle: set<string>, t: nat)
    requires IsRun(states, run, idle) && t < |run| && Ready(states[0]) && Keep(states[0].queue, idle) != []
    ensures Keep(states[t + 1].queue, idle) != [] && Takes(states, t, Keep(states[t + 1].queue, idle)[0])
  {
    RunTurns(states, run, idle, |run|);
  }

  /** The idle pools are taken from the back of the queue, over and over. */
  lemma TakesIff(states: seq<Refresher>, run: seq<Refresh>, idle: set<string>, t: nat, name: string)
    requires IsRun(states, run, idle) && t < |run| && Ready(states[0]) && Keep(states[0].queue, idle) != []
    ensures var order := Keep(states[0].queue, idle);
      Takes(states, t, name) <==> order[|order| - 1 - Places(t, |order|)] == name
  {
    var orders := Orders(states, idle);
    OrdersTurn(states, run, idle);
    HeadAfterTurns(orders, t);
    TakenAt(states, run, idle, t);
  }

  /** Within `n` refreshes the order passes each position once. */
  lemma Slot(start: nat, n: nat, r: nat) returns (t: nat)
    requires r < n
    ensures start <= t < start + n && Places(t, n) == r
    ensures forall u :: start <= u < start + n && Places(u, n) == r ==> u == t
  {
    var p := Places(start, n);
    t := if p <= r then start + (r - p) else start + (r - p + n);
    PlacesLater(start, t - start, n);
    forall u | start <= u < start + n && Places(u, n) == r ensures u == t {
      PlacesLater(start, u - start, n);
    }
  }

  /**
   Round robin: in a run of successful refreshes, each window of as many refreshes
   as there are idle pools refreshes each of them once, whatever busy pools
   stand between them.
   */
  lemma RoundRobin(states: seq<Refresher>, run: seq<Refresh>, idle: set<string>, start: nat, name: string)
    returns (t: nat)
    requires IsRun(states, run, idle) && Ready(states[0]) && name in states[0].queue && name in idle
    requires start + |Keep(states[0].queue, idle)| <= |run|
    ensures start <= t < start + |Keep(states[0].queue, idle)| && Takes(states, t, name)
    ensures forall u :: start <= u < start + |Keep(states[0].queue, idle)| && Takes(states, u, name) ==> u == t
  {
    var order := Keep(states[0].queue, idle);
    KeepMembers(states[0].queue, idle);
    assert name in order;
    var m :| 0 <= m < |order| && order[m] == name;
    t := Slot(start, |order|, |order| - 1 - m);
    TakesIff(states, run, idle, t, name);
    forall u | start <= u < start + |order| && Takes(states, u, name) ensures u == t {
      TakesIff(states, run, idle, u, name);
    }
  }
}
