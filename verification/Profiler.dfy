/**
 The profiler and the timing estimator as the objects they are
 (internal/estimator/profile.go, internal/estimator/timing.go).
 */
module Profiling {
  import opened Sums
  import opened Estimator

  /** What a query of the backend's state answers: a sample, no row once the process has gone, or an error. */
  datatype Scan = Row(curr: Sample) | NoRows | ScanError

  function Rows(scans: seq<Scan>): seq<Sample> {
    if scans == [] || !scans[0].Row? then [] else [scans[0].curr] + Rows(scans[1..])
  }

  /** The process has gone, rather than the query failed, at the end of the samples. */
  predicate Gone(scans: seq<Scan>) {
    scans != [] && (scans[0].NoRows? || (scans[0].Row? && Gone(scans[1..])))
  }

  /** The samples are those before the first answer that is none, and the process has gone if that answer says so. */
  lemma {:induction false} RowsAre(scans: seq<Scan>) returns (n: nat)
    ensures n <= |scans| && |Rows(scans)| == n && (n < |scans| ==> !scans[n].Row?)
    ensures forall k :: 0 <= k < n ==> scans[k].Row? && Rows(scans)[k] == scans[k].curr
    ensures Gone(scans) <==> n < |scans| && scans[n].NoRows?
  {
    n := 0;
    if scans != [] && scans[0].Row? {
      n := RowsAre(scans[1..]);
      n := n + 1;
    }
  }

  /** What a loop reports when the process has gone: the durations counted, if there are any. */
  lemma LastReport(p: Stat)
    ensures Estimator.PrintStat(p) ==
      p.(printed := if p.durations == map[] then p.printed else p.printed + [p.durations])
  {
  }

  /** The percentage of every event, in any order. */
  method CountPercents(durations: map<string, real>, percents: map<string, Percent>, duration: real)
    returns (r: map<string, Percent>)
    ensures r == percents + Percents(durations, duration)
  {
    r := percents;
    var rest := durations.Keys;
    while rest != {}
      invariant rest <= durations.Keys
      invariant r.Keys == percents.Keys + (durations.Keys - rest)
      invariant forall k :: k in r ==>
          r[k] == if k in durations && k !in rest then PercentOf(durations[k], duration) else percents[k]
      decreases rest
    {
      var k :| k in rest;
      rest := rest - {k};
      r := r[k := PercentOf(durations[k], duration)];
    }
  }

  class Profiler {
    var waitEventDurations: map<string, real>
    var waitEventPercents: map<string, Percent>
    var sampleCounter: nat
    /** The durations of each report written. */
    var out: seq<map<string, real>>

    function State(): Stat
      reads this
    {
      Stat(waitEventDurations, waitEventPercents, sampleCounter, out)
    }

    constructor ()
      ensures State() == BEGINNING.stat
    {
      waitEventDurations, waitEventPercents, sampleCounter, out := map[], map[], 0, [];
    }

    method CountWaitings(curr: Sample, prev: Sample)
      modifies this
      ensures State() == Estimator.CountWaitings(old(State()), curr, prev)
    {
      var event := if curr.waitEntry == "" then "Running" else curr.waitEntry;
      var counted := ValueAt(waitEventDurations, event);
      waitEventDurations := waitEventDurations[event := counted + (curr.duration - prev.duration)];
      waitEventPercents := CountPercents(waitEventDurations, waitEventPercents, curr.duration);
      sampleCounter := sampleCounter + 1;
    }

    method ResetCounters()
      modifies this`waitEventDurations, this`waitEventPercents
      ensures State() == Estimator.ResetCounters(old(State()))
    {
      waitEventDurations := map[];
      waitEventPercents := map[];
    }

    method PrintStat()
      modifies this`out
      ensures State() == Estimator.PrintStat(old(State()))
    {
      if |waitEventDurations| == 0 {
        return;
      }
      out := out + [waitEventDurations];
    }

    /** The sampling loop, over the answers of the backend up to the first that is not a sample. */
    method Start(scans: seq<Scan>)
      requires State() == BEGINNING.stat
      modifies this
      ensures var l := Profile(BEGINNING, Rows(scans));
        State() == if Gone(scans) then Estimator.PrintStat(l.stat) else l.stat
    {
      var prev, startup := NO_SAMPLE, true;
      for k := 0 to |scans|
        invariant Profile(Loop(State(), prev, startup), Rows(scans[k..])) == Profile(BEGINNING, Rows(scans))
        invariant Gone(scans[k..]) == Gone(scans)
      {
        assert scans[k..][0] == scans[k] && scans[k..][1..] == scans[k + 1..];
        if scans[k].NoRows? {
          PrintStat();
          return;
        }
        if scans[k].ScanError? {
          return;
        }
        ghost var l := Loop(State(), prev, startup);
        SampleOnce(scans[k].curr, prev, startup);
        prev, startup := scans[k].curr, false;
        ProfileFirst(l, scans[k].curr, Rows(scans[k + 1..]));
      }
    }

    /** One sample: the start, a change of state, or one more count. */
    method SampleOnce(curr: Sample, prev: Sample, startup: bool)
      modifies this
      ensures Loop(State(), curr, false) == Round(Loop(old(State()), prev, startup), curr)
    {
      if startup {
        if curr.state == "active" {
          CountWaitings(curr, prev);
        }
        return;
      }
      if curr.stateChange != prev.stateChange {
        if curr.state == "active" {
          ResetCounters();
        }
        if prev.state == "active" {
          PrintStat();
          ResetCounters();
        }
      } else {
        CountWaitings(curr, prev);
      }
    }

    /** Whatever the order of the events, their durations add up to the same. */
    method TotalTime() returns (totalTime: real)
      ensures totalTime == Sum(waitEventDurations)
    {
      totalTime := 0.0;
      var rest := waitEventDurations.Keys;
      ghost var seen: map<string, real> := map[];
      while rest != {}
        invariant rest <= waitEventDurations.Keys && seen == waitEventDurations - rest
        invariant totalTime == Sum(seen)
        decreases rest
      {
        var k :| k in rest;
        rest := rest - {k};
        SumUpdate(seen, k, waitEventDurations[k]);
        totalTime := totalTime + waitEventDurations[k];
        seen := seen[k := waitEventDurations[k]];
      }
      assert seen == waitEventDurations;
    }
  }

  /** The shares of the events seen so far. */
  ghost predicate SharedOut(read: real, write: real, normal: real, seen: map<string, real>, isRead: string -> bool,
                            isWrite: string -> bool) {
    && read == Sum(Where(seen, isRead))
    && write == Sum(Where(seen, OnlyWrite(isRead, isWrite)))
    && normal == Sum(Where(seen, Neither(isRead, isWrite)))
  }

  lemma NothingShared(isRead: string -> bool, isWrite: string -> bool)
    ensures SharedOut(0.0, 0.0, 0.0, map[], isRead, isWrite)
  {
  }

  lemma ShareStep(read: real, write: real, normal: real, events: map<string, real>, rest: set<string>, event: string,
                  isRead: string -> bool, isWrite: string -> bool)
    requires event in rest && rest <= events.Keys && SharedOut(read, write, normal, events - rest, isRead, isWrite)
    ensures var percent := events[event]; SharedOut(
      if isRead(event) then read + percent else read,
      if !isRead(event) && isWrite(event) then write + percent else write,
      if !isRead(event) && !isWrite(event) then normal + percent else normal,
      events - (rest - {event}), isRead, isWrite)
  {
    var seen := events - rest;
    assert events - (rest - {event}) == seen[event := events[event]];
    WhereUpdate(seen, event, events[event], isRead);
    WhereUpdate(seen, event, events[event], OnlyWrite(isRead, isWrite));
    WhereUpdate(seen, event, events[event], Neither(isRead, isWrite));
  }

  /** The loop over the events, in any order; each goes to one of the three shares. */
  method ShareOut(waitEvents: map<string, real>, isRead: string -> bool, isWrite: string -> bool)
    returns (read: real, write: real, normal: real)
    ensures SharedOut(read, write, normal, waitEvents, isRead, isWrite)
  {
    read, write, normal := 0.0, 0.0, 0.0;
    var rest := waitEvents.Keys;
    assert waitEvents - rest == map[];
    NothingShared(isRead, isWrite);
    while rest != {}
      invariant rest <= waitEvents.Keys
      invariant SharedOut(read, write, normal, waitEvents - rest, isRead, isWrite)
      decreases rest
    {
      var event :| event in rest;
      ShareStep(read, write, normal, waitEvents, rest, event, isRead, isWrite);
      rest := rest - {event};
      if isRead(event) {
        read := read + waitEvents[event];
      } else if isWrite(event) {
        write := write + waitEvents[event];
      } else {
        normal := normal + waitEvents[event];
      }
    }
    assert waitEvents - {} == waitEvents;
  }

  class TimingEstimator {
    var readPercentage: real
    var writePercentage: real
    var normal: real
    const readRatio: real
    const writeRatio: real
    var realReadRatio: real

    function State(): Timing
      reads this
    {
      Timing(readPercentage, writePercentage, normal, readRatio, writeRatio, realReadRatio)
    }

    /** NewTiming: the events in any order, each to one of three shares. */
    constructor (waitEvents: map<string, real>, readRatio: real, writeRatio: real, isRead: string -> bool,
                 isWrite: string -> bool)
      ensures SharesOf(State(), waitEvents, isRead, isWrite)
      ensures this.readRatio == readRatio && this.writeRatio == writeRatio && realReadRatio == 0.0
    {
      this.readRatio, this.writeRatio, realReadRatio := readRatio, writeRatio, 0.0;
      readPercentage, writePercentage, normal := 0.0, 0.0, 0.0;
      new;
      readPercentage, writePercentage, normal := ShareOut(waitEvents, isRead, isWrite);
    }

    method SetRealReadRatio(ratio: real)
      modifies this`realReadRatio
      ensures realReadRatio == ratio
    {
      realReadRatio := ratio;
    }
  }
}
