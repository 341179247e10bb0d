/**
 The query profiler and the timing estimate (internal/estimator/profile.go,
 internal/estimator/timing.go), over the real numbers.
 */
module Estimator {
  import opened Options
  import opened Sums

  // ------------------------------------------------------------ the profiler

  /**
   A sample of the backend; missing columns read as zero or empty, and a missing change time is a
   value of its own.
   */
  datatype Sample = Sample(duration: real, stateChange: Option<string>, state: string, waitEntry: string)

  const NO_SAMPLE := Sample(0.0, None, "", "")

  /** A percentage, unless it was divided by zero. */
  datatype Percent = Percent(value: real) | NotFinite

  /** What a profiler has counted; `printed` are the durations of each report. */
  datatype Stat = Stat(durations: map<string, real>, percents: map<string, Percent>, samples: nat,
                       printed: seq<map<string, real>>)

  function EventOf(curr: Sample): string {
    if curr.waitEntry == "" then "Running" else curr.waitEntry
  }

  function PercentOf(v: real, duration: real): Percent {
    if duration == 0.0 then NotFinite else Percent(Share(v, duration))
  }

  function Percents(durations: map<string, real>, duration: real): map<string, Percent> {
    map k | k in durations :: PercentOf(durations[k], duration)
  }

  function CountWaitings(p: Stat, curr: Sample, prev: Sample): Stat {
    var event := EventOf(curr);
    var durations := p.durations[event := ValueAt(p.durations, event) + (curr.duration - prev.duration)];
    p.(durations := durations, samples := p.samples + 1,
       percents := p.percents + Percents(durations, curr.duration))
  }

  function ResetCounters(p: Stat): Stat {
    p.(durations := map[], percents := map[])
  }

  function PrintStat(p: Stat): Stat {
    if |p.durations| == 0 then p else p.(printed := p.printed + [p.durations])
  }

  /** The loop's variables. */
  datatype Loop = Loop(stat: Stat, prev: Sample, startup: bool)

  const BEGINNING := Loop(Stat(map[], map[], 0, []), NO_SAMPLE, true)

  function OnChange(p: Stat, curr: Sample, prev: Sample): Stat {
    var p1 := if curr.state == "active" then ResetCounters(p) else p;
    if prev.state == "active" then ResetCounters(PrintStat(p1)) else p1
  }

  /** One round of the sampling loop. */
  function Round(l: Loop, curr: Sample): Loop {
    if l.startup then Loop(if curr.state == "active" then CountWaitings(l.stat, curr, l.prev) else l.stat, curr, false)
    else if curr.stateChange != l.prev.stateChange then Loop(OnChange(l.stat, curr, l.prev), curr, false)
    else Loop(CountWaitings(l.stat, curr, l.prev), curr, false)
  }

  function Profile(l: Loop, samples: seq<Sample>): Loop
    decreases |samples|
  {
    if samples == [] then l else Profile(Round(l, samples[0]), samples[1..])
  }

  /** The samples go on with the state change time of the one before. */
  ghost predicate SameStretch(l: Loop, samples: seq<Sample>) {
    !l.startup && forall s :: s in samples ==> s.stateChange == l.prev.stateChange
  }

  function Last(l: Loop, samples: seq<Sample>): Sample {
    if samples == [] then l.prev else samples[|samples| - 1]
  }

  /** Percentages as the source leaves them after a count: of all durations, in terms of the current one. */
  ghost predicate PercentsFit(p: Stat, duration: real) {
    p.percents == Percents(p.durations, duration)
  }

  lemma CountSum(p: Stat, curr: Sample, prev: Sample)
    requires p.percents.Keys <= p.durations.Keys
    ensures var p1 := CountWaitings(p, curr, prev);
      Sum(p1.durations) == Sum(p.durations) + curr.duration - prev.duration && PercentsFit(p1, curr.duration)
  {
    var event := EventOf(curr);
    SumUpdate(p.durations, event, ValueAt(p.durations, event) + (curr.duration - prev.duration));
  }

  /** Keys without a duration never have a percentage. */
  ghost predicate KeysFit(l: Loop) {
    l.stat.percents.Keys <= l.stat.durations.Keys
  }

  lemma {:induction false} ProfileKeepsKeys(l: Loop, samples: seq<Sample>)
    requires KeysFit(l)
    ensures KeysFit(Profile(l, samples))
    decreases |samples|
  {
    if samples != [] {
      ProfileKeepsKeys(Round(l, samples[0]), samples[1..]);
    }
  }

  /** Within a stretch the durations telescope, every sample counts, and the percentages follow the last one. */
  lemma {:induction false} StretchTelescopes(l: Loop, samples: seq<Sample>)
    requires SameStretch(l, samples) && KeysFit(l)
    ensures var l1 := Profile(l, samples); var last := Last(l, samples);
      && Sum(l1.stat.durations) == Sum(l.stat.durations) + last.duration - l.prev.duration
      && l1.stat.samples == l.stat.samples + |samples| && l1.stat.printed == l.stat.printed && l1.prev == last
      && KeysFit(l1) && (samples != [] ==> PercentsFit(l1.stat, last.duration))
    decreases |samples|
  {
    if samples != [] {
      CountSum(l.stat, samples[0], l.prev);
      var l1 := Round(l, samples[0]);
      assert samples[0] in samples && forall s :: s in samples[1..] ==> s in samples;
      StretchTelescopes(l1, samples[1..]);
    }
  }

  /** The sample was taken while the backend waited for this event; no event counts as running. */
  predicate WaitsFor(s: Sample, k: string) {
    if s.waitEntry == "" then k == "Running" else s.waitEntry == k
  }

  /** The time between a sample and the one before it, over those samples that wait for the event. */
  function ChargedTo(k: string, previous: real, samples: seq<Sample>): real
    decreases |samples|
  {
    if samples == [] then 0.0
    else
      (if WaitsFor(samples[0], k) then samples[0].duration - previous else 0.0)
      + ChargedTo(k, samples[0].duration, samples[1..])
  }

  /** Some sample was taken while the backend waited for the event. */
  ghost predicate Waited(samples: seq<Sample>, k: string) {
    exists s :: s in samples && WaitsFor(s, k)
  }

  lemma ChargeNext(first: Sample, rest: seq<Sample>, k: string)
    ensures Waited([first] + rest, k) <==> WaitsFor(first, k) || Waited(rest, k)
    ensures ChargedTo(k, 0.0, [first] + rest) ==
      (if WaitsFor(first, k) then first.duration else 0.0) + ChargedTo(k, first.duration, rest)
  {
    var samples := [first] + rest;
    assert samples[0] == first && samples[1..] == rest;
    assert forall s :: s in samples <==> s == first || s in rest;
  }

  lemma CountCharges(p: Stat, curr: Sample, prev: Sample, k: string)
    ensures ValueAt(CountWaitings(p, curr, prev).durations, k) ==
      ValueAt(p.durations, k) + if WaitsFor(curr, k) then curr.duration - prev.duration else 0.0
    ensures k in CountWaitings(p, curr, prev).durations <==> k in p.durations || WaitsFor(curr, k)
  {
  }

  /** Within a stretch, each event is charged with the time before exactly those samples that wait for it. */
  lemma {:induction false} StretchCharges(l: Loop, samples: seq<Sample>, k: string)
    requires SameStretch(l, samples)
    ensures var d, d1 := l.stat.durations, Profile(l, samples).stat.durations;
      && ValueAt(d1, k) == ValueAt(d, k) + ChargedTo(k, l.prev.duration, samples)
      && (k in d1 <==> k in d || Waited(samples, k))
    decreases |samples|
  {
    if samples != [] {
      CountCharges(l.stat, samples[0], l.prev, k);
      assert forall s :: s in samples <==> s == samples[0] || s in samples[1..];
      StretchCharges(Round(l, samples[0]), samples[1..], k);
    }
  }

  /** What a profile says about one event: the time charged to it, and its share of the last duration. */
  ghost predicate Says(p: Stat, k: string, charged: real, last: real) {
    && k in p.durations && p.durations[k] == charged && k in p.percents
    && p.percents[k] == if last == 0.0 then NotFinite else Percent(100.0 * charged / last)
  }

  /**
   The profile of a query that is running from the first sample on: there is an
   entry for exactly the events some sample waits for, with the time before these samples.
   */
  lemma EventsInFull(first: Sample, rest: seq<Sample>, k: string)
    requires first.state == "active" && forall s :: s in rest ==> s.stateChange == first.stateChange
    ensures var p := Profile(BEGINNING, [first] + rest).stat; var last := ([first] + rest)[|rest|].duration;
      if Waited([first] + rest, k) then Says(p, k, ChargedTo(k, 0.0, [first] + rest), last)
      else k !in p.durations && k !in p.percents
  {
    var l := Round(BEGINNING, first);
    CountCharges(BEGINNING.stat, first, NO_SAMPLE, k);
    CountSum(BEGINNING.stat, first, NO_SAMPLE);
    ProfileFirst(BEGINNING, first, rest);
    ChargeNext(first, rest, k);
    StretchSays(l, rest, k);
  }

  /** What a profile says after a stretch about an event. */
  lemma StretchSays(l: Loop, rest: seq<Sample>, k: string)
    requires SameStretch(l, rest) && KeysFit(l) && (rest != [] || PercentsFit(l.stat, l.prev.duration))
    ensures var p := Profile(l, rest).stat;
      if k in l.stat.durations || Waited(rest, k)
      then Says(p, k, ValueAt(l.stat.durations, k) + ChargedTo(k, l.prev.duration, rest), Last(l, rest).duration)
      else k !in p.durations && k !in p.percents
  {
    StretchCharges(l, rest, k);
    StretchTelescopes(l, rest);
  }

  /** The same for a query first seen later: the sample that shows the change is not charged to anything. */
  lemma EventsFromChange(l: Loop, first: Sample, rest: seq<Sample>, k: string)
    requires !l.startup && KeysFit(l) && first.stateChange != l.prev.stateChange
    requires first.state == "active" || l.prev.state == "active"
    requires rest != [] && forall s :: s in rest ==> s.stateChange == first.stateChange
    ensures var p := Profile(l, [first] + rest).stat; var last := rest[|rest| - 1].duration;
      if Waited(rest, k) then Says(p, k, ChargedTo(k, first.duration, rest), last)
      else k !in p.durations && k !in p.percents
  {
    ChangeResets(l, first);
    ProfileFirst(l, first, rest);
    StretchSays(Round(l, first), rest, k);
  }

  /** Nothing is counted of a first sample that is not active, and nothing reported. */
  lemma IdleStart(first: Sample)
    requires first.state != "active"
    ensures Round(BEGINNING, first) == Loop(Stat(map[], map[], 0, []), first, false)
  {
  }

  /**
   A new state change time: what was counted is dropped exactly if the new or the old
   state is active, and reported before that exactly if the old one was active and
   the new one is not, and something was counted.
   */
  lemma ChangeIs(l: Loop, next: Sample)
    requires !l.startup && next.stateChange != l.prev.stateChange
    ensures var l1 := Round(l, next);
      && l1.prev == next && !l1.startup && l1.stat.samples == l.stat.samples
      && (if next.state == "active" || l.prev.state == "active"
          then l1.stat.durations == map[] && l1.stat.percents == map[]
          else l1.stat.durations == l.stat.durations && l1.stat.percents == l.stat.percents)
      && l1.stat.printed ==
           if l.prev.state == "active" && next.state != "active" && l.stat.durations != map[]
           then l.stat.printed + [l.stat.durations] else l.stat.printed
  {
  }

  /** The finite percentages as numbers. */
  function Ratios(p: Stat): map<string, real>
    requires forall k :: k in p.percents ==> p.percents[k].Percent?
  {
    map k | k in p.percents :: p.percents[k].value
  }

  /** After a count with a duration other than zero the percentages sum up to the share of it that has been counted. */
  lemma PercentsSum(p: Stat, duration: real)
    requires PercentsFit(p, duration) && duration != 0.0
    ensures forall k :: k in p.percents ==> p.percents[k].Percent?
    ensures Sum(Ratios(p)) == Share(Sum(p.durations), duration)
  {
    assert Ratios(p) == Shares(p.durations, duration);
    SumShares(p.durations, duration);
  }

  /** A stretch that begins with nothing counted. */
  lemma FreshStretch(l: Loop, rest: seq<Sample>, start: real)
    requires SameStretch(l, rest) && KeysFit(l) && Sum(l.stat.durations) == l.prev.duration - start
    requires rest != [] || PercentsFit(l.stat, l.prev.duration)
    ensures var p := Profile(l, rest).stat; var last := Last(l, rest).duration;
      && Sum(p.durations) == last - start && p.samples == l.stat.samples + |rest|
      && (last != 0.0 ==> (forall k :: k in p.percents ==> p.percents[k].Percent?)
                          && Sum(Ratios(p)) == Share(last - start, last))
  {
    StretchTelescopes(l, rest);
    var p, last := Profile(l, rest).stat, Last(l, rest).duration;
    FreshSum(Sum(p.durations), Sum(l.stat.durations), last, l.prev.duration, start);
    if last != 0.0 {
      FreshPercents(p, last, last - start);
    }
  }

  lemma FreshPercents(p: Stat, last: real, counted: real)
    requires PercentsFit(p, last) && last != 0.0 && Sum(p.durations) == counted
    ensures (forall k :: k in p.percents ==> p.percents[k].Percent?) && Sum(Ratios(p)) == Share(counted, last)
  {
    PercentsSum(p, last);
  }

  lemma FreshSum(after: real, before: real, last: real, prev: real, start: real)
    requires after == before + last - prev && before == prev - start
    ensures after == last - start
  {
  }

  lemma ProfileFirst(l: Loop, first: Sample, rest: seq<Sample>)
    ensures Profile(l, [first] + rest) == Profile(Round(l, first), rest)
  {
  }

  lemma NothingCounted()
    ensures Sum(map[]) == 0.0
  {
  }

  /** A query that is running from the first sample on is counted in full: the percentages sum up to 100. */
  lemma CountedInFull(first: Sample, rest: seq<Sample>)
    requires first.state == "active" && forall s :: s in rest ==> s.stateChange == first.stateChange
    ensures var p := Profile(BEGINNING, [first] + rest).stat; var last := ([first] + rest)[|rest|].duration;
      && Sum(p.durations) == last
      && (last != 0.0 ==> (forall k :: k in p.percents ==> p.percents[k].Percent?) && Sum(Ratios(p)) == TOTAL_PERCENT)
  {
    var l := Round(BEGINNING, first);
    NothingCounted();
    CountSum(BEGINNING.stat, first, NO_SAMPLE);
    ProfileFirst(BEGINNING, first, rest);
    FreshStretch(l, rest, 0.0);
    var last := Last(l, rest).duration;
    assert ([first] + rest)[|rest|].duration == last;
    if last != 0.0 {
      ShareEnds(last);
    }
  }

  lemma ChangeResets(l: Loop, first: Sample)
    requires !l.startup && KeysFit(l) && first.stateChange != l.prev.stateChange &&
      (first.state == "active" || l.prev.state == "active")
    ensures var l1 := Round(l, first);
      KeysFit(l1) && !l1.startup && l1.prev == first && Sum(l1.stat.durations) == 0.0 &&
        l1.stat.samples == l.stat.samples
  {
  }

  /**
   A query first seen later, in a sample whose change time is new, is counted from
   that sample on: its own duration is missing from the sum.
   */
  lemma CountedFromChange(l: Loop, first: Sample, rest: seq<Sample>)
    requires !l.startup && KeysFit(l) && first.stateChange != l.prev.stateChange &&
      (first.state == "active" || l.prev.state == "active")
    requires rest != [] && forall s :: s in rest ==> s.stateChange == first.stateChange
    ensures var p := Profile(l, [first] + rest).stat; var last := rest[|rest| - 1].duration;
      && Sum(p.durations) == last - first.duration
      && p.samples == l.stat.samples + |rest|
      && (last != 0.0 ==> (forall k :: k in p.percents ==> p.percents[k].Percent?)
                          && Sum(Ratios(p)) == Share(last - first.duration, last))
  {
    ChangeResets(l, first);
    ProfileFirst(l, first, rest);
    FreshStretch(Round(l, first), rest, first.duration);
  }

  /**
   A finished query is reported exactly when something has been counted and the
   next state seen is not active again: a new query resets the counters first.
   */
  lemma ReportedIff(l: Loop, next: Sample)
    requires !l.startup && l.prev.state == "active" && next.stateChange != l.prev.stateChange
    ensures Round(l, next).stat.printed == l.stat.printed + [l.stat.durations] <==>
        next.state != "active" && l.stat.durations != map[]
    ensures Round(l, next).stat.durations == map[]
  {
  }

  // -------------------------------------------------------------- the timing

  datatype Timing = Timing(
    readPercentage: real, writePercentage: real, normal: real,
    readRatio: real, writeRatio: real, realReadRatio: real)

  function OnlyWrite(isRead: string -> bool, isWrite: string -> bool): string -> bool {
    event => !isRead(event) && isWrite(event)
  }

  function Neither(isRead: string -> bool, isWrite: string -> bool): string -> bool {
    event => !isRead(event) && !isWrite(event)
  }

  /** The shares of the wait events; an event is a read event before it is a write event. */
  ghost predicate SharesOf(t: Timing, waitEvents: map<string, real>, isRead: string -> bool, isWrite: string -> bool) {
    && t.readPercentage == Sum(Where(waitEvents, isRead))
    && t.writePercentage == Sum(Where(waitEvents, OnlyWrite(isRead, isWrite)))
    && t.normal == Sum(Where(waitEvents, Neither(isRead, isWrite)))
  }

  function CalcMin(t: Timing, elapsed: real): real
    requires t.writeRatio != 0.0
  {
    (t.normal + t.writePercentage / t.writeRatio) / TOTAL_PERCENT * elapsed
  }

  function CalcMax(t: Timing, elapsed: real): real
    requires t.writeRatio != 0.0 && t.readRatio != 0.0
  {
    var realReadRatio := if t.realReadRatio != 0.0 then t.realReadRatio else 1.0;
    (t.normal + t.readPercentage / realReadRatio / t.readRatio + t.writePercentage / t.writeRatio)
    / TOTAL_PERCENT * elapsed
  }

  lemma {:induction false} SharesPartition(t: Timing, waitEvents: map<string, real>, isRead: string -> bool,
                                           isWrite: string -> bool)
    requires SharesOf(t, waitEvents, isRead, isWrite)
    ensures t.readPercentage + t.writePercentage + t.normal == Sum(waitEvents)
    decreases waitEvents.Keys
  {
    if waitEvents.Keys == {} {
      assert Where(waitEvents, isRead) == map[] && Where(waitEvents, OnlyWrite(isRead, isWrite)) == map[];
      assert Where(waitEvents, Neither(isRead, isWrite)) == map[];
    } else {
      var k :| k in waitEvents;
      var rest := waitEvents - {k};
      assert rest[k := waitEvents[k]] == waitEvents;
      WhereUpdate(rest, k, waitEvents[k], isRead);
      WhereUpdate(rest, k, waitEvents[k], OnlyWrite(isRead, isWrite));
      WhereUpdate(rest, k, waitEvents[k], Neither(isRead, isWrite));
      SumUpdate(rest, k, waitEvents[k]);
      SharesPartition(t.(
        readPercentage := Sum(Where(rest, isRead)),
        writePercentage := Sum(Where(rest, OnlyWrite(isRead, isWrite))),
        normal := Sum(Where(rest, Neither(isRead, isWrite)))), rest, isRead, isWrite);
    }
  }

  /**
   For positive ratios and a positive time the minimum is within the maximum exactly when the
   read share is not negative.
   */
  lemma MinWithinMaxIff(t: Timing, elapsed: real)
    requires t.readRatio > 0.0 && t.writeRatio > 0.0 && t.realReadRatio >= 0.0 && elapsed > 0.0
    ensures CalcMin(t, elapsed) <= CalcMax(t, elapsed) <==> t.readPercentage >= 0.0
  {
    var realReadRatio := if t.realReadRatio != 0.0 then t.realReadRatio else 1.0;
    var base, read := t.normal + t.writePercentage / t.writeRatio, t.readPercentage / realReadRatio / t.readRatio;
    Sign(t.readPercentage, realReadRatio);
    Sign(t.readPercentage / realReadRatio, t.readRatio);
    assert CalcMax(t, elapsed) == (base + read) / TOTAL_PERCENT * elapsed;
    Monotone(base, base + read, elapsed);
  }

  /** So it is whenever no wait event has a negative percentage. */
  lemma MinWithinMax(t: Timing, waitEvents: map<string, real>, isRead: string -> bool, isWrite: string -> bool,
                     elapsed: real)
    requires SharesOf(t, waitEvents, isRead, isWrite)
    requires forall event :: event in waitEvents ==> waitEvents[event] >= 0.0
    requires t.readRatio > 0.0 && t.writeRatio > 0.0 && t.realReadRatio >= 0.0 && elapsed >= 0.0
    ensures CalcMin(t, elapsed) <= CalcMax(t, elapsed)
  {
    SumNonNegative(Where(waitEvents, isRead));
    if elapsed > 0.0 {
      MinWithinMaxIff(t, elapsed);
    }
  }

  /** A stretch starts counting with this sample: the first of all, or one with a new change time. */
  ghost predicate StartsCounting(l: Loop, first: Sample) {
    || (l == BEGINNING && first.state == "active")
    || (&& !l.startup && KeysFit(l) && first.stateChange != l.prev.stateChange
        && (first.state == "active" || l.prev.state == "active"))
  }

  /** Durations from `from` on never go back. */
  predicate NeverBack(from: real, samples: seq<Sample>)
    decreases |samples|
  {
    samples == [] || (from <= samples[0].duration && NeverBack(samples[0].duration, samples[1..]))
  }

  ghost predicate NonNegative(m: map<string, real>) {
    forall k :: k in m ==> m[k] >= 0.0
  }

  lemma {:induction false} StretchNonNegative(l: Loop, samples: seq<Sample>)
    requires SameStretch(l, samples) && NonNegative(l.stat.durations) && NeverBack(l.prev.duration, samples)
    ensures NonNegative(Profile(l, samples).stat.durations) && l.prev.duration <= Last(l, samples).duration
    decreases |samples|
  {
    if samples != [] {
      var l1 := Round(l, samples[0]);
      assert samples[0] in samples && forall s :: s in samples[1..] ==> s in samples;
      StretchNonNegative(l1, samples[1..]);
    }
  }

  lemma ShareNonNegative(part: real, whole: real)
    requires part >= 0.0 && whole > 0.0
    ensures Share(part, whole) >= 0.0
  {
    Sign(TOTAL_PERCENT * part, whole);
  }

  lemma RatiosNonNegative(p: Stat, duration: real)
    requires PercentsFit(p, duration) && duration > 0.0 && NonNegative(p.durations)
    ensures (forall k :: k in p.percents ==> p.percents[k].Percent?) && NonNegative(Ratios(p))
  {
    forall k | k in p.durations ensures Share(p.durations[k], duration) >= 0.0 {
      ShareNonNegative(p.durations[k], duration);
    }
  }

  lemma CountStarts(l: Loop, first: Sample)
    requires StartsCounting(l, first) && first.duration >= 0.0
    ensures var l1 := Round(l, first);
      && !l1.startup && KeysFit(l1) && l1.prev == first
      && NonNegative(l1.stat.durations) && PercentsFit(l1.stat, first.duration)
  {
  }

  /** From samples to estimate: as long as durations do not go back, the minimum is within the maximum. */
  lemma SampledMinWithinMax(l: Loop, first: Sample, rest: seq<Sample>, t: Timing,
                            isRead: string -> bool, isWrite: string -> bool, elapsed: real)
    requires StartsCounting(l, first) && forall s :: s in rest ==> s.stateChange == first.stateChange
    requires 0.0 <= first.duration && NeverBack(first.duration, rest) && ([first] + rest)[|rest|].duration != 0.0
    requires var p := Profile(l, [first] + rest).stat;
      (forall k :: k in p.percents ==> p.percents[k].Percent?) ==> SharesOf(t, Ratios(p), isRead, isWrite)
    requires t.readRatio > 0.0 && t.writeRatio > 0.0 && t.realReadRatio >= 0.0 && elapsed >= 0.0
    ensures CalcMin(t, elapsed) <= CalcMax(t, elapsed)
  {
    var l1 := Round(l, first);
    CountStarts(l, first);
    ProfileFirst(l, first, rest);
    StretchTelescopes(l1, rest);
    StretchNonNegative(l1, rest);
    var p := Profile(l1, rest).stat;
    RatiosNonNegative(p, Last(l1, rest).duration);
    MinWithinMax(t, Ratios(p), isRead, isWrite, elapsed);
  }

  /**
   One percent more of reading counts in the maximum alone, divided by the read ratio and the one
   measured, if there is one.
   */
  lemma ReadingCounts(t: Timing, d: real, elapsed: real)
    requires t.readRatio != 0.0 && t.writeRatio != 0.0
    ensures var u := t.(readPercentage := t.readPercentage + d);
      && CalcMin(u, elapsed) == CalcMin(t, elapsed)
      && CalcMax(u, elapsed) == CalcMax(t, elapsed)
           + d / (if t.realReadRatio != 0.0 then t.realReadRatio else 1.0) / t.readRatio / 100.0 * elapsed
  {
    var u, r := t.(readPercentage := t.readPercentage + d), if t.realReadRatio != 0.0 then t.realReadRatio else 1.0;
    DivideSum(t.readPercentage, d, r);
    DivideSum(t.readPercentage / r, d / r, t.readRatio);
    var base, read, more := t.normal + t.writePercentage / t.writeRatio, t.readPercentage / r / t.readRatio,
        d / r / t.readRatio;
    assert CalcMax(t, elapsed) == (base + read) / TOTAL_PERCENT * elapsed;
    assert CalcMax(u, elapsed) == (base + read + more) / TOTAL_PERCENT * elapsed;
    ScaledSum(base + read, more, elapsed);
  }

  /** One percent more of writing counts in both, divided by the write ratio. */
  lemma WritingCounts(t: Timing, d: real, elapsed: real)
    requires t.readRatio != 0.0 && t.writeRatio != 0.0
    ensures var u := t.(writePercentage := t.writePercentage + d);
      && CalcMin(u, elapsed) == CalcMin(t, elapsed) + d / t.writeRatio / 100.0 * elapsed
      && CalcMax(u, elapsed) == CalcMax(t, elapsed) + d / t.writeRatio / 100.0 * elapsed
  {
    var u, r := t.(writePercentage := t.writePercentage + d), if t.realReadRatio != 0.0 then t.realReadRatio else 1.0;
    DivideSum(t.writePercentage, d, t.writeRatio);
    var least, read, more := t.normal + t.writePercentage / t.writeRatio, t.readPercentage / r / t.readRatio,
        d / t.writeRatio;
    assert CalcMin(u, elapsed) == (least + more) / TOTAL_PERCENT * elapsed;
    assert CalcMax(t, elapsed) == (least + read) / TOTAL_PERCENT * elapsed;
    assert CalcMax(u, elapsed) == (least + read + more) / TOTAL_PERCENT * elapsed;
    ScaledSum(least, more, elapsed);
    ScaledSum(least + read, more, elapsed);
  }

  /** One percent more of any other time counts in both as it is. */
  lemma NormalCounts(t: Timing, d: real, elapsed: real)
    requires t.readRatio != 0.0 && t.writeRatio != 0.0
    ensures var u := t.(normal := t.normal + d);
      && CalcMin(u, elapsed) == CalcMin(t, elapsed) + d / 100.0 * elapsed
      && CalcMax(u, elapsed) == CalcMax(t, elapsed) + d / 100.0 * elapsed
  {
    var u, r := t.(normal := t.normal + d), if t.realReadRatio != 0.0 then t.realReadRatio else 1.0;
    var least, read := t.normal + t.writePercentage / t.writeRatio, t.readPercentage / r / t.readRatio;
    assert CalcMin(u, elapsed) == (least + d) / TOTAL_PERCENT * elapsed;
    assert CalcMax(t, elapsed) == (least + read) / TOTAL_PERCENT * elapsed;
    assert CalcMax(u, elapsed) == (least + read + d) / TOTAL_PERCENT * elapsed;
    ScaledSum(least, d, elapsed);
    ScaledSum(least + read, d, elapsed);
  }

  lemma DivideSum(a: real, b: real, c: real)
    requires c != 0.0
    ensures (a + b) / c == a / c + b / c
  {
  }

  lemma ScaledSum(a: real, b: real, elapsed: real)
    ensures (a + b) / TOTAL_PERCENT * elapsed == a / TOTAL_PERCENT * elapsed + b / TOTAL_PERCENT * elapsed
  {
  }

  /** With no shares at all both estimates are zero. */
  lemma NothingEstimated(t: Timing, elapsed: real)
    requires t.readRatio != 0.0 && t.writeRatio != 0.0
    requires t.readPercentage == 0.0 && t.writePercentage == 0.0 && t.normal == 0.0
    ensures CalcMax(t, elapsed) == 0.0 && CalcMin(t, elapsed) == 0.0
  {
  }

  lemma Sign(a: real, b: real)
    requires b > 0.0
    ensures a / b >= 0.0 <==> a >= 0.0
  {
    var q := a / b;
    assert q * b == a;
  }

  lemma Monotone(a: real, b: real, elapsed: real)
    requires elapsed > 0.0
    ensures a / TOTAL_PERCENT * elapsed <= b / TOTAL_PERCENT * elapsed <==> a <= b
  {
    var x, y := a / TOTAL_PERCENT, b / TOTAL_PERCENT;
    assert y * elapsed - x * elapsed == (y - x) * elapsed;
  }

  /**
   With unit ratios the maximum is the elapsed time exactly when the shares sum up to 100 (or no
   time has elapsed).
   */
  lemma UnitRatiosIff(t: Timing, elapsed: real)
    requires t.readRatio == 1.0 && t.writeRatio == 1.0 && t.realReadRatio == 0.0
    ensures CalcMax(t, elapsed) == elapsed <==>
        elapsed == 0.0 || t.readPercentage + t.writePercentage + t.normal == TOTAL_PERCENT
  {
    var total := t.normal + t.readPercentage + t.writePercentage;
    assert t.readPercentage / 1.0 / 1.0 == t.readPercentage && t.writePercentage / 1.0 == t.writePercentage;
    assert CalcMax(t, elapsed) == total / TOTAL_PERCENT * elapsed;
    var q := total / TOTAL_PERCENT;
    if elapsed != 0.0 && q * elapsed == elapsed {
      assert (q - 1.0) * elapsed == 0.0;
    }
  }

  /** From samples to estimate: a query counted in full is estimated, with unit ratios, at its own duration. */
  lemma UnitEstimateIsDuration(first: Sample, rest: seq<Sample>, t: Timing, isRead: string -> bool,
                               isWrite: string -> bool)
    requires first.state == "active" && forall s :: s in rest ==> s.stateChange == first.stateChange
    requires ([first] + rest)[|rest|].duration != 0.0
    requires var p := Profile(BEGINNING, [first] + rest).stat;
      (forall k :: k in p.percents ==> p.percents[k].Percent?) ==> SharesOf(t, Ratios(p), isRead, isWrite)
    requires t.readRatio == 1.0 && t.writeRatio == 1.0 && t.realReadRatio == 0.0
    ensures CalcMax(t, Sum(Profile(BEGINNING, [first] + rest).stat.durations)) == ([first] + rest)[|rest|].duration
  {
    CountedInFull(first, rest);
    var p := Profile(BEGINNING, [first] + rest).stat;
    SharesPartition(t, Ratios(p), isRead, isWrite);
    UnitRatiosIff(t, Sum(p.durations));
  }
}
