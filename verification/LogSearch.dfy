/**
 The search for the last activity of a session in the CSV logs of its clone
 (pkg/util/pglog/activity.go, LastSessionActivity and scanCSVLogFile of
 internal/provision/mode_local.go): files that end before the time of interest
 are left out first.
 */
module LogSearch {
  import opened Options
  import opened Text
  import opened TimeText

  /** A UTC time to the nanosecond. */
  datatype Instant = Instant(second: Time, nanos: nat)

  const ZERO_INSTANT := Instant(ZERO_TIME, 0)

  predicate Before(a: Instant, b: Instant) {
    Earlier(a.second, b.second) || (a.second == b.second && a.nanos < b.nanos)
  }

  const MESSAGE_LOG_FIELDS := 14

  datatype Fault = NoFiles | NotOpened | NotRead | WrongContent | WrongTime | Panicked

  /** A row as the CSV reader returns it; `time` is what the first field parses to. */
  datatype Row = Unreadable | Row(width: nat, logTime: string, message: string, time: Option<Instant>)

  datatype LogFile = Unopened | Rows(rows: seq<Row>)

  datatype Outcome = Found(time: Instant) | NotFound | Failed(fault: Fault)

  // ------------------------------------------------------------- one file

  /** A row with a statement or a duration and a time. */
  predicate IsActivity(row: Row) {
    row.Row? && row.logTime != "" && (Contains(row.message, "statement:") || Contains(row.message, "duration:"))
  }

  /** What stops the scan at this row. */
  function FaultOf(row: Row): Option<Fault> {
    if row.Unreadable? then Some(NotRead)
    else if row.width < MESSAGE_LOG_FIELDS then Some(WrongContent)
    else if IsActivity(row) && row.time.None? then Some(WrongTime)
    else None
  }

  /** A row that the scan reports for this minimum time. */
  predicate Hits(row: Row, minimum: Instant) {
    FaultOf(row).None? && IsActivity(row) && !Before(row.time.value, minimum)
  }

  function ScanRows(rows: seq<Row>, minimum: Instant): Outcome {
    if rows == [] then NotFound
    else if FaultOf(rows[0]).Some? then Failed(FaultOf(rows[0]).value)
    else if Hits(rows[0], minimum) then Found(rows[0].time.value)
    else ScanRows(rows[1..], minimum)
  }

  function FileOf(files: map<string, LogFile>, name: string): LogFile {
    if name in files then files[name] else Unopened
  }

  function ScanFile(file: LogFile, minimum: Instant): Outcome {
    if file.Unopened? then Failed(NotOpened) else ScanRows(file.rows, minimum)
  }

  /** The files one after the other, up to the first that says anything. */
  function Search(names: seq<string>, files: map<string, LogFile>, minimum: Instant): Outcome {
    if names == [] then NotFound
    else
      var r := ScanFile(FileOf(files, names[0]), minimum);
      if r == NotFound then Search(names[1..], files, minimum) else r
  }

  /** The search ends with the first file that says anything; a file that cannot be opened is a fault. */
  lemma {:induction false} SearchIs(names: seq<string>, files: map<string, LogFile>, minimum: Instant) returns (k: nat)
    ensures k <= |names|
    ensures forall j :: 0 <= j < k ==>
        names[j] in files && files[names[j]].Rows? && ScanRows(files[names[j]].rows, minimum) == NotFound
    ensures Search(names, files, minimum) ==
      if k == |names| then NotFound
      else if names[k] !in files || files[names[k]].Unopened? then Failed(NotOpened)
      else ScanRows(files[names[k]].rows, minimum)
    ensures k < |names| && names[k] in files && files[names[k]].Rows? ==>
        ScanRows(files[names[k]].rows, minimum) != NotFound
  {
    k := 0;
    if names != [] && ScanFile(FileOf(files, names[0]), minimum) == NotFound {
      k := SearchIs(names[1..], files, minimum);
      k := k + 1;
      assert forall j :: 0 < j < k ==> names[j] == names[1..][j - 1];
    }
  }

  lemma {:induction false} SearchConcat(a: seq<string>, b: seq<string>, files: map<string, LogFile>, minimum: Instant)
    ensures Search(a + b, files, minimum) ==
      if Search(a, files, minimum) == NotFound then Search(b, files, minimum) else Search(a, files, minimum)
  {
    if a == [] {
      assert a + b == b;
    } else {
      SearchConcat(a[1..], b, files, minimum);
      assert (a + b)[0] == a[0] && (a + b)[1..] == a[1..] + b;
    }
  }

  /** What is wrong with the row: it cannot be read, is too short, or tells of activity at no time. */
  predicate RowFails(row: Row, fault: Fault) {
    match row
    case Unreadable => fault == NotRead
    case Row(width, logTime, message, time) =>
      if width < 14 then fault == WrongContent
      else TellsOfActivity(logTime, message) && time.None? && fault == WrongTime
  }

  predicate TellsOfActivity(logTime: string, message: string) {
    logTime != "" && (Contains(message, "statement:") || Contains(message, "duration:"))
  }

  /** The row tells of activity at this time, which is not before the minimum. */
  predicate RowTells(row: Row, minimum: Instant, t: Instant) {
    row.Row? && row.width >= 14 && TellsOfActivity(row.logTime, row.message) && row.time == Some(t) &&
      !Before(t, minimum)
  }

  ghost predicate RowPasses(row: Row, minimum: Instant) {
    (forall fault :: !RowFails(row, fault)) && forall t :: !RowTells(row, minimum, t)
  }

  ghost predicate RowsPass(rows: seq<Row>, k: nat, minimum: Instant)
    requires k <= |rows|
  {
    forall j :: 0 <= j < k ==> RowPasses(rows[j], minimum)
  }

  /** What a file says is what its first row says that does not pass. */
  lemma {:induction false} ScanRowsIs(rows: seq<Row>, minimum: Instant) returns (k: nat)
    ensures k <= |rows| && RowsPass(rows, k, minimum) && (k < |rows| ==> !RowPasses(rows[k], minimum))
    ensures ScanRows(rows, minimum) == NotFound <==> k == |rows|
    ensures forall t :: ScanRows(rows, minimum) == Found(t) <==> k < |rows| && RowTells(rows[k], minimum, t)
    ensures forall fault :: ScanRows(rows, minimum) == Failed(fault) <==> k < |rows| && RowFails(rows[k], fault)
  {
    k := 0;
    if rows != [] {
      RowSays(rows[0], minimum);
      if RowPasses(rows[0], minimum) {
        k := ScanRowsIs(rows[1..], minimum);
        k := k + 1;
        forall j | 0 <= j < k ensures RowPasses(rows[j], minimum) {
          assert j > 0 ==> rows[j] == rows[1..][j - 1];
        }
      }
    }
  }

  lemma RowSays(row: Row, minimum: Instant)
    ensures forall fault :: FaultOf(row) == Some(fault) <==> RowFails(row, fault)
    ensures forall t :: Hits(row, minimum) && row.time.value == t <==> RowTells(row, minimum, t)
    ensures RowPasses(row, minimum) <==> FaultOf(row).None? && !Hits(row, minimum)
  {
    assert FaultOf(row).Some? ==> RowFails(row, FaultOf(row).value);
    assert Hits(row, minimum) ==> RowTells(row, minimum, row.time.value);
  }

  // ------------------------------------------------------------ the cut

  /** FilterOldFilesInList: the loop that looks for the first file to keep. */
  function StartIndex(names: seq<string>, minimum: string, i: nat, start: nat): (r: nat)
    requires i <= |names| && start <= i && (start < |names| || start == 0)
    ensures r < |names| || r == 0
    decreases |names| - i
  {
    if i + 1 >= |names| || LexLess(minimum, names[i + 1]) then start else StartIndex(names, minimum, i + 1, i)
  }

  /** How many files are left out. */
  function LeftOut(names: seq<string>, minimum: Instant): (n: nat)
    ensures n < |names| || n == 0
  {
    if minimum == ZERO_INSTANT then 0 else StartIndex(names, LogFileName(minimum.second), 0, 0)
  }

  function Cut(names: seq<string>, minimum: Instant): seq<string> {
    names[LeftOut(names, minimum)..]
  }

  /** Without a minimum time no file is left out. */
  lemma NoMinimumNoCut(names: seq<string>)
    ensures Cut(names, ZERO_INSTANT) == names
  {
  }

  /** File `j` has a successor that does not start after the minimum. */
  predicate Passed(names: seq<string>, minimum: string, j: nat) {
    j + 1 < |names| && !LexLess(minimum, names[j + 1])
  }

  /** All files left out are passed; if any file is, so is the first one kept, and no further one. */
  lemma {:induction false} StartIndexIs(names: seq<string>, minimum: string, i: nat, start: nat)
    requires i <= |names| && start == (if i == 0 then 0 else i - 1) && (start < |names| || start == 0)
    requires forall j :: 0 <= j < i ==> Passed(names, minimum, j)
    ensures var r := StartIndex(names, minimum, i, start);
      && (forall j :: 0 <= j < r ==> Passed(names, minimum, j))
      && (Passed(names, minimum, 0) ==> Passed(names, minimum, r) && !Passed(names, minimum, r + 1))
      && (!Passed(names, minimum, 0) ==> r == 0)
    decreases |names| - i
  {
    if Passed(names, minimum, i) {
      StartIndexIs(names, minimum, i + 1, i);
    }
  }

  /** File names are the start times of the files, and a file ends before the next one starts. */
  ghost predicate InSuccession(names: seq<string>, starts: seq<Time>, files: map<string, LogFile>) {
    && |starts| == |names|
    && (forall k :: 0 <= k < |names| ==>
          starts[k].Valid() && starts[k].year <= 9999 && names[k] == LogFileName(starts[k]))
    && (forall k :: 0 <= k < |names| - 1 ==> EndsFirst(names, starts, files, k))
  }

  /** File `k` ends before file `k + 1` starts. */
  ghost predicate EndsFirst(names: seq<string>, starts: seq<Time>, files: map<string, LogFile>, k: nat)
    requires k + 1 < |names| == |starts|
  {
    EndsBefore(FileOf(files, names[k]), starts[k + 1])
  }

  ghost predicate EndsBefore(file: LogFile, start: Time) {
    file.Rows? ==> forall row :: row in file.rows && IsActivity(row) && row.time.Some? ==>
        Earlier(row.time.value.second, start)
  }

  lemma PassedIs(names: seq<string>, starts: seq<Time>, files: map<string, LogFile>, minimum: Time, j: nat)
    requires InSuccession(names, starts, files) && minimum.Valid() && minimum.year <= 9999
    ensures Passed(names, LogFileName(minimum), j) <==> j + 1 < |names| && !Earlier(minimum, starts[j + 1])
  {
    if j + 1 < |names| {
      LogFileNameOrder(minimum, starts[j + 1]);
    }
  }

  /** The first fault in the rows, or in the files, whatever time is searched for. */
  function FirstFault(rows: seq<Row>): Outcome {
    if rows == [] then NotFound
    else if FaultOf(rows[0]).Some? then Failed(FaultOf(rows[0]).value)
    else FirstFault(rows[1..])
  }

  function FaultsOfFile(file: LogFile): Outcome {
    if file.Unopened? then Failed(NotOpened) else FirstFault(file.rows)
  }

  function FirstFaultIn(names: seq<string>, files: map<string, LogFile>): Outcome {
    if names == [] then NotFound
    else
      var r := FaultsOfFile(FileOf(files, names[0]));
      if r == NotFound then FirstFaultIn(names[1..], files) else r
  }

  lemma EarlierChain(a: Time, b: Time, c: Time)
    requires Earlier(a, b) && !Earlier(c, b)
    ensures Earlier(a, c)
  {
  }

  lemma {:induction false} OldRowsSayNothing(rows: seq<Row>, start: Time, minimum: Instant)
    requires EndsBefore(Rows(rows), start) && !Earlier(minimum.second, start)
    ensures ScanRows(rows, minimum) == FirstFault(rows)
  {
    if rows != [] {
      if IsActivity(rows[0]) && rows[0].time.Some? {
        EarlierChain(rows[0].time.value.second, start, minimum.second);
      }
      assert rows[0] in rows && forall row :: row in rows[1..] ==> row in rows;
      OldRowsSayNothing(rows[1..], start, minimum);
    }
  }

  /** The file ends before the minimum time, since its successor starts no later. */
  ghost predicate Stale(name: string, next: Time, files: map<string, LogFile>, minimum: Instant) {
    EndsBefore(FileOf(files, name), next) && !Earlier(minimum.second, next)
  }

  lemma StaleFileSaysNothing(name: string, next: Time, files: map<string, LogFile>, minimum: Instant)
    requires Stale(name, next, files, minimum)
    ensures ScanFile(FileOf(files, name), minimum) == FaultsOfFile(FileOf(files, name))
  {
    var file := FileOf(files, name);
    if file.Rows? {
      assert Rows(file.rows) == file;
      OldRowsSayNothing(file.rows, next, minimum);
    }
  }

  /** Files that end before the minimum time can only fail. */
  lemma {:induction false} OldFilesSayNothing(gone: seq<string>, next: seq<Time>, files: map<string, LogFile>,
                                              minimum: Instant)
    requires |next| == |gone| && forall k :: 0 <= k < |gone| ==> Stale(gone[k], next[k], files, minimum)
    ensures Search(gone, files, minimum) == FirstFaultIn(gone, files)
  {
    if gone != [] {
      StaleFileSaysNothing(gone[0], next[0], files, minimum);
      OldFilesSayNothing(gone[1..], next[1..], files, minimum);
    }
  }

  lemma PassedIsStale(names: seq<string>, starts: seq<Time>, files: map<string, LogFile>, minimum: Instant, k: nat)
    requires InSuccession(names, starts, files) && minimum.second.Valid() && minimum.second.year <= 9999
    requires k + 1 < |names|
    ensures Passed(names, LogFileName(minimum.second), k) <==> Stale(names[k], starts[k + 1], files, minimum)
  {
    PassedIs(names, starts, files, minimum.second, k);
    assert EndsFirst(names, starts, files, k);
  }

  lemma LeftOutAreStale(names: seq<string>, starts: seq<Time>, files: map<string, LogFile>, minimum: Instant)
    requires names != [] && InSuccession(names, starts, files) && minimum.second.Valid() && minimum.second.year <= 9999
    ensures var n := LeftOut(names, minimum);
      forall k :: 0 <= k < n ==> Stale(names[..n][k], starts[1..n + 1][k], files, minimum)
  {
    var n := LeftOut(names, minimum);
    if minimum != ZERO_INSTANT {
      StartIndexIs(names, LogFileName(minimum.second), 0, 0);
      forall k | 0 <= k < n ensures Stale(names[..n][k], starts[1..n + 1][k], files, minimum) {
        PassedIsStale(names, starts, files, minimum, k);
      }
    }
  }

  lemma LeftOutPassed(names: seq<string>, minimum: Instant)
    requires minimum != ZERO_INSTANT && Passed(names, LogFileName(minimum.second), 0)
    ensures var n := LeftOut(names, minimum);
      n + 1 < |names| && Passed(names, LogFileName(minimum.second), n) &&
        !Passed(names, LogFileName(minimum.second), n + 1)
  {
    StartIndexIs(names, LogFileName(minimum.second), 0, 0);
  }

  /** One file more is kept than needed: if any file is stale, the first one kept is, and no other. */
  lemma OneFileTooMany(names: seq<string>, starts: seq<Time>, files: map<string, LogFile>, minimum: Instant)
    requires 1 < |names| && InSuccession(names, starts, files) && minimum.second.Valid() && minimum.second.year <= 9999
    requires minimum != ZERO_INSTANT && Stale(names[0], starts[1], files, minimum)
    ensures var n := LeftOut(names, minimum);
      && n + 1 < |names| && Stale(names[n], starts[n + 1], files, minimum)
      && (n + 2 < |names| ==> !Stale(names[n + 1], starts[n + 2], files, minimum))
  {
    PassedIsStale(names, starts, files, minimum, 0);
    LeftOutPassed(names, minimum);
    var n := LeftOut(names, minimum);
    PassedIsStale(names, starts, files, minimum, n);
    if n + 2 < |names| {
      PassedIsStale(names, starts, files, minimum, n + 1);
    }
  }

  /**
   Leaving old files out is invisible unless one of them is faulty: the list is
   never emptied, and the search over all files is the search over the files
   kept, except that it stops at the first fault in a file left out.
   */
  lemma CutIsInvisible(names: seq<string>, starts: seq<Time>, files: map<string, LogFile>, minimum: Instant)
    requires names != [] && InSuccession(names, starts, files)
    requires minimum.second.Valid() && minimum.second.year <= 9999
    ensures var kept := Cut(names, minimum); var gone := names[..LeftOut(names, minimum)];
      && kept != [] && names == gone + kept
      && Search(names, files, minimum) ==
           if FirstFaultIn(gone, files) == NotFound then Search(kept, files, minimum) else FirstFaultIn(gone, files)
  {
    var n := LeftOut(names, minimum);
    LeftOutAreStale(names, starts, files, minimum);
    OldFilesSayNothing(names[..n], starts[1..n + 1], files, minimum);
    SearchConcat(names[..n], names[n..], files, minimum);
    assert names == names[..n] + names[n..];
  }

  // ------------------------------------------------------------ the objects

  datatype NextFile = File(name: string) | LastFile | NoNames

  class Selector {
    var fileNames: seq<string>
    var currentIndex: nat
    var minimumTime: Instant

    constructor (names: seq<string>)
      ensures fileNames == names && currentIndex == 0 && minimumTime == ZERO_INSTANT
    {
      fileNames, currentIndex, minimumTime := names, 0, ZERO_INSTANT;
    }

    method SetMinimumTime(minimum: Instant)
      modifies this`minimumTime
      ensures minimumTime == minimum
    {
      minimumTime := minimum;
    }

    /** The next file, or why there is none: no files at all, or no more. */
    method Next() returns (r: NextFile)
      modifies this`currentIndex
      ensures r == if fileNames == [] then NoNames
                   else if old(currentIndex) < |fileNames| then File(fileNames[old(currentIndex)]) else LastFile
      ensures currentIndex == old(currentIndex) + if r.File? then 1 else 0
    {
      if |fileNames| == 0 {
        return NoNames;
      }
      if currentIndex >= |fileNames| {
        return LastFile;
      }
      r := File(fileNames[currentIndex]);
      currentIndex := currentIndex + 1;
    }

    method FilterOldFilesInList()
      modifies this`fileNames
      ensures fileNames == Cut(old(fileNames), minimumTime)
    {
      if minimumTime == ZERO_INSTANT {
        return;
      }
      var startIndex := 0;
      var minimum := LogFileName(minimumTime.second);
      var i := 0;
      while i + 1 < |fileNames|
        invariant startIndex <= i && (startIndex < |fileNames| || startIndex == 0) && i <= |fileNames|
        invariant StartIndex(fileNames, minimum, i, startIndex) == StartIndex(fileNames, minimum, 0, 0)
      {
        if LexLess(minimum, fileNames[i + 1]) {
          break;
        }
        startIndex := i;
        i := i + 1;
      }
      fileNames := fileNames[startIndex..];
    }
  }

  method ScanCSVLogFile(file: LogFile, availableTime: Instant) returns (r: Outcome)
    ensures r == ScanFile(file, availableTime)
  {
    if file.Unopened? {
      return Failed(NotOpened);
    }
    var k := 0;
    while k < |file.rows|
      invariant k <= |file.rows|
      invariant ScanRows(file.rows, availableTime) == ScanRows(file.rows[k..], availableTime)
    {
      var row := file.rows[k];
      if row.Unreadable? {
        return Failed(NotRead);
      }
      if row.width < MESSAGE_LOG_FIELDS {
        return Failed(WrongContent);
      }
      k := k + 1;
      if row.logTime == "" || !(Contains(row.message, "statement:") || Contains(row.message, "duration:")) {
        continue;
      }
      if row.time.None? {
        return Failed(WrongTime);
      }
      if Before(row.time.value, availableTime) {
        continue;
      }
      return Found(row.time.value);
    }
    return NotFound;
  }

  lemma SearchStep(kept: seq<string>, k: nat, files: map<string, LogFile>, minimum: Instant)
    requires k < |kept|
    ensures var r := ScanFile(FileOf(files, kept[k]), minimum);
      Search(kept[k..], files, minimum) == if r == NotFound then Search(kept[k + 1..], files, minimum) else r
  {
    assert kept[k..][0] == kept[k] && kept[k..][1..] == kept[k + 1..];
  }

  /** The loop over the files kept. */
  method SearchFiles(selector: Selector, files: map<string, LogFile>, minimumTime: Instant) returns (r: Outcome)
    requires selector.fileNames != [] && selector.currentIndex == 0
    modifies selector`currentIndex
    ensures r == Search(selector.fileNames, files, minimumTime)
  {
    var kept := selector.fileNames;
    while true
      invariant selector.currentIndex <= |kept|
      invariant Search(kept[selector.currentIndex..], files, minimumTime) == Search(kept, files, minimumTime)
      decreases |kept| - selector.currentIndex
    {
      var k := selector.currentIndex;
      var next := selector.Next();
      if next == LastFile {
        return NotFound;
      }
      SearchStep(kept, k, files, minimumTime);
      var activity := ScanCSVLogFile(FileOf(files, next.name), minimumTime);
      if activity != NotFound {
        return activity;
      }
    }
  }

  /** The search over the files kept; without faults in the others, what a search over all files would find. */
  method LastSessionActivity(names: seq<string>, files: map<string, LogFile>, minimumTime: Instant) returns (r: Outcome)
    ensures r == if names == [] then Failed(NoFiles) else Search(Cut(names, minimumTime), files, minimumTime)
  {
    if |names| == 0 {
      return Failed(NoFiles);
    }
    var selector := new Selector(names);
    selector.SetMinimumTime(minimumTime);
    selector.FilterOldFilesInList();
    r := SearchFiles(selector, files, minimumTime);
  }
}
