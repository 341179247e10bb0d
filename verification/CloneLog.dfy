/**
 The log of an observed clone (GetCloneLog, scanCSVLogFile and maskLogs of
 internal/observer/observer.go): the scan stops for good at the first entry
 after the session.
 */
module CloneLog {
  import opened Options
  import opened LogSearch

  const OBSERVER := "observer"
  const APPLICATION_NAME := 22

  /** A row of the CSV log of Postgres, as far as the scan lets it pass: it has an application name. */
  type Fields = s: seq<string> | |s| > APPLICATION_NAME witness seq(23, _ => "")

  type Column = c: nat | c <= APPLICATION_NAME

  /** A row with any number of columns; `time` is what the first one parses to. */
  datatype LogRow = Broken(fault: Fault) | Entry(fields: seq<string>, time: Option<Instant>)

  datatype Session = Session(startedAt: Instant, finishedAt: Instant)

  // ---------------------------------------------------------------- masking

  function ApplyRules(text: string, rules: seq<string -> string>): string
    decreases |rules|
  {
    if rules == [] then text else ApplyRules(rules[0](text), rules[1..])
  }

  /** All rules are applied, each to what the ones before it have made of the text. */
  lemma {:induction false} RulesInOrder(text: string, a: seq<string -> string>, rule: string -> string)
    ensures ApplyRules(text, []) == text && ApplyRules(text, a + [rule]) == rule(ApplyRules(text, a))
    decreases |a|
  {
    if a == [] {
      assert [] + [rule] == [rule] && [rule][1..] == [];
    } else {
      RulesInOrder(a[0](text), a[1..], rule);
      assert (a + [rule])[0] == a[0] && (a + [rule])[1..] == a[1..] + [rule];
    }
  }

  /** Every masked column replaced by what all rules, one after the other, make of it. */
  function Masked(fields: Fields, columns: seq<Column>, rules: seq<string -> string>): (r: Fields)
    ensures |r| == |fields|
    decreases |columns|
  {
    if columns == [] then fields
    else Masked(fields[columns[0] := ApplyRules(fields[columns[0]], rules)], columns[1..], rules)
  }

  /** With each column named once, exactly the named columns are masked, and each of them once. */
  lemma {:induction false} MaskedColumns(fields: Fields, columns: seq<Column>, rules: seq<string -> string>, k: nat)
    requires k < |fields| && forall i, j :: 0 <= i < j < |columns| ==> columns[i] != columns[j]
    ensures Masked(fields, columns, rules)[k] == if k in columns then ApplyRules(fields[k], rules) else fields[k]
    decreases |columns|
  {
    if columns != [] {
      var c := columns[0];
      var fields1: Fields := fields[c := ApplyRules(fields[c], rules)];
      MaskedColumns(fields1, columns[1..], rules, k);
      assert c !in columns[1..];
    }
  }

  // ------------------------------------------------------------ early exit

  datatype Verdict = Skip | Take | Stop | Fail(fault: Fault)

  function Judge(row: LogRow, s: Session): Verdict {
    if row.Broken? then Fail(row.fault)
    else if |row.fields| <= APPLICATION_NAME then Fail(Panicked)
    else if row.fields[APPLICATION_NAME] == OBSERVER then Skip
    else if row.time.None? then Fail(WrongTime)
    else if Before(row.time.value, s.startedAt) then Skip
    else if Before(s.finishedAt, row.time.value) then Stop
    else Take
  }

  datatype End = Exhausted | Boundary | Aborted(fault: Fault)

  datatype Log = Log(rows: seq<Fields>, end: End)

  function Scan(rows: seq<LogRow>, s: Session, columns: seq<Column>, rules: seq<string -> string>): Log {
    if rows == [] then Log([], Exhausted)
    else
      match Judge(rows[0], s)
      case Stop => Log([], Boundary)
      case Fail(fault) => Log([], Aborted(fault))
      case Skip => Scan(rows[1..], s, columns, rules)
      case Take =>
        var rest := Scan(rows[1..], s, columns, rules);
        Log([Masked(rows[0].fields, columns, rules)] + rest.rows, rest.end)
  }

  /** A file that cannot be opened counts as one broken row. */
  function RowsOf(files: map<string, seq<LogRow>>, name: string): seq<LogRow> {
    if name in files then files[name] else [Broken(NotOpened)]
  }

  /** The rows of all files, in order. */
  function Rows(names: seq<string>, files: map<string, seq<LogRow>>): seq<LogRow> {
    if names == [] then [] else RowsOf(files, names[0]) + Rows(names[1..], files)
  }

  function Chain(a: Log, b: Log): Log {
    if a.end == Exhausted then Log(a.rows + b.rows, b.end) else a
  }

  /** Scanning one file after another is scanning all their rows. */
  lemma {:induction false} ScanConcat(a: seq<LogRow>, b: seq<LogRow>, s: Session, columns: seq<Column>,
                                      rules: seq<string -> string>)
    ensures Scan(a + b, s, columns, rules) == Chain(Scan(a, s, columns, rules), Scan(b, s, columns, rules))
  {
    if a == [] {
      assert a + b == b;
    } else {
      ScanConcat(a[1..], b, s, columns, rules);
      assert (a + b)[0] == a[0] && (a + b)[1..] == a[1..] + b;
      var rest, after := Scan(a[1..], s, columns, rules), Scan(b, s, columns, rules);
      var m: seq<Fields> := if Judge(a[0], s).Take? then [Masked(a[0].fields, columns, rules)] else [];
      ConcatAssociates(m, rest.rows, after.rows);
    }
  }

  // ---------------------------------------------------------- plain filter

  /** An entry of the session: within its time and not the observer's own. */
  predicate Wanted(row: LogRow, s: Session) {
    && row.Entry? && |row.fields| > APPLICATION_NAME && row.fields[APPLICATION_NAME] != OBSERVER && row.time.Some?
    && !Before(row.time.value, s.startedAt) && !Before(s.finishedAt, row.time.value)
  }

  /** All entries of the session, masked. */
  function Filtered(rows: seq<LogRow>, s: Session, columns: seq<Column>, rules: seq<string -> string>): seq<Fields> {
    if rows == [] then []
    else
      (if Wanted(rows[0], s) then [Masked(rows[0].fields, columns, rules)] else [])
      + Filtered(rows[1..], s, columns, rules)
  }

  /** The first row at which the scan ends early. */
  function FirstEnd(rows: seq<LogRow>, s: Session): (k: nat)
    ensures k <= |rows|
    ensures k < |rows| ==> Judge(rows[k], s).Stop? || Judge(rows[k], s).Fail?
    ensures forall j :: 0 <= j < k ==> !Judge(rows[j], s).Stop? && !Judge(rows[j], s).Fail?
  {
    if rows == [] || Judge(rows[0], s).Stop? || Judge(rows[0], s).Fail? then 0 else 1 + FirstEnd(rows[1..], s)
  }

  lemma {:induction false} FilteredConcat(a: seq<LogRow>, b: seq<LogRow>, s: Session, columns: seq<Column>,
                                          rules: seq<string -> string>)
    ensures Filtered(a + b, s, columns, rules) == Filtered(a, s, columns, rules) + Filtered(b, s, columns, rules)
  {
    if a == [] {
      assert a + b == b;
    } else {
      FilteredConcat(a[1..], b, s, columns, rules);
      assert (a + b)[0] == a[0] && (a + b)[1..] == a[1..] + b;
      var m: seq<Fields> := if Wanted(a[0], s) then [Masked(a[0].fields, columns, rules)] else [];
      ConcatAssociates(m, Filtered(a[1..], s, columns, rules), Filtered(b, s, columns, rules));
    }
  }

  lemma ConcatAssociates<T>(a: seq<T>, b: seq<T>, c: seq<T>)
    ensures a + (b + c) == a + b + c
  {
  }

  lemma {:induction false} FilteredEmpty(rows: seq<LogRow>, s: Session, columns: seq<Column>,
                                         rules: seq<string -> string>)
    ensures Filtered(rows, s, columns, rules) == [] <==> forall k :: 0 <= k < |rows| ==> !Wanted(rows[k], s)
  {
    if rows != [] {
      FilteredEmpty(rows[1..], s, columns, rules);
    }
  }

  /** The scan is the plain filter of the rows before its end. */
  lemma {:induction false} ScanIsPrefix(rows: seq<LogRow>, s: Session, columns: seq<Column>,
                                        rules: seq<string -> string>)
    ensures var k := FirstEnd(rows, s);
      Scan(rows, s, columns, rules) == Log(Filtered(rows[..k], s, columns, rules),
        if k == |rows| then Exhausted
        else if Judge(rows[k], s).Stop? then Boundary
        else Aborted(Judge(rows[k], s).fault))
  {
    if rows != [] {
      var k := FirstEnd(rows, s);
      if k > 0 {
        ScanIsPrefix(rows[1..], s, columns, rules);
        assert rows[..k][0] == rows[0] && rows[..k][1..] == rows[1..][..k - 1];
      }
    }
  }

  // -------------------------------------------------- what each row comes to

  /**
   What is wrong with the row: it cannot be read, is too short, or is an entry, not the
   observer's, without a time.
   */
  ghost predicate Faulty(row: LogRow, fault: Fault) {
    match row
    case Broken(f) => fault == f
    case Entry(fields, time) =>
      if |fields| < 23 then fault == Panicked else fields[22] != "observer" && time.None? && fault == WrongTime
  }

  /** An entry, not the observer's, from after the session. */
  predicate IsAfter(row: LogRow, s: Session) {
    && row.Entry? && |row.fields| >= 23 && row.fields[22] != "observer" && row.time.Some?
    && !Before(row.time.value, s.startedAt) && Before(s.finishedAt, row.time.value)
  }

  /** An entry, not the observer's, from within the session. */
  predicate IsWithin(row: LogRow, s: Session) {
    && row.Entry? && |row.fields| >= 23 && row.fields[22] != "observer" && row.time.Some?
    && !Before(row.time.value, s.startedAt) && !Before(s.finishedAt, row.time.value)
  }

  lemma JudgeIs(row: LogRow, s: Session)
    ensures forall fault :: Judge(row, s) == Fail(fault) <==> Faulty(row, fault)
    ensures Judge(row, s).Stop? <==> IsAfter(row, s)
    ensures Judge(row, s).Take? <==> IsWithin(row, s)
    ensures Wanted(row, s) <==> IsWithin(row, s)
  {
  }

  /** The scan gets past these rows. */
  ghost predicate Passes(rows: seq<LogRow>, k: nat, s: Session)
    requires k <= |rows|
  {
    forall j :: 0 <= j < k ==> !IsAfter(rows[j], s) && forall fault :: !Faulty(rows[j], fault)
  }

  /** The request fails exactly with the first fault that no entry from after the session precedes. */
  lemma FailsIff(rows: seq<LogRow>, s: Session, header: string, columns: seq<Column>, rules: seq<string -> string>,
                 f: Fault)
    ensures Reported(rows, s, header, columns, rules) == Error(f) <==>
      exists k: nat :: k < |rows| && Faulty(rows[k], f) && Passes(rows, k, s)
  {
    var n := FirstEnd(rows, s);
    ScanIsPrefix(rows, s, columns, rules);
    forall k: nat | k < |rows| {
      JudgeIs(rows[k], s);
    }
    assert Passes(rows, n, s);
    if k: nat :| k < |rows| && Faulty(rows[k], f) && Passes(rows, k, s) {
      assert Judge(rows[k], s) == Fail(f);
      assert k == n;
    }
  }

  /** Otherwise the log has, in order, the masked entries from within the session before the first one from after it. */
  lemma LogIs(rows: seq<LogRow>, s: Session, header: string, columns: seq<Column>, rules: seq<string -> string>)
    returns (n: nat)
    ensures n <= |rows| && Passes(rows, n, s)
    ensures Reported(rows, s, header, columns, rules).Lines? ==>
      && (n == |rows| || IsAfter(rows[n], s))
      && Reported(rows, s, header, columns, rules) == Lines(header, Filtered(rows[..n], s, columns, rules))
  {
    n := FirstEnd(rows, s);
    ScanIsPrefix(rows, s, columns, rules);
    forall k: nat | k < |rows| {
      JudgeIs(rows[k], s);
    }
  }

  datatype Reply = Error(fault: Fault) | Lines(header: string, rows: seq<Fields>)

  /** GetCloneLog over the rows of all files. */
  function Reported(rows: seq<LogRow>, s: Session, header: string, columns: seq<Column>,
                    rules: seq<string -> string>): Reply {
    var log := Scan(rows, s, columns, rules);
    if log.end.Aborted? then Error(log.end.fault) else Lines(header, log.rows)
  }

  lemma NothingMore<T>(a: seq<T>, b: seq<T>)
    ensures a == a + b <==> b == []
  {
    assert |a + b| == |a| + |b|;
  }

  /** What the filter finds before and behind some row. */
  lemma FilteredSplit(rows: seq<LogRow>, k: nat, s: Session, columns: seq<Column>, rules: seq<string -> string>)
    requires k <= |rows|
    ensures Filtered(rows[..k], s, columns, rules) == Filtered(rows, s, columns, rules) <==>
        forall j :: k <= j < |rows| ==> !Wanted(rows[j], s)
  {
    assert rows == rows[..k] + rows[k..];
    FilteredConcat(rows[..k], rows[k..], s, columns, rules);
    NothingMore(Filtered(rows[..k], s, columns, rules), Filtered(rows[k..], s, columns, rules));
    FilteredEmpty(rows[k..], s, columns, rules);
    assert forall j :: k <= j < |rows| ==> rows[j] == rows[k..][j - k];
  }

  /**
   The log is the plain filter of all entries if and only if the scan does not
   fail and no wanted entry stands behind the first one after the session.
   */
  lemma ReportedIsFilterIff(rows: seq<LogRow>, s: Session, header: string, columns: seq<Column>,
                            rules: seq<string -> string>)
    ensures Reported(rows, s, header, columns, rules) == Lines(header, Filtered(rows, s, columns, rules)) <==>
      var k := FirstEnd(rows, s);
      k == |rows| || (Judge(rows[k], s).Stop? && forall j :: k < j < |rows| ==> !Wanted(rows[j], s))
  {
    var k := FirstEnd(rows, s);
    ScanIsPrefix(rows, s, columns, rules);
    FilteredSplit(rows, k, s, columns, rules);
    if k < |rows| {
      assert !Wanted(rows[k], s);
      assert (forall j :: k <= j < |rows| ==> !Wanted(rows[j], s)) <==>
          (forall j :: k < j < |rows| ==> !Wanted(rows[j], s));
    }
  }

  /** Entries other than the observer's have times, and they do not go back. */
  ghost predicate InTimeOrder(rows: seq<LogRow>) {
    forall i, j :: 0 <= i < j < |rows| && Timed(rows[i]) && Timed(rows[j]) ==>
        !Before(rows[j].time.value, rows[i].time.value)
  }

  predicate Timed(row: LogRow) {
    row.Entry? && row.time.Some?
  }

  /** When times do not go back, early exit loses nothing: the log is the plain filter unless it fails. */
  lemma InOrderIsFilter(rows: seq<LogRow>, s: Session, header: string, columns: seq<Column>,
                        rules: seq<string -> string>)
    requires InTimeOrder(rows)
    ensures Reported(rows, s, header, columns, rules).Lines? ==>
      Reported(rows, s, header, columns, rules) == Lines(header, Filtered(rows, s, columns, rules))
    ensures (forall k :: 0 <= k < |rows| ==> !Judge(rows[k], s).Fail?) ==>
        Reported(rows, s, header, columns, rules).Lines?
  {
    var k := FirstEnd(rows, s);
    ScanIsPrefix(rows, s, columns, rules);
    ReportedIsFilterIff(rows, s, header, columns, rules);
    if k < |rows| && Judge(rows[k], s).Stop? {
      forall j | k < j < |rows| ensures !Wanted(rows[j], s) {
        if Wanted(rows[j], s) {
          assert Timed(rows[k]) && Timed(rows[j]);
          NotBackwards(s.finishedAt, rows[k].time.value, rows[j].time.value);
        }
      }
    }
  }

  lemma NotBackwards(a: Instant, b: Instant, c: Instant)
    requires Before(a, b) && !Before(c, b)
    ensures Before(a, c)
  {
  }

  // ------------------------------------------------------------ the methods

  method MaskLogs(entry: array<string>, maskedFieldIndexes: seq<Column>, rules: seq<string -> string>)
    requires entry.Length > APPLICATION_NAME
    modifies entry
    ensures entry[..] == Masked(old(entry[..]), maskedFieldIndexes, rules)
  {
    for i := 0 to |maskedFieldIndexes|
      invariant Masked(entry[..], maskedFieldIndexes[i..], rules) == Masked(old(entry[..]), maskedFieldIndexes, rules)
    {
      var c := maskedFieldIndexes[i];
      ghost var before := entry[..];
      for r := 0 to |rules|
        invariant ApplyRules(entry[c], rules[r..]) == ApplyRules(before[c], rules)
        invariant entry[..] == before[c := entry[c]]
      {
        entry[c] := rules[r](entry[c]);
      }
    }
  }

  /** An entry as the reader allots it, masked in place if there are rules. */
  method MaskedEntry(fields: Fields, columns: seq<Column>, rules: seq<string -> string>) returns (r: Fields)
    ensures r == Masked(fields, columns, rules)
  {
    var entry := new string[|fields|](i requires 0 <= i < |fields| => fields[i]);
    assert entry[..] == fields;
    if |rules| > 0 {
      MaskLogs(entry, columns, rules);
    } else {
      NoRules(fields, columns, rules);
    }
    r := entry[..];
  }

  /** What the scan does with one row. */
  method JudgeRow(row: LogRow, s: Session) returns (verdict: Verdict)
    ensures verdict == Judge(row, s)
  {
    if row.Broken? {
      return Fail(row.fault);
    }
    if |row.fields| <= APPLICATION_NAME {
      return Fail(Panicked);
    }
    if row.fields[APPLICATION_NAME] == OBSERVER {
      return Skip;
    }
    if row.time.None? {
      return Fail(WrongTime);
    }
    if Before(row.time.value, s.startedAt) {
      return Skip;
    }
    if Before(s.finishedAt, row.time.value) {
      return Stop;
    }
    return Take;
  }

  method ScanCSVLogFile(reader: seq<LogRow>, s: Session, columns: seq<Column>, rules: seq<string -> string>)
    returns (log: Log)
    ensures log == Scan(reader, s, columns, rules)
  {
    var written: seq<Fields> := [];
    for k := 0 to |reader|
      invariant Chain(Log(written, Exhausted), Scan(reader[k..], s, columns, rules)) == Scan(reader, s, columns, rules)
    {
      ScanNext(written, reader, k, s, columns, rules);
      var verdict := JudgeRow(reader[k], s);
      match verdict {
        case Fail(fault) => return Log(written, Aborted(fault));
        case Stop => return Log(written, Boundary);
        case Skip =>
        case Take =>
          var entry := MaskedEntry(reader[k].fields, columns, rules);
          written := written + [entry];
      }
    }
    return Log(written, Exhausted);
  }

  lemma ScanNext(written: seq<Fields>, reader: seq<LogRow>, k: nat, s: Session, columns: seq<Column>,
                 rules: seq<string -> string>)
    requires k < |reader|
    ensures var rest := Scan(reader[k + 1..], s, columns, rules);
      Chain(Log(written, Exhausted), Scan(reader[k..], s, columns, rules)) ==
        match Judge(reader[k], s)
        case Fail(fault) => Log(written, Aborted(fault))
        case Stop => Log(written, Boundary)
        case Skip => Chain(Log(written, Exhausted), rest)
        case Take => Chain(Log(written + [Masked(reader[k].fields, columns, rules)], Exhausted), rest)
  {
    assert reader[k..][0] == reader[k] && reader[k..][1..] == reader[k + 1..];
    if Judge(reader[k], s).Take? {
      ConcatAssociates(written, [Masked(reader[k].fields, columns, rules)],
                       Scan(reader[k + 1..], s, columns, rules).rows);
    }
  }

  lemma {:induction false} NoRules(fields: Fields, columns: seq<Column>, rules: seq<string -> string>)
    requires rules == []
    ensures Masked(fields, columns, rules) == fields
  {
    if columns != [] {
      assert fields[columns[0] := fields[columns[0]]] == fields;
      NoRules(fields, columns[1..], rules);
    }
  }

  /** All files in the order of the selector, which is not told to leave any out. */
  method GetCloneLog(names: seq<string>, files: map<string, seq<LogRow>>, s: Session,
                     header: string, columns: seq<Column>, rules: seq<string -> string>) returns (r: Reply)
    ensures r == if names == [] then Error(NoFiles) else Reported(Rows(names, files), s, header, columns, rules)
  {
    if |names| == 0 {
      return Error(NoFiles);
    }
    var fileSelector := new Selector(names);
    fileSelector.SetMinimumTime(s.startedAt);
    var buffer: seq<Fields> := [];
    for k := 0 to |names|
      invariant fileSelector.fileNames == names && fileSelector.currentIndex == k
      invariant Chain(Log(buffer, Exhausted), Scan(Rows(names[k..], files), s, columns, rules)) ==
        Scan(Rows(names, files), s, columns, rules)
    {
      var filename := fileSelector.Next();
      var log := ScanCSVLogFile(RowsOf(files, filename.name), s, columns, rules);
      NextFile(names, k, files, s, columns, rules);
      ChainStep(buffer, log, Scan(Rows(names[k + 1..], files), s, columns, rules));
      buffer := buffer + log.rows;
      if log.end.Aborted? {
        return Error(log.end.fault);
      }
      if log.end == Boundary {
        return Lines(header, buffer);
      }
    }
    return Lines(header, buffer);
  }

  lemma NextFile(names: seq<string>, k: nat, files: map<string, seq<LogRow>>, s: Session, columns: seq<Column>,
                 rules: seq<string -> string>)
    requires k < |names|
    ensures Scan(Rows(names[k..], files), s, columns, rules) ==
      Chain(Scan(RowsOf(files, names[k]), s, columns, rules), Scan(Rows(names[k + 1..], files), s, columns, rules))
  {
    ScanConcat(RowsOf(files, names[k]), Rows(names[k + 1..], files), s, columns, rules);
    assert names[k..][0] == names[k] && names[k..][1..] == names[k + 1..];
  }

  lemma ChainStep(buffer: seq<Fields>, log: Log, rest: Log)
    ensures Chain(Log(buffer, Exhausted), Chain(log, rest)) ==
      if log.end == Exhausted then Chain(Log(buffer + log.rows, Exhausted), rest) else Log(buffer + log.rows, log.end)
  {
  }
}
