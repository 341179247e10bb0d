/**
 Timestamps as text (pkg/util/time.go, the log file names of
 pkg/util/pglog/activity.go). The engine compares these texts with Go's string
 order, so their order has to agree with time.
 */
module TimeText {
  import opened Text

  /** A UTC time to the second. */
  datatype Time = Time(year: nat, month: nat, day: nat, hour: nat, minute: nat, second: nat) {
    predicate Valid() {
      1 <= month <= 12 && 1 <= day <= 31 && hour < 24 && minute < 60 && second < 60
    }
  }

  /** Go's zero time, which a snapshot without a data state carries. */
  const ZERO_TIME := Time(1, 1, 1, 0, 0, 0)

  predicate Earlier(a: Time, b: Time) {
    if a.year != b.year then a.year < b.year
    else if a.month != b.month then a.month < b.month
    else if a.day != b.day then a.day < b.day
    else if a.hour != b.hour then a.hour < b.hour
    else if a.minute != b.minute then a.minute < b.minute
    else a.second < b.second
  }

  /** FormatTime: `%d-%02d-%02d %02d:%02d:%02d UTC` */
  function FormatTime(t: Time): string {
    Decimal(t.year) + ("-" + (Padded(t.month, 2) + ("-" + (Padded(t.day, 2) + (" " + Clock(t, ":", " UTC"))))))
  }

  /** Hour, minute and second, with what stands between and after them. */
  function Clock(t: Time, sep: string, end: string): string {
    Padded(t.hour, 2) + (sep + (Padded(t.minute, 2) + (sep + (Padded(t.second, 2) + end))))
  }

  /** Names of CSV log files: `postgresql-2006-01-02_150405.csv` */
  function LogFileName(t: Time): string {
    "postgresql-"
    + (Padded(t.year, 4) + ("-" + (Padded(t.month, 2) + ("-" + (Padded(t.day, 2) + ("_" + Clock(t, "", ".csv")))))))
  }

  /** One fixed-width field followed by the same separator decides first. */
  lemma FieldOrder(x: nat, y: nat, w: nat, sep: string, s: string, t: string)
    requires x < Pow10(w) && y < Pow10(w)
    ensures LexLess(Padded(x, w) + (sep + s), Padded(y, w) + (sep + t)) <==> x < y || (x == y && LexLess(s, t))
  {
    PaddedOrder(x, y, w);
    LexConcat(Padded(x, w), sep + s, Padded(y, w), sep + t);
    LexConcat(sep, s, sep, t);
    LexIrreflexive(sep);
  }

  lemma TwoDigits()
    ensures Pow10(2) == 100 && Pow10(4) == 10000 && Pow10(3) == 1000
  {
  }

  lemma ClockOrder(a: Time, b: Time, sep: string, end: string)
    requires a.Valid() && b.Valid()
    ensures LexLess(Clock(a, sep, end), Clock(b, sep, end)) <==>
      Earlier(a.(year := 0, month := 0, day := 0), b.(year := 0, month := 0, day := 0))
  {
    TwoDigits();
    FieldOrder(a.second, b.second, 2, end, "", "");
    assert end + "" == end;
    FieldOrder(a.minute, b.minute, 2, sep, Padded(a.second, 2) + end, Padded(b.second, 2) + end);
    FieldOrder(a.hour, b.hour, 2, sep, Padded(a.minute, 2) + (sep + (Padded(a.second, 2) + end)),
               Padded(b.minute, 2) + (sep + (Padded(b.second, 2) + end)));
  }

  /** Everything after the year. */
  lemma DateOrder(a: Time, b: Time, join: string, sep: string, end: string)
    requires a.Valid() && b.Valid()
    ensures LexLess(Padded(a.month, 2) + ("-" + (Padded(a.day, 2) + (join + Clock(a, sep, end)))),
                    Padded(b.month, 2) + ("-" + (Padded(b.day, 2) + (join + Clock(b, sep, end))))) <==>
      Earlier(a.(year := 0), b.(year := 0))
  {
    TwoDigits();
    ClockOrder(a, b, sep, end);
    FieldOrder(a.day, b.day, 2, join, Clock(a, sep, end), Clock(b, sep, end));
    FieldOrder(a.month, b.month, 2, "-", Padded(a.day, 2) + (join + Clock(a, sep, end)),
               Padded(b.day, 2) + (join + Clock(b, sep, end)));
  }

  /** How many digits `%d` prints. */
  function Digits(n: nat): (w: nat)
    ensures w > 0 && n < Pow10(w) && (w == 1 || Pow10(w - 1) <= n)
    ensures Decimal(n) == Padded(n, w)
  {
    DigitsOf(n);
    |Decimal(n)|
  }

  lemma {:induction false} DigitsOf(n: nat)
    ensures var w := |Decimal(n)|; w > 0 && n < Pow10(w) && (w == 1 || Pow10(w - 1) <= n) && Decimal(n) == Padded(n, w)
    decreases n
  {
    if n < 10 {
      assert Pow10(1) == 10;
      DecimalIsPadded(n, 1);
    } else {
      DigitsOf(n / 10);
      DecimalIsPadded(n, |Decimal(n)|);
    }
  }

  /** Comparing formatted times compares the times, as long as their years have equally many digits. */
  lemma FormatTimeOrder(a: Time, b: Time)
    requires a.Valid() && b.Valid() && Digits(a.year) == Digits(b.year)
    ensures LexLess(FormatTime(a), FormatTime(b)) <==> Earlier(a, b)
  {
    DateOrder(a, b, " ", ":", " UTC");
    FieldOrder(a.year, b.year, Digits(a.year), "-",
               Padded(a.month, 2) + ("-" + (Padded(a.day, 2) + (" " + Clock(a, ":", " UTC")))),
               Padded(b.month, 2) + ("-" + (Padded(b.day, 2) + (" " + Clock(b, ":", " UTC")))));
  }

  /** The zero time is printed with a one-digit year, and comes before all times of longer years. */
  lemma ZeroTimeFirst(t: Time)
    requires t.Valid() && Digits(t.year) > 1
    ensures LexLess(FormatTime(ZERO_TIME), FormatTime(t)) && !LexLess(FormatTime(t), FormatTime(ZERO_TIME))
  {
    var z, f := FormatTime(ZERO_TIME), FormatTime(t);
    assert Decimal(1) == ['1'];
    assert z[0] == '1' && z[1] == '-';
    assert Pow10(1) == 10 && t.year >= 10 by { PowMonotone(1, Digits(t.year) - 1); }
    LeadingDigit(t.year);
    assert f[0] == Decimal(t.year)[0] && f[1] == Decimal(t.year)[1];
    assert z[1..][0] == '-' && f[1..][0] == f[1];
  }

  lemma {:induction false} PowMonotone(v: nat, w: nat)
    requires v <= w
    ensures Pow10(v) <= Pow10(w)
  {
    if v < w {
      PowMonotone(v, w - 1);
    }
  }

  lemma LeadingDigit(n: nat)
    requires n >= 10
    ensures |Decimal(n)| >= 2 && Decimal(n)[0] >= '1'
    decreases n
  {
  }

  /** All years of the range are compared rightly by their printed times. */
  ghost predicate YearsOrdered(lo: nat, hi: nat) {
    forall a, b :: InYears(a, lo, hi) && InYears(b, lo, hi) ==>
        (LexLess(FormatTime(a), FormatTime(b)) <==> Earlier(a, b))
  }

  predicate InYears(t: Time, lo: nat, hi: nat) {
    t.Valid() && lo <= t.year < hi
  }

  function NewYear(year: nat): Time {
    Time(year, 1, 1, 0, 0, 0)
  }

  /** Years below a power of ten begin with a nine at its end, those from it on with a one at its beginning. */
  lemma {:induction false} LastAndFirst(w: nat)
    requires w > 0
    ensures Decimal(Pow10(w) - 1)[0] == '9' && Decimal(Pow10(w))[0] == '1'
  {
    if w == 1 {
      assert Pow10(1) == 10 && Decimal(10)[0] == Decimal(1)[0] == '1' && Decimal(9)[0] == '9';
    } else {
      LastAndFirst(w - 1);
      assert (Pow10(w) - 1) / 10 == Pow10(w - 1) - 1 && Pow10(w) / 10 == Pow10(w - 1) && Pow10(w - 1) >= 10;
    }
  }

  /** At every power of ten the order turns round. */
  lemma TurnOfYears(w: nat)
    requires w > 0
    ensures Earlier(NewYear(Pow10(w) - 1), NewYear(Pow10(w))) &&
      !LexLess(FormatTime(NewYear(Pow10(w) - 1)), FormatTime(NewYear(Pow10(w))))
    ensures FormatTime(NewYear(Pow10(w) - 1)) != ""
  {
    LastAndFirst(w);
    var a, b := FormatTime(NewYear(Pow10(w) - 1)), FormatTime(NewYear(Pow10(w)));
    assert a[0] == '9' && b[0] == '1';
  }

  /**
   Printed times are ordered as times over a range of years if and only if it does not reach the
   next power of ten above its beginning.
   */
  lemma YearsOrderedIff(lo: nat, hi: nat)
    requires lo < hi
    ensures YearsOrdered(lo, hi) <==> hi <= Pow10(Digits(lo))
  {
    var w := Digits(lo);
    if hi <= Pow10(w) {
      forall a, b | InYears(a, lo, hi) && InYears(b, lo, hi)
        ensures LexLess(FormatTime(a), FormatTime(b)) <==> Earlier(a, b)
      {
        SameDigits(lo, a.year);
        SameDigits(lo, b.year);
        FormatTimeOrder(a, b);
      }
    } else {
      TurnOfYears(w);
      assert InYears(NewYear(Pow10(w) - 1), lo, hi) && InYears(NewYear(Pow10(w)), lo, hi);
    }
  }

  lemma SameDigits(lo: nat, n: nat)
    requires lo <= n < Pow10(Digits(lo))
    ensures Digits(n) == Digits(lo)
  {
    var v, w := Digits(lo), Digits(n);
    if v < w {
      PowMonotone(v, w - 1);
    } else if w < v {
      PowMonotone(w, v - 1);
    }
  }

  /** Log file names are ordered as the times they carry, for all years they can carry. */
  lemma LogFileNameOrder(a: Time, b: Time)
    requires a.Valid() && b.Valid() && a.year <= 9999 && b.year <= 9999
    ensures LexLess(LogFileName(a), LogFileName(b)) <==> Earlier(a, b)
  {
    TwoDigits();
    DateOrder(a, b, "_", "", ".csv");
    var x := Padded(a.month, 2) + ("-" + (Padded(a.day, 2) + ("_" + Clock(a, "", ".csv"))));
    var y := Padded(b.month, 2) + ("-" + (Padded(b.day, 2) + ("_" + Clock(b, "", ".csv"))));
    FieldOrder(a.year, b.year, 4, "-", x, y);
    LexConcat("postgresql-", Padded(a.year, 4) + ("-" + x), "postgresql-", Padded(b.year, 4) + ("-" + y));
    LexIrreflexive("postgresql-");
  }
}
