/** Date utilities of common/dates.py: `DD/MM/YYYY` strings, proleptic Gregorian calendar
    dates with Python's day ordinals, inclusive date ranges and day offsets. */
module Dates {
  import opened Wrappers
  import opened Text

  /** A calendar date as Python's `datetime.date` holds it. */
  datatype Date = Date(year: int, month: int, day: int)

  const MaxYear: int := 9999
  /** The ordinal of 31/12/9999, Python's `date.max`. */
  const MaxOrdinal: int := 3652059

  predicate IsLeap(y: int)
  {
    y % 4 == 0 && (y % 100 != 0 || y % 400 == 0)
  }

  function DaysInYear(y: int): int
  {
    if IsLeap(y) then 366 else 365
  }

  function DaysInMonth(y: int, m: int): int
    requires 1 <= m <= 12
  {
    if m == 2 then (if IsLeap(y) then 29 else 28)
    else if m == 4 || m == 6 || m == 9 || m == 11 then 30
    else 31
  }

  /** The dates `datetime.date` accepts: years 1 to 9999 and a day that exists in its month. */
  predicate ValidDate(d: Date)
  {
    1 <= d.year <= MaxYear && 1 <= d.month <= 12 && 1 <= d.day <= DaysInMonth(d.year, d.month)
  }

  /** Number of days in the years before `y`, counted from year 1. */
  function DaysBeforeYear(y: int): (n: nat)
    requires y >= 1
  {
    if y == 1 then 0 else DaysBeforeYear(y - 1) + DaysInYear(y - 1)
  }

  /** Number of days in year `y` before the first of month `m`. */
  function DaysBeforeMonth(y: int, m: int): (n: nat)
    requires 1 <= m <= 12
  {
    if m == 1 then 0 else DaysBeforeMonth(y, m - 1) + DaysInMonth(y, m - 1)
  }

  lemma DivStep(q: int, k: int)
    requires q >= 0 && (k == 4 || k == 100 || k == 400)
    ensures (q + 1) / k == q / k + (if (q + 1) % k == 0 then 1 else 0)
  {
  }

  lemma LeapDivisors(p: int)
    ensures p % 400 == 0 ==> p % 100 == 0
    ensures p % 100 == 0 ==> p % 4 == 0
  {
  }

  /** CPython's closed form `365 * p + p // 4 - p // 100 + p // 400` (with `p = y - 1`)
      agrees with counting the years one by one. */
  lemma {:induction false} DaysBeforeYearClosedForm(y: int)
    requires y >= 1
    ensures DaysBeforeYear(y) == (y - 1) * 365 + (y - 1) / 4 - (y - 1) / 100 + (y - 1) / 400
  {
    if y > 1 {
      DaysBeforeYearClosedForm(y - 1);
      var q := y - 2;
      DivStep(q, 4);
      DivStep(q, 100);
      DivStep(q, 400);
      LeapDivisors(y - 1);
    }
  }

  /** The months' lengths add up to the year's. */
  lemma MonthTable(y: int)
    ensures DaysBeforeMonth(y, 12) + DaysInMonth(y, 12) == DaysInYear(y)
  {
    assert DaysBeforeMonth(y, 2) == 31;
    assert DaysBeforeMonth(y, 3) == 59 + (if IsLeap(y) then 1 else 0);
    assert DaysBeforeMonth(y, 4) == 90 + (if IsLeap(y) then 1 else 0);
    assert DaysBeforeMonth(y, 5) == 120 + (if IsLeap(y) then 1 else 0);
    assert DaysBeforeMonth(y, 6) == 151 + (if IsLeap(y) then 1 else 0);
    assert DaysBeforeMonth(y, 7) == 181 + (if IsLeap(y) then 1 else 0);
    assert DaysBeforeMonth(y, 8) == 212 + (if IsLeap(y) then 1 else 0);
    assert DaysBeforeMonth(y, 9) == 243 + (if IsLeap(y) then 1 else 0);
    assert DaysBeforeMonth(y, 10) == 273 + (if IsLeap(y) then 1 else 0);
    assert DaysBeforeMonth(y, 11) == 304 + (if IsLeap(y) then 1 else 0);
    assert DaysBeforeMonth(y, 12) == 334 + (if IsLeap(y) then 1 else 0);
  }

  /** `date.toordinal()`: 01/01/0001 is day 1. */
  function Ordinal(d: Date): int
    requires ValidDate(d)
  {
    DaysBeforeYear(d.year) + DaysBeforeMonth(d.year, d.month) + d.day
  }

  lemma LastDayIsMaxOrdinal()
    ensures DaysBeforeYear(MaxYear) + DaysInYear(MaxYear) == MaxOrdinal
    ensures Ordinal(Date(MaxYear, 12, 31)) == MaxOrdinal
  {
    DaysBeforeYearClosedForm(MaxYear);
    MonthTable(MaxYear);
  }

  /** The date that is day `n` (counting from 1) of month `m` onwards in year `y`. */
  function MonthFrom(y: int, m: int, n: int): (d: Date)
    requires 1 <= y <= MaxYear && 1 <= m <= 12
    requires 1 <= n && DaysBeforeMonth(y, m) + n <= DaysInYear(y)
    ensures ValidDate(d) && d.year == y && m <= d.month
    ensures DaysBeforeMonth(y, d.month) + d.day == DaysBeforeMonth(y, m) + n
    decreases 12 - m
  {
    MonthTable(y);
    if n <= DaysInMonth(y, m) then Date(y, m, n)
    else MonthFrom(y, m + 1, n - DaysInMonth(y, m))
  }

  /** The date that is day `n` (counting from 1) from 1 January of year `y` onwards. */
  function CivilFrom(y: int, n: int): (d: Date)
    requires 1 <= y <= MaxYear && 1 <= n && DaysBeforeYear(y) + n <= MaxOrdinal
    ensures ValidDate(d) && y <= d.year
    ensures Ordinal(d) == DaysBeforeYear(y) + n
    decreases MaxYear - y
  {
    LastDayIsMaxOrdinal();
    if n <= DaysInYear(y) then MonthFrom(y, 1, n)
    else CivilFrom(y + 1, n - DaysInYear(y))
  }

  /** `date.fromordinal(n)`. */
  function FromOrdinal(n: int): (d: Date)
    requires 1 <= n <= MaxOrdinal
    ensures ValidDate(d) && Ordinal(d) == n
  {
    CivilFrom(1, n)
  }

  /** Python compares dates as (year, month, day) tuples. */
  predicate LexLess(a: Date, b: Date)
  {
    a.year < b.year || (a.year == b.year && (a.month < b.month || (a.month == b.month && a.day < b.day)))
  }

  predicate AtOrBefore(a: Date, b: Date)
  {
    a == b || LexLess(a, b)
  }

  lemma {:induction false} DaysBeforeYearMonotone(y: int, z: int)
    requires 1 <= y <= z
    ensures DaysBeforeYear(y) + (z - y) * 365 <= DaysBeforeYear(z)
    decreases z - y
  {
    if y < z {
      DaysBeforeYearMonotone(y, z - 1);
    }
  }

  lemma {:induction false} DaysBeforeMonthMonotone(y: int, m: int, k: int)
    requires 1 <= m < k <= 12
    ensures DaysBeforeMonth(y, m) + DaysInMonth(y, m) <= DaysBeforeMonth(y, k)
    decreases k - m
  {
    if m + 1 < k {
      DaysBeforeMonthMonotone(y, m, k - 1);
    }
  }

  /** The tuple order on valid dates is the order of their ordinals. */
  lemma LexLessIsOrdinalLess(a: Date, b: Date)
    requires ValidDate(a) && ValidDate(b)
    ensures LexLess(a, b) <==> Ordinal(a) < Ordinal(b)
  {
    if LexLess(a, b) {
      OrdinalBefore(a, b);
    } else if a != b {
      OrdinalBefore(b, a);
    }
  }

  lemma OrdinalBefore(a: Date, b: Date)
    requires ValidDate(a) && ValidDate(b) && LexLess(a, b)
    ensures Ordinal(a) < Ordinal(b)
  {
    if a.year < b.year {
      MonthTable(a.year);
      if a.month < 12 {
        DaysBeforeMonthMonotone(a.year, a.month, 12);
      }
      DaysBeforeYearMonotone(a.year + 1, b.year);
    } else if a.month < b.month {
      DaysBeforeMonthMonotone(a.year, a.month, b.month);
    }
  }

  lemma LexTotal(a: Date, b: Date)
    ensures a == b || LexLess(a, b) || LexLess(b, a)
  {
  }

  /** Different valid dates have different ordinals. */
  lemma OrdinalInjective(a: Date, b: Date)
    requires ValidDate(a) && ValidDate(b) && Ordinal(a) == Ordinal(b)
    ensures a == b
  {
    LexTotal(a, b);
    if LexLess(a, b) {
      OrdinalBefore(a, b);
    } else if LexLess(b, a) {
      OrdinalBefore(b, a);
    }
  }

  lemma FromOrdinalOfOrdinal(d: Date)
    requires ValidDate(d)
    ensures 1 <= Ordinal(d) <= MaxOrdinal && FromOrdinal(Ordinal(d)) == d
  {
    OrdinalRange(d);
    OrdinalInjective(FromOrdinal(Ordinal(d)), d);
  }

  /** Every valid date has an ordinal between 1 and `MaxOrdinal`. */
  lemma OrdinalRange(d: Date)
    requires ValidDate(d)
    ensures 1 <= Ordinal(d) <= MaxOrdinal
  {
    LastDayIsMaxOrdinal();
    if LexLess(d, Date(MaxYear, 12, 31)) {
      OrdinalBefore(d, Date(MaxYear, 12, 31));
    }
  }

  /** `date + timedelta(days=k)`: OverflowError when the result leaves 01/01/0001..31/12/9999. */
  function AddDays(d: Date, k: int): (r: Result<Date>)
    requires ValidDate(d)
    ensures r.Ok? <==> 1 <= Ordinal(d) + k <= MaxOrdinal
    ensures r.Ok? ==> ValidDate(r.value) && Ordinal(r.value) == Ordinal(d) + k
    ensures r.Err? ==> r.error == OverflowError
  {
    var n := Ordinal(d) + k;
    if 1 <= n <= MaxOrdinal then Ok(FromOrdinal(n)) else Err(OverflowError)
  }

  /** `string_date_to_date_object`: day from characters 0-1, month from 3-4, year from
      6-9 (slices clamp at the end of the string; the separators are not looked at). Any
      slice that `int` rejects, or a date the calendar does not have, is a ValueError. */
  function StringToDate(s: string): (r: Result<Date>)
    ensures r.Ok? ==> ValidDate(r.value)
    ensures r.Ok? ==>
              && ParseInt(Slice(s, 0, 2)) == Some(r.value.day)
              && ParseInt(Slice(s, 3, 5)) == Some(r.value.month)
              && ParseInt(Slice(s, 6, 10)) == Some(r.value.year)
    ensures r.Err? ==> r.error == ValueError
  {
    var year := ParseInt(Slice(s, 6, 10));
    var month := ParseInt(Slice(s, 3, 5));
    var day := ParseInt(Slice(s, 0, 2));
    if year.None? || month.None? || day.None? then Err(ValueError)
    else
      var d := Date(year.value, month.value, day.value);
      if ValidDate(d) then Ok(d) else Err(ValueError)
  }

  /** A string whose three slices read as numbers is rejected exactly when they do not form
      a calendar date. */
  lemma InvalidCalendarDateRejected(s: string, y: nat, m: nat, d: nat)
    requires ParseInt(Slice(s, 0, 2)) == Some(d)
    requires ParseInt(Slice(s, 3, 5)) == Some(m)
    requires ParseInt(Slice(s, 6, 10)) == Some(y)
    ensures StringToDate(s).Ok? <==> ValidDate(Date(y, m, d))
    ensures StringToDate(s).Ok? ==> StringToDate(s).value == Date(y, m, d)
  {
  }

  /** `date_object_to_string_date`: day and month zero-padded to two digits, the year
      unpadded, separated by '/'. */
  function DateToString(d: Date): string
    requires ValidDate(d)
  {
    Join([ZFill(DecimalString(d.day), 2), ZFill(DecimalString(d.month), 2), DecimalString(d.year)], '/')
  }

  /** The formatted date is the day zero-padded to two digits, '/', the month zero-padded to
      two digits, '/', and the year's digits without padding: 7 to 10 characters. */
  lemma DateToStringFields(d: Date)
    requires ValidDate(d)
    ensures var s := DateToString(d);
            && 7 <= |s| <= 10 && s[2] == '/' && s[5] == '/'
            && s[..2] == ZFill(DecimalString(d.day), 2)
            && s[3..5] == ZFill(DecimalString(d.month), 2)
            && s[6..] == DecimalString(d.year)
  {
    SlashFields(ZFill(DecimalString(d.day), 2), ZFill(DecimalString(d.month), 2), DecimalString(d.year));
  }

  lemma SlashFields(a: string, b: string, c: string)
    requires |a| == 2 && |b| == 2 && 1 <= |c| <= 4
    ensures var s := Join([a, b, c], '/');
            && 7 <= |s| <= 10 && s[2] == '/' && s[5] == '/'
            && s[..2] == a && s[3..5] == b && s[6..] == c
  {
    assert [b, c][1..] == [c];
    assert Join([b, c], '/') == b + ['/'] + c;
    assert [a, b, c][1..] == [b, c];
    var s := a + ['/'] + b + ['/'] + c;
    assert Join([a, b, c], '/') == s;
    assert s[..2] == a;
    assert s[3..5] == b;
    assert s[6..] == c;
  }

  /** Reading three '/'-joined fields of widths 2, 2 and 1 to 4 takes each field whole. */
  lemma ParseSlashFields(a: string, b: string, c: string, day: nat, month: nat, year: nat)
    requires |a| == 2 && |b| == 2 && 1 <= |c| <= 4
    requires ParseInt(a) == Some(day) && ParseInt(b) == Some(month) && ParseInt(c) == Some(year)
    ensures StringToDate(Join([a, b, c], '/')) ==
            if ValidDate(Date(year, month, day)) then Ok(Date(year, month, day)) else Err(ValueError)
  {
    var s := Join([a, b, c], '/');
    SlashFields(a, b, c);
    assert Slice(s, 0, 2) == a;
    assert Slice(s, 3, 5) == b;
    assert Slice(s, 6, 10) == c;
  }

  /** Parsing what was formatted gives the date back, for every year from 1 to 9999. */
  lemma ParseFormatRoundTrip(d: Date)
    requires ValidDate(d)
    ensures StringToDate(DateToString(d)) == Ok(d)
  {
    ParseZFill2(d.day);
    ParseZFill2(d.month);
    ParseDecimalString(d.year);
    ParseSlashFields(ZFill(DecimalString(d.day), 2), ZFill(DecimalString(d.month), 2), DecimalString(d.year),
                     d.day, d.month, d.year);
  }

  /** Formatting is one-to-one, so comparing formatted strings compares dates. */
  lemma DateToStringInjective(a: Date, b: Date)
    requires ValidDate(a) && ValidDate(b) && DateToString(a) == DateToString(b)
    ensures a == b
  {
    ParseFormatRoundTrip(a);
    ParseFormatRoundTrip(b);
  }

  /** `add_days_to_date`: parse, add `k` days, format. */
  function AddDaysToDate(s: string, k: int): Result<string>
  {
    match StringToDate(s)
    case Err(e) => Err(e)
    case Ok(d) =>
      match AddDays(d, k)
      case Err(e) => Err(e)
      case Ok(d') => Ok(DateToString(d'))
  }

  /** An unreadable date is a ValueError; a readable one fails, with OverflowError, exactly
      when the result would leave the years 1 to 9999. */
  lemma AddDaysToDateSpec(s: string, k: int)
    ensures StringToDate(s).Err? ==> AddDaysToDate(s, k) == Err(ValueError)
    ensures StringToDate(s).Ok? ==>
              (AddDaysToDate(s, k).Ok? <==> 1 <= Ordinal(StringToDate(s).value) + k <= MaxOrdinal)
    ensures AddDaysToDate(s, k).Err? && StringToDate(s).Ok? ==> AddDaysToDate(s, k).error == OverflowError
  {
  }

  /** Adding no days normalises the date to its formatted form. */
  lemma AddZeroDays(s: string)
    requires StringToDate(s).Ok?
    ensures AddDaysToDate(s, 0) == Ok(DateToString(StringToDate(s).value))
  {
    FromOrdinalOfOrdinal(StringToDate(s).value);
  }

  /** The string-level offset on a parsable date, through its ordinal. */
  lemma AddDaysToDateByOrdinal(s: string, k: int, n: int)
    requires StringToDate(s).Ok? && n == Ordinal(StringToDate(s).value) + k
    ensures AddDaysToDate(s, k) == if 1 <= n <= MaxOrdinal then Ok(DateToString(FromOrdinal(n))) else Err(OverflowError)
  {
    var d := StringToDate(s).value;
    assert AddDays(d, k) == if 1 <= n <= MaxOrdinal then Ok(FromOrdinal(n)) else Err(OverflowError);
  }

  /** Offsets compose: adding `a` days and then `b` days is adding `a + b` days. */
  lemma AddDaysCompose(s: string, a: int, b: int)
    requires AddDaysToDate(s, a).Ok?
    ensures AddDaysToDate(AddDaysToDate(s, a).value, b) == AddDaysToDate(s, a + b)
  {
    var d := StringToDate(s).value;
    var n1 := Ordinal(d) + a;
    var n2 := n1 + b;
    AddDaysToDateByOrdinal(s, a, n1);
    var e := FromOrdinal(n1);
    var t := DateToString(e);
    ParseFormatRoundTrip(e);
    AddDaysToDateByOrdinal(t, b, n2);
    AddDaysToDateByOrdinal(s, a + b, n2);
  }

  /** The formatted dates with ordinals `lo` to `hi`, both included, one a day. */
  function DayStrings(lo: int, hi: int): (r: seq<string>)
    requires 1 <= lo && hi <= MaxOrdinal && lo <= hi + 1
    ensures |r| == hi - lo + 1
    decreases hi - lo
  {
    if hi < lo then [] else DayStrings(lo, hi - 1) + [DateToString(FromOrdinal(hi))]
  }

  /** Entry `k` of the list is the date with ordinal `lo + k`. */
  lemma {:induction false} DayStringsAt(lo: int, hi: int, k: int)
    requires 1 <= lo && hi <= MaxOrdinal && 0 <= k <= hi - lo
    ensures DayStrings(lo, hi)[k] == DateToString(FromOrdinal(lo + k))
    decreases hi - lo
  {
    var prefix, day := DayStrings(lo, hi - 1), DateToString(FromOrdinal(hi));
    assert DayStrings(lo, hi) == prefix + [day];
    if k < hi - lo {
      DayStringsAt(lo, hi - 1, k);
      assert DayStrings(lo, hi)[k] == prefix[k];
    } else {
      assert hi == lo + k;
      assert DayStrings(lo, hi)[k] == day;
    }
  }

  /** The formatted dates from `first` to `last`, both included, one a day. */
  function DatesBetween(first: Date, last: Date): (r: seq<string>)
    requires ValidDate(first) && ValidDate(last) && Ordinal(first) <= Ordinal(last) + 1
    ensures |r| == Ordinal(last) - Ordinal(first) + 1
  {
    OrdinalRange(first);
    OrdinalRange(last);
    DayStrings(Ordinal(first), Ordinal(last))
  }

  /** `load_dates_inbetween`: the formatted dates from `first` to `last`, both included.
      A first date after the last fails the assertion; when the last date is 31/12/9999
      the step past it overflows. */
  method LoadDatesInbetween(first: string, last: string) returns (r: Result<seq<string>>)
    ensures StringToDate(first).Err? || StringToDate(last).Err? ==> r == Err(ValueError)
    ensures StringToDate(first).Ok? && StringToDate(last).Ok? ==>
              RangeOutcome(StringToDate(first).value, StringToDate(last).value, r)
  {
    var firstDate := StringToDate(first);
    var lastDate := StringToDate(last);
    if firstDate.Err? || lastDate.Err? {
      return Err(ValueError);
    }
    var f, l := firstDate.value, lastDate.value;
    if !AtOrBefore(f, l) {
      return Err(AssertionError);
    }
    AtOrBeforeIsOrdinal(f, l);
    OrdinalRange(l);
    r := CollectDays(f, l);
  }

  /** The loop of `load_dates_inbetween`: append the current date, step one day, until the
      current date passes the last one. */
  method CollectDays(f: Date, l: Date) returns (r: Result<seq<string>>)
    requires ValidDate(f) && ValidDate(l) && Ordinal(f) <= Ordinal(l)
    ensures Ordinal(l) == MaxOrdinal ==> r == Err(OverflowError)
    ensures Ordinal(l) < MaxOrdinal ==> r == Ok(DatesBetween(f, l))
  {
    OrdinalRange(f);
    OrdinalRange(l);
    var dates: seq<string> := [];
    var current := f;
    while AtOrBefore(current, l)
      invariant ValidDate(current)
      invariant Ordinal(f) <= Ordinal(current) <= Ordinal(l) + 1
      invariant dates == DayStrings(Ordinal(f), Ordinal(current) - 1)
      decreases Ordinal(l) - Ordinal(current)
    {
      AtOrBeforeIsOrdinal(current, l);
      OrdinalRange(current);
      DayStringsExtend(Ordinal(f), current);
      dates := dates + [DateToString(current)];
      var next := AddDays(current, 1);
      if next.Err? {
        return Err(OverflowError);
      }
      assert Ordinal(next.value) - 1 == Ordinal(current);
      current := next.value;
    }
    AtOrBeforeIsOrdinal(current, l);
    OrdinalRange(current);
    r := Ok(dates);
  }

  /** What `load_dates_inbetween` yields for two parsed dates. */
  ghost predicate RangeOutcome(f: Date, l: Date, r: Result<seq<string>>)
    requires ValidDate(f) && ValidDate(l)
  {
    if !AtOrBefore(f, l) then r == Err(AssertionError)
    else if Ordinal(l) == MaxOrdinal then r == Err(OverflowError)
    else Ordinal(f) <= Ordinal(l) && r == Ok(DatesBetween(f, l))
  }

  /** Calendar order and ordinal order agree. */
  lemma AtOrBeforeIsOrdinal(a: Date, b: Date)
    requires ValidDate(a) && ValidDate(b)
    ensures AtOrBefore(a, b) <==> Ordinal(a) <= Ordinal(b)
  {
    LexLessIsOrdinalLess(a, b);
    if Ordinal(a) == Ordinal(b) {
      OrdinalInjective(a, b);
    }
  }

  /** Appending the date with ordinal `hi` extends the list ending at `hi - 1`. */
  lemma DayStringsExtend(lo: int, d: Date)
    requires ValidDate(d) && 1 <= lo <= Ordinal(d) <= MaxOrdinal
    ensures DayStrings(lo, Ordinal(d)) == DayStrings(lo, Ordinal(d) - 1) + [DateToString(d)]
  {
    FromOrdinalOfOrdinal(d);
  }

  /** The range has one entry per day, starts at `first`, ends at `last`, and each entry is
      the day after the one before it. */
  lemma DatesBetweenShape(first: Date, last: Date)
    requires ValidDate(first) && ValidDate(last) && Ordinal(first) <= Ordinal(last)
    ensures var r := DatesBetween(first, last);
            && |r| == Ordinal(last) - Ordinal(first) + 1
            && r[0] == DateToString(first)
            && r[|r| - 1] == DateToString(last)
            && (forall i :: 0 <= i < |r| - 1 ==> AddDaysToDate(r[i], 1) == Ok(r[i + 1]))
  {
    FromOrdinalOfOrdinal(first);
    FromOrdinalOfOrdinal(last);
    var r := DatesBetween(first, last);
    var lo, hi := Ordinal(first), Ordinal(last);
    DayStringsAt(lo, hi, 0);
    DayStringsAt(lo, hi, hi - lo);
    forall i | 0 <= i < |r| - 1
      ensures AddDaysToDate(r[i], 1) == Ok(r[i + 1])
    {
      DayStringsStep(lo, hi, i);
    }
  }

  /** Each entry of the list is the day after the entry before it. */
  lemma DayStringsStep(lo: int, hi: int, i: int)
    requires 1 <= lo && hi <= MaxOrdinal && 0 <= i < hi - lo
    ensures AddDaysToDate(DayStrings(lo, hi)[i], 1) == Ok(DayStrings(lo, hi)[i + 1])
  {
    DayStringsAt(lo, hi, i);
    DayStringsAt(lo, hi, i + 1);
    var d := FromOrdinal(lo + i);
    ParseFormatRoundTrip(d);
    AddDaysToDateByOrdinal(DateToString(d), 1, lo + i + 1);
  }

  /** Entry `k` of the range is what `add_days_to_date(first, k)` yields, so testing a shifted
      date for membership in the range compares like with like. */
  lemma DatesBetweenIsAddDays(first: string, last: Date, k: nat)
    requires StringToDate(first).Ok? && ValidDate(last)
    requires Ordinal(StringToDate(first).value) + k <= Ordinal(last)
    ensures AddDaysToDate(first, k) == Ok(DatesBetween(StringToDate(first).value, last)[k])
  {
    var f := StringToDate(first).value;
    OrdinalRange(f);
    OrdinalRange(last);
    DayStringsAt(Ordinal(f), Ordinal(last), k);
    AddDaysToDateByOrdinal(first, k, Ordinal(f) + k);
  }
}
