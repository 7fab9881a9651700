/** Calendar words and dates as half-open intervals of Shanghai days (`_next_month`, `_period`,
    `resolve_date` in `src/zhiqing_rag/query_metadata/resolver.py`). Days are counted as
    `toordinal` counts them; a period runs from the midnight that begins one day to the
    midnight that begins another. */
module CalendarPeriods {
  import opened Text

  // ----- the calendar

  datatype Date = Date(year: int, month: int, day: int)

  predicate Leap(year: int) {
    year % 4 == 0 && (year % 100 != 0 || year % 400 == 0)
  }

  function DaysIn(year: int, month: int): (n: int)
    ensures 28 <= n <= 31
  {
    if month == 2 then (if Leap(year) then 29 else 28)
    else if month == 4 || month == 6 || month == 9 || month == 11 then 30
    else 31
  }

  predicate Proper(d: Date) {
    1 <= d.year <= 9999 && 1 <= d.month <= 12 && 1 <= d.day <= DaysIn(d.year, d.month)
  }

  function YearLength(year: int): int {
    if Leap(year) then 366 else 365
  }

  function BeforeYear(year: int): int {
    if year <= 1 then 0 else BeforeYear(year - 1) + YearLength(year - 1)
  }

  function BeforeMonth(year: int, month: int): int
    requires 1 <= month
  {
    if month == 1 then 0 else BeforeMonth(year, month - 1) + DaysIn(year, month - 1)
  }

  /** `toordinal`. */
  function Ordinal(d: Date): int
    requires 1 <= d.month
  {
    BeforeYear(d.year) + BeforeMonth(d.year, d.month) + d.day
  }

  lemma {:induction false} MonthsOfYear(year: int)
    ensures BeforeMonth(year, 12) + 31 == YearLength(year)
  {
    assert BeforeMonth(year, 2) == 31;
    assert BeforeMonth(year, 3) == 31 + DaysIn(year, 2);
    assert BeforeMonth(year, 4) == BeforeMonth(year, 3) + 31;
    assert BeforeMonth(year, 5) == BeforeMonth(year, 4) + 30;
    assert BeforeMonth(year, 6) == BeforeMonth(year, 5) + 31;
    assert BeforeMonth(year, 7) == BeforeMonth(year, 6) + 30;
    assert BeforeMonth(year, 8) == BeforeMonth(year, 7) + 31;
    assert BeforeMonth(year, 9) == BeforeMonth(year, 8) + 31;
    assert BeforeMonth(year, 10) == BeforeMonth(year, 9) + 30;
    assert BeforeMonth(year, 11) == BeforeMonth(year, 10) + 31;
    assert BeforeMonth(year, 12) == BeforeMonth(year, 11) + 30;
  }

  /** `_next_month`, for the first of a month. */
  function NextMonth(d: Date): Date {
    if d.month == 12 then Date(d.year + 1, 1, d.day) else Date(d.year, d.month + 1, d.day)
  }

  /** One month on is as many days on as the month has. */
  lemma {:induction false} NextMonthIsMonthLater(d: Date)
    requires Proper(d)
    ensures Ordinal(NextMonth(d)) == Ordinal(d) + DaysIn(d.year, d.month)
  {
    if d.month == 12 {
      MonthsOfYear(d.year);
    }
  }

  /** `d - timedelta(days=1)` as a date. */
  function DayBefore(d: Date): Date {
    if d.day > 1 then Date(d.year, d.month, d.day - 1)
    else if d.month > 1 then Date(d.year, d.month - 1, DaysIn(d.year, d.month - 1))
    else Date(d.year - 1, 12, 31)
  }

  lemma {:induction false} DayBeforeIsOneLess(d: Date)
    requires Proper(d) && (d.year > 1 || d.month > 1 || d.day > 1)
    ensures Proper(DayBefore(d)) && Ordinal(DayBefore(d)) == Ordinal(d) - 1
  {
    if d.day == 1 && d.month == 1 {
      MonthsOfYear(d.year - 1);
    }
  }

  /** Monday is 0. */
  function Weekday(ordinal: int): int {
    (ordinal + 6) % 7
  }

  // ----- periods

  /** What a user may write; a number that is not given counts as 1. */
  datatype Phrase =
    | Today | Yesterday | ThisYear | LastYear | ThisMonth | LastMonth | ThisWeek | LastWeek
    | Written(year: nat, month: Option<nat>, day: Option<nat>)
    | Unclear

  datatype Period = Period(start: int, end: int)

  /** A period, a message to the user, or an exception that is not caught: the day after the
      last day that a date can be. */
  datatype Reading = Found(period: Period) | Refused | Overflows

  function FirstOfMonth(d: Date): Date {
    d.(day := 1)
  }

  function FirstOfYear(d: Date): Date {
    d.(month := 1, day := 1)
  }

  function Week(today: Date): Period
    requires 1 <= today.month
  {
    var monday := Ordinal(today) - Weekday(Ordinal(today));
    Period(monday, monday + 7)
  }

  /** The words relative to today. */
  function Relative(p: Phrase, today: Date): Period
    requires Proper(today) && 1 < today.year && !p.Written? && !p.Unclear?
  {
    var day, month, year := Ordinal(today), FirstOfMonth(today), FirstOfYear(today);
    match p
    case Today => Period(day, day + 1)
    case Yesterday => Period(day - 1, day)
    case ThisYear => Period(Ordinal(year), Ordinal(year.(year := year.year + 1)))
    case LastYear => Period(Ordinal(year.(year := year.year - 1)), Ordinal(year))
    case ThisMonth => Period(Ordinal(month), Ordinal(NextMonth(month)))
    case LastMonth => Period(Ordinal(FirstOfMonth(DayBefore(month))), Ordinal(month))
    case ThisWeek => Week(today)
    case LastWeek => Period(Week(today).start - 7, Week(today).start)
  }

  /** `_period`. */
  function ReadPeriod(p: Phrase, today: Date): Reading
    requires Proper(today) && 1 < today.year < 9999
  {
    match p
    case Unclear => Refused
    case Written(year, month, day) =>
      var start := Date(year, month.GetOr(1), day.GetOr(1));
      if !Proper(start) then Refused
      else if day.Some? then
        (if start == Date(9999, 12, 31) then Overflows else Found(Period(Ordinal(start), Ordinal(start) + 1)))
      else
        var end := if month.Some? then NextMonth(start) else start.(year := start.year + 1);
        if end.year > 9999 then Refused else Found(Period(Ordinal(start), Ordinal(end)))
    case _ => Found(Relative(p, today))
  }

  /** A period never is empty. */
  lemma {:induction false} StartsBeforeItEnds(p: Phrase, today: Date)
    requires Proper(today) && 1 < today.year < 9999 && ReadPeriod(p, today).Found?
    ensures var period := ReadPeriod(p, today).period; period.start < period.end
  {
    if p.Written? {
      WrittenStartsBeforeItEnds(p, today);
    } else {
      RelativeStartsBeforeItEnds(p, today);
    }
  }

  lemma {:induction false} WrittenStartsBeforeItEnds(p: Phrase, today: Date)
    requires Proper(today) && 1 < today.year < 9999 && p.Written? && ReadPeriod(p, today).Found?
    ensures var period := ReadPeriod(p, today).period; period.start < period.end
  {
    var start := Date(p.year, p.month.GetOr(1), p.day.GetOr(1));
    if p.day.None? {
      if p.month.Some? {
        NextMonthIsMonthLater(start);
      } else {
        BeforeMonthGrows(start.year, start.year + 1, start.month);
      }
    }
  }

  lemma {:induction false} RelativeStartsBeforeItEnds(p: Phrase, today: Date)
    requires Proper(today) && 1 < today.year < 9999 && !p.Written? && !p.Unclear?
    ensures Relative(p, today).start < Relative(p, today).end
  {
    RelativesMeet(today);
    NextMonthIsMonthLater(FirstOfMonth(today));
  }

  /** A year on differs by the year's days, but for the leap day. */
  lemma {:induction false} BeforeMonthGrows(a: int, b: int, month: int)
    requires 1 <= month
    ensures -1 <= BeforeMonth(b, month) - BeforeMonth(a, month) <= 1
    ensures month <= 2 ==> BeforeMonth(b, month) == BeforeMonth(a, month)
    decreases month
  {
    if month > 1 {
      BeforeMonthGrows(a, b, month - 1);
      if month > 3 {
        assert DaysIn(a, month - 1) == DaysIn(b, month - 1);
      } else if month == 3 {
        assert BeforeMonth(a, 2) == BeforeMonth(b, 2) == 31;
      }
    }
  }

  /** What was last ends where what is now begins, and has the length of the days between, leap
      years included. */
  lemma {:induction false} RelativesMeet(today: Date)
    requires Proper(today) && 1 < today.year < 9999
    ensures Relative(Yesterday, today).end == Relative(Today, today).start
    ensures Relative(LastWeek, today).end == Relative(ThisWeek, today).start
    ensures Relative(LastMonth, today).end == Relative(ThisMonth, today).start
    ensures Relative(LastYear, today).end == Relative(ThisYear, today).start
    ensures var last := DayBefore(FirstOfMonth(today));
            var period := Relative(LastMonth, today); period.end - period.start == DaysIn(last.year, last.month)
    ensures var period := Relative(ThisMonth, today); period.end - period.start == DaysIn(today.year, today.month)
    ensures var period := Relative(LastYear, today); period.end - period.start == YearLength(today.year - 1)
    ensures var period := Relative(ThisYear, today); period.end - period.start == YearLength(today.year)
  {
    var month := FirstOfMonth(today);
    var last := DayBefore(month);
    DayBeforeIsOneLess(month);
    NextMonthIsMonthLater(month);
    NextMonthIsMonthLater(FirstOfMonth(last));
    assert NextMonth(FirstOfMonth(last)) == month;
  }

  /** Today lies in this week, this month and this year, and the week begins on a Monday. */
  lemma {:induction false} TodayIsNow(today: Date)
    requires Proper(today) && 1 < today.year < 9999
    ensures forall p | p in {ThisWeek, ThisMonth, ThisYear} ::
            Relative(p, today).start <= Ordinal(today) < Relative(p, today).end
    ensures Weekday(Week(today).start) == 0
  {
    NextMonthIsMonthLater(FirstOfMonth(today));
    MonthsOfYear(today.year);
    MonthWithinYear(today.year, today.month);
    MondayIsZero(Ordinal(today));
  }

  lemma {:induction false} MondayIsZero(ordinal: int)
    ensures 0 <= Weekday(ordinal) < 7 && Weekday(ordinal - Weekday(ordinal)) == 0
  {
  }

  lemma {:induction false} MonthWithinYear(year: int, month: int)
    requires 1 <= month <= 12
    ensures 0 <= BeforeMonth(year, month)
            && BeforeMonth(year, month) + DaysIn(year, month) <= BeforeMonth(year, 12) + 31
    decreases 12 - month
  {
    if month < 12 {
      MonthWithinYear(year, month + 1);
      assert BeforeMonth(year, month + 1) == BeforeMonth(year, month) + DaysIn(year, month);
    }
    BeforeMonthIsPositive(year, month);
  }

  lemma {:induction false} BeforeMonthIsPositive(year: int, month: int)
    requires 1 <= month
    ensures BeforeMonth(year, month) >= 0
    decreases month
  {
    if month > 1 {
      BeforeMonthIsPositive(year, month - 1);
    }
  }

  // ----- filters

  datatype Operator = Eq | Neq | Gt | Gte | Lt | Lte | Range

  /** What the filter keeps: an interval open at its end, everything from a midnight on, or
      everything before one. */
  datatype Kept = Between(start: int, end: int) | From(start: int) | Before(end: int)

  /** `resolve_date` for a calendar phrase, or for two that bound a range. */
  function ResolveDate(operator: Operator, p: Phrase, upto: Option<Phrase>, today: Date): (r: Option<Kept>)
    requires Proper(today) && 1 < today.year < 9999
    requires upto.Some? ==> operator == Range
  {
    var first := ReadPeriod(p, today);
    var last := if upto.Some? then ReadPeriod(upto.value, today) else first;
    if !first.Found? || !last.Found? then None
    else
      var start, end := first.period.start, last.period.end;
      match operator
      case Range => if start >= end then None else Some(Between(start, end))
      case Eq => Some(Between(start, end))
      case Gte => Some(From(start))
      case Gt => Some(From(end))
      case Lt => Some(Before(start))
      case Lte => Some(Before(end))
      case Neq => None
  }

  /** Whether an instant, counted in days, is kept. */
  predicate Keeps(k: Kept, x: real) {
    match k
    case Between(start, end) => start as real <= x < end as real
    case From(start) => start as real <= x
    case Before(end) => x < end as real
  }

  /** Every instant is before, within or after a period, and in one of them only; the weak
      comparisons are the strict ones or equality. */
  lemma {:induction false} OperatorsPartition(p: Phrase, today: Date, x: real)
    requires Proper(today) && 1 < today.year < 9999 && ReadPeriod(p, today).Found?
    ensures forall operator | operator != Neq :: ResolveDate(operator, p, None, today).Some?
    ensures var (before, within, after) :=
              (Keeps(ResolveDate(Lt, p, None, today).value, x), Keeps(ResolveDate(Eq, p, None, today).value, x),
                  Keeps(ResolveDate(Gt, p, None, today).value, x));
            && (before || within || after) && !(before && within) && !(within && after) && !(before && after)
            && (Keeps(ResolveDate(Lte, p, None, today).value, x) <==> before || within)
            && (Keeps(ResolveDate(Gte, p, None, today).value, x) <==> within || after)
            && (Keeps(ResolveDate(Range, p, None, today).value, x) <==> within)
  {
    StartsBeforeItEnds(p, today);
    var period := ReadPeriod(p, today).period;
    assert period.start as real < period.end as real;
    assert forall operator | operator != Neq :: ResolveDate(operator, p, None, today).Some?;
  }
}
