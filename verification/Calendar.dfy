/** The real-time clock's date as seconds since the epoch (kernel/src/drivers/rtc.rs; section 4.16 of
    POSIX.1-2017 Base Definitions). */
module Calendar {

  datatype DateTime = DateTime(year: nat, month: nat, day: nat, hour: nat, minute: nat, second: nat)

  // --- The reference: the Gregorian rule, month by month and year by year -----------------------------

  predicate Leap(year: nat) {
    year % 4 == 0 && (year % 100 != 0 || year % 400 == 0)
  }

  function MonthLength(year: nat, month: nat): nat {
    if month == 2 then (if Leap(year) then 29 else 28)
    else if month == 4 || month == 6 || month == 9 || month == 11 then 30
    else 31
  }

  predicate ValidDate(t: DateTime) {
    1970 <= t.year && 1 <= t.month <= 12 && 1 <= t.day <= MonthLength(t.year, t.month)
  }

  /** Second 60 is a leap second. */
  predicate ValidTime(t: DateTime) {
    t.hour < 24 && t.minute < 60 && t.second <= 60
  }

  /** `is_plausible`: what the clock chip is believed. The day may run past the end of its month. */
  predicate Plausible(t: DateTime) {
    2000 <= t.year <= 2199 && 1 <= t.month <= 12 && 1 <= t.day <= 31 && ValidTime(t)
  }

  function DaysBeforeYear(year: nat): nat
    requires year >= 1970
  {
    if year == 1970 then 0 else DaysBeforeYear(year - 1) + (if Leap(year - 1) then 366 else 365)
  }

  function DaysBeforeMonth(year: nat, month: nat): nat
    requires 1 <= month <= 12
  {
    if month == 1 then 0 else DaysBeforeMonth(year, month - 1) + MonthLength(year, month - 1)
  }

  /** Whole days since 1 January 1970, counted naively. */
  function DayNumber(t: DateTime): nat
    requires ValidDate(t)
  {
    DaysBeforeYear(t.year) + DaysBeforeMonth(t.year, t.month) + (t.day - 1)
  }

  /** The next civil day, at the same time of day. */
  function NextDay(t: DateTime): DateTime
    requires ValidDate(t)
  {
    if t.day < MonthLength(t.year, t.month) then t.(day := t.day + 1)
    else if t.month < 12 then t.(month := t.month + 1, day := 1)
    else t.(year := t.year + 1, month := 1, day := 1)
  }

  /** The start of the next minute, through the hour, the day, the month and the year. */
  function NextMinute(t: DateTime): DateTime
    requires ValidDate(t)
  {
    if t.minute < 59 then t.(minute := t.minute + 1, second := 0)
    else if t.hour < 23 then t.(hour := t.hour + 1, minute := 0, second := 0)
    else NextDay(t).(hour := 0, minute := 0, second := 0)
  }

  // --- The closed form ----------------------------------------------------------------------------------

  /** Days since 1 March of year 0 to the start of a March-based year. */
  function DaysBeforeMarch(year: nat): int {
    var era := year / 400;
    var yearOfEra := year - era * 400;
    era * 146_097 + yearOfEra * 365 + yearOfEra / 4 - yearOfEra / 100
  }

  function DaysSinceEpoch(year: nat, month: nat, day: nat): int
    requires year >= 1 && 1 <= month <= 12
  {
    var y := if month <= 2 then year - 1 else year;
    var monthShifted := if month > 2 then month - 3 else month + 9;
    var dayOfYear := (153 * monthShifted + 2) / 5 + day - 1;
    DaysBeforeMarch(y) + dayOfYear - 719_468
  }

  function ToUnixSeconds(t: DateTime): nat
    requires t.year >= 1 && 1 <= t.month <= 12
  {
    var s := DaysSinceEpoch(t.year, t.month, t.day) * 86_400 + t.hour * 3_600 + t.minute * 60 + t.second;
    if s >= 0 then s else 0
  }

  // --- They agree -----------------------------------------------------------------------------------------

  /** One year on, the closed form grows by the length of the year, whose leap day comes last. */
  lemma MarchYear(year: nat)
    ensures DaysBeforeMarch(year + 1) == DaysBeforeMarch(year) + if Leap(year + 1) then 366 else 365
  {
    MarchIsUniform(year);
    MarchIsUniform(year + 1);
    LeapCount(year);
  }

  /** Without eras: every fourth year, less every hundredth, plus every four-hundredth. */
  lemma MarchIsUniform(year: nat)
    ensures DaysBeforeMarch(year) == 365 * year + year / 4 - year / 100 + year / 400
  {
    var era := year / 400;
    var r := year - era * 400;
    assert year / 4 == 100 * era + r / 4;
    assert year / 100 == 4 * era + r / 100;
  }

  lemma LeapCount(year: nat)
    ensures (year + 1) / 4 - year / 4 == if (year + 1) % 4 == 0 then 1 else 0
    ensures (year + 1) / 100 - year / 100 == if (year + 1) % 100 == 0 then 1 else 0
    ensures (year + 1) / 400 - year / 400 == if (year + 1) % 400 == 0 then 1 else 0
    ensures (year + 1) % 100 == 0 ==> (year + 1) % 4 == 0
    ensures (year + 1) % 400 == 0 ==> (year + 1) % 100 == 0
  {
  }

  lemma {:induction false} YearsAgree(year: nat)
    requires year >= 1970
    ensures DaysSinceEpoch(year, 1, 1) == DaysBeforeYear(year)
  {
    if year > 1970 {
      YearsAgree(year - 1);
      MarchYear(year - 2);
    } else {
      assert DaysBeforeMarch(1969) == 719_162;
    }
  }

  /** The month lengths behind (153 m + 2) / 5. */
  lemma OneMonth(year: nat, month: nat)
    requires year >= 1970 && 2 <= month <= 12
    ensures DaysSinceEpoch(year, month, 1) == DaysSinceEpoch(year, month - 1, 1) + MonthLength(year, month - 1)
  {
    hide DaysBeforeMarch, Leap;
    if month == 3 {
      MarchYear(year - 1);
    } else if month < 3 {
      assert (153 * 10 + 2) / 5 == 306 && (153 * 11 + 2) / 5 == 337;
    } else {
      ShiftedMonth(month);
    }
  }

  lemma ShiftedMonth(month: nat)
    requires 4 <= month <= 12
    ensures (153 * (month - 3) + 2) / 5 - (153 * (month - 4) + 2) / 5 == MonthLength(0, month - 1)
  {
    if
    case month == 4 =>
    case month == 5 =>
    case month == 6 =>
    case month == 7 =>
    case month == 8 =>
    case month == 9 =>
    case month == 10 =>
    case month == 11 =>
    case month == 12 =>
  }

  lemma {:induction false} MonthsAgree(year: nat, month: nat)
    requires year >= 1970 && 1 <= month <= 12
    ensures DaysSinceEpoch(year, month, 1) == DaysSinceEpoch(year, 1, 1) + DaysBeforeMonth(year, month)
    decreases month
  {
    hide DaysSinceEpoch, MonthLength;
    if month > 1 {
      MonthsAgree(year, month - 1);
      OneMonth(year, month);
    }
  }

  lemma DaysAgree(t: DateTime)
    requires ValidDate(t)
    ensures DaysSinceEpoch(t.year, t.month, t.day) == DayNumber(t)
  {
    hide DaysBeforeMarch, DaysBeforeYear, DaysBeforeMonth;
    YearsAgree(t.year);
    MonthsAgree(t.year, t.month);
  }

  /** The closed form counts days: for every date it is the naive count, and 1970-01-01 is 0. */
  lemma ClosedFormIsNaive(t: DateTime)
    requires ValidDate(t)
    ensures ToUnixSeconds(t) == DayNumber(t) * 86_400 + t.hour * 3_600 + t.minute * 60 + t.second
    ensures t == DateTime(1970, 1, 1, 0, 0, 0) ==> ToUnixSeconds(t) == 0
  {
    hide DaysSinceEpoch;
    DaysAgree(t);
  }

  /** Moving to the next civil day adds exactly a day's seconds. */
  lemma NextDayAddsADay(t: DateTime)
    requires ValidDate(t)
    ensures ValidDate(NextDay(t)) && DayNumber(NextDay(t)) == DayNumber(t) + 1
    ensures ToUnixSeconds(NextDay(t)) == ToUnixSeconds(t) + 86_400
  {
    hide ToUnixSeconds;
    ClosedFormIsNaive(t);
    ClosedFormIsNaive(NextDay(t));
    YearIsItsMonths(t.year);
  }

  lemma YearIsItsMonths(year: nat)
    ensures DaysBeforeMonth(year, 12) + 31 == if Leap(year) then 366 else 365
  {
    assert DaysBeforeMonth(year, 2) == 31;
    assert DaysBeforeMonth(year, 3) == DaysBeforeMonth(year, 2) + MonthLength(year, 2);
    assert DaysBeforeMonth(year, 5) == DaysBeforeMonth(year, 3) + 61;
    assert DaysBeforeMonth(year, 7) == DaysBeforeMonth(year, 5) + 61;
    assert DaysBeforeMonth(year, 9) == DaysBeforeMonth(year, 7) + 62;
    assert DaysBeforeMonth(year, 11) == DaysBeforeMonth(year, 9) + 61;
  }

  /** Calendar order. */
  predicate Earlier(s: DateTime, t: DateTime) {
    || s.year < t.year
    || (s.year == t.year && s.month < t.month)
    || (s.year == t.year && s.month == t.month && s.day < t.day)
  }

  predicate EarlierTime(s: DateTime, t: DateTime) {
    || s.hour < t.hour
    || (s.hour == t.hour && s.minute < t.minute)
    || (s.hour == t.hour && s.minute == t.minute && s.second < t.second)
  }

  /** Earlier by the calendar and the clock face. */
  predicate InOrder(s: DateTime, t: DateTime) {
    Earlier(s, t) || (!Earlier(t, s) && EarlierTime(s, t))
  }

  /** A leap second and the second after it. */
  predicate LeapPair(s: DateTime, t: DateTime) {
    ValidDate(s) && s.second == 60 && t == NextMinute(s)
  }

  lemma {:induction false} YearsGrow(a: nat, b: nat)
    requires 1970 <= a < b
    ensures DaysBeforeYear(a) + (if Leap(a) then 366 else 365) <= DaysBeforeYear(b)
    decreases b
  {
    if a < b - 1 {
      YearsGrow(a, b - 1);
    }
  }

  lemma {:induction false} MonthsGrow(year: nat, a: nat, b: nat)
    requires 1 <= a < b <= 12
    ensures DaysBeforeMonth(year, a) + MonthLength(year, a) <= DaysBeforeMonth(year, b)
    decreases b
  {
    if a < b - 1 {
      MonthsGrow(year, a, b - 1);
    }
  }

  lemma DayWithinYear(t: DateTime)
    requires ValidDate(t)
    ensures DaysBeforeMonth(t.year, t.month) + (t.day - 1) < if Leap(t.year) then 366 else 365
  {
    hide Leap, DaysBeforeMonth;
    YearIsItsMonths(t.year);
    if t.month < 12 {
      MonthsGrow(t.year, t.month, 12);
    }
  }

  lemma EarlierDay(s: DateTime, t: DateTime)
    requires ValidDate(s) && ValidDate(t) && Earlier(s, t)
    ensures DayNumber(s) < DayNumber(t)
  {
    hide DaysBeforeYear, DaysBeforeMonth, Leap;
    if s.year < t.year {
      YearsGrow(s.year, t.year);
      DayWithinYear(s);
    } else if s.month < t.month {
      MonthsGrow(s.year, s.month, t.month);
    }
  }

  lemma SameDay(s: DateTime, t: DateTime)
    requires ValidDate(s) && ValidDate(t)
    ensures DayNumber(s) == DayNumber(t) <==> !Earlier(s, t) && !Earlier(t, s)
  {
    hide DayNumber;
    if Earlier(s, t) {
      EarlierDay(s, t);
    } else if Earlier(t, s) {
      EarlierDay(t, s);
    } else {
      assert s.year == t.year && s.month == t.month && s.day == t.day;
      DayNumberOfDate(s, t);
    }
  }

  lemma DayNumberOfDate(s: DateTime, t: DateTime)
    requires ValidDate(s) && ValidDate(t) && s.year == t.year && s.month == t.month && s.day == t.day
    ensures DayNumber(s) == DayNumber(t)
  {
  }

  // --- Which inputs the seconds cannot tell apart -----------------------------------------------------

  /** Whole minutes since the epoch. */
  function MinuteNumber(t: DateTime): nat
    requires ValidDate(t)
  {
    DayNumber(t) * 1_440 + t.hour * 60 + t.minute
  }

  lemma SecondsOfMinute(t: DateTime)
    requires ValidDate(t)
    ensures ToUnixSeconds(t) == 60 * MinuteNumber(t) + t.second
  {
    hide ToUnixSeconds, DayNumber;
    ClosedFormIsNaive(t);
  }

  lemma NextMinuteIsNext(t: DateTime)
    requires ValidDate(t) && ValidTime(t)
    ensures ValidDate(NextMinute(t)) && ValidTime(NextMinute(t)) && MinuteNumber(NextMinute(t)) == MinuteNumber(t) + 1
  {
    NextDayAddsADay(t);
    hide DaysBeforeYear, DaysBeforeMonth, Leap, NextDay;
    if t.minute == 59 && t.hour == 23 {
      DayNumberOfDate(NextMinute(t), NextDay(t));
    }
  }

  lemma MinuteOrder(s: DateTime, t: DateTime)
    requires ValidDate(s) && ValidDate(t) && ValidTime(s) && ValidTime(t)
    ensures InOrder(s, t) ==> MinuteNumber(s) < MinuteNumber(t) || (MinuteNumber(s) == MinuteNumber(t) && s.second < t.second)
    ensures MinuteNumber(s) == MinuteNumber(t) && s.second == t.second <==> s == t
  {
    hide DayNumber;
    SameDay(s, t);
    if Earlier(s, t) {
      EarlierDay(s, t);
    } else if Earlier(t, s) {
      EarlierDay(t, s);
    }
  }

  lemma OneOrOther(s: DateTime, t: DateTime)
    ensures s == t || InOrder(s, t) || InOrder(t, s)
  {
  }

  /** A leap second has the value of the second after it, at the end of any minute, hour, day or year. */
  lemma LeapSecondCollides(s: DateTime)
    requires ValidDate(s) && ValidTime(s) && s.second == 60
    ensures ToUnixSeconds(NextMinute(s)) == ToUnixSeconds(s) && InOrder(s, NextMinute(s))
  {
    hide ToUnixSeconds, MinuteNumber;
    NextMinuteIsNext(s);
    SecondsOfMinute(s);
    SecondsOfMinute(NextMinute(s));
  }

  /** Two dates and times have the same value exactly when they are the same, or one is a leap second
      and the other the second after it. */
  lemma SameSeconds(s: DateTime, t: DateTime)
    requires ValidDate(s) && ValidDate(t) && ValidTime(s) && ValidTime(t)
    ensures ToUnixSeconds(s) == ToUnixSeconds(t) <==> s == t || LeapPair(s, t) || LeapPair(t, s)
  {
    hide ToUnixSeconds, MinuteNumber, NextMinute, MonthLength;
    SecondsOfMinute(s);
    SecondsOfMinute(t);
    MinuteOrder(s, t);
    AfterLeap(s, t);
    AfterLeap(t, s);
  }

  lemma AfterLeap(s: DateTime, t: DateTime)
    requires ValidDate(s) && ValidDate(t) && ValidTime(s) && ValidTime(t)
    ensures LeapPair(s, t) <==> s.second == 60 && t.second == 0 && MinuteNumber(t) == MinuteNumber(s) + 1
  {
    hide MinuteNumber, MonthLength;
    NextMinuteIsNext(s);
    MinuteOrder(NextMinute(s), t);
  }

  /** The seconds put dates and times in the order of the calendar, leap seconds and their successors
      excepted. */
  lemma OrderIsExact(s: DateTime, t: DateTime)
    requires ValidDate(s) && ValidDate(t) && ValidTime(s) && ValidTime(t)
    ensures ToUnixSeconds(s) < ToUnixSeconds(t) <==> InOrder(s, t) && !LeapPair(s, t)
  {
    hide ToUnixSeconds, MinuteNumber, NextMinute, MonthLength, InOrder;
    SecondsOfMinute(s);
    SecondsOfMinute(t);
    MinuteOrder(s, t);
    MinuteOrder(t, s);
    AfterLeap(s, t);
    OneOrOther(s, t);
  }

  /** The date that a day past the end of its month stands for. */
  function Settled(t: DateTime): DateTime {
    if t.day > MonthLength(t.year, t.month) then t.(month := t.month + 1, day := t.day - MonthLength(t.year, t.month)) else t
  }

  /** A plausible day past the end of its month, which is never December, has the value of the
      corresponding day of the next month. */
  lemma PastTheMonth(t: DateTime)
    requires Plausible(t)
    ensures t.day > MonthLength(t.year, t.month) ==> t.month < 12
    ensures ValidDate(Settled(t)) && ValidTime(Settled(t)) && ToUnixSeconds(Settled(t)) == ToUnixSeconds(t)
  {
    hide Leap;
    if t.day > MonthLength(t.year, t.month) {
      DaysAddUp(t.year, t.month, t.day);
      DaysAddUp(t.year, t.month + 1, t.day - MonthLength(t.year, t.month));
      OneMonth(t.year, t.month + 1);
      hide DaysSinceEpoch;
    }
  }

  lemma DaysAddUp(year: nat, month: nat, day: nat)
    requires year >= 1 && 1 <= month <= 12 && day >= 1
    ensures DaysSinceEpoch(year, month, day) == DaysSinceEpoch(year, month, 1) + (day - 1)
  {
    hide DaysBeforeMarch;
  }

  /** Of all the clock may report: the same value exactly for the same date and time once days past
      the month are settled, or for a leap second and the second after it. */
  lemma PlausibleCollisions(s: DateTime, t: DateTime)
    requires Plausible(s) && Plausible(t)
    ensures ToUnixSeconds(s) == ToUnixSeconds(t) <==>
            Settled(s) == Settled(t) || LeapPair(Settled(s), Settled(t)) || LeapPair(Settled(t), Settled(s))
  {
    hide ToUnixSeconds, MonthLength, Settled, LeapPair;
    PastTheMonth(s);
    PastTheMonth(t);
    SameSeconds(Settled(s), Settled(t));
  }
}
