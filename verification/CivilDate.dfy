/** Days since 1970-01-01 from a civil date (aeon-sync/src/email_imap.rs, aeon-sync/src/email_sync.rs). */
module CivilDate {
  import opened Words

  const DAYS_PER_ERA := 146_097
  const EPOCH_OFFSET := 719_468

  /** Rust's integer division truncates toward zero. */
  function TruncDiv(a: int, b: nat): int
    requires b > 0
  {
    if a >= 0 then a / b else -((-a) / b)
  }

  predicate FitsI32(x: int) { -0x8000_0000 <= x < 0x8000_0000 }

  datatype Steps = Steps(year: int, shifted: int, era: int, eraYears: int, yearOfEra: int,
                         dayOfYear: int, dayOfEra: int, eraDays: int, sum: int, days: int)

  /** Every intermediate value of the computation, in order. */
  function Compute(year: int, month: nat, day: nat): Steps {
    var y := year - (if month <= 2 then 1 else 0);
    var shifted := if y >= 0 then y else y - 399;
    var era := TruncDiv(shifted, 400);
    var yoe := y - era * 400;
    var doy := (153 * (month + if month > 2 then -3 else 9) + 2) / 5 + day - 1;
    var doe := yoe * 365 + yoe / 4 - yoe / 100 + doy;
    Steps(y, shifted, era, era * 400, yoe, doy, doe, era * DAYS_PER_ERA, era * DAYS_PER_ERA + doe,
          era * DAYS_PER_ERA + doe - EPOCH_OFFSET)
  }

  predicate InRange(month: nat, day: nat) { 1 <= month <= 12 && 1 <= day <= 31 }

  /** The copy in email_imap.rs: refuses months and days out of range. */
  function DaysFromCivil(year: int, month: nat, day: nat): Option<int> {
    if !InRange(month, day) then None else Some(Compute(year, month, day).days)
  }

  /** The copy in email_sync.rs: its caller has checked the range. */
  function DaysFromCivilUnchecked(year: int, month: nat, day: nat): int {
    Compute(year, month, day).days
  }

  // ----- the calendar itself -----

  predicate IsLeap(year: int) { year % 4 == 0 && (year % 100 != 0 || year % 400 == 0) }

  function DaysInMonth(year: int, month: nat): nat
    requires 1 <= month <= 12
  {
    if month == 2 then if IsLeap(year) then 29 else 28
    else if month == 4 || month == 6 || month == 9 || month == 11 then 30
    else 31
  }

  function DaysInYear(year: int): nat { if IsLeap(year) then 366 else 365 }

  /** Days from 1970-01-01 to January 1 of `year`, year by year. */
  function DaysBeforeYear(year: int): int
    decreases if year >= 1970 then year - 1970 else 1970 - year
  {
    if year == 1970 then 0
    else if year > 1970 then DaysBeforeYear(year - 1) + DaysInYear(year - 1)
    else DaysBeforeYear(year + 1) - DaysInYear(year)
  }

  /** Days of `year` before `month`, month by month. */
  function DaysBeforeMonth(year: int, month: nat): nat
    requires 1 <= month <= 12
  {
    if month == 1 then 0 else DaysBeforeMonth(year, month - 1) + DaysInMonth(year, month - 1)
  }

  function Calendar(year: int, month: nat, day: nat): int
    requires InRange(month, day)
  {
    DaysBeforeYear(year) + DaysBeforeMonth(year, month) + day - 1
  }

  datatype Date = Date(year: int, month: nat, day: nat)

  predicate IsDate(d: Date) { 1 <= d.month <= 12 && 1 <= d.day <= DaysInMonth(d.year, d.month) }

  function NextDay(d: Date): (r: Date)
    requires IsDate(d)
    ensures IsDate(r)
  {
    if d.day < DaysInMonth(d.year, d.month) then d.(day := d.day + 1)
    else if d.month < 12 then Date(d.year, d.month + 1, 1)
    else Date(d.year + 1, 1, 1)
  }

  // ----- the computation agrees with the calendar -----

  /** The era is the year divided by 400, rounded down, for negative years too. */
  lemma EraIsFloor(year: int, month: nat, day: nat)
    ensures Compute(year, month, day).era == Compute(year, month, day).year / 400
    ensures 0 <= Compute(year, month, day).yearOfEra < 400
  {
  }

  /** Leap days before January 1 of `year`, counted from year 1. */
  function Leaps(year: int): int { (year - 1) / 4 - (year - 1) / 100 + (year - 1) / 400 }

  lemma {:induction false} YearsClosedForm(year: int)
    ensures DaysBeforeYear(year) == 365 * (year - 1970) + Leaps(year) - Leaps(1970)
    decreases if year >= 1970 then year - 1970 else 1970 - year
  {
    if year > 1970 {
      YearsClosedForm(year - 1);
      LeapStep(year - 1);
    } else if year < 1970 {
      YearsClosedForm(year + 1);
      LeapStep(year);
    }
  }

  lemma QuotientStep4(n: int)
    ensures n / 4 == (n - 1) / 4 + if n % 4 == 0 then 1 else 0
  {
  }

  lemma QuotientStep100(n: int)
    ensures n / 100 == (n - 1) / 100 + if n % 100 == 0 then 1 else 0
  {
  }

  lemma QuotientStep400(n: int)
    ensures n / 400 == (n - 1) / 400 + if n % 400 == 0 then 1 else 0
  {
  }

  lemma LeapMultiples(n: int)
    ensures n % 400 == 0 ==> n % 100 == 0
    ensures n % 100 == 0 ==> n % 4 == 0
  {
  }

  lemma LeapStep(year: int)
    ensures Leaps(year + 1) == Leaps(year) + if IsLeap(year) then 1 else 0
  {
    QuotientStep4(year);
    QuotientStep100(year);
    QuotientStep400(year);
    LeapMultiples(year);
  }

  /** Counting from March makes the month lengths a straight line. */
  lemma MonthsClosedForm(year: int, month: nat)
    requires 1 <= month <= 12
    ensures DaysBeforeMonth(year, month)
            == if month <= 2 then 31 * (month - 1)
               else (153 * (month - 3) + 2) / 5 + 59 + if IsLeap(year) then 1 else 0
  {
    assert DaysBeforeMonth(year, 1) == 0;
    assert DaysBeforeMonth(year, 2) == 31;
    assert DaysBeforeMonth(year, 3) == 59 + if IsLeap(year) then 1 else 0;
    assert DaysBeforeMonth(year, 4) == DaysBeforeMonth(year, 3) + 31;
    assert DaysBeforeMonth(year, 5) == DaysBeforeMonth(year, 4) + 30;
    assert DaysBeforeMonth(year, 6) == DaysBeforeMonth(year, 5) + 31;
    assert DaysBeforeMonth(year, 7) == DaysBeforeMonth(year, 6) + 30;
    assert DaysBeforeMonth(year, 8) == DaysBeforeMonth(year, 7) + 31;
    assert DaysBeforeMonth(year, 9) == DaysBeforeMonth(year, 8) + 31;
    assert DaysBeforeMonth(year, 10) == DaysBeforeMonth(year, 9) + 30;
    assert DaysBeforeMonth(year, 11) == DaysBeforeMonth(year, 10) + 31;
    assert DaysBeforeMonth(year, 12) == DaysBeforeMonth(year, 11) + 30;
  }

  /** For every year, negative ones included, and every month and day the function accepts. */
  lemma AgreesWithCalendar(year: int, month: nat, day: nat)
    requires InRange(month, day)
    ensures DaysFromCivil(year, month, day) == Some(Calendar(year, month, day))
    ensures DaysFromCivilUnchecked(year, month, day) == Calendar(year, month, day)
  {
    hide Compute, DaysBeforeYear, DaysBeforeMonth, IsLeap, Leaps;
    YearsClosedForm(year);
    MonthsClosedForm(year, month);
    ComputeClosedForm(year, month, day);
    LeapStep(year);
  }

  /** The computation counts leap days up to the last one passed. */
  lemma ComputeClosedForm(year: int, month: nat, day: nat)
    requires InRange(month, day)
    ensures Leaps(1970) == 477
    ensures Compute(year, month, day).days
            == 365 * (year - 1970) - 477 + day - 1 +
               if month <= 2 then Leaps(year) + 31 * (month - 1) else Leaps(year + 1) + (153 * (month - 3) + 2) / 5 + 59
  {
    EraIsFloor(year, month, day);
    var s := Compute(year, month, day);
    MarchYears(s.year);
    assert s.eraDays + s.dayOfEra == 365 * s.year + Leaps(s.year + 1) + s.dayOfYear;
    assert month <= 2 ==> (153 * (month + 9) + 2) / 5 == 306 + 31 * (month - 1);
  }

  /** Months and days outside 1..=12 and 1..=31 are refused, and no others. */
  lemma RefusesExactly(year: int, month: nat, day: nat)
    ensures DaysFromCivil(year, month, day) == None <==> month < 1 || month > 12 || day < 1 || day > 31
  {
  }

  /** Whole years since 0000-03-01, split into eras. */
  lemma MarchYears(y: int)
    ensures var era := y / 400; var yoe := y - era * 400;
            era * DAYS_PER_ERA + yoe * 365 + yoe / 4 - yoe / 100 == 365 * y + y / 4 - y / 100 + y / 400
  {
    var era := y / 400;
    var yoe := y - era * 400;
    assert y == era * 400 + yoe && 0 <= yoe < 400;
    assert y / 4 == era * 100 + yoe / 4;
    assert y / 100 == era * 4 + yoe / 100;
  }

  /** The next day is one more in the calendar. */
  lemma NextDayInCalendar(d: Date)
    requires IsDate(d)
    ensures InRange(d.month, d.day) && InRange(NextDay(d).month, NextDay(d).day)
    ensures Calendar(NextDay(d).year, NextDay(d).month, NextDay(d).day) == Calendar(d.year, d.month, d.day) + 1
  {
    hide DaysBeforeYear, DaysInYear, IsLeap;
    if d.day == DaysInMonth(d.year, d.month) && d.month == 12 {
      DecemberEnds(d.year);
    }
  }

  /** One day later counts one more, across every month, leap-year and century boundary. */
  lemma NextDayAddsOne(d: Date)
    requires IsDate(d)
    ensures DaysFromCivil(NextDay(d).year, NextDay(d).month, NextDay(d).day)
            == Some(DaysFromCivilUnchecked(d.year, d.month, d.day) + 1)
  {
    hide *;
    NextDayInCalendar(d);
    AgreesWithCalendar(d.year, d.month, d.day);
    AgreesWithCalendar(NextDay(d).year, NextDay(d).month, NextDay(d).day);
  }

  lemma DecemberEnds(year: int)
    ensures DaysBeforeMonth(year, 12) + 31 == DaysInYear(year)
    ensures DaysBeforeYear(year + 1) == DaysBeforeYear(year) + DaysInYear(year)
  {
    MonthsClosedForm(year, 12);
  }

  // ----- where 32 bits suffice -----

  /** No intermediate value leaves the 32-bit range. */
  predicate NoOverflow(year: int, month: nat, day: nat) {
    var s := Compute(year, month, day);
    && FitsI32(s.year) && FitsI32(s.shifted) && FitsI32(s.era) && FitsI32(s.eraYears) && FitsI32(s.yearOfEra)
    && FitsI32(s.dayOfYear) && FitsI32(s.dayOfEra) && FitsI32(s.eraDays) && FitsI32(s.sum) && FitsI32(s.days)
  }

  /** The arithmetic is safe exactly when the true count fits with room for the epoch offset above. */
  lemma OverflowExactly(year: int, month: nat, day: nat)
    requires InRange(month, day)
    ensures NoOverflow(year, month, day)
            <==> -0x8000_0000 <= Calendar(year, month, day) < 0x8000_0000 - EPOCH_OFFSET
  {
    AgreesWithCalendar(year, month, day);
    EraIsFloor(year, month, day);
    var s := Compute(year, month, day);
    assert 0 <= s.dayOfYear <= 367;
    assert 0 <= s.dayOfEra <= 146_464;
    if FitsI32(s.sum) && FitsI32(s.days) {
      assert -14_700 < s.era < 14_700;
    }
  }

  /** Whole years that are safe for every month and day; beyond the two years around them no date is. */
  lemma SafeYears(year: int, month: nat, day: nat)
    requires InRange(month, day)
    ensures -5_877_640 <= year <= 5_879_609 ==> NoOverflow(year, month, day)
    ensures year < -5_877_641 || year > 5_879_610 ==> !NoOverflow(year, month, day)
  {
    OverflowExactly(year, month, day);
    YearsClosedForm(year);
    MonthsClosedForm(year, month);
  }

  /** Year, then month, then day. */
  predicate NotAfter(a: Date, b: Date) {
    a.year < b.year || (a.year == b.year && (a.month < b.month || (a.month == b.month && a.day <= b.day)))
  }

  const FIRST_SAFE := Date(-5_877_641, 6, 23)
  const LAST_SAFE := Date(5_879_610, 9, 9)

  /** The 32-bit arithmetic is safe for exactly the dates from 23 June -5877641 to 9 September 5879610. */
  lemma SafeDates(year: int, month: nat, day: nat)
    requires InRange(month, day)
    ensures NoOverflow(year, month, day) <==> NotAfter(FIRST_SAFE, Date(year, month, day)) && NotAfter(Date(year, month, day), LAST_SAFE)
  {
    hide NoOverflow, DaysBeforeYear, DaysBeforeMonth, IsLeap;
    SafeYears(year, month, day);
    if year == FIRST_SAFE.year || year == LAST_SAFE.year {
      OverflowExactly(year, month, day);
      YearsClosedForm(year);
      MonthsClosedForm(year, month);
      CommonEdges();
    }
  }

  lemma CommonEdges()
    ensures !IsLeap(FIRST_SAFE.year) && !IsLeap(LAST_SAFE.year)
  {
  }
}
