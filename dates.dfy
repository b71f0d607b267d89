/** java.time.LocalDate as far as the age check needs it: calendar dates of
    the proleptic ISO calendar, minusYears, and isBefore. */
module Dates {
  import opened Wrappers

  datatype Date = Date(year: int, month: int, day: int)

  /** IsoChronology.isLeapYear. */
  predicate IsLeap(year: int) {
    year % 4 == 0 && (year % 100 != 0 || year % 400 == 0)
  }

  function MonthLength(year: int, month: int): (n: int)
    requires 1 <= month <= 12
    ensures 28 <= n <= 31
  {
    if month == 2 then (if IsLeap(year) then 29 else 28)
    else if month == 4 || month == 6 || month == 9 || month == 11 then 30
    else 31
  }

  /** A date LocalDate can represent. */
  predicate Valid(d: Date) {
    1 <= d.month <= 12 && 1 <= d.day <= MonthLength(d.year, d.month)
  }

  /** LocalDate.isBefore: strictly earlier on the time line. */
  predicate IsBefore(a: Date, b: Date) {
    a.year < b.year
    || (a.year == b.year && a.month < b.month)
    || (a.year == b.year && a.month == b.month && a.day < b.day)
  }

  /** LocalDate.minusYears(n): same month and day n years earlier; a day that
      does not exist in that year (29 February) becomes the month's last day. */
  function MinusYears(d: Date, n: int): (r: Date)
    requires Valid(d)
    ensures Valid(r)
    ensures r.year == d.year - n && r.month == d.month
    ensures r.day <= d.day && (r.day < d.day ==> d.month == 2 && d.day == 29 && r.day == 28)
  {
    var y := d.year - n;
    Date(y, d.month, if d.day <= MonthLength(y, d.month) then d.day else MonthLength(y, d.month))
  }

  /** CustomerService.over18 with the clock passed in: the birth date is
      strictly before the date eighteen years before today. */
  predicate Over18(birth: Option<Date>, today: Date)
    requires Valid(today)
  {
    birth.Some? && IsBefore(birth.value, MinusYears(today, 18))
  }

  /** isBefore is a strict order. */
  lemma IsBeforeStrictOrder(a: Date, b: Date, c: Date)
    ensures !IsBefore(a, a)
    ensures IsBefore(a, b) && IsBefore(b, c) ==> IsBefore(a, c)
    ensures IsBefore(a, b) ==> !IsBefore(b, a)
  {
  }

  /** Whoever is over eighteen today is still over eighteen on any later day. */
  lemma {:induction false} Over18Persists(birth: Date, today: Date, later: Date)
    requires Valid(today) && Valid(later)
    requires Over18(Some(birth), today)
    requires !IsBefore(later, today)
    ensures Over18(Some(birth), later)
  {
    var t, l := MinusYears(today, 18), MinusYears(later, 18);
    assert !IsBefore(l, t) by {
      if today.year == later.year && today.month == later.month {
        assert later.day >= today.day;
      }
    }
  }

  /** The eighteenth birthday itself is not yet enough; the day before it is
      (isBefore is strict). */
  lemma EighteenthBirthday()
    ensures !Over18(Some(Date(2008, 10, 17)), Date(2026, 10, 17))
    ensures Over18(Some(Date(2008, 10, 16)), Date(2026, 10, 17))
  {
  }

  /** Someone born on 29 February becomes "over 18" only after 28 February
      of the year they turn eighteen, when that year is not a leap year. */
  lemma LeapDayBirth()
    ensures !Over18(Some(Date(2004, 2, 29)), Date(2022, 2, 28))
    ensures Over18(Some(Date(2004, 2, 29)), Date(2022, 3, 1))
  {
  }
}
