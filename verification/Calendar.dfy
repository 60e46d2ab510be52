/** The proleptic Gregorian calendar: days since 1970-01-01 and civil dates. */
module Calendar {
  predicate Leap(y: int) { y % 4 == 0 && (y % 100 != 0 || y % 400 == 0) }

  function DaysInYear(y: int): nat { if Leap(y) then 366 else 365 }

  /** Days from 0000-01-01 to the first day of a year. */
  function DaysBeforeYear(y: int): int
    decreases if y < 0 then -y else y
  {
    if y == 0 then 0
    else if y > 0 then DaysBeforeYear(y - 1) + DaysInYear(y - 1)
    else DaysBeforeYear(y + 1) - DaysInYear(y)
  }

  lemma {:induction false} YearLength(y: int)
    ensures DaysBeforeYear(y + 1) - DaysBeforeYear(y) == DaysInYear(y)
  {}

  function DaysInMonth(y: int, m: nat): nat {
    match m
    case 2 => if Leap(y) then 29 else 28
    case 4 => 30 case 6 => 30 case 9 => 30 case 11 => 30
    case _ => 31
  }

  function DaysBeforeMonth(y: int, m: nat): nat
    requires 1 <= m
  {
    if m == 1 then 0 else DaysBeforeMonth(y, m - 1) + DaysInMonth(y, m - 1)
  }

  lemma {:induction false} MonthStep(y: int, m: nat)
    requires 1 <= m
    ensures DaysBeforeMonth(y, m + 1) == DaysBeforeMonth(y, m) + DaysInMonth(y, m)
  {}

  lemma {:induction false} MonthsOfYear(y: int, n: nat)
    requires n == 13
    ensures DaysBeforeMonth(y, n) == DaysInYear(y)
  {
    MonthStep(y, 1); MonthStep(y, 2); MonthStep(y, 3); MonthStep(y, 4); MonthStep(y, 5); MonthStep(y, 6);
    MonthStep(y, 7); MonthStep(y, 8); MonthStep(y, 9); MonthStep(y, 10); MonthStep(y, 11); MonthStep(y, 12);
  }

  datatype Civil = Civil(y: int, m: nat, d: nat)

  predicate ValidDate(c: Civil) { 1 <= c.m <= 12 && 1 <= c.d <= DaysInMonth(c.y, c.m) }

  const EPOCH := 719528

  function DaysFromCivil(c: Civil): int
    requires 1 <= c.m
  {
    DaysBeforeYear(c.y) + DaysBeforeMonth(c.y, c.m) + c.d - 1 - EPOCH
  }

  /** The year that holds day `n`, looking forward from `y`. */
  function YearFrom(n: int, y: int): (r: int)
    requires DaysBeforeYear(y) <= n
    ensures DaysBeforeYear(r) <= n < DaysBeforeYear(r + 1)
    decreases n - DaysBeforeYear(y)
  {
    YearLength(y);
    if n < DaysBeforeYear(y + 1) then y else YearFrom(n, y + 1)
  }

  /** The year that holds day `n`, looking backward from `y`. */
  function YearDown(n: int, y: int): (r: int)
    requires n < DaysBeforeYear(y + 1)
    ensures DaysBeforeYear(r) <= n < DaysBeforeYear(r + 1)
    decreases DaysBeforeYear(y + 1) - n
  {
    YearLength(y);
    if DaysBeforeYear(y) <= n then y else YearDown(n, y - 1)
  }

  function YearOf(n: int): (r: int)
    ensures DaysBeforeYear(r) <= n < DaysBeforeYear(r + 1)
  {
    if n >= 0 then YearFrom(n, 0) else YearDown(n, -1)
  }

  function MonthFrom(y: int, n: nat, m: nat): (r: nat)
    requires 1 <= m <= 12 && DaysBeforeMonth(y, m) <= n < DaysInYear(y)
    ensures 1 <= r <= 12 && DaysBeforeMonth(y, r) <= n < DaysBeforeMonth(y, r + 1)
    decreases 13 - m
  {
    MonthsOfYear(y, 13);
    if n < DaysBeforeMonth(y, m + 1) then m else MonthFrom(y, n, m + 1)
  }

  function CivilFromDays(z: int): (c: Civil)
    ensures ValidDate(c) && DaysFromCivil(c) == z
  {
    var y := YearOf(z + EPOCH);
    YearLength(y);
    var n := z + EPOCH - DaysBeforeYear(y);
    var m := MonthFrom(y, n, 1);
    Civil(y, m, n - DaysBeforeMonth(y, m) + 1)
  }

  lemma {:induction false} YearsOrdered(y: int, y': int)
    requires y <= y'
    ensures DaysBeforeYear(y) <= DaysBeforeYear(y')
    decreases y' - y
  {
    if y < y' { YearLength(y); YearsOrdered(y + 1, y'); }
  }

  lemma {:induction false} MonthsOrdered(y: int, m: nat, m': nat)
    requires 1 <= m <= m'
    ensures DaysBeforeMonth(y, m) <= DaysBeforeMonth(y, m')
    decreases m' - m
  {
    if m < m' { MonthsOrdered(y, m, m' - 1); }
  }

  function DayOfYear(c: Civil): (r: nat)
    requires ValidDate(c)
    ensures r < DaysInYear(c.y)
  {
    MonthsOfYear(c.y, 13);
    MonthsOrdered(c.y, c.m + 1, 13);
    DaysBeforeMonth(c.y, c.m) + c.d - 1
  }

  /** A date lies before every date of a later year, and of a later month of its year. */
  lemma {:induction false} LaterYear(c: Civil, c': Civil)
    requires ValidDate(c) && ValidDate(c') && c.y < c'.y
    ensures DaysFromCivil(c) < DaysFromCivil(c')
  {
    YearLength(c.y);
    YearsOrdered(c.y + 1, c'.y);
    var _ := DayOfYear(c);
  }

  lemma {:induction false} LaterMonth(c: Civil, c': Civil)
    requires ValidDate(c) && ValidDate(c') && c.y == c'.y && c.m < c'.m
    ensures DaysFromCivil(c) < DaysFromCivil(c')
  {
    MonthStep(c.y, c.m);
    MonthsOrdered(c.y, c.m + 1, c'.m);
  }

  /** Every date is the date of its day. */
  lemma CivilRoundTrip(c: Civil)
    requires ValidDate(c)
    ensures CivilFromDays(DaysFromCivil(c)) == c
  {
    SameDay(c, CivilFromDays(DaysFromCivil(c)));
  }

  lemma {:induction false} SameDay(c: Civil, c': Civil)
    requires ValidDate(c) && ValidDate(c') && DaysFromCivil(c) == DaysFromCivil(c')
    ensures c == c'
  {
    if c.y < c'.y { LaterYear(c, c'); }
    if c.y > c'.y { LaterYear(c', c); }
    if c.y == c'.y && c.m < c'.m { LaterMonth(c, c'); }
    if c.y == c'.y && c.m > c'.m { LaterMonth(c', c); }
  }

  /** The number of leap years before `y`. */
  function LeapsBefore(y: nat): int { (y + 3) / 4 - (y + 99) / 100 + (y + 399) / 400 }

  lemma {:induction false} LeapStep(y: nat)
    ensures LeapsBefore(y + 1) == LeapsBefore(y) + if Leap(y) then 1 else 0
  {
    Multiple(y, 4, y / 4, y % 4);
    Multiple(y, 100, y / 100, y % 100);
    Multiple(y, 400, y / 400, y % 400);
    Divides(y, y / 400, y % 400, y / 100, y % 100, y / 4, y % 4);
  }

  lemma {:induction false} Divides(y: nat, q400: nat, r400: nat, q100: nat, r100: nat, q4: nat, r4: nat)
    requires y == 400 * q400 + r400 && y == 100 * q100 + r100 && y == 4 * q4 + r4 && r400 < 400 && r100 < 100 && r4 < 4
    ensures r400 == 0 ==> r100 == 0
    ensures r100 == 0 ==> r4 == 0
  {}

  lemma {:induction false} Multiple(y: nat, n: nat, q: nat, r: nat)
    requires n == 4 || n == 100 || n == 400
    requires y == n * q + r && r < n
    ensures (y + n) / n == q + 1 && (y + n - 1) / n == if r == 0 then q else q + 1
  {}

  lemma {:induction false} ClosedForm(y: nat)
    ensures DaysBeforeYear(y) == 365 * y + LeapsBefore(y)
  {
    if y > 0 { ClosedForm(y - 1); LeapStep(y - 1); }
  }

  /** Day 0 is 1970-01-01. */
  lemma {:induction false} Epoch(y: nat)
    requires y == 1970
    ensures DaysBeforeYear(y) == EPOCH
  {
    ClosedForm(y);
  }
}
