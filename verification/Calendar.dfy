/** The proleptic Gregorian calendar of Python's `datetime.date`: ordinals count days, day 1 being 0001-01-01, and
    months are counted from January of year 0, as `relativedelta` steps through them. */
module Calendar {

  datatype Date = Date(y: int, m: int, d: int) {
    predicate Valid() {
      y >= 1 && 1 <= m <= 12 && 1 <= d <= MonthLength(y, m)
    }
  }

  predicate IsLeap(y: int) {
    y % 4 == 0 && (y % 100 != 0 || y % 400 == 0)
  }

  function MonthLength(y: int, m: int): int {
    if m == 2 then (if IsLeap(y) then 29 else 28)
    else if m == 4 || m == 6 || m == 9 || m == 11 then 30
    else 31
  }

  function DaysBeforeYear(y: int): int {
    365 * (y - 1) + (y - 1) / 4 - (y - 1) / 100 + (y - 1) / 400
  }

  function DaysBeforeMonth(y: int, m: int): int
    requires 1 <= m <= 13
    decreases m
  {
    if m == 1 then 0 else DaysBeforeMonth(y, m - 1) + MonthLength(y, m - 1)
  }

  function Ordinal(date: Date): int
    requires date.Valid()
  {
    DaysBeforeYear(date.y) + DaysBeforeMonth(date.y, date.m) + date.d
  }

  lemma {:induction false} MonthsOfAYear(y: int)
    ensures DaysBeforeMonth(y, 13) == if IsLeap(y) then 366 else 365
  {
    assert DaysBeforeMonth(y, 4) == 31 + MonthLength(y, 2) + 31;
    assert DaysBeforeMonth(y, 8) == DaysBeforeMonth(y, 4) + 30 + 31 + 30 + 31;
    assert DaysBeforeMonth(y, 12) == DaysBeforeMonth(y, 8) + 31 + 30 + 31 + 30;
  }

  lemma Fours(y: int)
    ensures y / 4 - (y - 1) / 4 == if y % 4 == 0 then 1 else 0
  {
    var q, r := (y - 1) / 4, (y - 1) % 4;
    assert y == 4 * q + (r + 1);
  }

  lemma Hundreds(y: int)
    ensures y / 100 - (y - 1) / 100 == if y % 100 == 0 then 1 else 0
  {
    var q, r := (y - 1) / 100, (y - 1) % 100;
    assert y == 100 * q + (r + 1);
  }

  lemma FourHundreds(y: int)
    ensures y / 400 - (y - 1) / 400 == if y % 400 == 0 then 1 else 0
  {
    var q, r := (y - 1) / 400, (y - 1) % 400;
    assert y == 400 * q + (r + 1);
  }

  lemma HundredsAreFours(y: int)
    ensures y % 100 == 0 ==> y % 4 == 0
  {
    var k := y / 100;
    assert y == 4 * (25 * k) + y % 100;
  }

  lemma FourHundredsAreHundreds(y: int)
    ensures y % 400 == 0 ==> y % 100 == 0
  {
    var k := y / 400;
    assert y == 100 * (4 * k) + y % 400;
  }

  lemma YearLength(y: int)
    ensures DaysBeforeYear(y + 1) == DaysBeforeYear(y) + if IsLeap(y) then 366 else 365
    ensures DaysBeforeMonth(y, 13) == if IsLeap(y) then 366 else 365
  {
    Fours(y);
    Hundreds(y);
    FourHundreds(y);
    HundredsAreFours(y);
    FourHundredsAreHundreds(y);
    MonthsOfAYear(y);
  }

  function NextDay(date: Date): Date
    requires date.Valid()
  {
    if date.d < MonthLength(date.y, date.m) then Date(date.y, date.m, date.d + 1)
    else if date.m < 12 then Date(date.y, date.m + 1, 1)
    else Date(date.y + 1, 1, 1)
  }

  lemma NextDayIsNext(date: Date)
    requires date.Valid()
    ensures NextDay(date).Valid() && Ordinal(NextDay(date)) == Ordinal(date) + 1
  {
    YearLength(date.y);
  }

  /** The date with ordinal `n`. */
  function FromOrdinal(n: int): (date: Date)
    requires 1 <= n
    ensures date.Valid() && Ordinal(date) == n
    decreases n
  {
    if n == 1 then Date(1, 1, 1)
    else
      NextDayIsNext(FromOrdinal(n - 1));
      NextDay(FromOrdinal(n - 1))
  }

  /** Months counted from January of year 0. */
  function MonthIndex(date: Date): int {
    12 * date.y + date.m - 1
  }

  lemma {:induction false} MonthsGrow(y: int, m: int, n: int)
    requires 1 <= m < n <= 13
    ensures DaysBeforeMonth(y, m) + MonthLength(y, m) <= DaysBeforeMonth(y, n)
    decreases n - m
  {
    if m + 1 < n {
      MonthsGrow(y, m, n - 1);
    }
  }

  lemma {:induction false} YearsGrow(y: int, z: int)
    requires y < z
    ensures DaysBeforeYear(y) + DaysBeforeMonth(y, 13) <= DaysBeforeYear(z)
    decreases z - y
  {
    YearLength(z - 1);
    if y + 1 < z {
      YearsGrow(y, z - 1);
    }
  }

  /** A later month holds later days. */
  lemma LaterMonthIsLater(a: Date, b: Date)
    requires a.Valid() && b.Valid() && MonthIndex(a) < MonthIndex(b)
    ensures Ordinal(a) < Ordinal(b)
  {
    if a.y < b.y {
      WithinTheYear(a);
      WithinTheYear(b);
      YearsGrow(a.y, b.y);
    } else {
      MonthsGrow(a.y, a.m, b.m);
    }
  }

  lemma WithinTheYear(date: Date)
    requires date.Valid()
    ensures DaysBeforeYear(date.y) < Ordinal(date) <= DaysBeforeYear(date.y) + DaysBeforeMonth(date.y, 13)
  {
    MonthsGrow(date.y, date.m, 13);
    if date.m > 1 {
      MonthsGrow(date.y, 1, date.m);
    }
  }

  /** Two dates with one ordinal are one date. */
  lemma OrdinalIsInjective(a: Date, b: Date)
    requires a.Valid() && b.Valid() && Ordinal(a) == Ordinal(b)
    ensures a == b
  {
    if MonthIndex(a) < MonthIndex(b) {
      LaterMonthIsLater(a, b);
    } else if MonthIndex(b) < MonthIndex(a) {
      LaterMonthIsLater(b, a);
    }
  }

  function Min(a: int, b: int): int {
    if a <= b then a else b
  }

  /** The month `k` months after January of year 0, clamping day `d` to its end. */
  function InMonth(index: int, d: int): Date {
    Date(index / 12, index % 12 + 1, Min(d, MonthLength(index / 12, index % 12 + 1)))
  }

  /** `date + relativedelta(months=k)`. */
  function AddMonths(date: Date, k: nat): (r: Date)
    requires date.Valid()
    ensures r.Valid() && MonthIndex(r) == MonthIndex(date) + k
  {
    InMonth(MonthIndex(date) + k, date.d)
  }
}
