/** The proleptic Gregorian calendar as day numbers, and back. The source works in 64-bit integers and
    stays far inside them for every instant it is given. */
module Calendar {

  datatype Date = Date(year: int, month: int, day: int)

  predicate Leap(y: int) {
    (y % 4 == 0 && y % 100 != 0) || y % 400 == 0
  }

  function DaysInMonth(y: int, m: int): int
    requires 1 <= m <= 12
  {
    [31, if Leap(y) then 29 else 28, 31, 30, 31, 30, 31, 31, 30, 31, 30, 31][m - 1]
  }

  predicate Valid(d: Date) {
    1 <= d.month <= 12 && 1 <= d.day <= DaysInMonth(d.year, d.month)
  }

  /** Days since 1970-01-01. */
  function DaysFromCivil(y: int, m: int, d: int): int {
    var y := if m <= 2 then y - 1 else y;
    var era := y / 400;
    var yoe := y - era * 400;
    var doy := (153 * (if m > 2 then m - 3 else m + 9) + 2) / 5 + d - 1;
    var doe := yoe * 365 + yoe / 4 - yoe / 100 + doy;
    era * 146_097 + doe - 719_468
  }

  function CivilFromDays(z: int): Date {
    var z := z + 719_468;
    var era := z / 146_097;
    var doe := z - era * 146_097;
    var yoe := (doe - doe / 1460 + doe / 36524 - doe / 146_096) / 365;
    var doy := doe - (365 * yoe + yoe / 4 - yoe / 100);
    var mp := (5 * doy + 2) / 153;
    var d := doy - (153 * mp + 2) / 5 + 1;
    var m := if mp < 10 then mp + 3 else mp - 9;
    Date(yoe + era * 400 + (if m <= 2 then 1 else 0), m, d)
  }

  // ---- inside an era of 400 years --------------------------------------------------------------

  /** Days before year `yoe` of an era whose years begin in March. */
  function YearStart(yoe: int): int {
    365 * yoe + yoe / 4 - yoe / 100
  }

  /** Whether the year that begins in March of year `yoe` of the era ends with a 29 February. */
  predicate LongYear(yoe: int) {
    Leap(yoe + 1)
  }

  function YearLength(yoe: int): int {
    if LongYear(yoe) then 366 else 365
  }

  /** The year of a day, as the estimate of `CivilFromDays` gives it. */
  function YearOf(doe: int): int {
    (doe - doe / 1460 + doe / 36524 - doe / 146_096) / 365
  }

  lemma QuotientNext(n: nat, m: nat)
    requires m == 4 || m == 100
    ensures (n + 1) / m == n / m + if (n + 1) % m == 0 then 1 else 0
  {
  }

  lemma YearStartNext(yoe: int)
    requires 0 <= yoe < 400
    ensures YearStart(yoe + 1) == YearStart(yoe) + YearLength(yoe) - (if yoe == 399 then 1 else 0)
  {
    QuotientNext(yoe, 4);
    QuotientNext(yoe, 100);
  }

  /** The year of an era in centuries, four-year groups and years. */
  lemma YearParts(yoe: int) returns (c: int, q: int, r: int)
    requires 0 <= yoe < 400
    ensures 0 <= c < 4 && 0 <= q < 25 && 0 <= r < 4 && yoe == 100 * c + 4 * q + r
    ensures YearStart(yoe) == 36524 * c + 1461 * q + 365 * r
    ensures LongYear(yoe) <==> r == 3 && (q < 24 || c == 3)
  {
    c, q, r := yoe / 100, yoe % 100 / 4, yoe % 4;
  }

  /** The estimate is exact: a day of year `yoe` is found to be one. */
  lemma YearOfExact(yoe: int, doy: int)
    requires 0 <= yoe < 400 && 0 <= doy < YearLength(yoe)
    ensures YearOf(YearStart(yoe) + doy) == yoe
    ensures 0 <= YearStart(yoe) + doy < 146_097
  {
    var c, q, r := YearParts(yoe);
    var doe := YearStart(yoe) + doy;
    var inCentury := 1461 * q + 365 * r + doy;
    assert doe == 36524 * c + inCentury;
    assert inCentury <= 36524 && (inCentury == 36524 ==> c == 3 && q == 24 && r == 3 && doy == 365);
    if inCentury == 36524 {
      assert doe == 146_096;
    } else {
      assert doe / 36524 == c && doe / 146_096 == 0;
      // doe / 1460 counts one day for each whole four-year group before, and at most one more at the
      // end of a group, where the year is a long one.
      var group := 365 * r + doy;
      assert 0 <= group <= 1460;
      assert doe - doe / 1460 + c == 365 * yoe + doy + (25 * c + q) - doe / 1460;
      assert doe == 1460 * (25 * c + q) + (24 * c + q + group);
      assert 0 <= 24 * c + q + group;
      GroupEstimate(c, q, r, doy);
    }
  }

  lemma GroupEstimate(c: int, q: int, r: int, doy: int)
    requires 0 <= c < 4 && 0 <= q < 25 && 0 <= r < 4 && 0 <= doy <= (if r == 3 then 365 else 364)
    ensures var doe := 36524 * c + 1461 * q + 365 * r + doy;
            0 <= 365 * r + doy + (25 * c + q) - doe / 1460 - 365 * r < 365
  {
    var doe := 36524 * c + 1461 * q + 365 * r + doy;
    var rest := 24 * c + q + 365 * r + doy;
    assert doe == 1460 * (25 * c + q) + rest;
    assert doe / 1460 == 25 * c + q + rest / 1460;
    assert rest <= 72 + 24 + 1460;
  }

  lemma CenturyOf(doe: int) returns (c: int, rest: int)
    requires 0 <= doe < 146_097
    ensures 0 <= c < 4 && doe == 36524 * c + rest && 0 <= rest <= 36524 && (rest == 36524 ==> c == 3)
  {
    c := if doe == 146_096 then 3 else doe / 36524;
    rest := doe - 36524 * c;
  }

  lemma GroupOf(inCentury: int) returns (q: int, rest: int)
    requires 0 <= inCentury <= 36524
    ensures 0 <= q < 25 && inCentury == 1461 * q + rest && 0 <= rest <= 1460
    ensures rest == 1460 && q == 24 ==> inCentury == 36524
  {
    q := if inCentury == 36524 then 24 else inCentury / 1461;
    rest := inCentury - 1461 * q;
  }

  lemma YearOfGroup(inGroup: int) returns (r: int, doy: int)
    requires 0 <= inGroup <= 1460
    ensures 0 <= r < 4 && inGroup == 365 * r + doy && 0 <= doy <= 365 && (doy == 365 ==> r == 3 && inGroup == 1460)
  {
    r := if inGroup == 1460 then 3 else inGroup / 365;
    doy := inGroup - 365 * r;
  }

  lemma PartsAreUnique(yoe: int, c: int, q: int, r: int, c': int, q': int, r': int)
    requires 0 <= c < 4 && 0 <= q < 25 && 0 <= r < 4 && yoe == 100 * c + 4 * q + r
    requires 0 <= c' < 4 && 0 <= q' < 25 && 0 <= r' < 4 && yoe == 100 * c' + 4 * q' + r'
    ensures c == c' && q == q' && r == r'
  {
  }

  /** Every day of an era is in a year of it. */
  lemma YearContaining(doe: int) returns (yoe: int)
    requires 0 <= doe < 146_097
    ensures 0 <= yoe < 400 && YearStart(yoe) <= doe < YearStart(yoe) + YearLength(yoe)
  {
    var c, inCentury := CenturyOf(doe);
    var q, inGroup := GroupOf(inCentury);
    var r, doy := YearOfGroup(inGroup);
    yoe := 100 * c + 4 * q + r;
    var c', q', r' := YearParts(yoe);
    PartsAreUnique(yoe, c, q, r, c', q', r');
  }

  // ---- inside a year that begins in March --------------------------------------------------------

  /** Days before month `mp`, 0 for March to 11 for February. */
  function MonthStart(mp: int): int {
    (153 * mp + 2) / 5
  }

  function MonthOf(doy: int): int {
    (5 * doy + 2) / 153
  }

  /** The month of the calendar and its place in a year that begins in March. */
  function MonthPlace(m: int): int {
    if m > 2 then m - 3 else m + 9
  }

  lemma MonthOfExact(mp: int, day: int)
    requires 0 <= mp <= 11 && 0 <= day < 31
    requires mp < 11 ==> day < MonthStart(mp + 1) - MonthStart(mp)
    requires mp == 11 ==> day < 29
    ensures MonthOf(MonthStart(mp) + day) == mp
    ensures 0 <= MonthStart(mp) + day < 366
  {
  }

  /** The months from March on are as long as the calendar says. */
  lemma MonthLengths(y: int, m: int)
    requires 1 <= m <= 12 && m != 2
    ensures MonthStart(MonthPlace(m) + 1) - MonthStart(MonthPlace(m)) == DaysInMonth(y, m)
  {
  }

  lemma MonthContaining(doy: int)
    requires 0 <= doy < 366
    ensures var mp := MonthOf(doy);
            0 <= mp <= 11 && MonthStart(mp) <= doy && (mp < 11 ==> doy < MonthStart(mp + 1))
  {
  }

  // ---- places: an era of 400 years, a year of it that begins in March, a day of that year -----------

  datatype Place = Place(era: int, yoe: int, doy: int)

  predicate ValidPlace(p: Place) {
    0 <= p.yoe < 400 && 0 <= p.doy < YearLength(p.yoe)
  }

  function PlaceOf(d: Date): Place {
    var y := if d.month <= 2 then d.year - 1 else d.year;
    Place(y / 400, y - y / 400 * 400, MonthStart(MonthPlace(d.month)) + d.day - 1)
  }

  function DateOf(p: Place): Date {
    var mp := MonthOf(p.doy);
    var m := if mp < 10 then mp + 3 else mp - 9;
    Date(p.yoe + p.era * 400 + (if m <= 2 then 1 else 0), m, p.doy - MonthStart(mp) + 1)
  }

  function NumberOf(p: Place): int {
    p.era * 146_097 + YearStart(p.yoe) + p.doy - 719_468
  }

  function PlaceAt(z: int): Place {
    var era := (z + 719_468) / 146_097;
    var doe := z + 719_468 - era * 146_097;
    Place(era, YearOf(doe), doe - YearStart(YearOf(doe)))
  }

  lemma DaysByPlace(d: Date)
    ensures DaysFromCivil(d.year, d.month, d.day) == NumberOf(PlaceOf(d))
  {
  }

  lemma CivilByPlace(z: int)
    ensures CivilFromDays(z) == DateOf(PlaceAt(z))
  {
  }

  lemma SameModFour(y: int, n: int)
    ensures (y + 4 * n) % 4 == y % 4
  {
  }

  lemma SameModHundred(y: int, n: int)
    ensures (y + 100 * n) % 100 == y % 100
  {
  }

  lemma SameModEra(y: int, n: int)
    ensures (y + 400 * n) % 400 == y % 400
  {
  }

  /** Whole eras do not change which years are leap years. */
  lemma LeapAgain(y: int, era: int)
    ensures Leap(y + era * 400) <==> Leap(y)
  {
    SameModFour(y, 100 * era);
    SameModHundred(y, 4 * era);
    SameModEra(y, era);
    assert 4 * (100 * era) == 100 * (4 * era) == 400 * era == era * 400;
  }

  lemma FebruaryLength(year: int, era: int, yoe: int)
    requires year == yoe + era * 400 + 1
    ensures Leap(year) <==> LongYear(yoe)
  {
    LeapAgain(yoe + 1, era);
  }

  lemma PlaceOfDate(d: Date)
    requires Valid(d)
    ensures ValidPlace(PlaceOf(d)) && MonthOf(PlaceOf(d).doy) == MonthPlace(d.month) && DateOf(PlaceOf(d)) == d
  {
    var p := PlaceOf(d);
    if d.month == 2 {
      FebruaryLength(d.year, p.era, p.yoe);
    } else {
      MonthLengths(d.year, d.month);
    }
    MonthOfExact(MonthPlace(d.month), d.day - 1);
  }

  lemma DateOfPlace(p: Place)
    requires ValidPlace(p)
    ensures Valid(DateOf(p)) && PlaceOf(DateOf(p)) == p
  {
    var d := DateOf(p);
    MonthContaining(p.doy);
    assert 1 <= d.month <= 12 && MonthPlace(d.month) == MonthOf(p.doy);
    if d.month == 2 {
      FebruaryLength(d.year, p.era, p.yoe);
    } else {
      MonthLengths(d.year, d.month);
    }
  }

  lemma PlaceOfNumber(p: Place)
    requires ValidPlace(p)
    ensures PlaceAt(NumberOf(p)) == p
  {
    YearOfExact(p.yoe, p.doy);
    var doe := YearStart(p.yoe) + p.doy;
    assert (p.era * 146_097 + doe) / 146_097 == p.era;
  }

  lemma NumberOfPlace(z: int)
    ensures ValidPlace(PlaceAt(z)) && NumberOf(PlaceAt(z)) == z
  {
    var era := (z + 719_468) / 146_097;
    var doe := z + 719_468 - era * 146_097;
    var yoe := YearContaining(doe);
    YearOfExact(yoe, doe - YearStart(yoe));
  }

  // ---- the two directions -------------------------------------------------------------------------

  /** A valid date is found again from its day number. */
  lemma CivilOfDays(d: Date)
    requires Valid(d)
    ensures CivilFromDays(DaysFromCivil(d.year, d.month, d.day)) == d
  {
    calc {
      CivilFromDays(DaysFromCivil(d.year, d.month, d.day));
      { DaysByPlace(d); }
      CivilFromDays(NumberOf(PlaceOf(d)));
      { CivilByPlace(NumberOf(PlaceOf(d))); }
      DateOf(PlaceAt(NumberOf(PlaceOf(d))));
      { PlaceOfDate(d); PlaceOfNumber(PlaceOf(d)); }
      d;
    }
  }

  /** Every integer is the day number of the date it is turned into, and that date is a real one. */
  lemma DaysOfCivil(z: int)
    ensures Valid(CivilFromDays(z))
    ensures var d := CivilFromDays(z); DaysFromCivil(d.year, d.month, d.day) == z
  {
    NumberOfPlace(z);
    DateOfPlace(PlaceAt(z));
    CivilByPlace(z);
    DaysByPlace(DateOf(PlaceAt(z)));
  }

  // ---- the meaning: the calendar counted day by day -----------------------------------------------

  /** The day after `d`. */
  function Next(d: Date): Date
    requires Valid(d)
  {
    if d.day < DaysInMonth(d.year, d.month) then d.(day := d.day + 1)
    else if d.month < 12 then Date(d.year, d.month + 1, 1)
    else Date(d.year + 1, 1, 1)
  }

  lemma NextIsValid(d: Date)
    requires Valid(d)
    ensures Valid(Next(d))
  {
  }

  /** The next day of a year, or the first of the next year of the era, or of the next era. */
  function NextPlace(p: Place): Place {
    if p.doy + 1 < YearLength(p.yoe) then p.(doy := p.doy + 1)
    else if p.yoe < 399 then Place(p.era, p.yoe + 1, 0)
    else Place(p.era + 1, 0, 0)
  }

  lemma NumberOfNextPlace(p: Place)
    requires ValidPlace(p)
    ensures NumberOf(NextPlace(p)) == NumberOf(p) + 1
  {
    YearStartNext(p.yoe);
    assert YearStart(400) == 146_096;
  }

  lemma PlaceOfNextInYear(d: Date)
    requires Valid(d) && (d.month != 2 || d.day < DaysInMonth(d.year, d.month))
    ensures PlaceOf(Next(d)) == PlaceOf(d).(doy := PlaceOf(d).doy + 1)
  {
    if d.month != 2 {
      MonthLengths(d.year, d.month);
    }
  }

  lemma PlaceOfFirstOfMarch(d: Date)
    requires Valid(d) && d.month == 2 && d.day == DaysInMonth(d.year, d.month)
    ensures var p := PlaceOf(d);
            p.doy + 1 == YearLength(p.yoe) && PlaceOf(Next(d)) == NextPlace(p)
  {
    var p := PlaceOf(d);
    FebruaryLength(d.year, p.era, p.yoe);
    assert PlaceOf(Next(d)) == Place(d.year / 400, d.year - d.year / 400 * 400, 0);
  }

  lemma NumberOfNext(d: Date)
    requires Valid(d)
    ensures Valid(Next(d)) && NumberOf(PlaceOf(Next(d))) == NumberOf(PlaceOf(d)) + 1
  {
    NextIsValid(d);
    PlaceOfDate(d);
    assert PlaceOf(Next(d)) == NextPlace(PlaceOf(d)) by {
      if d.month == 2 && d.day == DaysInMonth(d.year, d.month) {
        PlaceOfFirstOfMarch(d);
      } else {
        PlaceOfDate(Next(d));
        PlaceOfNextInYear(d);
      }
    }
    NumberOfNextPlace(PlaceOf(d));
  }

  /** Day numbers count the days of the calendar one by one from 1970-01-01. */
  lemma DayNumberOfNext(d: Date)
    requires Valid(d)
    ensures Valid(Next(d))
    ensures DaysFromCivil(Next(d).year, Next(d).month, Next(d).day) == DaysFromCivil(d.year, d.month, d.day) + 1
    ensures DaysFromCivil(1970, 1, 1) == 0
  {
    NumberOfNext(d);
    DaysByPlace(d);
    DaysByPlace(Next(d));
    EpochIsZero();
  }

  lemma EpochIsZero()
    ensures DaysFromCivil(1970, 1, 1) == 0
  {
  }

  predicate Before(a: Date, b: Date) {
    a.year < b.year || (a.year == b.year && (a.month < b.month || (a.month == b.month && a.day < b.day)))
  }

  /** What it takes to number the days of the calendar one after another. */
  ghost predicate NumbersDay(days: Date -> int, civil: int -> Date, d: Date) {
    Valid(d) ==> civil(days(d)) == d && Valid(Next(d)) && days(Next(d)) == days(d) + 1
  }

  ghost predicate DatesDay(days: Date -> int, civil: int -> Date, z: int) {
    Valid(civil(z)) && days(civil(z)) == z
  }

  ghost predicate Numbering(days: Date -> int, civil: int -> Date) {
    && (forall d {:trigger NumbersDay(days, civil, d)} :: NumbersDay(days, civil, d))
    && (forall z {:trigger DatesDay(days, civil, z)} :: DatesDay(days, civil, z))
  }

  lemma NextIsLater(d: Date)
    requires Valid(d)
    ensures Before(d, Next(d))
  {
  }

  lemma BeforeIsTransitive(a: Date, b: Date, c: Date)
    requires Before(a, b) && Before(b, c)
    ensures Before(a, c)
  {
  }

  lemma {:induction false} LaterDaysAreLaterDates(days: Date -> int, civil: int -> Date, z: int, n: nat)
    requires Numbering(days, civil) && n > 0
    ensures Before(civil(z), civil(z + n))
  {
    var d := civil(z + n - 1);
    assert DatesDay(days, civil, z + n - 1);
    assert NumbersDay(days, civil, d);
    assert NumbersDay(days, civil, Next(d));
    assert civil(z + n) == Next(d);
    NextIsLater(d);
    if n > 1 {
      LaterDaysAreLaterDates(days, civil, z, n - 1);
      BeforeIsTransitive(civil(z), d, Next(d));
    }
  }

  lemma NumberingKeepsOrder(days: Date -> int, civil: int -> Date, a: Date, b: Date)
    requires Numbering(days, civil) && Valid(a) && Valid(b)
    ensures Before(a, b) <==> days(a) < days(b)
  {
    assert NumbersDay(days, civil, a) && NumbersDay(days, civil, b);
    if days(a) < days(b) {
      LaterDaysAreLaterDates(days, civil, days(a), days(b) - days(a));
    } else if days(b) < days(a) {
      LaterDaysAreLaterDates(days, civil, days(b), days(a) - days(b));
    }
  }

  function DayNumber(d: Date): int {
    DaysFromCivil(d.year, d.month, d.day)
  }

  lemma IsNumbering()
    ensures Numbering(DayNumber, CivilFromDays)
  {
    forall d ensures NumbersDay(DayNumber, CivilFromDays, d) {
      if Valid(d) {
        CivilOfDays(d);
        DayNumberOfNext(d);
      }
    }
    forall z ensures DatesDay(DayNumber, CivilFromDays, z) {
      DaysOfCivil(z);
    }
  }

  /** Day numbers keep the order of dates, strictly. */
  lemma DaysKeepOrder(a: Date, b: Date)
    requires Valid(a) && Valid(b)
    ensures Before(a, b) <==> DayNumber(a) < DayNumber(b)
  {
    IsNumbering();
    NumberingKeepsOrder(DayNumber, CivilFromDays, a, b);
  }

  lemma NumberingYears(days: Date -> int, civil: int -> Date, z: int, from: int, to: int)
    requires Numbering(days, civil)
    ensures from <= civil(z).year < to <==> days(Date(from, 1, 1)) <= z < days(Date(to, 1, 1))
  {
    assert DatesDay(days, civil, z);
    NumberingKeepsOrder(days, civil, civil(z), Date(from, 1, 1));
    NumberingKeepsOrder(days, civil, civil(z), Date(to, 1, 1));
    assert Before(civil(z), Date(from, 1, 1)) <==> civil(z).year < from;
    assert Before(civil(z), Date(to, 1, 1)) <==> civil(z).year < to;
  }

  /** The days of the years from `from` to before `to` are those numbered from the one's 1 January to
      before the other's. */
  lemma YearsSpan(z: int, from: int, to: int)
    ensures from <= CivilFromDays(z).year < to <==> DayNumber(Date(from, 1, 1)) <= z < DayNumber(Date(to, 1, 1))
  {
    IsNumbering();
    NumberingYears(DayNumber, CivilFromDays, z, from, to);
  }
}
