/** The sidecar's day-number-to-date conversion, against a day-by-day calendar. */
module Calendar {
  datatype Date = Date(year: int, month: int, day: int)

  /** Leap years and month lengths as in RFC 3339, section 5.7. */
  predicate IsLeap(y: int) {
    y % 4 == 0 && (y % 100 != 0 || y % 400 == 0)
  }

  function MonthLength(y: int, m: int): int {
    if m == 2 then if IsLeap(y) then 29 else 28
    else if m == 4 || m == 6 || m == 9 || m == 11 then 30
    else 31
  }

  predicate IsDate(d: Date) {
    1 <= d.month <= 12 && 1 <= d.day <= MonthLength(d.year, d.month)
  }

  function Tomorrow(d: Date): Date {
    if d.day < MonthLength(d.year, d.month) then d.(day := d.day + 1)
    else if d.month < 12 then Date(d.year, d.month + 1, 1)
    else Date(d.year + 1, 1, 1)
  }

  predicate Earlier(a: Date, b: Date) {
    a.year < b.year || (a.year == b.year &&
    (a.month < b.month || (a.month == b.month && a.day < b.day)))
  }

  /** Years of an era start on 1 March; `YearStart` is the day of the era year `y` begins on. */
  function YearStart(y: int): int {
    365 * y + y / 4 - y / 100
  }

  function YearOfEra(doe: int): int {
    (doe - doe / 1460 + doe / 36524 - doe / 146096) / 365
  }

  /** The day of the year, from 1 March, on which month `mp` begins. */
  function MonthStart(mp: int): int {
    (153 * mp + 2) / 5
  }

  function MonthNumber(mp: int): int {
    if mp < 10 then mp + 3 else mp - 9
  }

  function MonthDay(year: int, doy: int): Date {
    var mp := (5 * doy + 2) / 153;
    var d := doy - MonthStart(mp) + 1;
    var m := MonthNumber(mp);
    Date(if m <= 2 then year + 1 else year, m, d)
  }

  /** The year a day is in, counted from 1 March, and its day in that year. */
  function YearDay(days: int): (int, int) {
    var z := days + 719468;
    var era := z / 146097;
    var doe := z % 146097;
    var yoe := YearOfEra(doe);
    (yoe + era * 400, doe - YearStart(yoe))
  }

  function CivilFromDays(days: int): Date {
    var (year, doy) := YearDay(days);
    MonthDay(year, doy)
  }

  /** Day `k` of year `r` of four-year block `q` of century `c`: the formula names that year. */
  lemma YearFormula(c: int, q: int, r: int, k: int)
    requires 0 <= c < 4 && 0 <= q < 25 && 0 <= r < 4 && 0 <= k <= 365
    requires k == 365 ==> r == 3 && (q < 24 || c == 3)
    ensures YearOfEra(36524 * c + 1461 * q + 365 * r + k) == 100 * c + 4 * q + r
  {
    var doe := 36524 * c + 1461 * q + 365 * r + k;
    var over := 24 * c + q + 365 * r + k;
    assert doe == 1460 * (25 * c + q) + over;
    assert doe / 1460 == 25 * c + q + over / 1460;
    assert over / 1460 == if over >= 1460 then 1 else 0;
    assert doe / 36524 == if k == 365 && q == 24 then 4 else c;
    assert doe / 146096 == if k == 365 && q == 24 then 1 else 0;
  }

  lemma YearBegins(c: int, q: int, r: int)
    requires 0 <= c < 4 && 0 <= q < 25 && 0 <= r < 4
    ensures YearStart(100 * c + 4 * q + r) == 36524 * c + 1461 * q + 365 * r
  {
  }

  /** A day of the era as century, four-year block, year and day of the year. */
  lemma Split(doe: int) returns (c: int, q: int, r: int, k: int)
    requires 0 <= doe < 146097
    ensures 0 <= c < 4 && 0 <= q < 25 && 0 <= r < 4 && 0 <= k <= 365
    ensures k == 365 ==> r == 3 && (q < 24 || c == 3)
    ensures doe == 36524 * c + 1461 * q + 365 * r + k
  {
    c := if doe == 146096 then 3 else doe / 36524;
    var inCentury := doe - 36524 * c;
    q := inCentury / 1461;
    var inBlock := inCentury - 1461 * q;
    r := if inBlock == 1460 then 3 else inBlock / 365;
    k := inBlock - 365 * r;
  }

  lemma LeapAfter(c: int, q: int, r: int, era: int)
    requires 0 <= c < 4 && 0 <= q < 25 && 0 <= r < 4
    ensures IsLeap(100 * c + 4 * q + r + 400 * era + 1) <==> r == 3 && (q < 24 || c == 3)
  {
  }

  /** The day after, as year from 1 March and day of that year. */
  function NextDay(year: int, doy: int): (int, int) {
    if doy < 364 || (doy == 364 && IsLeap(year + 1)) then (year, doy + 1) else (year + 1, 0)
  }

  lemma MonthDayIsDate(year: int, doy: int)
    requires 0 <= doy <= 365
    requires doy == 365 ==> IsLeap(year + 1)
    ensures IsDate(MonthDay(year, doy))
  {
  }

  lemma MonthAt(doy: int, mp: int)
    requires 0 <= mp <= 11
    ensures (5 * doy + 2) / 153 == mp <==> MonthStart(mp) <= doy < MonthStart(mp + 1)
  {
  }

  lemma MonthSpan(year: int, mp: int)
    requires 0 <= mp <= 10
    ensures MonthStart(mp + 1) == MonthStart(mp) + MonthLength(year, MonthNumber(mp))
  {
  }

  lemma WithinYear(year: int, doy: int)
    requires 0 <= doy < 364 || (doy == 364 && IsLeap(year + 1))
    ensures MonthDay(year, doy + 1) == Tomorrow(MonthDay(year, doy))
  {
    var mp := (5 * doy + 2) / 153;
    MonthAt(doy, mp);
    if mp < 11 {
      MonthSpan(if MonthNumber(mp) <= 2 then year + 1 else year, mp);
      MonthAt(doy + 1, if doy + 1 < MonthStart(mp + 1) then mp else mp + 1);
    }
  }

  lemma YearEnds(year: int, doy: int)
    requires doy == (if IsLeap(year + 1) then 365 else 364)
    ensures MonthDay(year + 1, 0) == Tomorrow(MonthDay(year, doy))
  {
  }

  lemma MonthDayStep(year: int, doy: int)
    requires 0 <= doy <= 365
    requires doy == 365 ==> IsLeap(year + 1)
    ensures IsDate(MonthDay(year, doy))
    ensures var next := NextDay(year, doy); MonthDay(next.0, next.1) == Tomorrow(MonthDay(year, doy))
  {
    MonthDayIsDate(year, doy);
    if doy < 364 || (doy == 364 && IsLeap(year + 1)) {
      WithinYear(year, doy);
    } else {
      YearEnds(year, doy);
    }
  }

  lemma EraParts(era: int, doe: int)
    requires 0 <= doe < 146097
    ensures (146097 * era + doe) / 146097 == era && (146097 * era + doe) % 146097 == doe
  {
  }

  /** The year and day of a day given by its place in the era. */
  lemma YearDayAt(era: int, c: int, q: int, r: int, k: int)
    requires 0 <= c < 4 && 0 <= q < 25 && 0 <= r < 4 && 0 <= k <= 365
    requires k == 365 ==> r == 3 && (q < 24 || c == 3)
    ensures YearDay(146097 * era + 36524 * c + 1461 * q + 365 * r + k - 719468)
         == (100 * c + 4 * q + r + 400 * era, k)
  {
    var doe := 36524 * c + 1461 * q + 365 * r + k;
    YearFormula(c, q, r, k);
    YearBegins(c, q, r);
    EraParts(era, doe);
  }

  /** Day 0 is 1 January 1970. */
  lemma EpochDate()
    ensures CivilFromDays(0) == Date(1970, 1, 1)
  {
    YearDayAt(4, 3, 17, 1, 306);
    assert YearDay(0) == (1969, 306);
  }

  /** The place in the era after a day's place. */
  lemma PlaceStep(era: int, c: int, q: int, r: int, k: int) returns (next: (int, int, int, int, int))
    requires 0 <= c < 4 && 0 <= q < 25 && 0 <= r < 4 && 0 <= k <= 365
    requires k == 365 ==> r == 3 && (q < 24 || c == 3)
    ensures NextDay(100 * c + 4 * q + r + 400 * era, k) == (100 * next.1 + 4 * next.2 + next.3 + 400 * next.0, next.4)
    ensures k == 365 ==> IsLeap(100 * c + 4 * q + r + 400 * era + 1)
    ensures 0 <= next.1 < 4 && 0 <= next.2 < 25 && 0 <= next.3 < 4 && 0 <= next.4 <= 365
    ensures next.4 == 365 ==> next.3 == 3 && (next.2 < 24 || next.1 == 3)
    ensures 146097 * next.0 + 36524 * next.1 + 1461 * next.2 + 365 * next.3 + next.4
         == 146097 * era + 36524 * c + 1461 * q + 365 * r + k + 1
  {
    var leap := r == 3 && (q < 24 || c == 3);
    LeapAfter(c, q, r, era);
    next :=
      if k < 364 || (k == 364 && leap) then (era, c, q, r, k + 1)
      else if r < 3 then (era, c, q, r + 1, 0)
      else if q < 24 then (era, c, q + 1, 0, 0)
      else if c < 3 then (era, c + 1, 0, 0, 0)
      else (era + 1, 0, 0, 0, 0);
  }

  predicate StepsOn(days: int) {
    var (year, doy) := YearDay(days);
    0 <= doy <= 365 && (doy == 365 ==> IsLeap(year + 1)) && YearDay(days + 1) == NextDay(year, doy)
  }

  lemma StepsOnAt(era: int, c: int, q: int, r: int, k: int)
    requires 0 <= c < 4 && 0 <= q < 25 && 0 <= r < 4 && 0 <= k <= 365
    requires k == 365 ==> r == 3 && (q < 24 || c == 3)
    ensures StepsOn(146097 * era + 36524 * c + 1461 * q + 365 * r + k - 719468)
  {
    var n := PlaceStep(era, c, q, r, k);
    YearDayAt(era, c, q, r, k);
    YearDayAt(n.0, n.1, n.2, n.3, n.4);
  }

  /** The day of a year that `YearDay` gives is one of its days, and the next day number is the next day. */
  lemma YearDayStep(days: int)
    ensures StepsOn(days)
  {
    var z := days + 719468;
    var c, q, r, k := Split(z % 146097);
    StepsOnAt(z / 146097, c, q, r, k);
    assert 146097 * (z / 146097) + z % 146097 == z;
  }

  /** Every day number is a date of the calendar, and the next day number is the next date. */
  lemma CivilFollowsCalendar(days: int)
    ensures IsDate(CivilFromDays(days))
    ensures CivilFromDays(days + 1) == Tomorrow(CivilFromDays(days))
  {
    YearDayStep(days);
    MonthDayStep(YearDay(days).0, YearDay(days).1);
  }

  lemma TomorrowIsLater(p: Date, d: Date)
    requires IsDate(d) && (p == d || Earlier(p, d))
    ensures Earlier(p, Tomorrow(d))
  {
  }

  /** A later day number is a later date, so no two day numbers share a date. */
  lemma {:induction false} CivilIsMonotone(a: int, b: int)
    requires a < b
    ensures Earlier(CivilFromDays(a), CivilFromDays(b))
    decreases b - a
  {
    var p, d := CivilFromDays(a), CivilFromDays(b - 1);
    CivilFollowsCalendar(b - 1);
    if a < b - 1 {
      CivilIsMonotone(a, b - 1);
    }
    TomorrowIsLater(p, d);
  }

  lemma TomorrowInjective(a: Date, b: Date)
    requires IsDate(a) && IsDate(b) && Tomorrow(a) == Tomorrow(b)
    ensures a == b
  {
  }

  lemma {:induction false} ReachedFromEpoch(d: Date) returns (days: int)
    requires IsDate(d) && d.year >= 1970
    ensures days >= 0 && CivilFromDays(days) == d
    decreases d.year, d.month, d.day
  {
    if d == Date(1970, 1, 1) {
      EpochDate();
      days := 0;
    } else {
      var yesterday :=
        if d.day > 1 then d.(day := d.day - 1)
        else if d.month > 1 then Date(d.year, d.month - 1, MonthLength(d.year, d.month - 1))
        else Date(d.year - 1, 12, 31);
      var n := ReachedFromEpoch(yesterday);
      CivilFollowsCalendar(n);
      days := n + 1;
    }
  }

  lemma {:induction false} ReachedBeforeEpoch(d: Date) returns (days: int)
    requires IsDate(d) && d.year < 1970
    ensures days < 0 && CivilFromDays(days) == d
    decreases 1970 - d.year, 12 - d.month, 31 - d.day
  {
    var n := 0;
    if d == Date(1969, 12, 31) {
      EpochDate();
    } else {
      n := ReachedBeforeEpoch(Tomorrow(d));
    }
    CivilFollowsCalendar(n - 1);
    TomorrowInjective(CivilFromDays(n - 1), d);
    days := n - 1;
  }

  /** Every date is reached, with a day number below 0 exactly before the epoch: the conversion is the
      calendar, not a part of it. */
  lemma EveryDateIsReached(d: Date) returns (days: int)
    requires IsDate(d)
    ensures CivilFromDays(days) == d && (days < 0 <==> d.year < 1970)
  {
    if d.year < 1970 {
      days := ReachedBeforeEpoch(d);
    } else {
      days := ReachedFromEpoch(d);
    }
  }
}
