/** Day counts to dates, in the era-based arithmetic of the desktop, against the calendar itself. */
module Calendar {

  datatype Date = Date(year: int, month: int, day: int)

  // ----- The calendar

  /** The leap year rule of appendix C of RFC 3339. */
  predicate Leap(year: int) {
    year % 4 == 0 && (year % 100 != 0 || year % 400 == 0)
  }

  function DaysIn(year: int, month: int): int {
    if month == 2 then (if Leap(year) then 29 else 28)
    else if month == 4 || month == 6 || month == 9 || month == 11 then 30
    else 31
  }

  predicate Valid(d: Date) {
    1 <= d.month <= 12 && 1 <= d.day <= DaysIn(d.year, d.month)
  }

  function NextDay(d: Date): Date {
    if d.day < DaysIn(d.year, d.month) then Date(d.year, d.month, d.day + 1)
    else if d.month < 12 then Date(d.year, d.month + 1, 1)
    else Date(d.year + 1, 1, 1)
  }

  const EPOCH := Date(1970, 1, 1)

  function DaysOfYear(year: int): int {
    if Leap(year) then 366 else 365
  }

  /** Days from 1970-01-01 to the first day of the year. */
  function YearStart(year: int): int
    decreases if year < 1970 then 1970 - year else year - 1970
  {
    if year == 1970 then 0 else if year > 1970 then YearStart(year - 1) + DaysOfYear(year - 1) else YearStart(year + 1) - DaysOfYear(year)
  }

  function MonthStart(year: int, month: int): int
    decreases month
  {
    if month <= 1 then 0 else MonthStart(year, month - 1) + DaysIn(year, month - 1)
  }

  /** Days from 1970-01-01 to the date. */
  function DayCount(d: Date): int {
    YearStart(d.year) + MonthStart(d.year, d.month) + d.day - 1
  }

  // ----- The program

  /** Rust's division truncates. */
  function TruncatedDiv(a: int, b: int): int
    requires b > 0
  {
    if a >= 0 then a / b else -((-a) / b)
  }

  function YearOfEra(doe: int): int {
    (doe - doe / 1_460 + doe / 36_524 - doe / 146_096) / 365
  }

  // Within a year that begins in March, months start on days 0, 31, 61 and so on.

  function MonthAt(doy: int): int {
    (5 * doy + 2) / 153
  }

  function MarchStart(mp: int): int {
    (153 * mp + 2) / 5
  }

  function MarchMonth(mp: int): int {
    mp + if mp < 10 then 3 else -9
  }

  function MarchDate(year: int, doy: int, mp: int): Date {
    var month := MarchMonth(mp);
    Date(year + (if month <= 2 then 1 else 0), month, doy - MarchStart(mp) + 1)
  }

  /** The date of a day within an era. */
  function DateInEra(era: int, doe: int): Date {
    var yoe := YearOfEra(doe);
    var doy := doe - (365 * yoe + yoe / 4 - yoe / 100);
    MarchDate(yoe + era * 400, doy, MonthAt(doy))
  }

  function EraOfDay(z: int): int {
    TruncatedDiv(if z >= 0 then z else z - 146_096, 146_097)
  }

  /** `civil_from_days`, before the results are narrowed to 32 bits. */
  function Civil(days: int): Date {
    var z := days + 719_468;
    var era := EraOfDay(z);
    DateInEra(era, z - era * 146_097)
  }

  /** Dates in order of years, months and days. */
  predicate Before(a: Date, b: Date) {
    a.year < b.year || (a.year == b.year && (a.month < b.month || (a.month == b.month && a.day < b.day)))
  }

  const I32_MAX := 0x7fff_ffff
  const I32_MIN := -0x8000_0000

  /** `civil_from_days`: a year outside 32 bits becomes the largest one. */
  function CivilFromDays(days: int): Date {
    var d := Civil(days);
    if I32_MIN <= d.year <= I32_MAX then d else Date(I32_MAX, d.month, d.day)
  }

  // ----- Positions in the 400-year cycle, in years that begin in March

  /** Era, century, four-year group, year and day, each from 0. */
  datatype Position = Position(era: int, c: int, q: int, y: int, t: int)

  function YearLength(p: Position): int {
    if p.y == 3 && (p.q < 24 || p.c == 3) then 366 else 365
  }

  /** The year that begins in March. */
  function MarchYear(p: Position): int {
    400 * p.era + 100 * p.c + 4 * p.q + p.y
  }

  function DateAt(p: Position): Date {
    MarchDate(MarchYear(p), p.t, MonthAt(p.t))
  }

  predicate Proper(p: Position) {
    0 <= p.c <= 3 && 0 <= p.q <= 24 && 0 <= p.y <= 3 && 0 <= p.t < YearLength(p)
  }

  function OfEra(p: Position): int {
    36_524 * p.c + 1_461 * p.q + 365 * p.y + p.t
  }

  function Day0(p: Position): int {
    146_097 * p.era + OfEra(p) - 719_468
  }

  lemma YearOfEraExact(p: Position)
    requires Proper(p)
    ensures 0 <= OfEra(p) < 146_097 && YearOfEra(OfEra(p)) == 100 * p.c + 4 * p.q + p.y
  {
    var doe := OfEra(p);
    var carry := if 24 * p.c + p.q + 365 * p.y + p.t >= 1_460 then 1 else 0;
    assert doe == 1_460 * (25 * p.c + p.q + carry) + (24 * p.c + p.q + 365 * p.y + p.t - 1_460 * carry);
    assert doe / 1_460 == 25 * p.c + p.q + carry;
    var last := if doe == 146_096 then 1 else 0;
    assert doe == 36_524 * (p.c + last) + (1_461 * p.q + 365 * p.y + p.t - 36_524 * last);
    assert doe / 36_524 == p.c + last;
    assert doe / 146_096 == last;
    assert doe - doe / 1_460 + doe / 36_524 - doe / 146_096 == 365 * (100 * p.c + 4 * p.q + p.y) + (p.t - carry);
    assert 0 <= p.t - carry < 365;
  }

  lemma MonthOfDay(t: int)
    requires 0 <= t <= 365
    ensures var mp := MonthAt(t); 0 <= mp <= 11 && MarchStart(mp) <= t && (mp < 11 ==> t < MarchStart(mp + 1))
  {
  }

  lemma DateInEraAt(p: Position)
    requires Proper(p)
    ensures DateInEra(p.era, OfEra(p)) == DateAt(p)
  {
    YearOfEraExact(p);
    var doe, yoe := OfEra(p), 100 * p.c + 4 * p.q + p.y;
    assert yoe / 4 == 25 * p.c + p.q && yoe / 100 == p.c;
    assert doe - (365 * yoe + yoe / 4 - yoe / 100) == p.t;
  }

  lemma EraOfDayExact(era: int, doe: int)
    requires 0 <= doe < 146_097
    ensures EraOfDay(146_097 * era + doe) == era
  {
    var z := 146_097 * era + doe;
    if z < 0 {
      var a := 146_096 - z;
      assert a == 146_097 * (-era) + (146_096 - doe);
      assert a / 146_097 == -era;
    }
  }

  /** The era of a day, and the day within it. */
  lemma EraSplits(days: int, era: int, doe: int)
    requires 0 <= doe < 146_097 && days + 719_468 == 146_097 * era + doe
    ensures EraOfDay(days + 719_468) == era && days + 719_468 - EraOfDay(days + 719_468) * 146_097 == doe
  {
    EraOfDayExact(era, doe);
  }

  lemma CivilIsInEra(days: int, era: int, doe: int)
    requires 0 <= doe < 146_097 && days + 719_468 == 146_097 * era + doe
    ensures Civil(days) == DateInEra(era, doe)
  {
    EraSplits(days, era, doe);
  }

  lemma CivilAt(p: Position)
    requires Proper(p)
    ensures Civil(Day0(p)) == DateAt(p)
  {
    YearOfEraExact(p);
    CivilIsInEra(Day0(p), p.era, OfEra(p));
    DateInEraAt(p);
  }

  function NextPosition(p: Position): Position {
    if p.t + 1 < YearLength(p) then p.(t := p.t + 1)
    else if p.y < 3 then p.(y := p.y + 1, t := 0)
    else if p.q < 24 then p.(q := p.q + 1, y := 0, t := 0)
    else if p.c < 3 then p.(c := p.c + 1, q := 0, y := 0, t := 0)
    else Position(p.era + 1, 0, 0, 0, 0)
  }

  lemma MultipleOf4(x: int, s: int)
    requires 1 <= s <= 4
    ensures (4 * x + s) % 4 == 0 <==> s == 4
  {
  }

  lemma MultipleOf100(x: int, s: int)
    requires 1 <= s <= 100
    ensures (100 * x + s) % 100 == 0 <==> s == 100
  {
  }

  lemma MultipleOf400(x: int, s: int)
    requires 1 <= s <= 400
    ensures (400 * x + s) % 400 == 0 <==> s == 400
  {
  }

  lemma LeapAt(p: Position)
    requires Proper(p)
    ensures Leap(MarchYear(p) + 1) <==> YearLength(p) == 366
  {
    var year := MarchYear(p) + 1;
    MultipleOf4(100 * p.era + 25 * p.c + p.q, p.y + 1);
    MultipleOf100(4 * p.era + p.c, 4 * p.q + p.y + 1);
    MultipleOf400(p.era, 100 * p.c + 4 * p.q + p.y + 1);
    assert year == 4 * (100 * p.era + 25 * p.c + p.q) + (p.y + 1) == 100 * (4 * p.era + p.c) + (4 * p.q + p.y + 1);
  }

  /** Days in the month, by months from March. */
  lemma MonthLength(p: Position, mp: int)
    requires Proper(p) && 0 <= mp <= 11
    ensures DaysIn(MarchDate(MarchYear(p), p.t, mp).year, MarchMonth(mp)) == (if mp < 11 then MarchStart(mp + 1) else YearLength(p)) - MarchStart(mp)
  {
    LeapAt(p);
  }

  lemma NextPositionIsNext(p: Position)
    requires Proper(p)
    ensures Proper(NextPosition(p)) && Day0(NextPosition(p)) == Day0(p) + 1
  {
  }

  lemma ThisIsValid(p: Position)
    requires Proper(p)
    ensures 0 <= MonthAt(p.t) <= 11 && Valid(DateAt(p))
  {
    MonthOfDay(p.t);
    MonthLength(p, MonthAt(p.t));
  }

  /** The next day of the same year that begins in March. */
  lemma NextInYear(p: Position, n: Position)
    requires Proper(p) && n == p.(t := p.t + 1) && Proper(n)
    ensures DateAt(n) == NextDay(DateAt(p))
  {
    MonthOfDay(p.t);
    MonthLength(p, MonthAt(p.t));
    SameOrNextMonth(p.t);
  }

  /** The day after the last one of February is the first of March. */
  lemma NextInMarch(p: Position)
    requires Proper(p) && p.t + 1 == YearLength(p)
    ensures MarchDate(MarchYear(p) + 1, 0, 0) == NextDay(MarchDate(MarchYear(p), p.t, 11))
  {
    LeapAt(p);
  }

  lemma NextAt(p: Position)
    requires Proper(p)
    ensures Valid(DateAt(p)) && DateAt(NextPosition(p)) == NextDay(DateAt(p))
  {
    var n := NextPosition(p);
    ThisIsValid(p);
    NextPositionIsNext(p);
    if n.t == p.t + 1 {
      NextInYear(p, n);
    } else {
      assert MonthAt(p.t) == 11 && MonthAt(0) == 0 && MarchYear(n) == MarchYear(p) + 1;
      NextInMarch(p);
    }
  }

  lemma SameOrNextMonth(t: int)
    requires 0 <= t < 365
    ensures var mp, mq := MonthAt(t), MonthAt(t + 1);
            if mp < 11 && t + 1 == MarchStart(mp + 1) then mq == mp + 1 else mq == mp
  {
    MonthOfDay(t);
    MonthOfDay(t + 1);
  }

  lemma PositionOf(days: int) returns (p: Position)
    ensures Proper(p) && Day0(p) == days
  {
    var z := days + 719_468;
    var era, doe := z / 146_097, z % 146_097;
    var c := if doe / 36_524 > 3 then 3 else doe / 36_524;
    var inCentury := doe - 36_524 * c;
    var q := inCentury / 1_461;
    var inGroup := inCentury - 1_461 * q;
    var y := if inGroup / 365 > 3 then 3 else inGroup / 365;
    p := Position(era, c, q, y, inGroup - 365 * y);
  }

  // ----- Exactness

  /** What it takes to follow the calendar: every date is valid, and the next day has the next date. */
  ghost predicate Follows(f: int -> Date) {
    f(0) == EPOCH && forall n: int :: Valid(f(n)) && (var m := n + 1; f(m) == NextDay(f(n)))
  }

  lemma PositionsFollow(f: int -> Date)
    requires forall p :: Proper(p) ==> f(Day0(p)) == DateAt(p)
    ensures Follows(f)
  {
    var epoch := Position(4, 3, 17, 1, 306);
    assert Proper(epoch) && Day0(epoch) == 0;
    forall n: int
      ensures Valid(f(n)) && (var m := n + 1; f(m) == NextDay(f(n)))
    {
      var p := PositionOf(n);
      NextPositionIsNext(p);
      NextAt(p);
      assert f(Day0(NextPosition(p))) == DateAt(NextPosition(p));
    }
  }

  /** `civil_from_days` follows the calendar from 1970-01-01 on, and backwards. */
  lemma CivilFollows()
    ensures Follows(days => Civil(days))
  {
    forall p | Proper(p)
      ensures Civil(Day0(p)) == DateAt(p)
    {
      CivilAt(p);
    }
    PositionsFollow(days => Civil(days));
  }

  lemma NextDayCounts(d: Date)
    requires Valid(d)
    ensures Valid(NextDay(d)) && DayCount(NextDay(d)) == DayCount(d) + 1
  {
    YearHasMonths(d.year);
    if d.year < 1969 {
      assert YearStart(d.year) == YearStart(d.year + 1) - DaysOfYear(d.year);
    }
  }

  lemma YearHasMonths(year: int)
    ensures MonthStart(year, 12) + 31 == DaysOfYear(year)
  {
    assert MonthStart(year, 3) == 31 + DaysIn(year, 2);
    assert MonthStart(year, 6) == MonthStart(year, 3) + 92;
    assert MonthStart(year, 9) == MonthStart(year, 6) + 92;
    assert MonthStart(year, 12) == MonthStart(year, 9) + 91;
  }

  /** Whatever follows the calendar turns day counts into the dates that have them. */
  lemma FollowingCounts(f: int -> Date, days: int)
    requires Follows(f)
    ensures DayCount(f(days)) == days
  {
    forall d: Date | Valid(d)
      ensures DayCount(NextDay(d)) == DayCount(d) + 1
    {
      NextDayCounts(d);
    }
    CountsUp(f, d => DayCount(d), days);
  }

  lemma {:induction false} CountsUp(f: int -> Date, count: Date -> int, days: int)
    requires Follows(f) && count(EPOCH) == 0 && forall d: Date :: Valid(d) ==> count(NextDay(d)) == count(d) + 1
    ensures count(f(days)) == days
    decreases if days < 0 then -days else days
  {
    if days > 0 {
      CountsUp(f, count, days - 1);
      assert f(days) == NextDay(f(days - 1));
    } else if days < 0 {
      CountsUp(f, count, days + 1);
      assert Valid(f(days)) && f(days + 1) == NextDay(f(days));
    }
  }

  lemma {:induction false} YearsAreOrdered(a: int, b: int)
    requires a < b
    ensures YearStart(a) + DaysOfYear(a) <= YearStart(b)
    decreases b - a
  {
    if b == a + 1 {
      NextYear(a);
    } else {
      YearsAreOrdered(a, b - 1);
      NextYear(b - 1);
    }
  }

  lemma NextYear(year: int)
    ensures YearStart(year + 1) == YearStart(year) + DaysOfYear(year)
  {
  }

  lemma {:induction false} MonthsAreOrdered(year: int, a: int, b: int)
    requires 1 <= a < b <= 12
    ensures MonthStart(year, a) + DaysIn(year, a) <= MonthStart(year, b)
    decreases b
  {
    if a < b - 1 {
      MonthsAreOrdered(year, a, b - 1);
    }
  }

  /** An earlier date has a smaller count. */
  lemma CountIsOrdered(a: Date, b: Date)
    requires Valid(a) && Valid(b) && Before(a, b)
    ensures DayCount(a) < DayCount(b)
  {
    YearHasMonths(a.year);
    if a.month < 12 {
      MonthsAreOrdered(a.year, a.month, 12);
    }
    if a.year < b.year {
      YearsAreOrdered(a.year, b.year);
      if b.month > 1 {
        MonthsAreOrdered(b.year, 1, b.month);
      }
    } else if a.month < b.month {
      MonthsAreOrdered(a.year, a.month, b.month);
    }
  }

  lemma FollowingInverts(f: int -> Date, days: int, d: Date)
    requires Follows(f) && Valid(d)
    ensures f(days) == d <==> DayCount(d) == days
  {
    FollowingCounts(f, days);
    var c := f(days);
    if Before(c, d) {
      CountIsOrdered(c, d);
    } else if Before(d, c) {
      CountIsOrdered(d, c);
    }
  }

  /** The date computed for a day count, in either direction from the epoch, is the one date that has it. */
  lemma CivilIsExact(days: int, d: Date)
    requires Valid(d)
    ensures Civil(days) == d <==> DayCount(d) == days
  {
    CivilFollows();
    FollowingInverts(n => Civil(n), days, d);
  }

  /** Narrowing to 32 bits is exact as long as the year fits; the day and month always are. */
  lemma CivilFromDaysIsExact(days: int, d: Date)
    requires Valid(d) && DayCount(d) == days
    ensures CivilFromDays(days) == d <==> I32_MIN <= d.year <= I32_MAX
    ensures CivilFromDays(days).month == d.month && CivilFromDays(days).day == d.day
  {
    CivilIsExact(days, d);
  }
}
