/** Timestamps of fixed width: their order as text is their order in time. */
module Timestamps {
  import opened Text
  import opened Calendar

  // ----- Printing

  const I64_MAX: nat := 0x7fff_ffff_ffff_ffff

  /** The numbers a timestamp is printed from: date, time of day, milliseconds. */
  datatype Fields = Fields(date: Date, hour: nat, minute: nat, second: nat, milli: nat)

  /** `unix_ms_to_rfc3339`, up to the printing; seconds beyond 64 bits stop at the largest number. */
  function FieldsOf(ms: nat): Fields {
    var seconds := if ms / 1_000 <= I64_MAX then ms / 1_000 else I64_MAX;
    var days, daySeconds := seconds / 86_400, seconds % 86_400;
    Fields(CivilFromDays(days), daySeconds / 3_600, (daySeconds % 3_600) / 60, daySeconds % 60, ms % 1_000)
  }

  predicate Printable(f: Fields) {
    0 <= f.date.year && 0 <= f.date.month && 0 <= f.date.day
  }

  function Render(numbers: seq<nat>, widths: seq<nat>, marks: string): string
    requires |numbers| == |widths| == |marks|
  {
    if numbers == [] then ""
    else Padded(numbers[0], widths[0], Ten) + [marks[0]] + Render(numbers[1..], widths[1..], marks[1..])
  }

  const WIDTHS: seq<nat> := [4, 2, 2, 2, 2, 2, 3]
  const MARKS := "--T::.Z"

  function NumbersOf(f: Fields): seq<nat>
    requires Printable(f)
  {
    [f.date.year, f.date.month, f.date.day, f.hour, f.minute, f.second, f.milli]
  }

  /** The section 5.6 form of RFC 3339, with milliseconds and in UTC. */
  function Timestamp(f: Fields): string
    requires Printable(f)
  {
    Render(NumbersOf(f), WIDTHS, MARKS)
  }

  /** `unix_ms_to_rfc3339`. */
  function Rfc3339(ms: nat): string {
    if Printable(FieldsOf(ms)) then Timestamp(FieldsOf(ms)) else ""
  }

  // ----- Text order

  /** Comparison of strings, character by character. */
  predicate Less(a: string, b: string) {
    b != [] && (a == [] || a[0] < b[0] || (a[0] == b[0] && Less(a[1..], b[1..])))
  }

  lemma {:induction false} LessEarly(a: string, b: string, x: string, y: string)
    requires |a| == |b| && Less(a, b)
    ensures Less(a + x, b + y)
  {
    if a[0] == b[0] {
      LessEarly(a[1..], b[1..], x, y);
      assert (a + x)[1..] == a[1..] + x && (b + y)[1..] == b[1..] + y;
    }
  }

  lemma {:induction false} LessLate(a: string, x: string, y: string)
    requires Less(x, y)
    ensures Less(a + x, a + y)
  {
    if a == [] {
      assert a + x == x && a + y == y;
    } else {
      LessLate(a[1..], x, y);
      assert (a + x)[1..] == a[1..] + x && (a + y)[1..] == a[1..] + y;
    }
  }

  // ----- Fixed width

  function Power(width: nat): nat {
    if width == 0 then 1 else 10 * Power(width - 1)
  }

  /** The last `width` digits. */
  function Fixed(n: nat, width: nat): (s: string)
    ensures |s| == width
  {
    if width == 0 then [] else Fixed(n / 10, width - 1) + [Digit(n % 10)]
  }

  lemma {:induction false} FixedZero(width: nat)
    ensures Fixed(0, width) == Zeros(width)
  {
    if width > 0 {
      FixedZero(width - 1);
      assert Zeros(width) == Zeros(width - 1) + ['0'];
    }
  }

  /** A number that fits is printed in exactly the given width. */
  lemma {:induction false} PaddedIsFixed(n: nat, width: nat)
    requires n < Power(width) && width > 0
    ensures Padded(n, width, Ten) == Fixed(n, width)
    decreases width
  {
    var digits := Digits(n, Ten);
    if n / 10 == 0 {
      FixedZero(width - 1);
      assert digits == [Digit(n)];
      assert Zeros(width - 1) + [Digit(n)] == Fixed(n, width);
      assert width == 1 ==> Zeros(0) + [Digit(n)] == [Digit(n)];
    } else {
      assert width > 1 by { assert Power(1) == 10 * Power(0); }
      PaddedIsFixed(n / 10, width - 1);
      var front := Digits(n / 10, Ten);
      assert digits == front + [Digit(n % 10)];
      if |front| < width - 1 {
        assert Zeros(width - |digits|) + digits == (Zeros(width - 1 - |front|) + front) + [Digit(n % 10)];
      }
    }
  }

  lemma {:induction false} FixedIsOrdered(m: nat, n: nat, width: nat)
    requires m < n < Power(width)
    ensures Less(Fixed(m, width), Fixed(n, width))
    decreases width
  {
    if width > 0 {
      if m / 10 < n / 10 {
        FixedIsOrdered(m / 10, n / 10, width - 1);
        LessEarly(Fixed(m / 10, width - 1), Fixed(n / 10, width - 1), [Digit(m % 10)], [Digit(n % 10)]);
      } else {
        assert m / 10 == n / 10 && m % 10 < n % 10;
        LessLate(Fixed(m / 10, width - 1), [Digit(m % 10)], [Digit(n % 10)]);
      }
    }
  }

  // ----- Fields

  predicate Fit(numbers: seq<nat>, widths: seq<nat>)
    requires |numbers| == |widths|
  {
    forall i :: 0 <= i < |numbers| ==> widths[i] > 0 && numbers[i] < Power(widths[i])
  }

  predicate Smaller(a: seq<nat>, b: seq<nat>)
    requires |a| == |b|
  {
    a != [] && (a[0] < b[0] || (a[0] == b[0] && Smaller(a[1..], b[1..])))
  }

  /** Fields of fixed width compare as text the way they compare as numbers. */
  lemma {:induction false} RenderIsOrdered(a: seq<nat>, b: seq<nat>, widths: seq<nat>, marks: string)
    requires |a| == |b| == |widths| == |marks| && Fit(a, widths) && Fit(b, widths) && Smaller(a, b)
    ensures Less(Render(a, widths, marks), Render(b, widths, marks))
  {
    var w := widths[0];
    var x, y := Fixed(a[0], w) + [marks[0]], Fixed(b[0], w) + [marks[0]];
    PaddedIsFixed(a[0], w);
    PaddedIsFixed(b[0], w);
    var tailA, tailB := Render(a[1..], widths[1..], marks[1..]), Render(b[1..], widths[1..], marks[1..]);
    if a[0] < b[0] {
      FixedIsOrdered(a[0], b[0], w);
      LessEarly(Fixed(a[0], w), Fixed(b[0], w), [marks[0]] + tailA, [marks[0]] + tailB);
      assert x + tailA == Fixed(a[0], w) + ([marks[0]] + tailA);
      assert y + tailB == Fixed(b[0], w) + ([marks[0]] + tailB);
    } else {
      RenderIsOrdered(a[1..], b[1..], widths[1..], marks[1..]);
      LessLate(x, tailA, tailB);
    }
  }

  // ----- Time

  /** The year is printed in four digits. */
  predicate FourDigitYear(ms: nat) {
    FieldsOf(ms).date.year < 10_000
  }

  function DayOf(ms: nat): nat {
    ms / 1_000 / 86_400
  }

  /** Along the calendar, later days have later dates. */
  lemma FollowingRises(f: int -> Date, a: nat, b: nat)
    requires Follows(f) && a <= b
    ensures Valid(f(a)) && f(a).year >= 1970 && (if a == b then f(a) == f(b) else Before(f(a), f(b)))
  {
    FollowingCounts(f, 0);
    FollowingCounts(f, a);
    FollowingCounts(f, b);
    DatesCompare(EPOCH, f(a));
    DatesCompare(f(a), f(b));
  }

  lemma DatesCompare(a: Date, b: Date)
    requires Valid(a) && Valid(b) && DayCount(a) <= DayCount(b)
    ensures if DayCount(a) == DayCount(b) then a == b else Before(a, b)
  {
    if Before(b, a) {
      CountIsOrdered(b, a);
    } else if Before(a, b) {
      CountIsOrdered(a, b);
    }
  }

  /** Ten thousand years are far from the end of 64 bits. */
  lemma FourDigitsFit(ms: nat)
    requires FourDigitYear(ms)
    ensures FieldsOf(ms).date == Civil(DayOf(ms))
    ensures FieldsOf(ms) == FieldsAt(ms, FieldsOf(ms).date)
  {
  }

  /** Midnight of 10000-01-01, in days and in milliseconds. */
  const FIVE_DIGIT_DAY: nat := 2_932_897
  const FIVE_DIGIT_MS: nat := 253_402_300_800_000

  lemma FollowingReaches(f: int -> Date, days: nat)
    requires Follows(f) && f(FIVE_DIGIT_DAY) == Date(10_000, 1, 1)
    ensures f(days).year >= 1970 && (f(days).year < 10_000 <==> days < FIVE_DIGIT_DAY)
  {
    if days < FIVE_DIGIT_DAY {
      FollowingRises(f, days, FIVE_DIGIT_DAY);
    } else {
      FollowingRises(f, 0, days);
      FollowingRises(f, FIVE_DIGIT_DAY, days);
    }
  }

  lemma FiveDigitsBegin()
    ensures Civil(FIVE_DIGIT_DAY) == Date(10_000, 1, 1)
  {
    var p := Position(24, 3, 24, 3, 306);
    assert Day0(p) == FIVE_DIGIT_DAY && MonthAt(306) == 10 && MarchStart(10) == 306;
    CivilAt(p);
  }

  lemma YearReaches(days: nat)
    ensures var year := Civil(days).year; year >= 1970 && (year < 10_000 <==> days < FIVE_DIGIT_DAY)
  {
    var f := (d: int) => Civil(d);
    CivilFollows();
    FiveDigitsBegin();
    FollowingReaches(f, days);
    assert f(days) == Civil(days);
  }

  lemma CivilReaches(days: nat)
    ensures var year := CivilFromDays(days).year; year >= 1970 && (year < 10_000 <==> days < FIVE_DIGIT_DAY)
  {
    YearReaches(days);
  }

  /** The years of four digits are exactly the times before 10000-01-01, seconds beyond 64 bits included. */
  lemma FourDigitsEnd(ms: nat)
    ensures FourDigitYear(ms) <==> ms < FIVE_DIGIT_MS
  {
    var seconds := if ms / 1_000 <= I64_MAX then ms / 1_000 else I64_MAX;
    CivilReaches(seconds / 86_400);
    assert FieldsOf(ms).date == CivilFromDays(seconds / 86_400);
    assert seconds / 86_400 < FIVE_DIGIT_DAY <==> seconds < 86_400 * FIVE_DIGIT_DAY;
  }

  /** The fields of a time, given its date. */
  function FieldsAt(ms: nat, date: Date): Fields {
    var daySeconds := ms / 1_000 % 86_400;
    Fields(date, daySeconds / 3_600, (daySeconds % 3_600) / 60, daySeconds % 60, ms % 1_000)
  }

  lemma DatesAreOrdered(a: nat, b: nat)
    requires a <= b && FourDigitYear(a) && FourDigitYear(b)
    ensures var c, d := FieldsOf(a).date, FieldsOf(b).date;
            Valid(c) && Valid(d) && c.year >= 1970 && d.year >= 1970 && (if DayOf(a) == DayOf(b) then c == d else Before(c, d))
  {
    FourDigitsFit(a);
    FourDigitsFit(b);
    CivilFollows();
    var f := (days: int) => Civil(days);
    FollowingRises(f, DayOf(a), DayOf(b));
    FollowingRises(f, DayOf(b), DayOf(b));
  }

  lemma TimeOfDay(a: nat, b: nat)
    requires a < b && DayOf(a) == DayOf(b)
    ensures var s, r := a / 1_000 % 86_400, b / 1_000 % 86_400;
            s < r || (s == r && a % 1_000 < b % 1_000)
  {
  }

  lemma ClockIsOrdered(s: nat, r: nat)
    requires s < r < 86_400
    ensures var h, i := s / 3_600, r / 3_600; var m, n := (s % 3_600) / 60, (r % 3_600) / 60;
            h < i || (h == i && (m < n || (m == n && s % 60 < r % 60)))
  {
  }

  /** Later times have larger fields, read from the left. */
  lemma FieldsAreOrdered(a: nat, b: nat, c: Date, d: Date)
    requires a < b && Valid(c) && Valid(d) && c.year >= 1970 && d.year >= 1970 && (if DayOf(a) == DayOf(b) then c == d else Before(c, d))
    ensures Printable(FieldsAt(a, c)) && Printable(FieldsAt(b, d)) && Smaller(NumbersOf(FieldsAt(a, c)), NumbersOf(FieldsAt(b, d)))
  {
    var x, y := NumbersOf(FieldsAt(a, c)), NumbersOf(FieldsAt(b, d));
    var s, r := a / 1_000 % 86_400, b / 1_000 % 86_400;
    if c == d {
      TimeOfDay(a, b);
      if s < r {
        ClockIsOrdered(s, r);
      }
    }
    FirstDifference(x, y, if x[0] != y[0] then 0 else if x[1] != y[1] then 1 else if x[2] != y[2] then 2 else if x[3] != y[3] then 3
                          else if x[4] != y[4] then 4 else if x[5] != y[5] then 5 else 6);
  }

  lemma {:induction false} FirstDifference(a: seq<nat>, b: seq<nat>, k: nat)
    requires |a| == |b| && k < |a| && a[k] < b[k] && forall i :: 0 <= i < k ==> a[i] == b[i]
    ensures Smaller(a, b)
  {
    if k > 0 {
      FirstDifference(a[1..], b[1..], k - 1);
    }
  }

  lemma FieldsFit(ms: nat, date: Date)
    requires Valid(date) && 1970 <= date.year < 10_000
    ensures Printable(FieldsAt(ms, date)) && Fit(NumbersOf(FieldsAt(ms, date)), WIDTHS)
  {
    assert Power(2) == 10 * Power(1) && Power(1) == 10 * Power(0);
    assert Power(4) == 10 * Power(3) && Power(3) == 10 * Power(2);
  }

  lemma RenderedAreOrdered(a: nat, b: nat, c: Date, d: Date)
    requires a < b && Valid(c) && Valid(d) && 1970 <= c.year < 10_000 && 1970 <= d.year < 10_000
    requires if DayOf(a) == DayOf(b) then c == d else Before(c, d)
    ensures var f, g := FieldsAt(a, c), FieldsAt(b, d); Printable(f) && Printable(g) && Less(Timestamp(f), Timestamp(g))
  {
    FieldsAreOrdered(a, b, c, d);
    FieldsFit(a, c);
    FieldsFit(b, d);
    RenderIsOrdered(NumbersOf(FieldsAt(a, c)), NumbersOf(FieldsAt(b, d)), WIDTHS, MARKS);
  }

  /** Timestamps before 10000-01-01 sort as strings. */
  lemma TimestampsSort(a: nat, b: nat)
    requires a < b < FIVE_DIGIT_MS
    ensures Less(Rfc3339(a), Rfc3339(b))
  {
    FourDigitsEnd(a);
    FourDigitsEnd(b);
    FourDigitsFit(a);
    FourDigitsFit(b);
    DatesAreOrdered(a, b);
    RenderedAreOrdered(a, b, FieldsOf(a).date, FieldsOf(b).date);
  }

  // ----- What a timestamp says

  /** Digits i to k of the text, read as a number. */
  function NumberIn(s: string, i: nat, k: nat): int
    requires i <= k <= |s|
  {
    Value(s[i..k], Ten)
  }

  /** The form YYYY-MM-DDTHH:MM:SS.mmmZ. */
  predicate WellSet(s: string) {
    |s| == 24 && s[4] == '-' && s[7] == '-' && s[10] == 'T' && s[13] == ':' && s[16] == ':' && s[19] == '.' && s[23] == 'Z'
  }

  /** The milliseconds since 1970-01-01T00:00:00Z that a text of this form says. */
  function Said(s: string): int
    requires WellSet(s)
  {
    DayCount(Date(NumberIn(s, 0, 4), NumberIn(s, 5, 7), NumberIn(s, 8, 10))) * 86_400_000
    + NumberIn(s, 11, 13) * 3_600_000 + NumberIn(s, 14, 16) * 60_000 + NumberIn(s, 17, 19) * 1_000 + NumberIn(s, 20, 23)
  }

  lemma {:induction false} ValueOfFixed(n: nat, width: nat)
    requires n < Power(width)
    ensures Value(Fixed(n, width), Ten) == n
  {
    if width > 0 {
      ValueOfFixed(n / 10, width - 1);
      var s := Fixed(n, width);
      assert s[..width - 1] == Fixed(n / 10, width - 1);
      assert DigitValue(Digit(n % 10), Ten) == n % 10;
    }
  }

  /** The first number and its mark, and the text after them. */
  lemma RenderFirst(numbers: seq<nat>, widths: seq<nat>, marks: string)
    requires |numbers| == |widths| == |marks| && numbers != [] && Fit(numbers, widths)
    ensures var s, w := Render(numbers, widths, marks), widths[0];
            |s| > w && Value(s[..w], Ten) == numbers[0] && s[w] == marks[0] && s[w + 1..] == Render(numbers[1..], widths[1..], marks[1..])
    ensures Fit(numbers[1..], widths[1..])
  {
    PaddedIsFixed(numbers[0], widths[0]);
    ValueOfFixed(numbers[0], widths[0]);
    var s := Render(numbers, widths, marks);
    assert s[..widths[0]] == Fixed(numbers[0], widths[0]);
  }

  /** Where the k-th number begins. */
  function Offset(widths: seq<nat>, k: nat): nat
    requires k <= |widths|
  {
    if k == 0 then 0 else Offset(widths, k - 1) + widths[k - 1] + 1
  }

  lemma {:induction false} RenderAt(numbers: seq<nat>, widths: seq<nat>, marks: string, k: nat)
    requires |numbers| == |widths| == |marks| && k <= |numbers| && Fit(numbers, widths)
    ensures var s := Render(numbers, widths, marks);
            Offset(widths, k) <= |s| && s[Offset(widths, k)..] == Render(numbers[k..], widths[k..], marks[k..]) && Fit(numbers[k..], widths[k..])
  {
    if k > 0 {
      RenderAt(numbers, widths, marks, k - 1);
      RenderFirst(numbers[k - 1..], widths[k - 1..], marks[k - 1..]);
    }
  }

  /** At place i the text says n in w digits, and then the mark. */
  predicate SaysAt(s: string, i: nat, w: nat, n: nat, mark: char) {
    i + w < |s| && NumberIn(s, i, i + w) == n && s[i + w] == mark
  }

  lemma TailSays(s: string, i: nat, w: nat, n: nat, mark: char, tail: string)
    requires i <= |s| && s[i..] == tail && |tail| > w && Value(tail[..w], Ten) == n && tail[w] == mark
    ensures SaysAt(s, i, w, n, mark) && |s| == i + |tail|
  {
    assert s[i..i + w] == tail[..w];
  }

  lemma NumberAt(numbers: seq<nat>, widths: seq<nat>, marks: string, k: nat)
    requires |numbers| == |widths| == |marks| && k < |numbers| && Fit(numbers, widths)
    ensures SaysAt(Render(numbers, widths, marks), Offset(widths, k), widths[k], numbers[k], marks[k])
  {
    var ns, ws, ms := numbers[k..], widths[k..], marks[k..];
    var tail := Render(ns, ws, ms);
    RenderAt(numbers, widths, marks, k);
    RenderFirst(ns, ws, ms);
    TailSays(Render(numbers, widths, marks), Offset(widths, k), widths[k], numbers[k], marks[k], tail);
  }

  lemma {:induction false} RenderLength(numbers: seq<nat>, widths: seq<nat>, marks: string)
    requires |numbers| == |widths| == |marks| && Fit(numbers, widths)
    ensures |Render(numbers, widths, marks)| == Offset(widths, |widths|)
  {
    RenderAt(numbers, widths, marks, |widths|);
  }

  lemma Offsets()
    ensures Offset(WIDTHS, 0) == 0 && Offset(WIDTHS, 1) == 5 && Offset(WIDTHS, 2) == 8 && Offset(WIDTHS, 3) == 11
            && Offset(WIDTHS, 4) == 14 && Offset(WIDTHS, 5) == 17 && Offset(WIDTHS, 6) == 20 && Offset(WIDTHS, 7) == 24
  {
  }

  /** The numbers are set where the form has them. */
  lemma TimestampSet(f: Fields)
    requires Printable(f) && Fit(NumbersOf(f), WIDTHS)
    ensures var s := Timestamp(f);
            WellSet(s) && NumberIn(s, 0, 4) == f.date.year && NumberIn(s, 5, 7) == f.date.month && NumberIn(s, 8, 10) == f.date.day
            && NumberIn(s, 11, 13) == f.hour && NumberIn(s, 14, 16) == f.minute && NumberIn(s, 17, 19) == f.second && NumberIn(s, 20, 23) == f.milli
  {
    Offsets();
    RenderLength(NumbersOf(f), WIDTHS, MARKS);
    forall k | 0 <= k < 7
      ensures SaysAt(Timestamp(f), Offset(WIDTHS, k), WIDTHS[k], NumbersOf(f)[k], MARKS[k])
    {
      NumberAt(NumbersOf(f), WIDTHS, MARKS, k);
    }
  }

  lemma MillisAddUp(ms: nat)
    ensures var r := ms / 1_000 % 86_400;
            DayOf(ms) * 86_400_000 + r / 3_600 * 3_600_000 + (r % 3_600) / 60 * 60_000 + r % 60 * 1_000 + ms % 1_000 == ms
  {
    var seconds := ms / 1_000;
    assert seconds == seconds / 86_400 * 86_400 + seconds % 86_400;
    var r := seconds % 86_400;
    assert r == r / 3_600 * 3_600 + r % 3_600 && r % 3_600 == (r % 3_600) / 60 * 60 + r % 3_600 % 60 && r % 3_600 % 60 == r % 60;
  }

  /**
   A timestamp says its time: before 10000-01-01 it has the form YYYY-MM-DDTHH:MM:SS.mmmZ, with a date and a
   time of day that exist, and read back they are the milliseconds it was made from.
   */
  lemma TimestampSays(ms: nat)
    requires ms < FIVE_DIGIT_MS
    ensures var s := Rfc3339(ms);
            WellSet(s) && Said(s) == ms && Valid(Date(NumberIn(s, 0, 4), NumberIn(s, 5, 7), NumberIn(s, 8, 10)))
            && 0 <= NumberIn(s, 11, 13) < 24 && 0 <= NumberIn(s, 14, 16) < 60 && 0 <= NumberIn(s, 17, 19) < 60 && 0 <= NumberIn(s, 20, 23) < 1_000
  {
    var f := FieldsOf(ms);
    FourDigitsEnd(ms);
    FourDigitsFit(ms);
    DatesAreOrdered(ms, ms);
    CivilIsExact(DayOf(ms), f.date);
    FieldsFit(ms, f.date);
    TimestampSet(f);
    MillisAddUp(ms);
  }
}
