/** UTC date-times, the instants they name, and their zone-less ISO 8601 text. */
module IsoTime {
  import opened SqlOrder

  datatype Civil = Civil(year: nat, month: nat, day: nat, hour: nat, minute: nat, second: nat)

  function YearLength(year: nat): nat {
    if year % 4 == 0 && (year % 100 != 0 || year % 400 == 0) then 366 else 365
  }

  function MonthLength(year: nat, month: nat): nat {
    if month == 2 then YearLength(year) - 337
    else if month == 4 || month == 6 || month == 9 || month == 11 then 30
    else 31
  }

  ghost predicate Valid(c: Civil) {
    && 1 <= c.year <= 9999 && 1 <= c.month <= 12 && 1 <= c.day <= MonthLength(c.year, c.month)
    && c.hour < 24 && c.minute < 60 && c.second < 60
  }

  function DaysBeforeYear(year: nat): nat {
    if year == 0 then 0 else DaysBeforeYear(year - 1) + YearLength(year - 1)
  }

  function DaysBeforeMonth(year: nat, month: nat): nat {
    if month <= 1 then 0 else DaysBeforeMonth(year, month - 1) + MonthLength(year, month - 1)
  }

  function DayNumber(c: Civil): nat {
    DaysBeforeYear(c.year) + DaysBeforeMonth(c.year, c.month) + c.day
  }

  /** Seconds since the start of the calendar. */
  function Seconds(c: Civil): nat {
    ((DayNumber(c) * 24 + c.hour) * 60 + c.minute) * 60 + c.second
  }

  /** Field by field, the largest unit first. */
  predicate CivilBefore(a: Civil, b: Civil) {
    || a.year < b.year
    || (a.year == b.year && (a.month < b.month
    || (a.month == b.month && (a.day < b.day
    || (a.day == b.day && (a.hour < b.hour
    || (a.hour == b.hour && (a.minute < b.minute
    || (a.minute == b.minute && a.second < b.second)))))))))
  }

  lemma {:induction false} LaterMonth(year: nat, month: nat, later: nat)
    requires 1 <= month < later <= 13
    ensures DaysBeforeMonth(year, month) + MonthLength(year, month) <= DaysBeforeMonth(year, later)
  {
    if later > month + 1 {
      LaterMonth(year, month, later - 1);
    }
  }

  lemma MonthsFillYear(year: nat)
    ensures DaysBeforeMonth(year, 13) == YearLength(year)
  {
    assert DaysBeforeMonth(year, 2) == 31;
    assert DaysBeforeMonth(year, 4) == YearLength(year) - 275;
    assert DaysBeforeMonth(year, 6) == YearLength(year) - 214;
    assert DaysBeforeMonth(year, 8) == YearLength(year) - 153;
    assert DaysBeforeMonth(year, 10) == YearLength(year) - 92;
    assert DaysBeforeMonth(year, 12) == YearLength(year) - 31;
  }

  lemma {:induction false} LaterYear(year: nat, later: nat)
    requires year < later
    ensures DaysBeforeYear(year) + YearLength(year) <= DaysBeforeYear(later)
  {
    if later > year + 1 {
      LaterYear(year, later - 1);
    }
  }

  lemma DayOfYear(c: Civil)
    requires Valid(c)
    ensures 1 <= DaysBeforeMonth(c.year, c.month) + c.day <= YearLength(c.year)
  {
    LaterMonth(c.year, c.month, 13);
    MonthsFillYear(c.year);
  }

  lemma EarlierIsFewerSeconds(a: Civil, b: Civil)
    requires Valid(a) && Valid(b) && CivilBefore(a, b)
    ensures Seconds(a) < Seconds(b)
  {
    if a.year < b.year {
      LaterYear(a.year, b.year);
      DayOfYear(a);
      DayOfYear(b);
    } else if a.month < b.month {
      LaterMonth(a.year, a.month, b.month);
    }
    assert DayNumber(a) <= DayNumber(b);
  }

  /** The fields order as the instants do. */
  lemma FieldOrderIsTimeOrder(a: Civil, b: Civil)
    requires Valid(a) && Valid(b)
    ensures CivilBefore(a, b) <==> Seconds(a) < Seconds(b)
    ensures a == b <==> Seconds(a) == Seconds(b)
  {
    if CivilBefore(a, b) {
      EarlierIsFewerSeconds(a, b);
    } else if CivilBefore(b, a) {
      EarlierIsFewerSeconds(b, a);
    } else {
      assert a == b;
    }
  }

  /** The calendar is the Gregorian one: a leap year every fourth, but of the
      centuries only every fourth. */
  lemma {:induction false} YearsAreGregorian(year: nat)
    requires year >= 1
    ensures DaysBeforeYear(year) == 366 + 365 * (year - 1) + (year - 1) / 4 - (year - 1) / 100 + (year - 1) / 400
  {
    if year > 1 {
      YearsAreGregorian(year - 1);
      CountsLeap(year - 2);
    }
  }

  lemma CountsLeap(n: nat)
    ensures (n + 1) / 4 == n / 4 + if (n + 1) % 4 == 0 then 1 else 0
    ensures (n + 1) / 100 == n / 100 + if (n + 1) % 100 == 0 then 1 else 0
    ensures (n + 1) / 400 == n / 400 + if (n + 1) % 400 == 0 then 1 else 0
    ensures (n + 1) % 100 == 0 ==> (n + 1) % 4 == 0
    ensures (n + 1) % 400 == 0 ==> (n + 1) % 100 == 0
  {
  }

  // Text.

  function Digit(d: nat): char
    requires d < 10
  {
    '0' + d as char
  }

  function Digits(n: nat, width: nat): (s: string)
    ensures |s| == width
  {
    if width == 0 then "" else Digits(n / 10, width - 1) + [Digit(n % 10)]
  }

  function Power10(width: nat): nat {
    if width == 0 then 1 else 10 * Power10(width - 1)
  }

  /** Where the texts before them have one width, what follows breaks ties only. */
  lemma {:induction false} FixedWidth(a: string, b: string, x: string, y: string)
    requires |a| == |b|
    ensures TextBefore(a + x, b + y) <==> TextBefore(a, b) || (a == b && TextBefore(x, y))
  {
    if a == "" {
      assert a + x == x && b + y == y;
    } else {
      FixedWidth(a[1..], b[1..], x, y);
      assert (a + x)[1..] == a[1..] + x && (b + y)[1..] == b[1..] + y;
      assert a == [a[0]] + a[1..] && b == [b[0]] + b[1..];
    }
  }

  lemma OneDigit(m: nat, n: nat)
    requires m < 10 && n < 10
    ensures TextBefore([Digit(m)], [Digit(n)]) <==> m < n
    ensures [Digit(m)] == [Digit(n)] <==> m == n
  {
    assert [Digit(m)][1..] == [] && [Digit(n)][1..] == [];
    assert [Digit(m)][0] == Digit(m) && [Digit(n)][0] == Digit(n);
  }

  lemma {:induction false} DigitsKeepOrder(m: nat, n: nat, width: nat)
    requires m < Power10(width) && n < Power10(width)
    ensures TextBefore(Digits(m, width), Digits(n, width)) <==> m < n
    ensures Digits(m, width) == Digits(n, width) <==> m == n
  {
    if width > 0 {
      DigitsKeepOrder(m / 10, n / 10, width - 1);
      OneDigit(m % 10, n % 10);
      var a, b := Digits(m / 10, width - 1), Digits(n / 10, width - 1);
      FixedWidth(a, b, [Digit(m % 10)], [Digit(n % 10)]);
      assert a + [Digit(m % 10)] == b + [Digit(n % 10)] <==> a == b && [Digit(m % 10)] == [Digit(n % 10)] by {
        assert (a + [Digit(m % 10)])[..width - 1] == a && (b + [Digit(n % 10)])[..width - 1] == b;
        assert (a + [Digit(m % 10)])[width - 1] == Digit(m % 10) && (b + [Digit(n % 10)])[width - 1] == Digit(n % 10);
      }
    }
  }

  /** `datetime.isoformat()` on a whole second. */
  function IsoText(c: Civil): string {
    Digits(c.year, 4) + ("-" + (Digits(c.month, 2) + ("-" + (Digits(c.day, 2) + ("T" + TimeText(c))))))
  }

  function TimeText(c: Civil): string {
    Digits(c.hour, 2) + (":" + (Digits(c.minute, 2) + (":" + Digits(c.second, 2))))
  }

  /** The number some digits write. */
  function Number(s: string): int {
    if s == "" then 0 else 10 * Number(s[..|s| - 1]) + (s[|s| - 1] as int - '0' as int)
  }

  lemma {:induction false} DigitsWrite(n: nat, width: nat)
    requires n < Power10(width)
    ensures Number(Digits(n, width)) == n
  {
    if width > 0 {
      DigitsWrite(n / 10, width - 1);
      var s := Digits(n, width);
      assert s[..|s| - 1] == Digits(n / 10, width - 1) && s[|s| - 1] == Digit(n % 10);
    }
  }

  lemma Cut(a: string, b: string)
    ensures (a + b)[..|a|] == a && (a + b)[|a|..] == b
  {
  }

  /** Two digits and a separator, wherever they stand. */
  lemma FieldReads(n: nat, width: nat, separator: char, rest: string)
    requires n < Power10(width)
    ensures var s := Digits(n, width) + ([separator] + rest);
            |s| == width + 1 + |rest| && Number(s[..width]) == n && s[width] == separator && s[width + 1..] == rest
  {
    DigitsWrite(n, width);
    Cut(Digits(n, width), [separator] + rest);
  }

  lemma TimeReads(c: Civil)
    requires Valid(c)
    ensures var s := TimeText(c);
            && |s| == 8 && s[2] == s[5] == ':'
            && Number(s[..2]) == c.hour && Number(s[3..5]) == c.minute && Number(s[6..]) == c.second
  {
    var s, n, z := TimeText(c), Digits(c.minute, 2) + (":" + Digits(c.second, 2)), Digits(c.second, 2);
    Widths();
    FieldReads(c.hour, 2, ':', n);
    FieldReads(c.minute, 2, ':', z);
    DigitsWrite(c.second, 2);
    assert s[3..] == n && s[3..5] == n[..2] && s[6..] == n[3..] && s[5] == n[2];
  }

  /** `YYYY-MM-DDTHH:MM:SS`: the text says each field where ISO 8601 puts it. */
  lemma IsoTextReads(c: Civil)
    requires Valid(c)
    ensures var s := IsoText(c);
            && |s| == 19 && s[4] == s[7] == '-' && s[10] == 'T'
            && Number(s[..4]) == c.year && Number(s[5..7]) == c.month && Number(s[8..10]) == c.day && s[11..] == TimeText(c)
  {
    var t := TimeText(c);
    var d := Digits(c.day, 2) + ("T" + t);
    var m := Digits(c.month, 2) + ("-" + d);
    var s := IsoText(c);
    Widths();
    TimeReads(c);
    FieldReads(c.day, 2, 'T', t);
    FieldReads(c.month, 2, '-', d);
    FieldReads(c.year, 4, '-', m);
    assert s[5..] == m && m[3..] == d && d[3..] == t;
    assert s[5..7] == m[..2] && s[7] == m[2] && s[8..] == d;
    assert s[8..10] == d[..2] && s[10] == d[2] && s[11..] == t;
  }

  /** One field and what follows its separator. */
  lemma FieldThenRest(m: nat, n: nat, width: nat, separator: string, x: string, y: string)
    requires m < Power10(width) && n < Power10(width)
    ensures TextBefore(Digits(m, width) + (separator + x), Digits(n, width) + (separator + y)) <==>
            m < n || (m == n && TextBefore(x, y))
  {
    DigitsKeepOrder(m, n, width);
    FixedWidth(Digits(m, width), Digits(n, width), separator + x, separator + y);
    FixedWidth(separator, separator, x, y);
    TextOrderIsTotal(separator, separator);
  }

  lemma Widths()
    ensures Power10(2) == 100 && Power10(4) == 10000
  {
    assert Power10(1) == 10;
    assert Power10(3) == 1000;
  }

  predicate TimeBefore(a: Civil, b: Civil) {
    a.hour < b.hour || (a.hour == b.hour && (a.minute < b.minute || (a.minute == b.minute && a.second < b.second)))
  }

  lemma TimeTextOrder(a: Civil, b: Civil, x: string, y: string)
    requires Valid(a) && Valid(b)
    ensures TextBefore(TimeText(a) + x, TimeText(b) + y) <==>
            TimeBefore(a, b) || (a.hour == b.hour && a.minute == b.minute && a.second == b.second && TextBefore(x, y))
  {
    Widths();
    DigitsKeepOrder(a.second, b.second, 2);
    FixedWidth(Digits(a.second, 2), Digits(b.second, 2), x, y);
    FieldThenRest(a.minute, b.minute, 2, ":", Digits(a.second, 2) + x, Digits(b.second, 2) + y);
    FieldThenRest(a.hour, b.hour, 2, ":",
                  Digits(a.minute, 2) + (":" + (Digits(a.second, 2) + x)), Digits(b.minute, 2) + (":" + (Digits(b.second, 2) + y)));
    TimeTextWith(a, x);
    TimeTextWith(b, y);
  }

  lemma TimeTextWith(c: Civil, x: string)
    ensures TimeText(c) + x == Digits(c.hour, 2) + (":" + (Digits(c.minute, 2) + (":" + (Digits(c.second, 2) + x))))
  {
  }

  lemma IsoTextWith(c: Civil, x: string)
    ensures IsoText(c) + x ==
            Digits(c.year, 4) + ("-" + (Digits(c.month, 2) + ("-" + (Digits(c.day, 2) + ("T" + (TimeText(c) + x))))))
  {
  }

  /** Two texts that go on after the second compare by time, then by the rest. */
  lemma IsoTextOrder(a: Civil, b: Civil, x: string, y: string)
    requires Valid(a) && Valid(b)
    ensures TextBefore(IsoText(a) + x, IsoText(b) + y) <==> Seconds(a) < Seconds(b) || (Seconds(a) == Seconds(b) && TextBefore(x, y))
  {
    Widths();
    TimeTextOrder(a, b, x, y);
    var ta, tb := TimeText(a) + x, TimeText(b) + y;
    assert MonthLength(a.year, a.month) <= 31 && MonthLength(b.year, b.month) <= 31;
    FieldThenRest(a.day, b.day, 2, "T", ta, tb);
    FieldThenRest(a.month, b.month, 2, "-", Digits(a.day, 2) + ("T" + ta), Digits(b.day, 2) + ("T" + tb));
    FieldThenRest(a.year, b.year, 4, "-",
                  Digits(a.month, 2) + ("-" + (Digits(a.day, 2) + ("T" + ta))),
                  Digits(b.month, 2) + ("-" + (Digits(b.day, 2) + ("T" + tb))));
    IsoTextWith(a, x);
    IsoTextWith(b, y);
    FieldOrderIsTimeOrder(a, b);
  }

  // Stored values.

  /** A stored timestamp, with as many digits after the second as its writer gave. */
  datatype Stamp = Stamp(civil: Civil, digits: seq<nat>)

  ghost predicate ValidStamp(s: Stamp) {
    Valid(s.civil) && forall d | d in s.digits :: d < 10
  }

  function Fraction(digits: seq<nat>): real {
    if digits == [] then 0.0 else (digits[0] as real + Fraction(digits[1..])) / 10.0
  }

  function FractionText(digits: seq<nat>): (s: string)
    requires forall d | d in digits :: d < 10
    ensures |s| == |digits|
  {
    if digits == [] then ""
    else
      assert digits[0] in digits && forall d | d in digits[1..] :: d in digits;
      [Digit(digits[0])] + FractionText(digits[1..])
  }

  function StampText(s: Stamp): string
    requires ValidStamp(s)
  {
    IsoText(s.civil) + if s.digits == [] then "" else "." + FractionText(s.digits)
  }

  function Instant(s: Stamp): real {
    Seconds(s.civil) as real + Fraction(s.digits)
  }

  lemma {:induction false} FractionIsBelowOne(digits: seq<nat>)
    requires forall d | d in digits :: d < 10
    ensures 0.0 <= Fraction(digits) < 1.0
  {
    if digits != [] {
      assert digits[0] in digits && forall d | d in digits[1..] :: d in digits;
      FractionIsBelowOne(digits[1..]);
    }
  }

  /** Comparing a stored text with a whole-second bound's text is comparing the
      two instants, however many fraction digits were stored. RFC 3339,
      section 5.1, asks for equal precision; here only the bound's matters. */
  lemma TextOrderIsTimeOrder(s: Stamp, bound: Civil)
    requires ValidStamp(s) && Valid(bound)
    ensures TextBefore(StampText(s), IsoText(bound)) <==> Instant(s) < Seconds(bound) as real
  {
    var rest := if s.digits == [] then "" else "." + FractionText(s.digits);
    FractionIsBelowOne(s.digits);
    IsoTextOrder(s.civil, bound, rest, "");
    assert IsoText(bound) + "" == IsoText(bound);
  }

  /** Against a bound with a fraction it would not be: the two writings of one
      instant compare as different texts. */
  lemma FractionalBoundsMisorder(c: Civil)
    requires Valid(c)
    ensures Instant(Stamp(c, [])) == Instant(Stamp(c, [0]))
    ensures TextBefore(StampText(Stamp(c, [])), StampText(Stamp(c, [0])))
  {
    assert Fraction([0]) == 0.0 by {
      assert [0 as nat][1..] == [];
    }
    IsoTextOrder(c, c, "", "." + FractionText([0]));
  }
}
