/** `[since, before)` windows over change times: b2b_learner_records/queries.py,
    `_whole_second`, `_cursor_value`, `_window_predicates`. Bounds are UTC here:
    converting an offset to UTC comes before. */
module SyncWindows {
  import opened Common
  import opened SqlLogic
  import opened SqlOrder
  import opened IsoTime

  datatype Datetime = Datetime(civil: Civil, microsecond: nat)

  ghost predicate ValidDatetime(d: Datetime) {
    Valid(d.civil) && d.microsecond < 1_000_000
  }

  ghost predicate ValidBound(d: Option<Datetime>) {
    d.Some? ==> ValidDatetime(d.value)
  }

  function Time(d: Datetime): real {
    Seconds(d.civil) as real + d.microsecond as real / 1_000_000.0
  }

  datatype TimeError = YearOutOfRange

  /** Adding one day, past the end of the month or the year. */
  function NextDay(c: Civil): Result<Civil, TimeError> {
    if c.day < MonthLength(c.year, c.month) then Ok(c.(day := c.day + 1))
    else if c.month < 12 then Ok(c.(month := c.month + 1, day := 1))
    else if c.year < 9999 then Ok(c.(year := c.year + 1, month := 1, day := 1))
    else Err(YearOutOfRange)
  }

  /** `+ timedelta(seconds=1)`. */
  function NextSecond(c: Civil): Result<Civil, TimeError> {
    if c.second < 59 then Ok(c.(second := c.second + 1))
    else if c.minute < 59 then Ok(c.(minute := c.minute + 1, second := 0))
    else if c.hour < 23 then Ok(c.(hour := c.hour + 1, minute := 0, second := 0))
    else NextDay(c.(hour := 0, minute := 0, second := 0))
  }

  function WholeSecond(d: Datetime, roundUp: bool): Result<Civil, TimeError> {
    if roundUp && d.microsecond != 0 then NextSecond(d.civil) else Ok(d.civil)
  }

  lemma NextDayIsOneLater(c: Civil)
    requires Valid(c)
    ensures NextDay(c).Ok? ==> Valid(NextDay(c).value) && DayNumber(NextDay(c).value) == DayNumber(c) + 1
    ensures NextDay(c).Err? <==> (c.year, c.month, c.day) == (9999, 12, 31)
  {
    MonthsFillYear(c.year);
    if c.day == MonthLength(c.year, c.month) && c.month < 12 {
      assert DaysBeforeMonth(c.year, c.month + 1) == DaysBeforeMonth(c.year, c.month) + MonthLength(c.year, c.month);
    } else if c.day == MonthLength(c.year, c.month) {
      assert DaysBeforeMonth(c.year, 13) == DaysBeforeMonth(c.year, 12) + MonthLength(c.year, 12);
      assert DaysBeforeYear(c.year + 1) == DaysBeforeYear(c.year) + YearLength(c.year);
    }
  }

  /** The carries are right, and only the calendar's last second has no next. */
  lemma NextSecondIsOneLater(c: Civil)
    requires Valid(c)
    ensures NextSecond(c).Ok? ==> Valid(NextSecond(c).value) && Seconds(NextSecond(c).value) == Seconds(c) + 1
    ensures NextSecond(c).Err? <==> c == Civil(9999, 12, 31, 23, 59, 59)
  {
    if c.second == 59 && c.minute == 59 && c.hour == 23 {
      NextDayIsOneLater(c.(hour := 0, minute := 0, second := 0));
    }
  }

  function Floor(t: real): int {
    t.Floor
  }

  function Ceiling(t: real): int {
    -((-t).Floor)
  }

  /** A lower bound rounds down and an upper bound up. */
  lemma WholeSecondRounds(d: Datetime)
    requires ValidDatetime(d)
    ensures Valid(d.civil) && Seconds(d.civil) == Floor(Time(d))
    ensures WholeSecond(d, true).Ok? ==>
              Valid(WholeSecond(d, true).value) && Seconds(WholeSecond(d, true).value) == Ceiling(Time(d))
  {
    NextSecondIsOneLater(d.civil);
    var part := d.microsecond as real / 1_000_000.0;
    assert 0.0 <= part < 1.0 && (d.microsecond == 0 <==> part == 0.0);
  }

  /** A bound parameter, and the comparison it goes into. */
  datatype Bound = Moment(at: Civil) | IsoBound(text: string)
  datatype Test = AtOrAfter(bound: Bound) | Before(bound: Bound)

  /** Whether a stored timestamp comes before a bound, as the database compares. */
  ghost predicate StoredBefore(s: Stamp, bound: Bound)
    requires ValidStamp(s)
  {
    match bound
    case Moment(at) => Instant(s) < Seconds(at) as real
    case IsoBound(text) => TextBefore(StampText(s), text)
  }

  ghost function EvaluateTest(test: Test, cell: Option<Stamp>): Tri
    requires cell.Some? ==> ValidStamp(cell.value)
  {
    if cell.None? then None
    else
      match test
      case AtOrAfter(bound) => Some(!StoredBefore(cell.value, bound))
      case Before(bound) => Some(StoredBefore(cell.value, bound))
  }

  ghost predicate Passes(tests: seq<Test>, cell: Option<Stamp>)
    requires cell.Some? ==> ValidStamp(cell.value)
  {
    forall t | t in tests :: Holds(EvaluateTest(t, cell))
  }

  predicate InWindow(t: real, since: Option<Datetime>, before: Option<Datetime>) {
    && (since.Some? ==> Floor(Time(since.value)) as real <= t)
    && (before.Some? ==> t < Ceiling(Time(before.value)) as real)
  }

  function AsBound(c: Civil, stringColumn: bool): Bound {
    if stringColumn then IsoBound(IsoText(c)) else Moment(c)
  }

  lemma BoundMeansInstant(s: Stamp, c: Civil, stringColumn: bool)
    requires ValidStamp(s) && Valid(c)
    ensures StoredBefore(s, AsBound(c, stringColumn)) <==> Instant(s) < Seconds(c) as real
  {
    TextOrderIsTimeOrder(s, c);
  }

  ghost predicate SelectsWindow(tests: seq<Test>, since: Option<Datetime>, before: Option<Datetime>) {
    && (forall s | ValidStamp(s) :: Passes(tests, Some(s)) <==> InWindow(Instant(s), since, before))
    && (Passes(tests, None) <==> since.None? && before.None?)
  }

  /** `_window_predicates`. Text column or DATETIME, the predicates it appends
      select exactly the timestamps in the rounded window. */
  method WindowPredicates(since: Option<Datetime>, before: Option<Datetime>, stringColumn: bool)
    returns (result: Result<seq<Test>, TimeError>)
    requires ValidBound(since) && ValidBound(before)
    ensures result.Err? <==> before.Some? && before.value.civil == Civil(9999, 12, 31, 23, 59, 59) && before.value.microsecond > 0
    ensures result.Ok? ==> SelectsWindow(result.value, since, before)
  {
    var tests: seq<Test> := [];
    if since.Some? {
      WholeSecondRounds(since.value);
      tests := tests + [AtOrAfter(AsBound(since.value.civil, stringColumn))];
    }
    assert tests == LowerTests(since, stringColumn);
    if before.Some? {
      WholeSecondRounds(before.value);
      NextSecondIsOneLater(before.value.civil);
      var upper := WholeSecond(before.value, true);
      if upper.Err? {
        return Err(YearOutOfRange);
      }
      tests := tests + [Before(AsBound(upper.value, stringColumn))];
    }
    assert tests == LowerTests(since, stringColumn) + UpperTests(before, stringColumn);
    TestsSelectWindow(since, before, stringColumn);
    result := Ok(tests);
  }

  function LowerTests(since: Option<Datetime>, stringColumn: bool): seq<Test> {
    if since.Some? then [AtOrAfter(AsBound(since.value.civil, stringColumn))] else []
  }

  function UpperTests(before: Option<Datetime>, stringColumn: bool): seq<Test>
    requires before.Some? ==> WholeSecond(before.value, true).Ok?
  {
    if before.Some? then [Before(AsBound(WholeSecond(before.value, true).value, stringColumn))] else []
  }

  lemma WindowTestsMean(s: Stamp, since: Option<Datetime>, before: Option<Datetime>, stringColumn: bool)
    requires ValidStamp(s) && ValidBound(since) && ValidBound(before)
    requires before.Some? ==> WholeSecond(before.value, true).Ok?
    ensures Passes(LowerTests(since, stringColumn) + UpperTests(before, stringColumn), Some(s)) <==>
            InWindow(Instant(s), since, before)
  {
    var lower, upper := LowerTests(since, stringColumn), UpperTests(before, stringColumn);
    assert forall t :: t in lower + upper <==> t in lower || t in upper;
    if since.Some? {
      WholeSecondRounds(since.value);
      BoundMeansInstant(s, since.value.civil, stringColumn);
      assert lower[0] in lower;
    }
    if before.Some? {
      WholeSecondRounds(before.value);
      BoundMeansInstant(s, WholeSecond(before.value, true).value, stringColumn);
      assert upper[0] in upper;
    }
  }

  lemma TestsSelectWindow(since: Option<Datetime>, before: Option<Datetime>, stringColumn: bool)
    requires ValidBound(since) && ValidBound(before)
    requires before.Some? ==> WholeSecond(before.value, true).Ok?
    ensures SelectsWindow(LowerTests(since, stringColumn) + UpperTests(before, stringColumn), since, before)
  {
    var tests := LowerTests(since, stringColumn) + UpperTests(before, stringColumn);
    forall s | ValidStamp(s)
      ensures Passes(tests, Some(s)) <==> InWindow(Instant(s), since, before)
    {
      WindowTestsMean(s, since, before, stringColumn);
    }
    if tests != [] {
      assert tests[0] in tests;
    }
  }

  // Tiling.

  /** The bounds of abutting windows: window `i` runs from cut `i` to cut
      `i + 1`. Only the first and the last may be open. */
  ghost predicate Abutting(cuts: seq<Option<Datetime>>) {
    && |cuts| >= 2
    && (forall i | 0 <= i < |cuts| :: ValidBound(cuts[i]))
    && (forall i | 0 < i < |cuts| - 1 :: cuts[i].Some?)
  }

  ghost predicate Spans(cuts: seq<Option<Datetime>>, t: real)
    requires |cuts| >= 2
  {
    && (cuts[0].Some? ==> Time(cuts[0].value) <= t)
    && (cuts[|cuts| - 1].Some? ==> t < Time(cuts[|cuts| - 1].value))
  }

  predicate Matches(cuts: seq<Option<Datetime>>, i: nat, t: real)
    requires i + 1 < |cuts|
  {
    InWindow(t, cuts[i], cuts[i + 1])
  }

  /** No change in the span is dropped, however short the windows. */
  lemma {:induction false} EveryChangeIsInSomeWindow(cuts: seq<Option<Datetime>>, t: real)
    requires Abutting(cuts) && Spans(cuts, t)
    ensures exists i: nat :: i + 1 < |cuts| && Matches(cuts, i, t)
  {
    if |cuts| == 2 || t < Time(cuts[1].value) {
      assert Matches(cuts, 0, t);
    } else {
      EveryChangeIsInSomeWindow(cuts[1..], t);
      var i: nat :| i + 1 < |cuts[1..]| && Matches(cuts[1..], i, t);
      assert Matches(cuts, i + 1, t);
    }
  }

  ghost predicate AtLeastASecondEach(cuts: seq<Option<Datetime>>) {
    forall i | 0 <= i < |cuts| - 1 && cuts[i].Some? && cuts[i + 1].Some? ::
      Time(cuts[i].value) + 1.0 <= Time(cuts[i + 1].value)
  }

  lemma {:induction false} LaterCuts(cuts: seq<Option<Datetime>>, i: nat, j: nat)
    requires Abutting(cuts) && AtLeastASecondEach(cuts) && i < j < |cuts| && cuts[i].Some? && cuts[j].Some?
    ensures Time(cuts[i].value) + 1.0 <= Time(cuts[j].value)
    decreases j - i
  {
    if j > i + 1 {
      LaterCuts(cuts, i, j - 1);
    }
  }

  lemma RoundingGap(x: real, y: real)
    ensures x + 1.0 <= y ==> Ceiling(x) <= Floor(y)
  {
  }

  /** Windows of a second or more re-send a change only to the next window, and
      only within the second their shared bound cuts in two. */
  lemma OnlyNeighboursOverlap(cuts: seq<Option<Datetime>>, i: nat, j: nat, t: real)
    requires Abutting(cuts) && AtLeastASecondEach(cuts)
    requires i < j && j + 1 < |cuts| && Matches(cuts, i, t) && Matches(cuts, j, t)
    ensures j == i + 1 && cuts[j].value.microsecond > 0
    ensures Floor(Time(cuts[j].value)) as real <= t < Floor(Time(cuts[j].value)) as real + 1.0
  {
    RoundingGap(Time(cuts[i + 1].value), Time(cuts[j].value));
    InSecond(cuts[j].value);
    if j > i + 1 {
      LaterCuts(cuts, i + 1, j);
    }
  }

  lemma InSecond(d: Datetime)
    requires d.microsecond < 1_000_000
    ensures Floor(Time(d)) == Seconds(d.civil)
    ensures Ceiling(Time(d)) == Seconds(d.civil) + if d.microsecond == 0 then 0 else 1
  {
    if d.microsecond > 0 {
      MidSecond(d.civil, d.microsecond);
    }
  }

  ghost predicate Nondecreasing(cuts: seq<Option<Datetime>>) {
    forall i | 0 <= i < |cuts| - 1 && cuts[i].Some? && cuts[i + 1].Some? :: Time(cuts[i].value) <= Time(cuts[i + 1].value)
  }

  lemma {:induction false} LaterCutsAreNotEarlier(cuts: seq<Option<Datetime>>, i: nat, j: nat)
    requires Abutting(cuts) && Nondecreasing(cuts) && i <= j < |cuts| && cuts[i].Some? && cuts[j].Some?
    ensures Time(cuts[i].value) <= Time(cuts[j].value)
    ensures Floor(Time(cuts[i].value)) <= Floor(Time(cuts[j].value))
    ensures Ceiling(Time(cuts[i].value)) <= Ceiling(Time(cuts[j].value))
    decreases j - i
  {
    if i < j {
      LaterCutsAreNotEarlier(cuts, i, j - 1);
    }
  }

  /** Exactly when two windows can re-send one change: when the later one starts
      in a second that the earlier one ends in. */
  lemma SentTwiceIff(cuts: seq<Option<Datetime>>, i: nat, j: nat)
    requires Abutting(cuts) && Nondecreasing(cuts) && i < j && j + 1 < |cuts|
    ensures (exists t :: Matches(cuts, i, t) && Matches(cuts, j, t)) <==>
            Floor(Time(cuts[j].value)) < Ceiling(Time(cuts[i + 1].value))
  {
    var t := Floor(Time(cuts[j].value)) as real;
    if Floor(Time(cuts[j].value)) < Ceiling(Time(cuts[i + 1].value)) {
      if cuts[i].Some? {
        LaterCutsAreNotEarlier(cuts, i, j);
      }
      if cuts[j + 1].Some? {
        LaterCutsAreNotEarlier(cuts, i + 1, j + 1);
      }
      assert Matches(cuts, i, t) && Matches(cuts, j, t);
    }
  }

  ghost predicate InThreeWindows(cuts: seq<Option<Datetime>>, t: real) {
    exists i: nat, j: nat, k: nat :: i < j < k && k + 1 < |cuts| && Matches(cuts, i, t) && Matches(cuts, j, t) && Matches(cuts, k, t)
  }

  /** Window `m` has a neighbour on each side, and lies inside a second that it
      does not start. */
  ghost predicate InsideASecond(cuts: seq<Option<Datetime>>, m: nat)
    requires Abutting(cuts) && 1 <= m && m + 2 < |cuts|
  {
    Floor(Time(cuts[m + 1].value)) < Ceiling(Time(cuts[m].value))
  }

  /** Some instant is in the span. */
  ghost predicate SpanIsNotEmpty(cuts: seq<Option<Datetime>>)
    requires |cuts| >= 2
  {
    cuts[0].Some? && cuts[|cuts| - 1].Some? ==> Time(cuts[0].value) < Time(cuts[|cuts| - 1].value)
  }

  lemma ThreeMatchesMeetInASecond(cuts: seq<Option<Datetime>>, t: real)
    requires Abutting(cuts) && Nondecreasing(cuts) && InThreeWindows(cuts, t)
    ensures exists m: nat :: 1 <= m && m + 2 < |cuts| && InsideASecond(cuts, m)
  {
    var i: nat, j: nat, k: nat :| i < j < k && k + 1 < |cuts| && Matches(cuts, i, t) && Matches(cuts, j, t) && Matches(cuts, k, t);
    LaterCutsAreNotEarlier(cuts, i + 2, k);
    assert InsideASecond(cuts, i + 1);
  }

  /** All three windows around a short one reach over its whole second. */
  lemma AroundAShortWindow(cuts: seq<Option<Datetime>>, m: nat, t: real)
    requires Abutting(cuts) && Nondecreasing(cuts) && 1 <= m && m + 2 < |cuts| && InsideASecond(cuts, m)
    requires Floor(Time(cuts[m + 1].value)) as real <= t < Ceiling(Time(cuts[m].value)) as real
    ensures Matches(cuts, m - 1, t) && Matches(cuts, m, t) && Matches(cuts, m + 1, t) && InThreeWindows(cuts, t)
  {
    LaterCutsAreNotEarlier(cuts, m, m + 1);
    if cuts[m - 1].Some? {
      LaterCutsAreNotEarlier(cuts, m - 1, m + 1);
    }
    if cuts[m + 2].Some? {
      LaterCutsAreNotEarlier(cuts, m, m + 2);
    }
    assert Matches(cuts, m - 1, t) && Matches(cuts, m, t) && Matches(cuts, m + 1, t);
  }

  /** An instant of that second that is also in the span. */
  lemma ShortWindowMeetsSpan(cuts: seq<Option<Datetime>>, m: nat) returns (t: real)
    requires Abutting(cuts) && Nondecreasing(cuts) && 1 <= m && m + 2 < |cuts| && InsideASecond(cuts, m) && SpanIsNotEmpty(cuts)
    ensures Spans(cuts, t) && Floor(Time(cuts[m + 1].value)) as real <= t < Ceiling(Time(cuts[m].value)) as real
  {
    var n := |cuts| - 1;
    t := Floor(Time(cuts[m + 1].value)) as real;
    LaterCutsAreNotEarlier(cuts, m, m + 1);
    if cuts[n].Some? {
      LaterCutsAreNotEarlier(cuts, m, n);
    }
    if cuts[0].Some? {
      LaterCutsAreNotEarlier(cuts, 0, m);
      if t < Time(cuts[0].value) {
        t := Time(cuts[0].value);
      }
    }
  }

  /** Exactly when windows re-send a change to more than two of them: when some
      window with one on each side lies within a second that it does not start. */
  lemma SentThriceIff(cuts: seq<Option<Datetime>>)
    requires Abutting(cuts) && Nondecreasing(cuts)
    ensures (exists t :: InThreeWindows(cuts, t)) <==> exists m: nat :: 1 <= m && m + 2 < |cuts| && InsideASecond(cuts, m)
    ensures (exists t :: Spans(cuts, t) && InThreeWindows(cuts, t)) <==>
            SpanIsNotEmpty(cuts) && exists m: nat :: 1 <= m && m + 2 < |cuts| && InsideASecond(cuts, m)
  {
    if t :| InThreeWindows(cuts, t) {
      ThreeMatchesMeetInASecond(cuts, t);
    }
    if m: nat :| 1 <= m && m + 2 < |cuts| && InsideASecond(cuts, m) {
      AroundAShortWindow(cuts, m, Floor(Time(cuts[m + 1].value)) as real);
      if SpanIsNotEmpty(cuts) {
        var t := ShortWindowMeetsSpan(cuts, m);
        AroundAShortWindow(cuts, m, t);
      }
    }
  }

  /** Windows of a second or more never do. */
  lemma NoChangeIsInThreeWindows(cuts: seq<Option<Datetime>>, t: real)
    requires Abutting(cuts) && AtLeastASecondEach(cuts)
    ensures !InThreeWindows(cuts, t)
  {
    forall m: nat | 1 <= m && m + 2 < |cuts|
      ensures !InsideASecond(cuts, m)
    {
      RoundingGap(Time(cuts[m].value), Time(cuts[m + 1].value));
    }
    if InThreeWindows(cuts, t) {
      ThreeMatchesMeetInASecond(cuts, t);
    }
  }

  lemma MidSecond(c: Civil, microsecond: nat)
    requires 0 < microsecond < 1_000_000
    ensures var t := Time(Datetime(c, microsecond));
            Floor(t) == Seconds(c) && Ceiling(t) == Seconds(c) + 1 && Seconds(c) as real < t < Seconds(c) as real + 1.0
  {
    var part := microsecond as real / 1_000_000.0;
    assert 0.0 < part < 1.0;
  }

  /** Three windows of a microsecond, all sent the one change. */
  lemma ShortWindowsOverlapMore(c: Civil)
    requires Valid(c)
    ensures var cuts := [Some(Datetime(c, 1)), Some(Datetime(c, 2)), Some(Datetime(c, 3)), Some(Datetime(c, 4))];
            Abutting(cuts) && !AtLeastASecondEach(cuts) && InThreeWindows(cuts, Time(Datetime(c, 1)))
  {
    var cuts := [Some(Datetime(c, 1)), Some(Datetime(c, 2)), Some(Datetime(c, 3)), Some(Datetime(c, 4))];
    MidSecond(c, 1);
    MidSecond(c, 2);
    MidSecond(c, 3);
    MidSecond(c, 4);
    assert cuts[0] == Some(Datetime(c, 1)) && cuts[1] == Some(Datetime(c, 2));
    assert cuts[2] == Some(Datetime(c, 3)) && cuts[3] == Some(Datetime(c, 4));
    assert Nondecreasing(cuts) && InsideASecond(cuts, 1);
    AroundAShortWindow(cuts, 1, Time(Datetime(c, 1)));
  }
}
