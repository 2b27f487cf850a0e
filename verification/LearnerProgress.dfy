/** The row-level directory: b2b_dashboard/learner_queries.py, `learner_progress`. */
module LearnerProgress {
  import opened Common
  import opened SqlLogic
  import opened SqlOrder
  import opened LearnerRows

  datatype SortColumn = ByFullName | ByEmail | ByEnrolledOn | ByCourserun

  datatype Request = Request(
    org: string,
    contract: int,
    includeInactive: bool,
    filters: Filters,
    sort: SortColumn,
    descending: bool)

  function TextValue(s: Option<string>): Value {
    if s.None? then Null else Text(s.value)
  }

  function SortValue(row: Row, sort: SortColumn): Value {
    match sort
    case ByFullName => TextValue(row.fullName)
    case ByEmail => TextValue(row.email)
    case ByEnrolledOn => if row.enrolledOn.None? then Null else Num(row.enrolledOn.value)
    case ByCourserun => TextValue(row.courserun)
  }

  /** ORDER BY: NULLs last either way, then the unique tie-break. */
  function OrderKey(row: Row, req: Request): SortKey {
    var v := SortValue(row, req.sort);
    [Asc(Flag(v.Null?)), if req.descending then Desc(v) else Asc(v), Asc(Num(row.userPk)), Asc(Num(row.courserunPk))]
  }

  function KeyRows(rows: seq<Row>, req: Request, ctx: Context): Keyed<OutRow>
    requires forall row | row in rows :: row.learnerId.Some?
  {
    if rows == [] then []
    else
      assert rows[0] in rows;
      [(OrderKey(rows[0], req), Project(rows[0], ctx))] + KeyRows(rows[1..], req, ctx)
  }

  function Matched(table: seq<Row>, req: Request, ctx: Context): (rows: seq<Row>)
    ensures forall row | row in rows :: row.learnerId.Some?
  {
    MatchedHaveIds(Records(table, req.org, req.contract, req.includeInactive), req.filters, ctx);
    Matching(Records(table, req.org, req.contract, req.includeInactive), req.filters, ctx)
  }

  lemma MatchedHaveIds(records: seq<Row>, f: Filters, ctx: Context)
    requires forall row | row in records :: row.learnerId.Some?
    ensures forall row | row in Matching(records, f, ctx) :: row.learnerId.Some?
  {
    forall row | row in Matching(records, f, ctx)
      ensures row.learnerId.Some?
    {
      MatchingAre(records, f, ctx, row);
    }
  }

  function Ordered(table: seq<Row>, req: Request, ctx: Context): seq<OutRow> {
    Values(Sort(KeyRows(Matched(table, req, ctx), req, ctx)))
  }

  function Page(table: seq<Row>, req: Request, ctx: Context, limit: nat, offset: nat): seq<OutRow> {
    Slice(Ordered(table, req, ctx), offset, limit)
  }

  /** One SUM(CASE WHEN ...) of the count statement. */
  datatype Bucket = Every | Withheld | OfStatus(status: string) | Quiet

  predicate InBucket(row: Row, bucket: Bucket, ctx: Context) {
    match bucket
    case Every => true
    case Withheld => !Shared(row, ctx)
    case OfStatus(status) => Holds(And3(Some(Shared(row, ctx)), Eq3(row.outcomes.status, status)))
    case Quiet => Shared(row, ctx) && NeedsAttention(row, ctx)
  }

  /** The same in the columns. */
  ghost predicate IsCounted(row: Row, bucket: Bucket, ctx: Context) {
    match bucket
    case Every => true
    case Withheld => !HasShared(row, ctx)
    case OfStatus(status) => HasShared(row, ctx) && row.outcomes.status == Some(status)
    case Quiet => HasShared(row, ctx) && AttentionIsDue(row, ctx)
  }

  lemma BucketsCount(row: Row, bucket: Bucket, ctx: Context)
    ensures InBucket(row, bucket, ctx) <==> IsCounted(row, bucket, ctx)
  {
  }

  function CountOf(rows: seq<Row>, bucket: Bucket, ctx: Context): nat {
    if rows == [] then 0 else (if InBucket(rows[0], bucket, ctx) then 1 else 0) + CountOf(rows[1..], bucket, ctx)
  }

  function Total(table: seq<Row>, req: Request, ctx: Context, bucket: Bucket): nat {
    CountOf(Matched(table, req, ctx), bucket, ctx)
  }

  // Consent.

  /** Two tables that differ only in what their learners have not shared. */
  ghost predicate DifferOnlyInWithheld(a: seq<Row>, b: seq<Row>, ctx: Context) {
    && |a| == |b|
    && forall i | 0 <= i < |a| ::
         a[i] == b[i]
         || (!Shared(a[i], ctx) && b[i] == a[i].(outcomes := b[i].outcomes, needsAttentionSince := b[i].needsAttentionSince))
  }

  lemma {:induction false} RedactionHidesExactlyThat(a: seq<Row>, b: seq<Row>, ctx: Context)
    ensures DifferOnlyInWithheld(a, b, ctx) <==> RedactAll(a, ctx) == RedactAll(b, ctx)
  {
    if a != [] && b != [] {
      RedactionHidesExactlyThat(a[1..], b[1..], ctx);
      var ra, rb := RedactAll(a, ctx), RedactAll(b, ctx);
      assert ra[0] == Redact(a[0], ctx) && ra[1..] == RedactAll(a[1..], ctx);
      assert rb[0] == Redact(b[0], ctx) && rb[1..] == RedactAll(b[1..], ctx);
      assert ra == rb <==> ra[0] == rb[0] && ra[1..] == rb[1..] by {
        assert ra == [ra[0]] + ra[1..] && rb == [rb[0]] + rb[1..];
      }
      assert DifferOnlyInWithheld(a, b, ctx) <==> DifferOnlyInWithheld([a[0]], [b[0]], ctx) && DifferOnlyInWithheld(a[1..], b[1..], ctx) by {
        assert a == [a[0]] + a[1..] && b == [b[0]] + b[1..];
      }
    }
  }

  lemma {:induction false} RedactedKeyRows(rows: seq<Row>, req: Request, ctx: Context)
    requires forall row | row in rows :: row.learnerId.Some?
    ensures forall row | row in RedactAll(rows, ctx) :: row.learnerId.Some?
    ensures KeyRows(RedactAll(rows, ctx), req, ctx) == KeyRows(rows, req, ctx)
  {
    if rows != [] {
      RedactedKeyRows(rows[1..], req, ctx);
      assert rows[0] in rows;
      RedactedRowLooksTheSame(rows[0], req.filters, ctx);
      var redacted := RedactAll(rows, ctx);
      assert redacted[0] == Redact(rows[0], ctx) && redacted[1..] == RedactAll(rows[1..], ctx);
    }
  }

  lemma {:induction false} RedactedCountOf(rows: seq<Row>, bucket: Bucket, ctx: Context)
    ensures CountOf(RedactAll(rows, ctx), bucket, ctx) == CountOf(rows, bucket, ctx)
  {
    if rows != [] {
      RedactedCountOf(rows[1..], bucket, ctx);
      var redacted := RedactAll(rows, ctx);
      assert redacted[0] == Redact(rows[0], ctx) && redacted[1..] == RedactAll(rows[1..], ctx);
    }
  }

  lemma RedactedMatched(table: seq<Row>, req: Request, ctx: Context)
    ensures Matched(RedactAll(table, ctx), req, ctx) == RedactAll(Matched(table, req, ctx), ctx)
  {
    RedactedRecords(table, req.org, req.contract, req.includeInactive, ctx);
    RedactedMatching(Records(table, req.org, req.contract, req.includeInactive), req.filters, ctx);
  }

  /** No filter, sort, page or count tells a withheld outcome. */
  lemma WithheldOutcomesDoNotShow(a: seq<Row>, b: seq<Row>, req: Request, ctx: Context)
    requires DifferOnlyInWithheld(a, b, ctx)
    ensures Ordered(a, req, ctx) == Ordered(b, req, ctx)
    ensures forall limit, offset :: Page(a, req, ctx, limit, offset) == Page(b, req, ctx, limit, offset)
    ensures forall bucket :: Total(a, req, ctx, bucket) == Total(b, req, ctx, bucket)
  {
    RedactionHidesExactlyThat(a, b, ctx);
    RedactedMatched(a, req, ctx);
    RedactedMatched(b, req, ctx);
    RedactedKeyRows(Matched(a, req, ctx), req, ctx);
    RedactedKeyRows(Matched(b, req, ctx), req, ctx);
    forall bucket
      ensures Total(a, req, ctx, bucket) == Total(b, req, ctx, bucket)
    {
      RedactedCountOf(Matched(a, req, ctx), bucket, ctx);
      RedactedCountOf(Matched(b, req, ctx), bucket, ctx);
    }
  }

  // Paging.

  lemma {:induction false} KeyRowsAre(rows: seq<Row>, req: Request, ctx: Context)
    requires forall row | row in rows :: row.learnerId.Some?
    ensures |KeyRows(rows, req, ctx)| == |rows| == CountOf(rows, Every, ctx)
    ensures forall i | 0 <= i < |rows| :: KeyRows(rows, req, ctx)[i] == (OrderKey(rows[i], req), Project(rows[i], ctx))
  {
    if rows != [] {
      KeyRowsAre(rows[1..], req, ctx);
    }
  }

  /** One column's order: a missing value last in either direction. */
  ghost predicate TextComesFirst(x: Option<string>, y: Option<string>, descending: bool) {
    if x.None? || y.None? then x.Some? && y.None?
    else if descending then TextBefore(y.value, x.value)
    else TextBefore(x.value, y.value)
  }

  ghost predicate DateComesFirst(x: Option<int>, y: Option<int>, descending: bool) {
    if x.None? || y.None? then x.Some? && y.None? else if descending then y.value < x.value else x.value < y.value
  }

  ghost predicate SortedBefore(a: Row, b: Row, req: Request) {
    match req.sort
    case ByFullName => TextComesFirst(a.fullName, b.fullName, req.descending)
    case ByEmail => TextComesFirst(a.email, b.email, req.descending)
    case ByEnrolledOn => DateComesFirst(a.enrolledOn, b.enrolledOn, req.descending)
    case ByCourserun => TextComesFirst(a.courserun, b.courserun, req.descending)
  }

  /** The order of the listing in the columns: the sorted one, then the learner,
      then the course run. */
  ghost predicate ListedBefore(a: Row, b: Row, req: Request) {
    || SortedBefore(a, b, req)
    || (!SortedBefore(b, a, req) && (a.userPk < b.userPk || (a.userPk == b.userPk && a.courserunPk < b.courserunPk)))
  }

  lemma TextColumnsOrder(x: Option<string>, y: Option<string>, descending: bool)
    ensures TextComesFirst(x, y, descending) || TextComesFirst(y, x, descending) <==> x != y
    ensures !(TextComesFirst(x, y, descending) && TextComesFirst(y, x, descending))
  {
    if x.Some? && y.Some? {
      TextOrderIsTotal(x.value, y.value);
    }
  }

  lemma TailsOrder(a: Row, b: Row, req: Request)
    ensures KeyBefore(OrderKey(a, req)[2..], OrderKey(b, req)[2..]) <==>
            a.userPk < b.userPk || (a.userPk == b.userPk && a.courserunPk < b.courserunPk)
  {
    var v, w := OrderKey(a, req)[2..], OrderKey(b, req)[2..];
    var x, y := v[1..], w[1..];
    assert v[0] == Asc(Num(a.userPk)) && w[0] == Asc(Num(b.userPk));
    assert x[0] == Asc(Num(a.courserunPk)) && y[0] == Asc(Num(b.courserunPk)) && x[1..] == [] && y[1..] == [];
    assert KeyBefore(x, y) <==> a.courserunPk < b.courserunPk;
  }

  lemma HeadsOrder(a: Row, b: Row, req: Request)
    ensures var v, w := OrderKey(a, req), OrderKey(b, req);
            && (CellBefore(v[0], w[0]) || (v[0] == w[0] && CellBefore(v[1], w[1])) <==> SortedBefore(a, b, req))
            && (v[0] == w[0] && v[1] == w[1] <==> !SortedBefore(a, b, req) && !SortedBefore(b, a, req))
  {
    match req.sort
    case ByFullName => TextHeadsOrder(a.fullName, b.fullName, req.descending);
    case ByEmail => TextHeadsOrder(a.email, b.email, req.descending);
    case ByCourserun => TextHeadsOrder(a.courserun, b.courserun, req.descending);
    case ByEnrolledOn =>
  }

  lemma TextHeadsOrder(a: Option<string>, b: Option<string>, descending: bool)
    ensures var x, y := TextValue(a), TextValue(b);
            var p, q := Asc(Flag(x.Null?)), Asc(Flag(y.Null?));
            var v, w := if descending then Desc(x) else Asc(x), if descending then Desc(y) else Asc(y);
            && (CellBefore(p, q) || (p == q && CellBefore(v, w)) <==> TextComesFirst(a, b, descending))
            && (p == q && v == w <==> !TextComesFirst(a, b, descending) && !TextComesFirst(b, a, descending))
  {
    TextColumnsOrder(a, b, descending);
  }

  /** ORDER BY is that order. */
  lemma OrderByIs(a: Row, b: Row, req: Request)
    ensures KeyBefore(OrderKey(a, req), OrderKey(b, req)) <==> ListedBefore(a, b, req)
  {
    var v, w := OrderKey(a, req), OrderKey(b, req);
    assert v[1..][0] == v[1] && w[1..][0] == w[1] && v[1..][1..] == v[2..] && w[1..][1..] == w[2..];
    HeadsOrder(a, b, req);
    TailsOrder(a, b, req);
  }

  /** The responses for pages 0 to `count - 1`, laid end to end. */
  function WalkPages(table: seq<Row>, req: Request, ctx: Context, size: nat, count: nat): seq<OutRow> {
    if count == 0 then []
    else WalkPages(table, req, ctx, size, count - 1) + Page(table, req, ctx, size, PageStart(size, count - 1))
  }

  lemma {:induction false} WalkIsPages(table: seq<Row>, req: Request, ctx: Context, size: nat, count: nat)
    ensures WalkPages(table, req, ctx, size, count) == Pages(Ordered(table, req, ctx), size, count)
  {
    if count > 0 {
      WalkIsPages(table, req, ctx, size, count - 1);
      assert Page(table, req, ctx, size, PageStart(size, count - 1)) == Slice(Ordered(table, req, ctx), PageStart(size, count - 1), size);
    }
  }

  /** `listed` carries `rows`, which are the stored rows that belong and meet the
      filters, each as often as stored, in the order asked for. */
  ghost predicate ListingOf(listed: seq<OutRow>, rows: seq<Row>, table: seq<Row>, req: Request, ctx: Context) {
    && |listed| == |rows|
    && (forall i | 0 <= i < |rows| :: Carries(listed[i], rows[i], ctx))
    && (forall row :: multiset(rows)[row] ==
          if Belongs(row, req.org, req.contract, req.includeInactive) && Meets(row, req.filters, ctx) then multiset(table)[row] else 0)
    && (forall i, j | 0 <= i < j < |rows| :: !ListedBefore(rows[j], rows[i], req))
  }

  function KeySources(rows: seq<Row>, req: Request): Keyed<Row> {
    seq(|rows|, i requires 0 <= i < |rows| => (OrderKey(rows[i], req), rows[i]))
  }

  lemma SourcesAreMatches(table: seq<Row>, req: Request, ctx: Context, row: Row)
    ensures multiset(Matched(table, req, ctx))[row] ==
            if Belongs(row, req.org, req.contract, req.includeInactive) && Meets(row, req.filters, ctx) then multiset(table)[row] else 0
  {
    RecordsCount(table, req.org, req.contract, req.includeInactive, row);
    MatchingCount(Records(table, req.org, req.contract, req.includeInactive), req.filters, ctx, row);
  }

  /** A sorted key's row, whose key it is. */
  lemma SortedSource(rows: seq<Row>, req: Request, i: nat)
    requires i < |Sort(KeySources(rows, req))|
    ensures Sort(KeySources(rows, req))[i].0 == OrderKey(Sort(KeySources(rows, req))[i].1, req)
  {
    SortMembers(KeySources(rows, req), Sort(KeySources(rows, req))[i]);
  }

  lemma OrderedLists(table: seq<Row>, req: Request, ctx: Context) returns (rows: seq<Row>)
    ensures ListingOf(Ordered(table, req, ctx), rows, table, req, ctx)
  {
    var matched := Matched(table, req, ctx);
    var keyed, sources := KeyRows(matched, req, ctx), KeySources(matched, req);
    var carries := (out: OutRow, row: Row) => Carries(out, row, ctx);
    KeyRowsAre(matched, req, ctx);
    forall i | 0 <= i < |matched|
      ensures keyed[i].0 == sources[i].0 && carries(keyed[i].1, sources[i].1)
    {
      assert matched[i] in matched;
      ProjectCarries(matched[i], ctx);
    }
    SortInStep(keyed, sources, carries);
    rows := Values(Sort(sources));
    SortKeepsValues(sources);
    assert Values(sources) == matched;
    forall row
      ensures multiset(rows)[row] ==
              if Belongs(row, req.org, req.contract, req.includeInactive) && Meets(row, req.filters, ctx) then multiset(table)[row] else 0
    {
      SourcesAreMatches(table, req, ctx, row);
    }
    SortSorts(sources);
    forall i, j | 0 <= i < j < |rows|
      ensures !ListedBefore(rows[j], rows[i], req)
    {
      SortedSource(matched, req, i);
      SortedSource(matched, req, j);
      OrderByIs(rows[j], rows[i], req);
    }
  }

  /** Walking the pages lists every matching row once, each as it is stored but
      for the outcomes its learner has not shared, in the order asked for, and as
      many as total_count says. */
  lemma PagesListEveryMatch(table: seq<Row>, req: Request, ctx: Context, size: nat, count: nat)
    requires count * size >= Total(table, req, ctx, Every)
    ensures exists rows :: ListingOf(WalkPages(table, req, ctx, size, count), rows, table, req, ctx)
    ensures |WalkPages(table, req, ctx, size, count)| == Total(table, req, ctx, Every)
  {
    KeyRowsAre(Matched(table, req, ctx), req, ctx);
    SortSorts(KeyRows(Matched(table, req, ctx), req, ctx));
    assert |multiset(Sort(KeyRows(Matched(table, req, ctx), req, ctx)))| == |multiset(KeyRows(Matched(table, req, ctx), req, ctx))|;
    WalkIsPages(table, req, ctx, size, count);
    PagesTile(Ordered(table, req, ctx), size, count);
    var rows := OrderedLists(table, req, ctx);
  }

  // Shared outcomes do show.

  /** Two tables alike but for what one row says of its learner's outcomes. */
  ghost predicate DifferInOutcomesAt(a: seq<Row>, b: seq<Row>, i: nat, ctx: Context)
    requires i < |a|
  {
    && |b| == |a|
    && b == a[i := a[i].(outcomes := b[i].outcomes, needsAttentionSince := b[i].needsAttentionSince)]
    && (b[i].outcomes != a[i].outcomes || (AttentionIsDue(a[i], ctx) <==> !AttentionIsDue(b[i], ctx)))
  }

  function ProjectedMatches(table: seq<Row>, req: Request, ctx: Context): multiset<OutRow> {
    multiset(Values(KeyRows(Matched(table, req, ctx), req, ctx)))
  }

  lemma {:induction false} KeyRowsOfPieces(a: seq<Row>, b: seq<Row>, req: Request, ctx: Context)
    requires (forall row | row in a :: row.learnerId.Some?) && (forall row | row in b :: row.learnerId.Some?)
    requires forall row | row in a + b :: row.learnerId.Some?
    ensures KeyRows(a + b, req, ctx) == KeyRows(a, req, ctx) + KeyRows(b, req, ctx)
  {
    if a == [] {
      assert a + b == b;
    } else {
      assert (a + b)[0] == a[0] && (a + b)[1..] == a[1..] + b;
      KeyRowsOfPieces(a[1..], b, req, ctx);
    }
  }

  lemma MatchesOfPieces(a: seq<Row>, b: seq<Row>, req: Request, ctx: Context)
    ensures ProjectedMatches(a + b, req, ctx) == ProjectedMatches(a, req, ctx) + ProjectedMatches(b, req, ctx)
  {
    MatchedOfPieces(a, b, req, ctx);
    KeyRowsOfPieces(Matched(a, req, ctx), Matched(b, req, ctx), req, ctx);
    ValuesOfPieces(KeyRows(Matched(a, req, ctx), req, ctx), KeyRows(Matched(b, req, ctx), req, ctx));
  }

  lemma MatchedOfPieces(a: seq<Row>, b: seq<Row>, req: Request, ctx: Context)
    ensures Matched(a + b, req, ctx) == Matched(a, req, ctx) + Matched(b, req, ctx)
  {
    RecordsOfPieces(a, b, req.org, req.contract, req.includeInactive);
    MatchingOfPieces(Records(a, req.org, req.contract, req.includeInactive), Records(b, req.org, req.contract, req.includeInactive), req.filters, ctx);
  }

  lemma ValuesOfPieces<T>(a: Keyed<T>, b: Keyed<T>)
    ensures Values(a + b) == Values(a) + Values(b)
    ensures multiset(Values(a + b)) == multiset(Values(a)) + multiset(Values(b))
  {
    assert Values(a + b) == Values(a) + Values(b);
  }

  lemma MatchOfOne(row: Row, req: Request, ctx: Context)
    ensures ProjectedMatches([row], req, ctx) ==
            if Belongs(row, req.org, req.contract, req.includeInactive) && Meets(row, req.filters, ctx)
            then multiset{Project(row, ctx)} else multiset{}
  {
    SelectedIffMeets(row, req.filters, ctx);
    RecordOfOne(row, req.org, req.contract, req.includeInactive);
    if Belongs(row, req.org, req.contract, req.includeInactive) && Meets(row, req.filters, ctx) {
      MatchingOfOne(row, req.filters, ctx);
      assert [row][1..] == [];
      assert Values(KeyRows([row], req, ctx)) == [Project(row, ctx)];
    } else {
      MatchingOfOne(row, req.filters, ctx);
    }
  }

  lemma MatchesAround(before: seq<Row>, row: Row, after: seq<Row>, req: Request, ctx: Context)
    ensures ProjectedMatches(before + ([row] + after), req, ctx) ==
            ProjectedMatches(before, req, ctx) + ProjectedMatches([row], req, ctx) + ProjectedMatches(after, req, ctx)
  {
    MatchesOfPieces(before, [row] + after, req, ctx);
    MatchesOfPieces([row], after, req, ctx);
  }

  lemma OneRowShows(x: Row, y: Row, req: Request, ctx: Context)
    requires y == x.(outcomes := y.outcomes, needsAttentionSince := y.needsAttentionSince) && HasShared(x, ctx)
    requires y.outcomes != x.outcomes || (AttentionIsDue(x, ctx) <==> !AttentionIsDue(y, ctx))
    requires Belongs(x, req.org, req.contract, req.includeInactive) && Meets(x, req.filters, ctx)
    ensures ProjectedMatches([x], req, ctx)[Project(x, ctx)] == 1 && ProjectedMatches([y], req, ctx)[Project(x, ctx)] == 0
  {
    MatchOfOne(x, req, ctx);
    MatchOfOne(y, req, ctx);
    ProjectCarries(x, ctx);
    ProjectCarries(y, ctx);
    assert HasShared(y, ctx);
    assert Project(x, ctx) != Project(y, ctx);
  }

  /** The converse of WithheldOutcomesDoNotShow: change what a shared row that
      matches says of its outcomes, and some page changes. */
  lemma SharedOutcomesShow(a: seq<Row>, b: seq<Row>, i: nat, req: Request, ctx: Context)
    requires i < |a| && DifferInOutcomesAt(a, b, i, ctx) && HasShared(a[i], ctx)
    requires Belongs(a[i], req.org, req.contract, req.includeInactive) && Meets(a[i], req.filters, ctx)
    ensures exists limit, offset :: Page(a, req, ctx, limit, offset) != Page(b, req, ctx, limit, offset)
  {
    SplitAround(a, b, i);
    RowChangeShows(a[..i], a[i], b[i], a[i + 1..], req, ctx);
  }

  lemma SplitAround<T>(a: seq<T>, b: seq<T>, i: nat)
    requires i < |a| == |b| && b == a[i := b[i]]
    ensures a == a[..i] + ([a[i]] + a[i + 1..]) && b == a[..i] + ([b[i]] + a[i + 1..])
  {
  }

  lemma RowChangeShows(before: seq<Row>, x: Row, y: Row, after: seq<Row>, req: Request, ctx: Context)
    requires y == x.(outcomes := y.outcomes, needsAttentionSince := y.needsAttentionSince) && HasShared(x, ctx)
    requires y.outcomes != x.outcomes || (AttentionIsDue(x, ctx) <==> !AttentionIsDue(y, ctx))
    requires Belongs(x, req.org, req.contract, req.includeInactive) && Meets(x, req.filters, ctx)
    ensures exists limit, offset ::
              Page(before + ([x] + after), req, ctx, limit, offset) != Page(before + ([y] + after), req, ctx, limit, offset)
  {
    MatchesAround(before, x, after, req, ctx);
    MatchesAround(before, y, after, req, ctx);
    OneRowShows(x, y, req, ctx);
    var p := Project(x, ctx);
    assert ProjectedMatches(before + ([x] + after), req, ctx)[p] == ProjectedMatches(before + ([y] + after), req, ctx)[p] + 1;
    MatchesShow(before + ([x] + after), before + ([y] + after), req, ctx);
  }

  lemma MatchesShow(a: seq<Row>, b: seq<Row>, req: Request, ctx: Context)
    requires ProjectedMatches(a, req, ctx) != ProjectedMatches(b, req, ctx)
    ensures exists limit, offset :: Page(a, req, ctx, limit, offset) != Page(b, req, ctx, limit, offset)
  {
    SortKeepsValues(KeyRows(Matched(a, req, ctx), req, ctx));
    SortKeepsValues(KeyRows(Matched(b, req, ctx), req, ctx));
    var all := |Ordered(a, req, ctx)| + |Ordered(b, req, ctx)|;
    assert Page(a, req, ctx, all, 0) == Ordered(a, req, ctx) && Page(b, req, ctx, all, 0) == Ordered(b, req, ctx);
  }

  /** Rows without the sorted column come last in either direction, and only the
      rest turn round. */
  lemma SortsNullsLast(a: Row, b: Row, req: Request)
    requires SortValue(a, req.sort) != SortValue(b, req.sort)
    ensures var x, y := SortValue(a, req.sort), SortValue(b, req.sort);
            KeyBefore(OrderKey(a, req), OrderKey(b, req)) <==>
            if x.Null? || y.Null? then y.Null? else if req.descending then ValueBefore(y, x) else ValueBefore(x, y)
  {
    var x, y := SortValue(a, req.sort), SortValue(b, req.sort);
    var v, w := OrderKey(a, req), OrderKey(b, req);
    assert v[1..][0] == v[1] && w[1..][0] == w[1];
    CellOrderIsTotal(v[0], w[0]);
    CellOrderIsTotal(v[1], w[1]);
  }

  ghost predicate OneRowPerEnrollment(rows: seq<Row>) {
    forall i, j | 0 <= i < j < |rows| :: rows[i].userPk != rows[j].userPk || rows[i].courserunPk != rows[j].courserunPk
  }

  /** The tie-break leaves the database one order to list the rows in, so the
      pages of separate statements fit together. */
  lemma PageOrderIsForced(table: seq<Row>, req: Request, ctx: Context, listed: Keyed<OutRow>)
    requires OneRowPerEnrollment(Matched(table, req, ctx))
    requires StrictlyAscending(listed) && multiset(listed) == multiset(KeyRows(Matched(table, req, ctx), req, ctx))
    ensures Values(listed) == Ordered(table, req, ctx)
  {
    var rows := Matched(table, req, ctx);
    KeyRowsAre(rows, req, ctx);
    forall i, j | 0 <= i < j < |rows|
      ensures OrderKey(rows[i], req) != OrderKey(rows[j], req)
    {
      if rows[i].userPk != rows[j].userPk {
        assert OrderKey(rows[i], req)[2] != OrderKey(rows[j], req)[2];
      } else {
        assert OrderKey(rows[i], req)[3] != OrderKey(rows[j], req)[3];
      }
    }
    SortIsTheOnlyOrder(KeyRows(rows, req, ctx), listed);
  }

  // Counts.

  const STATUSES: seq<string> := ["not_started", "in_progress", "passed", "certified"]

  function StatusSum(rows: seq<Row>, ctx: Context): nat {
    CountOf(rows, OfStatus(STATUSES[0]), ctx) + CountOf(rows, OfStatus(STATUSES[1]), ctx)
    + CountOf(rows, OfStatus(STATUSES[2]), ctx) + CountOf(rows, OfStatus(STATUSES[3]), ctx)
  }

  ghost predicate HasKnownStatus(row: Row) {
    row.outcomes.status.Some? && row.outcomes.status.value in STATUSES
  }

  /** The four status counts and the withheld count never exceed the total, and
      make it up exactly when every shared row has one of the four statuses. */
  lemma {:induction false} StatusCountsAddUp(rows: seq<Row>, ctx: Context)
    ensures CountOf(rows, Withheld, ctx) + StatusSum(rows, ctx) <= CountOf(rows, Every, ctx)
    ensures CountOf(rows, Withheld, ctx) + StatusSum(rows, ctx) == CountOf(rows, Every, ctx) <==>
            forall row | row in rows && Shared(row, ctx) :: HasKnownStatus(row)
  {
    if rows != [] {
      StatusCountsAddUp(rows[1..], ctx);
      OneStatusEach(rows[0], ctx);
      assert StatusSum(rows, ctx) == StatusesOf(rows[0], ctx) + StatusSum(rows[1..], ctx);
      assert forall row | row in rows :: row == rows[0] || row in rows[1..];
    }
  }

  /** One shared row without a status is in the total and in no other count. */
  lemma NullStatusIsUncounted(row: Row, ctx: Context)
    requires Shared(row, ctx) && row.outcomes.status == None
    ensures CountOf([row], Withheld, ctx) + StatusSum([row], ctx) == 0 && CountOf([row], Every, ctx) == 1
  {
    assert [row][1..] == [];
    OneStatusEach(row, ctx);
    assert StatusSum([row], ctx) == StatusesOf(row, ctx) + StatusSum([], ctx);
  }

  function StatusesOf(row: Row, ctx: Context): nat {
    (if InBucket(row, OfStatus(STATUSES[0]), ctx) then 1 else 0) + (if InBucket(row, OfStatus(STATUSES[1]), ctx) then 1 else 0)
    + (if InBucket(row, OfStatus(STATUSES[2]), ctx) then 1 else 0) + (if InBucket(row, OfStatus(STATUSES[3]), ctx) then 1 else 0)
  }

  lemma OneStatusEach(row: Row, ctx: Context)
    ensures StatusesOf(row, ctx) == if Shared(row, ctx) && HasKnownStatus(row) then 1 else 0
  {
    StatusesAreDistinct();
  }

  lemma StatusesAreDistinct()
    ensures STATUSES[0] != STATUSES[1] && STATUSES[0] != STATUSES[2] && STATUSES[0] != STATUSES[3]
    ensures STATUSES[1] != STATUSES[2] && STATUSES[1] != STATUSES[3] && STATUSES[2] != STATUSES[3]
    ensures forall s :: s in STATUSES <==> s == STATUSES[0] || s == STATUSES[1] || s == STATUSES[2] || s == STATUSES[3]
  {
    assert STATUSES[0][0] == 'n' && STATUSES[1][0] == 'i' && STATUSES[2][0] == 'p' && STATUSES[3][0] == 'c';
  }

  /** What filtering by a bucket adds to a request. */
  function Narrowed(f: Filters, bucket: Bucket): Filters {
    match bucket
    case Every => f
    case Withheld => f.(completionStatuses := [UNKNOWN])
    case OfStatus(status) => f.(completionStatuses := [status])
    case Quiet => f.(needsAttention := Some(true))
  }

  /** The number beside a filter is the number of rows choosing it leaves. */
  lemma {:induction false} CountsForecastFilters(rows: seq<Row>, f: Filters, bucket: Bucket, ctx: Context)
    requires f.completionStatuses == [] && f.needsAttention == None && bucket != OfStatus(UNKNOWN)
    ensures CountOf(Matching(rows, f, ctx), bucket, ctx) == CountOf(Matching(rows, Narrowed(f, bucket), ctx), Every, ctx)
  {
    if rows != [] {
      CountsForecastFilters(rows[1..], f, bucket, ctx);
      SelectedIffMeets(rows[0], f, ctx);
      SelectedIffMeets(rows[0], Narrowed(f, bucket), ctx);
      NarrowingIsTheBucket(rows[0], f, bucket, ctx);
      CountOfCons(rows[0], Matching(rows[1..], f, ctx), bucket, ctx);
      CountOfCons(rows[0], Matching(rows[1..], Narrowed(f, bucket), ctx), Every, ctx);
    }
  }

  lemma NarrowingIsTheBucket(row: Row, f: Filters, bucket: Bucket, ctx: Context)
    requires f.completionStatuses == [] && f.needsAttention == None && bucket != OfStatus(UNKNOWN)
    ensures Meets(row, Narrowed(f, bucket), ctx) <==> Meets(row, f, ctx) && InBucket(row, bucket, ctx)
  {
    if bucket.OfStatus? {
      assert UNKNOWN !in [bucket.status];
    }
  }

  lemma CountOfCons(row: Row, rows: seq<Row>, bucket: Bucket, ctx: Context)
    ensures CountOf([row] + rows, bucket, ctx) == (if InBucket(row, bucket, ctx) then 1 else 0) + CountOf(rows, bucket, ctx)
    ensures [] + rows == rows
  {
    assert ([row] + rows)[1..] == rows;
  }
}
