/** The directory paged by learner: b2b_dashboard/learner_queries.py, `learners`. */
module LearnerPages {
  import opened Common
  import opened SqlOrder
  import opened SqlGroups
  import opened LearnerRows
  import opened LearnerProgress
  import opened LearnerNesting

  datatype Request = Request(org: string, contract: int, filters: Filters)

  /** MIN over one text column, which skips NULLs. */
  function LesserText(a: Option<string>, b: Option<string>): Option<string> {
    if a.None? then b
    else if b.None? then a
    else if TextBefore(b.value, a.value) then b
    else a
  }

  function MinName(rows: seq<Row>, id: string): Option<string> {
    if rows == [] then None
    else if rows[0].learnerId == Some(id) then LesserText(rows[0].fullName, MinName(rows[1..], id))
    else MinName(rows[1..], id)
  }

  function MinEmail(rows: seq<Row>, id: string): Option<string> {
    if rows == [] then None
    else if rows[0].learnerId == Some(id) then LesserText(rows[0].email, MinEmail(rows[1..], id))
    else MinEmail(rows[1..], id)
  }

  function NamesOf(rows: seq<Row>, id: string): set<string> {
    set row | row in rows && row.learnerId == Some(id) && row.fullName.Some? :: row.fullName.value
  }

  function EmailsOf(rows: seq<Row>, id: string): set<string> {
    set row | row in rows && row.learnerId == Some(id) && row.email.Some? :: row.email.value
  }

  ghost predicate IsLeast(least: Option<string>, texts: set<string>) {
    if least.None? then texts == {} else least.value in texts && forall t | t in texts :: !TextBefore(t, least.value)
  }

  lemma LesserTextIsLeast(a: Option<string>, b: Option<string>, texts: set<string>)
    requires IsLeast(b, texts)
    ensures IsLeast(LesserText(a, b), texts + if a.Some? then {a.value} else {})
  {
    var least := LesserText(a, b);
    if a.Some? {
      TextOrderIsTotal(a.value, a.value);
      forall t | t in texts
        ensures !TextBefore(t, least.value)
      {
        TextOrderIsTotal(a.value, b.value);
        if TextBefore(t, a.value) && a.value != b.value && least == a {
          TextOrderIsTransitive(t, a.value, b.value);
        }
      }
      if least == b {
        TextOrderIsTotal(a.value, b.value);
      }
    }
  }

  /** A learner sorts by their least name and email among the matching rows, and
      as nameless only when every such row is. */
  lemma {:induction false} LearnersSortByLeastTexts(rows: seq<Row>, id: string)
    ensures IsLeast(MinName(rows, id), NamesOf(rows, id)) && IsLeast(MinEmail(rows, id), EmailsOf(rows, id))
  {
    if rows != [] {
      LearnersSortByLeastTexts(rows[1..], id);
      var row, names, emails := rows[0], NamesOf(rows[1..], id), EmailsOf(rows[1..], id);
      assert forall r :: r in rows <==> r == row || r in rows[1..];
      if row.learnerId == Some(id) {
        LesserTextIsLeast(row.fullName, MinName(rows[1..], id), names);
        LesserTextIsLeast(row.email, MinEmail(rows[1..], id), emails);
        assert NamesOf(rows, id) == names + if row.fullName.Some? then {row.fullName.value} else {};
        assert EmailsOf(rows, id) == emails + if row.email.Some? then {row.email.value} else {};
      } else {
        assert NamesOf(rows, id) == names && EmailsOf(rows, id) == emails;
      }
    }
  }

  function LearnerIds(rows: seq<Row>): seq<string> {
    if rows == [] then []
    else (if rows[0].learnerId.Some? then [rows[0].learnerId.value] else []) + LearnerIds(rows[1..])
  }

  /** _LEARNER_ORDER. */
  function LearnerKey(matched: seq<Row>, id: string): SortKey {
    var name, email := TextValue(MinName(matched, id)), TextValue(MinEmail(matched, id));
    [Asc(Flag(name.Null?)), Asc(name), Asc(Flag(email.Null?)), Asc(email), Asc(Text(id))]
  }

  function Groups(ids: seq<string>, matched: seq<Row>): Keyed<string> {
    if ids == [] then [] else [(LearnerKey(matched, ids[0]), ids[0])] + Groups(ids[1..], matched)
  }

  function ActiveRecords(table: seq<Row>, req: Request): (rows: seq<Row>)
    ensures forall row | row in rows :: row.learnerId.Some?
  {
    Records(table, req.org, req.contract, false)
  }

  function MatchedRows(table: seq<Row>, req: Request, ctx: Context): (rows: seq<Row>)
    ensures forall row | row in rows :: row.learnerId.Some?
  {
    MatchedHaveIds(ActiveRecords(table, req), req.filters, ctx);
    Matching(ActiveRecords(table, req), req.filters, ctx)
  }

  /** The `matched` subquery in _LEARNER_ORDER, before LIMIT. */
  function Directory(table: seq<Row>, req: Request, ctx: Context): Keyed<string> {
    var matched := MatchedRows(table, req, ctx);
    Sort(Groups(Distinct(LearnerIds(matched)), matched))
  }

  /** One learner's rows of the join, keyed by the final ORDER BY. */
  function JoinOne(entry: (SortKey, string), records: seq<Row>, ctx: Context): Keyed<OutRow>
    requires forall row | row in records :: row.learnerId.Some?
  {
    if records == [] then []
    else
      assert records[0] in records;
      if records[0].learnerId == Some(entry.1) then
        [(entry.0 + [Asc(TextValue(records[0].courserun)), Asc(Num(records[0].courserunPk))], Project(records[0], ctx))]
        + JoinOne(entry, records[1..], ctx)
      else JoinOne(entry, records[1..], ctx)
  }

  function Join(paged: Keyed<string>, records: seq<Row>, ctx: Context): Keyed<OutRow>
    requires forall row | row in records :: row.learnerId.Some?
  {
    if paged == [] then [] else JoinOne(paged[0], records, ctx) + Join(paged[1..], records, ctx)
  }

  /** `records JOIN paged`, in order. */
  function JoinedRows(paged: Keyed<string>, records: seq<Row>, ctx: Context): seq<OutRow>
    requires forall row | row in records :: row.learnerId.Some?
  {
    Values(Sort(Join(paged, records, ctx)))
  }

  /** The page statement. */
  function PageRows(table: seq<Row>, req: Request, ctx: Context, limit: nat, offset: nat): seq<OutRow> {
    JoinedRows(Slice(Directory(table, req, ctx), offset, limit), ActiveRecords(table, req), ctx)
  }

  /** `COUNT(DISTINCT CASE WHEN ... THEN learner_id END)`. */
  function LearnersIn(rows: seq<Row>, bucket: Bucket, ctx: Context): set<string> {
    set row | row in rows && row.learnerId.Some? && InBucket(row, bucket, ctx) :: row.learnerId.value
  }

  function Total(table: seq<Row>, req: Request, ctx: Context, bucket: Bucket): nat {
    |LearnersIn(MatchedRows(table, req, ctx), bucket, ctx)|
  }

  /** A stored row that the request's filters let through. */
  ghost predicate IsWanted(row: Row, req: Request, ctx: Context) {
    Belongs(row, req.org, req.contract, false) && Meets(row, req.filters, ctx)
  }

  lemma MatchedRowsAre(table: seq<Row>, req: Request, ctx: Context, row: Row)
    ensures row in MatchedRows(table, req, ctx) <==> row in table && IsWanted(row, req, ctx)
  {
    RecordsCount(table, req.org, req.contract, false, row);
    MatchingCount(ActiveRecords(table, req), req.filters, ctx, row);
    assert row in MatchedRows(table, req, ctx) <==> multiset(MatchedRows(table, req, ctx))[row] > 0;
    assert row in table <==> multiset(table)[row] > 0;
  }

  /** Whom a count counts: the learners with a stored row let through of its kind. */
  lemma CountedLearnersAre(table: seq<Row>, req: Request, ctx: Context, bucket: Bucket, id: string)
    ensures id in LearnersIn(MatchedRows(table, req, ctx), bucket, ctx) <==>
            exists row :: row in table && row.learnerId == Some(id) && IsWanted(row, req, ctx) && IsCounted(row, bucket, ctx)
  {
    if row :| row in MatchedRows(table, req, ctx) && row.learnerId == Some(id) && InBucket(row, bucket, ctx) {
      MatchedRowsAre(table, req, ctx, row);
      BucketsCount(row, bucket, ctx);
    }
    if row :| row in table && row.learnerId == Some(id) && IsWanted(row, req, ctx) && IsCounted(row, bucket, ctx) {
      MatchedRowsAre(table, req, ctx, row);
      BucketsCount(row, bucket, ctx);
    }
  }

  // Paging.

  ghost predicate OneLearnerEach(entries: Keyed<string>) {
    && StrictlyAscending(entries)
    && (forall e | e in entries :: |e.0| == 5)
    && (forall i, j | 0 <= i < j < |entries| :: entries[i].1 != entries[j].1)
  }

  lemma {:induction false} GroupsAre(ids: seq<string>, matched: seq<Row>)
    ensures |Groups(ids, matched)| == |ids|
    ensures forall i | 0 <= i < |ids| :: Groups(ids, matched)[i] == (LearnerKey(matched, ids[i]), ids[i])
  {
    if ids != [] {
      GroupsAre(ids[1..], matched);
    }
  }

  lemma {:induction false} LearnerIdsAre(rows: seq<Row>, id: string)
    ensures id in LearnerIds(rows) <==> exists row :: row in rows && row.learnerId == Some(id)
  {
    if rows != [] {
      LearnerIdsAre(rows[1..], id);
      assert forall row :: row in rows <==> row == rows[0] || row in rows[1..];
    }
  }

  /** The directory holds each learner with a matching row once, in one order. */
  lemma DirectoryListsEachMatchOnce(table: seq<Row>, req: Request, ctx: Context)
    ensures OneLearnerEach(Directory(table, req, ctx))
    ensures |Directory(table, req, ctx)| == Total(table, req, ctx, Every)
    ensures forall key, id :: (key, id) in Directory(table, req, ctx) <==>
              && key == LearnerKey(MatchedRows(table, req, ctx), id)
              && exists row :: row in table && IsWanted(row, req, ctx) && row.learnerId == Some(id)
  {
    var matched := MatchedRows(table, req, ctx);
    var ids := Distinct(LearnerIds(matched));
    var groups := Groups(ids, matched);
    GroupsAre(ids, matched);
    DistinctDiffer(LearnerIds(matched));
    forall i, j | 0 <= i < j < |groups|
      ensures groups[i].0 != groups[j].0
    {
      assert groups[i].0[4] != groups[j].0[4];
    }
    SortIsStrict(groups);
    SortSorts(groups);
    var sorted := Sort(groups);
    forall e | e in sorted
      ensures e in groups && e == (LearnerKey(matched, e.1), e.1)
    {
      SortMembers(groups, e);
    }
    forall i, j | 0 <= i < j < |sorted|
      ensures sorted[i].1 != sorted[j].1
    {
      assert sorted[i] in sorted && sorted[j] in sorted && KeyBefore(sorted[i].0, sorted[j].0);
      KeyOrderIsTotal(sorted[i].0, sorted[j].0);
    }
    assert |multiset(sorted)| == |multiset(groups)|;
    forall id
      ensures id in LearnersIn(matched, Every, ctx) <==> id in LearnerIds(matched)
    {
      LearnerIdsAre(matched, id);
    }
    DistinctCount(LearnerIds(matched), LearnersIn(matched, Every, ctx));
    forall key, id
      ensures (key, id) in sorted <==>
              && key == LearnerKey(matched, id)
              && exists row :: row in table && IsWanted(row, req, ctx) && row.learnerId == Some(id)
    {
      DirectoryEntry(table, req, ctx, key, id);
    }
  }

  lemma DirectoryEntry(table: seq<Row>, req: Request, ctx: Context, key: SortKey, id: string)
    ensures (key, id) in Directory(table, req, ctx) <==>
            && key == LearnerKey(MatchedRows(table, req, ctx), id)
            && exists row :: row in table && IsWanted(row, req, ctx) && row.learnerId == Some(id)
  {
    var matched := MatchedRows(table, req, ctx);
    var ids := Distinct(LearnerIds(matched));
    SortMembers(Groups(ids, matched), (key, id));
    GroupsAre(ids, matched);
    LearnerIdsAre(matched, id);
    DistinctMembers(LearnerIds(matched), id);
    forall row
      ensures row in matched <==> row in table && IsWanted(row, req, ctx)
    {
      MatchedRowsAre(table, req, ctx, row);
    }
    if id in ids {
      var i :| 0 <= i < |ids| && ids[i] == id;
      assert Groups(ids, matched)[i] == (LearnerKey(matched, id), id);
    }
  }

  /** The directory's order: by name, the nameless last, then by email likewise,
      then by learner id. */
  ghost predicate LearnerBefore(matched: seq<Row>, p: string, q: string) {
    var n, m := MinName(matched, p), MinName(matched, q);
    var e, f := MinEmail(matched, p), MinEmail(matched, q);
    || TextComesFirst(n, m, false)
    || (n == m && (TextComesFirst(e, f, false) || (e == f && TextBefore(p, q))))
  }

  lemma LearnerTails(matched: seq<Row>, p: string, q: string)
    ensures KeyBefore(LearnerKey(matched, p)[4..], LearnerKey(matched, q)[4..]) <==> TextBefore(p, q)
    ensures KeyBefore(LearnerKey(matched, p)[2..], LearnerKey(matched, q)[2..]) <==>
            || TextComesFirst(MinEmail(matched, p), MinEmail(matched, q), false)
            || (MinEmail(matched, p) == MinEmail(matched, q) && TextBefore(p, q))
  {
    var k, l := LearnerKey(matched, p), LearnerKey(matched, q);
    var x, y := k[4..], l[4..];
    assert x[0] == Asc(Text(p)) && y[0] == Asc(Text(q)) && x[1..] == [] && y[1..] == [];
    assert k[3..][0] == k[3] && l[3..][0] == l[3] && k[3..][1..] == x && l[3..][1..] == y;
    assert k[2..][0] == k[2] && l[2..][0] == l[2] && k[2..][1..] == k[3..] && l[2..][1..] == l[3..];
    NullableTextOrders(MinEmail(matched, p), MinEmail(matched, q));
  }

  lemma NullableTextOrders(a: Option<string>, b: Option<string>)
    ensures var x, y := TextValue(a), TextValue(b);
            TextComesFirst(a, b, false) <==>
            CellBefore(Asc(Flag(x.Null?)), Asc(Flag(y.Null?))) || (x.Null? == y.Null? && CellBefore(Asc(x), Asc(y)))
    ensures TextValue(a) == TextValue(b) <==> a == b
  {
  }

  lemma LearnerOrderIs(matched: seq<Row>, p: string, q: string)
    ensures KeyBefore(LearnerKey(matched, p), LearnerKey(matched, q)) <==> LearnerBefore(matched, p, q)
  {
    var k, l := LearnerKey(matched, p), LearnerKey(matched, q);
    assert k[1..][0] == k[1] && l[1..][0] == l[1] && k[1..][1..] == k[2..] && l[1..][1..] == l[2..];
    LearnerTails(matched, p, q);
    NullableTextOrders(MinName(matched, p), MinName(matched, q));
  }

  /** Learners are listed by name, then email, then id. */
  lemma DirectoryIsInOrder(table: seq<Row>, req: Request, ctx: Context, i: nat, j: nat)
    requires i < j < |Directory(table, req, ctx)|
    ensures var directory := Directory(table, req, ctx);
            LearnerBefore(MatchedRows(table, req, ctx), directory[i].1, directory[j].1)
  {
    var directory := Directory(table, req, ctx);
    DirectoryListsEachMatchOnce(table, req, ctx);
    assert (directory[i].0, directory[i].1) in directory && (directory[j].0, directory[j].1) in directory;
    LearnerOrderIs(MatchedRows(table, req, ctx), directory[i].1, directory[j].1);
  }

  /** What a block of one learner's rows nests to. */
  function Block(entry: (SortKey, string), records: seq<Row>, ctx: Context): seq<OutRow>
    requires forall row | row in records :: row.learnerId.Some?
  {
    Values(Sort(JoinOne(entry, records, ctx)))
  }

  function LearnersOf(entries: Keyed<string>, records: seq<Row>, ctx: Context): seq<Learner>
    requires forall row | row in records :: row.learnerId.Some?
  {
    if entries == [] then []
    else
      var rows := Block(entries[0], records, ctx);
      if rows == [] then LearnersOf(entries[1..], records, ctx)
      else [NewLearner(rows)] + LearnersOf(entries[1..], records, ctx)
  }

  lemma {:induction false} JoinOneMembers(entry: (SortKey, string), records: seq<Row>, ctx: Context, x: (SortKey, OutRow))
    requires (forall row | row in records :: row.learnerId.Some?) && x in JoinOne(entry, records, ctx)
    ensures x.1.learnerId == entry.1 && |x.0| >= |entry.0| && x.0[..|entry.0|] == entry.0
  {
    if x !in JoinOne(entry, records[1..], ctx) {
      assert records[0] in records;
    } else {
      JoinOneMembers(entry, records[1..], ctx, x);
    }
  }

  lemma {:induction false} JoinMembers(paged: Keyed<string>, records: seq<Row>, ctx: Context, x: (SortKey, OutRow))
    requires (forall row | row in records :: row.learnerId.Some?) && x in Join(paged, records, ctx)
    ensures exists e :: e in paged && x in JoinOne(e, records, ctx)
  {
    if x in JoinOne(paged[0], records, ctx) {
      assert paged[0] in paged;
    } else {
      JoinMembers(paged[1..], records, ctx, x);
      var e :| e in paged[1..] && x in JoinOne(e, records, ctx);
      assert e in paged;
    }
  }

  lemma FirstLearnerComesFirst(paged: Keyed<string>, records: seq<Row>, ctx: Context)
    requires (forall row | row in records :: row.learnerId.Some?) && paged != [] && OneLearnerEach(paged)
    ensures Precedes(JoinOne(paged[0], records, ctx), Join(paged[1..], records, ctx))
  {
    forall x, y | x in JoinOne(paged[0], records, ctx) && y in Join(paged[1..], records, ctx)
      ensures KeyBefore(x.0, y.0)
    {
      JoinMembers(paged[1..], records, ctx, y);
      var e :| e in paged[1..] && y in JoinOne(e, records, ctx);
      var k :| 0 < k < |paged| && paged[k] == e;
      assert paged[0] in paged && paged[k] in paged;
      EarlierLearnersRows(paged[0], e, records, ctx, x, y);
    }
  }

  lemma EarlierLearnersRows(
    d: (SortKey, string), e: (SortKey, string), records: seq<Row>, ctx: Context, x: (SortKey, OutRow), y: (SortKey, OutRow))
    requires (forall row | row in records :: row.learnerId.Some?) && |d.0| == |e.0| && KeyBefore(d.0, e.0)
    requires x in JoinOne(d, records, ctx) && y in JoinOne(e, records, ctx)
    ensures KeyBefore(x.0, y.0)
  {
    JoinOneMembers(d, records, ctx, x);
    JoinOneMembers(e, records, ctx, y);
    var n := |d.0|;
    LongerKeysKeepOrder(d.0, e.0, x.0[n..], y.0[n..]);
    assert x.0 == d.0 + x.0[n..] && y.0 == e.0 + y.0[n..];
  }

  lemma BlockHasOneLearner(entry: (SortKey, string), records: seq<Row>, ctx: Context, row: OutRow)
    requires (forall r | r in records :: r.learnerId.Some?) && row in Block(entry, records, ctx)
    ensures row.learnerId == entry.1
  {
    var sorted := Sort(JoinOne(entry, records, ctx));
    var i :| 0 <= i < |sorted| && Values(sorted)[i] == row;
    SortMembers(JoinOne(entry, records, ctx), sorted[i]);
    JoinOneMembers(entry, records, ctx, sorted[i]);
  }

  lemma RestHasOtherLearners(paged: Keyed<string>, records: seq<Row>, ctx: Context, row: OutRow)
    requires (forall r | r in records :: r.learnerId.Some?) && paged != [] && OneLearnerEach(paged)
    requires row in Values(Sort(Join(paged[1..], records, ctx)))
    ensures row.learnerId != paged[0].1
  {
    var sorted := Sort(Join(paged[1..], records, ctx));
    var i :| 0 <= i < |sorted| && Values(sorted)[i] == row;
    SortMembers(Join(paged[1..], records, ctx), sorted[i]);
    JoinMembers(paged[1..], records, ctx, sorted[i]);
    var e :| e in paged[1..] && sorted[i] in JoinOne(e, records, ctx);
    JoinOneMembers(e, records, ctx, sorted[i]);
  }

  /** Nesting a page gives its learners, each with a whole block. */
  lemma {:induction false} PageNests(paged: Keyed<string>, records: seq<Row>, ctx: Context)
    requires (forall row | row in records :: row.learnerId.Some?) && OneLearnerEach(paged)
    ensures Nest(JoinedRows(paged, records, ctx)) == LearnersOf(paged, records, ctx)
  {
    if paged != [] {
      assert forall e | e in paged[1..] :: e in paged;
      PageNests(paged[1..], records, ctx);
      FirstBlockLeads(paged, records, ctx);
      FirstBlockNests(paged, records, ctx);
    }
  }

  lemma FirstBlockLeads(paged: Keyed<string>, records: seq<Row>, ctx: Context)
    requires (forall row | row in records :: row.learnerId.Some?) && paged != [] && OneLearnerEach(paged)
    ensures JoinedRows(paged, records, ctx) == Block(paged[0], records, ctx) + JoinedRows(paged[1..], records, ctx)
  {
    var first, rest := JoinOne(paged[0], records, ctx), Join(paged[1..], records, ctx);
    FirstLearnerComesFirst(paged, records, ctx);
    SortByBlocks(first, rest);
    ValuesOfPieces(Sort(first), Sort(rest));
  }

  lemma FirstBlockNests(paged: Keyed<string>, records: seq<Row>, ctx: Context)
    requires (forall row | row in records :: row.learnerId.Some?) && paged != [] && OneLearnerEach(paged)
    ensures var block, others := Block(paged[0], records, ctx), JoinedRows(paged[1..], records, ctx);
            Nest(block + others) == if block == [] then Nest(others) else [NewLearner(block)] + Nest(others)
  {
    var block, others := Block(paged[0], records, ctx), JoinedRows(paged[1..], records, ctx);
    if block == [] {
      assert block + others == others;
    } else {
      forall row | row in block ensures row.learnerId == paged[0].1 { BlockHasOneLearner(paged[0], records, ctx, row); }
      forall row | row in others ensures row.learnerId != paged[0].1 { RestHasOtherLearners(paged, records, ctx, row); }
      NestBlock(block, others, paged[0].1);
    }
  }

  lemma {:induction false} LearnersOfPieces(a: Keyed<string>, b: Keyed<string>, records: seq<Row>, ctx: Context)
    requires forall row | row in records :: row.learnerId.Some?
    ensures LearnersOf(a + b, records, ctx) == LearnersOf(a, records, ctx) + LearnersOf(b, records, ctx)
  {
    if a == [] {
      assert a + b == b;
    } else {
      LearnersOfPieces(a[1..], b, records, ctx);
      assert (a + b)[0] == a[0] && (a + b)[1..] == a[1..] + b;
      FirstOfLearners(a, records, ctx);
      FirstOfLearners(a + b, records, ctx);
      Associates(MaybeLearner(Block(a[0], records, ctx)), LearnersOf(a[1..], records, ctx), LearnersOf(b, records, ctx));
    }
  }

  lemma Associates<T>(a: seq<T>, b: seq<T>, c: seq<T>)
    ensures (a + b) + c == a + (b + c)
  {
  }

  function MaybeLearner(rows: seq<OutRow>): seq<Learner> {
    if rows == [] then [] else [NewLearner(rows)]
  }

  lemma FirstOfLearners(entries: Keyed<string>, records: seq<Row>, ctx: Context)
    requires (forall row | row in records :: row.learnerId.Some?) && entries != []
    ensures LearnersOf(entries, records, ctx) == MaybeLearner(Block(entries[0], records, ctx)) + LearnersOf(entries[1..], records, ctx)
  {
  }

  /** `f` at the start of each page, laid end to end. */
  function OfPages<U>(f: nat -> seq<U>, size: nat, count: nat): seq<U> {
    if count == 0 then [] else OfPages(f, size, count - 1) + f(PageStart(size, count - 1))
  }

  /** The responses for pages 0 to `count - 1`, laid end to end. */
  function NestedPages(table: seq<Row>, req: Request, ctx: Context, size: nat, count: nat): seq<Learner> {
    OfPages((offset: nat) => Nest(PageRows(table, req, ctx, size, offset)), size, count)
  }

  lemma {:induction false} PiecewiseOnPages<T, U>(rows: seq<T>, f: seq<T> -> seq<U>, g: nat -> seq<U>, size: nat, count: nat)
    requires f([]) == [] && forall a, b :: f(a + b) == f(a) + f(b)
    requires forall offset :: g(offset) == f(Slice(rows, offset, size))
    ensures OfPages(g, size, count) == f(Pages(rows, size, count))
  {
    if count > 0 {
      PiecewiseOnPages(rows, f, g, size, count - 1);
    }
  }

  lemma SliceKeepsOneEach(entries: Keyed<string>, offset: nat, limit: nat)
    requires OneLearnerEach(entries)
    ensures OneLearnerEach(Slice(entries, offset, limit))
  {
  }

  lemma OnePageNests(table: seq<Row>, req: Request, ctx: Context, limit: nat, offset: nat)
    ensures Nest(PageRows(table, req, ctx, limit, offset)) ==
            LearnersOf(Slice(Directory(table, req, ctx), offset, limit), ActiveRecords(table, req), ctx)
  {
    DirectoryListsEachMatchOnce(table, req, ctx);
    SliceKeepsOneEach(Directory(table, req, ctx), offset, limit);
    PageNests(Slice(Directory(table, req, ctx), offset, limit), ActiveRecords(table, req), ctx);
  }

  lemma NestedPagesListTheDirectory(table: seq<Row>, req: Request, ctx: Context, size: nat, count: nat)
    requires count * size >= |Directory(table, req, ctx)|
    ensures NestedPages(table, req, ctx, size, count) ==
            LearnersOf(Directory(table, req, ctx), ActiveRecords(table, req), ctx)
  {
    var directory, records := Directory(table, req, ctx), ActiveRecords(table, req);
    var f: Keyed<string> -> seq<Learner> := entries => LearnersOf(entries, records, ctx);
    var g: nat -> seq<Learner> := (offset: nat) => Nest(PageRows(table, req, ctx, size, offset));
    forall a, b
      ensures f(a + b) == f(a) + f(b)
    {
      LearnersOfPieces(a, b, records, ctx);
    }
    forall offset
      ensures g(offset) == f(Slice(directory, offset, size))
    {
      OnePageNests(table, req, ctx, size, offset);
    }
    PiecewiseOnPages(directory, f, g, size, count);
    PagesTile(directory, size, count);
  }

  /** Projections of one learner's records, in table order. */
  function RowsOf(records: seq<Row>, id: string, ctx: Context): seq<OutRow>
    requires forall row | row in records :: row.learnerId.Some?
  {
    if records == [] then []
    else
      assert records[0] in records;
      if records[0].learnerId == Some(id) then [Project(records[0], ctx)] + RowsOf(records[1..], id, ctx)
      else RowsOf(records[1..], id, ctx)
  }

  lemma {:induction false} JoinOneRows(entry: (SortKey, string), records: seq<Row>, ctx: Context)
    requires forall row | row in records :: row.learnerId.Some?
    ensures Values(JoinOne(entry, records, ctx)) == RowsOf(records, entry.1, ctx)
  {
    if records != [] {
      JoinOneRows(entry, records[1..], ctx);
    }
  }

  lemma BlockIsWhole(entry: (SortKey, string), records: seq<Row>, ctx: Context)
    requires forall row | row in records :: row.learnerId.Some?
    ensures multiset(Block(entry, records, ctx)) == multiset(RowsOf(records, entry.1, ctx))
  {
    JoinOneRows(entry, records, ctx);
    SortKeepsValues(JoinOne(entry, records, ctx));
  }

  lemma {:induction false} LearnersOfAre(entries: Keyed<string>, records: seq<Row>, ctx: Context)
    requires forall row | row in records :: row.learnerId.Some?
    requires forall e | e in entries :: Block(e, records, ctx) != []
    ensures |LearnersOf(entries, records, ctx)| == |entries|
    ensures forall i | 0 <= i < |entries| :: LearnersOf(entries, records, ctx)[i] == NewLearner(Block(entries[i], records, ctx))
  {
    if entries != [] {
      assert entries[0] in entries && forall e | e in entries[1..] :: e in entries;
      LearnersOfAre(entries[1..], records, ctx);
      FirstOfLearners(entries, records, ctx);
    }
  }

  lemma {:induction false} RecordsGiveRows(records: seq<Row>, id: string, ctx: Context)
    requires forall row | row in records :: row.learnerId.Some?
    requires exists row :: row in records && row.learnerId == Some(id)
    ensures RowsOf(records, id, ctx) != []
  {
    var row :| row in records && row.learnerId == Some(id);
    if records[0].learnerId != Some(id) {
      assert row in records[1..];
      RecordsGiveRows(records[1..], id, ctx);
    }
  }

  /** A listed learner has rows. */
  lemma BlockIsNotEmpty(table: seq<Row>, req: Request, ctx: Context, entry: (SortKey, string))
    requires entry in Directory(table, req, ctx)
    ensures Block(entry, ActiveRecords(table, req), ctx) != []
  {
    var records := ActiveRecords(table, req);
    DirectoryEntry(table, req, ctx, entry.0, entry.1);
    var row :| row in table && IsWanted(row, req, ctx) && row.learnerId == Some(entry.1);
    RecordsCount(table, req.org, req.contract, false, row);
    assert multiset(table)[row] > 0 && multiset(records)[row] > 0;
    RecordsGiveRows(records, entry.1, ctx);
    BlockIsWhole(entry, records, ctx);
    assert |multiset(Block(entry, records, ctx))| == |multiset(RowsOf(records, entry.1, ctx))|;
  }

  /** A learner's enrollments: by course run, one without a readable id first,
      then by its key. */
  ghost predicate RunBefore(a: Row, b: Row) {
    if a.courserun != b.courserun then a.courserun.None? || (b.courserun.Some? && TextBefore(a.courserun.value, b.courserun.value))
    else a.courserunPk < b.courserunPk
  }

  function RunKey(row: Row): SortKey {
    [Asc(TextValue(row.courserun)), Asc(Num(row.courserunPk))]
  }

  lemma RunKeysOrder(a: Row, b: Row)
    ensures KeyBefore(RunKey(a), RunKey(b)) <==> RunBefore(a, b)
  {
    var v, w := RunKey(a), RunKey(b);
    var x, y := v[1..], w[1..];
    assert x[0] == Asc(Num(a.courserunPk)) && y[0] == Asc(Num(b.courserunPk)) && x[1..] == [] && y[1..] == [];
    assert KeyBefore(x, y) <==> a.courserunPk < b.courserunPk;
    assert v[0] == Asc(TextValue(a.courserun)) && w[0] == Asc(TextValue(b.courserun));
    assert v[0] == w[0] <==> a.courserun == b.courserun;
    if a.courserun.Some? && b.courserun.Some? {
      TextOrderIsTotal(a.courserun.value, b.courserun.value);
    }
  }

  lemma RunOrderIs(prefix: SortKey, a: Row, b: Row)
    ensures KeyBefore(prefix + RunKey(a), prefix + RunKey(b)) <==> RunBefore(a, b)
    decreases |prefix|
  {
    var v, w := RunKey(a), RunKey(b);
    if prefix == [] {
      assert prefix + v == v && prefix + w == w;
      RunKeysOrder(a, b);
    } else {
      RunOrderIs(prefix[1..], a, b);
      assert (prefix + v)[1..] == prefix[1..] + v && (prefix + w)[1..] == prefix[1..] + w;
      CellOrderIsTotal(prefix[0], prefix[0]);
    }
  }

  function JoinSources(entry: (SortKey, string), records: seq<Row>): Keyed<Row> {
    if records == [] then []
    else if records[0].learnerId == Some(entry.1) then [(entry.0 + RunKey(records[0]), records[0])] + JoinSources(entry, records[1..])
    else JoinSources(entry, records[1..])
  }

  lemma {:induction false} JoinInStep(entry: (SortKey, string), records: seq<Row>, ctx: Context, carries: (OutRow, Row) -> bool)
    requires (forall row | row in records :: row.learnerId.Some?) && forall out, row :: carries(out, row) == Carries(out, row, ctx)
    ensures InStep(JoinOne(entry, records, ctx), JoinSources(entry, records), carries)
  {
    if records != [] {
      assert records[0] in records;
      ProjectCarries(records[0], ctx);
      JoinInStep(entry, records[1..], ctx, carries);
    }
  }

  lemma {:induction false} JoinSourcesCount(entry: (SortKey, string), records: seq<Row>, row: Row)
    ensures multiset(Values(JoinSources(entry, records)))[row] == if row.learnerId == Some(entry.1) then multiset(records)[row] else 0
  {
    if records != [] {
      JoinSourcesCount(entry, records[1..], row);
      assert records == [records[0]] + records[1..];
      if records[0].learnerId == Some(entry.1) {
        ValuesCons((entry.0 + RunKey(records[0]), records[0]), JoinSources(entry, records[1..]));
      }
    }
  }

  lemma {:induction false} JoinSourceKeys(entry: (SortKey, string), records: seq<Row>, x: (SortKey, Row))
    requires x in JoinSources(entry, records)
    ensures x.0 == entry.0 + RunKey(x.1)
  {
    if x in JoinSources(entry, records[1..]) {
      JoinSourceKeys(entry, records[1..], x);
    }
  }

  /** `learner` has exactly `rows` for enrollments: all the active ones stored
      under the contract, each as often as stored and as it is stored but for
      what is not shared, by course run; and the first row's name and email. */
  ghost predicate HasEnrollments(learner: Learner, rows: seq<Row>, table: seq<Row>, req: Request, ctx: Context) {
    && |learner.enrollments| == |rows| > 0
    && (forall i | 0 <= i < |rows| :: Carries(learner.enrollments[i], rows[i], ctx))
    && (forall row :: multiset(rows)[row] ==
          if Belongs(row, req.org, req.contract, false) && row.learnerId == Some(learner.id) then multiset(table)[row] else 0)
    && (forall i, j | 0 <= i < j < |rows| :: !RunBefore(rows[j], rows[i]))
    && learner.email == rows[0].email && learner.fullName == rows[0].fullName
  }

  lemma BlockHasEnrollments(table: seq<Row>, req: Request, ctx: Context, entry: (SortKey, string)) returns (rows: seq<Row>)
    requires entry in Directory(table, req, ctx)
    ensures var block := Block(entry, ActiveRecords(table, req), ctx);
            block != [] && NewLearner(block).id == entry.1 && HasEnrollments(NewLearner(block), rows, table, req, ctx)
  {
    var records := ActiveRecords(table, req);
    var block := Block(entry, records, ctx);
    BlockIsNotEmpty(table, req, ctx, entry);
    BlockHasOneLearner(entry, records, ctx, block[0]);
    rows := BlockRows(entry, records, ctx);
    forall row
      ensures multiset(rows)[row] ==
              if Belongs(row, req.org, req.contract, false) && row.learnerId == Some(entry.1) then multiset(table)[row] else 0
    {
      RecordsCount(table, req.org, req.contract, false, row);
    }
  }

  /** The rows a block carries, in its order. */
  lemma BlockRows(entry: (SortKey, string), records: seq<Row>, ctx: Context) returns (rows: seq<Row>)
    requires forall row | row in records :: row.learnerId.Some?
    ensures |Block(entry, records, ctx)| == |rows|
    ensures forall i | 0 <= i < |rows| :: Carries(Block(entry, records, ctx)[i], rows[i], ctx)
    ensures forall row :: multiset(rows)[row] == if row.learnerId == Some(entry.1) then multiset(records)[row] else 0
    ensures forall i, j | 0 <= i < j < |rows| :: !RunBefore(rows[j], rows[i])
  {
    var carries := (out: OutRow, row: Row) => Carries(out, row, ctx);
    var sources := JoinSources(entry, records);
    JoinInStep(entry, records, ctx, carries);
    SortInStep(JoinOne(entry, records, ctx), sources, carries);
    rows := Values(Sort(sources));
    SortKeepsValues(sources);
    forall row
      ensures multiset(rows)[row] == if row.learnerId == Some(entry.1) then multiset(records)[row] else 0
    {
      JoinSourcesCount(entry, records, row);
    }
    SortSorts(sources);
    forall i, j | 0 <= i < j < |rows|
      ensures !RunBefore(rows[j], rows[i])
    {
      SortedRuns(entry, records, i, j);
    }
  }

  lemma SortedRuns(entry: (SortKey, string), records: seq<Row>, i: nat, j: nat)
    requires i < j < |Sort(JoinSources(entry, records))| && Ascending(Sort(JoinSources(entry, records)))
    ensures var sorted := Sort(JoinSources(entry, records)); !RunBefore(sorted[j].1, sorted[i].1)
  {
    var sources := JoinSources(entry, records);
    var sorted := Sort(sources);
    SortMembers(sources, sorted[i]);
    SortMembers(sources, sorted[j]);
    JoinSourceKeys(entry, records, sorted[i]);
    JoinSourceKeys(entry, records, sorted[j]);
    RunOrderIs(entry.0, sorted[j].1, sorted[i].1);
  }

  /** Walking the pages and nesting each gives every matching learner exactly
      once, in the directory's order, as many as total_count says, and each with
      every active enrollment of theirs, the ones that did not match included. */
  lemma PagesCoverEveryLearner(table: seq<Row>, req: Request, ctx: Context, size: nat, count: nat)
    requires count * size >= Total(table, req, ctx, Every)
    ensures var learners := NestedPages(table, req, ctx, size, count);
            var directory := Directory(table, req, ctx);
            && |learners| == |directory| == Total(table, req, ctx, Every)
            && forall i | 0 <= i < |learners| ::
                 learners[i].id == directory[i].1 && exists rows :: HasEnrollments(learners[i], rows, table, req, ctx)
  {
    var directory, records := Directory(table, req, ctx), ActiveRecords(table, req);
    DirectoryListsEachMatchOnce(table, req, ctx);
    NestedPagesListTheDirectory(table, req, ctx, size, count);
    forall e | e in directory
      ensures Block(e, records, ctx) != []
    {
      BlockIsNotEmpty(table, req, ctx, e);
    }
    LearnersOfAre(directory, records, ctx);
    var learners := NestedPages(table, req, ctx, size, count);
    forall i | 0 <= i < |learners|
      ensures learners[i].id == directory[i].1 && exists rows :: HasEnrollments(learners[i], rows, table, req, ctx)
    {
      assert directory[i] in directory;
      var rows := BlockHasEnrollments(table, req, ctx, directory[i]);
    }
  }

  // Shared outcomes do show.

  lemma {:induction false} RowsOfPieces(a: seq<Row>, b: seq<Row>, id: string, ctx: Context)
    requires (forall row | row in a :: row.learnerId.Some?) && (forall row | row in b :: row.learnerId.Some?)
    requires forall row | row in a + b :: row.learnerId.Some?
    ensures RowsOf(a + b, id, ctx) == RowsOf(a, id, ctx) + RowsOf(b, id, ctx)
  {
    if a == [] {
      assert a + b == b;
    } else {
      assert (a + b)[0] == a[0] && (a + b)[1..] == a[1..] + b;
      RowsOfPieces(a[1..], b, id, ctx);
    }
  }

  /** One learner's projected rows, counted. */
  function Shown(table: seq<Row>, req: Request, ctx: Context, id: string): multiset<OutRow> {
    multiset(RowsOf(ActiveRecords(table, req), id, ctx))
  }

  lemma ShownOfPieces(a: seq<Row>, b: seq<Row>, req: Request, ctx: Context, id: string)
    ensures Shown(a + b, req, ctx, id) == Shown(a, req, ctx, id) + Shown(b, req, ctx, id)
  {
    RecordsOfPieces(a, b, req.org, req.contract, false);
    RowsOfPieces(ActiveRecords(a, req), ActiveRecords(b, req), id, ctx);
  }

  lemma ShownAround(before: seq<Row>, row: Row, after: seq<Row>, req: Request, ctx: Context, id: string)
    requires Belongs(row, req.org, req.contract, false) && row.learnerId == Some(id)
    ensures Shown(before + ([row] + after), req, ctx, id) ==
            Shown(before, req, ctx, id) + multiset{Project(row, ctx)} + Shown(after, req, ctx, id)
  {
    ShownOfPieces(before, [row] + after, req, ctx, id);
    ShownOfPieces([row], after, req, ctx, id);
    RecordOfOne(row, req.org, req.contract, false);
    assert [row][1..] == [];
    assert RowsOf([row], id, ctx) == [Project(row, ctx)];
  }

  /** What a full page shows of one listed learner. */
  lemma FullPageShows(table: seq<Row>, req: Request, ctx: Context, limit: nat, id: string)
    requires |Directory(table, req, ctx)| <= limit && (LearnerKey(MatchedRows(table, req, ctx), id), id) in Directory(table, req, ctx)
    ensures exists learner :: learner in Nest(PageRows(table, req, ctx, limit, 0)) && learner.id == id
    ensures forall learner | learner in Nest(PageRows(table, req, ctx, limit, 0)) && learner.id == id ::
              multiset(learner.enrollments) == Shown(table, req, ctx, id)
  {
    var directory, records := Directory(table, req, ctx), ActiveRecords(table, req);
    OnePageNests(table, req, ctx, limit, 0);
    assert Slice(directory, 0, limit) == directory;
    forall e | e in directory
      ensures Block(e, records, ctx) != []
    {
      BlockIsNotEmpty(table, req, ctx, e);
    }
    LearnersOfAre(directory, records, ctx);
    var learners := LearnersOf(directory, records, ctx);
    forall i | 0 <= i < |directory|
      ensures learners[i].id == directory[i].1 && multiset(learners[i].enrollments) == Shown(table, req, ctx, directory[i].1)
    {
      assert directory[i] in directory;
      BlockHasOneLearner(directory[i], records, ctx, Block(directory[i], records, ctx)[0]);
      BlockIsWhole(directory[i], records, ctx);
    }
    var k :| 0 <= k < |directory| && directory[k] == (LearnerKey(MatchedRows(table, req, ctx), id), id);
    assert learners[k] in learners;
  }

  /** The converse of WithheldOutcomesDoNotShow: change what a shared enrollment
      of a listed learner says of its outcomes, and some page changes. */
  lemma SharedOutcomesShow(a: seq<Row>, b: seq<Row>, i: nat, req: Request, ctx: Context)
    requires i < |a| && DifferInOutcomesAt(a, b, i, ctx) && HasShared(a[i], ctx) && Belongs(a[i], req.org, req.contract, false)
    requires exists row :: row in a && IsWanted(row, req, ctx) && row.learnerId == a[i].learnerId
    ensures exists limit, offset :: PageRows(a, req, ctx, limit, offset) != PageRows(b, req, ctx, limit, offset)
  {
    var id := a[i].learnerId.value;
    SplitAround(a, b, i);
    ShownAround(a[..i], a[i], a[i + 1..], req, ctx, id);
    ShownAround(a[..i], b[i], a[i + 1..], req, ctx, id);
    ProjectionsDiffer(a[i], b[i], ctx);
    assert Shown(a, req, ctx, id)[Project(a[i], ctx)] == Shown(b, req, ctx, id)[Project(a[i], ctx)] + 1;
    ShownDiffers(a, b, req, ctx, id);
  }

  lemma ProjectionsDiffer(x: Row, y: Row, ctx: Context)
    requires y == x.(outcomes := y.outcomes, needsAttentionSince := y.needsAttentionSince) && HasShared(x, ctx) && x.learnerId.Some?
    requires y.outcomes != x.outcomes || (AttentionIsDue(x, ctx) <==> !AttentionIsDue(y, ctx))
    ensures Project(x, ctx) != Project(y, ctx)
  {
    ProjectCarries(x, ctx);
    ProjectCarries(y, ctx);
    assert HasShared(y, ctx);
  }

  lemma ShownDiffers(a: seq<Row>, b: seq<Row>, req: Request, ctx: Context, id: string)
    requires Shown(a, req, ctx, id) != Shown(b, req, ctx, id)
    requires exists row :: row in a && IsWanted(row, req, ctx) && row.learnerId == Some(id)
    ensures exists limit, offset :: PageRows(a, req, ctx, limit, offset) != PageRows(b, req, ctx, limit, offset)
  {
    var limit := |Directory(a, req, ctx)| + |Directory(b, req, ctx)|;
    DirectoryEntry(a, req, ctx, LearnerKey(MatchedRows(a, req, ctx), id), id);
    DirectoryEntry(b, req, ctx, LearnerKey(MatchedRows(b, req, ctx), id), id);
    FullPageShows(a, req, ctx, limit, id);
    var learner :| learner in Nest(PageRows(a, req, ctx, limit, 0)) && learner.id == id;
    if PageRows(a, req, ctx, limit, 0) == PageRows(b, req, ctx, limit, 0) {
      NestedLearnersAreListed(b, req, ctx, limit, learner);
      FullPageShows(b, req, ctx, limit, id);
      assert false;
    }
  }

  lemma NestedLearnersAreListed(table: seq<Row>, req: Request, ctx: Context, limit: nat, learner: Learner)
    requires |Directory(table, req, ctx)| <= limit && learner in Nest(PageRows(table, req, ctx, limit, 0))
    ensures (LearnerKey(MatchedRows(table, req, ctx), learner.id), learner.id) in Directory(table, req, ctx)
  {
    var directory, records := Directory(table, req, ctx), ActiveRecords(table, req);
    OnePageNests(table, req, ctx, limit, 0);
    assert Slice(directory, 0, limit) == directory;
    forall e | e in directory
      ensures Block(e, records, ctx) != []
    {
      BlockIsNotEmpty(table, req, ctx, e);
    }
    LearnersOfAre(directory, records, ctx);
    var learners := LearnersOf(directory, records, ctx);
    var k :| 0 <= k < |learners| && learners[k] == learner;
    BlockHasOneLearner(directory[k], records, ctx, Block(directory[k], records, ctx)[0]);
    assert (directory[k].0, directory[k].1) in directory;
    DirectoryEntry(table, req, ctx, directory[k].0, directory[k].1);
  }

  // Consent.

  lemma {:induction false} RedactedGroups(rows: seq<Row>, id: string, ctx: Context)
    ensures MinName(RedactAll(rows, ctx), id) == MinName(rows, id)
    ensures MinEmail(RedactAll(rows, ctx), id) == MinEmail(rows, id)
    ensures LearnerIds(RedactAll(rows, ctx)) == LearnerIds(rows)
  {
    if rows != [] {
      RedactedGroups(rows[1..], id, ctx);
      var redacted := RedactAll(rows, ctx);
      assert redacted[0] == Redact(rows[0], ctx) && redacted[1..] == RedactAll(rows[1..], ctx);
    }
  }

  lemma {:induction false} RedactedKeys(ids: seq<string>, rows: seq<Row>, ctx: Context)
    ensures Groups(ids, RedactAll(rows, ctx)) == Groups(ids, rows)
  {
    if ids != [] {
      RedactedKeys(ids[1..], rows, ctx);
      RedactedGroups(rows, ids[0], ctx);
    }
  }

  lemma {:induction false} RedactedJoinOne(entry: (SortKey, string), records: seq<Row>, ctx: Context)
    requires forall row | row in records :: row.learnerId.Some?
    requires forall row | row in RedactAll(records, ctx) :: row.learnerId.Some?
    ensures JoinOne(entry, RedactAll(records, ctx), ctx) == JoinOne(entry, records, ctx)
  {
    if records != [] {
      var redacted := RedactAll(records, ctx);
      assert redacted[0] == Redact(records[0], ctx) && redacted[1..] == RedactAll(records[1..], ctx);
      assert records[0] in records;
      RedactedJoinOne(entry, records[1..], ctx);
      RedactedRowLooksTheSame(records[0], NO_FILTERS, ctx);
    }
  }

  lemma {:induction false} RedactedJoin(paged: Keyed<string>, records: seq<Row>, ctx: Context)
    requires forall row | row in records :: row.learnerId.Some?
    requires forall row | row in RedactAll(records, ctx) :: row.learnerId.Some?
    ensures Join(paged, RedactAll(records, ctx), ctx) == Join(paged, records, ctx)
  {
    if paged != [] {
      RedactedJoin(paged[1..], records, ctx);
      RedactedJoinOne(paged[0], records, ctx);
    }
  }

  lemma {:induction false} RedactedLearnersIn(rows: seq<Row>, bucket: Bucket, ctx: Context)
    ensures LearnersIn(RedactAll(rows, ctx), bucket, ctx) == LearnersIn(rows, bucket, ctx)
  {
    if rows != [] {
      var redacted := RedactAll(rows, ctx);
      assert redacted[0] == Redact(rows[0], ctx) && redacted[1..] == RedactAll(rows[1..], ctx);
      RedactedLearnersIn(rows[1..], bucket, ctx);
      LearnersInCons(rows, bucket, ctx);
      LearnersInCons(redacted, bucket, ctx);
    }
  }

  lemma LearnersInCons(rows: seq<Row>, bucket: Bucket, ctx: Context)
    requires rows != []
    ensures LearnersIn(rows, bucket, ctx) ==
            LearnersIn(rows[1..], bucket, ctx)
            + if rows[0].learnerId.Some? && InBucket(rows[0], bucket, ctx) then {rows[0].learnerId.value} else {}
  {
    assert forall row :: row in rows <==> row == rows[0] || row in rows[1..];
  }

  lemma RedactedDirectory(table: seq<Row>, req: Request, ctx: Context)
    ensures ActiveRecords(RedactAll(table, ctx), req) == RedactAll(ActiveRecords(table, req), ctx)
    ensures MatchedRows(RedactAll(table, ctx), req, ctx) == RedactAll(MatchedRows(table, req, ctx), ctx)
    ensures Directory(RedactAll(table, ctx), req, ctx) == Directory(table, req, ctx)
  {
    var matched := MatchedRows(table, req, ctx);
    RedactedRecords(table, req.org, req.contract, false, ctx);
    RedactedMatching(ActiveRecords(table, req), req.filters, ctx);
    RedactedGroups(matched, "", ctx);
    RedactedKeys(Distinct(LearnerIds(matched)), matched, ctx);
  }

  lemma RedactionChangesNoPage(table: seq<Row>, req: Request, ctx: Context, limit: nat, offset: nat)
    ensures PageRows(RedactAll(table, ctx), req, ctx, limit, offset) == PageRows(table, req, ctx, limit, offset)
  {
    RedactedDirectory(table, req, ctx);
    RedactedJoin(Slice(Directory(table, req, ctx), offset, limit), ActiveRecords(table, req), ctx);
  }

  /** Nor does paging by learner tell a withheld outcome. */
  lemma WithheldOutcomesDoNotShow(a: seq<Row>, b: seq<Row>, req: Request, ctx: Context)
    requires DifferOnlyInWithheld(a, b, ctx)
    ensures forall limit, offset :: PageRows(a, req, ctx, limit, offset) == PageRows(b, req, ctx, limit, offset)
    ensures forall bucket :: Total(a, req, ctx, bucket) == Total(b, req, ctx, bucket)
  {
    RedactionHidesExactlyThat(a, b, ctx);
    forall limit, offset
      ensures PageRows(a, req, ctx, limit, offset) == PageRows(b, req, ctx, limit, offset)
    {
      RedactionChangesNoPage(a, req, ctx, limit, offset);
      RedactionChangesNoPage(b, req, ctx, limit, offset);
    }
    RedactedDirectory(a, req, ctx);
    RedactedDirectory(b, req, ctx);
    forall bucket
      ensures Total(a, req, ctx, bucket) == Total(b, req, ctx, bucket)
    {
      RedactedLearnersIn(MatchedRows(a, req, ctx), bucket, ctx);
      RedactedLearnersIn(MatchedRows(b, req, ctx), bucket, ctx);
    }
  }
}
