/** The rows under the dashboard's learner endpoints and the filters over them:
    b2b_dashboard/learner_queries.py, `_records`, `_where`, `_projection`. */
module LearnerRows {
  import opened Common
  import opened SqlLogic
  import opened Consent
  import opened LikePattern

  type Date = int

  /** The gated columns: the completion status, and the rest in projection order. */
  datatype Outcomes = Outcomes(status: Option<string>, others: seq<Option<int>>)

  const NO_OUTCOMES := Outcomes(None, [])

  /** One row of mv_b2b_learner_enrollment. */
  datatype Row = Row(
    userPk: int,
    courserunPk: int,
    org: Option<string>,
    contract: Option<int>,
    learnerId: Option<string>,
    email: Option<string>,
    fullName: Option<string>,
    courserun: Option<string>,
    enrolledOn: Option<int>,
    active: bool,
    decision: Decision,
    outcomes: Outcomes,
    needsAttentionSince: Option<Date>)

  /** What a request fixes before it reads a row: the deployment's default for
      unanswered consent, and the one date the request resolved. */
  datatype Context = Context(failOpen: bool, today: Date)

  predicate Shared(row: Row, ctx: Context) {
    OutcomesShared(row.decision, ctx.failOpen)
  }

  /** `COALESCE(needs_attention_since <= today, FALSE)`. */
  predicate NeedsAttention(row: Row, ctx: Context) {
    row.needsAttentionSince.Some? && row.needsAttentionSince.value <= ctx.today
  }

  /** The inner `records` select: the scope, and learners with no id left out. */
  predicate InRecords(row: Row, org: string, contract: int, includeInactive: bool) {
    && Holds(And3(Eq3(row.org, org), Eq3(row.contract, contract)))
    && row.learnerId.Some?
    && (includeInactive || row.active)
  }

  function Records(table: seq<Row>, org: string, contract: int, includeInactive: bool): (rows: seq<Row>)
    ensures forall row | row in rows :: row.learnerId.Some?
  {
    if table == [] then []
    else (if InRecords(table[0], org, contract, includeInactive) then [table[0]] else [])
         + Records(table[1..], org, contract, includeInactive)
  }

  const UNKNOWN := "unknown"

  datatype Filters = Filters(
    search: Option<string>,
    completionStatuses: seq<string>,
    courseruns: seq<string>,
    needsAttention: Option<bool>)

  const NO_FILTERS := Filters(None, [], [], None)

  /** One conjunct of the WHERE clause. */
  datatype Predicate =
    | NameLike(pattern: string)
    | CourserunIn(ids: seq<string>)
    | StatusIn(known: seq<string>, orWithheld: bool)
    | Attention(wanted: bool)

  function Like3(s: Option<string>, pattern: string): Tri {
    if s.None? then None else Some(Like(Lower(s.value), pattern))
  }

  function Evaluate(p: Predicate, row: Row, ctx: Context): Tri {
    match p
    case NameLike(pattern) => Or3(Like3(row.email, pattern), Like3(row.fullName, pattern))
    case CourserunIn(ids) => In3(row.courserun, ids)
    case StatusIn(known, orWithheld) =>
      var shared := Some(Shared(row, ctx));
      var ofStatus := And3(shared, In3(row.outcomes.status, known));
      if known == [] then Not3(shared)
      else if orWithheld then Or3(ofStatus, Not3(shared))
      else ofStatus
    case Attention(wanted) =>
      var attention := Some(NeedsAttention(row, ctx));
      And3(Some(Shared(row, ctx)), if wanted then attention else Not3(attention))
  }

  function KnownStatuses(statuses: seq<string>): seq<string> {
    if statuses == [] then []
    else (if statuses[0] == UNKNOWN then [] else [statuses[0]]) + KnownStatuses(statuses[1..])
  }

  function SearchPart(f: Filters): seq<Predicate> {
    if f.search.GetOr("") != "" then [NameLike(ContainsPattern(f.search.value))] else []
  }

  function CourserunPart(f: Filters): seq<Predicate> {
    if f.courseruns != [] then [CourserunIn(f.courseruns)] else []
  }

  function StatusPart(f: Filters): seq<Predicate> {
    if f.completionStatuses != [] then [StatusIn(KnownStatuses(f.completionStatuses), UNKNOWN in f.completionStatuses)] else []
  }

  function AttentionPart(f: Filters): seq<Predicate> {
    if f.needsAttention.Some? then [Attention(f.needsAttention.value)] else []
  }

  function WherePredicates(f: Filters): seq<Predicate> {
    SearchPart(f) + CourserunPart(f) + StatusPart(f) + AttentionPart(f)
  }

  lemma {:induction false} KnownOneMore(statuses: seq<string>, status: string)
    ensures KnownStatuses(statuses + [status]) == KnownStatuses(statuses) + if status == UNKNOWN then [] else [status]
  {
    if statuses == [] {
      assert statuses + [status] == [status] && [status][1..] == [];
    } else {
      KnownOneMore(statuses[1..], status);
      assert (statuses + [status])[0] == statuses[0] && (statuses + [status])[1..] == statuses[1..] + [status];
    }
  }

  method WithoutUnknown(statuses: seq<string>) returns (known: seq<string>)
    ensures known == KnownStatuses(statuses)
  {
    known := [];
    for i := 0 to |statuses|
      invariant known == KnownStatuses(statuses[..i])
    {
      assert statuses[..i + 1] == statuses[..i] + [statuses[i]];
      KnownOneMore(statuses[..i], statuses[i]);
      if statuses[i] != UNKNOWN {
        known := known + [statuses[i]];
      }
    }
    assert statuses[..|statuses|] == statuses;
  }

  /** `_where`, which appends to its list. */
  method BuildWhere(f: Filters) returns (predicates: seq<Predicate>)
    ensures predicates == WherePredicates(f)
  {
    predicates := [];
    if f.search.Some? && f.search.value != "" {
      predicates := predicates + [NameLike(ContainsPattern(f.search.value))];
    }
    assert predicates == SearchPart(f);
    if f.courseruns != [] {
      predicates := predicates + [CourserunIn(f.courseruns)];
    }
    assert predicates == SearchPart(f) + CourserunPart(f);
    if f.completionStatuses != [] {
      var known := WithoutUnknown(f.completionStatuses);
      predicates := predicates + [StatusIn(known, UNKNOWN in f.completionStatuses)];
    }
    assert predicates == SearchPart(f) + CourserunPart(f) + StatusPart(f);
    if f.needsAttention.Some? {
      predicates := predicates + [Attention(f.needsAttention.value)];
    }
  }

  predicate AllHold(predicates: seq<Predicate>, row: Row, ctx: Context) {
    forall p | p in predicates :: Holds(Evaluate(p, row, ctx))
  }

  predicate Selected(row: Row, f: Filters, ctx: Context) {
    AllHold(WherePredicates(f), row, ctx)
  }

  /** The learner's recorded answer, or the deployment's default without one. */
  ghost predicate HasShared(row: Row, ctx: Context) {
    match row.decision
    case Some(answer) => answer
    case None => ctx.failOpen
  }

  /** The day has come, the day itself included. */
  ghost predicate AttentionIsDue(row: Row, ctx: Context) {
    exists since :: row.needsAttentionSince == Some(since) && since <= ctx.today
  }

  ghost predicate MeetsSearch(row: Row, f: Filters) {
    f.search.GetOr("") != "" ==>
      || (row.email.Some? && Finds(row.email.value, f.search.value))
      || (row.fullName.Some? && Finds(row.fullName.value, f.search.value))
  }

  ghost predicate MeetsStatus(row: Row, f: Filters, ctx: Context) {
    f.completionStatuses != [] ==>
      if HasShared(row, ctx) then
        row.outcomes.status.Some? && row.outcomes.status.value != UNKNOWN && row.outcomes.status.value in f.completionStatuses
      else UNKNOWN in f.completionStatuses
  }

  ghost predicate MeetsAttention(row: Row, f: Filters, ctx: Context) {
    f.needsAttention.Some? ==> HasShared(row, ctx) && (f.needsAttention.value <==> AttentionIsDue(row, ctx))
  }

  /** What the clause comes to in the columns of one row, with three-valued logic
      worked out. */
  ghost predicate Meets(row: Row, f: Filters, ctx: Context) {
    && MeetsSearch(row, f)
    && (f.courseruns != [] ==> row.courserun.Some? && row.courserun.value in f.courseruns)
    && MeetsStatus(row, f, ctx)
    && MeetsAttention(row, f, ctx)
  }

  lemma {:induction false} KnownStatusesAre(statuses: seq<string>, s: string)
    ensures s in KnownStatuses(statuses) <==> s in statuses && s != UNKNOWN
    ensures KnownStatuses(statuses) == [] ==> statuses == [] || UNKNOWN in statuses
  {
    if statuses != [] {
      KnownStatusesAre(statuses[1..], s);
    }
  }

  lemma StatusPartMeans(row: Row, f: Filters, ctx: Context)
    ensures AllHold(StatusPart(f), row, ctx) <==> MeetsStatus(row, f, ctx)
  {
    var known := KnownStatuses(f.completionStatuses);
    KnownStatusesAre(f.completionStatuses, row.outcomes.status.GetOr(""));
    if f.completionStatuses != [] {
      assert StatusPart(f) == [StatusIn(known, UNKNOWN in f.completionStatuses)];
      assert StatusPart(f)[0] in StatusPart(f);
    }
  }

  lemma OtherPartsMean(row: Row, f: Filters, ctx: Context)
    ensures AllHold(SearchPart(f), row, ctx) <==> MeetsSearch(row, f)
    ensures AllHold(CourserunPart(f), row, ctx) <==> (f.courseruns != [] ==> row.courserun.Some? && row.courserun.value in f.courseruns)
    ensures AllHold(AttentionPart(f), row, ctx) <==> MeetsAttention(row, f, ctx)
  {
    if f.search.GetOr("") != "" {
      SearchIgnoresCase(row.email.GetOr(""), f.search.value);
      SearchIgnoresCase(row.fullName.GetOr(""), f.search.value);
    }
    assert forall parts: seq<Predicate>, p | parts == [p] :: AllHold(parts, row, ctx) <==> Holds(Evaluate(p, row, ctx)) by {
      forall parts: seq<Predicate>, p | parts == [p]
        ensures AllHold(parts, row, ctx) <==> Holds(Evaluate(p, row, ctx))
      {
        assert parts[0] in parts;
      }
    }
  }

  /** A withheld row meets a status filter only through `unknown`, and the
      needs-attention filter in neither direction. */
  lemma SelectedIffMeets(row: Row, f: Filters, ctx: Context)
    ensures Selected(row, f, ctx) <==> Meets(row, f, ctx)
  {
    StatusPartMeans(row, f, ctx);
    OtherPartsMean(row, f, ctx);
    assert forall p :: p in WherePredicates(f) <==>
        p in SearchPart(f) || p in CourserunPart(f) || p in StatusPart(f) || p in AttentionPart(f);
  }

  function Matching(rows: seq<Row>, f: Filters, ctx: Context): seq<Row> {
    if rows == [] then []
    else (if Selected(rows[0], f, ctx) then [rows[0]] else []) + Matching(rows[1..], f, ctx)
  }

  /** A row as it leaves the query. */
  datatype OutRow = OutRow(
    learnerId: string,
    email: Option<string>,
    fullName: Option<string>,
    courserun: Option<string>,
    enrolledOn: Option<int>,
    active: bool,
    consentStatus: ConsentStatus,
    outcomesShared: bool,
    outcomes: Outcomes,
    needsAttention: Option<bool>)

  /** Every outcome under `CASE WHEN shared THEN ... END`. */
  function Project(row: Row, ctx: Context): OutRow
    requires row.learnerId.Some?
  {
    var shared := Shared(row, ctx);
    OutRow(row.learnerId.value, row.email, row.fullName, row.courserun, row.enrolledOn, row.active, StatusOf(row.decision), shared,
           if shared then row.outcomes else NO_OUTCOMES,
           if shared then Some(NeedsAttention(row, ctx)) else None)
  }

  /** What a row of a response owes to the stored row it comes from: its columns
      as stored, the consent recorded, and the outcomes exactly when shared. */
  ghost predicate Carries(out: OutRow, row: Row, ctx: Context) {
    && row.learnerId == Some(out.learnerId)
    && out.email == row.email && out.fullName == row.fullName && out.courserun == row.courserun
    && out.enrolledOn == row.enrolledOn && out.active == row.active
    && (out.consentStatus.Consented? <==> row.decision == Some(true))
    && (out.consentStatus.Declined? <==> row.decision == Some(false))
    && (out.outcomesShared <==> HasShared(row, ctx))
    && (if HasShared(row, ctx) then out.outcomes == row.outcomes && out.needsAttention == Some(AttentionIsDue(row, ctx))
        else out.outcomes == NO_OUTCOMES && out.needsAttention == None)
  }

  lemma ProjectCarries(row: Row, ctx: Context)
    requires row.learnerId.Some?
    ensures Carries(Project(row, ctx), row, ctx)
  {
  }

  /** The rows of the inner select, by their columns. */
  ghost predicate Belongs(row: Row, org: string, contract: int, includeInactive: bool) {
    row.org == Some(org) && row.contract == Some(contract) && row.learnerId.Some? && (includeInactive || row.active)
  }

  lemma Associates(a: seq<Row>, b: seq<Row>, c: seq<Row>)
    ensures (a + b) + c == a + (b + c)
  {
  }

  lemma {:induction false} RecordsOfPieces(a: seq<Row>, b: seq<Row>, org: string, contract: int, includeInactive: bool)
    ensures Records(a + b, org, contract, includeInactive) ==
            Records(a, org, contract, includeInactive) + Records(b, org, contract, includeInactive)
  {
    if a == [] {
      assert a + b == b;
    } else {
      RecordsOfPieces(a[1..], b, org, contract, includeInactive);
      assert (a + b)[0] == a[0] && (a + b)[1..] == a[1..] + b;
      Associates(if InRecords(a[0], org, contract, includeInactive) then [a[0]] else [],
                 Records(a[1..], org, contract, includeInactive), Records(b, org, contract, includeInactive));
    }
  }

  lemma {:induction false} MatchingOfPieces(a: seq<Row>, b: seq<Row>, f: Filters, ctx: Context)
    ensures Matching(a + b, f, ctx) == Matching(a, f, ctx) + Matching(b, f, ctx)
  {
    if a == [] {
      assert a + b == b;
    } else {
      MatchingOfPieces(a[1..], b, f, ctx);
      assert (a + b)[0] == a[0] && (a + b)[1..] == a[1..] + b;
      Associates(if Selected(a[0], f, ctx) then [a[0]] else [], Matching(a[1..], f, ctx), Matching(b, f, ctx));
    }
  }

  lemma RecordOfOne(row: Row, org: string, contract: int, includeInactive: bool)
    ensures Records([row], org, contract, includeInactive) == if Belongs(row, org, contract, includeInactive) then [row] else []
  {
    assert [row][1..] == [];
    assert Records([row][1..], org, contract, includeInactive) == [];
    assert InRecords(row, org, contract, includeInactive) <==> Belongs(row, org, contract, includeInactive);
  }

  lemma MatchingOfOne(row: Row, f: Filters, ctx: Context)
    ensures Matching([row], f, ctx) == if Meets(row, f, ctx) then [row] else []
    ensures Matching([], f, ctx) == []
  {
    SelectedIffMeets(row, f, ctx);
    assert [row][1..] == [];
    assert Matching([row][1..], f, ctx) == [];
  }

  /** Every stored row that belongs is read, as many times as it is stored. */
  lemma {:induction false} RecordsCount(table: seq<Row>, org: string, contract: int, includeInactive: bool, row: Row)
    ensures multiset(Records(table, org, contract, includeInactive))[row] ==
            if Belongs(row, org, contract, includeInactive) then multiset(table)[row] else 0
  {
    if table != [] {
      RecordsCount(table[1..], org, contract, includeInactive, row);
      assert table == [table[0]] + table[1..];
    }
  }

  lemma {:induction false} MatchingCount(rows: seq<Row>, f: Filters, ctx: Context, row: Row)
    ensures multiset(Matching(rows, f, ctx))[row] == if Meets(row, f, ctx) then multiset(rows)[row] else 0
  {
    if rows != [] {
      MatchingCount(rows[1..], f, ctx, row);
      SelectedIffMeets(rows[0], f, ctx);
      assert rows == [rows[0]] + rows[1..];
    }
  }

  /** A row with what its learner has not shared taken out. */
  function Redact(row: Row, ctx: Context): Row {
    if Shared(row, ctx) then row else row.(outcomes := NO_OUTCOMES, needsAttentionSince := None)
  }

  function RedactAll(rows: seq<Row>, ctx: Context): seq<Row> {
    if rows == [] then [] else [Redact(rows[0], ctx)] + RedactAll(rows[1..], ctx)
  }

  lemma RedactedRowLooksTheSame(row: Row, f: Filters, ctx: Context)
    ensures Selected(Redact(row, ctx), f, ctx) <==> Selected(row, f, ctx)
    ensures Shared(Redact(row, ctx), ctx) == Shared(row, ctx)
    ensures Redact(Redact(row, ctx), ctx) == Redact(row, ctx)
    ensures row.learnerId.Some? ==> Project(Redact(row, ctx), ctx) == Project(row, ctx)
  {
    SelectedIffMeets(row, f, ctx);
    SelectedIffMeets(Redact(row, ctx), f, ctx);
  }

  lemma RedactCons(row: Row, rows: seq<Row>, ctx: Context)
    ensures RedactAll([row] + rows, ctx) == [Redact(row, ctx)] + RedactAll(rows, ctx)
  {
    assert ([row] + rows)[1..] == rows;
  }

  lemma {:induction false} RedactedRecords(table: seq<Row>, org: string, contract: int, includeInactive: bool, ctx: Context)
    ensures Records(RedactAll(table, ctx), org, contract, includeInactive) ==
            RedactAll(Records(table, org, contract, includeInactive), ctx)
  {
    if table != [] {
      var rest := Records(table[1..], org, contract, includeInactive);
      RedactedRecords(table[1..], org, contract, includeInactive, ctx);
      assert RedactAll(table, ctx)[0] == Redact(table[0], ctx) && RedactAll(table, ctx)[1..] == RedactAll(table[1..], ctx);
      if InRecords(table[0], org, contract, includeInactive) {
        RedactCons(table[0], rest, ctx);
      } else {
        assert [] + rest == rest;
        assert [] + RedactAll(rest, ctx) == RedactAll(rest, ctx);
      }
    }
  }

  lemma {:induction false} RedactedMatching(rows: seq<Row>, f: Filters, ctx: Context)
    ensures Matching(RedactAll(rows, ctx), f, ctx) == RedactAll(Matching(rows, f, ctx), ctx)
  {
    if rows != [] {
      var rest := Matching(rows[1..], f, ctx);
      RedactedMatching(rows[1..], f, ctx);
      RedactedRowLooksTheSame(rows[0], f, ctx);
      assert RedactAll(rows, ctx)[0] == Redact(rows[0], ctx) && RedactAll(rows, ctx)[1..] == RedactAll(rows[1..], ctx);
      if Selected(rows[0], f, ctx) {
        RedactCons(rows[0], rest, ctx);
      } else {
        assert [] + rest == rest;
        assert [] + RedactAll(rest, ctx) == RedactAll(rest, ctx);
      }
    }
  }

  lemma {:induction false} MatchingAre(rows: seq<Row>, f: Filters, ctx: Context, row: Row)
    ensures row in Matching(rows, f, ctx) <==> row in rows && Selected(row, f, ctx)
  {
    if rows != [] {
      MatchingAre(rows[1..], f, ctx, row);
    }
  }

  /** `_gate_outcomes`, the response model's second check, over the fields in place. */
  method GateOutcomes(outcomesShared: bool, fields: array<Option<int>>)
    modifies fields
    ensures forall i | 0 <= i < fields.Length :: fields[i] == if outcomesShared then old(fields[i]) else None
  {
    if !outcomesShared {
      for i := 0 to fields.Length
        invariant forall j | 0 <= j < fields.Length :: fields[j] == if j < i then None else old(fields[j])
      {
        fields[i] := None;
      }
    }
  }
}
