/** Building a response from the rows of an answer: b2b_learner_records/models.py
    and routers/organizations.py, `_record` and `_respond`. The response models
    refuse a NULL in any identity field, so one such row makes the whole
    response an error. */
module SyncDelivery {
  import opened Common
  import opened ChangeLog
  import opened SyncSteps
  import opened SyncCoverage

  /** One row of the page statement; a removed row has its identity only. */
  datatype OutRow = OutRow(id: Identity, removed: bool, record: Record)

  /** One record of the response. */
  datatype Item =
    | EnrollmentItem(org: nat, learner: nat, contract: nat, courserun: nat, removed: bool, record: Record)
    | LearnerItem(org: nat, learner: nat, removed: bool, record: Record)

  datatype BuildError = IdentityIsNull

  function Build(req: Request, row: OutRow): Result<Item, BuildError> {
    match row.id
    case Identity(Some(org), Some(learner), contract, courserun) =>
      if !req.Enrollments? then Ok(LearnerItem(org, learner, row.removed, row.record))
      else if contract.Some? && courserun.Some? then
        Ok(EnrollmentItem(org, learner, contract.value, courserun.value, row.removed, row.record))
      else Err(IdentityIsNull)
    case _ => Err(IdentityIsNull)
  }

  /** `[build(row) for row in rows]`. */
  function BuildAll(req: Request, rows: seq<OutRow>): Result<seq<Item>, BuildError> {
    if rows == [] then Ok([])
    else
      match Build(req, rows[0])
      case Err(e) => Err(e)
      case Ok(item) =>
        match BuildAll(req, rows[1..])
        case Err(e) => Err(e)
        case Ok(items) => Ok([item] + items)
  }

  /** What a client keys an item by. */
  function ItemId(item: Item): Identity {
    match item
    case EnrollmentItem(org, learner, contract, courserun, _, _) => Identity(Some(org), Some(learner), Some(contract), Some(courserun))
    case LearnerItem(org, learner, _, _) => Identity(Some(org), Some(learner), None, None)
  }

  /** The rows are those of the answer, in whatever order they were sorted. */
  ghost predicate Lists(rows: seq<OutRow>, a: Response) {
    && (forall u | u in a.live :: OutRow(a.live[u].id, false, a.live[u].record) in rows)
    && (forall id | id in a.removed :: OutRow(id, true, map[]) in rows)
    && (forall row | row in rows ::
          if row.removed then row.id in a.removed
          else exists u :: u in a.live && a.live[u] == Sent(row.id, row.record))
  }

  ghost predicate Delivered(req: Request, a: Response) {
    (forall u | u in a.live :: !HasNull(req, a.live[u].id)) && (forall id | id in a.removed :: !HasNull(req, id))
  }

  lemma {:induction false} BuildAllRefusesNulls(req: Request, rows: seq<OutRow>)
    ensures BuildAll(req, rows).Err? <==> exists row :: row in rows && HasNull(req, row.id)
    ensures BuildAll(req, rows).Ok? ==>
              && |BuildAll(req, rows).value| == |rows|
              && forall i | 0 <= i < |rows| :: Build(req, rows[i]) == Ok(BuildAll(req, rows).value[i])
  {
    if rows != [] {
      BuildAllRefusesNulls(req, rows[1..]);
      assert forall row :: row in rows <==> row == rows[0] || row in rows[1..];
    }
  }

  /** A response is an error exactly when an identity of its answer has a NULL. */
  lemma DeliveredIffNoNull(req: Request, a: Response, rows: seq<OutRow>)
    requires Lists(rows, a)
    ensures BuildAll(req, rows).Ok? <==> Delivered(req, a)
  {
    BuildAllRefusesNulls(req, rows);
    if Delivered(req, a) {
      forall row | row in rows
        ensures !HasNull(req, row.id)
      {
      }
    }
    if u :| u in a.live && HasNull(req, a.live[u].id) {
      assert OutRow(a.live[u].id, false, a.live[u].record) in rows;
    }
    if id :| id in a.removed && HasNull(req, id) {
      assert OutRow(id, true, map[]) in rows;
    }
  }

  /** When the query returns an identity both live and removed: exactly when it
      has a NULL, which the anti-join cannot match, and both halves select it. */
  lemma LiveAndRemovedIff(req: Request, mv: Table, known: map<Key, Identity>, log: Log, since: Time, id: Identity)
    requires Matches(mv, known) && OneLearner(known)
    ensures var a := Answer(req, mv, log, Some(since));
            Sends(a, id) && id in a.removed <==>
            HasNull(req, id) && Sends(a, id) && Wanted(req, id) && ChangedSince(RemovedOn(req, log, id), since)
  {
    var a := Answer(req, mv, log, Some(since));
    if u :| u in a.live && a.live[u].id == id {
      if !HasNull(req, id) {
        LiveIdIsHeld(req, mv, known, u);
        HeldIsStillHeld(req, mv, id);
      } else if ChangedSince(RemovedOn(req, log, id), since) {
        RemovedOnNames(req, log, id);
      }
    }
  }

  lemma RemovedOnNames(req: Request, log: Log, id: Identity)
    requires RemovedOn(req, log, id).Some?
    ensures id in (set k | k in log :: ClientId(req, log[k].id))
  {
    var keys := LogKeys(req, log, id);
    var times := set k | k in (if req.Enrollments? then set j | j in keys && log[j].deleted else keys) :: log[k].changedOn;
    assert MaxOf(times).value in times;
  }

  /** With no stamp pending, only enrollments can: a learner any row still holds
      has a log row that is not a tombstone. */
  lemma OnlyEnrollmentsRepeat(db: Db, seeds: map<Source, Time>, req: Request, since: Time, id: Identity)
    requires DbInv(db, seeds) && db.pending !! Sources(req) && !req.Enrollments?
    ensures var a := Answer(req, db.mv, db.log, Some(since)); !(Sends(a, id) && id in a.removed)
  {
    var a := Answer(req, db.mv, db.log, Some(since));
    if u :| u in a.live && a.live[u].id == id {
      LiveIdIsHeld(req, db.mv, db.known, u);
      HeldIsLogged(db, seeds, req, id);
      assert RemovedOn(req, db.log, id) == None;
    }
  }

  lemma HeldIsLogged(db: Db, seeds: map<Source, Time>, req: Request, id: Identity)
    requires DbInv(db, seeds) && db.pending !! Sources(req) && HeldIn(req, db.mv, id)
    ensures exists k :: k in LogKeys(req, db.log, id) && !db.log[k].deleted
  {
    var k :| k in db.mv && Anchors(req, k, db.mv[k].id) && ClientId(req, db.mv[k].id) == id;
    FeedsSource(req, db.known, k, UnitOf(req, k));
    assert !Differs(db, k);
    assert k in LogKeys(req, db.log, id) && !db.log[k].deleted;
  }

  lemma AnswerIdsAreClientIds(req: Request, mv: Table, log: Log, since: Option<Time>, id: Identity)
    ensures var a := Answer(req, mv, log, since);
            !req.Enrollments? && (Sends(a, id) || id in a.removed) ==> id.contract == None && id.courserun == None
  {
  }

  /** A response that is delivered never has an identity both live and removed,
      whatever the tables hold. */
  lemma NeverLiveAndRemoved(
    req: Request, mv: Table, known: map<Key, Identity>, log: Log, since: Option<Time>, rows: seq<OutRow>, i: nat, j: nat)
    requires Matches(mv, known) && OneLearner(known) && Lists(rows, Answer(req, mv, log, since))
    requires BuildAll(req, rows).Ok? && i < |BuildAll(req, rows).value| && j < |BuildAll(req, rows).value|
    ensures var items := BuildAll(req, rows).value;
            !items[i].removed && items[j].removed ==> ItemId(items[i]) != ItemId(items[j])
  {
    var a, items := Answer(req, mv, log, since), BuildAll(req, rows).value;
    if !items[i].removed && items[j].removed {
      BuiltItem(req, mv, log, since, rows, i);
      BuiltItem(req, mv, log, since, rows, j);
      LiveAndRemovedIff(req, mv, known, log, since.value, rows[j].id);
    }
  }

  /** An item comes from a row with its identity, and with no NULL in it. */
  lemma BuiltItem(req: Request, mv: Table, log: Log, since: Option<Time>, rows: seq<OutRow>, i: nat)
    requires Lists(rows, Answer(req, mv, log, since)) && BuildAll(req, rows).Ok? && i < |BuildAll(req, rows).value|
    ensures i < |rows|
    ensures var item, a := BuildAll(req, rows).value[i], Answer(req, mv, log, since);
            && ItemId(item) == rows[i].id && !HasNull(req, rows[i].id)
            && item.removed == rows[i].removed && item.record == rows[i].record
            && if item.removed then rows[i].id in a.removed else Sends(a, rows[i].id)
  {
    BuildAllRefusesNulls(req, rows);
    ListedRow(rows, Answer(req, mv, log, since), i);
    AnswerIdsAreClientIds(req, mv, log, since, rows[i].id);
    BuildKeepsId(req, rows[i]);
  }

  lemma ListedRow(rows: seq<OutRow>, a: Response, i: nat)
    requires Lists(rows, a) && i < |rows|
    ensures if rows[i].removed then rows[i].id in a.removed else Sends(a, rows[i].id)
  {
    assert rows[i] in rows;
  }

  lemma BuildKeepsId(req: Request, row: OutRow)
    requires Build(req, row).Ok? && (!req.Enrollments? ==> row.id.contract == None && row.id.courserun == None)
    ensures ItemId(Build(req, row).value) == row.id && !HasNull(req, row.id)
    ensures Build(req, row).value.removed == row.removed && Build(req, row).value.record == row.record
  {
  }
}
