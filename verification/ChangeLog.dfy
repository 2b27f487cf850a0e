/** The learner-records tables and what the collections' queries mean over them:
    b2b_learner_records/queries.py. A table is a map from its surrogate key, so
    a LEFT JOIN on the key is a lookup; None is NULL, and == on two nullable key
    columns is the null-safe `<=>` of the change-log join. */
module ChangeLog {
  import opened Common

  /** Microseconds. */
  type Time = int

  const SECOND: Time := 1_000_000
  const RETENTION: Time := 90 * 24 * 3600 * SECOND

  function FloorSecond(t: Time): Time {
    t - t % SECOND
  }

  datatype Source = LearnerMv | EnrollmentMv

  datatype Key =
    | LearnerKey(organizationKey: Option<nat>, userPk: nat)
    | EnrollmentKey(contractPk: Option<nat>, courserunPk: Option<nat>, userPk: nat)

  function SourceOf(k: Key): Source {
    if k.LearnerKey? then LearnerMv else EnrollmentMv
  }

  /** The identity columns of a row; a roster row has no contract and no run. */
  datatype Identity = Identity(org: Option<nat>, learner: Option<nat>, contract: Option<nat>, courserun: Option<nat>)

  /** `columns` is everything else in the row; the stamp's row hash covers it all. */
  datatype Row = Row(id: Identity, active: bool, columns: seq<Option<int>>)

  datatype LogRow = LogRow(id: Identity, changedOn: Time, deleted: bool)

  type Table = map<Key, Row>
  type Log = map<Key, LogRow>

  /** The collections that sync, each with the filters a sync may carry. An
      empty `learners` asks for everyone. */
  datatype Request =
    | Enrollments(org: nat, contract: Option<nat>, courserun: Option<nat>, learners: set<nat>, includeInactive: bool)
    | Roster(org: nat, learners: set<nat>)
    | ContractRollup(org: nat, inContract: nat, learners: set<nat>)
    | InactiveRollup(org: nat, learners: set<nat>)

  function Sources(req: Request): set<Source> {
    match req
    case Enrollments(_, _, _, _, _) => {EnrollmentMv}
    case Roster(_, _) => {LearnerMv}
    case _ => {LearnerMv, EnrollmentMv}
  }

  /** The WHERE clause on an MV's rows, and on its log's rows. */
  predicate InScope(req: Request, k: Key, id: Identity) {
    && id.org == Some(req.org)
    && match req
       case Enrollments(_, contract, courserun, _, _) =>
         k.EnrollmentKey? && (contract.Some? ==> id.contract == contract) && (courserun.Some? ==> id.courserun == courserun)
       case Roster(_, _) => k.LearnerKey?
       case ContractRollup(_, contract, _) => k.EnrollmentKey? ==> id.contract == Some(contract)
       case InactiveRollup(_, _) => true
  }

  /** The rows of `views` in _removed_learners: those that make a record exist. */
  predicate Anchors(req: Request, k: Key, id: Identity) {
    InScope(req, k, id) && (req.ContractRollup? ==> k.EnrollmentKey?)
  }

  /** One record: an MV row, or under a rollup everything one user_pk has. */
  datatype Unit = RowUnit(key: Key) | UserUnit(userPk: nat)

  function UnitOf(req: Request, k: Key): Unit {
    if req.Enrollments? || req.Roster? then RowUnit(k) else UserUnit(k.userPk)
  }

  /** What a client keys its copy by. */
  function ClientId(req: Request, id: Identity): Identity {
    if req.Enrollments? then id else Identity(id.org, id.learner, None, None)
  }

  predicate HasNull(req: Request, id: Identity) {
    id.org.None? || id.learner.None? || (req.Enrollments? && (id.contract.None? || id.courserun.None?))
  }

  /** `learner_id IN (...)`: a NULL is in no list. */
  predicate Wanted(req: Request, id: Identity) {
    req.learners == {} || (id.learner.Some? && id.learner.value in req.learners)
  }

  /** Rows read into one record. Any column the SELECT computes for the record
      is a function of these. */
  type Record = map<Key, Row>

  function RecordOf(req: Request, t: Table, u: Unit): Record {
    map k | k in t && InScope(req, k, t[k].id) && UnitOf(req, k) == u :: t[k]
  }

  datatype Join = RightJoin | FullOuterJoin

  /** The users a join of two per-user rowsets has a row for. */
  function Joined(join: Join, left: set<nat>, right: set<nat>): set<nat> {
    match join
    case RightJoin => right
    case FullOuterJoin => left + right
  }

  function UsersIn(req: Request, t: Table, source: Source): set<nat> {
    set k | k in t && SourceOf(k) == source && InScope(req, k, t[k].id) :: k.userPk
  }

  /** Whether the unfiltered SELECT over the MVs returns the record. */
  predicate Live(req: Request, t: Table, u: Unit) {
    match u
    case RowUnit(k) =>
      (req.Enrollments? || req.Roster?) && k in t && InScope(req, k, t[k].id)
      && (req.Enrollments? && !req.includeInactive ==> t[k].active)
    case UserUnit(user) =>
      (req.ContractRollup? || req.InactiveRollup?)
      && user in Joined(if req.ContractRollup? then RightJoin else FullOuterJoin,
                        UsersIn(req, t, LearnerMv), UsersIn(req, t, EnrollmentMv))
  }

  ghost function Pick<T>(s: set<T>): (x: T)
    requires s != {}
    ensures x in s
  {
    var x :| x in s; x
  }

  ghost function MaxOf(s: set<int>): (m: Option<int>)
    ensures s == {} <==> m == None
    ensures m.Some? ==> m.value in s && forall x | x in s :: x <= m.value
    decreases s
  {
    if s == {} then None
    else
      var x := Pick(s);
      var rest := MaxOf(s - {x});
      assert s == (s - {x}) + {x};
      Some(if rest.Some? && rest.value > x then rest.value else x)
  }

  ghost function MinOf(s: set<int>): (m: Option<int>)
    ensures s == {} <==> m == None
    ensures m.Some? ==> m.value in s && forall x | x in s :: m.value <= x
    decreases s
  {
    if s == {} then None
    else
      var x := Pick(s);
      var rest := MinOf(s - {x});
      assert s == (s - {x}) + {x};
      Some(if rest.Some? && rest.value < x then rest.value else x)
  }

  ghost function LearnersIn(record: Record, source: Source): set<int> {
    set k | k in record && SourceOf(k) == source && record[k].id.learner.Some? :: record[k].id.learner.value as int
  }

  /** COALESCE(l.user_global_id, MAX(e.user_global_id)). */
  ghost function RollupLearner(record: Record): Option<nat> {
    var l := MaxOf(LearnersIn(record, LearnerMv));
    var e := MaxOf(LearnersIn(record, EnrollmentMv));
    if l.Some? then Some(l.value) else if e.Some? then Some(e.value) else None
  }

  ghost function UnitId(req: Request, t: Table, u: Unit): Identity
    requires Live(req, t, u)
  {
    match u
    case RowUnit(k) => ClientId(req, t[k].id)
    case UserUnit(_) => Identity(Some(req.org), RollupLearner(RecordOf(req, t, u)), None, None)
  }

  ghost function MaxChanged(log: Log, keys: set<Key>): Option<Time>
    requires keys <= log.Keys
  {
    MaxOf(set k | k in keys :: log[k].changedOn)
  }

  /** A row's cursor comes from the log row under its key. A rollup's is the
      later of the two logs' latest changes for the user, deleted rows included. */
  ghost function ChangedOn(req: Request, log: Log, u: Unit): Option<Time> {
    match u
    case RowUnit(k) => if k in log then Some(log[k].changedOn) else None
    case UserUnit(user) =>
      var ll := MaxChanged(log, set k | k in log && k.LearnerKey? && k.userPk == user && InScope(req, k, log[k].id));
      var el := MaxChanged(log, set k | k in log && k.EnrollmentKey? && k.userPk == user && InScope(req, k, log[k].id));
      if ll.None? then el else if el.None? then ll else if ll.value >= el.value then ll else el
  }

  /** `changed_on >= updated_since`, the bound truncated to its second; a NULL
      changed_on is not selected. */
  ghost predicate ChangedSince(changedOn: Option<Time>, since: Time) {
    changedOn.Some? && changedOn.value >= FloorSecond(since)
  }

  /** Every log row a removal of `id` could be read from. */
  ghost function LogKeys(req: Request, log: Log, id: Identity): set<Key> {
    set k | k in log && Anchors(req, k, log[k].id) && ClientId(req, log[k].id) == id
  }

  /** When the logs say `id` went: for an enrollment its latest tombstone, for a
      learner the latest change of any kind once every row is a tombstone. */
  ghost function RemovedOn(req: Request, log: Log, id: Identity): Option<Time> {
    var keys := LogKeys(req, log, id);
    if req.Enrollments? then MaxChanged(log, set k | k in keys && log[k].deleted)
    else if exists k :: k in keys && !log[k].deleted then None
    else MaxChanged(log, keys)
  }

  /** The EXISTS under NOT EXISTS: SQL equality, so a NULL column matches nothing. */
  ghost predicate StillHeld(req: Request, t: Table, id: Identity) {
    !HasNull(req, id)
    && exists k :: k in t && ClientId(req, t[k].id) == id && if req.Enrollments? then k.EnrollmentKey? else Anchors(req, k, t[k].id)
  }

  datatype Sent = Sent(id: Identity, record: Record)

  /** One response: the live records, and the identities of the removed ones.
      GROUP BY makes a removal unique per identity. */
  datatype Response = Response(live: map<Unit, Sent>, removed: set<Identity>)

  ghost function Answer(req: Request, mv: Table, log: Log, since: Option<Time>): Response {
    Response(
      map u | u in (set k | k in mv :: UnitOf(req, k)) && Live(req, mv, u) && Wanted(req, UnitId(req, mv, u))
              && (since.Some? ==> ChangedSince(ChangedOn(req, log, u), since.value)) ::
        Sent(UnitId(req, mv, u), RecordOf(req, mv, u)),
      if since.None? then {}
      else
        set id | id in (set k | k in log :: ClientId(req, log[k].id)) && Wanted(req, id)
                 && ChangedSince(RemovedOn(req, log, id), since.value) && !StillHeld(req, mv, id))
  }

  type Copy = map<Identity, Record>

  ghost predicate Sends(response: Response, id: Identity) {
    exists u :: u in response.live && response.live[u].id == id
  }

  /** The client drops the removed records and upserts the live ones. */
  ghost function Apply(copy: Copy, response: Response): Copy {
    var sent := set u | u in response.live :: response.live[u].id;
    map id | id in (copy.Keys - response.removed) + sent ::
      if Sends(response, id) then
        var u :| u in response.live && response.live[u].id == id;
        response.live[u].record
      else if id in copy then copy[id] else map[]
  }

  /** Removed, whatever chain of re-keys and deletions the log holds, exactly when
      nothing live is found to carry the identity, the rows that could are all
      gone, and some tombstone is no older than the cursor, so a cursor between
      two tombstones still learns of the second. */
  lemma RemovalIsExact(req: Request, mv: Table, log: Log, since: Time, id: Identity)
    ensures var a := Answer(req, mv, log, Some(since));
            && (!HasNull(req, id) && id in a.removed ==> forall u | u in a.live && u.RowUnit? :: a.live[u].id != id)
            && (id in a.removed <==>
                  && Wanted(req, id)
                  && !StillHeld(req, mv, id)
                  && (!req.Enrollments? ==> forall k | k in LogKeys(req, log, id) :: log[k].deleted)
                  && exists k :: k in LogKeys(req, log, id) && log[k].deleted && log[k].changedOn >= FloorSecond(since))
  {
    var a := Answer(req, mv, log, Some(since));
    var keys := LogKeys(req, log, id);
    var gone := set k | k in keys && log[k].deleted;
    var source := if req.Enrollments? then gone else keys;
    var times := set k | k in source :: log[k].changedOn;
    if id in a.removed {
      assert MaxOf(times).value in times;
    }
    if k :| k in keys && log[k].deleted && log[k].changedOn >= FloorSecond(since) {
      assert k in source ==> log[k].changedOn in times;
      assert ClientId(req, log[k].id) in (set j | j in log :: ClientId(req, log[j].id));
    }
    forall u | u in a.live && u.RowUnit? && a.live[u].id == id
      ensures HasNull(req, id) || id !in a.removed
    {
      assert u.key in mv && ClientId(req, mv[u.key].id) == id;
    }
  }

  /** A NULL identity column defeats the NOT EXISTS: the query returns a re-keyed
      enrollment whose learner has no global id both live and removed. */
  lemma NullLearnerIsLiveAndRemoved()
    ensures var req := Enrollments(1, None, None, {}, true);
            var id := Identity(Some(1), None, Some(2), Some(3));
            var oldKey, newKey := EnrollmentKey(Some(2), Some(3), 10), EnrollmentKey(Some(2), Some(3), 11);
            var mv: Table := map[newKey := Row(id, true, [])];
            var log: Log := map[oldKey := LogRow(id, SECOND, true), newKey := LogRow(id, SECOND, false)];
            var a := Answer(req, mv, log, Some(0));
            Sends(a, id) && id in a.removed
  {
    var req := Enrollments(1, None, None, {}, true);
    var id := Identity(Some(1), None, Some(2), Some(3));
    var oldKey, newKey := EnrollmentKey(Some(2), Some(3), 10), EnrollmentKey(Some(2), Some(3), 11);
    var mv: Table := map[newKey := Row(id, true, [])];
    var log: Log := map[oldKey := LogRow(id, SECOND, true), newKey := LogRow(id, SECOND, false)];
    var a := Answer(req, mv, log, Some(0));
    assert UnitOf(req, newKey) == RowUnit(newKey);
    assert Live(req, mv, RowUnit(newKey)) && ChangedOn(req, log, RowUnit(newKey)) == Some(SECOND);
    assert RowUnit(newKey) in (set k | k in mv :: UnitOf(req, k));
    assert RowUnit(newKey) in a.live && a.live[RowUnit(newKey)].id == id;
    assert oldKey in LogKeys(req, log, id) && log[oldKey].changedOn in (set k | k in LogKeys(req, log, id) && log[k].deleted :: log[k].changedOn);
    assert ClientId(req, log[oldKey].id) in (set k | k in log :: ClientId(req, log[k].id));
    assert FloorSecond(0) == 0;
    var gone := set k | k in LogKeys(req, log, id) && log[k].deleted;
    assert oldKey in gone;
    var times := set k | k in gone :: log[k].changedOn;
    assert log[oldKey].changedOn in times;
    assert RemovedOn(req, log, id) == MaxOf(times);
  }
}
