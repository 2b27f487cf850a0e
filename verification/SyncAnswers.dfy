/** Whose rows an answer may hold, and which: the collections' queries of
    b2b_learner_records/queries.py in terms of the stored columns alone. */
module SyncAnswers {
  import opened Common
  import opened ChangeLog
  import opened SyncSteps
  import opened SyncCoverage

  /** The columns a request fixes, on an identity it may be told of. */
  ghost predicate AskedFor(req: Request, id: Identity) {
    && id.org == Some(req.org)
    && (req.learners == {} || (id.learner.Some? && id.learner.value in req.learners))
    && (req.Enrollments? && req.contract.Some? ==> id.contract == req.contract)
    && (req.Enrollments? && req.courserun.Some? ==> id.courserun == req.courserun)
    && (!req.Enrollments? ==> id.contract == None && id.courserun == None)
  }

  /** An organization's data never leaves it, and a request's filters bind
      everything it is sent, removals included. */
  lemma AnswersStayInScope(req: Request, mv: Table, log: Log, since: Option<Time>, id: Identity)
    requires Sends(Answer(req, mv, log, since), id) || id in Answer(req, mv, log, since).removed
    ensures AskedFor(req, id)
  {
    if id in Answer(req, mv, log, since).removed {
      RemovalIsLogged(req, mv, log, since.value, id);
    }
  }

  lemma RemovalIsLogged(req: Request, mv: Table, log: Log, since: Time, id: Identity)
    requires id in Answer(req, mv, log, Some(since)).removed
    ensures exists k :: k in LogKeys(req, log, id)
  {
    RemovalIsExact(req, mv, log, since, id);
  }

  /** A stored row that makes a record of the collection exist, by its columns. */
  ghost predicate Concerns(req: Request, k: Key, id: Identity) {
    && id.org == Some(req.org)
    && match req
       case Enrollments(_, contract, courserun, _, _) =>
         && k.EnrollmentKey?
         && (contract.Some? ==> id.contract == contract)
         && (courserun.Some? ==> id.courserun == courserun)
       case Roster(_, _) => k.LearnerKey?
       case ContractRollup(_, contract, _) => k.EnrollmentKey? && id.contract == Some(contract)
       case InactiveRollup(_, _) => true
  }

  ghost predicate OneOf(learners: set<nat>, learner: Option<nat>) {
    learners == {} || (learner.Some? && learner.value in learners)
  }

  /** A full read of the row collections sends exactly the rows asked for: for
      enrollments, deactivated ones only where asked. */
  lemma FullReadOfRows(req: Request, mv: Table, log: Log, k: Key)
    requires req.Enrollments? || req.Roster?
    ensures var a := Answer(req, mv, log, None);
            && (RowUnit(k) in a.live <==>
                  && k in mv && Concerns(req, k, mv[k].id) && OneOf(req.learners, mv[k].id.learner)
                  && (req.Enrollments? ==> mv[k].active || req.includeInactive))
            && (RowUnit(k) in a.live ==>
                  && a.live[RowUnit(k)].record == map[k := mv[k]]
                  && a.live[RowUnit(k)].id ==
                     if req.Enrollments? then mv[k].id else Identity(mv[k].id.org, mv[k].id.learner, None, None))
            && (forall u | u in a.live :: u.RowUnit?)
            && a.removed == {}
  {
    if k in mv {
      assert UnitOf(req, k) == RowUnit(k);
      assert RowUnit(k) in (set j | j in mv :: UnitOf(req, j));
    }
  }

  /** What a rollup's record is built from: the user's rows in the organization,
      under `contract_id` only that contract's enrollments. */
  ghost function RowsOfUser(req: Request, mv: Table, user: nat): Record
    requires req.ContractRollup? || req.InactiveRollup?
  {
    map k | k in mv && k.userPk == user && mv[k].id.org == Some(req.org)
            && (req.ContractRollup? && k.EnrollmentKey? ==> mv[k].id.contract == Some(req.inContract)) :: mv[k]
  }

  lemma RecordIsRowsOfUser(req: Request, mv: Table, user: nat)
    requires req.ContractRollup? || req.InactiveRollup?
    ensures RecordOf(req, mv, UserUnit(user)) == RowsOfUser(req, mv, user)
  {
  }

  /** A full read of a rollup sends exactly the users with a row that makes them
      part of it: under `contract_id` an enrollment in that contract, active or
      not, and under `include_inactive` a roster row or any enrollment. */
  lemma FullReadOfUsers(req: Request, mv: Table, known: map<Key, Identity>, log: Log, user: nat)
    requires req.ContractRollup? || req.InactiveRollup?
    requires Matches(mv, known) && OneLearner(known)
    ensures var a, u := Answer(req, mv, log, None), UserUnit(user);
            && (u in a.live <==>
                  exists k :: k in mv && k.userPk == user && Concerns(req, k, mv[k].id) && OneOf(req.learners, mv[k].id.learner))
            && (u in a.live ==> a.live[u].record == RowsOfUser(req, mv, user))
            && (forall v | v in a.live :: v.UserUnit?)
            && a.removed == {}
    ensures var a, u := Answer(req, mv, log, None), UserUnit(user);
            forall k | u in a.live && k in mv && k.userPk == user && Concerns(req, k, mv[k].id) ::
              a.live[u].id == Identity(Some(req.org), mv[k].id.learner, None, None)
  {
    var a, u := Answer(req, mv, log, None), UserUnit(user);
    RecordIsRowsOfUser(req, mv, user);
    forall k | k in mv && k.userPk == user && Concerns(req, k, mv[k].id)
      ensures Live(req, mv, u) && UnitId(req, mv, u) == Identity(Some(req.org), mv[k].id.learner, None, None)
      ensures u in (set j | j in mv :: UnitOf(req, j))
    {
      AnchorIsLive(req, mv, k);
      UnitIdIsRowId(req, mv, known, u, k);
      assert UnitOf(req, k) == u;
    }
    if u in a.live {
      LiveIsAnchored(req, mv, u);
      var k :| k in mv && Anchors(req, k, mv[k].id) && UnitOf(req, k) == u;
      assert Concerns(req, k, mv[k].id);
    }
  }

  /** The live view that convergence speaks of, by columns: its records, and the
      identities it holds. */
  lemma LiveViewIs(req: Request, mv: Table, known: map<Key, Identity>, u: Unit)
    requires Matches(mv, known) && OneLearner(known)
    ensures Live(req, mv, u) <==>
            match u
            case RowUnit(k) =>
              (req.Enrollments? || req.Roster?) && k in mv && Concerns(req, k, mv[k].id)
              && (req.Enrollments? ==> mv[k].active || req.includeInactive)
            case UserUnit(user) =>
              (req.ContractRollup? || req.InactiveRollup?)
              && exists k :: k in mv && k.userPk == user && Concerns(req, k, mv[k].id)
    ensures Live(req, mv, u) ==>
              RecordOf(req, mv, u) == if u.RowUnit? then map[u.key := mv[u.key]] else RowsOfUser(req, mv, u.userPk)
  {
    match u
    case RowUnit(_) =>
    case UserUnit(user) =>
      if Live(req, mv, u) {
        LiveIsAnchored(req, mv, u);
        var k :| k in mv && Anchors(req, k, mv[k].id) && UnitOf(req, k) == u;
        assert Concerns(req, k, mv[k].id);
      }
      if req.ContractRollup? || req.InactiveRollup? {
        if k :| k in mv && k.userPk == user && Concerns(req, k, mv[k].id) {
          AnchorIsLive(req, mv, k);
        }
      }
  }

  /** A log row that speaks of a record: the row's own, or any of a user's rows
      in the scope, roster rows under `contract_id` too. */
  ghost predicate SpeaksOf(req: Request, k: Key, id: Identity, u: Unit) {
    match u
    case RowUnit(j) => k == j
    case UserUnit(user) =>
      && k.userPk == user && id.org == Some(req.org)
      && (req.ContractRollup? && k.EnrollmentKey? ==> id.contract == Some(req.inContract))
  }

  /** An incremental read sends what a full one would and a log row at or after
      the cursor's whole second speaks of, and sends it the same. */
  lemma IncrementalReadIsRecent(req: Request, mv: Table, log: Log, since: Time, u: Unit)
    ensures var all, a := Answer(req, mv, log, None), Answer(req, mv, log, Some(since));
            && (u in a.live <==>
                  u in all.live && exists k :: k in log && SpeaksOf(req, k, log[k].id, u) && log[k].changedOn >= since - since % SECOND)
            && (u in a.live ==> a.live[u] == all.live[u])
  {
    if u in Answer(req, mv, log, None).live {
      RecentIff(req, log, since, u);
    }
  }

  lemma RecentIff(req: Request, log: Log, since: Time, u: Unit)
    requires u.UserUnit? ==> req.ContractRollup? || req.InactiveRollup?
    ensures ChangedSince(ChangedOn(req, log, u), since) <==>
            exists k :: k in log && SpeaksOf(req, k, log[k].id, u) && log[k].changedOn >= since - since % SECOND
  {
    if u.UserUnit? {
      var bound := since - since % SECOND;
      var lk, ek := UserKeys(req, log, u.userPk, LearnerMv), UserKeys(req, log, u.userPk, EnrollmentMv);
      LaterIsRecentIff(req, log, u, since);
      MaxReaches(log, lk, bound);
      MaxReaches(log, ek, bound);
      forall k
        ensures k in lk || k in ek <==> k in log && SpeaksOf(req, k, log[k].id, u)
      {
        assert SourceOf(k) == LearnerMv || SourceOf(k) == EnrollmentMv;
      }
    }
  }

  /** A stored row whose identity columns are `id`'s, as SQL compares them. */
  ghost predicate Carries(req: Request, k: Key, row: Identity, id: Identity) {
    && row.org == id.org && row.learner == id.learner
    && (req.Enrollments? ==> k.EnrollmentKey? && row.contract == id.contract && row.courserun == id.courserun)
    && (!req.Enrollments? ==> Concerns(req, k, row))
  }

  /** A removal, by columns. The identity is one asked for, no column of it is
      NULL in a row that still carries it, every log row that a learner's
      removal could be read from is a tombstone, and one tombstone is at or
      after the cursor's whole second. */
  lemma RemovalsAre(req: Request, mv: Table, log: Log, since: Time, id: Identity)
    ensures id in Answer(req, mv, log, Some(since)).removed <==>
            && AskedFor(req, id)
            && !(NoNull(req, id) && exists k :: k in mv && Carries(req, k, mv[k].id, id))
            && (!req.Enrollments? ==> forall k | k in log && Carries(req, k, log[k].id, id) :: log[k].deleted)
            && exists k :: k in log && Carries(req, k, log[k].id, id) && log[k].deleted && log[k].changedOn >= since - since % SECOND
  {
    RemovalIsExact(req, mv, log, since, id);
    if AskedFor(req, id) {
      forall k | k in log
        ensures k in LogKeys(req, log, id) <==> Carries(req, k, log[k].id, id)
      {
      }
      HeldByCarrier(req, mv, id);
    } else if k :| k in LogKeys(req, log, id) {
      assert Wanted(req, id) ==> AskedFor(req, id);
    }
  }

  ghost predicate NoNull(req: Request, id: Identity) {
    id.org.Some? && id.learner.Some? && (req.Enrollments? ==> id.contract.Some? && id.courserun.Some?)
  }

  lemma HeldByCarrier(req: Request, mv: Table, id: Identity)
    requires AskedFor(req, id)
    ensures StillHeld(req, mv, id) <==> NoNull(req, id) && exists k :: k in mv && Carries(req, k, mv[k].id, id)
  {
    forall k | k in mv
      ensures Carries(req, k, mv[k].id, id) <==>
              ClientId(req, mv[k].id) == id && if req.Enrollments? then k.EnrollmentKey? else Anchors(req, k, mv[k].id)
    {
    }
  }
}
