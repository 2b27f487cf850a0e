/** The invariant behind incremental sync. Whatever a client's copy lacks, the
    change log will still send it, or the next stamp will make the log send it. */
module SyncCoverage {
  import opened Common
  import opened ChangeLog
  import opened SyncSteps

  /** `k` is one of the rows record `u` is made from. */
  ghost predicate Feeds(req: Request, known: map<Key, Identity>, k: Key, u: Unit) {
    k in known && InScope(req, k, known[k]) && UnitOf(req, k) == u
  }

  /** `k` makes a record with identity `id` exist. */
  ghost predicate Names(req: Request, known: map<Key, Identity>, k: Key, id: Identity) {
    k in known && Anchors(req, k, known[k]) && ClientId(req, known[k]) == id
  }

  ghost predicate PendingUnit(db: Db, req: Request, u: Unit) {
    exists k :: Feeds(req, db.known, k, u) && Differs(db, k)
  }

  ghost predicate PendingId(db: Db, req: Request, id: Identity) {
    exists k :: Names(req, db.known, k, id) && Differs(db, k)
  }

  ghost predicate HeldIn(req: Request, t: Table, id: Identity) {
    exists k :: k in t && Anchors(req, k, t[k].id) && ClientId(req, t[k].id) == id
  }

  ghost predicate UnitCovered(db: Db, req: Request, copy: Copy, cursor: Time, u: Unit)
    requires Live(req, db.stamped, u)
  {
    var id := UnitId(req, db.stamped, u);
    || HasNull(req, id)
    || !Wanted(req, id)
    || (id in copy && copy[id] == RecordOf(req, db.stamped, u))
    || ChangedSince(ChangedOn(req, db.log, u), cursor)
    || PendingUnit(db, req, u)
  }

  ghost predicate IdCovered(db: Db, req: Request, copy: Copy, cursor: Time, id: Identity) {
    || id !in copy
    || ChangedSince(RemovedOn(req, db.log, id), cursor)
    || PendingId(db, req, id)
  }

  /** The client's copy and cursor, judged against what the logs describe. */
  ghost predicate Covers(db: Db, req: Request, copy: Copy, cursor: Time) {
    && (forall s | s in Sources(req) :: s in db.refreshed && cursor <= db.refreshed[s])
    && (forall u | Live(req, db.stamped, u) :: UnitCovered(db, req, copy, cursor, u))
    && (forall id | !HasNull(req, id) && Wanted(req, id) && !HeldIn(req, db.stamped, id) ::
          IdCovered(db, req, copy, cursor, id))
  }

  // ---- what the queries return, in terms of single rows ----

  /** A live record has a row that anchors it. */
  lemma LiveIsAnchored(req: Request, t: Table, u: Unit)
    requires Live(req, t, u)
    ensures exists k :: k in t && Anchors(req, k, t[k].id) && UnitOf(req, k) == u
  {
    match u
    case RowUnit(k) =>
      assert k in t && Anchors(req, k, t[k].id) && UnitOf(req, k) == u;
    case UserUnit(user) =>
      var source := if req.ContractRollup? || user in UsersIn(req, t, EnrollmentMv) then EnrollmentMv else LearnerMv;
      var k :| k in t && SourceOf(k) == source && InScope(req, k, t[k].id) && k.userPk == user;
      assert k in t && Anchors(req, k, t[k].id) && UnitOf(req, k) == u;
  }

  /** An anchoring row makes its record live, unless the request leaves
      deactivated enrollments out. */
  lemma AnchorIsLive(req: Request, t: Table, k: Key)
    requires k in t && Anchors(req, k, t[k].id)
    ensures Live(req, t, UnitOf(req, k)) || (req.Enrollments? && !req.includeInactive && !t[k].active)
  {
    if UnitOf(req, k).UserUnit? {
      assert k.userPk in UsersIn(req, t, SourceOf(k));
    }
  }

  /** The record's identity is that of any row it is made from. */
  lemma UnitIdIsRowId(req: Request, t: Table, known: map<Key, Identity>, u: Unit, k: Key)
    requires Matches(t, known) && OneLearner(known) && Live(req, t, u)
    requires k in t && Feeds(req, known, k, u)
    ensures UnitId(req, t, u) == ClientId(req, known[k])
  {
    if u.UserUnit? {
      var record := RecordOf(req, t, u);
      assert k in record;
      forall s: Source, x | x in LearnersIn(record, s)
        ensures known[k].learner == Some(x)
      {
        var j :| j in record && SourceOf(j) == s && record[j].id.learner.Some? && record[j].id.learner.value == x;
        assert known[j].learner == known[k].learner;
      }
      if known[k].learner.Some? {
        assert record[k].id.learner.value in LearnersIn(record, SourceOf(k));
        assert SourceOf(k) == LearnerMv || SourceOf(k) == EnrollmentMv;
      }
    }
  }

  lemma LiveIdIsHeld(req: Request, t: Table, known: map<Key, Identity>, u: Unit)
    requires Matches(t, known) && OneLearner(known) && Live(req, t, u)
    ensures HeldIn(req, t, UnitId(req, t, u))
  {
    LiveIsAnchored(req, t, u);
    var k :| k in t && Anchors(req, k, t[k].id) && UnitOf(req, k) == u;
    UnitIdIsRowId(req, t, known, u, k);
  }

  /** The EXISTS subquery finds an identity exactly when an anchoring row holds it. */
  lemma StillHeldIffHeld(req: Request, t: Table, log: Log, id: Identity)
    requires !HasNull(req, id)
    requires req.Enrollments? ==> exists k :: k in LogKeys(req, log, id)
    ensures StillHeld(req, t, id) <==> HeldIn(req, t, id)
  {
    if req.Enrollments? {
      var j :| j in LogKeys(req, log, id);
      assert forall k | k in t && ClientId(req, t[k].id) == id && k.EnrollmentKey? :: Anchors(req, k, t[k].id);
    }
  }

  lemma HeldIsStillHeld(req: Request, t: Table, id: Identity)
    requires !HasNull(req, id) && HeldIn(req, t, id)
    ensures StillHeld(req, t, id)
  {
    var k :| k in t && Anchors(req, k, t[k].id) && ClientId(req, t[k].id) == id;
    assert req.Enrollments? ==> k.EnrollmentKey?;
  }

  /** Two tables that agree on a record's rows agree on the record. */
  lemma SameRowsSameRecord(req: Request, t1: Table, t2: Table, known: map<Key, Identity>, u: Unit)
    requires Matches(t1, known) && Matches(t2, known)
    requires forall k | Feeds(req, known, k, u) :: (k in t1 <==> k in t2) && (k in t1 ==> t1[k] == t2[k])
    ensures RecordOf(req, t1, u) == RecordOf(req, t2, u)
    ensures Live(req, t1, u) <==> Live(req, t2, u)
    ensures Live(req, t1, u) ==> UnitId(req, t1, u) == UnitId(req, t2, u)
  {
    forall k
      ensures k in RecordOf(req, t1, u) <==> k in RecordOf(req, t2, u)
    {
    }
    if Live(req, t1, u) {
      SameRowsStayLive(req, t1, t2, known, u);
    }
    if Live(req, t2, u) {
      SameRowsStayLive(req, t2, t1, known, u);
    }
  }

  lemma SameRowsStayLive(req: Request, t1: Table, t2: Table, known: map<Key, Identity>, u: Unit)
    requires Matches(t1, known) && Matches(t2, known) && Live(req, t1, u)
    requires forall k | Feeds(req, known, k, u) :: (k in t1 <==> k in t2) && (k in t1 ==> t1[k] == t2[k])
    ensures Live(req, t2, u)
  {
    LiveIsAnchored(req, t1, u);
    var k :| k in t1 && Anchors(req, k, t1[k].id) && UnitOf(req, k) == u;
    assert Feeds(req, known, k, u);
    AnchorIsLive(req, t2, k);
  }

  ghost predicate LogFeeds(req: Request, db: Db, k: Key, u: Unit, since: Time) {
    k in db.log && Feeds(req, db.known, k, u) && db.log[k].changedOn >= FloorSecond(since)
  }

  /** A record is re-sent exactly when one of its rows' log entries is recent. */
  lemma ResentIffLogged(req: Request, db: Db, u: Unit, since: Time)
    requires LogMatches(db.log, db.known)
    requires u.RowUnit? ==> Feeds(req, db.known, u.key, u)
    requires u.UserUnit? ==> req.ContractRollup? || req.InactiveRollup?
    ensures ChangedSince(ChangedOn(req, db.log, u), since) <==> exists k :: LogFeeds(req, db, k, u, since)
  {
    if u.RowUnit? {
      RowIsResentIffLogged(req, db, u, since);
    } else {
      UserIsResentIffLogged(req, db, u, since);
    }
  }

  lemma RowIsResentIffLogged(req: Request, db: Db, u: Unit, since: Time)
    requires u.RowUnit? && Feeds(req, db.known, u.key, u)
    ensures ChangedSince(ChangedOn(req, db.log, u), since) <==> exists k :: LogFeeds(req, db, k, u, since)
  {
    assert LogFeeds(req, db, u.key, u, since) <==> ChangedSince(ChangedOn(req, db.log, u), since);
    assert forall k | LogFeeds(req, db, k, u, since) :: k == u.key;
  }

  /** One user's rows in one log. */
  ghost function UserKeys(req: Request, log: Log, user: nat, source: Source): set<Key> {
    set k | k in log && SourceOf(k) == source && k.userPk == user && InScope(req, k, log[k].id)
  }

  /** The later of two latest changes is recent exactly when one of them is. */
  lemma LaterIsRecentIff(req: Request, log: Log, u: Unit, since: Time)
    requires u.UserUnit?
    ensures ChangedSince(ChangedOn(req, log, u), since) <==>
            || ChangedSince(MaxChanged(log, UserKeys(req, log, u.userPk, LearnerMv)), since)
            || ChangedSince(MaxChanged(log, UserKeys(req, log, u.userPk, EnrollmentMv)), since)
  {
    assert (set k | k in log && k.LearnerKey? && k.userPk == u.userPk && InScope(req, k, log[k].id)) ==
           UserKeys(req, log, u.userPk, LearnerMv);
    assert (set k | k in log && k.EnrollmentKey? && k.userPk == u.userPk && InScope(req, k, log[k].id)) ==
           UserKeys(req, log, u.userPk, EnrollmentMv);
  }

  lemma UserIsResentIffLogged(req: Request, db: Db, u: Unit, since: Time)
    requires LogMatches(db.log, db.known) && u.UserUnit? && (req.ContractRollup? || req.InactiveRollup?)
    ensures ChangedSince(ChangedOn(req, db.log, u), since) <==> exists k :: LogFeeds(req, db, k, u, since)
  {
    var lk, ek := UserKeys(req, db.log, u.userPk, LearnerMv), UserKeys(req, db.log, u.userPk, EnrollmentMv);
    LaterIsRecentIff(req, db.log, u, since);
    MaxReaches(db.log, lk, FloorSecond(since));
    MaxReaches(db.log, ek, FloorSecond(since));
    forall k
      ensures LogFeeds(req, db, k, u, since) <==> (k in lk || k in ek) && db.log[k].changedOn >= FloorSecond(since)
    {
      assert SourceOf(k) == LearnerMv || SourceOf(k) == EnrollmentMv;
    }
  }

  lemma MaxReaches(log: Log, keys: set<Key>, bound: Time)
    requires keys <= log.Keys
    ensures (MaxChanged(log, keys).Some? && MaxChanged(log, keys).value >= bound) <==>
            exists k :: k in keys && log[k].changedOn >= bound
  {
    var times := set k | k in keys :: log[k].changedOn;
    if k :| k in keys && log[k].changedOn >= bound {
      assert log[k].changedOn in times;
    }
  }

  /** When every log row of an identity is a tombstone, its removal is sent
      exactly when one of them is recent. */
  lemma RemovalIffLogged(req: Request, log: Log, id: Identity, since: Time)
    requires forall k | k in LogKeys(req, log, id) :: log[k].deleted
    ensures ChangedSince(RemovedOn(req, log, id), since) <==>
            exists k :: k in LogKeys(req, log, id) && log[k].changedOn >= FloorSecond(since)
  {
    var keys := LogKeys(req, log, id);
    assert (set k | k in keys && log[k].deleted) == keys;
    MaxReaches(log, keys, FloorSecond(since));
  }

  /** Nothing in the stamped tables holds `id`, so the log has only tombstones for it. */
  lemma UnheldIsTombstoned(db: Db, seeds: map<Source, Time>, req: Request, id: Identity)
    requires DbInv(db, seeds) && !HeldIn(req, db.stamped, id)
    ensures forall k | k in LogKeys(req, db.log, id) :: db.log[k].deleted && Names(req, db.known, k, id)
  {
    forall k | k in LogKeys(req, db.log, id)
      ensures db.log[k].deleted
    {
      AnchorHolds(req, db.stamped, k, id);
    }
  }

  lemma AnchorHolds(req: Request, t: Table, k: Key, id: Identity)
    ensures k in t && Anchors(req, k, t[k].id) && ClientId(req, t[k].id) == id ==> HeldIn(req, t, id)
  {
  }

  lemma FeedsSource(req: Request, known: map<Key, Identity>, k: Key, u: Unit)
    requires Feeds(req, known, k, u)
    ensures SourceOf(k) in Sources(req)
  {
  }

  lemma LiveUnitFeedsItself(req: Request, t: Table, known: map<Key, Identity>, u: Unit)
    requires Matches(t, known) && Live(req, t, u)
    ensures u.RowUnit? ==> Feeds(req, known, u.key, u)
    ensures u.UserUnit? ==> req.ContractRollup? || req.InactiveRollup?
  {
  }

  // ---- the three ways a state changes ----

  /** A refresh hides nothing: what it changes, the next stamp will notice. */
  lemma RefreshKeepsPending(db: Db, req: Request, s: Source, rows: Table, finish: Time, u: Unit, id: Identity)
    requires SoundRefresh(db, s, rows, finish) && forall k | Differs(db, k) :: SourceOf(k) in db.pending
    ensures PendingUnit(db, req, u) ==> PendingUnit(Refresh(db, s, rows, finish), req, u)
    ensures PendingId(db, req, id) ==> PendingId(Refresh(db, s, rows, finish), req, id)
  {
    var next := Refresh(db, s, rows, finish);
    if k :| Feeds(req, db.known, k, u) && Differs(db, k) {
      RefreshAtKey(db, s, rows, finish, k);
      assert Feeds(req, next.known, k, u) && Differs(next, k);
    }
    if k :| Names(req, db.known, k, id) && Differs(db, k) {
      RefreshAtKey(db, s, rows, finish, k);
      assert Names(req, next.known, k, id) && Differs(next, k);
    }
  }

  lemma RefreshKeepsCover(db: Db, seeds: map<Source, Time>, req: Request, copy: Copy, cursor: Time, s: Source, rows: Table, finish: Time)
    requires DbInv(db, seeds) && SoundRefresh(db, s, rows, finish) && Covers(db, req, copy, cursor)
    ensures Covers(Refresh(db, s, rows, finish), req, copy, cursor)
  {
    var next := Refresh(db, s, rows, finish);
    var noId := Identity(None, None, None, None);
    forall u | Live(req, next.stamped, u)
      ensures UnitCovered(next, req, copy, cursor, u)
    {
      assert UnitCovered(db, req, copy, cursor, u);
      RefreshKeepsPending(db, req, s, rows, finish, u, noId);
    }
    forall id | !HasNull(req, id) && Wanted(req, id) && !HeldIn(req, next.stamped, id)
      ensures IdCovered(next, req, copy, cursor, id)
    {
      assert IdCovered(db, req, copy, cursor, id);
      RefreshKeepsPending(db, req, s, rows, finish, UserUnit(0), id);
    }
  }

  /** A row the stamp notices gets a log time no older than any cursor a client
      can hold. */
  lemma StampedIsRecent(db: Db, seeds: map<Source, Time>, req: Request, copy: Copy, cursor: Time, s: Source, now: Time, k: Key)
    requires DbInv(db, seeds) && db.clock <= now && Covers(db, req, copy, cursor)
    requires k in db.known && InScope(req, k, db.known[k]) && Differs(db, k) && SourceOf(k) == s
    ensures k in Stamp(db, s, now).log && Stamp(db, s, now).log[k].changedOn >= FloorSecond(cursor)
  {
    StampAtKey(db, seeds, s, now, k);
    FeedsSource(req, db.known, k, UnitOf(req, k));
    FloorIsMonotone(cursor, now);
  }

  /** Log times only move forward, and what another view has pending stays so. */
  lemma StampKeepsPromises(db: Db, seeds: map<Source, Time>, req: Request, cursor: Time, s: Source, now: Time, u: Unit)
    requires DbInv(db, seeds) && db.clock <= now
    requires !exists k :: Feeds(req, db.known, k, u) && Differs(db, k) && SourceOf(k) == s
    ensures (exists k :: LogFeeds(req, db, k, u, cursor)) ==> exists k :: LogFeeds(req, Stamp(db, s, now), k, u, cursor)
    ensures PendingUnit(db, req, u) ==> PendingUnit(Stamp(db, s, now), req, u)
  {
    var next := Stamp(db, s, now);
    if k :| LogFeeds(req, db, k, u, cursor) {
      StampAtKey(db, seeds, s, now, k);
      assert LogFeeds(req, next, k, u, cursor);
    }
    if k :| Feeds(req, db.known, k, u) && Differs(db, k) {
      StampAtKey(db, seeds, s, now, k);
      assert Feeds(req, next.known, k, u) && Differs(next, k);
    }
  }

  lemma StampLeavesRecord(db: Db, seeds: map<Source, Time>, req: Request, s: Source, now: Time, u: Unit)
    requires DbInv(db, seeds) && db.clock <= now
    requires !exists k :: Feeds(req, db.known, k, u) && Differs(db, k) && SourceOf(k) == s
    ensures var next := Stamp(db, s, now);
            && RecordOf(req, next.stamped, u) == RecordOf(req, db.stamped, u)
            && (Live(req, next.stamped, u) <==> Live(req, db.stamped, u))
            && (Live(req, db.stamped, u) ==> UnitId(req, next.stamped, u) == UnitId(req, db.stamped, u))
  {
    var next := Stamp(db, s, now);
    StampKeepsDb(db, seeds, s, now);
    forall k | Feeds(req, db.known, k, u)
      ensures (k in next.stamped <==> k in db.stamped) && (k in db.stamped ==> next.stamped[k] == db.stamped[k])
    {
      StampAtKey(db, seeds, s, now, k);
    }
    SameRowsSameRecord(req, next.stamped, db.stamped, db.known, u);
  }

  lemma StampCoversUnit(db: Db, seeds: map<Source, Time>, req: Request, copy: Copy, cursor: Time, s: Source, now: Time, u: Unit)
    requires DbInv(db, seeds) && db.clock <= now && Covers(db, req, copy, cursor)
    requires Live(req, Stamp(db, s, now).stamped, u)
    ensures UnitCovered(Stamp(db, s, now), req, copy, cursor, u)
  {
    var next := Stamp(db, s, now);
    if k :| Feeds(req, db.known, k, u) && Differs(db, k) && SourceOf(k) == s {
      ChangedUnitIsCovered(db, seeds, req, copy, cursor, s, now, u, k);
    } else {
      UnchangedUnitStaysCovered(db, seeds, req, copy, cursor, s, now, u);
    }
  }

  /** A record with a row the stamp notices is due to be re-sent. */
  lemma ChangedUnitIsCovered(
    db: Db, seeds: map<Source, Time>, req: Request, copy: Copy, cursor: Time, s: Source, now: Time, u: Unit, k: Key)
    requires DbInv(db, seeds) && db.clock <= now && Covers(db, req, copy, cursor)
    requires Live(req, Stamp(db, s, now).stamped, u)
    requires Feeds(req, db.known, k, u) && Differs(db, k) && SourceOf(k) == s
    ensures ChangedSince(ChangedOn(req, Stamp(db, s, now).log, u), cursor)
  {
    var next := Stamp(db, s, now);
    StampKeepsDb(db, seeds, s, now);
    LiveUnitFeedsItself(req, next.stamped, db.known, u);
    ResentIffLogged(req, next, u, cursor);
    StampedIsRecent(db, seeds, req, copy, cursor, s, now, k);
    assert LogFeeds(req, next, k, u, cursor);
  }

  /** Any other record is as it was. */
  lemma UnchangedUnitStaysCovered(
    db: Db, seeds: map<Source, Time>, req: Request, copy: Copy, cursor: Time, s: Source, now: Time, u: Unit)
    requires DbInv(db, seeds) && db.clock <= now && Covers(db, req, copy, cursor)
    requires Live(req, Stamp(db, s, now).stamped, u)
    requires !exists k :: Feeds(req, db.known, k, u) && Differs(db, k) && SourceOf(k) == s
    ensures UnitCovered(Stamp(db, s, now), req, copy, cursor, u)
  {
    var next := Stamp(db, s, now);
    StampKeepsDb(db, seeds, s, now);
    LiveUnitFeedsItself(req, next.stamped, db.known, u);
    ResentIffLogged(req, next, u, cursor);
    ResentIffLogged(req, db, u, cursor);
    StampLeavesRecord(db, seeds, req, s, now, u);
    StampKeepsPromises(db, seeds, req, cursor, s, now, u);
    assert UnitCovered(db, req, copy, cursor, u);
  }

  lemma StampCoversLeaver(db: Db, seeds: map<Source, Time>, req: Request, copy: Copy, cursor: Time, s: Source, now: Time, id: Identity)
    requires DbInv(db, seeds) && db.clock <= now && Covers(db, req, copy, cursor)
    requires HeldIn(req, db.stamped, id) && !HeldIn(req, Stamp(db, s, now).stamped, id)
    ensures exists k :: k in LogKeys(req, Stamp(db, s, now).log, id) && Stamp(db, s, now).log[k].changedOn >= FloorSecond(cursor)
  {
    var next := Stamp(db, s, now);
    StampKeepsDb(db, seeds, s, now);
    var k :| k in db.stamped && Anchors(req, k, db.stamped[k].id) && ClientId(req, db.stamped[k].id) == id;
    StampAtKey(db, seeds, s, now, k);
    AnchorHolds(req, next.stamped, k, id);
    StampedIsRecent(db, seeds, req, copy, cursor, s, now, k);
    assert k in LogKeys(req, next.log, id);
  }

  lemma StampKeepsAbsence(db: Db, seeds: map<Source, Time>, req: Request, cursor: Time, s: Source, now: Time, id: Identity)
    requires DbInv(db, seeds) && db.clock <= now
    requires !HeldIn(req, db.stamped, id) && !HeldIn(req, Stamp(db, s, now).stamped, id)
    ensures (exists k :: k in LogKeys(req, db.log, id) && db.log[k].changedOn >= FloorSecond(cursor)) ==>
              exists k :: k in LogKeys(req, Stamp(db, s, now).log, id) && Stamp(db, s, now).log[k].changedOn >= FloorSecond(cursor)
    ensures PendingId(db, req, id) ==> PendingId(Stamp(db, s, now), req, id)
  {
    var next := Stamp(db, s, now);
    StampKeepsDb(db, seeds, s, now);
    if k :| k in LogKeys(req, db.log, id) && db.log[k].changedOn >= FloorSecond(cursor) {
      StampAtKey(db, seeds, s, now, k);
      assert k in LogKeys(req, next.log, id);
    }
    if k :| Names(req, db.known, k, id) && Differs(db, k) {
      ArrivalOutlastsStamp(db, seeds, req, s, now, id, k);
      assert Names(req, next.known, k, id) && Differs(next, k);
    }
  }

  /** A row arriving for an identity nobody held is stamped only with its view,
      and then the identity is held. */
  lemma ArrivalOutlastsStamp(db: Db, seeds: map<Source, Time>, req: Request, s: Source, now: Time, id: Identity, k: Key)
    requires DbInv(db, seeds) && db.clock <= now
    requires !HeldIn(req, db.stamped, id) && !HeldIn(req, Stamp(db, s, now).stamped, id)
    requires Names(req, db.known, k, id) && Differs(db, k)
    ensures Differs(Stamp(db, s, now), k)
  {
    StampAtKey(db, seeds, s, now, k);
    AnchorHolds(req, db.stamped, k, id);
    AnchorHolds(req, Stamp(db, s, now).stamped, k, id);
  }

  lemma StampCoversId(db: Db, seeds: map<Source, Time>, req: Request, copy: Copy, cursor: Time, s: Source, now: Time, id: Identity)
    requires DbInv(db, seeds) && db.clock <= now && Covers(db, req, copy, cursor)
    requires !HasNull(req, id) && Wanted(req, id) && !HeldIn(req, Stamp(db, s, now).stamped, id)
    ensures IdCovered(Stamp(db, s, now), req, copy, cursor, id)
  {
    var next := Stamp(db, s, now);
    StampKeepsDb(db, seeds, s, now);
    UnheldIsTombstoned(next, seeds, req, id);
    RemovalIffLogged(req, next.log, id, cursor);
    if HeldIn(req, db.stamped, id) {
      StampCoversLeaver(db, seeds, req, copy, cursor, s, now, id);
    } else {
      assert IdCovered(db, req, copy, cursor, id);
      UnheldIsTombstoned(db, seeds, req, id);
      RemovalIffLogged(req, db.log, id, cursor);
      StampKeepsAbsence(db, seeds, req, cursor, s, now, id);
    }
  }

  /** A stamp turns what was pending into log rows no older than the cursor. */
  lemma StampKeepsCover(db: Db, seeds: map<Source, Time>, req: Request, copy: Copy, cursor: Time, s: Source, now: Time)
    requires DbInv(db, seeds) && db.clock <= now && Covers(db, req, copy, cursor)
    ensures Covers(Stamp(db, s, now), req, copy, cursor)
  {
    var next := Stamp(db, s, now);
    forall u | Live(req, next.stamped, u)
      ensures UnitCovered(next, req, copy, cursor, u)
    {
      StampCoversUnit(db, seeds, req, copy, cursor, s, now, u);
    }
    forall id | !HasNull(req, id) && Wanted(req, id) && !HeldIn(req, next.stamped, id)
      ensures IdCovered(next, req, copy, cursor, id)
    {
      StampCoversId(db, seeds, req, copy, cursor, s, now, id);
    }
  }
}
