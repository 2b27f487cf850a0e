/** The tables over time. ol-data-platform refreshes a view and then stamps its
    change log; both jobs are outside this repository, so their documented
    contract is stated here as two steps and the hypotheses they need. */
module SyncSteps {
  import opened Common
  import opened ChangeLog

  /** `stamped` is what each view held when its log was last stamped: the row
      hashes the log compares against. `known` remembers every identity ever
      seen under a key, `pending` the views refreshed since their last stamp. */
  datatype Db = Db(
    mv: Table,
    stamped: Table,
    log: Log,
    known: map<Key, Identity>,
    pending: set<Source>,
    refreshed: map<Source, Time>,
    clock: Time)

  ghost predicate Matches(t: Table, known: map<Key, Identity>) {
    forall k | k in t :: k in known && known[k] == t[k].id
  }

  ghost predicate LogMatches(log: Log, known: map<Key, Identity>) {
    forall k | k in log :: k in known && known[k] == log[k].id
  }

  /** A user_pk belongs to one learner. */
  ghost predicate OneLearner(known: map<Key, Identity>) {
    forall j, k | j in known && k in known && j.userPk == k.userPk :: known[j].learner == known[k].learner
  }

  /** The next stamp will notice `k`. */
  ghost predicate Differs(db: Db, k: Key) {
    || (k in db.mv && k !in db.stamped)
    || (k in db.stamped && k !in db.mv)
    || (k in db.mv && k in db.stamped && db.mv[k] != db.stamped[k])
  }

  ghost predicate LogTimesOk(db: Db, seeds: map<Source, Time>) {
    forall k | k in db.log ::
      && FloorSecond(db.log[k].changedOn) == db.log[k].changedOn <= db.clock
      && SourceOf(k) in seeds && seeds[SourceOf(k)] <= db.log[k].changedOn
  }

  ghost predicate DbInv(db: Db, seeds: map<Source, Time>) {
    && Matches(db.mv, db.known) && Matches(db.stamped, db.known) && LogMatches(db.log, db.known)
    && OneLearner(db.known)
    && (forall k | Differs(db, k) :: SourceOf(k) in db.pending)
    && (forall k :: k in db.stamped <==> k in db.log && !db.log[k].deleted)
    && LogTimesOk(db, seeds)
    && (forall s: Source :: s in db.refreshed && db.refreshed[s] <= db.clock)
    && (forall s: Source :: s in seeds && FloorSecond(seeds[s]) == seeds[s] <= db.clock)
  }

  function Refresh(db: Db, s: Source, rows: Table, finish: Time): Db {
    db.(mv := (map k | k in db.mv && SourceOf(k) != s :: db.mv[k]) + rows,
        known := db.known + map k | k in rows :: rows[k].id,
        pending := db.pending + {s},
        refreshed := db.refreshed[s := finish],
        clock := finish)
  }

  /** The hypotheses: refreshes and stamps of one view alternate, and a key is
      never reused for another identity. Any number of keys may come and go
      under one identity. */
  ghost predicate SoundRefresh(db: Db, s: Source, rows: Table, finish: Time) {
    && s !in db.pending
    && db.clock <= finish
    && (forall k | k in rows :: SourceOf(k) == s && (k in db.known ==> db.known[k] == rows[k].id))
    && OneLearner(Refresh(db, s, rows, finish).known)
  }

  /** What a stamp writes under `k`, its time truncated to whole seconds. */
  function StampRow(db: Db, k: Key, now: Time): LogRow
    requires k in db.mv || k in db.log
    requires k in db.stamped ==> k in db.log
  {
    if k in db.mv then
      if k in db.stamped && db.stamped[k] == db.mv[k] then db.log[k] else LogRow(db.mv[k].id, FloorSecond(now), false)
    else if db.log[k].deleted then db.log[k]
    else LogRow(db.log[k].id, FloorSecond(now), true)
  }

  function Stamp(db: Db, s: Source, now: Time): Db
    requires forall k :: k in db.stamped ==> k in db.log
  {
    db.(stamped := map k | k in db.mv.Keys + db.stamped.Keys && k in (if SourceOf(k) == s then db.mv else db.stamped) ::
                     if SourceOf(k) == s then db.mv[k] else db.stamped[k],
        log := map k | k in db.mv.Keys + db.log.Keys && (SourceOf(k) == s || k in db.log) ::
                 if SourceOf(k) == s then StampRow(db, k, now) else db.log[k],
        pending := db.pending - {s},
        clock := now)
  }

  lemma FloorIsMonotone(a: Time, b: Time)
    requires a <= b
    ensures FloorSecond(a) <= FloorSecond(b) <= b
    ensures FloorSecond(FloorSecond(b)) == FloorSecond(b)
  {
  }

  /** What one refresh does under one key. */
  lemma RefreshAtKey(db: Db, s: Source, rows: Table, finish: Time, k: Key)
    requires SoundRefresh(db, s, rows, finish)
    ensures var next := Refresh(db, s, rows, finish);
            && (SourceOf(k) != s ==> (Differs(next, k) <==> Differs(db, k)))
            && (SourceOf(k) != s ==> (k in next.mv <==> k in db.mv) && (k in db.mv ==> next.mv[k] == db.mv[k]))
            && (SourceOf(k) == s ==> (k in next.mv <==> k in rows) && (k in rows ==> next.mv[k] == rows[k]))
            && (k in db.known ==> k in next.known && next.known[k] == db.known[k])
            && (k in rows ==> k in next.known && next.known[k] == rows[k].id)
  {
  }

  lemma RefreshKeepsDb(db: Db, seeds: map<Source, Time>, s: Source, rows: Table, finish: Time)
    requires DbInv(db, seeds) && SoundRefresh(db, s, rows, finish)
    ensures DbInv(Refresh(db, s, rows, finish), seeds)
  {
    var next := Refresh(db, s, rows, finish);
    RefreshKeepsIdentities(db, seeds, s, rows, finish);
    RefreshIsPending(db, seeds, s, rows, finish);
    assert LogTimesOk(next, seeds);
  }

  lemma RefreshKeepsIdentities(db: Db, seeds: map<Source, Time>, s: Source, rows: Table, finish: Time)
    requires DbInv(db, seeds) && SoundRefresh(db, s, rows, finish)
    ensures var next := Refresh(db, s, rows, finish);
            Matches(next.mv, next.known) && Matches(next.stamped, next.known) && LogMatches(next.log, next.known)
  {
    var next := Refresh(db, s, rows, finish);
    forall k
      ensures k in next.mv ==> k in next.known && next.known[k] == next.mv[k].id
      ensures k in next.stamped ==> k in next.known && next.known[k] == next.stamped[k].id
      ensures k in next.log ==> k in next.known && next.known[k] == next.log[k].id
    {
      RefreshAtKey(db, s, rows, finish, k);
    }
  }

  lemma RefreshIsPending(db: Db, seeds: map<Source, Time>, s: Source, rows: Table, finish: Time)
    requires DbInv(db, seeds) && SoundRefresh(db, s, rows, finish)
    ensures var next := Refresh(db, s, rows, finish); forall k | Differs(next, k) :: SourceOf(k) in next.pending
  {
    var next := Refresh(db, s, rows, finish);
    forall k | Differs(next, k)
      ensures SourceOf(k) in next.pending
    {
      RefreshAtKey(db, s, rows, finish, k);
    }
  }

  /** What one stamp does under one key. */
  lemma StampAtKey(db: Db, seeds: map<Source, Time>, s: Source, now: Time, k: Key)
    requires DbInv(db, seeds) && db.clock <= now
    ensures var next := Stamp(db, s, now);
            && (SourceOf(k) == s ==> !Differs(next, k))
            && (SourceOf(k) != s ==> (Differs(next, k) <==> Differs(db, k)))
            && (k in db.log ==> k in next.log && next.log[k].changedOn >= db.log[k].changedOn && next.log[k].id == db.log[k].id)
            && (Differs(db, k) && SourceOf(k) == s ==> k in next.log && next.log[k].changedOn == FloorSecond(now))
            && (!Differs(db, k) || SourceOf(k) != s ==>
                  && (k in next.stamped <==> k in db.stamped)
                  && (k in db.stamped ==> next.stamped[k] == db.stamped[k])
                  && (k in next.log <==> k in db.log)
                  && (k in db.log ==> next.log[k] == db.log[k]))
  {
    if SourceOf(k) == s {
      StampAtOwnKey(db, seeds, s, now, k);
    } else {
      StampAtOtherKey(db, s, now, k);
    }
  }

  /** A key of the stamped view. */
  lemma StampAtOwnKey(db: Db, seeds: map<Source, Time>, s: Source, now: Time, k: Key)
    requires DbInv(db, seeds) && db.clock <= now && SourceOf(k) == s
    ensures var next := Stamp(db, s, now);
            && (k in next.stamped <==> k in db.mv) && (k in db.mv ==> next.stamped[k] == db.mv[k])
            && (k in next.log <==> k in db.mv || k in db.log)
            && (k in next.log ==> next.log[k] == StampRow(db, k, now))
            && (k in db.log ==> StampRow(db, k, now).changedOn >= db.log[k].changedOn && StampRow(db, k, now).id == db.log[k].id)
  {
    if k in db.log {
      FloorIsMonotone(db.log[k].changedOn, now);
    }
  }

  /** A key of any other view. */
  lemma StampAtOtherKey(db: Db, s: Source, now: Time, k: Key)
    requires (forall j :: j in db.stamped ==> j in db.log) && SourceOf(k) != s
    ensures var next := Stamp(db, s, now);
            && (k in next.stamped <==> k in db.stamped) && (k in db.stamped ==> next.stamped[k] == db.stamped[k])
            && (k in next.log <==> k in db.log) && (k in db.log ==> next.log[k] == db.log[k])
  {
  }

  lemma StampKeepsDb(db: Db, seeds: map<Source, Time>, s: Source, now: Time)
    requires DbInv(db, seeds) && db.clock <= now
    ensures DbInv(Stamp(db, s, now), seeds)
  {
    var next := Stamp(db, s, now);
    forall k
      ensures Differs(next, k) ==> SourceOf(k) in next.pending
      ensures k in next.stamped <==> k in next.log && !next.log[k].deleted
      ensures k in next.stamped ==> k in db.known && db.known[k] == next.stamped[k].id
      ensures k in next.log ==> k in db.known && db.known[k] == next.log[k].id
      ensures k in next.log ==>
                && FloorSecond(next.log[k].changedOn) == next.log[k].changedOn <= now
                && SourceOf(k) in seeds && seeds[SourceOf(k)] <= next.log[k].changedOn
    {
      StampAtKey(db, seeds, s, now, k);
      FloorIsMonotone(seeds[SourceOf(k)], now);
    }
  }
}
