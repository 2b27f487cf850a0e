/** Whole runs: refreshes, stamps, cached freshness and one syncing client,
    interleaved at every await of the server. The client applies one snapshot
    of rows at a time, and takes as its next cursor the `as_of` that was read
    before them. */
module SyncProtocol {
  import opened Common
  import opened ChangeLog
  import opened SyncSteps
  import opened SyncCoverage
  import opened SyncServer
  import opened SyncDelivery

  /** Only one record is live under an identity. */
  ghost predicate UniqueLive(req: Request, t: Table) {
    forall u, v | Live(req, t, u) && Live(req, t, v) && UnitId(req, t, u) == UnitId(req, t, v) && !HasNull(req, UnitId(req, t, u)) ::
      u == v
  }

  /** As covered as a copy can be: all that is left is for the next stamp. */
  ghost predicate Settled(db: Db, req: Request, copy: Copy) {
    && (forall u | Live(req, db.stamped, u) :: UnitSettled(db, req, copy, u))
    && (forall id | !HasNull(req, id) && Wanted(req, id) && !HeldIn(req, db.stamped, id) :: id !in copy || PendingId(db, req, id))
  }

  ghost predicate UnitSettled(db: Db, req: Request, copy: Copy, u: Unit)
    requires Live(req, db.stamped, u)
  {
    var id := UnitId(req, db.stamped, u);
    || HasNull(req, id)
    || !Wanted(req, id)
    || (id in copy && copy[id] == RecordOf(req, db.stamped, u))
    || PendingUnit(db, req, u)
  }

  /** The copy is the live view, on every identity the client asked for. Only an
      identity that a deactivated row still holds is left open. */
  ghost predicate Converged(req: Request, mv: Table, copy: Copy) {
    && (forall u | Live(req, mv, u) :: UnitConverged(req, mv, copy, u))
    && (forall id | !HasNull(req, id) && Wanted(req, id) && !HeldIn(req, mv, id) :: id !in copy)
  }

  ghost predicate UnitConverged(req: Request, mv: Table, copy: Copy, u: Unit)
    requires Live(req, mv, u)
  {
    var id := UnitId(req, mv, u);
    HasNull(req, id) || !Wanted(req, id) || (id in copy && copy[id] == RecordOf(req, mv, u))
  }

  lemma AppliedSend(copy: Copy, response: Response, u: Unit)
    requires u in response.live
    requires forall v | v in response.live && response.live[v].id == response.live[u].id :: v == u
    ensures response.live[u].id in Apply(copy, response)
    ensures Apply(copy, response)[response.live[u].id] == response.live[u].record
  {
    assert Sends(response, response.live[u].id);
  }

  lemma AppliedSilence(copy: Copy, response: Response, id: Identity)
    requires !Sends(response, id)
    ensures id in Apply(copy, response) <==> id in copy && id !in response.removed
    ensures id in Apply(copy, response) ==> Apply(copy, response)[id] == copy[id]
  {
    assert forall u | u in response.live :: response.live[u].id != id;
  }

  lemma LiveUnitIsScanned(req: Request, t: Table, u: Unit)
    requires Live(req, t, u)
    ensures u in set k | k in t :: UnitOf(req, k)
  {
    LiveIsAnchored(req, t, u);
  }

  /** Rows the next stamp will not notice are the same in both tables. */
  lemma NothingPendingIsSame(db: Db, seeds: map<Source, Time>, req: Request, u: Unit)
    requires DbInv(db, seeds) && !PendingUnit(db, req, u)
    ensures RecordOf(req, db.mv, u) == RecordOf(req, db.stamped, u)
    ensures Live(req, db.mv, u) <==> Live(req, db.stamped, u)
    ensures Live(req, db.mv, u) ==> UnitId(req, db.mv, u) == UnitId(req, db.stamped, u)
  {
    SameRowsSameRecord(req, db.mv, db.stamped, db.known, u);
  }

  ghost predicate MayRead(db: Db, req: Request, copy: Copy, since: Option<Time>) {
    && UniqueLive(req, db.mv)
    && (since.Some? ==> Covers(db, req, copy, since.value))
    && (since.None? ==> copy == map[])
  }

  lemma ReadSettlesUnit(db: Db, seeds: map<Source, Time>, req: Request, copy: Copy, since: Option<Time>, u: Unit)
    requires DbInv(db, seeds) && MayRead(db, req, copy, since) && Live(req, db.stamped, u)
    ensures UnitSettled(db, req, Apply(copy, Answer(req, db.mv, db.log, since)), u)
  {
    var a := Answer(req, db.mv, db.log, since);
    var id := UnitId(req, db.stamped, u);
    if !PendingUnit(db, req, u) && !HasNull(req, id) && Wanted(req, id) {
      NothingPendingIsSame(db, seeds, req, u);
      SentIff(req, db.mv, db.log, since, u);
      if u in a.live {
        SentIsCurrent(req, db.mv, db.log, copy, since, u);
      } else {
        assert UnitCovered(db, req, copy, since.value, u);
        LiveIdIsHeld(req, db.mv, db.known, u);
        UnsentIsKept(req, db.mv, db.log, copy, since, u);
      }
    }
  }

  lemma SentIff(req: Request, mv: Table, log: Log, since: Option<Time>, u: Unit)
    requires Live(req, mv, u)
    ensures u in Answer(req, mv, log, since).live <==>
            Wanted(req, UnitId(req, mv, u)) && (since.Some? ==> ChangedSince(ChangedOn(req, log, u), since.value))
  {
    LiveUnitIsScanned(req, mv, u);
  }

  /** A live record that a response sends is in the copy as it is. */
  lemma SentIsCurrent(req: Request, mv: Table, log: Log, copy: Copy, since: Option<Time>, u: Unit)
    requires UniqueLive(req, mv) && Live(req, mv, u) && u in Answer(req, mv, log, since).live && !HasNull(req, UnitId(req, mv, u))
    ensures var id, next := UnitId(req, mv, u), Apply(copy, Answer(req, mv, log, since));
            id in next && next[id] == RecordOf(req, mv, u)
  {
    AppliedSend(copy, Answer(req, mv, log, since), u);
  }

  /** A live record that a response leaves out stays in the copy as it was. */
  lemma UnsentIsKept(req: Request, mv: Table, log: Log, copy: Copy, since: Option<Time>, u: Unit)
    requires UniqueLive(req, mv) && Live(req, mv, u) && u !in Answer(req, mv, log, since).live
    requires !HasNull(req, UnitId(req, mv, u)) && HeldIn(req, mv, UnitId(req, mv, u))
    ensures var id, next := UnitId(req, mv, u), Apply(copy, Answer(req, mv, log, since));
            id in copy ==> id in next && next[id] == copy[id]
  {
    var a := Answer(req, mv, log, since);
    assert !Sends(a, UnitId(req, mv, u));
    HeldIsStillHeld(req, mv, UnitId(req, mv, u));
    AppliedSilence(copy, a, UnitId(req, mv, u));
  }

  lemma RemovalIsSent(req: Request, mv: Table, log: Log, since: Time, id: Identity)
    requires !HasNull(req, id) && Wanted(req, id) && !HeldIn(req, mv, id)
    requires ChangedSince(RemovedOn(req, log, id), since)
    ensures id in Answer(req, mv, log, Some(since)).removed
  {
    var keys := LogKeys(req, log, id);
    var k := Pick(if keys == {} then set j | j in log else keys);
    assert keys != {};
    assert ClientId(req, log[k].id) in (set j | j in log :: ClientId(req, log[j].id));
    StillHeldIffHeld(req, mv, log, id);
  }

  lemma ReadSettlesId(db: Db, seeds: map<Source, Time>, req: Request, copy: Copy, since: Option<Time>, id: Identity)
    requires DbInv(db, seeds) && MayRead(db, req, copy, since)
    requires !HasNull(req, id) && Wanted(req, id) && !HeldIn(req, db.stamped, id)
    ensures id !in Apply(copy, Answer(req, db.mv, db.log, since)) || PendingId(db, req, id)
  {
    var a := Answer(req, db.mv, db.log, since);
    if HeldIn(req, db.mv, id) {
      var k :| k in db.mv && Anchors(req, k, db.mv[k].id) && ClientId(req, db.mv[k].id) == id;
      AnchorHolds(req, db.stamped, k, id);
      assert Names(req, db.known, k, id) && Differs(db, k);
    } else {
      if Sends(a, id) {
        var u :| u in a.live && a.live[u].id == id;
        LiveIdIsHeld(req, db.mv, db.known, u);
      }
      AppliedSilence(copy, a, id);
      if since.Some? {
        assert IdCovered(db, req, copy, since.value, id);
        if ChangedSince(RemovedOn(req, db.log, id), since.value) {
          RemovalIsSent(req, db.mv, db.log, since.value, id);
        }
      }
    }
  }

  /** One accepted sync, or one full read, settles the copy. */
  lemma ReadSettles(db: Db, seeds: map<Source, Time>, req: Request, copy: Copy, since: Option<Time>)
    requires DbInv(db, seeds) && MayRead(db, req, copy, since)
    ensures Settled(db, req, Apply(copy, Answer(req, db.mv, db.log, since)))
  {
    var next := Apply(copy, Answer(req, db.mv, db.log, since));
    forall u | Live(req, db.stamped, u)
      ensures UnitSettled(db, req, next, u)
    {
      ReadSettlesUnit(db, seeds, req, copy, since, u);
    }
    forall id | !HasNull(req, id) && Wanted(req, id) && !HeldIn(req, db.stamped, id)
      ensures id !in next || PendingId(db, req, id)
    {
      ReadSettlesId(db, seeds, req, copy, since, id);
    }
  }

  lemma SettledIsCovered(db: Db, req: Request, copy: Copy, cursor: Time)
    requires Settled(db, req, copy)
    requires forall s | s in Sources(req) :: s in db.refreshed && cursor <= db.refreshed[s]
    ensures Covers(db, req, copy, cursor)
  {
    forall u | Live(req, db.stamped, u)
      ensures UnitCovered(db, req, copy, cursor, u)
    {
      assert UnitSettled(db, req, copy, u);
    }
  }

  /** With every log stamped since its view's last refresh, settled is converged. */
  lemma SettledConverges(db: Db, seeds: map<Source, Time>, req: Request, copy: Copy)
    requires DbInv(db, seeds) && Settled(db, req, copy) && db.pending !! Sources(req)
    ensures Converged(req, db.mv, copy)
  {
    forall u | Live(req, db.mv, u)
      ensures UnitConverged(req, db.mv, copy, u)
    {
      forall k | Feeds(req, db.known, k, u)
        ensures !Differs(db, k)
      {
        FeedsSource(req, db.known, k, u);
      }
      NothingPendingIsSame(db, seeds, req, u);
      assert UnitSettled(db, req, copy, u);
    }
    forall id | !HasNull(req, id) && Wanted(req, id) && !HeldIn(req, db.mv, id)
      ensures id !in copy
    {
      forall k | Names(req, db.known, k, id)
        ensures !Differs(db, k)
      {
        FeedsSource(req, db.known, k, UnitOf(req, k));
      }
      if HeldIn(req, db.stamped, id) {
        var k :| k in db.stamped && Anchors(req, k, db.stamped[k].id) && ClientId(req, db.stamped[k].id) == id;
        assert Names(req, db.known, k, id);
        AnchorHolds(req, db.mv, k, id);
      }
    }
  }

  // ---- runs ----

  /** Where the client's request stands. `since` is its cursor, None for a
      reload in full. */
  datatype Phase =
    | Idle
    | Begun(since: Option<Time>)
    | Dated(since: Option<Time>, asOf: Option<Time>)
    | Answered(asOf: Option<Time>, next: Copy)

  /** What each server process holds of each view: its refresh time in `caches`,
      where its log starts in `starts`. An entry may be filled at any time and
      kept for any time, so a request that fills one entry, awaits, and fills
      the next is one that reads both at the end. */
  datatype World = World(
    db: Db,
    copy: Copy,
    cursor: Option<Time>,
    phase: Phase,
    caches: map<(nat, Source), Option<Time>>,
    starts: map<(nat, Source), Option<Time>>)

  datatype Action =
    | DoRefresh(view: Source, rows: Table, finish: Time)
    | DoStamp(view: Source, now: Time)
    | FillCache(process: nat, view: Source, found: bool)
    | ExpireCache(process: nat, view: Source)
    | FillStart(process: nat, view: Source)
    | ExpireStart(process: nat, view: Source)
    | BeginFull
    | BeginSync(process: nat, now: Time)
    | ReadAsOf(process: nat)
    | ReadRows
    | ClientApply

  ghost function CachedTimes(req: Request, caches: map<(nat, Source), Option<Time>>, p: nat): seq<Option<Time>>
    requires forall s | s in Sources(req) :: (p, s) in caches
  {
    (if LearnerMv in Sources(req) then [caches[(p, LearnerMv)]] else [])
    + (if EnrollmentMv in Sources(req) then [caches[(p, EnrollmentMv)]] else [])
  }

  /** What a client applies the next response to. */
  function Before(w: World): Copy
    requires w.phase.Dated?
  {
    if w.phase.since.None? then map[] else w.copy
  }

  /** The response to reading the rows now. */
  ghost function NextAnswer(w: World, req: Request): Response
    requires w.phase.Dated?
  {
    Answer(req, w.db.mv, w.db.log, w.phase.since)
  }

  /** One action. A response that cannot be built is an error, and leaves the
      client as it was. */
  ghost function Step(w: World, req: Request, a: Action): Option<World> {
    match a
    case DoRefresh(s, rows, finish) =>
      if SoundRefresh(w.db, s, rows, finish) then Some(w.(db := Refresh(w.db, s, rows, finish))) else None
    case DoStamp(s, now) =>
      if w.db.clock <= now && forall k :: k in w.db.stamped ==> k in w.db.log then Some(w.(db := Stamp(w.db, s, now))) else None
    case FillCache(p, s, found) =>
      if s in w.db.refreshed then Some(w.(caches := w.caches[(p, s) := if found then Some(w.db.refreshed[s]) else None])) else None
    case ExpireCache(p, s) => Some(w.(caches := w.caches - {(p, s)}))
    case BeginFull => if w.phase.Idle? then Some(w.(phase := Begun(None))) else None
    case FillStart(p, s) => Some(w.(starts := w.starts[(p, s) := LogStart(w.db.log, s)]))
    case ExpireStart(p, s) => Some(w.(starts := w.starts - {(p, s)}))
    case BeginSync(p, now) =>
      if w.phase.Idle? && w.cursor.Some? && (forall s | s in Sources(req) :: (p, s) in w.starts)
         && Accepts(CachedTimes(req, w.starts, p), w.cursor.value, now)
      then Some(w.(phase := Begun(w.cursor)))
      else None
    case ReadAsOf(p) =>
      if w.phase.Begun? && forall s | s in Sources(req) :: (p, s) in w.caches then
        Some(w.(phase := Dated(w.phase.since, Stalest(CachedTimes(req, w.caches, p)))))
      else None
    case ReadRows =>
      if w.phase.Dated? && UniqueLive(req, w.db.mv) then
        if Delivered(req, NextAnswer(w, req)) then
          Some(w.(phase := Answered(w.phase.asOf, Apply(Before(w), NextAnswer(w, req)))))
        else Some(w.(phase := Idle))
      else None
    case ClientApply =>
      if w.phase.Answered? then Some(w.(copy := w.phase.next, cursor := w.phase.asOf, phase := Idle)) else None
  }

  ghost function Run(w: World, req: Request, actions: seq<Action>): Option<World>
    decreases |actions|
  {
    if actions == [] then Some(w)
    else
      match Step(w, req, actions[0])
      case None => None
      case Some(next) => Run(next, req, actions[1..])
  }

  /** The logs as created: every row seeded with its log's creation time, a
      whole second. The client may hold anything, with a cursor from before. */
  ghost predicate Initial(w: World, req: Request, seeds: map<Source, Time>) {
    && DbInv(w.db, seeds)
    && w.db.stamped == w.db.mv && w.db.pending == {}
    && (forall k | k in w.db.log :: k in w.db.mv && w.db.log[k].changedOn == seeds[SourceOf(k)])
    && (w.cursor.Some? ==> Untracked(req, seeds, w.cursor.value))
    && w.phase.Idle? && w.caches == map[] && w.starts == map[]
  }

  /** From before some log this request reads was created. */
  ghost predicate Untracked(req: Request, seeds: map<Source, Time>, cursor: Time) {
    exists s :: s in Sources(req) && s in seeds && cursor < seeds[s]
  }

  ghost predicate AsOfIsPast(db: Db, req: Request, asOf: Option<Time>) {
    asOf.Some? ==> forall s | s in Sources(req) :: s in db.refreshed && asOf.value <= db.refreshed[s]
  }

  ghost predicate Inv(w: World, req: Request, seeds: map<Source, Time>) {
    && DbInv(w.db, seeds)
    && CachesInv(w.db, w.caches)
    && (forall p, s | (p, s) in w.starts && w.starts[(p, s)].Some? :: seeds[s] <= w.starts[(p, s)].value)
    && (w.cursor.Some? ==> Untracked(req, seeds, w.cursor.value) || Covers(w.db, req, w.copy, w.cursor.value))
    && PhaseInv(w.db, req, w.copy, w.phase)
  }

  ghost predicate CachesInv(db: Db, caches: map<(nat, Source), Option<Time>>) {
    forall p, s | (p, s) in caches && caches[(p, s)].Some? :: s in db.refreshed && caches[(p, s)].value <= db.refreshed[s]
  }

  ghost predicate PhaseInv(db: Db, req: Request, copy: Copy, phase: Phase) {
    match phase
    case Idle => true
    case Begun(since) => SinceIsCovered(db, req, copy, since)
    case Dated(since, asOf) => SinceIsCovered(db, req, copy, since) && AsOfIsPast(db, req, asOf)
    case Answered(asOf, next) => asOf.Some? ==> Covers(db, req, next, asOf.value)
  }

  ghost predicate SinceIsCovered(db: Db, req: Request, copy: Copy, since: Option<Time>) {
    since.Some? ==> Covers(db, req, copy, since.value)
  }

  lemma LogStartsAfterSeed(db: Db, seeds: map<Source, Time>, s: Source)
    requires DbInv(db, seeds)
    ensures LogStart(db.log, s).Some? ==> seeds[s] <= LogStart(db.log, s).value
  {
    var times := set k | k in db.log && SourceOf(k) == s :: db.log[k].changedOn;
    if times != {} {
      assert MinOf(times).value in times;
    }
  }

  lemma CachedTimesAre(req: Request, caches: map<(nat, Source), Option<Time>>, p: nat, s: Source)
    requires (forall t | t in Sources(req) :: (p, t) in caches) && s in Sources(req)
    ensures caches[(p, s)] in CachedTimes(req, caches, p)
  {
    var times := CachedTimes(req, caches, p);
    assert s == LearnerMv ==> times[0] == caches[(p, s)];
    assert s == EnrollmentMv ==> times[|times| - 1] == caches[(p, s)];
  }

  /** An accepted cursor is from after the logs began, however long ago the
      process read where they start. */
  lemma AcceptedIsTracked(w: World, req: Request, seeds: map<Source, Time>, p: nat, now: Time)
    requires Inv(w, req, seeds) && w.cursor.Some? && forall s | s in Sources(req) :: (p, s) in w.starts
    requires Accepts(CachedTimes(req, w.starts, p), w.cursor.value, now)
    ensures !Untracked(req, seeds, w.cursor.value)
  {
    forall s | s in Sources(req)
      ensures seeds[s] <= w.cursor.value
    {
      CachedTimesAre(req, w.starts, p, s);
    }
  }

  lemma CachedAsOfIsPast(w: World, req: Request, seeds: map<Source, Time>, p: nat)
    requires Inv(w, req, seeds) && forall s | s in Sources(req) :: (p, s) in w.caches
    ensures AsOfIsPast(w.db, req, Stalest(CachedTimes(req, w.caches, p)))
  {
    var times := CachedTimes(req, w.caches, p);
    StalestIsLeast(times);
    forall s | s in Sources(req)
      ensures w.caches[(p, s)] in times
    {
      CachedTimesAre(req, w.caches, p, s);
    }
  }

  /** A sync begins exactly with a cursor at most ninety days old, against logs
      that the process has seen start no later. */
  lemma SyncBeginsIff(w: World, req: Request, p: nat, now: Time)
    requires w.phase.Idle? && w.cursor.Some? && forall s | s in Sources(req) :: (p, s) in w.starts
    ensures Step(w, req, BeginSync(p, now)).Some? <==>
            && now - w.cursor.value <= 7_776_000_000_000
            && forall s | s in Sources(req) :: w.starts[(p, s)].Some? && w.starts[(p, s)].value <= w.cursor.value
  {
    var starts := CachedTimes(req, w.starts, p);
    forall s | s in Sources(req)
      ensures w.starts[(p, s)] in starts
    {
      CachedTimesAre(req, w.starts, p, s);
    }
    assert forall start | start in starts :: exists s :: s in Sources(req) && start == w.starts[(p, s)];
  }

  /** The next cursor is the stalest refresh time the process holds, and none
      exactly while some view has no refresh. */
  lemma CursorIsStalest(w: World, req: Request, p: nat)
    requires w.phase.Begun? && forall s | s in Sources(req) :: (p, s) in w.caches
    ensures var read := Step(w, req, ReadAsOf(p));
            && read.Some? && read.value.phase.Dated? && read.value.phase.since == w.phase.since
            && (read.value.phase.asOf.None? <==> exists s :: s in Sources(req) && w.caches[(p, s)].None?)
            && (read.value.phase.asOf.Some? ==>
                  && (exists s :: s in Sources(req) && w.caches[(p, s)] == read.value.phase.asOf)
                  && forall s | s in Sources(req) :: read.value.phase.asOf.value <= w.caches[(p, s)].value)
  {
    var times := CachedTimes(req, w.caches, p);
    StalestIsLeast(times);
    forall s | s in Sources(req)
      ensures w.caches[(p, s)] in times
    {
      CachedTimesAre(req, w.caches, p, s);
    }
    assert forall t | t in times :: exists s :: s in Sources(req) && t == w.caches[(p, s)];
  }

  /** The tables move to a state that keeps every cover, and no refresh time back. */
  ghost predicate MovesOn(db: Db, next: Db, req: Request) {
    && (forall copy, cursor | Covers(db, req, copy, cursor) :: Covers(next, req, copy, cursor))
    && (forall s | s in db.refreshed :: s in next.refreshed && db.refreshed[s] <= next.refreshed[s])
  }

  lemma PhaseOutlastsTables(db: Db, next: Db, req: Request, copy: Copy, phase: Phase)
    requires MovesOn(db, next, req) && PhaseInv(db, req, copy, phase)
    ensures PhaseInv(next, req, copy, phase)
  {
  }

  lemma CachesOutlastTables(db: Db, next: Db, req: Request, caches: map<(nat, Source), Option<Time>>)
    requires MovesOn(db, next, req) && CachesInv(db, caches)
    ensures CachesInv(next, caches)
  {
  }

  lemma TablesMayMove(w: World, req: Request, seeds: map<Source, Time>, db: Db)
    requires Inv(w, req, seeds) && DbInv(db, seeds) && MovesOn(w.db, db, req)
    ensures Inv(w.(db := db), req, seeds)
  {
    PhaseOutlastsTables(w.db, db, req, w.copy, w.phase);
    CachesOutlastTables(w.db, db, req, w.caches);
  }

  lemma RefreshStepKeeps(w: World, req: Request, seeds: map<Source, Time>, s: Source, rows: Table, finish: Time)
    requires Inv(w, req, seeds) && SoundRefresh(w.db, s, rows, finish)
    ensures Inv(w.(db := Refresh(w.db, s, rows, finish)), req, seeds)
  {
    RefreshKeepsDb(w.db, seeds, s, rows, finish);
    forall copy, cursor | Covers(w.db, req, copy, cursor)
      ensures Covers(Refresh(w.db, s, rows, finish), req, copy, cursor)
    {
      RefreshKeepsCover(w.db, seeds, req, copy, cursor, s, rows, finish);
    }
    TablesMayMove(w, req, seeds, Refresh(w.db, s, rows, finish));
  }

  lemma StampStepKeeps(w: World, req: Request, seeds: map<Source, Time>, s: Source, now: Time)
    requires Inv(w, req, seeds) && w.db.clock <= now
    ensures Inv(w.(db := Stamp(w.db, s, now)), req, seeds)
  {
    StampKeepsDb(w.db, seeds, s, now);
    forall copy, cursor | Covers(w.db, req, copy, cursor)
      ensures Covers(Stamp(w.db, s, now), req, copy, cursor)
    {
      StampKeepsCover(w.db, seeds, req, copy, cursor, s, now);
    }
    TablesMayMove(w, req, seeds, Stamp(w.db, s, now));
  }

  lemma ReadIsCovered(w: World, req: Request, seeds: map<Source, Time>)
    requires Inv(w, req, seeds) && w.phase.Dated? && UniqueLive(req, w.db.mv)
    ensures w.phase.asOf.Some? ==> Covers(w.db, req, Apply(Before(w), NextAnswer(w, req)), w.phase.asOf.value)
  {
    ReadSettles(w.db, seeds, req, Before(w), w.phase.since);
    if w.phase.asOf.Some? {
      SettledIsCovered(w.db, req, Apply(Before(w), NextAnswer(w, req)), w.phase.asOf.value);
    }
  }

  /** Only the phase moves. */
  lemma PhaseMayMove(w: World, req: Request, seeds: map<Source, Time>, phase: Phase)
    requires Inv(w, req, seeds)
    requires phase.Idle? || (phase.Answered? && (phase.asOf.Some? ==> Covers(w.db, req, phase.next, phase.asOf.value)))
    ensures Inv(w.(phase := phase), req, seeds)
  {
  }

  lemma ReadStepKeeps(w: World, req: Request, seeds: map<Source, Time>)
    requires Inv(w, req, seeds) && w.phase.Dated? && UniqueLive(req, w.db.mv)
    ensures Inv(Step(w, req, ReadRows).value, req, seeds)
  {
    ReadIsCovered(w, req, seeds);
    if Delivered(req, NextAnswer(w, req)) {
      var phase := Answered(w.phase.asOf, Apply(Before(w), NextAnswer(w, req)));
      assert Step(w, req, ReadRows) == Some(w.(phase := phase));
      PhaseMayMove(w, req, seeds, phase);
    } else {
      assert Step(w, req, ReadRows) == Some(w.(phase := Idle));
      PhaseMayMove(w, req, seeds, Idle);
    }
  }

  /** Filling and dropping cached entries. */
  lemma CacheStepKeeps(w: World, req: Request, seeds: map<Source, Time>, a: Action)
    requires Inv(w, req, seeds) && Step(w, req, a).Some?
    requires a.FillCache? || a.ExpireCache? || a.FillStart? || a.ExpireStart?
    ensures Inv(Step(w, req, a).value, req, seeds)
  {
    if a.FillStart? {
      LogStartsAfterSeed(w.db, seeds, a.view);
    }
  }

  /** A request's own steps before it reads rows. */
  lemma RequestStepKeeps(w: World, req: Request, seeds: map<Source, Time>, a: Action)
    requires Inv(w, req, seeds) && Step(w, req, a).Some?
    requires a.BeginFull? || a.BeginSync? || a.ReadAsOf?
    ensures Inv(Step(w, req, a).value, req, seeds)
  {
    match a
    case BeginSync(p, now) => AcceptedIsTracked(w, req, seeds, p, now);
    case ReadAsOf(p) => CachedAsOfIsPast(w, req, seeds, p);
    case _ =>
  }

  lemma ApplyStepKeeps(w: World, req: Request, seeds: map<Source, Time>)
    requires Inv(w, req, seeds) && w.phase.Answered?
    ensures Inv(Step(w, req, ClientApply).value, req, seeds)
  {
    var applied := Step(w, req, ClientApply).value;
    assert applied == w.(copy := w.phase.next, cursor := w.phase.asOf, phase := Idle);
    assert PhaseInv(w.db, req, w.copy, w.phase);
    assert applied.cursor.Some? ==> Covers(w.db, req, applied.copy, applied.cursor.value);
  }

  lemma StepKeeps(w: World, req: Request, seeds: map<Source, Time>, a: Action)
    requires Inv(w, req, seeds) && Step(w, req, a).Some?
    ensures Inv(Step(w, req, a).value, req, seeds)
  {
    match a
    case DoRefresh(s, rows, finish) => RefreshStepKeeps(w, req, seeds, s, rows, finish);
    case DoStamp(s, now) => StampStepKeeps(w, req, seeds, s, now);
    case FillCache(_, _, _) => CacheStepKeeps(w, req, seeds, a);
    case ExpireCache(_, _) => CacheStepKeeps(w, req, seeds, a);
    case FillStart(_, _) => CacheStepKeeps(w, req, seeds, a);
    case ExpireStart(_, _) => CacheStepKeeps(w, req, seeds, a);
    case BeginFull => RequestStepKeeps(w, req, seeds, a);
    case BeginSync(_, _) => RequestStepKeeps(w, req, seeds, a);
    case ReadAsOf(_) => RequestStepKeeps(w, req, seeds, a);
    case ReadRows => ReadStepKeeps(w, req, seeds);
    case ClientApply => ApplyStepKeeps(w, req, seeds);
  }

  lemma {:induction false} RunKeeps(w: World, req: Request, seeds: map<Source, Time>, actions: seq<Action>)
    requires Inv(w, req, seeds) && Run(w, req, actions).Some?
    ensures Inv(Run(w, req, actions).value, req, seeds)
    decreases |actions|
  {
    if actions != [] {
      StepKeeps(w, req, seeds, actions[0]);
      RunKeeps(Step(w, req, actions[0]).value, req, seeds, actions[1..]);
    }
  }

  /** In every interleaving, a record the client's copy is missing or has wrong
      is one the logs will re-send at its cursor or a stamp is still to notice. */
  lemma CopyIsAlwaysCovered(start: World, req: Request, seeds: map<Source, Time>, actions: seq<Action>)
    requires Initial(start, req, seeds) && Run(start, req, actions).Some?
    ensures var w := Run(start, req, actions).value;
            w.cursor.Some? ==> Untracked(req, seeds, w.cursor.value) || Covers(w.db, req, w.copy, w.cursor.value)
  {
    RunKeeps(start, req, seeds, actions);
  }

  /** The client once it has read the rows now and applied the response, if the
      response is not an error. */
  ghost function AfterRead(w: World, req: Request): Option<World> {
    match Step(w, req, ReadRows)
    case None => None
    case Some(read) => if read.phase.Answered? then Step(read, req, ClientApply) else Some(read)
  }

  lemma ReadApplies(w: World, req: Request)
    requires w.phase.Dated? && UniqueLive(req, w.db.mv)
    ensures AfterRead(w, req) ==
            Some(if Delivered(req, NextAnswer(w, req))
                 then w.(copy := Apply(Before(w), NextAnswer(w, req)), cursor := w.phase.asOf, phase := Idle)
                 else w.(phase := Idle))
  {
    if Delivered(req, NextAnswer(w, req)) {
      var read := w.(phase := Answered(w.phase.asOf, Apply(Before(w), NextAnswer(w, req))));
      assert Step(w, req, ReadRows) == Some(read);
      assert Step(read, req, ClientApply) == Some(read.(copy := read.phase.next, cursor := read.phase.asOf, phase := Idle));
    } else {
      assert Step(w, req, ReadRows) == Some(w.(phase := Idle));
    }
  }

  lemma ReadConverges(w: World, req: Request, seeds: map<Source, Time>)
    requires Inv(w, req, seeds) && w.phase.Dated? && w.db.pending !! Sources(req) && UniqueLive(req, w.db.mv)
    ensures Converged(req, w.db.mv, Apply(Before(w), NextAnswer(w, req)))
    ensures IsLiveView(req, w.db.mv, Apply(Before(w), NextAnswer(w, req))) <==> !HoldsDeactivated(req, w.db.mv, Before(w))
    ensures w.phase.since.None? || !req.Enrollments? || req.includeInactive ==> !HoldsDeactivated(req, w.db.mv, Before(w))
  {
    ReadSettles(w.db, seeds, req, Before(w), w.phase.since);
    SettledConverges(w.db, seeds, req, Apply(Before(w), NextAnswer(w, req)));
    ReadIsExactIff(w.db, seeds, req, Before(w), w.phase.since);
  }

  /** Convergence. In every run, an accepted sync (or a full read) whose rows are
      read while no stamp is pending leaves the client with every live record
      and with no identity that has no row left, for each of the four
      collections. The response is an error exactly when its answer has a NULL
      in an identity. */
  lemma SyncConverges(start: World, req: Request, seeds: map<Source, Time>, actions: seq<Action>)
    requires Initial(start, req, seeds) && Run(start, req, actions).Some?
    requires Run(start, req, actions).value.phase.Dated?
    requires Run(start, req, actions).value.db.pending !! Sources(req)
    requires UniqueLive(req, Run(start, req, actions).value.db.mv)
    ensures var w := Run(start, req, actions).value;
            if Delivered(req, NextAnswer(w, req)) then
              AfterRead(w, req).Some? && Converged(req, w.db.mv, AfterRead(w, req).value.copy)
            else AfterRead(w, req) == Some(w.(phase := Idle))
  {
    RunKeeps(start, req, seeds, actions);
    ReadApplies(Run(start, req, actions).value, req);
    ReadConverges(Run(start, req, actions).value, req, seeds);
  }

  /** Whether a record is live under an identity. */
  ghost predicate LiveUnder(req: Request, mv: Table, id: Identity) {
    exists u :: Live(req, mv, u) && UnitId(req, mv, u) == id
  }

  /** The copy is the live view, on every identity the client asked for. */
  ghost predicate IsLiveView(req: Request, mv: Table, copy: Copy) {
    && (forall u | Live(req, mv, u) :: UnitConverged(req, mv, copy, u))
    && (forall id | !HasNull(req, id) && Wanted(req, id) :: id in copy <==> LiveUnder(req, mv, id))
  }

  /** Some enrollment the client holds is still there, but deactivated, and the
      request leaves deactivated ones out. */
  ghost predicate HoldsDeactivated(req: Request, mv: Table, copy: Copy) {
    exists id :: id in copy && !HasNull(req, id) && Wanted(req, id) && HeldIn(req, mv, id) && !LiveUnder(req, mv, id)
  }

  /** A converged copy holds exactly the live identities, unless it still has
      one whose rows are all deactivated enrollments the request leaves out:
      those are not removals. */
  lemma ConvergedIsExact(req: Request, mv: Table, known: map<Key, Identity>, copy: Copy)
    requires Matches(mv, known) && OneLearner(known) && Converged(req, mv, copy)
    ensures IsLiveView(req, mv, copy) <==> !HoldsDeactivated(req, mv, copy)
  {
    forall id | !HasNull(req, id) && Wanted(req, id)
      ensures LiveUnder(req, mv, id) ==> id in copy
    {
      if u :| Live(req, mv, u) && UnitId(req, mv, u) == id {
        assert UnitConverged(req, mv, copy, u);
      }
    }
  }

  /** Outside active-only enrollments, what a row holds is live. */
  lemma OnlyActiveEnrollmentsHide(req: Request, mv: Table, known: map<Key, Identity>, copy: Copy)
    requires Matches(mv, known) && OneLearner(known)
    ensures HoldsDeactivated(req, mv, copy) ==> req.Enrollments? && !req.includeInactive
  {
    if id :| id in copy && HeldIn(req, mv, id) && !LiveUnder(req, mv, id) {
      var k :| k in mv && Anchors(req, k, mv[k].id) && ClientId(req, mv[k].id) == id;
      AnchorIsLive(req, mv, k);
      if Live(req, mv, UnitOf(req, k)) {
        UnitIdIsRowId(req, mv, known, UnitOf(req, k), k);
      }
    }
  }

  /** No answer touches an identity that only deactivated rows hold. */
  lemma DeactivatedStays(req: Request, mv: Table, log: Log, since: Option<Time>, copy: Copy, id: Identity)
    requires !HasNull(req, id) && HeldIn(req, mv, id) && !LiveUnder(req, mv, id)
    ensures id in Apply(copy, Answer(req, mv, log, since)) <==> id in copy
  {
    var a := Answer(req, mv, log, since);
    assert !Sends(a, id);
    HeldIsStillHeld(req, mv, id);
    AppliedSilence(copy, a, id);
  }

  /** Exactly when a read with no stamp pending gives the live view: when the
      copy it is applied to holds no enrollment that has since been deactivated.
      A full read is applied to an empty copy, and always does. */
  lemma ReadIsExactIff(db: Db, seeds: map<Source, Time>, req: Request, copy: Copy, since: Option<Time>)
    requires DbInv(db, seeds) && MayRead(db, req, copy, since) && db.pending !! Sources(req)
    ensures IsLiveView(req, db.mv, Apply(copy, Answer(req, db.mv, db.log, since))) <==> !HoldsDeactivated(req, db.mv, copy)
    ensures since.None? || !req.Enrollments? || req.includeInactive ==> !HoldsDeactivated(req, db.mv, copy)
  {
    var next := Apply(copy, Answer(req, db.mv, db.log, since));
    ReadSettles(db, seeds, req, copy, since);
    SettledConverges(db, seeds, req, next);
    ConvergedIsExact(req, db.mv, db.known, next);
    OnlyActiveEnrollmentsHide(req, db.mv, db.known, copy);
    forall id | !HasNull(req, id) && HeldIn(req, db.mv, id) && !LiveUnder(req, db.mv, id)
      ensures id in next <==> id in copy
    {
      DeactivatedStays(req, db.mv, db.log, since, copy, id);
    }
  }

  /** The same at the end of every run, for a response that can be built. */
  lemma SyncIsExactIff(start: World, req: Request, seeds: map<Source, Time>, actions: seq<Action>)
    requires Initial(start, req, seeds) && Run(start, req, actions).Some?
    requires Run(start, req, actions).value.phase.Dated?
    requires Run(start, req, actions).value.db.pending !! Sources(req)
    requires UniqueLive(req, Run(start, req, actions).value.db.mv)
    requires Delivered(req, NextAnswer(Run(start, req, actions).value, req))
    ensures var w := Run(start, req, actions).value;
            && AfterRead(w, req).Some?
            && (IsLiveView(req, w.db.mv, AfterRead(w, req).value.copy) <==> !HoldsDeactivated(req, w.db.mv, Before(w)))
            && (w.phase.since.None? || !req.Enrollments? || req.includeInactive ==> !HoldsDeactivated(req, w.db.mv, Before(w)))
  {
    RunKeeps(start, req, seeds, actions);
    ReadApplies(Run(start, req, actions).value, req);
    ReadConverges(Run(start, req, actions).value, req, seeds);
  }

  /** Why the active-only collection can keep such a record: a deactivated
      enrollment is neither sent nor removed, at any cursor. */
  lemma DeactivationIsSilent(req: Request, mv: Table, log: Log, since: Time, copy: Copy, k: Key)
    requires req.Enrollments? && !req.includeInactive
    requires k in mv && InScope(req, k, mv[k].id) && !HasNull(req, mv[k].id) && !LiveUnder(req, mv, mv[k].id)
    ensures var next := Apply(copy, Answer(req, mv, log, Some(since)));
            (mv[k].id in next <==> mv[k].id in copy) && (mv[k].id in copy ==> next[mv[k].id] == copy[mv[k].id])
  {
    var a := Answer(req, mv, log, Some(since));
    assert !Sends(a, mv[k].id);
    assert HeldIn(req, mv, mv[k].id);
    HeldIsStillHeld(req, mv, mv[k].id);
    AppliedSilence(copy, a, mv[k].id);
  }

  ghost predicate Unnamed(req: Request, t: Table, log: Log, id: Identity) {
    && (forall k | k in t :: ClientId(req, t[k].id) != id)
    && (forall k | k in log :: ClientId(req, log[k].id) != id)
  }

  lemma StampNamesNothingNew(db: Db, req: Request, s: Source, now: Time, id: Identity)
    requires (forall k :: k in db.stamped ==> k in db.log) && Unnamed(req, db.mv, db.log, id)
    ensures Unnamed(req, db.mv, Stamp(db, s, now).log, id)
  {
  }

  lemma FullReadFinds(req: Request, mv: Table, log: Log, id: Identity)
    requires LiveUnder(req, mv, id) && Wanted(req, id)
    ensures id in Apply(map[], Answer(req, mv, log, None))
  {
    var read := Answer(req, mv, log, None);
    var u :| Live(req, mv, u) && UnitId(req, mv, u) == id;
    LiveUnitIsScanned(req, mv, u);
    assert u in read.live && read.live[u].id == id;
    assert Sends(read, id);
  }

  lemma UnnamedIsKept(req: Request, mv: Table, log: Log, copy: Copy, since: Time, id: Identity)
    requires Unnamed(req, mv, log, id) && id in copy
    ensures !HeldIn(req, mv, id) && id in Apply(copy, Answer(req, mv, log, Some(since)))
  {
    assert id !in (set k | k in log :: ClientId(req, log[k].id));
    assert id !in Answer(req, mv, log, Some(since)).removed;
  }

  lemma ReplacedRowsAreUnnamed(
    db: Db, req: Request, s: Source, rows: Table, rows': Table, finish: Time, finish': Time, id: Identity)
    requires Unnamed(req, db.mv, db.log, id) && Unnamed(req, rows', db.log, id)
    requires forall k | k in rows :: SourceOf(k) == s
    ensures var second := Refresh(Refresh(db, s, rows, finish), s, rows', finish');
            Unnamed(req, second.mv, second.log, id) && second.stamped == db.stamped && second.log == db.log
  {
    var second := Refresh(Refresh(db, s, rows, finish), s, rows', finish');
    forall k | k in second.mv
      ensures ClientId(req, second.mv[k].id) != id
    {
      assert k in rows' || (k in db.mv && second.mv[k] == db.mv[k]);
    }
  }

  /** Why refreshes and stamps must alternate. A record that comes with one
      refresh, is read, and goes with the next before any stamp saw it has no
      log row: no sync, at any cursor, tells the client to drop it. */
  lemma UnstampedArrivalIsNeverRemoved(
    db: Db, req: Request, s: Source, rows: Table, rows': Table, finish: Time, finish': Time, now: Time, since: Time, id: Identity)
    requires (forall k :: k in db.stamped ==> k in db.log) && (forall k | k in rows :: SourceOf(k) == s)
    requires !HasNull(req, id) && Wanted(req, id)
    requires LiveUnder(req, Refresh(db, s, rows, finish).mv, id)
    requires Unnamed(req, db.mv, db.log, id) && Unnamed(req, rows', db.log, id)
    ensures var first := Refresh(db, s, rows, finish);
            var after := Stamp(Refresh(first, s, rows', finish'), s, now);
            var copy := Apply(map[], Answer(req, first.mv, first.log, None));
            && id in copy
            && !HeldIn(req, after.mv, id)
            && id in Apply(copy, Answer(req, after.mv, after.log, Some(since)))
  {
    var first := Refresh(db, s, rows, finish);
    FullReadFinds(req, first.mv, first.log, id);
    ReplacedRowsAreUnnamed(db, req, s, rows, rows', finish, finish', id);
    var second := Refresh(first, s, rows', finish');
    StampNamesNothingNew(second, req, s, now, id);
    UnnamedIsKept(req, second.mv, Stamp(second, s, now).log, Apply(map[], Answer(req, first.mv, first.log, None)), since, id);
  }

  /** Only the log row under `k` names `id`. */
  ghost predicate UnnamedBut(req: Request, t: Table, log: Log, k: Key, id: Identity) {
    && (forall j | j in t :: ClientId(req, t[j].id) != id)
    && (forall j | j in log && j != k :: ClientId(req, log[j].id) != id)
  }

  /** Why a key must not be reused. A record whose tombstone is due, and would be
      sent, is never removed once the next stamp writes another identity over
      the tombstone's key. */
  lemma ReusedKeyLosesRemoval(
    db: Db, req: Request, s: Source, k: Key, rows: Table, finish: Time, now: Time, copy: Copy, since: Time, later: Time, id: Identity)
    requires (forall j :: j in db.stamped ==> j in db.log) && k !in db.stamped && Wanted(req, id) && id in copy
    requires k in db.log && db.log[k].deleted && k in LogKeys(req, db.log, id) && db.log[k].changedOn >= FloorSecond(since)
    requires UnnamedBut(req, db.mv, db.log, k, id) && UnnamedBut(req, rows, db.log, k, id)
    requires k in rows && forall j | j in rows :: SourceOf(j) == s
    ensures id in Answer(req, db.mv, db.log, Some(since)).removed
    ensures var after := Stamp(Refresh(db, s, rows, finish), s, now);
            !HeldIn(req, after.mv, id) && id in Apply(copy, Answer(req, after.mv, after.log, Some(later)))
  {
    RemovalIsExact(req, db.mv, db.log, since, id);
    assert forall j | j in LogKeys(req, db.log, id) :: j == k;
    var after := Stamp(Refresh(db, s, rows, finish), s, now);
    OverwrittenIsUnnamed(db, req, s, k, rows, finish, now, id);
    UnnamedIsKept(req, after.mv, after.log, copy, later, id);
  }

  lemma OverwrittenIsUnnamed(db: Db, req: Request, s: Source, k: Key, rows: Table, finish: Time, now: Time, id: Identity)
    requires (forall j :: j in db.stamped ==> j in db.log) && k !in db.stamped
    requires UnnamedBut(req, db.mv, db.log, k, id) && UnnamedBut(req, rows, db.log, k, id)
    requires k in rows && forall j | j in rows :: SourceOf(j) == s
    ensures var after := Stamp(Refresh(db, s, rows, finish), s, now); Unnamed(req, after.mv, after.log, id)
  {
    var next := Refresh(db, s, rows, finish);
    forall j | j in next.mv
      ensures ClientId(req, next.mv[j].id) != id
    {
      assert j in rows || (j in db.mv && next.mv[j] == db.mv[j]);
    }
    var after := Stamp(next, s, now);
    forall j | j in after.log
      ensures ClientId(req, after.log[j].id) != id
    {
      assert j == k ==> after.log[j].id == rows[k].id;
      assert j in next.mv || (j in db.log && after.log[j].id == db.log[j].id);
    }
  }
}
