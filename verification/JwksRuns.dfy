/** Any number of tasks inside `signing_key` at once. A task stops only where
    the source awaits: for the lock, and for the fetch it makes while holding
    it. An action is one task running to its next such point; its clock
    readings come in order. The one thing asked of the clock beyond never
    running backwards is that a fetch completes strictly after the previous
    successful one did, since `_fetched_at` doubles as the version number. */
module JwksRuns {
  import opened Common
  import opened JwksCaches

  type TaskId = nat

  datatype Task =
    | Waiting(kid: Kid, force: bool, seen: Time)
    | Fetching(kid: Kid, force: bool, seen: Time)
    | Answered(key: Option<SigningKey>)
    | Refused

  /** What a run records. `Fresh`, `Overtaken` and `HeldOff` are the reasons a
      load has for not fetching: the set has not expired, another task fetched
      since this one asked, or a fetch failed a moment ago. */
  datatype Event =
    | Called(id: TaskId, kid: Kid)
    | Fresh(at: Time)
    | Overtaken(id: TaskId)
    | HeldOff(at: Time)
    | FetchStarted(id: TaskId, force: bool, checked: Time, at: Time)
    | FetchFailed(at: Time)
    | FetchOk(at: Time, keys: KeySet, force: bool, kid: Kid)
    | LoadReturned(keys: KeySet)
    | LoadRaised(id: TaskId)
    | RefetchAsked(id: TaskId, kid: Kid, at: Time)
    | KeyAnswered(id: TaskId, kid: Kid, key: Option<SigningKey>, at: Time, forced: bool)

  datatype State = State(
    fields: Fields,
    lock: Option<TaskId>,
    tasks: map<TaskId, Task>,
    clock: Time,
    history: seq<Event>)

  datatype Action =
    | Call(id: TaskId, kid: Kid, now: Time, later: Time)
    | TakeLock(id: TaskId, now: Time, later: Time, last: Time)
    | Complete(id: TaskId, keys: KeySet, now: Time, later: Time)
    | Fail(id: TaskId, now: Time, later: Time)

  const INITIAL := State(COLD, None, map[], 0.0, [])

  function Record(s: State, e: Event): State {
    s.(history := s.history + [e])
  }

  /** Returning from `signing_key`. */
  function Reply(s: State, id: TaskId, kid: Kid, key: Option<SigningKey>, now: Time, forced: bool): State {
    Record(s.(tasks := s.tasks[id := Answered(key)]), KeyAnswered(id, kid, key, now, forced))
  }

  /** The rest of `signing_key`'s stretch once a load has its answer. */
  function Resume(s: State, id: TaskId, kid: Kid, force: bool, seen: Time, result: Result<KeySet, Unavailable>, now: Time): State {
    match result
    case Err(_) => Record(s.(tasks := s.tasks[id := Refused], clock := now), LoadRaised(id))
    case Ok(keys) =>
      var key := Select(keys, kid);
      var s := Record(s.(clock := now), LoadReturned(keys));
      if force then Reply(s.(fields := NoteMiss(s.fields, key, seen, now)), id, kid, key, now, true)
      else if key.Some? || now < s.fields.kidRefetchAfter then Reply(s, id, kid, key, now, false)
      else Record(s.(tasks := s.tasks[id := Waiting(kid, true, s.fields.fetchedAt)]), RefetchAsked(id, kid, now))
  }

  function Step(s: State, a: Action, ttl: Time): Option<State> {
    match a
    case Call(id, kid, now, later) =>
      if id in s.tasks || !(s.clock <= now <= later) then None
      else
        var s := Record(s, Called(id, kid));
        if IsFresh(s.fields, now, ttl) then
          Some(Resume(Record(s, Fresh(now)), id, kid, false, s.fields.fetchedAt, StaleOrRaise(s.fields), later))
        else Some(s.(tasks := s.tasks[id := Waiting(kid, false, s.fields.fetchedAt)], clock := later))
    case TakeLock(id, now, later, last) =>
      if s.lock.Some? || id !in s.tasks || !s.tasks[id].Waiting? || !(s.clock <= now <= later <= last) then None
      else
        var t := s.tasks[id];
        (match Admit(s.fields, t.force, t.seen, now, later, ttl)
         case Ride(result) =>
           Some(Resume(Record(s, if t.force then Overtaken(id) else Fresh(now)), id, t.kid, t.force, t.seen, result, last))
         case Hold(result) => Some(Resume(Record(s, HeldOff(later)), id, t.kid, t.force, t.seen, result, last))
         case Fetch =>
           Some(Record(s.(lock := Some(id), tasks := s.tasks[id := Fetching(t.kid, t.force, t.seen)], clock := last),
                       FetchStarted(id, t.force, now, later))))
    case Complete(id, keys, now, later) =>
      if id !in s.tasks || !s.tasks[id].Fetching? || !(s.clock <= now <= later) || now <= s.fields.fetchedAt then None
      else
        var t := s.tasks[id];
        var s := Record(s.(fields := Succeeded(s.fields, keys, now), lock := None, clock := now), FetchOk(now, keys, t.force, t.kid));
        Some(Resume(s, id, t.kid, t.force, t.seen, Ok(keys), later))
    case Fail(id, now, later) =>
      if id !in s.tasks || !s.tasks[id].Fetching? || !(s.clock <= now <= later) then None
      else
        var t := s.tasks[id];
        var s := Record(s.(fields := Failed(s.fields, now), lock := None, clock := now), FetchFailed(now));
        Some(Resume(s, id, t.kid, t.force, t.seen, StaleOrRaise(s.fields), later))
  }

  function Run(s: State, actions: seq<Action>, ttl: Time): Option<State>
    decreases |actions|
  {
    if actions == [] then Some(s)
    else
      match Step(s, actions[0], ttl)
      case None => None
      case Some(next) => Run(next, actions[1..], ttl)
  }

  // ---- reading a history ----

  /** A forced refetch that succeeded and still lacked the key id. */
  predicate IsMiss(e: Event) {
    e.FetchOk? && e.force && e.kid !in e.keys
  }

  function LatestKeys(history: seq<Event>): Option<KeySet> {
    if history == [] then None
    else
      var e := history[|history| - 1];
      if e.FetchOk? then Some(e.keys) else LatestKeys(history[..|history| - 1])
  }

  /** When the latest fetched set was fetched. */
  function LatestAt(history: seq<Event>): Option<Time> {
    if history == [] then None
    else
      var e := history[|history| - 1];
      if e.FetchOk? then Some(e.at) else LatestAt(history[..|history| - 1])
  }

  /** Whether the latest fetch has not finished. */
  predicate InFlight(history: seq<Event>) {
    if history == [] then false
    else
      match history[|history| - 1]
      case FetchStarted(_, _, _, _) => true
      case FetchOk(_, _, _, _) => false
      case FetchFailed(_) => false
      case _ => InFlight(history[..|history| - 1])
  }

  /** Whether a fetch has succeeded since the task last asked for a refetch. */
  predicate FetchedSince(history: seq<Event>, id: TaskId) {
    if history == [] then false
    else
      var e := history[|history| - 1];
      if e.RefetchAsked? && e.id == id then false
      else e.FetchOk? || FetchedSince(history[..|history| - 1], id)
  }

  /** `t` is past the cooldown of every miss. */
  ghost predicate PastMisses(history: seq<Event>, t: Time) {
    forall e | e in history && IsMiss(e) :: e.at + KID_REFETCH_COOLDOWN <= t
  }

  /** `t` is past the hold-off of every failed fetch. */
  ghost predicate PastFailures(history: seq<Event>, t: Time) {
    forall e | e in history && e.FetchFailed? :: e.at + FETCH_RETRY_COOLDOWN <= t
  }

  ghost predicate NotInFuture(history: seq<Event>, t: Time) {
    forall e | e in history && (e.FetchOk? || e.FetchFailed?) :: e.at <= t
  }

  /** Event `i` answers that a forced load, with a set newer than the refusal
      it was asked on, still lacks the key id. */
  ghost predicate NotedMiss(history: seq<Event>, i: nat)
    requires i < |history|
  {
    history[i].KeyAnswered? && history[i].forced && history[i].key.None? && FetchedSince(history[..i], history[i].id)
  }

  /** Less than a minute after some such answer. */
  ghost predicate InCooldown(history: seq<Event>, t: Time) {
    exists i: nat :: i < |history| && NotedMiss(history, i) && t < history[i].at + 60.0
  }

  ghost predicate WasCalled(history: seq<Event>, id: TaskId, kid: Kid) {
    Called(id, kid) in history
  }

  ghost predicate HasAsked(history: seq<Event>, id: TaskId, kid: Kid) {
    exists e :: e in history && e.RefetchAsked? && e.id == id && e.kid == kid
  }

  /** A load comes back only for one of these. */
  predicate HasReason(history: seq<Event>) {
    history != [] &&
    var e := history[|history| - 1];
    e.Fresh? || e.Overtaken? || e.HeldOff? || e.FetchOk? || e.FetchFailed?
  }

  /** The load that just returned did so for a failed fetch. */
  predicate ReturnedForFailure(history: seq<Event>) {
    |history| >= 2 && (history[|history| - 2].HeldOff? || history[|history| - 2].FetchFailed?)
  }

  function Holds(keys: KeySet, kid: Kid): Option<SigningKey> {
    if kid in keys then Some(keys[kid]) else None
  }

  /** What may be answered to whom. */
  ghost predicate MayAnswer(history: seq<Event>, id: TaskId, kid: Kid, key: Option<SigningKey>, at: Time, forced: bool) {
    && WasCalled(history, id, kid)
    && LatestKeys(history).Some? && key == Holds(LatestKeys(history).value, kid)
    && (key.None? && !forced ==> InCooldown(history, at))
    && (forced ==> HasAsked(history, id, kid) && (FetchedSince(history, id) || ReturnedForFailure(history)))
  }

  /** What may happen next, given what happened. */
  ghost predicate Allowed(history: seq<Event>, e: Event, ttl: Time) {
    match e
    case Called(_, _) => true
    case Fresh(at) => LatestAt(history).Some? && at < LatestAt(history).value + ttl
    case Overtaken(id) => FetchedSince(history, id)
    case HeldOff(at) => exists f :: f in history && f.FetchFailed? && at < f.at + 5.0
    case FetchStarted(id, force, checked, at) =>
      && !InFlight(history) && PastFailures(history, at)
      && if force then !FetchedSince(history, id)
         else LatestAt(history).None? || LatestAt(history).value + ttl <= checked
    case FetchFailed(_) => InFlight(history)
    case FetchOk(at, _, _, _) => InFlight(history) && (IsMiss(e) ==> PastMisses(history, at))
    case LoadReturned(keys) => LatestKeys(history) == Some(keys) && HasReason(history)
    case LoadRaised(_) => LatestKeys(history) == None && HasReason(history)
    case RefetchAsked(id, kid, at) =>
      && WasCalled(history, id, kid)
      && LatestKeys(history).Some? && kid !in LatestKeys(history).value
      && !InCooldown(history, at)
    case KeyAnswered(id, kid, key, at, forced) => MayAnswer(history, id, kid, key, at, forced)
  }

  ghost predicate Disciplined(history: seq<Event>, ttl: Time) {
    history == [] ||
    (Disciplined(history[..|history| - 1], ttl) && Allowed(history[..|history| - 1], history[|history| - 1], ttl))
  }

  // ---- what holds after every action of every run ----

  ghost predicate Inv(s: State, ttl: Time) {
    && Disciplined(s.history, ttl) && FieldsInv(s) && CooldownInv(s)
    && PastMisses(s.history, s.fields.kidRefetchAfter) && TasksInv(s) && LockInv(s)
  }

  ghost predicate FieldsInv(s: State) {
    && s.fields.keys == LatestKeys(s.history)
    && LatestAt(s.history) == (if s.fields.keys.Some? then Some(s.fields.fetchedAt) else None)
    && 0.0 <= s.fields.fetchedAt <= s.clock
    && (s.fields.fetchedAt > 0.0 ==> s.fields.keys.Some?)
    && NotInFuture(s.history, s.clock)
    && RetryInv(s)
  }

  ghost predicate RetryInv(s: State) {
    && PastFailures(s.history, s.fields.retryAfter)
    && (s.fields.retryAfter == 0.0 || exists f :: f in s.history && f.FetchFailed? && s.fields.retryAfter == f.at + 5.0)
  }

  /** The cooldown ends a minute after the last noted miss. */
  ghost predicate CooldownInv(s: State) {
    && s.fields.kidRefetchAfter <= s.clock + 60.0
    && (forall i: nat | i < |s.history| && NotedMiss(s.history, i) :: s.history[i].at + 60.0 <= s.fields.kidRefetchAfter)
    && (s.fields.kidRefetchAfter == 0.0
        || exists i: nat :: i < |s.history| && NotedMiss(s.history, i) && s.fields.kidRefetchAfter == s.history[i].at + 60.0)
  }

  ghost predicate TasksInv(s: State) {
    forall id | id in s.tasks :: TaskInv(s, id, s.tasks[id])
  }

  ghost predicate TaskInv(s: State, id: TaskId, t: Task) {
    match t
    case Waiting(kid, force, seen) => LoadInv(s, id, kid, force, seen)
    case Fetching(kid, force, seen) => LoadInv(s, id, kid, force, seen)
    case Answered(key) => exists e :: e in s.history && e.KeyAnswered? && e.id == id && e.key == key
    case Refused => LoadRaised(id) in s.history
  }

  /** A forced task's version is current exactly while nothing was fetched since
      it asked, and then it asked after the cooldown of every miss so far. */
  ghost predicate LoadInv(s: State, id: TaskId, kid: Kid, force: bool, seen: Time) {
    && WasCalled(s.history, id, kid)
    && 0.0 <= seen <= s.fields.fetchedAt
    && (force ==>
          && HasAsked(s.history, id, kid)
          && (seen != s.fields.fetchedAt <==> FetchedSince(s.history, id))
          && (seen == s.fields.fetchedAt ==> PastMisses(s.history, s.clock)))
  }

  ghost predicate LockInv(s: State) {
    && (forall id | id in s.tasks && s.tasks[id].Fetching? ::
          s.lock == Some(id) && (s.tasks[id].force ==> s.tasks[id].seen == s.fields.fetchedAt))
    && (s.lock.Some? ==> s.lock.value in s.tasks && s.tasks[s.lock.value].Fetching?)
    && (s.lock.Some? <==> InFlight(s.history))
  }

  lemma AppendedEvent(h: seq<Event>, e: Event)
    ensures forall ttl :: Disciplined(h, ttl) && Allowed(h, e, ttl) ==> Disciplined(h + [e], ttl)
    ensures LatestKeys(h + [e]) == if e.FetchOk? then Some(e.keys) else LatestKeys(h)
    ensures LatestAt(h + [e]) == if e.FetchOk? then Some(e.at) else LatestAt(h)
    ensures InFlight(h + [e]) == (e.FetchStarted? || (InFlight(h) && !e.FetchOk? && !e.FetchFailed?))
    ensures forall id :: FetchedSince(h + [e], id) == (!(e.RefetchAsked? && e.id == id) && (e.FetchOk? || FetchedSince(h, id)))
    ensures forall x :: x in h + [e] <==> x in h || x == e
  {
    var g := h + [e];
    assert g[..|g| - 1] == h && g[|g| - 1] == e;
  }

  lemma AppendedTimes(h: seq<Event>, e: Event)
    ensures forall t :: PastMisses(h + [e], t) <==> PastMisses(h, t) && (IsMiss(e) ==> e.at + KID_REFETCH_COOLDOWN <= t)
    ensures forall t :: PastFailures(h + [e], t) <==> PastFailures(h, t) && (e.FetchFailed? ==> e.at + FETCH_RETRY_COOLDOWN <= t)
    ensures forall t :: NotInFuture(h + [e], t) <==> NotInFuture(h, t) && (e.FetchOk? || e.FetchFailed? ==> e.at <= t)
  {
    assert forall x :: x in h + [e] <==> x in h || x == e;
  }

  lemma NotedMissStays(h: seq<Event>, e: Event, i: nat)
    requires i < |h|
    ensures NotedMiss(h + [e], i) <==> NotedMiss(h, i)
    ensures (h + [e])[i] == h[i]
  {
    assert (h + [e])[..i] == h[..i];
  }

  lemma NotedMissIsNew(h: seq<Event>, e: Event)
    ensures NotedMiss(h + [e], |h|) <==> e.KeyAnswered? && e.forced && e.key.None? && FetchedSince(h, e.id)
  {
    assert (h + [e])[..|h|] == h && (h + [e])[|h|] == e;
  }

  lemma LaterIsPast(h: seq<Event>, t: Time, u: Time)
    requires t <= u
    ensures PastMisses(h, t) ==> PastMisses(h, u)
    ensures PastFailures(h, t) ==> PastFailures(h, u)
    ensures NotInFuture(h, t) ==> NotInFuture(h, u)
    ensures NotInFuture(h, t) ==> PastMisses(h, u + KID_REFETCH_COOLDOWN) && PastFailures(h, u + FETCH_RETRY_COOLDOWN)
  {
  }

  /** Events that change neither what was fetched nor what is in flight. */
  predicate IsQuiet(e: Event) {
    !e.FetchStarted? && !e.FetchFailed? && !e.FetchOk?
  }

  lemma QuietKeepsFields(s: State, e: Event, clock: Time)
    requires FieldsInv(s) && IsQuiet(e) && s.clock <= clock
    ensures FieldsInv(Record(s.(clock := clock), e))
  {
    AppendedEvent(s.history, e);
    AppendedTimes(s.history, e);
    LaterIsPast(s.history, s.clock, clock);
    if f :| f in s.history && f.FetchFailed? && s.fields.retryAfter == f.at + 5.0 {
      assert f in s.history + [e];
    }
  }

  /** Any event but a newly noted miss leaves the cooldown as it was. */
  lemma CooldownOutlasts(s: State, e: Event, fields: Fields, clock: Time)
    requires CooldownInv(s) && s.clock <= clock && fields.kidRefetchAfter == s.fields.kidRefetchAfter
    requires e.KeyAnswered? && e.forced && e.key.None? ==> !FetchedSince(s.history, e.id)
    ensures CooldownInv(Record(s.(fields := fields, clock := clock), e))
  {
    var h, g := s.history, s.history + [e];
    NotedMissIsNew(h, e);
    forall i: nat | i < |g| && NotedMiss(g, i)
      ensures g[i].at + 60.0 <= fields.kidRefetchAfter
    {
      if i < |h| {
        NotedMissStays(h, e, i);
      }
    }
    if i: nat :| i < |h| && NotedMiss(h, i) && fields.kidRefetchAfter == h[i].at + 60.0 {
      NotedMissStays(h, e, i);
    }
  }

  /** Noting a miss starts it again. */
  lemma CooldownStarts(s: State, e: Event, fields: Fields)
    requires CooldownInv(s) && e.KeyAnswered? && e.forced && e.key.None? && FetchedSince(s.history, e.id)
    requires s.clock == e.at && fields.kidRefetchAfter == e.at + 60.0
    ensures CooldownInv(Record(s.(fields := fields), e))
  {
    var h, g := s.history, s.history + [e];
    NotedMissIsNew(h, e);
    assert NotedMiss(g, |h|) && g[|h|] == e;
    forall i: nat | i < |g| && NotedMiss(g, i)
      ensures g[i].at + 60.0 <= fields.kidRefetchAfter
    {
      if i < |h| {
        NotedMissStays(h, e, i);
      }
    }
  }

  /** The cooldown field says exactly whether the moment is in a cooldown. */
  lemma CooldownIs(s: State, t: Time)
    requires CooldownInv(s) && 0.0 <= t
    ensures t < s.fields.kidRefetchAfter <==> InCooldown(s.history, t)
  {
  }

  /** One task's invariant outlasts what other tasks do. */
  lemma TaskOutlasts(s: State, e: Event, fields: Fields, clock: Time, id: TaskId, t: Task)
    requires TaskInv(s, id, t) && IsQuiet(e) && s.clock <= clock && fields.fetchedAt == s.fields.fetchedAt
    requires !(e.RefetchAsked? && e.id == id)
    ensures TaskInv(Record(s.(fields := fields, clock := clock), e), id, t)
  {
    AppendedEvent(s.history, e);
    AppendedTimes(s.history, e);
    LaterIsPast(s.history, s.clock, clock);
    if t.Waiting? || t.Fetching? {
      if t.force {
        var a :| a in s.history && a.RefetchAsked? && a.id == id && a.kid == t.kid;
        assert a in s.history + [e];
      }
    } else if t.Answered? {
      var a :| a in s.history && a.KeyAnswered? && a.id == id && a.key == t.key;
      assert a in s.history + [e];
    }
  }

  /** All the tasks but one, which is in the middle of its stretch. */
  ghost predicate OthersInv(s: State, id: TaskId) {
    && (forall i | i in s.tasks && i != id :: TaskInv(s, i, s.tasks[i]))
    && LockInv(s.(tasks := s.tasks - {id}))
  }

  lemma OthersOutlast(s: State, id: TaskId, e: Event, fields: Fields, clock: Time)
    requires OthersInv(s, id) && IsQuiet(e) && s.clock <= clock && fields.fetchedAt == s.fields.fetchedAt
    requires e.RefetchAsked? ==> e.id == id
    ensures OthersInv(Record(s.(fields := fields, clock := clock), e), id)
  {
    var r := Record(s.(fields := fields, clock := clock), e);
    AppendedEvent(s.history, e);
    forall i | i in r.tasks && i != id
      ensures TaskInv(r, i, r.tasks[i])
    {
      TaskOutlasts(s, e, fields, clock, i, s.tasks[i]);
    }
    assert r.tasks - {id} == s.tasks - {id};
  }

  /** Giving the task its next stop. */
  lemma SettleTask(m: State, id: TaskId, t: Task, ttl: Time)
    requires Disciplined(m.history, ttl) && FieldsInv(m) && CooldownInv(m) && PastMisses(m.history, m.fields.kidRefetchAfter)
    requires OthersInv(m, id) && !t.Fetching? && TaskInv(m, id, t)
    ensures Inv(m.(tasks := m.tasks[id := t]), ttl)
  {
    var r := m.(tasks := m.tasks[id := t]);
    forall i | i in r.tasks
      ensures TaskInv(r, i, r.tasks[i])
      ensures i != id ==> i in m.tasks - {id} && r.tasks[i] == (m.tasks - {id})[i]
    {
      assert i != id ==> TaskInv(m, i, m.tasks[i]);
      assert TaskInv(m, i, r.tasks[i]);
    }
  }

  /** Where a stretch stands when its load has come back: the reason is the last
      event, and the task's own facts are these. */
  ghost predicate Midway(s: State, id: TaskId, kid: Kid, force: bool, seen: Time, ttl: Time) {
    && Disciplined(s.history, ttl) && FieldsInv(s) && CooldownInv(s) && OthersInv(s, id)
    && HasReason(s.history) && WasCalled(s.history, id, kid)
    && (force ==>
          && HasAsked(s.history, id, kid)
          && (seen != s.fields.fetchedAt <==> FetchedSince(s.history, id))
          && (seen == s.fields.fetchedAt ==> s.history[|s.history| - 1].HeldOff? || s.history[|s.history| - 1].FetchFailed?))
  }

  lemma RaiseKeeps(s: State, id: TaskId, kid: Kid, force: bool, seen: Time, now: Time, ttl: Time)
    requires Midway(s, id, kid, force, seen, ttl) && s.clock <= now && s.fields.keys.None?
    requires PastMisses(s.history, s.fields.kidRefetchAfter)
    ensures Inv(Record(s.(tasks := s.tasks[id := Refused], clock := now), LoadRaised(id)), ttl)
  {
    var e := LoadRaised(id);
    var m := Record(s.(clock := now), e);
    RaiseIsRecorded(s, e, now, ttl);
    OthersOutlast(s, id, e, s.fields, now);
    assert m.history[|m.history| - 1] == e;
    SettleTask(m, id, Refused, ttl);
  }

  lemma RaiseIsRecorded(s: State, e: Event, now: Time, ttl: Time)
    requires Disciplined(s.history, ttl) && FieldsInv(s) && CooldownInv(s) && s.clock <= now
    requires e.LoadRaised? && Allowed(s.history, e, ttl) && PastMisses(s.history, s.fields.kidRefetchAfter)
    ensures var m := Record(s.(clock := now), e);
            Disciplined(m.history, ttl) && FieldsInv(m) && CooldownInv(m) && PastMisses(m.history, m.fields.kidRefetchAfter)
  {
    AppendedEvent(s.history, e);
    AppendedTimes(s.history, e);
    QuietKeepsFields(s, e, now);
    CooldownOutlasts(s, e, s.fields, now);
  }

  /** After recording what the load returned. */
  lemma ReturnKeeps(s: State, id: TaskId, kid: Kid, force: bool, seen: Time, keys: KeySet, now: Time, ttl: Time)
    requires Midway(s, id, kid, force, seen, ttl) && s.clock <= now && s.fields.keys == Some(keys)
    ensures var m := Record(s.(clock := now), LoadReturned(keys));
            && Disciplined(m.history, ttl) && FieldsInv(m) && CooldownInv(m) && OthersInv(m, id)
            && LatestKeys(m.history) == Some(keys) && WasCalled(m.history, id, kid)
            && (forall t :: PastMisses(m.history, t) <==> PastMisses(s.history, t))
            && (force ==>
                  && HasAsked(m.history, id, kid)
                  && (seen != m.fields.fetchedAt <==> FetchedSince(m.history, id))
                  && (seen == m.fields.fetchedAt ==> ReturnedForFailure(m.history)))
  {
    var e := LoadReturned(keys);
    var m := Record(s.(clock := now), e);
    AppendedEvent(s.history, e);
    AppendedTimes(s.history, e);
    QuietKeepsFields(s, e, now);
    CooldownOutlasts(s, e, s.fields, now);
    OthersOutlast(s, id, e, s.fields, now);
    assert m.history[|m.history| - 2] == s.history[|s.history| - 1];
    if force {
      var a :| a in s.history && a.RefetchAsked? && a.id == id && a.kid == kid;
      assert a in m.history;
    }
  }

  lemma ReplyKeeps(m: State, fields: Fields, id: TaskId, kid: Kid, key: Option<SigningKey>, forced: bool, ttl: Time)
    requires Disciplined(m.history, ttl) && FieldsInv(m) && CooldownInv(m) && OthersInv(m, id)
    requires MayAnswer(m.history, id, kid, key, m.clock, forced)
    requires fields == m.fields.(kidRefetchAfter := fields.kidRefetchAfter) && PastMisses(m.history, fields.kidRefetchAfter)
    requires fields.kidRefetchAfter ==
             if forced && key.None? && FetchedSince(m.history, id) then m.clock + 60.0 else m.fields.kidRefetchAfter
    ensures Inv(Reply(m.(fields := fields), id, kid, key, m.clock, forced), ttl)
  {
    var e := KeyAnswered(id, kid, key, m.clock, forced);
    var n := Record(m.(fields := fields), e);
    ReplyIsRecorded(m, fields, e, ttl);
    OthersOutlast(m, id, e, fields, m.clock);
    assert n.history[|n.history| - 1] == e;
    SettleTask(n, id, Answered(key), ttl);
  }

  lemma ReplyIsRecorded(m: State, fields: Fields, e: Event, ttl: Time)
    requires Disciplined(m.history, ttl) && FieldsInv(m) && CooldownInv(m)
    requires e.KeyAnswered? && e.at == m.clock && Allowed(m.history, e, ttl)
    requires fields == m.fields.(kidRefetchAfter := fields.kidRefetchAfter) && PastMisses(m.history, fields.kidRefetchAfter)
    requires fields.kidRefetchAfter ==
             if e.forced && e.key.None? && FetchedSince(m.history, e.id) then m.clock + 60.0 else m.fields.kidRefetchAfter
    ensures var n := Record(m.(fields := fields), e);
            Disciplined(n.history, ttl) && FieldsInv(n) && CooldownInv(n) && PastMisses(n.history, fields.kidRefetchAfter)
  {
    AppendedEvent(m.history, e);
    AppendedTimes(m.history, e);
    QuietKeepsFields(m, e, m.clock);
    CooldownFieldIsFree(Record(m, e), fields.kidRefetchAfter);
    if e.forced && e.key.None? && FetchedSince(m.history, e.id) {
      CooldownStarts(m, e, fields);
    } else {
      CooldownOutlasts(m, e, fields, m.clock);
    }
  }

  lemma CooldownFieldIsFree(s: State, kidRefetchAfter: Time)
    requires FieldsInv(s)
    ensures FieldsInv(s.(fields := s.fields.(kidRefetchAfter := kidRefetchAfter)))
  {
  }

  lemma AskKeeps(m: State, id: TaskId, kid: Kid, ttl: Time)
    requires Disciplined(m.history, ttl) && FieldsInv(m) && CooldownInv(m) && OthersInv(m, id)
    requires WasCalled(m.history, id, kid) && LatestKeys(m.history).Some? && kid !in LatestKeys(m.history).value
    requires m.fields.kidRefetchAfter <= m.clock && PastMisses(m.history, m.fields.kidRefetchAfter)
    ensures Inv(Record(m.(tasks := m.tasks[id := Waiting(kid, true, m.fields.fetchedAt)]), RefetchAsked(id, kid, m.clock)), ttl)
  {
    var e := RefetchAsked(id, kid, m.clock);
    var n := Record(m, e);
    CooldownIs(m, m.clock);
    AppendedEvent(m.history, e);
    AppendedTimes(m.history, e);
    LaterIsPast(m.history, m.fields.kidRefetchAfter, m.clock);
    QuietKeepsFields(m, e, m.clock);
    CooldownOutlasts(m, e, m.fields, m.clock);
    OthersOutlast(m, id, e, m.fields, m.clock);
    assert e in n.history;
    SettleTask(n, id, Waiting(kid, true, m.fields.fetchedAt), ttl);
  }

  /** A load that answers from the cached set keeps the invariant, whatever the
      answering task was doing. A miss of its own is not yet in the cooldown:
      this is the stretch that puts it there. */
  lemma ResumeKeeps(s: State, id: TaskId, kid: Kid, force: bool, seen: Time, result: Result<KeySet, Unavailable>, now: Time, ttl: Time)
    requires Midway(s, id, kid, force, seen, ttl) && s.clock <= now
    requires result == StaleOrRaise(s.fields)
    requires PastMisses(s.history, s.fields.kidRefetchAfter)
             || (force && result.Ok? && kid !in result.value && s.fields.fetchedAt != seen)
    ensures Inv(Resume(s, id, kid, force, seen, result, now), ttl)
  {
    match result
    case Err(_) => RaiseKeeps(s, id, kid, force, seen, now, ttl);
    case Ok(keys) =>
      ReturnKeeps(s, id, kid, force, seen, keys, now, ttl);
      var m := Record(s.(clock := now), LoadReturned(keys));
      var key := Select(keys, kid);
      if force {
        assert Resume(s, id, kid, force, seen, result, now) ==
               Reply(m.(fields := NoteMiss(m.fields, key, seen, now)), id, kid, key, now, true);
        ForcedReplyKeeps(m, id, kid, seen, keys, ttl);
      } else if key.Some? || now < m.fields.kidRefetchAfter {
        assert Resume(s, id, kid, force, seen, result, now) == Reply(m, id, kid, key, now, false);
        CooldownIs(m, now);
        ReplyKeeps(m, m.fields, id, kid, key, false, ttl);
      } else {
        AskKeeps(m, id, kid, ttl);
      }
  }

  lemma ForcedReplyKeeps(m: State, id: TaskId, kid: Kid, seen: Time, keys: KeySet, ttl: Time)
    requires Disciplined(m.history, ttl) && FieldsInv(m) && CooldownInv(m) && OthersInv(m, id)
    requires LatestKeys(m.history) == Some(keys) && WasCalled(m.history, id, kid) && HasAsked(m.history, id, kid)
    requires seen != m.fields.fetchedAt <==> FetchedSince(m.history, id)
    requires seen == m.fields.fetchedAt ==> ReturnedForFailure(m.history)
    requires PastMisses(m.history, m.fields.kidRefetchAfter) || (kid !in keys && m.fields.fetchedAt != seen)
    ensures var key := Select(keys, kid);
            Inv(Reply(m.(fields := NoteMiss(m.fields, key, seen, m.clock)), id, kid, key, m.clock, true), ttl)
  {
    LaterIsPast(m.history, m.clock, m.clock);
    ReplyKeeps(m, NoteMiss(m.fields, Select(keys, kid), seen, m.clock), id, kid, Select(keys, kid), true, ttl);
  }

  /** Recording the reason of a load that does not fetch. */
  lemma ReasonKeeps(s: State, id: TaskId, kid: Kid, force: bool, seen: Time, e: Event, ttl: Time)
    requires Disciplined(s.history, ttl) && FieldsInv(s) && CooldownInv(s) && OthersInv(s, id) && LoadInv(s, id, kid, force, seen)
    requires Allowed(s.history, e, ttl) && (e.Fresh? || e.Overtaken? || e.HeldOff?)
    requires force && seen == s.fields.fetchedAt ==> e.HeldOff?
    ensures Midway(Record(s, e), id, kid, force, seen, ttl)
    ensures forall t :: PastMisses(s.history + [e], t) <==> PastMisses(s.history, t)
  {
    var m := Record(s, e);
    AppendedEvent(s.history, e);
    AppendedTimes(s.history, e);
    QuietKeepsFields(s, e, s.clock);
    CooldownOutlasts(s, e, s.fields, s.clock);
    OthersOutlast(s, id, e, s.fields, s.clock);
    assert m.history[|m.history| - 1] == e;
    if force {
      var a :| a in s.history && a.RefetchAsked? && a.id == id && a.kid == kid;
      assert a in m.history;
    }
  }

  lemma InvGivesOthers(s: State, id: TaskId, ttl: Time)
    requires Inv(s, ttl) && (id in s.tasks ==> !s.tasks[id].Fetching?)
    ensures OthersInv(s, id)
  {
    forall i | i in s.tasks && i != id
      ensures TaskInv(s, i, s.tasks[i])
    {
    }
    assert forall i | i in s.tasks - {id} :: (s.tasks - {id})[i] == s.tasks[i];
  }

  lemma CallKeeps(s: State, id: TaskId, kid: Kid, now: Time, later: Time, ttl: Time)
    requires Inv(s, ttl) && Step(s, Call(id, kid, now, later), ttl).Some?
    ensures Inv(Step(s, Call(id, kid, now, later), ttl).value, ttl)
  {
    var e := Called(id, kid);
    var m := Record(s, e);
    InvGivesOthers(s, id, ttl);
    AppendedEvent(s.history, e);
    AppendedTimes(s.history, e);
    QuietKeepsFields(s, e, s.clock);
    CooldownOutlasts(s, e, s.fields, s.clock);
    OthersOutlast(s, id, e, s.fields, s.clock);
    assert e in m.history;
    if IsFresh(s.fields, now, ttl) {
      ReasonKeeps(m, id, kid, false, m.fields.fetchedAt, Fresh(now), ttl);
      ResumeKeeps(Record(m, Fresh(now)), id, kid, false, s.fields.fetchedAt, StaleOrRaise(s.fields), later, ttl);
    } else {
      ClockMoves(m, id, later);
      SettleTask(m.(clock := later), id, Waiting(kid, false, s.fields.fetchedAt), ttl);
    }
  }

  lemma ClockMoves(s: State, id: TaskId, clock: Time)
    requires FieldsInv(s) && CooldownInv(s) && OthersInv(s, id) && s.clock <= clock
    ensures FieldsInv(s.(clock := clock)) && CooldownInv(s.(clock := clock)) && OthersInv(s.(clock := clock), id)
  {
    LaterIsPast(s.history, s.clock, clock);
    forall i | i in s.tasks && i != id
      ensures TaskInv(s.(clock := clock), i, s.tasks[i])
    {
      assert TaskInv(s, i, s.tasks[i]);
    }
  }

  lemma TakeLockKeeps(s: State, id: TaskId, now: Time, later: Time, last: Time, ttl: Time)
    requires Inv(s, ttl) && Step(s, TakeLock(id, now, later, last), ttl).Some?
    ensures Inv(Step(s, TakeLock(id, now, later, last), ttl).value, ttl)
  {
    var t := s.tasks[id];
    assert TaskInv(s, id, t);
    InvGivesOthers(s, id, ttl);
    match Admit(s.fields, t.force, t.seen, now, later, ttl)
    case Ride(result) =>
      var e := if t.force then Overtaken(id) else Fresh(now);
      ReasonKeeps(s, id, t.kid, t.force, t.seen, e, ttl);
      ResumeKeeps(Record(s, e), id, t.kid, t.force, t.seen, result, last, ttl);
    case Hold(result) =>
      HoldIsAllowed(s, later, ttl);
      ReasonKeeps(s, id, t.kid, t.force, t.seen, HeldOff(later), ttl);
      ResumeKeeps(Record(s, HeldOff(later)), id, t.kid, t.force, t.seen, result, last, ttl);
    case Fetch =>
      FetchStarts(s, id, now, later, last, ttl);
      assert Step(s, TakeLock(id, now, later, last), ttl) == Some(Starting(s, id, now, later, last));
  }

  lemma HoldIsAllowed(s: State, later: Time, ttl: Time)
    requires FieldsInv(s) && s.clock <= later < s.fields.retryAfter
    ensures Allowed(s.history, HeldOff(later), ttl)
  {
  }

  function Starting(s: State, id: TaskId, now: Time, later: Time, last: Time): State
    requires id in s.tasks && s.tasks[id].Waiting?
  {
    var t := s.tasks[id];
    Record(s.(lock := Some(id), tasks := s.tasks[id := Fetching(t.kid, t.force, t.seen)], clock := last),
           FetchStarted(id, t.force, now, later))
  }

  lemma FetchStarts(s: State, id: TaskId, now: Time, later: Time, last: Time, ttl: Time)
    requires Inv(s, ttl) && s.lock.None? && id in s.tasks && s.tasks[id].Waiting? && s.clock <= now <= later <= last
    requires Admit(s.fields, s.tasks[id].force, s.tasks[id].seen, now, later, ttl).Fetch?
    ensures Inv(Starting(s, id, now, later, last), ttl)
  {
    var e := FetchStarted(id, s.tasks[id].force, now, later);
    FetchMayStart(s, id, now, later, ttl);
    StartKeepsHistory(s, e, ttl);
    CooldownOutlasts(s, e, s.fields, last);
    FetchStartedKeepsFields(s, e, last);
    FetchStartedKeepsTasks(s, id, e, last);
    SameFieldsKeep(Record(s.(clock := last), e), Starting(s, id, now, later, last));
  }

  lemma StartKeepsHistory(s: State, e: Event, ttl: Time)
    requires Inv(s, ttl) && e.FetchStarted? && Allowed(s.history, e, ttl)
    ensures Disciplined(s.history + [e], ttl) && PastMisses(s.history + [e], s.fields.kidRefetchAfter)
  {
    AppendedEvent(s.history, e);
    AppendedTimes(s.history, e);
  }

  lemma SameFieldsKeep(s: State, r: State)
    requires FieldsInv(s) && CooldownInv(s) && r.fields == s.fields && r.clock == s.clock && r.history == s.history
    ensures FieldsInv(r) && CooldownInv(r)
  {
  }

  lemma FetchMayStart(s: State, id: TaskId, now: Time, later: Time, ttl: Time)
    requires Inv(s, ttl) && s.lock.None? && id in s.tasks && s.tasks[id].Waiting? && s.clock <= now <= later
    requires Admit(s.fields, s.tasks[id].force, s.tasks[id].seen, now, later, ttl).Fetch?
    ensures Allowed(s.history, FetchStarted(id, s.tasks[id].force, now, later), ttl)
  {
    assert TaskInv(s, id, s.tasks[id]);
    LaterIsPast(s.history, s.fields.retryAfter, later);
  }

  lemma FetchStartedKeepsTasks(s: State, id: TaskId, e: Event, clock: Time)
    requires TasksInv(s) && LockInv(s) && s.lock.None? && id in s.tasks && s.tasks[id].Waiting? && s.clock <= clock
    requires e.FetchStarted? && (s.tasks[id].force ==> s.tasks[id].seen == s.fields.fetchedAt)
    ensures var t := s.tasks[id];
            var r := Record(s.(lock := Some(id), tasks := s.tasks[id := Fetching(t.kid, t.force, t.seen)], clock := clock), e);
            TasksInv(r) && LockInv(r)
  {
    var t := s.tasks[id];
    var r := Record(s.(lock := Some(id), tasks := s.tasks[id := Fetching(t.kid, t.force, t.seen)], clock := clock), e);
    AppendedEvent(s.history, e);
    forall i | i in r.tasks
      ensures TaskInv(r, i, r.tasks[i])
    {
      assert TaskInv(s, i, s.tasks[i]);
      LoadOutlastsStart(s, e, clock, i, s.tasks[i]);
    }
  }

  lemma FetchStartedKeepsFields(s: State, e: Event, clock: Time)
    requires FieldsInv(s) && e.FetchStarted? && s.clock <= clock
    ensures FieldsInv(Record(s.(clock := clock), e))
  {
    AppendedEvent(s.history, e);
    AppendedTimes(s.history, e);
    LaterIsPast(s.history, s.clock, clock);
    if f :| f in s.history && f.FetchFailed? && s.fields.retryAfter == f.at + 5.0 {
      assert f in s.history + [e];
    }
  }

  lemma LoadOutlastsStart(s: State, e: Event, clock: Time, id: TaskId, t: Task)
    requires TaskInv(s, id, t) && e.FetchStarted? && s.clock <= clock
    ensures TaskInv(Record(s.(clock := clock), e), id, t)
  {
    AppendedEvent(s.history, e);
    AppendedTimes(s.history, e);
    LaterIsPast(s.history, s.clock, clock);
    if t.Answered? {
      var a :| a in s.history && a.KeyAnswered? && a.id == id && a.key == t.key;
      assert a in s.history + [e];
    } else if !t.Refused? && t.force {
      var a :| a in s.history && a.RefetchAsked? && a.id == id && a.kid == t.kid;
      assert a in s.history + [e];
    }
  }

  /** Other tasks after a fetch ended: a success makes every version that was
      current an older one. */
  lemma OthersOutlastFetch(s: State, id: TaskId, e: Event, fields: Fields)
    requires (e.FetchOk? || e.FetchFailed?) && s.clock <= e.at
    requires TasksInv(s) && LockInv(s) && id in s.tasks && s.tasks[id].Fetching?
    requires || (e.FetchFailed? && fields.fetchedAt == s.fields.fetchedAt)
             || (e.FetchOk? && s.fields.fetchedAt < e.at && fields.fetchedAt == e.at)
    ensures OthersInv(Record(s.(fields := fields, lock := None, clock := e.at), e), id)
  {
    var r := Record(s.(fields := fields, lock := None, clock := e.at), e);
    AppendedEvent(s.history, e);
    AppendedTimes(s.history, e);
    LaterIsPast(s.history, s.clock, e.at);
    forall i | i in r.tasks && i != id
      ensures TaskInv(r, i, r.tasks[i])
    {
      var t := s.tasks[i];
      assert TaskInv(s, i, t);
      if t.Answered? {
        var a :| a in s.history && a.KeyAnswered? && a.id == i && a.key == t.key;
        assert a in r.history;
      } else if !t.Refused? && t.force {
        var a :| a in s.history && a.RefetchAsked? && a.id == i && a.kid == t.kid;
        assert a in r.history;
      }
    }
    assert forall i | i in r.tasks - {id} :: !r.tasks[i].Fetching?;
  }

  lemma CompleteKeeps(s: State, id: TaskId, keys: KeySet, now: Time, later: Time, ttl: Time)
    requires Inv(s, ttl) && Step(s, Complete(id, keys, now, later), ttl).Some?
    ensures Inv(Step(s, Complete(id, keys, now, later), ttl).value, ttl)
  {
    var t := s.tasks[id];
    var e := FetchOk(now, keys, t.force, t.kid);
    var c := Record(s.(fields := Succeeded(s.fields, keys, now), lock := None, clock := now), e);
    SuccessKeepsFields(s, e);
    FetchEnds(s, id, e, c.fields, ttl);
    MissIsPast(s, e, ttl);
    assert Step(s, Complete(id, keys, now, later), ttl) == Some(Resume(c, id, t.kid, t.force, t.seen, Ok(keys), later));
    assert TaskInv(s, id, t);
    ResumeKeeps(c, id, t.kid, t.force, t.seen, Ok(keys), later, ttl);
  }

  /** A miss of the task's own leaves the others' cooldown behind it. */
  lemma MissIsPast(s: State, e: Event, ttl: Time)
    requires Inv(s, ttl) && e.FetchOk? && s.clock <= e.at
    ensures !IsMiss(e) ==> PastMisses(s.history + [e], s.fields.kidRefetchAfter)
  {
    AppendedTimes(s.history, e);
  }

  /** The task whose fetch ended, in the middle of its stretch. */
  lemma FetchEnds(s: State, id: TaskId, e: Event, fields: Fields, ttl: Time)
    requires Inv(s, ttl) && id in s.tasks && s.tasks[id].Fetching?
    requires (e.FetchFailed? && e.at >= s.clock && fields == Failed(s.fields, e.at))
             || (e.FetchOk? && e.at >= s.clock && s.fields.fetchedAt < e.at && fields == Succeeded(s.fields, e.keys, e.at)
                 && e.force == s.tasks[id].force && e.kid == s.tasks[id].kid)
    requires FieldsInv(Record(s.(fields := fields, lock := None, clock := e.at), e))
    ensures Midway(Record(s.(fields := fields, lock := None, clock := e.at), e), id, s.tasks[id].kid, s.tasks[id].force, s.tasks[id].seen, ttl)
  {
    var t := s.tasks[id];
    var c := Record(s.(fields := fields, lock := None, clock := e.at), e);
    assert TaskInv(s, id, t);
    EndIsAllowed(s, id, e, ttl);
    AppendedEvent(s.history, e);
    CooldownOutlasts(s, e, fields, e.at);
    OthersOutlastFetch(s, id, e, fields);
    assert c.history[|c.history| - 1] == e;
    if t.force {
      var a :| a in s.history && a.RefetchAsked? && a.id == id && a.kid == t.kid;
      assert a in c.history;
    }
  }

  lemma EndIsAllowed(s: State, id: TaskId, e: Event, ttl: Time)
    requires Inv(s, ttl) && id in s.tasks && s.tasks[id].Fetching?
    requires (e.FetchFailed? && e.at >= s.clock)
             || (e.FetchOk? && e.at >= s.clock && e.force == s.tasks[id].force && e.kid == s.tasks[id].kid)
    ensures Allowed(s.history, e, ttl)
  {
    assert TaskInv(s, id, s.tasks[id]);
    LaterIsPast(s.history, s.clock, e.at);
  }

  lemma SuccessKeepsFields(s: State, e: Event)
    requires FieldsInv(s) && e.FetchOk? && s.clock <= e.at && s.fields.fetchedAt < e.at
    ensures FieldsInv(Record(s.(fields := Succeeded(s.fields, e.keys, e.at), lock := None, clock := e.at), e))
  {
    AppendedEvent(s.history, e);
    AppendedTimes(s.history, e);
    LaterIsPast(s.history, s.clock, e.at);
    if f :| f in s.history && f.FetchFailed? && s.fields.retryAfter == f.at + 5.0 {
      assert f in s.history + [e];
    }
  }

  lemma FailureKeepsFields(s: State, e: Event)
    requires FieldsInv(s) && e.FetchFailed? && s.clock <= e.at
    ensures FieldsInv(Record(s.(fields := Failed(s.fields, e.at), lock := None, clock := e.at), e))
  {
    AppendedEvent(s.history, e);
    AppendedTimes(s.history, e);
    LaterIsPast(s.history, s.clock, e.at);
    assert e in s.history + [e];
  }

  lemma FailKeeps(s: State, id: TaskId, now: Time, later: Time, ttl: Time)
    requires Inv(s, ttl) && Step(s, Fail(id, now, later), ttl).Some?
    ensures Inv(Step(s, Fail(id, now, later), ttl).value, ttl)
  {
    var t := s.tasks[id];
    var e := FetchFailed(now);
    var f := Record(s.(fields := Failed(s.fields, now), lock := None, clock := now), e);
    FailureKeepsFields(s, e);
    FetchEnds(s, id, e, f.fields, ttl);
    AppendedTimes(s.history, e);
    assert Step(s, Fail(id, now, later), ttl) == Some(Resume(f, id, t.kid, t.force, t.seen, StaleOrRaise(f.fields), later));
    ResumeKeeps(f, id, t.kid, t.force, t.seen, StaleOrRaise(f.fields), later, ttl);
  }

  lemma StepKeeps(s: State, a: Action, ttl: Time)
    requires Inv(s, ttl) && Step(s, a, ttl).Some?
    ensures Inv(Step(s, a, ttl).value, ttl)
  {
    match a
    case Call(id, kid, now, later) => CallKeeps(s, id, kid, now, later, ttl);
    case TakeLock(id, now, later, last) => TakeLockKeeps(s, id, now, later, last, ttl);
    case Complete(id, keys, now, later) => CompleteKeeps(s, id, keys, now, later, ttl);
    case Fail(id, now, later) => FailKeeps(s, id, now, later, ttl);
  }

  lemma {:induction false} RunKeeps(s: State, actions: seq<Action>, ttl: Time)
    requires Inv(s, ttl) && Run(s, actions, ttl).Some?
    ensures Inv(Run(s, actions, ttl).value, ttl)
    decreases |actions|
  {
    if actions != [] {
      StepKeeps(s, actions[0], ttl);
      RunKeeps(Step(s, actions[0], ttl).value, actions[1..], ttl);
    }
  }

  /** Every event was allowed by what came before it. */
  lemma {:induction false} EventsAreAllowed(history: seq<Event>, j: nat, ttl: Time)
    requires Disciplined(history, ttl) && j < |history|
    ensures Allowed(history[..j], history[j], ttl)
  {
    if j < |history| - 1 {
      EventsAreAllowed(history[..|history| - 1], j, ttl);
      assert history[..|history| - 1][..j] == history[..j];
    }
  }

  // ---- what every run promises ----

  /** However the tasks interleave, two forced refetches that both came back
      without the key id they were made for are at least a minute apart. */
  lemma UnknownKidRefetchesAreAMinuteApart(actions: seq<Action>, ttl: Time, i: nat, j: nat)
    requires Run(INITIAL, actions, ttl).Some?
    requires i < j < |Run(INITIAL, actions, ttl).value.history|
    requires IsMiss(Run(INITIAL, actions, ttl).value.history[i])
    requires IsMiss(Run(INITIAL, actions, ttl).value.history[j])
    ensures Run(INITIAL, actions, ttl).value.history[j].at >= Run(INITIAL, actions, ttl).value.history[i].at + 60.0
  {
    RunKeeps(INITIAL, actions, ttl);
    var h := Run(INITIAL, actions, ttl).value.history;
    EventsAreAllowed(h, j, ttl);
    assert h[..j][i] == h[i];
  }

  /** Tasks never fetch together, and the fetches of a run do not overlap. */
  lemma OneFetchAtATime(actions: seq<Action>, ttl: Time)
    requires Run(INITIAL, actions, ttl).Some?
    ensures var s := Run(INITIAL, actions, ttl).value;
            && (forall t, u | t in s.tasks && u in s.tasks && s.tasks[t].Fetching? && s.tasks[u].Fetching? :: t == u)
            && (forall i, j | 0 <= i < j < |s.history| && s.history[i].FetchStarted? && s.history[j].FetchStarted? ::
                  exists k :: i < k < j && (s.history[k].FetchOk? || s.history[k].FetchFailed?))
  {
    RunKeeps(INITIAL, actions, ttl);
    var h := Run(INITIAL, actions, ttl).value.history;
    forall i, j | 0 <= i < j < |h| && h[i].FetchStarted? && h[j].FetchStarted?
      ensures exists k :: i < k < j && (h[k].FetchOk? || h[k].FetchFailed?)
    {
      EventsAreAllowed(h, j, ttl);
      var k := FinishedSince(h[..j], i);
      assert h[k] == h[..j][k];
    }
  }

  lemma {:induction false} FinishedSince(history: seq<Event>, i: nat) returns (k: nat)
    requires i < |history| && history[i].FetchStarted? && !InFlight(history)
    ensures i < k < |history| && (history[k].FetchOk? || history[k].FetchFailed?)
  {
    k := |history| - 1;
    if !history[k].FetchOk? && !history[k].FetchFailed? {
      k := FinishedSince(history[..k], i);
    }
  }

  /** No fetch starts within five seconds of a failed one, or while the set is
      unexpired, unless it is forced by a task since whose asking nothing was
      fetched; every load answers with the last set fetched, and none raises
      once there has been one. */
  lemma FetchDiscipline(actions: seq<Action>, ttl: Time)
    requires Run(INITIAL, actions, ttl).Some?
    ensures var h := Run(INITIAL, actions, ttl).value.history;
            && (forall i, j | 0 <= i < j < |h| && h[i].FetchFailed? && h[j].FetchStarted? :: h[j].at >= h[i].at + 5.0)
            && (forall j | 0 <= j < |h| && h[j].FetchStarted? ::
                  if h[j].force then !FetchedSince(h[..j], h[j].id)
                  else LatestAt(h[..j]).None? || h[j].checked >= LatestAt(h[..j]).value + ttl)
            && (forall j | 0 <= j < |h| && h[j].LoadReturned? :: LatestKeys(h[..j]) == Some(h[j].keys))
            && (forall i, j | 0 <= i < j < |h| && h[i].FetchOk? :: !h[j].LoadRaised?)
  {
    RunKeeps(INITIAL, actions, ttl);
    var h := Run(INITIAL, actions, ttl).value.history;
    forall j | 0 <= j < |h|
      ensures h[j].LoadReturned? ==> LatestKeys(h[..j]) == Some(h[j].keys)
      ensures h[j].FetchStarted? ==>
                if h[j].force then !FetchedSince(h[..j], h[j].id)
                else LatestAt(h[..j]).None? || h[j].checked >= LatestAt(h[..j]).value + ttl
    {
      EventsAreAllowed(h, j, ttl);
    }
    forall i, j | 0 <= i < j < |h|
      ensures h[i].FetchFailed? && h[j].FetchStarted? ==> h[j].at >= h[i].at + 5.0
      ensures h[i].FetchOk? ==> !h[j].LoadRaised?
    {
      EarlierEventsBind(h, i, j, ttl);
    }
  }

  lemma EarlierEventsBind(h: seq<Event>, i: nat, j: nat, ttl: Time)
    requires Disciplined(h, ttl) && i < j < |h|
    ensures h[i].FetchFailed? && h[j].FetchStarted? ==> h[j].at >= h[i].at + 5.0
    ensures h[i].FetchOk? ==> !h[j].LoadRaised?
  {
    EventsAreAllowed(h, j, ttl);
    assert h[..j][i] == h[i];
    if h[i].FetchOk? {
      SuccessIsRemembered(h[..j], i);
    }
  }

  lemma {:induction false} SuccessIsRemembered(history: seq<Event>, i: nat)
    requires i < |history| && history[i].FetchOk?
    ensures LatestKeys(history).Some?
  {
    if !history[|history| - 1].FetchOk? {
      SuccessIsRemembered(history[..|history| - 1], i);
    }
  }

  /** No load comes back without a fetch of its own unless the set is younger
      than the TTL, or the load is forced and a fetch succeeded since its task
      asked, or a fetch failed less than five seconds before. */
  lemma LoadsHaveReasons(actions: seq<Action>, ttl: Time, j: nat)
    requires Run(INITIAL, actions, ttl).Some? && 0 < j < |Run(INITIAL, actions, ttl).value.history|
    requires var e := Run(INITIAL, actions, ttl).value.history[j]; e.LoadReturned? || e.LoadRaised?
    ensures var h := Run(INITIAL, actions, ttl).value.history;
            match h[j - 1]
            case FetchOk(_, _, _, _) => true
            case FetchFailed(_) => true
            case Fresh(at) => LatestAt(h[..j - 1]).Some? && at < LatestAt(h[..j - 1]).value + ttl
            case Overtaken(id) => FetchedSince(h[..j - 1], id)
            case HeldOff(at) => exists f :: f in h[..j - 1] && f.FetchFailed? && at < f.at + 5.0
            case _ => false
  {
    RunKeeps(INITIAL, actions, ttl);
    var h := Run(INITIAL, actions, ttl).value.history;
    EventsAreAllowed(h, j, ttl);
    EventsAreAllowed(h, j - 1, ttl);
    assert h[..j][|h[..j]| - 1] == h[j - 1];
  }

  /** What a task is told. The answer is what the latest fetched set has under
      the key id the task was called with, None only where that set lacks it.
      A None comes only from a forced load of the task's own, or less than a
      minute after such a load, on a set fetched since it was asked, found some
      key id missing. A forced load's answer rests on a set fetched since the
      task asked, unless fetching failed. */
  lemma AnswersAreTrue(actions: seq<Action>, ttl: Time, j: nat)
    requires Run(INITIAL, actions, ttl).Some? && j < |Run(INITIAL, actions, ttl).value.history|
    requires Run(INITIAL, actions, ttl).value.history[j].KeyAnswered?
    ensures var h := Run(INITIAL, actions, ttl).value.history;
            AnsweredTruly(h, j)
  {
    RunKeeps(INITIAL, actions, ttl);
    AllowedAnswerIsTrue(Run(INITIAL, actions, ttl).value.history, j, ttl);
  }

  ghost predicate AnsweredTruly(h: seq<Event>, j: nat)
    requires j < |h| && h[j].KeyAnswered?
  {
    var KeyAnswered(id, kid, key, at, forced) := h[j];
    && Called(id, kid) in h[..j]
    && LatestKeys(h[..j]).Some?
    && (key.Some? ==> kid in LatestKeys(h[..j]).value && key.value == LatestKeys(h[..j]).value[kid])
    && (key.None? ==> kid !in LatestKeys(h[..j]).value)
    && (key.None? && !forced ==> InCooldown(h[..j], at))
    && (forced ==> HasAsked(h[..j], id, kid))
    && (forced ==> FetchedSince(h[..j], id) || (j >= 2 && (h[j - 2].HeldOff? || h[j - 2].FetchFailed?)))
  }

  lemma AllowedAnswerIsTrue(h: seq<Event>, j: nat, ttl: Time)
    requires Disciplined(h, ttl) && j < |h| && h[j].KeyAnswered?
    ensures AnsweredTruly(h, j)
  {
    EventsAreAllowed(h, j, ttl);
    if j >= 2 {
      assert h[..j][|h[..j]| - 2] == h[j - 2];
    }
  }

  /** A task asks for a refetch only for a key id the latest set lacks, and
      outside every cooldown. */
  lemma RefetchesAreNeeded(actions: seq<Action>, ttl: Time, j: nat)
    requires Run(INITIAL, actions, ttl).Some? && j < |Run(INITIAL, actions, ttl).value.history|
    requires Run(INITIAL, actions, ttl).value.history[j].RefetchAsked?
    ensures var h := Run(INITIAL, actions, ttl).value.history;
            && Called(h[j].id, h[j].kid) in h[..j]
            && LatestKeys(h[..j]).Some? && h[j].kid !in LatestKeys(h[..j]).value
            && !InCooldown(h[..j], h[j].at)
  {
    RunKeeps(INITIAL, actions, ttl);
    EventsAreAllowed(Run(INITIAL, actions, ttl).value.history, j, ttl);
  }

  /** Every task that ended was answered, or its load raised; any other waits. */
  lemma TasksEndWithAnswers(actions: seq<Action>, ttl: Time, id: TaskId)
    requires Run(INITIAL, actions, ttl).Some? && id in Run(INITIAL, actions, ttl).value.tasks
    ensures var s := Run(INITIAL, actions, ttl).value;
            match s.tasks[id]
            case Answered(key) => exists e :: e in s.history && e.KeyAnswered? && e.id == id && e.key == key
            case Refused => LoadRaised(id) in s.history
            case Waiting(kid, force, _) => Called(id, kid) in s.history && (force ==> HasAsked(s.history, id, kid))
            case Fetching(kid, force, _) => Called(id, kid) in s.history && (force ==> HasAsked(s.history, id, kid))
  {
    RunKeeps(INITIAL, actions, ttl);
    var s := Run(INITIAL, actions, ttl).value;
    assert TaskInv(s, id, s.tasks[id]);
  }

  /** A call that finds the set fresh but without its key id, outside every
      cooldown, is not answered: it waits for a forced load. */
  lemma UnknownKidWaitsForRefetch(actions: seq<Action>, ttl: Time, id: TaskId, kid: Kid, now: Time, later: Time)
    requires Run(INITIAL, actions, ttl).Some?
    requires var s := Run(INITIAL, actions, ttl).value;
             && id !in s.tasks && s.clock <= now <= later
             && LatestAt(s.history).Some? && now < LatestAt(s.history).value + ttl
             && kid !in LatestKeys(s.history).GetOr(map[]) && !InCooldown(s.history, later)
    ensures var next := Step(Run(INITIAL, actions, ttl).value, Call(id, kid, now, later), ttl);
            && next.Some? && next.value.tasks[id].Waiting? && next.value.tasks[id].force && next.value.tasks[id].kid == kid
            && RefetchAsked(id, kid, later) in next.value.history
  {
    RunKeeps(INITIAL, actions, ttl);
    var s := Run(INITIAL, actions, ttl).value;
    CooldownIs(s, later);
    var next := Step(s, Call(id, kid, now, later), ttl).value;
    assert next.history[|next.history| - 1] == RefetchAsked(id, kid, later);
  }
}
