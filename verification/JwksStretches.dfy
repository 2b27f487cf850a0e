/** Tasks driving the cache object. Each method is what one task does between two
    awaits, calling JwksCache as the source does, and takes the state that
    JwksRuns steps to: what is proved of its runs holds of the object's. */
module JwksStretches {
  import opened Common
  import opened JwksCaches
  import opened JwksRuns

  /** A state after one stretch of task `id`, given what the stretch did. */
  function After(s: State, f: Fields, lock: Option<TaskId>, id: TaskId, task: Task, clock: Time, events: seq<Event>): State {
    State(f, lock, s.tasks[id := task], clock, s.history + events)
  }

  /** `signing_key` from the answer of a load to its next await or its return. */
  method Continue(
    cache: JwksCache, id: TaskId, kid: Kid, force: bool, seen: Time, result: Result<KeySet, Unavailable>, now: Time, ttl: Time,
    ghost s: State)
    returns (task: Task, events: seq<Event>)
    requires s.fields == cache.State()
    modifies cache
    ensures !task.Fetching?
    ensures Resume(s, id, kid, force, seen, result, now) == After(s, cache.State(), s.lock, id, task, now, events)
  {
    if result.Err? {
      return Refused, [LoadRaised(id)];
    }
    events := [LoadReturned(result.value)];
    var key := Select(result.value, kid);
    if force {
      cache.AfterForcedLoad(key, seen, now);
      return Answered(key), events + [KeyAnswered(id, kid, key, now, true)];
    }
    if key.Some? {
      return Answered(key), events + [KeyAnswered(id, kid, key, now, false)];
    }
    var noted := cache.MayRefetch(now);
    if noted.None? {
      return Answered(None), events + [KeyAnswered(id, kid, None, now, false)];
    }
    var _, version := cache.BeginLoad(true, now, ttl);
    return Waiting(kid, true, version), events + [RefetchAsked(id, kid, now)];
  }

  method CallSigningKey(cache: JwksCache, id: TaskId, kid: Kid, now: Time, later: Time, ttl: Time, ghost s: State)
    returns (task: Task, events: seq<Event>)
    requires s.fields == cache.State() && Step(s, Call(id, kid, now, later), ttl).Some?
    modifies cache
    ensures Step(s, Call(id, kid, now, later), ttl) == Some(After(s, cache.State(), s.lock, id, task, later, events))
  {
    var cached, seen := cache.BeginLoad(false, now, ttl);
    if cached.Some? {
      ghost var m := Record(Record(s, Called(id, kid)), Fresh(now));
      task, events := Continue(cache, id, kid, false, seen, Ok(cached.value), later, ttl, m);
      events := Joined(s.history, [Called(id, kid), Fresh(now)], events);
      assert m.history == s.history + [Called(id, kid), Fresh(now)];
    } else {
      task, events := Waiting(kid, false, seen), [Called(id, kid)];
    }
  }

  /** Events of a stretch, the earlier ones first. */
  method Joined(ghost history: seq<Event>, first: seq<Event>, rest: seq<Event>) returns (events: seq<Event>)
    ensures events == first + rest && history + events == (history + first) + rest
  {
    events := first + rest;
  }

  method TakeTheLock(cache: JwksCache, id: TaskId, t: Task, now: Time, later: Time, last: Time, ttl: Time, ghost s: State)
    returns (task: Task, events: seq<Event>)
    requires t.Waiting? && s.fields == cache.State()
    requires id in s.tasks && s.tasks[id] == t && Step(s, TakeLock(id, now, later, last), ttl).Some?
    modifies cache
    ensures Step(s, TakeLock(id, now, later, last), ttl) ==
            Some(After(s, cache.State(), if task.Fetching? then Some(id) else s.lock, id, task, last, events))
  {
    var admission := cache.EnterLock(t.force, t.seen, now, later, ttl);
    match admission
    case Ride(result) =>
      var reason := if t.force then Overtaken(id) else Fresh(now);
      task, events := Continue(cache, id, t.kid, t.force, t.seen, result, last, ttl, Record(s, reason));
      events := Joined(s.history, [reason], events);
    case Hold(result) =>
      task, events := Continue(cache, id, t.kid, t.force, t.seen, result, last, ttl, Record(s, HeldOff(later)));
      events := Joined(s.history, [HeldOff(later)], events);
    case Fetch =>
      task, events := Fetching(t.kid, t.force, t.seen), [FetchStarted(id, t.force, now, later)];
  }

  method CompleteFetch(cache: JwksCache, id: TaskId, t: Task, keys: KeySet, now: Time, later: Time, ttl: Time, ghost s: State)
    returns (task: Task, events: seq<Event>)
    requires t.Fetching? && s.fields == cache.State()
    requires id in s.tasks && s.tasks[id] == t && Step(s, Complete(id, keys, now, later), ttl).Some?
    modifies cache
    ensures Step(s, Complete(id, keys, now, later), ttl) == Some(After(s, cache.State(), None, id, task, later, events))
  {
    cache.FetchSucceeded(keys, now);
    var e := FetchOk(now, keys, t.force, t.kid);
    ghost var m := Record(s.(fields := cache.State(), lock := None, clock := now), e);
    task, events := Continue(cache, id, t.kid, t.force, t.seen, Ok(keys), later, ttl, m);
    events := Joined(s.history, [e], events);
  }

  method FailFetch(cache: JwksCache, id: TaskId, t: Task, now: Time, later: Time, ttl: Time, ghost s: State)
    returns (task: Task, events: seq<Event>)
    requires t.Fetching? && s.fields == cache.State()
    requires id in s.tasks && s.tasks[id] == t && Step(s, Fail(id, now, later), ttl).Some?
    modifies cache
    ensures Step(s, Fail(id, now, later), ttl) == Some(After(s, cache.State(), None, id, task, later, events))
  {
    var result := cache.FetchFailed(now);
    ghost var m := Record(s.(fields := cache.State(), lock := None, clock := now), FetchFailed(now));
    task, events := Continue(cache, id, t.kid, t.force, t.seen, result, later, ttl, m);
    events := Joined(s.history, [FetchFailed(now)], events);
  }
}
