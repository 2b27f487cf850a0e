/** One process's cache of refresh times: core/db/refresh_metadata.py. Any number
    of tasks ask for any view; a task stops only where the source awaits, for
    the view's lock and for the query it makes while holding it. */
module RefreshCaches {
  import opened Common
  import opened ChangeLog

  const AS_OF_TTL: Time := 300 * SECOND

  datatype Entry = Entry(asOf: Option<Time>, storedAt: Time)

  predicate Unexpired(e: Entry, now: Time) {
    now < e.storedAt + AS_OF_TTL
  }

  /** `if key in _cache: return _cache[key]`, which reads the clock twice. */
  datatype Looked = Miss | Hit(asOf: Option<Time>) | Lapsed

  function Look(entries: map<Source, Entry>, view: Source, now: Time, later: Time): Looked {
    if view !in entries || !Unexpired(entries[view], now) then Miss
    else if Unexpired(entries[view], later) then Hit(entries[view].asOf)
    else Lapsed
  }

  class RefreshCache {
    var entries: map<Source, Entry>

    constructor ()
      ensures entries == map[]
    {
      entries := map[];
    }

    /** A hit is an unexpired entry; a miss is none; and a read raises exactly
        when the entry expires between the two clock readings. */
    method Lookup(view: Source, now: Time, later: Time) returns (looked: Looked)
      requires now <= later
      ensures looked == Look(entries, view, now, later)
      ensures looked.Miss? <==> view !in entries || entries[view].storedAt + AS_OF_TTL <= now
      ensures looked.Hit? ==> view in entries && looked.asOf == entries[view].asOf && later < entries[view].storedAt + AS_OF_TTL
      ensures looked.Lapsed? <==> view in entries && now < entries[view].storedAt + AS_OF_TTL <= later
    {
      if view in entries && Unexpired(entries[view], now) {
        if !Unexpired(entries[view], later) {
          return Lapsed;
        }
        return Hit(entries[view].asOf);
      }
      return Miss;
    }

    method Store(view: Source, asOf: Option<Time>, now: Time)
      modifies this
      ensures entries == old(entries)[view := Entry(asOf, now)]
    {
      entries := entries[view := Entry(asOf, now)];
    }
  }

  type TaskId = nat

  datatype Task = Waiting(view: Source) | Querying(view: Source) | Returned(asOf: Option<Time>) | Raised

  datatype Event =
    | Asked(view: Source, id: TaskId)
    | QueryStarted(view: Source, at: Time)
    | QueryOk(view: Source, at: Time, asOf: Option<Time>)
    | QueryFailed(view: Source, id: TaskId)
    | Served(view: Source, id: TaskId, at: Time, asOf: Option<Time>)
    | Expired(view: Source, id: TaskId, now: Time, later: Time)

  datatype State = State(
    entries: map<Source, Entry>,
    locks: map<Source, TaskId>,
    tasks: map<TaskId, Task>,
    clock: Time,
    history: seq<Event>)

  datatype Action =
    | Call(id: TaskId, view: Source, now: Time, later: Time)
    | TakeLock(id: TaskId, now: Time, later: Time)
    | Complete(id: TaskId, asOf: Option<Time>, now: Time)
    | Fail(id: TaskId)

  const INITIAL := State(map[], map[], map[], 0, [])

  function Happens(s: State, e: Event): State {
    s.(history := s.history + [e])
  }

  /** Serving a hit, raising on a lapse, or else going on to `task`. */
  function Answer(s: State, id: TaskId, view: Source, looked: Looked, now: Time, later: Time, next: State): State {
    match looked
    case Miss => next
    case Hit(asOf) => Happens(s.(tasks := s.tasks[id := Returned(asOf)], clock := later), Served(view, id, later, asOf))
    case Lapsed => Happens(s.(tasks := s.tasks[id := Raised], clock := later), Expired(view, id, now, later))
  }

  function Step(s: State, a: Action): Option<State> {
    match a
    case Call(id, view, now, later) =>
      if id in s.tasks || !(s.clock <= now <= later) then None
      else
        var s := Happens(s, Asked(view, id));
        Some(Answer(s, id, view, Look(s.entries, view, now, later), now, later,
                    s.(tasks := s.tasks[id := Waiting(view)], clock := later)))
    case TakeLock(id, now, later) =>
      if id !in s.tasks || !s.tasks[id].Waiting? || s.tasks[id].view in s.locks || !(s.clock <= now <= later) then None
      else
        var view := s.tasks[id].view;
        Some(Answer(s, id, view, Look(s.entries, view, now, later), now, later,
                    Happens(s.(tasks := s.tasks[id := Querying(view)], locks := s.locks[view := id], clock := later),
                            QueryStarted(view, later))))
    case Complete(id, asOf, now) =>
      if id !in s.tasks || !s.tasks[id].Querying? || now < s.clock then None
      else
        var view := s.tasks[id].view;
        var stored := Happens(s.(entries := s.entries[view := Entry(asOf, now)], locks := s.locks - {view}), QueryOk(view, now, asOf));
        Some(Happens(stored.(tasks := s.tasks[id := Returned(asOf)], clock := now), Served(view, id, now, asOf)))
    case Fail(id) =>
      if id !in s.tasks || !s.tasks[id].Querying? then None
      else
        var view := s.tasks[id].view;
        Some(Happens(s.(tasks := s.tasks[id := Raised], locks := s.locks - {view}), QueryFailed(view, id)))
  }

  function Run(s: State, actions: seq<Action>): Option<State>
    decreases |actions|
  {
    if actions == [] then Some(s)
    else
      match Step(s, actions[0])
      case None => None
      case Some(next) => Run(next, actions[1..])
  }

  /** What the last query for a view to succeed found, and when. */
  function Latest(history: seq<Event>, view: Source): Option<Entry> {
    if history == [] then None
    else
      var e := history[|history| - 1];
      if e.QueryOk? && e.view == view then Some(Entry(e.asOf, e.at)) else Latest(history[..|history| - 1], view)
  }

  /** Whether the last query for a view to start has not finished. */
  predicate InFlight(history: seq<Event>, view: Source) {
    if history == [] || (history[|history| - 1].view == view && (history[|history| - 1].QueryOk? || history[|history| - 1].QueryFailed?)) then false
    else (history[|history| - 1].view == view && history[|history| - 1].QueryStarted?) || InFlight(history[..|history| - 1], view)
  }

  /** Every success for `view` has expired by `t`. */
  ghost predicate AllExpired(history: seq<Event>, view: Source, t: Time) {
    forall e | e in history && e.QueryOk? && e.view == view :: e.at + AS_OF_TTL <= t
  }

  /** What may happen next, given what happened. */
  ghost predicate Allowed(history: seq<Event>, e: Event) {
    match e
    case QueryStarted(view, at) => !InFlight(history, view) && AllExpired(history, view, at)
    case Served(view, id, at, asOf) =>
      && Asked(view, id) in history
      && Latest(history, view).Some? && Latest(history, view).value.asOf == asOf && Unexpired(Latest(history, view).value, at)
    case Asked(_, _) => true
    case Expired(view, id, now, later) =>
      && Asked(view, id) in history
      && Latest(history, view).Some? && now < Latest(history, view).value.storedAt + AS_OF_TTL <= later
    case QueryOk(view, _, _) => InFlight(history, view)
    case QueryFailed(view, _) => InFlight(history, view)
  }

  ghost predicate Disciplined(history: seq<Event>) {
    history == [] ||
    (Disciplined(history[..|history| - 1]) && Allowed(history[..|history| - 1], history[|history| - 1]))
  }

  /** What holds after every action of every run. */
  ghost predicate Inv(s: State) {
    Disciplined(s.history) && ViewsInv(s) && LockInv(s) && TasksInv(s.history, s.tasks)
  }

  ghost predicate ViewsInv(s: State) {
    forall view: Source :: ViewInv(s, view)
  }

  ghost predicate TasksInv(history: seq<Event>, tasks: map<TaskId, Task>) {
    forall id | id in tasks :: TaskInv(history, id, tasks[id])
  }

  ghost predicate ViewInv(s: State, view: Source) {
    && Latest(s.history, view) == (if view in s.entries then Some(s.entries[view]) else None)
    && (view in s.entries ==> s.entries[view].storedAt <= s.clock && AllExpired(s.history, view, s.entries[view].storedAt + AS_OF_TTL))
    && (view !in s.entries ==> forall t :: AllExpired(s.history, view, t))
    && (view in s.locks <==> InFlight(s.history, view))
  }

  ghost predicate LockInv(s: State) {
    && (forall id | id in s.tasks && s.tasks[id].Querying? :: s.tasks[id].view in s.locks && s.locks[s.tasks[id].view] == id)
    && (forall view | view in s.locks :: s.locks[view] in s.tasks && s.tasks[s.locks[view]] == Querying(view))
  }

  /** What a task holds is what the history says it was given. */
  ghost predicate TaskInv(history: seq<Event>, id: TaskId, t: Task) {
    match t
    case Waiting(view) => Asked(view, id) in history
    case Querying(view) => Asked(view, id) in history
    case Returned(asOf) => exists e :: e in history && e.Served? && e.id == id && e.asOf == asOf
    case Raised => exists e :: e in history && (e.QueryFailed? || e.Expired?) && e.id == id
  }

  lemma AppendedEvent(h: seq<Event>, e: Event, view: Source)
    ensures Disciplined(h) && Allowed(h, e) ==> Disciplined(h + [e])
    ensures Latest(h + [e], view) == if e.QueryOk? && e.view == view then Some(Entry(e.asOf, e.at)) else Latest(h, view)
    ensures InFlight(h + [e], view) ==
            if e.view != view || e.Served? || e.Asked? || e.Expired? then InFlight(h, view) else e.QueryStarted?
    ensures forall t :: AllExpired(h + [e], view, t) <==>
                        AllExpired(h, view, t) && (e.QueryOk? && e.view == view ==> e.at + AS_OF_TTL <= t)
  {
    var g := h + [e];
    assert g[..|g| - 1] == h && g[|g| - 1] == e;
    assert forall x :: x in g <==> x in h || x == e;
  }

  lemma TaskOutlasts(h: seq<Event>, e: Event, id: TaskId, t: Task)
    requires TaskInv(h, id, t)
    ensures TaskInv(h + [e], id, t)
  {
    assert forall x | x in h :: x in h + [e];
  }

  lemma TasksOutlast(h: seq<Event>, e: Event, tasks: map<TaskId, Task>, id: TaskId, t: Task)
    requires TasksInv(h, tasks) && TaskInv(h + [e], id, t)
    ensures TasksInv(h + [e], tasks[id := t])
  {
    var next := tasks[id := t];
    forall i | i in next
      ensures TaskInv(h + [e], i, next[i])
    {
      if i != id {
        TaskOutlasts(h, e, i, tasks[i]);
      }
    }
  }

  /** Events that neither start nor end a query. */
  lemma QuietKeepsViews(s: State, r: State, e: Event)
    requires ViewsInv(s) && s.clock <= r.clock && (e.Asked? || e.Served? || e.Expired?)
    requires r.history == s.history + [e] && r.entries == s.entries && r.locks == s.locks
    ensures ViewsInv(r)
  {
    forall v: Source
      ensures ViewInv(r, v)
    {
      assert ViewInv(s, v);
      AppendedEvent(s.history, e, v);
    }
  }

  /** A task that holds no lock may move anywhere but to a query. */
  lemma LocksOutlast(s: State, r: State, id: TaskId, t: Task)
    requires LockInv(s) && (id in s.tasks ==> !s.tasks[id].Querying?) && !t.Querying?
    requires r.locks == s.locks && r.tasks == s.tasks[id := t]
    ensures LockInv(r)
  {
  }

  /** One task's quiet step: an allowed event, and its new place. */
  lemma QuietStepKeeps(s: State, id: TaskId, e: Event, t: Task, clock: Time)
    requires Inv(s) && s.clock <= clock && (e.Asked? || e.Served? || e.Expired?) && Allowed(s.history, e)
    requires (id in s.tasks ==> !s.tasks[id].Querying?) && !t.Querying? && TaskInv(s.history + [e], id, t)
    ensures Inv(Happens(s.(tasks := s.tasks[id := t], clock := clock), e))
  {
    var r := Happens(s.(tasks := s.tasks[id := t], clock := clock), e);
    QuietKeepsViews(s, r, e);
    LocksOutlast(s, r, id, t);
    AppendedEvent(s.history, e, e.view);
    TasksOutlast(s.history, e, s.tasks, id, t);
  }

  /** Serving from the cache, or raising at a lapse, keeps the invariant. */
  lemma AnswerKeeps(s: State, id: TaskId, view: Source, now: Time, later: Time, next: State)
    requires Inv(s) && s.clock <= now <= later && id in s.tasks && !s.tasks[id].Querying? && Asked(view, id) in s.history
    requires Look(s.entries, view, now, later).Miss? ==> Inv(next)
    ensures Inv(Answer(s, id, view, Look(s.entries, view, now, later), now, later, next))
  {
    assert ViewInv(s, view);
    match Look(s.entries, view, now, later)
    case Miss =>
    case Hit(asOf) =>
      var e := Served(view, id, later, asOf);
      assert e in s.history + [e];
      QuietStepKeeps(s, id, e, Returned(asOf), later);
    case Lapsed =>
      var e := Expired(view, id, now, later);
      assert e in s.history + [e];
      QuietStepKeeps(s, id, e, Raised, later);
  }

  lemma CallKeeps(s: State, id: TaskId, view: Source, now: Time, later: Time)
    requires Inv(s) && Step(s, Call(id, view, now, later)).Some?
    ensures Inv(Step(s, Call(id, view, now, later)).value)
  {
    var e := Asked(view, id);
    assert e in s.history + [e];
    QuietStepKeeps(s, id, e, Waiting(view), s.clock);
    var asked := Happens(s.(tasks := s.tasks[id := Waiting(view)]), e);
    ClockMoves(asked, later);
    AnswerKeeps(asked, id, view, now, later, asked.(clock := later));
    var looked := Look(s.entries, view, now, later);
    AnswerSettles(Happens(s, e), id, view, looked, now, later);
  }

  lemma ClockMoves(s: State, clock: Time)
    requires Inv(s) && s.clock <= clock
    ensures Inv(s.(clock := clock))
  {
    forall v: Source
      ensures ViewInv(s.(clock := clock), v)
    {
      assert ViewInv(s, v);
    }
  }

  /** Putting the task down first makes no difference to where it ends. */
  lemma AnswerSettles(s: State, id: TaskId, view: Source, looked: Looked, now: Time, later: Time)
    ensures var waiting := s.(tasks := s.tasks[id := Waiting(view)]);
            Answer(waiting, id, view, looked, now, later, waiting.(clock := later)) ==
            Answer(s, id, view, looked, now, later, s.(tasks := s.tasks[id := Waiting(view)], clock := later))
  {
    match looked
    case Miss =>
    case Hit(asOf) => assert s.tasks[id := Waiting(view)][id := Returned(asOf)] == s.tasks[id := Returned(asOf)];
    case Lapsed => assert s.tasks[id := Waiting(view)][id := Raised] == s.tasks[id := Raised];
  }

  /** Starting a query on a miss. */
  lemma QueryStarts(s: State, id: TaskId, view: Source, now: Time, later: Time)
    requires Inv(s) && s.clock <= now <= later && id in s.tasks && s.tasks[id] == Waiting(view) && view !in s.locks
    requires Look(s.entries, view, now, later).Miss?
    ensures Inv(Happens(s.(tasks := s.tasks[id := Querying(view)], locks := s.locks[view := id], clock := later), QueryStarted(view, later)))
  {
    var e := QueryStarted(view, later);
    var r := Happens(s.(tasks := s.tasks[id := Querying(view)], locks := s.locks[view := id], clock := later), e);
    assert ViewInv(s, view);
    assert AllExpired(s.history, view, later);
    AppendedEvent(s.history, e, view);
    StartKeepsViews(s, r, e, id);
    TaskOutlasts(s.history, e, id, s.tasks[id]);
    TasksOutlast(s.history, e, s.tasks, id, Querying(view));
    StartKeepsLocks(s, r, id, view);
  }

  lemma StartKeepsViews(s: State, r: State, e: Event, id: TaskId)
    requires ViewsInv(s) && s.clock <= r.clock && e.QueryStarted?
    requires r.history == s.history + [e] && r.entries == s.entries && r.locks == s.locks[e.view := id]
    ensures ViewsInv(r)
  {
    forall v: Source
      ensures ViewInv(r, v)
    {
      assert ViewInv(s, v);
      AppendedEvent(s.history, e, v);
    }
  }

  lemma StartKeepsLocks(s: State, r: State, id: TaskId, view: Source)
    requires LockInv(s) && id in s.tasks && s.tasks[id] == Waiting(view) && view !in s.locks
    requires r.locks == s.locks[view := id] && r.tasks == s.tasks[id := Querying(view)]
    ensures LockInv(r)
  {
  }

  lemma TakeLockKeeps(s: State, id: TaskId, now: Time, later: Time)
    requires Inv(s) && Step(s, TakeLock(id, now, later)).Some?
    ensures Inv(Step(s, TakeLock(id, now, later)).value)
  {
    var view := s.tasks[id].view;
    assert TaskInv(s.history, id, s.tasks[id]);
    if Look(s.entries, view, now, later).Miss? {
      QueryStarts(s, id, view, now, later);
    }
    AnswerKeeps(s, id, view, now, later,
                Happens(s.(tasks := s.tasks[id := Querying(view)], locks := s.locks[view := id], clock := later), QueryStarted(view, later)));
  }

  /** Finishing a query, either way, frees the view's lock. */
  lemma FinishKeeps(s: State, id: TaskId, e: Event, entries: map<Source, Entry>, task: Task, clock: Time)
    requires Inv(s) && id in s.tasks && s.tasks[id] == Querying(e.view) && s.clock <= clock && !task.Querying?
    requires || (e.QueryFailed? && entries == s.entries)
             || (e.QueryOk? && e.at == clock && entries == s.entries[e.view := Entry(e.asOf, e.at)])
    requires TaskInv(s.history + [e], id, task)
    ensures Inv(Happens(State(entries, s.locks - {e.view}, s.tasks[id := task], clock, s.history), e))
  {
    var r := Happens(State(entries, s.locks - {e.view}, s.tasks[id := task], clock, s.history), e);
    assert ViewInv(s, e.view);
    AppendedEvent(s.history, e, e.view);
    FinishKeepsViews(s, r, e);
    TasksOutlast(s.history, e, s.tasks, id, task);
    FinishKeepsLocks(s, r, id, e.view, task);
  }

  lemma FinishKeepsViews(s: State, r: State, e: Event)
    requires ViewsInv(s) && s.clock <= r.clock && r.history == s.history + [e] && r.locks == s.locks - {e.view}
    requires || (e.QueryFailed? && r.entries == s.entries)
             || (e.QueryOk? && e.at == r.clock && r.entries == s.entries[e.view := Entry(e.asOf, e.at)])
    ensures ViewsInv(r)
  {
    forall v: Source
      ensures ViewInv(r, v)
    {
      assert ViewInv(s, v);
      AppendedEvent(s.history, e, v);
    }
  }

  lemma FinishKeepsLocks(s: State, r: State, id: TaskId, view: Source, task: Task)
    requires LockInv(s) && id in s.tasks && s.tasks[id] == Querying(view) && !task.Querying?
    requires r.locks == s.locks - {view} && r.tasks == s.tasks[id := task]
    ensures LockInv(r)
  {
    assert forall v | v in r.locks :: v in s.locks && v != view && s.locks[v] != id;
  }

  lemma CompleteKeeps(s: State, id: TaskId, asOf: Option<Time>, now: Time)
    requires Inv(s) && Step(s, Complete(id, asOf, now)).Some?
    ensures Inv(Step(s, Complete(id, asOf, now)).value)
  {
    var view := s.tasks[id].view;
    var e, served := QueryOk(view, now, asOf), Served(view, id, now, asOf);
    var entries := s.entries[view := Entry(asOf, now)];
    assert TaskInv(s.history, id, s.tasks[id]);
    TaskOutlasts(s.history, e, id, Waiting(view));
    FinishKeeps(s, id, e, entries, Waiting(view), now);
    var m := Happens(State(entries, s.locks - {view}, s.tasks[id := Waiting(view)], now, s.history), e);
    AppendedEvent(s.history, e, view);
    StoredIsServed(m, id, view, asOf, now);
    assert m.tasks[id := Returned(asOf)] == s.tasks[id := Returned(asOf)];
    assert Step(s, Complete(id, asOf, now)) == Some(Happens(m.(tasks := m.tasks[id := Returned(asOf)]), served));
  }

  lemma StoredIsServed(m: State, id: TaskId, view: Source, asOf: Option<Time>, now: Time)
    requires Inv(m) && m.clock == now && id in m.tasks && m.tasks[id] == Waiting(view)
    requires Latest(m.history, view) == Some(Entry(asOf, now))
    ensures Inv(Happens(m.(tasks := m.tasks[id := Returned(asOf)]), Served(view, id, now, asOf)))
  {
    var served := Served(view, id, now, asOf);
    assert TaskInv(m.history, id, m.tasks[id]);
    assert served in m.history + [served];
    QuietStepKeeps(m, id, served, Returned(asOf), now);
  }

  lemma FailKeeps(s: State, id: TaskId)
    requires Inv(s) && Step(s, Fail(id)).Some?
    ensures Inv(Step(s, Fail(id)).value)
  {
    var e := QueryFailed(s.tasks[id].view, id);
    assert e in s.history + [e];
    FinishKeeps(s, id, e, s.entries, Raised, s.clock);
  }

  lemma StepKeeps(s: State, a: Action)
    requires Inv(s) && Step(s, a).Some?
    ensures Inv(Step(s, a).value)
  {
    match a
    case Call(id, view, now, later) => CallKeeps(s, id, view, now, later);
    case TakeLock(id, now, later) => TakeLockKeeps(s, id, now, later);
    case Complete(id, asOf, now) => CompleteKeeps(s, id, asOf, now);
    case Fail(id) => FailKeeps(s, id);
  }

  lemma {:induction false} RunKeeps(s: State, actions: seq<Action>)
    requires Inv(s) && Run(s, actions).Some?
    ensures Inv(Run(s, actions).value)
    decreases |actions|
  {
    if actions != [] {
      StepKeeps(s, actions[0]);
      RunKeeps(Step(s, actions[0]).value, actions[1..]);
    }
  }

  lemma {:induction false} EventsAreAllowed(history: seq<Event>, j: nat)
    requires Disciplined(history) && j < |history|
    ensures Allowed(history[..j], history[j])
  {
    if j < |history| - 1 {
      EventsAreAllowed(history[..|history| - 1], j);
      assert history[..|history| - 1][..j] == history[..j];
    }
  }

  /** However the tasks interleave: one view has one query out at a time, none
      starts within the TTL of one that succeeded, and what a task is served is
      what the last success found, less than a TTL before. */
  lemma CacheDiscipline(actions: seq<Action>)
    requires Run(INITIAL, actions).Some?
    ensures var h := Run(INITIAL, actions).value.history;
            && (forall j | 0 <= j < |h| && h[j].QueryStarted? :: !InFlight(h[..j], h[j].view))
            && (forall i, j | 0 <= i < j < |h| && h[i].QueryOk? && h[j].QueryStarted? && h[i].view == h[j].view ::
                  h[j].at >= h[i].at + AS_OF_TTL)
            && (forall j | 0 <= j < |h| && h[j].Served? ::
                  && Latest(h[..j], h[j].view).Some?
                  && Latest(h[..j], h[j].view).value.asOf == h[j].asOf
                  && h[j].at < Latest(h[..j], h[j].view).value.storedAt + AS_OF_TTL)
  {
    RunKeeps(INITIAL, actions);
    var h := Run(INITIAL, actions).value.history;
    forall j | 0 <= j < |h| && (h[j].QueryStarted? || h[j].Served?)
      ensures h[j].QueryStarted? ==> !InFlight(h[..j], h[j].view)
      ensures h[j].Served? ==>
                && Latest(h[..j], h[j].view).Some?
                && Latest(h[..j], h[j].view).value.asOf == h[j].asOf
                && h[j].at < Latest(h[..j], h[j].view).value.storedAt + AS_OF_TTL
    {
      EventsAreAllowed(h, j);
    }
    forall i, j | 0 <= i < j < |h| && h[i].QueryOk? && h[j].QueryStarted? && h[i].view == h[j].view
      ensures h[j].at >= h[i].at + AS_OF_TTL
    {
      QueriesAreApart(h, i, j);
    }
  }

  lemma QueriesAreApart(h: seq<Event>, i: nat, j: nat)
    requires Disciplined(h) && i < j < |h| && h[i].QueryOk? && h[j].QueryStarted? && h[i].view == h[j].view
    ensures h[j].at >= h[i].at + AS_OF_TTL
  {
    EventsAreAllowed(h, j);
    assert h[..j][i] == h[i];
  }

  /** A task returns only what an event says it was served, and raises only when
      its query failed or the entry expired between two readings of the clock. */
  lemma TasksReturnWhatTheyWereServed(actions: seq<Action>, id: TaskId)
    requires Run(INITIAL, actions).Some? && id in Run(INITIAL, actions).value.tasks
    ensures var s := Run(INITIAL, actions).value;
            match s.tasks[id]
            case Returned(asOf) => exists e :: e in s.history && e.Served? && e.id == id && e.asOf == asOf && Asked(e.view, id) in s.history
            case Raised => exists e :: e in s.history && (e.QueryFailed? || e.Expired?) && e.id == id
            case Waiting(view) => Asked(view, id) in s.history
            case Querying(view) => Asked(view, id) in s.history && InFlight(s.history, view)
  {
    RunKeeps(INITIAL, actions);
    var s := Run(INITIAL, actions).value;
    assert TaskInv(s.history, id, s.tasks[id]);
    match s.tasks[id]
    case Returned(asOf) =>
      var e :| e in s.history && e.Served? && e.id == id && e.asOf == asOf;
      var j :| 0 <= j < |s.history| && s.history[j] == e;
      EventsAreAllowed(s.history, j);
      assert Asked(e.view, id) in s.history[..j];
    case Querying(view) => assert ViewInv(s, view);
    case _ =>
  }

  /** A call while the last success is unexpired is served it at once. */
  lemma UnexpiredIsServed(actions: seq<Action>, id: TaskId, view: Source, now: Time, later: Time)
    requires Run(INITIAL, actions).Some?
    requires var s := Run(INITIAL, actions).value;
             && id !in s.tasks && s.clock <= now <= later
             && Latest(s.history, view).Some? && later < Latest(s.history, view).value.storedAt + AS_OF_TTL
    ensures var s := Run(INITIAL, actions).value;
            var next := Step(s, Call(id, view, now, later));
            next.Some? && next.value.tasks[id] == Returned(Latest(s.history, view).value.asOf)
  {
    RunKeeps(INITIAL, actions);
    assert ViewInv(Run(INITIAL, actions).value, view);
  }
}
