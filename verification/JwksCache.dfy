/** The realm's key set, fetched on demand and held for a TTL:
    b2b_learner_records/token.py, class JWKSCache. Looking a key id up in a
    fetched set is the interface to PyJWT. Each method below is one stretch of
    the source between two awaits, so it runs without interleaving; JwksRuns
    interleaves them. */
module JwksCaches {
  import opened Common

  type Kid = string
  type SigningKey = string
  type KeySet = map<Kid, SigningKey>
  type Time = real

  const KID_REFETCH_COOLDOWN: Time := 60.0
  const FETCH_RETRY_COOLDOWN: Time := 5.0

  datatype Unavailable = JwksUnavailable

  /** The four fields of the object. */
  datatype Fields = Fields(keys: Option<KeySet>, fetchedAt: Time, retryAfter: Time, kidRefetchAfter: Time)

  const COLD := Fields(None, 0.0, 0.0, 0.0)

  function Select(keys: KeySet, kid: Kid): Option<SigningKey> {
    if kid in keys then Some(keys[kid]) else None
  }

  function IsFresh(f: Fields, now: Time, ttl: Time): bool {
    f.keys.Some? && now - f.fetchedAt < ttl
  }

  function StaleOrRaise(f: Fields): Result<KeySet, Unavailable> {
    match f.keys
    case None => Err(JwksUnavailable)
    case Some(keys) => Ok(keys)
  }

  /** What `_load` does once it holds the lock: come back with the set that
      another task just fetched, come back with what there is because a fetch
      just failed, or fetch. */
  datatype Admission =
    | Ride(result: Result<KeySet, Unavailable>)
    | Hold(result: Result<KeySet, Unavailable>)
    | Fetch

  function Admit(f: Fields, force: bool, seen: Time, now: Time, later: Time, ttl: Time): Admission {
    if (if force then f.fetchedAt != seen else IsFresh(f, now, ttl)) then Ride(StaleOrRaise(f))
    else if later < f.retryAfter then Hold(StaleOrRaise(f))
    else Fetch
  }

  function Succeeded(f: Fields, keys: KeySet, now: Time): Fields {
    f.(keys := Some(keys), fetchedAt := now)
  }

  function Failed(f: Fields, now: Time): Fields {
    f.(retryAfter := now + FETCH_RETRY_COOLDOWN)
  }

  /** `signing_key` after its forced load. */
  function NoteMiss(f: Fields, key: Option<SigningKey>, seen: Time, now: Time): Fields {
    if key.None? && f.fetchedAt != seen then f.(kidRefetchAfter := now + KID_REFETCH_COOLDOWN) else f
  }

  class JwksCache {
    var keys: Option<KeySet>
    var fetchedAt: Time
    var retryAfter: Time
    var kidRefetchAfter: Time

    function State(): Fields
      reads this
    {
      Fields(keys, fetchedAt, retryAfter, kidRefetchAfter)
    }

    constructor ()
      ensures State() == COLD
    {
      keys, fetchedAt, retryAfter, kidRefetchAfter := None, 0.0, 0.0, 0.0;
    }

    /** The unlocked test at the head of `_load`: the cached set, or the
        `_fetched_at` this caller will compare under the lock. */
    method BeginLoad(force: bool, now: Time, ttl: Time) returns (cached: Option<KeySet>, seen: Time)
      ensures cached == if !force && IsFresh(State(), now, ttl) then keys else None
      ensures seen == fetchedAt
    {
      if !force && keys.Some? && now - fetchedAt < ttl {
        return keys, fetchedAt;
      }
      return None, fetchedAt;
    }

    method LastKnown() returns (result: Result<KeySet, Unavailable>)
      ensures result == StaleOrRaise(State())
    {
      if keys.None? {
        return Err(JwksUnavailable);
      }
      return Ok(keys.value);
    }

    method EnterLock(force: bool, seen: Time, now: Time, later: Time, ttl: Time) returns (admission: Admission)
      ensures admission == Admit(State(), force, seen, now, later, ttl)
      ensures admission.Ride? <==> if force then fetchedAt != seen else keys.Some? && now < fetchedAt + ttl
      ensures admission.Fetch? <==> !admission.Ride? && retryAfter <= later
      ensures !admission.Fetch? ==> (admission.result.Err? <==> keys.None?) && (admission.result.Ok? ==> keys == Some(admission.result.value))
    {
      var answered := if force then fetchedAt != seen else keys.Some? && now - fetchedAt < ttl;
      if answered {
        var ridden := LastKnown();
        return Ride(ridden);
      }
      if later < retryAfter {
        var stale := LastKnown();
        return Hold(stale);
      }
      return Fetch;
    }

    method FetchSucceeded(fetched: KeySet, now: Time)
      modifies this
      ensures State() == Succeeded(old(State()), fetched, now)
      ensures keys == Some(fetched) && fetchedAt == now
    {
      keys := Some(fetched);
      fetchedAt := now;
    }

    method FetchFailed(now: Time) returns (result: Result<KeySet, Unavailable>)
      modifies this
      ensures State() == Failed(old(State()), now)
      ensures retryAfter == now + 5.0 && keys == old(keys) && fetchedAt == old(fetchedAt)
      ensures result == if keys.None? then Err(JwksUnavailable) else Ok(keys.value)
      ensures result == StaleOrRaise(State())
    {
      retryAfter := now + FETCH_RETRY_COOLDOWN;
      result := LastKnown();
    }

    /** The cooldown test, and the `_fetched_at` read with no await between. */
    method MayRefetch(now: Time) returns (seen: Option<Time>)
      ensures seen == if now < kidRefetchAfter then None else Some(fetchedAt)
    {
      if now < kidRefetchAfter {
        return None;
      }
      return Some(fetchedAt);
    }

    method AfterForcedLoad(key: Option<SigningKey>, seen: Time, now: Time)
      modifies this
      ensures State() == NoteMiss(old(State()), key, seen, now)
      ensures kidRefetchAfter == if key.None? && fetchedAt != seen then now + 60.0 else old(kidRefetchAfter)
    {
      if key.None? && fetchedAt != seen {
        kidRefetchAfter := now + KID_REFETCH_COOLDOWN;
      }
    }
  }
}
