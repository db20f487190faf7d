/**
 * The B2 client's session cache and its retry-on-expired-token loop
 * (file-store/src/backends/b2.rs: `session`, `reset_session`, `b2_api_call`).
 *
 * The network is an oracle: `authorize(k)` is what the k-th authorization handshake returns and
 * `send(i, s)` is what the i-th API request returns when made with session `s`. One caller is
 * modelled; the lock only matters between callers.
 */
module B2Session {
  import opened Wrappers
  import opened Types

  /** `API_RETRIES`: the number of attempts one API call may make. */
  const ApiRetries: nat := 3

  /** The cached `AuthorizeAccountResponse`. */
  datatype Session = Session(accountId: string, apiUrl: string, token: string)

  type Cache = Option<Session>

  predicate Expired<T>(r: StorageResult<T>) {
    r.Err? && r.error.kind == AccessExpired
  }

  /**
   * `reset_session`: forgets the cached session only when it is the one whose token just failed,
   * so a session another caller already refreshed survives.
   */
  function ResetSession(cache: Cache, token: string): (r: Cache)
    ensures r.None? <==> cache.None? || cache.value.token == token
    ensures r.Some? ==> r == cache
  {
    match cache
    case Some(s) => if s.token == token then None else cache
    case None => None
  }

  /** The result of `session()`, the cache it leaves and whether it ran the handshake. */
  datatype Acquired = Acquired(result: StorageResult<Session>, cache: Cache, authorized: bool)

  /**
   * `session`: a cached session is returned without authorizing; otherwise the handshake's
   * result (`authorize`) is returned and, on success only, cached.
   */
  function AcquireSession(cache: Cache, authorize: StorageResult<Session>): (a: Acquired)
    ensures a.authorized <==> cache.None?
    ensures cache.Some? ==> a.result == Ok(cache.value)
    ensures cache.None? ==> a.result == authorize
    ensures a.cache == (if a.result.Ok? then Some(a.result.value) else None)
  {
    match cache
    case Some(s) => Acquired(Ok(s), cache, false)
    case None =>
      match authorize
      case Ok(s) => Acquired(Ok(s), Some(s), true)
      case Err(e) => Acquired(Err(e), None, true)
  }

  /** Once a session is acquired, the next acquisition returns it again without authorizing. */
  lemma AcquireIsCached(cache: Cache, first: StorageResult<Session>, second: StorageResult<Session>)
    requires AcquireSession(cache, first).result.Ok?
    ensures AcquireSession(AcquireSession(cache, first).cache, second).result == AcquireSession(cache, first).result
    ensures !AcquireSession(AcquireSession(cache, first).cache, second).authorized
  {
  }

  /** Resetting with a stale token keeps a refreshed session: the next acquisition does not re-authorize. */
  lemma StaleResetKeepsSession(refreshed: Session, staleToken: string, authorize: StorageResult<Session>)
    requires refreshed.token != staleToken
    ensures AcquireSession(ResetSession(Some(refreshed), staleToken), authorize) == Acquired(Ok(refreshed), Some(refreshed), false)
  {
  }

  /** What one API call produced: its result, the cache it leaves and the session each request used. */
  datatype CallOutcome<T> = CallOutcome(result: StorageResult<T>, cache: Cache, sessions: seq<Session>)

  /** How many authorizations a call has made once it has used `n` sessions, `cached` telling whether the first came from the cache. */
  function AuthIndex(cached: bool, n: nat): nat {
    if cached && n > 0 then n - 1 else n
  }

  /**
   * The loop of `b2_api_call` from attempt `tries` on, with `auths` handshakes made so far.
   * A failed session acquisition returns at once; a reply other than AccessExpired is returned
   * at once; AccessExpired resets the session and retries until `ApiRetries` attempts were made.
   */
  function Attempt<T>(tries: nat, cache: Cache, auths: nat,
                      authorize: nat -> StorageResult<Session>,
                      send: (nat, Session) -> StorageResult<T>): (o: CallOutcome<T>)
    requires tries < ApiRetries
    decreases ApiRetries - tries
    ensures |o.sessions| <= ApiRetries - tries
    ensures o.result.Ok? ==> 0 < |o.sessions| && o.cache == Some(o.sessions[|o.sessions| - 1])
  {
    var acquired := AcquireSession(cache, authorize(auths));
    var auths' := if acquired.authorized then auths + 1 else auths;
    match acquired.result
    case Err(e) => CallOutcome(Err(e), acquired.cache, [])
    case Ok(session) =>
      var reply := send(tries, session);
      if !Expired(reply) then
        CallOutcome(reply, acquired.cache, [session])
      else
        var cache' := ResetSession(acquired.cache, session.token);
        if tries + 1 < ApiRetries then
          var rest := Attempt(tries + 1, cache', auths', authorize, send);
          CallOutcome(rest.result, rest.cache, [session] + rest.sessions)
        else
          CallOutcome(reply, cache', [session])
  }

  /** The request made with the last session of an outcome, when there is one. */
  function LastReply<T>(tries: nat, o: CallOutcome<T>, send: (nat, Session) -> StorageResult<T>): StorageResult<T>
    requires 0 < |o.sessions|
  {
    send(tries + |o.sessions| - 1, o.sessions[|o.sessions| - 1])
  }

  /** Every request but the last one of a call got AccessExpired: any other reply ends the call. */
  lemma {:induction false} AttemptRetriesOnlyExpired<T>(tries: nat, cache: Cache, auths: nat,
                                                        authorize: nat -> StorageResult<Session>,
                                                        send: (nat, Session) -> StorageResult<T>)
    requires tries < ApiRetries
    decreases ApiRetries - tries
    ensures var o := Attempt(tries, cache, auths, authorize, send);
      forall i | 0 <= i < |o.sessions| - 1 :: Expired(send(tries + i, o.sessions[i]))
  {
    var o := Attempt(tries, cache, auths, authorize, send);
    var acquired := AcquireSession(cache, authorize(auths));
    var auths' := if acquired.authorized then auths + 1 else auths;
    if acquired.result.Ok? && Expired(send(tries, acquired.result.value)) && tries + 1 < ApiRetries {
      var session := acquired.result.value;
      var cache' := ResetSession(acquired.cache, session.token);
      var rest := Attempt(tries + 1, cache', auths', authorize, send);
      AttemptRetriesOnlyExpired(tries + 1, cache', auths', authorize, send);
      assert o.sessions == [session] + rest.sessions;
    }
  }

  /**
   * The first request of outcome `o` uses the cached session when there is one; every other
   * request uses the session of a fresh authorization, because the expired one was reset.
   */
  predicate SessionsExplained<T>(cache: Cache, auths: nat, o: CallOutcome<T>, authorize: nat -> StorageResult<Session>) {
    && (0 < |o.sessions| && cache.Some? ==> o.sessions[0] == cache.value)
    && (forall i | 0 <= i < |o.sessions| && (i > 0 || cache.None?) ::
          authorize(auths + AuthIndex(cache.Some?, i)) == Ok(o.sessions[i]))
  }

  /** A retry after the first request keeps the sessions explained. */
  lemma SessionsStep<T>(cache: Cache, auths: nat, auths': nat, session: Session,
                        o: CallOutcome<T>, rest: CallOutcome<T>, authorize: nat -> StorageResult<Session>)
    requires o == CallOutcome(rest.result, rest.cache, [session] + rest.sessions)
    requires auths' == (if cache.Some? then auths else auths + 1)
    requires cache.Some? ==> session == cache.value
    requires cache.None? ==> authorize(auths) == Ok(session)
    requires SessionsExplained(None, auths', rest, authorize)
    ensures SessionsExplained(cache, auths, o, authorize)
  {
    forall i | 0 <= i < |o.sessions| && (i > 0 || cache.None?)
      ensures authorize(auths + AuthIndex(cache.Some?, i)) == Ok(o.sessions[i])
    {
      if i == 0 {
        assert o.sessions[0] == session;
      } else {
        assert o.sessions[i] == rest.sessions[i - 1];
        assert auths + AuthIndex(cache.Some?, i) == auths' + AuthIndex(false, i - 1);
      }
    }
  }

  /** A call that makes no retry used at most the session it acquired first. */
  lemma SessionsStop<T>(tries: nat, cache: Cache, auths: nat,
                        authorize: nat -> StorageResult<Session>,
                        send: (nat, Session) -> StorageResult<T>)
    requires tries < ApiRetries
    requires var acquired := AcquireSession(cache, authorize(auths));
      !(acquired.result.Ok? && Expired(send(tries, acquired.result.value)) && tries + 1 < ApiRetries)
    ensures SessionsExplained(cache, auths, Attempt(tries, cache, auths, authorize, send), authorize)
  {
    var o := Attempt(tries, cache, auths, authorize, send);
    var acquired := AcquireSession(cache, authorize(auths));
    if acquired.result.Err? {
      assert o.sessions == [];
    } else {
      assert o.sessions == [acquired.result.value];
    }
  }

  /** `SessionsExplained` holds for every call from attempt `tries` on. */
  lemma {:induction false} AttemptReauthorizes<T>(tries: nat, cache: Cache, auths: nat,
                                                  authorize: nat -> StorageResult<Session>,
                                                  send: (nat, Session) -> StorageResult<T>)
    requires tries < ApiRetries
    decreases ApiRetries - tries
    ensures SessionsExplained(cache, auths, Attempt(tries, cache, auths, authorize, send), authorize)
  {
    var o := Attempt(tries, cache, auths, authorize, send);
    var acquired := AcquireSession(cache, authorize(auths));
    var auths' := if acquired.authorized then auths + 1 else auths;
    if acquired.result.Ok? && Expired(send(tries, acquired.result.value)) && tries + 1 < ApiRetries {
      var session := acquired.result.value;
      var cache' := ResetSession(acquired.cache, session.token);
      assert cache'.None?;
      var rest := Attempt(tries + 1, cache', auths', authorize, send);
      AttemptReauthorizes(tries + 1, cache', auths', authorize, send);
      assert o == CallOutcome(rest.result, rest.cache, [session] + rest.sessions);
      SessionsStep(cache, auths, auths', session, o, rest, authorize);
    } else {
      SessionsStop(tries, cache, auths, authorize, send);
    }
  }

  /**
   * The result of outcome `o` of a call from attempt `tries` is its last reply, unless that reply
   * was AccessExpired with budget left; then the call ended because the re-authorization failed,
   * and returns that failure.
   */
  ghost predicate ResultExplained<T>(tries: nat, cached: bool, auths: nat, o: CallOutcome<T>,
                               authorize: nat -> StorageResult<Session>,
                               send: (nat, Session) -> StorageResult<T>) {
    && (0 < |o.sessions| && (!Expired(LastReply(tries, o, send)) || |o.sessions| == ApiRetries - tries) ==>
          o.result == LastReply(tries, o, send))
    && (|o.sessions| < ApiRetries - tries && (|o.sessions| == 0 || Expired(LastReply(tries, o, send))) ==>
          o.result.Err? && authorize(auths + AuthIndex(cached, |o.sessions|)) == Err(o.result.error))
  }

  /** A retry after an expired first request keeps the result explained. */
  lemma ResultStep<T>(tries: nat, cached: bool, auths: nat, auths': nat, session: Session,
                      o: CallOutcome<T>, rest: CallOutcome<T>,
                      authorize: nat -> StorageResult<Session>,
                      send: (nat, Session) -> StorageResult<T>)
    requires tries + 1 < ApiRetries && |rest.sessions| <= ApiRetries - (tries + 1)
    requires Expired(send(tries, session))
    requires auths' == (if cached then auths else auths + 1)
    requires o == CallOutcome(rest.result, rest.cache, [session] + rest.sessions)
    requires ResultExplained(tries + 1, false, auths', rest, authorize, send)
    ensures ResultExplained(tries, cached, auths, o, authorize, send)
  {
    assert auths + AuthIndex(cached, |o.sessions|) == auths' + AuthIndex(false, |rest.sessions|);
    if 0 < |rest.sessions| {
      assert LastReply(tries, o, send) == LastReply(tries + 1, rest, send);
    } else {
      assert LastReply(tries, o, send) == send(tries, session);
    }
  }

  /** A call that makes no retry is explained by its one acquisition and reply. */
  lemma ResultStop<T>(tries: nat, cache: Cache, auths: nat,
                      authorize: nat -> StorageResult<Session>,
                      send: (nat, Session) -> StorageResult<T>)
    requires tries < ApiRetries
    requires var acquired := AcquireSession(cache, authorize(auths));
      !(acquired.result.Ok? && Expired(send(tries, acquired.result.value)) && tries + 1 < ApiRetries)
    ensures ResultExplained(tries, cache.Some?, auths, Attempt(tries, cache, auths, authorize, send), authorize, send)
  {
    var o := Attempt(tries, cache, auths, authorize, send);
    var acquired := AcquireSession(cache, authorize(auths));
    if acquired.result.Err? {
      assert o == CallOutcome(Err(acquired.result.error), acquired.cache, []);
    } else {
      var session := acquired.result.value;
      assert o.sessions == [session] && LastReply(tries, o, send) == send(tries, session);
    }
  }

  /**
   * The cache outcome `o` of a call from attempt `tries` leaves: the session of its last request
   * when that request was not refused as expired, and none otherwise (an expired session was
   * reset, a failed handshake caches nothing).
   */
  ghost predicate CacheExplained<T>(tries: nat, o: CallOutcome<T>, send: (nat, Session) -> StorageResult<T>) {
    o.cache == (if 0 < |o.sessions| && !Expired(LastReply(tries, o, send)) then Some(o.sessions[|o.sessions| - 1]) else None)
  }

  /** A retry after an expired first request leaves the cache its rest leaves. */
  lemma CacheStep<T>(tries: nat, session: Session, o: CallOutcome<T>, rest: CallOutcome<T>,
                     send: (nat, Session) -> StorageResult<T>)
    requires Expired(send(tries, session))
    requires o == CallOutcome(rest.result, rest.cache, [session] + rest.sessions)
    requires CacheExplained(tries + 1, rest, send)
    ensures CacheExplained(tries, o, send)
  {
    if 0 < |rest.sessions| {
      assert LastReply(tries, o, send) == LastReply(tries + 1, rest, send);
    } else {
      assert LastReply(tries, o, send) == send(tries, session);
    }
  }

  /** A call that makes no retry leaves the session it acquired, unless that one expired. */
  lemma CacheStop<T>(tries: nat, cache: Cache, auths: nat,
                     authorize: nat -> StorageResult<Session>,
                     send: (nat, Session) -> StorageResult<T>)
    requires tries < ApiRetries
    requires var acquired := AcquireSession(cache, authorize(auths));
      !(acquired.result.Ok? && Expired(send(tries, acquired.result.value)) && tries + 1 < ApiRetries)
    ensures CacheExplained(tries, Attempt(tries, cache, auths, authorize, send), send)
  {
    var o := Attempt(tries, cache, auths, authorize, send);
    var acquired := AcquireSession(cache, authorize(auths));
    if acquired.result.Ok? {
      assert o.sessions == [acquired.result.value];
    }
  }

  /** `CacheExplained` holds for every call from attempt `tries` on. */
  lemma {:induction false} AttemptCache<T>(tries: nat, cache: Cache, auths: nat,
                                           authorize: nat -> StorageResult<Session>,
                                           send: (nat, Session) -> StorageResult<T>)
    requires tries < ApiRetries
    decreases ApiRetries - tries
    ensures CacheExplained(tries, Attempt(tries, cache, auths, authorize, send), send)
  {
    var o := Attempt(tries, cache, auths, authorize, send);
    var acquired := AcquireSession(cache, authorize(auths));
    var auths' := if acquired.authorized then auths + 1 else auths;
    if acquired.result.Ok? && Expired(send(tries, acquired.result.value)) && tries + 1 < ApiRetries {
      var session := acquired.result.value;
      var cache' := ResetSession(acquired.cache, session.token);
      var rest := Attempt(tries + 1, cache', auths', authorize, send);
      AttemptCache(tries + 1, cache', auths', authorize, send);
      assert o == CallOutcome(rest.result, rest.cache, [session] + rest.sessions);
      CacheStep(tries, session, o, rest, send);
    } else {
      CacheStop(tries, cache, auths, authorize, send);
    }
  }

  /** `ResultExplained` holds for every call from attempt `tries` on. */
  lemma {:induction false} AttemptResult<T>(tries: nat, cache: Cache, auths: nat,
                                            authorize: nat -> StorageResult<Session>,
                                            send: (nat, Session) -> StorageResult<T>)
    requires tries < ApiRetries
    decreases ApiRetries - tries
    ensures ResultExplained(tries, cache.Some?, auths, Attempt(tries, cache, auths, authorize, send), authorize, send)
  {
    var o := Attempt(tries, cache, auths, authorize, send);
    var acquired := AcquireSession(cache, authorize(auths));
    var auths' := if acquired.authorized then auths + 1 else auths;
    if acquired.result.Ok? && Expired(send(tries, acquired.result.value)) && tries + 1 < ApiRetries {
      var session := acquired.result.value;
      var cache' := ResetSession(acquired.cache, session.token);
      var rest := Attempt(tries + 1, cache', auths', authorize, send);
      AttemptResult(tries + 1, cache', auths', authorize, send);
      assert cache'.None?;
      assert o == CallOutcome(rest.result, rest.cache, [session] + rest.sessions);
      ResultStep(tries, cache.Some?, auths, auths', session, o, rest, authorize, send);
    } else {
      ResultStop(tries, cache, auths, authorize, send);
    }
  }

  /** `b2_api_call`: at most `ApiRetries` requests, each retry after a refreshed authorization. */
  function ApiCall<T>(cache: Cache, authorize: nat -> StorageResult<Session>,
                      send: (nat, Session) -> StorageResult<T>): (o: CallOutcome<T>)
    ensures |o.sessions| <= ApiRetries
    ensures forall i | 0 <= i < |o.sessions| - 1 :: Expired(send(i, o.sessions[i]))
    ensures o.result.Ok? ==> 0 < |o.sessions| && o.result == send(|o.sessions| - 1, o.sessions[|o.sessions| - 1])
    ensures 0 < |o.sessions| && cache.Some? ==> o.sessions[0] == cache.value
    ensures forall i | 0 <= i < |o.sessions| && (i > 0 || cache.None?) :: authorize(AuthIndex(cache.Some?, i)) == Ok(o.sessions[i])
    ensures |o.sessions| == ApiRetries ==> o.result == send(ApiRetries - 1, o.sessions[ApiRetries - 1])
    ensures 0 < |o.sessions| && !Expired(send(|o.sessions| - 1, o.sessions[|o.sessions| - 1])) ==>
      o.result == send(|o.sessions| - 1, o.sessions[|o.sessions| - 1])
    ensures |o.sessions| < ApiRetries && (|o.sessions| == 0 || Expired(send(|o.sessions| - 1, o.sessions[|o.sessions| - 1]))) ==>
      o.result.Err? && authorize(AuthIndex(cache.Some?, |o.sessions|)) == Err(o.result.error)
    ensures o.result.Ok? ==> o.cache == Some(o.sessions[|o.sessions| - 1])
    ensures o.cache == (if 0 < |o.sessions| && !Expired(send(|o.sessions| - 1, o.sessions[|o.sessions| - 1]))
                        then Some(o.sessions[|o.sessions| - 1]) else None)
  {
    AttemptRetriesOnlyExpired(0, cache, 0, authorize, send);
    AttemptReauthorizes(0, cache, 0, authorize, send);
    AttemptResult(0, cache, 0, authorize, send);
    AttemptCache(0, cache, 0, authorize, send);
    Attempt(0, cache, 0, authorize, send)
  }

  /** A single AccessExpired reply is retried and the caller sees the retry's success. */
  lemma OneExpiryIsTransparent<T>(cache: Cache, authorize: nat -> StorageResult<Session>,
                                  send: (nat, Session) -> StorageResult<T>)
    requires forall k :: authorize(k).Ok?
    requires forall s :: Expired(send(0, s))
    requires forall s :: send(1, s).Ok?
    ensures ApiCall(cache, authorize, send).result.Ok?
    ensures |ApiCall(cache, authorize, send).sessions| == 2
  {
  }

  /** Three AccessExpired replies in a row exhaust the budget and the third one is surfaced. */
  lemma ThreeExpiriesSurface<T>(cache: Cache, authorize: nat -> StorageResult<Session>,
                                send: (nat, Session) -> StorageResult<T>)
    requires forall k :: authorize(k).Ok?
    requires forall i: nat, s :: i < ApiRetries ==> Expired(send(i, s))
    ensures |ApiCall(cache, authorize, send).sessions| == ApiRetries
    ensures Expired(ApiCall(cache, authorize, send).result)
  {
  }
}
