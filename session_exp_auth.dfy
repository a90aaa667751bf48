/**
 * Session authentication with expiration: the `SessionExpAuth` authenticator.
 *
 * The authenticator keeps a dictionary from session id to a record holding
 * the user id and the creation time. `CreateSession` stamps a base-minted id
 * with the current time; `UserIdForSessionId` resolves an id to its user id
 * unless the session has expired. Expired records are not purged.
 *
 * Times are integers counting microseconds (the resolution of Python's
 * `datetime`); the session duration is in whole seconds.
 */
module ExpiringSessions {
  import opened Wrappers

  /** Microseconds in one second: `timedelta(seconds=d)` is `d` of these. */
  const MicrosPerSecond: int := 1_000_000

  /**
   * The dictionary `{"user_id": ..., "created_at": ...}` stored per session.
   * `userId` is whatever was passed to `create_session` (possibly `None`);
   * `createdAt` is an Option so that the defensive "no created_at" check
   * can be expressed.
   */
  datatype Record = Record(userId: Option<string>, createdAt: Option<int>)

  /** The instant after which a session created at `createdAt` is expired. */
  function ExpiresAt(createdAt: int, duration: int): int
  {
    createdAt + duration * MicrosPerSecond
  }

  /**
   * Is a record created at `createdAt` still accepted at `now`?
   * A non-positive duration means "never expires"; otherwise the boundary
   * instant itself is still valid (the source compares with a strict `>`).
   */
  predicate Live(duration: int, createdAt: int, now: int)
  {
    duration <= 0 || now <= ExpiresAt(createdAt, duration)
  }

  /**
   * The decision chain of `user_id_for_session_id`, in the source's order:
   * unknown id, never-expires sentinel, missing creation time, expiry.
   */
  function Lookup(sessions: map<string, Record>, duration: int, sessionId: Option<string>, now: int): (r: Option<string>)
    // Only a stored user id is ever returned, and only for a known id.
    ensures r.Some? ==> sessionId.Some? && sessionId.value in sessions && r == sessions[sessionId.value].userId
    // With expiry enabled, a user id is only returned for a timestamped, unexpired record.
    ensures r.Some? && duration > 0 ==>
              sessionId.Some? && sessionId.value in sessions &&
              sessions[sessionId.value].createdAt.Some? &&
              now <= ExpiresAt(sessions[sessionId.value].createdAt.value, duration)
  {
    if sessionId.None? || sessionId.value !in sessions then None
    else
      var record := sessions[sessionId.value];
      if duration <= 0 then record.userId
      else if record.createdAt.None? then None
      else if now > ExpiresAt(record.createdAt.value, duration) then None
      else record.userId
  }

  /**
   * The session map after `create_session(userId)` at time `now`, where
   * `minted` is what the base `SessionAuth.create_session` returned.
   */
  function AfterCreate(sessions: map<string, Record>, userId: Option<string>, minted: Option<string>, now: int): (m: map<string, Record>)
    ensures minted.None? ==> m == sessions
    ensures minted.Some? ==> minted.value in m && m[minted.value] == Record(userId, Some(now))
    ensures minted.Some? ==> m.Keys == sessions.Keys + {minted.value}
    ensures forall k :: k in sessions && Some(k) != minted ==> m[k] == sessions[k]
  {
    match minted
    case None => sessions
    case Some(sid) => sessions[sid := Record(userId, Some(now))]
  }

  /** The expiring-session authenticator, holding `user_id_by_session_id`. */
  class SessionExpAuth {
    /** `user_id_by_session_id`: session id to its record. */
    var sessions: map<string, Record>
    /** `session_duration`, in seconds; fixed at construction. */
    const duration: int

    /** A new authenticator with the given session duration and no sessions. */
    constructor (duration: int)
      ensures this.duration == duration
      ensures sessions == map[]
    {
      this.duration := duration;
      sessions := map[];
    }

    /**
     * `create_session(user_id)`: `minted` is the base class's answer for
     * `userId` and `now` is the clock reading. A failed base call is
     * propagated and leaves the map alone; otherwise the minted id is bound
     * to a fresh record stamped `now`, and no other entry changes.
     */
    method CreateSession(userId: Option<string>, minted: Option<string>, now: int) returns (sessionId: Option<string>)
      modifies this
      ensures sessionId == minted
      ensures sessions == AfterCreate(old(sessions), userId, minted, now)
      ensures minted.None? ==> sessions == old(sessions)
      ensures minted.Some? ==> sessions == old(sessions)[minted.value := Record(userId, Some(now))]
      ensures minted.Some? && minted.value !in old(sessions) ==> |sessions| == |old(sessions)| + 1
    {
      if minted.None? {
        return None;
      }
      var sid := minted.value;
      sessions := sessions[sid := Record(userId, Some(now))];
      return Some(sid);
    }

    /**
     * `user_id_for_session_id(session_id)` at clock reading `now`. It has no
     * modifies clause: a lookup, even of an expired session, changes nothing.
     */
    method UserIdForSessionId(sessionId: Option<string>, now: int) returns (userId: Option<string>)
      ensures userId == Lookup(sessions, duration, sessionId, now)
    {
      if sessionId.None? || sessionId.value !in sessions {
        return None;
      }
      var record := sessions[sessionId.value];
      if duration <= 0 {
        return record.userId;
      }
      if record.createdAt.None? {
        return None;
      }
      var expirationTime := ExpiresAt(record.createdAt.value, duration);
      if now > expirationTime {
        return None;
      }
      return record.userId;
    }
  }

  // ---------------------------------------------------------------------
  // Properties of a single lookup
  // ---------------------------------------------------------------------

  /** `None`, and every id not in the map, resolve to `None`. */
  lemma UnknownIdRejected(sessions: map<string, Record>, duration: int, sessionId: Option<string>, now: int)
    requires sessionId.None? || sessionId.value !in sessions
    ensures Lookup(sessions, duration, sessionId, now) == None
  {
  }

  /** With a non-positive duration a stored session resolves at every time. */
  lemma NeverExpires(sessions: map<string, Record>, duration: int, sid: string, now: int)
    requires duration <= 0 && sid in sessions
    ensures Lookup(sessions, duration, Some(sid), now) == sessions[sid].userId
  {
  }

  /** With expiry enabled, a record without a creation time is rejected. */
  lemma MissingCreatedAtRejected(sessions: map<string, Record>, duration: int, sid: string, now: int)
    requires duration > 0 && sid in sessions && sessions[sid].createdAt.None?
    ensures Lookup(sessions, duration, Some(sid), now) == None
  {
  }

  /**
   * The expiry boundary: a record created at `t0` resolves to its user id at
   * `now` exactly when `now <= t0 + duration`, and to `None` otherwise.
   */
  lemma ExpiryBoundary(sessions: map<string, Record>, duration: int, sid: string, t0: int, now: int)
    requires duration > 0 && sid in sessions && sessions[sid].createdAt == Some(t0)
    ensures now <= ExpiresAt(t0, duration) ==> Lookup(sessions, duration, Some(sid), now) == sessions[sid].userId
    ensures now > ExpiresAt(t0, duration) ==> Lookup(sessions, duration, Some(sid), now) == None
    ensures Lookup(sessions, duration, Some(sid), now).Some? <==>
              sessions[sid].userId.Some? && now <= t0 + duration * MicrosPerSecond
  {
  }

  /** A failed base call changes no lookup answer, for any id at any time. */
  lemma FailedCreateChangesNothing(sessions: map<string, Record>, duration: int, userId: Option<string>, t: int,
                                   sessionId: Option<string>, now: int)
    ensures Lookup(AfterCreate(sessions, userId, None, t), duration, sessionId, now) == Lookup(sessions, duration, sessionId, now)
  {
  }

  /**
   * Create-then-resolve: right after a successful create of `userId` at `t`,
   * the new id resolves to `userId` while the session is live, and to `None`
   * once it has expired.
   */
  lemma CreateThenResolve(sessions: map<string, Record>, duration: int, userId: Option<string>, sid: string, t: int, now: int)
    ensures Lookup(AfterCreate(sessions, userId, Some(sid), t), duration, Some(sid), now) ==
              if Live(duration, t, now) then userId else None
  {
  }

  // ---------------------------------------------------------------------
  // Sequences of calls
  // ---------------------------------------------------------------------

  /** One call of the authenticator's public interface, with its inputs. */
  datatype Call =
    | CreateSessionCall(userId: Option<string>, minted: Option<string>, at: int)
    | UserIdForSessionIdCall(sessionId: Option<string>, at: int)

  /** The session map after one call: lookups leave it as it is. */
  function Step(sessions: map<string, Record>, call: Call): (m: map<string, Record>)
    ensures call.UserIdForSessionIdCall? ==> m == sessions
    ensures sessions.Keys <= m.Keys
  {
    match call
    case CreateSessionCall(userId, minted, at) => AfterCreate(sessions, userId, minted, at)
    case UserIdForSessionIdCall(_, _) => sessions
  }

  /** The session map after a sequence of calls, in order. */
  function Replay(sessions: map<string, Record>, calls: seq<Call>): map<string, Record>
    decreases |calls|
  {
    if calls == [] then sessions else Replay(Step(sessions, calls[0]), calls[1..])
  }

  /** Does `call` bind `sid` (overwriting any record already under it)? */
  predicate Mints(call: Call, sid: string)
  {
    call.CreateSessionCall? && call.minted == Some(sid)
  }

  /** The base generator hands out ids not already in the map (as `uuid4` is meant to). */
  predicate FreshMints(sessions: map<string, Record>, calls: seq<Call>)
    decreases |calls|
  {
    calls == [] ||
    ((calls[0].CreateSessionCall? && calls[0].minted.Some? ==> calls[0].minted.value !in sessions) &&
     FreshMints(Step(sessions, calls[0]), calls[1..]))
  }

  /** The number of calls in `calls` that stored a record. */
  function Created(calls: seq<Call>): nat
  {
    if calls == [] then 0
    else (if calls[0].CreateSessionCall? && calls[0].minted.Some? then 1 else 0) + Created(calls[1..])
  }

  /** There is no purge: no call ever removes a session id from the map. */
  lemma {:induction false} ReplayNeverRemoves(sessions: map<string, Record>, calls: seq<Call>)
    ensures sessions.Keys <= Replay(sessions, calls).Keys
    decreases |calls|
  {
    if calls != [] {
      ReplayNeverRemoves(Step(sessions, calls[0]), calls[1..]);
    }
  }

  /** A run of lookups alone, expired or not, leaves the map unchanged. */
  lemma {:induction false} LookupsLeaveMapUnchanged(sessions: map<string, Record>, calls: seq<Call>)
    requires forall i :: 0 <= i < |calls| ==> calls[i].UserIdForSessionIdCall?
    ensures Replay(sessions, calls) == sessions
    decreases |calls|
  {
    if calls != [] {
      LookupsLeaveMapUnchanged(Step(sessions, calls[0]), calls[1..]);
    }
  }

  /**
   * Repeated resolution: after any run of lookups, every id resolves at
   * every time exactly as it did before the run.
   */
  lemma RepeatedLookupsAgree(sessions: map<string, Record>, duration: int, calls: seq<Call>, sessionId: Option<string>, now: int)
    requires forall i :: 0 <= i < |calls| ==> calls[i].UserIdForSessionIdCall?
    ensures Lookup(Replay(sessions, calls), duration, sessionId, now) == Lookup(sessions, duration, sessionId, now)
  {
    LookupsLeaveMapUnchanged(sessions, calls);
  }

  /**
   * A record (its user id and its `created_at`) stays exactly as it is
   * through every call that does not mint its id again.
   */
  lemma {:induction false} RecordUnchanged(sessions: map<string, Record>, calls: seq<Call>, sid: string)
    requires sid in sessions
    requires forall i :: 0 <= i < |calls| ==> !Mints(calls[i], sid)
    ensures sid in Replay(sessions, calls) && Replay(sessions, calls)[sid] == sessions[sid]
    decreases |calls|
  {
    if calls != [] {
      assert !Mints(calls[0], sid);
      var next := Step(sessions, calls[0]);
      assert sid in next && next[sid] == sessions[sid];
      forall i | 0 <= i < |calls[1..]| ensures !Mints(calls[1..][i], sid) {
        assert calls[1..][i] == calls[i + 1];
      }
      RecordUnchanged(next, calls[1..], sid);
    }
  }

  /** With fresh ids no call ever mints an id that is already stored. */
  lemma {:induction false} FreshMintsAvoidStored(sessions: map<string, Record>, calls: seq<Call>, sid: string)
    requires sid in sessions && FreshMints(sessions, calls)
    ensures forall i :: 0 <= i < |calls| ==> !Mints(calls[i], sid)
    decreases |calls|
  {
    if calls != [] {
      var next := Step(sessions, calls[0]);
      assert sid in next;
      FreshMintsAvoidStored(next, calls[1..], sid);
      forall i | 0 <= i < |calls| ensures !Mints(calls[i], sid) {
        if i > 0 {
          assert calls[i] == calls[1..][i - 1];
        }
      }
    }
  }

  /** With fresh ids, every stored record survives every later call unchanged. */
  lemma RecordsArePermanent(sessions: map<string, Record>, calls: seq<Call>, sid: string)
    requires sid in sessions && FreshMints(sessions, calls)
    ensures sid in Replay(sessions, calls) && Replay(sessions, calls)[sid] == sessions[sid]
  {
    FreshMintsAvoidStored(sessions, calls, sid);
    RecordUnchanged(sessions, calls, sid);
  }

  /** With fresh ids, each successful create adds exactly one record. */
  lemma {:induction false} ReplayCountsCreations(sessions: map<string, Record>, calls: seq<Call>)
    requires FreshMints(sessions, calls)
    ensures |Replay(sessions, calls)| == |sessions| + Created(calls)
    decreases |calls|
  {
    if calls != [] {
      var next := Step(sessions, calls[0]);
      if calls[0].CreateSessionCall? && calls[0].minted.Some? {
        assert |next| == |sessions| + 1;
      } else {
        assert next == sessions;
      }
      ReplayCountsCreations(next, calls[1..]);
    }
  }

  /**
   * The full round trip: after a successful create of `userId` at `t`,
   * followed by any calls that mint fresh ids, the session resolves to
   * `userId` at every `now` at which it is live, and to `None` after that.
   */
  lemma SessionResolvesUntilExpiry(sessions: map<string, Record>, duration: int, userId: Option<string>, sid: string, t: int,
                                   calls: seq<Call>, now: int)
    requires FreshMints(AfterCreate(sessions, userId, Some(sid), t), calls)
    ensures Lookup(Replay(AfterCreate(sessions, userId, Some(sid), t), calls), duration, Some(sid), now) ==
              if Live(duration, t, now) then userId else None
  {
    var created := AfterCreate(sessions, userId, Some(sid), t);
    RecordsArePermanent(created, calls, sid);
  }

  // ---------------------------------------------------------------------
  // A client of the class, with the documented scenarios
  // ---------------------------------------------------------------------

  /** The scenarios follow from the class's contracts alone. */
  method Scenarios(sid: string, sid2: string)
  {
    // Duration 5 s: resolves immediately, fails 6 s later.
    var a := new SessionExpAuth(5);
    var s := a.CreateSession(Some("u1"), Some(sid), 0);
    var u := a.UserIdForSessionId(s, 0);
    assert u == Some("u1");
    u := a.UserIdForSessionId(s, 6 * MicrosPerSecond);
    assert u == None;
    // The exact boundary instant is still valid.
    u := a.UserIdForSessionId(s, 5 * MicrosPerSecond);
    assert u == Some("u1");

    // Duration 0: never expires.
    var b := new SessionExpAuth(0);
    var s2 := b.CreateSession(Some("u2"), Some(sid2), 0);
    u := b.UserIdForSessionId(s2, 1_000_000 * MicrosPerSecond);
    assert u == Some("u2");

    // The base refuses the empty user id: nothing is created.
    var s3 := a.CreateSession(Some(""), None, 0);
    assert s3 == None;

    // No session created: any token is rejected.
    var c := new SessionExpAuth(5);
    u := c.UserIdForSessionId(Some("garbage-token"), 0);
    assert u == None;
  }
}
