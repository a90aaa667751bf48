# Expiring session authentication

A Dafny model of `SessionExpAuth`, the session authenticator with expiration
of the `0x02-Session_authentication` API. The authenticator keeps a
dictionary `user_id_by_session_id` from session id to a record
`{user_id, created_at}`:

- `create_session(user_id)` asks the base `SessionAuth` for a session id. When
  the base fails it returns `None` and stores nothing. Otherwise it stores the
  record `{user_id, created_at: now}` under the new id and returns the id.
- `user_id_for_session_id(session_id)` walks a fixed chain of checks:
  1. an unknown id or `None` gives `None`;
  2. a duration `<= 0` means "never expires", so the stored user id is returned;
  3. a record without `created_at` gives `None`;
  4. a session gives `None` when `now > created_at + duration`, and its user id
     otherwise. The boundary instant itself is still valid.

  This variant never purges an expired record: the lookup is read-only.

Files:

- `wrappers.dfy`: module `Wrappers`, the `Option` datatype that stands for
  Python's `None`-or-value.
- `session_exp_auth.dfy`: module `ExpiringSessions`, which holds:
  - the `Record` datatype;
  - the specification functions `Lookup` (the decision chain) and
    `AfterCreate` (the map after a create);
  - the class `SessionExpAuth`, whose field `sessions` is the dictionary and
    whose `const duration` is `session_duration`;
  - lemmas about single calls and about whole sequences of calls (`Call`,
    `Step`, `Replay`);
  - a client method `Scenarios` that works through the documented scenarios
    using only the class's contracts.

Modelling choices:

- Time is an integer count of microseconds, the resolution of `datetime`.
  `datetime`/`timedelta` arithmetic is exact on microseconds, so integer
  arithmetic is faithful. The duration is in whole seconds, and
  `ExpiresAt(t0, d) = t0 + d * 1_000_000`.
- The clock reading `datetime.now()` is an explicit `now` argument of each
  method. Nothing constrains successive readings, so the clock may go
  backwards.
- The base `super().create_session(user_id)` is an `Option<string>` argument
  `minted`: `None` when the base refuses, `Some(id)` otherwise. The model does
  not rely on any particular validation by the base. For that reason
  `Record.userId` is an `Option<string>`, because `"user_id": user_id` stores
  whatever was passed and `.get("user_id")` hands it back.
- A create overwrites whatever is already stored under the minted id, as the
  dictionary assignment does. Fresh ids (what `uuid4` provides) appear only as
  the hypothesis `FreshMints` of the lemmas about sequences of calls.
- The duration comes from the environment in the source, through
  `int(os.getenv("SESSION_DURATION", 0))`, which raises `ValueError` on a
  non-numeric value rather than falling back to 0. Here the duration is a
  constructor argument, and any integer is allowed, negative ones included.
- A new authenticator starts with an empty map.

## Model

| member | source | states |
|---|---|---|
| ExpiringSessions.Lookup | 0x02-Session_authentication/api/v1/auth/session_exp_auth.py.py:51-67 | a lookup returns a user id only for a known id and only the one stored with it; when expiry is enabled it does so only for a record that has a creation time and has not passed its expiration instant |
| ExpiringSessions.AfterCreate | 0x02-Session_authentication/api/v1/auth/session_exp_auth.py.py:30-40 | a failed base call leaves the map as it was; a successful one binds the minted id to `Record(userId, Some(now))`, adds no other key, and keeps every other entry's value |
| ExpiringSessions.SessionExpAuth.constructor | 0x02-Session_authentication/api/v1/auth/session_exp_auth.py.py:16-19 | the authenticator has the given session duration and no sessions |
| ExpiringSessions.SessionExpAuth.CreateSession | 0x02-Session_authentication/api/v1/auth/session_exp_auth.py.py:21-40 | returns exactly what the base returned; on `None` the map is unchanged; on `Some(sid)` the new map is the old one with `sid` bound to a record stamped `now`; a fresh id grows the map by exactly one record |
| ExpiringSessions.SessionExpAuth.UserIdForSessionId | 0x02-Session_authentication/api/v1/auth/session_exp_auth.py.py:42-67 | returns the decision chain's answer for the current map, duration and clock; it has no modifies clause, so no lookup, expired or not, changes the map |
| ExpiringSessions.UnknownIdRejected | 0x02-Session_authentication/api/v1/auth/session_exp_auth.py.py:51-52 | `None` and any id not in the map resolve to `None` |
| ExpiringSessions.NeverExpires | 0x02-Session_authentication/api/v1/auth/session_exp_auth.py.py:56-57 | with a duration `<= 0` a stored session resolves to its user id at every query time |
| ExpiringSessions.MissingCreatedAtRejected | 0x02-Session_authentication/api/v1/auth/session_exp_auth.py.py:59-60 | with a duration `> 0` a record without a creation time resolves to `None` |
| ExpiringSessions.ExpiryBoundary | 0x02-Session_authentication/api/v1/auth/session_exp_auth.py.py:62-67 | with duration `D > 0` and a record created at `t0`, lookup gives the stored user id when `now <= t0 + D`, and `None` when `now > t0 + D`; it gives some user id if and only if one is stored and `now <= t0 + D` |
| ExpiringSessions.FailedCreateChangesNothing | 0x02-Session_authentication/api/v1/auth/session_exp_auth.py.py:30-32 | after a failed base call every id resolves at every time as it did before |
| ExpiringSessions.CreateThenResolve | 0x02-Session_authentication/api/v1/auth/session_exp_auth.py.py:30-67 | right after a successful create of `u` at `t`, the new id resolves to `u` at any `now` at which the session is live, and to `None` once it has expired |
| ExpiringSessions.Step | 0x02-Session_authentication/api/v1/auth/session_exp_auth.py.py:30-67 | one call of either operation: a lookup leaves the map unchanged, and no call removes a key |
| ExpiringSessions.ReplayNeverRemoves | 0x02-Session_authentication/api/v1/auth/session_exp_auth.py.py:62-65 | there is no purge: after any sequence of calls every session id that was stored is still stored |
| ExpiringSessions.LookupsLeaveMapUnchanged | 0x02-Session_authentication/api/v1/auth/session_exp_auth.py.py:42-67 | any sequence of lookups leaves the map exactly as it was |
| ExpiringSessions.RepeatedLookupsAgree | 0x02-Session_authentication/api/v1/auth/session_exp_auth.py.py:42-67 | after any sequence of lookups, every id resolves at every time as it did before, so repeated lookups give the same answer |
| ExpiringSessions.RecordUnchanged | 0x02-Session_authentication/api/v1/auth/session_exp_auth.py.py:34-39 | a stored record, its user id and its `created_at`, is unchanged by every sequence of calls that does not mint its id again |
| ExpiringSessions.FreshMintsAvoidStored | 0x02-Session_authentication/api/v1/auth/session_exp_auth.py.py:30 | when the base hands out fresh ids, no later call mints the id of a stored record |
| ExpiringSessions.RecordsArePermanent | 0x02-Session_authentication/api/v1/auth/session_exp_auth.py.py:34-39 | when the base hands out fresh ids, every stored record is still present, unchanged, after any later sequence of calls |
| ExpiringSessions.ReplayCountsCreations | 0x02-Session_authentication/api/v1/auth/session_exp_auth.py.py:30-40 | when the base hands out fresh ids, the map grows by exactly one record per successful create and by none otherwise |
| ExpiringSessions.SessionResolvesUntilExpiry | 0x02-Session_authentication/api/v1/auth/session_exp_auth.py.py:30-67 | after a successful create of `u` at `t`, followed by any calls on fresh ids, the session resolves to `u` at every `now` at which it is live and to `None` after it expires |

## Left out

- Reading `SESSION_DURATION` from the environment (line 19) is not modelled: the duration is a constructor argument. The source raises `ValueError` on a non-numeric value; it does not fall back to 0.
- The base `SessionAuth` is not part of this model. Its id generation (`uuid4`) and its validation of `user_id` are replaced by the `minted` argument. Freshness of ids is a hypothesis of the sequence lemmas, not a guarantee.
- Whether `user_id_by_session_id` is shared at class level in the base is not visible. It is modelled as a field of the instance that starts empty.
- The wall clock `datetime.now()` is replaced by the `now` argument, in microseconds.
- `OverflowError` is not modelled. `timedelta(seconds=d)` raises it for durations beyond about 999999999 days, and `created_at + timedelta` raises it past the year 9999. The model's integers are unbounded.
- The `session_id` argument is typed as a string or `None`. Other Python values that are valid dictionary keys are not modelled.
- The `models.user.User` import (unused), HTTP routing and concurrency are not modelled. The code is single-threaded.
