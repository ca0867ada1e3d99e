/** Backoff after failed logins of one user: how long the next attempt has to wait. */
module AuthPolicyServices {
  import opened Wrappers
  import opened Text
  import opened Tables

  const MAX_FAILED_ATTEMPTS: int := 5
  const LOCK_WINDOW_SECS: int := 5 * 60
  const BACKOFF_MAX_SECS: int := 30

  const I64_MIN: int := -0x8000_0000_0000_0000
  const I64_MAX: int := 0x7FFF_FFFF_FFFF_FFFF

  datatype AuthPolicyState = AuthPolicyState(failedAttempts: int, remainingLockSecs: int) {
    predicate IsLocked() {
      failedAttempts >= MAX_FAILED_ATTEMPTS && remainingLockSecs > 0
    }
  }

  function Shifted(shift: nat): (r: nat)
    ensures r > shift
  {
    if shift == 0 then 1 else 2 * Shifted(shift - 1)
  }

  function SaturatingSub(a: int, b: int): int {
    if a - b > I64_MAX then I64_MAX else if a - b < I64_MIN then I64_MIN else a - b
  }

  function Max(a: int, b: int): int {
    if a >= b then a else b
  }

  function BackoffDelaySecs(failedAttempts: int): int {
    if failedAttempts <= 0 then 0
    else
      var shift := if failedAttempts - 1 > 30 then 30 else failedAttempts - 1;
      if Shifted(shift) <= BACKOFF_MAX_SECS then Shifted(shift) else BACKOFF_MAX_SECS
  }

  function RemainingLockSecs(failedAttempts: int, lastAttemptAt: Option<int>, now: int): int {
    match lastAttemptAt
    case None => 0
    case Some(last) =>
      var elapsed := SaturatingSub(now, last);
      var locked := if failedAttempts >= MAX_FAILED_ATTEMPTS && elapsed < LOCK_WINDOW_SECS then LOCK_WINDOW_SECS - elapsed else 0;
      var backoff := BackoffDelaySecs(failedAttempts);
      if backoff > elapsed then Max(locked, backoff - elapsed) else locked
  }

  /** How long the last failure holds the user back. */
  function Hold(failedAttempts: int): int {
    if failedAttempts <= 0 then 0
    else if failedAttempts == 1 then 1
    else if failedAttempts == 2 then 2
    else if failedAttempts == 3 then 4
    else if failedAttempts == 4 then 8
    else 300
  }

  lemma BackoffValues(failedAttempts: int)
    ensures failedAttempts <= 4 ==> BackoffDelaySecs(failedAttempts) == Hold(failedAttempts)
    ensures failedAttempts == 5 ==> BackoffDelaySecs(failedAttempts) == 16
    ensures failedAttempts >= 6 ==> BackoffDelaySecs(failedAttempts) == BACKOFF_MAX_SECS
  {
    assert Shifted(1) == 2 && Shifted(2) == 4 && Shifted(3) == 8 && Shifted(4) == 16 && Shifted(5) == 32;
    if 6 <= failedAttempts <= 31 {
      ShiftedGrows(5, failedAttempts - 1);
    } else if failedAttempts > 31 {
      ShiftedGrows(5, 30);
    }
  }

  lemma {:induction false} ShiftedGrows(a: nat, b: nat)
    requires a <= b
    ensures Shifted(a) <= Shifted(b)
  {
    if a < b {
      ShiftedGrows(a, b - 1);
    }
  }

  /** The two rules together are one: the hold of the failures so far, minus the time since the last. */
  lemma RemainingIsHoldMinusElapsed(failedAttempts: int, last: int, now: int)
    ensures RemainingLockSecs(failedAttempts, Some(last), now) == Max(0, Hold(failedAttempts) - SaturatingSub(now, last))
  {
    BackoffValues(failedAttempts);
    hide BackoffDelaySecs;
  }

  lemma LockedIff(failedAttempts: int, last: int, now: int)
    ensures AuthPolicyState(failedAttempts, RemainingLockSecs(failedAttempts, Some(last), now)).IsLocked()
      <==> failedAttempts >= 5 && SaturatingSub(now, last) < 300
  {
    RemainingIsHoldMinusElapsed(failedAttempts, last, now);
    hide BackoffDelaySecs, RemainingLockSecs;
  }

  // ---- the service --------------------------------------------------------------------------------------------

  function PolicyRowOf(db: Database, username: string): PolicyRow {
    if username in db.policy then db.policy[username] else PolicyRow(0, None)
  }

  function WithPolicyRow(db: Database, username: string, row: PolicyRow): Database {
    db.(policy := db.policy[username := row])
  }

  function Failed(row: PolicyRow, now: int): PolicyRow {
    PolicyRow(row.failedAttempts + 1, Some(now))
  }

  class SqlxAuthPolicyService {
    const pool: Pool

    constructor (pool: Pool)
      ensures this.pool == pool
    {
      this.pool := pool;
    }

    method EnsureRowExists(username: string)
      modifies pool
      ensures pool.db == WithPolicyRow(old(pool.db), username, PolicyRowOf(old(pool.db), username))
    {
      if username !in pool.db.policy {
        pool.db := pool.db.(policy := pool.db.policy[username := PolicyRow(0, None)]);
      } else {
        assert pool.db.policy[username := pool.db.policy[username]] == pool.db.policy;
      }
    }

    method GetState(username: string, now: int) returns (state: AuthPolicyState)
      modifies pool
      ensures IsBlank(username) ==> state == AuthPolicyState(0, 0) && pool.db == old(pool.db)
      ensures !IsBlank(username) ==>
        var row := PolicyRowOf(old(pool.db), username);
        && pool.db == WithPolicyRow(old(pool.db), username, row)
        && state == AuthPolicyState(row.failedAttempts, RemainingLockSecs(row.failedAttempts, row.lastAttemptAt, now))
      ensures pool.db == old(pool.db).(policy := pool.db.policy)
      ensures !IsBlank(username) ==>
        && pool.db.policy - {username} == old(pool.db.policy) - {username} && username in pool.db.policy
        && pool.db.policy[username].failedAttempts == state.failedAttempts
        && (if username in old(pool.db.policy) then pool.db.policy[username] == old(pool.db.policy)[username]
            else pool.db.policy[username].lastAttemptAt == None && state == AuthPolicyState(0, 0))
    {
      if IsBlank(username) {
        return AuthPolicyState(0, 0);
      }
      EnsureRowExists(username);
      var row := pool.db.policy[username];
      state := AuthPolicyState(row.failedAttempts, RemainingLockSecs(row.failedAttempts, row.lastAttemptAt, now));
    }

    /** The clock is read for the row and again for the state. A blank name counts but is not stored. */
    method RecordFailedAttempt(username: string, now: int, readAt: int) returns (state: AuthPolicyState)
      modifies pool
      ensures IsBlank(username) ==> state == AuthPolicyState(1, 0) && pool.db == old(pool.db)
      ensures !IsBlank(username) ==>
        var row := Failed(PolicyRowOf(old(pool.db), username), now);
        && pool.db == WithPolicyRow(old(pool.db), username, row)
        && state == AuthPolicyState(row.failedAttempts, RemainingLockSecs(row.failedAttempts, Some(now), readAt))
      ensures pool.db == old(pool.db).(policy := pool.db.policy)
      ensures !IsBlank(username) ==>
        && pool.db.policy - {username} == old(pool.db.policy) - {username} && username in pool.db.policy
        && pool.db.policy[username].lastAttemptAt == Some(now)
        && pool.db.policy[username].failedAttempts == state.failedAttempts
        && state.failedAttempts ==
             1 + (if username in old(pool.db.policy) then old(pool.db.policy)[username].failedAttempts else 0)
    {
      if IsBlank(username) {
        return AuthPolicyState(1, 0);
      }
      EnsureRowExists(username);
      var row := pool.db.policy[username];
      row := row.(failedAttempts := row.failedAttempts + 1, lastAttemptAt := Some(now));
      pool.db := pool.db.(policy := pool.db.policy[username := row]);
      assert pool.db == WithPolicyRow(old(pool.db), username, row);
      state := GetState(username, readAt);
      assert WithPolicyRow(WithPolicyRow(old(pool.db), username, row), username, row) == WithPolicyRow(old(pool.db), username, row);
    }

    method ResetFailedAttempts(username: string)
      modifies pool
      ensures pool.db == if IsBlank(username) then old(pool.db) else WithPolicyRow(old(pool.db), username, PolicyRow(0, None))
      ensures pool.db == old(pool.db).(policy := pool.db.policy)
      ensures !IsBlank(username) ==>
        && pool.db.policy - {username} == old(pool.db.policy) - {username} && username in pool.db.policy
        && pool.db.policy[username].failedAttempts == 0 && pool.db.policy[username].lastAttemptAt == None
    {
      if IsBlank(username) {
        return;
      }
      EnsureRowExists(username);
      pool.db := pool.db.(policy := pool.db.policy[username := PolicyRow(0, None)]);
      assert pool.db == WithPolicyRow(old(pool.db), username, PolicyRow(0, None));
    }
  }

  // ---- runs ------------------------------------------------------------------------------------------------------

  datatype PolicyEvent = Failure(at: int) | Success(at: int)

  function RowAfter(events: seq<PolicyEvent>): PolicyRow {
    if events == [] then PolicyRow(0, None)
    else
      match events[|events| - 1]
      case Failure(at) => Failed(RowAfter(events[..|events| - 1]), at)
      case Success(_) => PolicyRow(0, None)
  }

  /** A clock of 64-bit seconds that does not go back. */
  predicate Timely(events: seq<PolicyEvent>, now: int) {
    && 0 <= now <= I64_MAX
    && (forall i :: 0 <= i < |events| ==> 0 <= events[i].at <= now)
    && (forall i, j :: 0 <= i < j < |events| ==> events[i].at <= events[j].at)
  }

  /** The failures since the last success. */
  function FailuresSince(events: seq<PolicyEvent>): nat {
    if events == [] || events[|events| - 1].Success? then 0
    else 1 + FailuresSince(events[..|events| - 1])
  }

  function Remaining(events: seq<PolicyEvent>, now: int): int {
    RemainingLockSecs(RowAfter(events).failedAttempts, RowAfter(events).lastAttemptAt, now)
  }

  lemma {:induction false} RowCountsFailures(events: seq<PolicyEvent>)
    ensures RowAfter(events).failedAttempts == FailuresSince(events)
    ensures RowAfter(events).lastAttemptAt ==
      if FailuresSince(events) == 0 then None else Some(events[|events| - 1].at)
  {
    if events != [] {
      RowCountsFailures(events[..|events| - 1]);
    }
  }

  /** At every point of every run: the hold of the failures since the last success, less the time since
      the last of them; never below 0 or above 300. */
  lemma RunRemaining(events: seq<PolicyEvent>, now: int)
    requires Timely(events, now)
    ensures Remaining(events, now) ==
      if FailuresSince(events) == 0 then 0 else Max(0, Hold(FailuresSince(events)) - (now - events[|events| - 1].at))
    ensures 0 <= Remaining(events, now) <= 300
  {
    RowCountsFailures(events);
    assert FailuresSince(events) > 0 ==> events != [];
    hide RowAfter, FailuresSince, RemainingLockSecs;
    if FailuresSince(events) > 0 {
      RemainingIsHoldMinusElapsed(FailuresSince(events), events[|events| - 1].at, now);
    }
  }

  /** It counts down one per second. */
  lemma CountsDown(events: seq<PolicyEvent>, now: int)
    requires Timely(events, now) && now + 1 <= I64_MAX
    ensures Remaining(events, now + 1) == Max(0, Remaining(events, now) - 1)
  {
    hide Remaining, FailuresSince;
    RunRemaining(events, now);
    RunRemaining(events, now + 1);
  }

  /** No failure ever shortens the wait, at any later time. */
  lemma {:induction false} FailuresNeverShorten(events: seq<PolicyEvent>, more: seq<PolicyEvent>, now: int)
    requires Timely(events + more, now)
    requires forall i :: 0 <= i < |more| ==> more[i].Failure?
    ensures Timely(events, now) && Remaining(events, now) <= Remaining(events + more, now)
  {
    if more == [] {
      assert events + more == events;
    } else {
      var n := |more| - 1;
      var all, before := events + more, events + more[..n];
      assert all[..|all| - 1] == before;
      assert forall i :: 0 <= i < |before| ==> before[i] == all[i];
      FailuresNeverShorten(events, more[..n], now);
      OneFailureNeverShortens(before, all, now);
    }
  }

  lemma OneFailureNeverShortens(before: seq<PolicyEvent>, after: seq<PolicyEvent>, now: int)
    requires after != [] && after[..|after| - 1] == before && after[|after| - 1].Failure?
    requires Timely(before, now) && Timely(after, now)
    ensures Remaining(before, now) <= Remaining(after, now)
  {
    assert FailuresSince(after) == FailuresSince(before) + 1;
    assert before != [] ==> before[|before| - 1] == after[|after| - 2];
    RunRemaining(before, now);
    RunRemaining(after, now);
    hide Remaining, FailuresSince;
  }
}
