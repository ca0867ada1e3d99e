/** Two-factor codes: the stored secret, the login check on both its paths, and the replay guard that
    both share. The generator of codes (HOTP over 30-second steps) is a parameter. */
module TotpServices {
  import opened Wrappers
  import opened Text
  import opened Crypto
  import opened PasswordEnvelopes
  import opened Tables
  import opened AuthServices
  import opened KeyHierarchy
  import opened HierarchyRuns

  const TOTP_DIGITS: nat := 6
  const TOTP_STEP: int := 30
  const TOTP_SKEW: int := 1
  const TOTP_REPLAY_TTL_SECS: int := TOTP_STEP * 3

  const LEGACY_DEV_MASTER_KEY: Bytes :=
    [0x41, 0x41, 0x41, 0x41, 0x41, 0x41, 0x41, 0x41, 0x41, 0x41, 0x41, 0x41, 0x41, 0x41, 0x41, 0x41,
     0x41, 0x41, 0x41, 0x41, 0x41, 0x41, 0x41, 0x41, 0x41, 0x41, 0x41, 0x41, 0x41, 0x41, 0x41, 0x41]

  /** `code` of a secret for a step; `wellFormed` says which texts are base-32 secrets. */
  datatype Generator = Generator(code: (string, int) -> string, wellFormed: string -> bool)

  type Guard = map<string, int>

  predicate IsValidTotpCode(code: string) {
    |code| == TOTP_DIGITS && forall i :: 0 <= i < |code| ==> '0' <= code[i] <= '9'
  }

  lemma CodeShape(code: string)
    ensures IsValidTotpCode(code) <==> |code| == 6 && forall i :: 0 <= i < 6 ==> '0' <= code[i] <= '9'
  {
  }

  function ReplayKey(username: string, code: string): string {
    username + ":" + code
  }

  /** Codes have a fixed length, so the pair can be read back from the key. */
  lemma ReplayKeyIsInjective(u1: string, c1: string, u2: string, c2: string)
    requires |c1| == TOTP_DIGITS && |c2| == TOTP_DIGITS
    ensures ReplayKey(u1, c1) == ReplayKey(u2, c2) <==> u1 == u2 && c1 == c2
  {
    var k1, k2 := ReplayKey(u1, c1), ReplayKey(u2, c2);
    if k1 == k2 {
      assert u1 == k1[..|k1| - 7] && u2 == k2[..|k2| - 7];
      assert c1 == k1[|k1| - 6..] && c2 == k2[|k2| - 6..];
    }
  }

  /** `retain(expires_at > now)` */
  function Pruned(guard: Guard, now: int): Guard {
    map key | key in guard && guard[key] > now :: guard[key]
  }

  /** The code is accepted during the step before, the step itself and the step after. */
  predicate ValidFor(step: int, at: int) {
    at / TOTP_STEP - TOTP_SKEW <= step <= at / TOTP_STEP + TOTP_SKEW
  }

  predicate MatchesCurrent(g: Generator, secret: string, code: string, at: int) {
    exists step: int | at / TOTP_STEP - TOTP_SKEW <= step <= at / TOTP_STEP + TOTP_SKEW :: g.code(secret, step) == code
  }

  datatype StoredSecret = Malformed | UnderSessionKey(plain: Bytes) | UnderLegacyKey(plain: Bytes) | Unreadable

  /** Which of the two paths a stored secret takes for a session key. */
  function ReadStored(s: Suite, blob: Bytes, key: Bytes): StoredSecret {
    if |blob| <= NONCE_LEN then Malformed
    else if OpenBlob(s, blob, key).Some? then UnderSessionKey(OpenBlob(s, blob, key).value)
    else if OpenBlob(s, blob, LEGACY_DEV_MASTER_KEY).Some? then
      UnderLegacyKey(OpenBlob(s, blob, LEGACY_DEV_MASTER_KEY).value)
    else Unreadable
  }

  function Column(db: Database, user: Option<UserId>): Option<Bytes>
    requires user.Some? ==> user.value in db.users
  {
    if user.Some? then db.users[user.value].totpSecret else None
  }

  /** The stored secret reads, on either path, as a generator secret whose code is current. */
  predicate CurrentCode(s: Suite, g: Generator, stored: StoredSecret, code: string, at: int) {
    && (stored.UnderSessionKey? || stored.UnderLegacyKey?)
    && s.fromUtf8(stored.plain).Some?
    && g.wellFormed(s.fromUtf8(stored.plain).value)
    && MatchesCurrent(g, s.fromUtf8(stored.plain).value, code, at)
  }

  /** The password opens a key for which the user's stored secret proves the code current. */
  ghost predicate ProvesSecondFactor(s: Suite, g: Generator, db: Database, creds: Credentials,
                                     username: string, password: Bytes, code: string, at: int)
  {
    exists u, key :: u in db.users && db.users[u].username == username
      && OpensFor(s, creds, username, password, key)
      && db.users[u].totpSecret.Some?
      && CurrentCode(s, g, ReadStored(s, db.users[u].totpSecret.value, key), code, at)
  }

  ghost predicate OpensFor(s: Suite, creds: Credentials, username: string, password: Bytes, key: Bytes) {
    && username in creds && s.fromUtf8(password).Some?
    && Opens(s, creds[username], s.fromUtf8(password).value, key)
  }

  /** One user and one key decide it. */
  lemma SecondFactorIs(s: Suite, g: Generator, db: Database, creds: Credentials, username: string, password: Bytes,
                       code: string, at: int, u: UserId, key: Bytes)
    requires UniqueUsernames(db) && u in db.users && db.users[u].username == username && db.users[u].totpSecret.Some?
    requires OpensFor(s, creds, username, password, key)
    ensures ProvesSecondFactor(s, g, db, creds, username, password, code, at)
      <==> CurrentCode(s, g, ReadStored(s, db.users[u].totpSecret.value, key), code, at)
  {
    hide CurrentCode, ReadStored, Unlock;
  }

  lemma SecondFactorOpens(s: Suite, g: Generator, db: Database, creds: Credentials, username: string, password: Bytes,
                          code: string, at: int) returns (key: Bytes)
    requires ProvesSecondFactor(s, g, db, creds, username, password, code, at)
    ensures OpensFor(s, creds, username, password, key)
  {
    hide CurrentCode, ReadStored, OpensFor;
    var u, found :| u in db.users && db.users[u].username == username
      && OpensFor(s, creds, username, password, found)
      && db.users[u].totpSecret.Some?
      && CurrentCode(s, g, ReadStored(s, db.users[u].totpSecret.value, found), code, at);
    key := found;
  }

  /** The password opens the account of this user to this key, and the account has a second factor. */
  ghost predicate HasSecondFactor(s: Suite, db: Database, creds: Credentials, username: string, password: Bytes,
                                  u: UserId, key: Bytes)
  {
    && u in db.users && db.users[u].username == username && db.users[u].totpSecret.Some?
    && OpensFor(s, creds, username, password, key)
  }

  lemma OneLogin(s: Suite, db: Database, creds: Credentials, username: string, password: Bytes, u1: UserId, u2: UserId,
                 k1: Bytes, k2: Bytes)
    requires UniqueUsernames(db)
    requires HasSecondFactor(s, db, creds, username, password, u1, k1)
    requires HasSecondFactor(s, db, creds, username, password, u2, k2)
    ensures u1 == u2 && k1 == k2
  {
    hide Decode, Unlock;
  }

  class TotpService {
    const suite: Suite
    const generator: Generator
    const pool: Pool
    const auth: AuthService
    var replayGuard: Guard

    constructor (generator: Generator, pool: Pool, auth: AuthService)
      ensures this.suite == auth.suite && this.generator == generator && this.pool == pool && this.auth == auth
      ensures replayGuard == map[]
    {
      this.suite, this.generator, this.pool, this.auth := auth.suite, generator, pool, auth;
      replayGuard := map[];
    }

    /** Expired entries go first; the code passes exactly when no unexpired entry names it. */
    method RejectReplayAndRecord(username: string, code: string, now: int) returns (unused: bool)
      modifies this`replayGuard
      ensures unused <==> ReplayKey(username, code) !in Pruned(old(replayGuard), now)
      ensures replayGuard == if unused then Pruned(old(replayGuard), now)[ReplayKey(username, code) := now + TOTP_REPLAY_TTL_SECS]
                             else Pruned(old(replayGuard), now)
    {
      replayGuard := map key | key in replayGuard && replayGuard[key] > now :: replayGuard[key];
      var key := ReplayKey(username, code);
      if key in replayGuard {
        return false;
      }
      replayGuard := replayGuard[key := now + TOTP_REPLAY_TTL_SECS];
      unused := true;
    }

    method FindUser(username: string) returns (user: Option<UserId>)
      ensures user.Some? ==> user.value in pool.db.users && pool.db.users[user.value].username == username
      ensures user.None? ==> forall u :: u in pool.db.users ==> pool.db.users[u].username != username
    {
      var named := set u | u in pool.db.users && pool.db.users[u].username == username;
      assert forall u :: u in pool.db.users && pool.db.users[u].username == username ==> u in named;
      if named == {} {
        return None;
      }
      var u :| u in named;
      user := Some(u);
    }

    /** Seals a secret under the session key into the user's row. */
    method StoreSecret(user: UserId, secret: Bytes, key: Bytes) returns (r: Result<()>)
      requires suite.Ideal()
      modifies pool
      ensures r.Ok? <==> |key| == KEY_LEN && user in old(pool.db.users)
      ensures r.Err? ==> pool.db == old(pool.db) && r.error == if |key| == KEY_LEN then Storage else CryptoFailure
      ensures r.Ok? ==> TotpStored(suite, old(pool.db), pool.db, user, Some(secret), key)
    {
      var envelope :- SealBlob(suite, NonceCiphertext, secret, key);
      if user !in pool.db.users {
        return Err(Storage);
      }
      var row := pool.db.users[user].(totpSecret := Some(envelope));
      pool.db := pool.db.(users := pool.db.users[user := row]);
      r := Ok(());
    }

    /** The secret is stored under the session key once a current code proves that it is set up. */
    method EnableTotp(user: UserId, username: string, accountKey: Bytes, secret: string, code: string, now: int)
      returns (r: Result<()>)
      requires suite == auth.suite && suite.Ideal()
      modifies pool
      ensures r.Ok? <==>
        && !IsBlank(username) && |code| == 6 && (forall i :: 0 <= i < 6 ==> '0' <= code[i] <= '9')
        && generator.wellFormed(secret) && MatchesCurrent(generator, secret, code, now)
        && |accountKey| == KEY_LEN && user in old(pool.db.users)
      ensures r.Err? ==> pool.db == old(pool.db)
      ensures r.Err? ==>
        r.error == (if IsBlank(username) then Validation
                    else if !IsValidTotpCode(code) then InvalidTotpCode
                    else if !generator.wellFormed(secret) then Validation
                    else if !MatchesCurrent(generator, secret, code, now) then InvalidTotpCode
                    else if |accountKey| == KEY_LEN then Storage
                    else CryptoFailure)
      ensures r.Ok? ==> TotpStored(suite, old(pool.db), pool.db, user, Some(suite.utf8(secret)), accountKey)
    {
      hide IsValidTotpCode, MatchesCurrent;
      CodeShape(code);
      if IsBlank(username) {
        return Err(Validation);
      }
      if !IsValidTotpCode(code) {
        return Err(InvalidTotpCode);
      }
      if !generator.wellFormed(secret) {
        return Err(Validation);
      }
      if !MatchesCurrent(generator, secret, code, now) {
        return Err(InvalidTotpCode);
      }
      r := StoreSecret(user, suite.utf8(secret), accountKey);
    }

    method DisableTotp(user: UserId) returns (r: Result<()>)
      modifies pool
      ensures r.Ok? <==> user in old(pool.db.users)
      ensures r.Err? ==> r.error == Storage && pool.db == old(pool.db)
      ensures r.Ok? ==> TotpStored(suite, old(pool.db), pool.db, user, None, [])
    {
      if user !in pool.db.users {
        return Err(Storage);
      }
      var row := pool.db.users[user].(totpSecret := None);
      pool.db := pool.db.(users := pool.db.users[user := row]);
      r := Ok(());
    }

    /** The end of both paths: a current code of a readable secret, then the guard. */
    method AcceptCode(username: string, plain: Bytes, code: string, checkedAt: int, recordedAt: int)
      returns (r: Result<bool>)
      modifies this`replayGuard
      ensures r.Ok? <==> suite.fromUtf8(plain).Some? && generator.wellFormed(suite.fromUtf8(plain).value)
      ensures r.Err? ==> r.error == Validation && replayGuard == old(replayGuard)
      ensures r.Ok? ==> (r.value <==>
        && MatchesCurrent(generator, suite.fromUtf8(plain).value, code, checkedAt)
        && ReplayKey(username, code) !in Pruned(old(replayGuard), recordedAt))
      ensures r == Ok(true) ==> GuardAccepts(old(replayGuard), username, code, recordedAt, replayGuard)
      ensures r == Ok(false) ==> replayGuard == old(replayGuard) || replayGuard == Pruned(old(replayGuard), recordedAt)
    {
      var secret :- DecodeText(suite, plain);
      if !generator.wellFormed(secret) {
        return Err(Validation);
      }
      if !MatchesCurrent(generator, secret, code, checkedAt) {
        return Ok(false);
      }
      var unused := RejectReplayAndRecord(username, code, recordedAt);
      return Ok(unused);
    }

    /** The stored secret of a user whose password gave the key: the regular path, or the legacy one. */
    method CheckStored(user: UserId, username: string, key: Bytes, code: string, checkedAt: int, recordedAt: int, written: bool)
      returns (r: Result<bool>)
      requires suite.Ideal() && user in pool.db.users && pool.db.users[user].totpSecret.Some?
      modifies this`replayGuard, pool
      ensures var stored := ReadStored(suite, old(pool.db.users[user].totpSecret.value), key);
        var accepted := CurrentCode(suite, generator, stored, code, checkedAt)
                        && ReplayKey(username, code) !in Pruned(old(replayGuard), recordedAt);
        && (stored.Malformed? ==> r == Err(Storage))
        && (stored.Unreadable? ==> r == Ok(false))
        && (if accepted then
              && GuardAccepts(old(replayGuard), username, code, recordedAt, replayGuard)
              && r == (if stored.UnderLegacyKey? && |key| != KEY_LEN then Err(CryptoFailure) else Ok(true))
            else r != Ok(true) && (replayGuard == old(replayGuard) || replayGuard == Pruned(old(replayGuard), recordedAt)))
        && (if r == Ok(true) && stored.UnderLegacyKey? && written then
              TotpStored(suite, old(pool.db), pool.db, user, Some(stored.plain), key)
            else pool.db == old(pool.db))
    {
      hide ReadStored, MatchesCurrent, Pruned, ReplayKey, GuardAccepts, TotpStored, Suite.Ideal;
      match ReadStored(suite, pool.db.users[user].totpSecret.value, key) {
        case Malformed => return Err(Storage);
        case Unreadable => return Ok(false);
        case UnderSessionKey(plain) =>
          r := AcceptCode(username, plain, code, checkedAt, recordedAt);
        case UnderLegacyKey(plain) =>
          r := AcceptCode(username, plain, code, checkedAt, recordedAt);
          if r != Ok(true) {
            return;
          }
          var envelope :- SealBlob(suite, NonceCiphertext, plain, key);
          if written {
            var row := pool.db.users[user].(totpSecret := Some(envelope));
            pool.db := pool.db.(users := pool.db.users[user := row]);
            RowStored(suite, old(pool.db), pool.db, user, envelope, plain, key);
          }
      }
    }

    /** With two-factor login enabled, a call is accepted exactly when the code proves the second factor
        at `checkedAt` and passes the guard at `recordedAt`, on the regular and on the legacy path alike;
        only a session key of the wrong length can then still fail. An accepted legacy secret is stored
        again under the session key when the database takes the write, and the call does not ask whether
        it did. */
    method VerifyLoginTotp(username: string, password: Bytes, code: string, checkedAt: int, recordedAt: int, written: bool)
      returns (r: Result<bool>)
      requires suite == auth.suite && suite.Ideal()
      requires UniqueUsernames(pool.db)
      modifies this`replayGuard, pool
      ensures !(|code| == 6 && forall i :: 0 <= i < 6 ==> '0' <= code[i] <= '9') ==> r == Ok(false)
      ensures IsValidTotpCode(code) && !Enabled(old(pool.db), username) ==>
        r == Ok(true) && replayGuard == old(replayGuard) && pool.db == old(pool.db)
      ensures LoginStep(suite, generator, old(replayGuard),
                        LoginCall(old(pool.db), auth.credentials, username, password, code, checkedAt, recordedAt, r), replayGuard)
      ensures (&& Enabled(old(pool.db), username) && IsValidTotpCode(code) && !auth.shutdown
               && ProvesSecondFactor(suite, generator, old(pool.db), auth.credentials, username, password, code, checkedAt)
               && ReplayKey(username, code) !in Pruned(old(replayGuard), recordedAt)) ==>
        r == Ok(true) || r == Err(CryptoFailure)
      ensures IsValidTotpCode(code) && !auth.shutdown ==> forall user, key ::
        HasSecondFactor(suite, old(pool.db), auth.credentials, username, password, user, key) ==>
          StoredAnswer(suite, old(pool.db), pool.db, user, key, written, r)
      ensures pool.db == old(pool.db) || (r == Ok(true) && exists user, key ::
        && HasSecondFactor(suite, old(pool.db), auth.credentials, username, password, user, key)
        && ReadStored(suite, old(pool.db).users[user].totpSecret.value, key).UnderLegacyKey?)
    {
      hide ReadStored, OpenBlob, MatchesCurrent, IsValidTotpCode, Opens, Pruned, ReplayKey, GuardAccepts, ProvesSecondFactor,
        TotpStored, LoginStep, Suite.Ideal, StoredAnswer;
      ghost var call := LoginCall(pool.db, auth.credentials, username, password, code, checkedAt, recordedAt, Ok(false));
      forall result, after | !call.(result := result).Accepted() && (after == replayGuard || after == Pruned(replayGuard, recordedAt))
        ensures LoginStep(suite, generator, replayGuard, call.(result := result), after)
      {
        RefusedStep(suite, generator, replayGuard, call.(result := result), after);
      }
      CodeShape(code);
      if !IsValidTotpCode(code) {
        return Ok(false);
      }
      var user := FindUser(username);
      var column := Column(pool.db, user);
      if column.None? {
        return Ok(true);
      }
      if ProvesSecondFactor(suite, generator, pool.db, auth.credentials, username, password, code, checkedAt) {
        ghost var opening := SecondFactorOpens(suite, generator, pool.db, auth.credentials, username, password, code, checkedAt);
      }
      var unlocked :- auth.DeriveKeyIfValid(username, password);
      if unlocked.None? {
        return Ok(false);
      }
      var key := unlocked.value;
      SecondFactorIs(suite, generator, pool.db, auth.credentials, username, password, code, checkedAt, user.value, key);
      forall u, k | HasSecondFactor(suite, pool.db, auth.credentials, username, password, u, k)
        ensures u == user.value && k == key
      {
        OneLogin(suite, pool.db, auth.credentials, username, password, u, user.value, k, key);
      }
      hide CurrentCode;
      r := CheckStored(user.value, username, key, code, checkedAt, recordedAt, written);
      AnswerIs(suite, old(pool.db), pool.db, user.value, key, written, r);
      if (CurrentCode(suite, generator, ReadStored(suite, column.value, key), code, checkedAt)
          && ReplayKey(username, code) !in Pruned(old(replayGuard), recordedAt)) {
        AnsweredStep(suite, generator, old(replayGuard), call.(result := Ok(true)), replayGuard);
        FailedAfterwards(suite, generator, old(replayGuard), call.(result := Ok(true)), replayGuard, CryptoFailure);
      }
    }
  }

  /** What is answered for the stored secret of a user, by which key it opens with, and what is stored then. */
  ghost predicate StoredAnswer(s: Suite, before: Database, after: Database, u: UserId, key: Bytes, written: bool, r: Result<bool>) {
    && u in before.users && before.users[u].totpSecret.Some?
    && var blob := before.users[u].totpSecret.value;
       && (|blob| <= 12 ==> r == Err(Storage))
       && (|blob| > 12 && OpenBlob(s, blob, key).None? && OpenBlob(s, blob, LEGACY_DEV_MASTER_KEY).None? ==> r == Ok(false))
       && (if r == Ok(true) && written && OpenBlob(s, blob, key).None? then
             && OpenBlob(s, blob, LEGACY_DEV_MASTER_KEY).Some?
             && TotpStored(s, before, after, u, OpenBlob(s, blob, LEGACY_DEV_MASTER_KEY), key)
           else after == before)
  }

  lemma AnswerIs(s: Suite, before: Database, after: Database, u: UserId, key: Bytes, written: bool, r: Result<bool>)
    requires u in before.users && before.users[u].totpSecret.Some?
    requires var stored := ReadStored(s, before.users[u].totpSecret.value, key);
      && (stored.Malformed? ==> r == Err(Storage)) && (stored.Unreadable? ==> r == Ok(false))
      && (if r == Ok(true) && stored.UnderLegacyKey? && written then TotpStored(s, before, after, u, Some(stored.plain), key)
          else after == before)
    ensures StoredAnswer(s, before, after, u, key, written, r)
  {
    hide OpenBlob, TotpStored;
  }

  /** The UNIQUE constraint on usernames. */
  ghost predicate UniqueUsernames(db: Database) {
    forall u, u' :: u in db.users && u' in db.users && db.users[u].username == db.users[u'].username ==> u == u'
  }

  ghost predicate Enabled(db: Database, username: string) {
    exists u :: u in db.users && db.users[u].username == username && db.users[u].totpSecret.Some?
  }

  ghost predicate GuardAccepts(before: Guard, username: string, code: string, now: int, after: Guard) {
    && ReplayKey(username, code) !in Pruned(before, now)
    && after == Pruned(before, now)[ReplayKey(username, code) := now + TOTP_REPLAY_TTL_SECS]
  }

  lemma RowStored(s: Suite, before: Database, after: Database, u: UserId, envelope: Bytes, plain: Bytes, key: Bytes)
    requires u in before.users && OpenBlob(s, envelope, key) == Some(plain)
    requires after == before.(users := before.users[u := before.users[u].(totpSecret := Some(envelope))])
    ensures TotpStored(s, before, after, u, Some(plain), key)
  {
  }

  // ---- runs of the guard ---------------------------------------------------------------------------------

  /** One login attempt: the clock is read for the check and again for the guard. Every accepted attempt
      passed the guard. */
  datatype Attempt = Attempt(username: string, code: string, checkedAt: int, recordedAt: int, passed: bool)

  ghost predicate GuardStep(before: Guard, a: Attempt, after: Guard) {
    if a.passed then |a.code| == TOTP_DIGITS && GuardAccepts(before, a.username, a.code, a.recordedAt, after)
    else after == before || after == Pruned(before, a.recordedAt)
  }

  /** Attempts in order, with a clock that never goes back, from an empty guard. */
  ghost predicate GuardRun(guards: seq<Guard>, attempts: seq<Attempt>) {
    && |guards| == |attempts| + 1
    && guards[0] == map[]
    && (forall i :: 0 <= i < |attempts| ==> GuardStep(guards[i], attempts[i], guards[i + 1]))
    && (forall i :: 0 <= i < |attempts| ==> attempts[i].checkedAt <= attempts[i].recordedAt)
    && (forall i, j :: 0 <= i < j < |attempts| ==> attempts[i].recordedAt <= attempts[j].checkedAt)
  }

  ghost predicate AcceptedWithin(attempts: seq<Attempt>, n: nat, key: string, now: int)
    requires n <= |attempts|
  {
    exists i :: 0 <= i < n && attempts[i].passed && ReplayKey(attempts[i].username, attempts[i].code) == key
      && now < attempts[i].recordedAt + TOTP_REPLAY_TTL_SECS
  }

  /** What the guard remembers is exactly what was accepted during the last 90 seconds. */
  lemma {:induction false} GuardRemembersLastAcceptances(guards: seq<Guard>, attempts: seq<Attempt>, n: nat, key: string, now: int)
    requires GuardRun(guards, attempts) && n <= |attempts|
    requires forall i :: 0 <= i < n ==> attempts[i].recordedAt <= now
    ensures key in Pruned(guards[n], now) <==> AcceptedWithin(attempts, n, key, now)
  {
    if n > 0 {
      var a := attempts[n - 1];
      GuardRemembersLastAcceptances(guards, attempts, n - 1, key, now);
      assert GuardStep(guards[n - 1], a, guards[n - 1 + 1]);
      if a.passed && ReplayKey(a.username, a.code) == key {
        GuardRemembersLastAcceptances(guards, attempts, n - 1, key, a.recordedAt);
      }
    }
  }

  /** Two acceptances of the code of one step are at least 90 seconds apart on the guard's clock. */
  lemma SecondAcceptanceIsLate(guards: seq<Guard>, attempts: seq<Attempt>, i: nat, j: nat)
    requires GuardRun(guards, attempts) && i < j < |attempts|
    requires attempts[i].passed && attempts[j].passed
    requires attempts[i].username == attempts[j].username && attempts[i].code == attempts[j].code
    ensures attempts[j].recordedAt >= attempts[i].recordedAt + TOTP_REPLAY_TTL_SECS
  {
    var a := attempts[j];
    assert GuardStep(guards[j], a, guards[j + 1]);
    GuardRemembersLastAcceptances(guards, attempts, j, ReplayKey(a.username, a.code), a.recordedAt);
  }

  /** A code is accepted at most once for its step: with one clock reading per call, two accepted calls
      of one user with the code of the same step cannot both fall into its validity. */
  lemma CodeOfAStepAcceptedOnce(guards: seq<Guard>, attempts: seq<Attempt>, i: nat, j: nat, step: int)
    requires GuardRun(guards, attempts) && i < |attempts| && j < |attempts|
    requires attempts[i].passed && attempts[j].passed
    requires attempts[i].username == attempts[j].username && attempts[i].code == attempts[j].code
    requires ValidFor(step, attempts[i].checkedAt) && ValidFor(step, attempts[j].checkedAt)
    requires attempts[i].recordedAt == attempts[i].checkedAt && attempts[j].recordedAt == attempts[j].checkedAt
    ensures i == j
  {
    StepLastsNinetySeconds(step, attempts[i].checkedAt, attempts[j].checkedAt);
    StepLastsNinetySeconds(step, attempts[j].checkedAt, attempts[i].checkedAt);
    if i < j {
      SecondAcceptanceIsLate(guards, attempts, i, j);
    } else if j < i {
      SecondAcceptanceIsLate(guards, attempts, j, i);
    }
  }

  lemma StepLastsNinetySeconds(step: int, first: int, second: int)
    requires ValidFor(step, first) && ValidFor(step, second)
    ensures second < first + TOTP_REPLAY_TTL_SECS
  {
    assert first >= 30 * (step - 1);
    assert second < 30 * (step + 2);
  }

  /** With two readings per call the promise is exact too: a second call with the code of the same step,
      checked in time, passes the guard if and only if it reaches the guard 90 seconds or more after the
      first acceptance. */
  lemma DelayedReplayPassesIff(guards: seq<Guard>, attempts: seq<Attempt>, i: nat, n: nat, now: int)
    requires GuardRun(guards, attempts) && i < n <= |attempts| && attempts[i].passed
    requires forall m :: 0 <= m < n ==> attempts[m].recordedAt <= now
    requires forall m :: 0 <= m < n && m != i && attempts[m].passed ==>
      attempts[m].username != attempts[i].username || attempts[m].code != attempts[i].code
    ensures ReplayKey(attempts[i].username, attempts[i].code) !in Pruned(guards[n], now)
      <==> now >= attempts[i].recordedAt + TOTP_REPLAY_TTL_SECS
  {
    var key := ReplayKey(attempts[i].username, attempts[i].code);
    GuardRemembersLastAcceptances(guards, attempts, n, key, now);
    forall m | 0 <= m < n && attempts[m].passed && ReplayKey(attempts[m].username, attempts[m].code) == key
      ensures m == i
    {
      assert GuardStep(guards[m], attempts[m], guards[m + 1]) && GuardStep(guards[i], attempts[i], guards[i + 1]);
      ReplayKeyIsInjective(attempts[m].username, attempts[m].code, attempts[i].username, attempts[i].code);
    }
  }

  // ---- runs of the login ----------------------------------------------------------------------------------

  /** One call of `VerifyLoginTotp`, with the tables it found and what it returned. */
  datatype LoginCall = LoginCall(
    db: Database,
    creds: Credentials,
    username: string,
    password: Bytes,
    code: string,
    checkedAt: int,
    recordedAt: int,
    result: Result<bool>)
  {
    function Marked(passed: bool): Attempt {
      Attempt(username, code, checkedAt, recordedAt, passed)
    }

    /** The user has a second factor and was let in. */
    ghost predicate Accepted() {
      Enabled(db, username) && result == Ok(true)
    }
  }

  /** What a call does to the guard: one that lets in a user with a second factor has proved the code
      current and passed the guard; one that refuses has not. */
  ghost predicate LoginStep(s: Suite, g: Generator, before: Guard, c: LoginCall, after: Guard) {
    && (GuardStep(before, c.Marked(true), after) || GuardStep(before, c.Marked(false), after))
    && (c.Accepted() ==>
          && IsValidTotpCode(c.code)
          && ProvesSecondFactor(s, g, c.db, c.creds, c.username, c.password, c.code, c.checkedAt)
          && GuardStep(before, c.Marked(true), after))
    && (c.result == Ok(false) ==> GuardStep(before, c.Marked(false), after))
  }

  lemma RefusedStep(s: Suite, g: Generator, guard: Guard, c: LoginCall, after: Guard)
    requires !c.Accepted() && (after == guard || after == Pruned(guard, c.recordedAt))
    ensures LoginStep(s, g, guard, c, after)
  {
    hide IsValidTotpCode, ProvesSecondFactor, Pruned, GuardAccepts, Enabled;
  }

  lemma AnsweredStep(s: Suite, g: Generator, guard: Guard, c: LoginCall, after: Guard)
    requires IsValidTotpCode(c.code)
    requires if c.result == Ok(true) then
               && ProvesSecondFactor(s, g, c.db, c.creds, c.username, c.password, c.code, c.checkedAt)
               && GuardAccepts(guard, c.username, c.code, c.recordedAt, after)
             else after == guard || after == Pruned(guard, c.recordedAt)
    ensures LoginStep(s, g, guard, c, after)
  {
    assert |c.code| == TOTP_DIGITS;
    hide IsValidTotpCode, ProvesSecondFactor, Pruned, GuardAccepts, Enabled;
  }

  lemma FailedAfterwards(s: Suite, g: Generator, guard: Guard, c: LoginCall, after: Guard, error: AppError)
    requires LoginStep(s, g, guard, c, after)
    ensures LoginStep(s, g, guard, c.(result := Err(error)), after)
  {
    hide IsValidTotpCode, ProvesSecondFactor, GuardStep, Enabled;
  }

  /** Calls one after another from an empty guard, on a clock that does not go back; between two calls
      accounts, passwords and stored secrets may change in any way. */
  ghost predicate LoginRun(s: Suite, g: Generator, guards: seq<Guard>, calls: seq<LoginCall>) {
    && |guards| == |calls| + 1
    && guards[0] == map[]
    && (forall i :: 0 <= i < |calls| ==> LoginStep(s, g, guards[i], calls[i], guards[i + 1]))
    && (forall i :: 0 <= i < |calls| ==> calls[i].checkedAt <= calls[i].recordedAt)
    && (forall i, j :: 0 <= i < j < |calls| ==> calls[i].recordedAt <= calls[j].checkedAt)
  }

  /** The guard sees a run of the login as a run of attempts, in which every accepted call has passed. */
  lemma LoginRunIsGuardRun(s: Suite, g: Generator, guards: seq<Guard>, calls: seq<LoginCall>) returns (attempts: seq<Attempt>)
    requires LoginRun(s, g, guards, calls)
    ensures GuardRun(guards, attempts) && |attempts| == |calls|
    ensures forall i :: 0 <= i < |calls| ==>
      attempts[i] == calls[i].Marked(attempts[i].passed) && (calls[i].Accepted() ==> attempts[i].passed)
  {
    hide GuardStep, LoginStep, LoginCall.Accepted, AttemptOf;
    attempts := seq(|calls|, i requires 0 <= i < |calls| => AttemptOf(guards[i], calls[i], guards[i + 1]));
    forall i | 0 <= i < |attempts|
      ensures GuardStep(guards[i], attempts[i], guards[i + 1]) && attempts[i] == calls[i].Marked(attempts[i].passed)
      ensures calls[i].Accepted() ==> attempts[i].passed
    {
      assert LoginStep(s, g, guards[i], calls[i], guards[i + 1]);
      MarkedStep(s, g, guards[i], calls[i], guards[i + 1]);
    }
  }

  /** The attempt a call is for the guard. */
  ghost function AttemptOf(before: Guard, c: LoginCall, after: Guard): Attempt {
    c.Marked(GuardStep(before, c.Marked(true), after))
  }

  lemma MarkedStep(s: Suite, g: Generator, before: Guard, c: LoginCall, after: Guard)
    requires LoginStep(s, g, before, c, after)
    ensures var a := AttemptOf(before, c, after);
      GuardStep(before, a, after) && a == c.Marked(a.passed) && (c.Accepted() ==> a.passed)
  {
    hide GuardStep, ProvesSecondFactor, IsValidTotpCode, LoginCall.Accepted;
  }

  /** An accepted code is that of a step of the user's secret, valid when it was checked. */
  lemma AcceptedCodeIsCurrent(s: Suite, g: Generator, guards: seq<Guard>, calls: seq<LoginCall>, i: nat)
    requires LoginRun(s, g, guards, calls) && i < |calls| && calls[i].Accepted()
    ensures exists secret, step ::
      g.wellFormed(secret) && ValidFor(step, calls[i].checkedAt) && g.code(secret, step) == calls[i].code
  {
    hide ReadStored, OpensFor, GuardStep, IsValidTotpCode;
    var c := calls[i];
    assert LoginStep(s, g, guards[i], c, guards[i + 1]);
    var u, key :| u in c.db.users && c.db.users[u].username == c.username
      && OpensFor(s, c.creds, c.username, c.password, key) && c.db.users[u].totpSecret.Some?
      && CurrentCode(s, g, ReadStored(s, c.db.users[u].totpSecret.value, key), c.code, c.checkedAt);
    var secret := s.fromUtf8(ReadStored(s, c.db.users[u].totpSecret.value, key).plain).value;
    var step: int :| c.checkedAt / TOTP_STEP - TOTP_SKEW <= step <= c.checkedAt / TOTP_STEP + TOTP_SKEW
      && g.code(secret, step) == c.code;
    assert ValidFor(step, c.checkedAt);
  }

  /** The code a secret has in one step lets its user in at most once, on either path and whatever else
      happens, as long as each call reads the clock once. */
  lemma LoginCodeAcceptedOnce(s: Suite, g: Generator, guards: seq<Guard>, calls: seq<LoginCall>, i: nat, j: nat,
                              secret: string, step: int)
    requires LoginRun(s, g, guards, calls) && i < |calls| && j < |calls|
    requires calls[i].Accepted() && calls[j].Accepted() && calls[i].username == calls[j].username
    requires calls[i].code == g.code(secret, step) && calls[j].code == g.code(secret, step)
    requires ValidFor(step, calls[i].checkedAt) && ValidFor(step, calls[j].checkedAt)
    requires calls[i].recordedAt == calls[i].checkedAt && calls[j].recordedAt == calls[j].checkedAt
    ensures i == j
  {
    hide LoginRun, GuardRun, Enabled;
    var attempts := LoginRunIsGuardRun(s, g, guards, calls);
    CodeOfAStepAcceptedOnce(guards, attempts, i, j, step);
  }
}
