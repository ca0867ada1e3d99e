/** Password change and the upgrade of legacy credentials, as the user service runs them. */
module UserServices {
  import opened Wrappers
  import opened Text
  import opened Crypto
  import opened PasswordEnvelopes
  import opened Tables
  import opened RekeyService
  import opened AuthServices
  import opened KeyHierarchy
  import opened HierarchyRuns

  const MIN_MASTER_PASSWORD_LEN: nat := 16

  class UserService {
    const suite: Suite
    const pool: Pool
    const auth: AuthService

    constructor (pool: Pool, auth: AuthService)
      ensures this.suite == auth.suite && this.pool == pool && this.auth == auth
    {
      this.suite, this.pool, this.auth := auth.suite, pool, auth;
    }

    ghost function Now(): World
      reads pool, auth
    {
      World(pool.db, auth.credentials)
    }

    /** The current password opens the in-memory envelope of this user. */
    ghost predicate Authenticates(user: UserId, password: Bytes, key: Bytes)
      reads pool, auth
    {
      && !auth.shutdown && user in pool.db.users
      && pool.db.users[user].username in auth.credentials
      && suite.fromUtf8(password).Some?
      && Opens(suite, auth.credentials[pool.db.users[user].username], suite.fromUtf8(password).value, key)
    }

    /** The only account, still in the legacy form, whose password opens everything. */
    ghost predicate Upgradable(user: UserId, username: string, password: Bytes, key: Bytes)
      reads pool, auth
    {
      && SingleAccount(pool.db) && Authenticates(user, password, key) && pool.db.users[user].username == username
      && !IsAccountKey(auth.credentials[username]) && OpensEveryVault(suite, pool.db, user, key)
    }

    /** Succeeds exactly for a visible username, a new, different, long enough password and a current one
        that opens a key which opens every accessible vault; then one of the three branches was taken and
        memory holds the stored envelope. Otherwise nothing changed, but for a blank username, which memory
        refuses after the database has been written. */
    method ChangeMasterPassword(user: UserId, current: Bytes, newPassword: Bytes) returns (r: Result<Bytes>)
      requires suite == auth.suite && suite.Ideal()
      modifies pool, auth`credentials
      ensures r.Ok? <==>
        && |newPassword| >= MIN_MASTER_PASSWORD_LEN && current != newPassword && suite.fromUtf8(newPassword).Some?
        && (user in old(pool.db.users) ==> !IsBlank(old(pool.db.users)[user].username))
        && exists key :: old(Authenticates(user, current, key)) && OpensEveryVault(suite, old(pool.db), user, key)
      ensures r.Err? ==> auth.credentials == old(auth.credentials)
      ensures user !in old(pool.db.users) ==> r == Err(NotFound)
      ensures (&& user in old(pool.db.users)
               && (|newPassword| < 16 || current == newPassword || suite.fromUtf8(newPassword).None?)) ==>
        r == Err(Validation)
      ensures (&& user in old(pool.db.users) && |newPassword| >= 16 && current != newPassword && suite.fromUtf8(newPassword).Some?
               && !auth.shutdown && old(pool.db.users)[user].username !in old(auth.credentials)) ==>
        r == Err(InvalidCredentials)
      ensures (&& user in old(pool.db.users) && IsBlank(old(pool.db.users)[user].username)
               && |newPassword| >= MIN_MASTER_PASSWORD_LEN && current != newPassword && suite.fromUtf8(newPassword).Some?
               && exists key :: old(Authenticates(user, current, key)) && OpensEveryVault(suite, old(pool.db), user, key)) ==>
        && r == Err(Validation)
        && exists key, newKey ::
             && old(Authenticates(user, current, key))
             && LeftBehind(suite, old(Now()), Now(), user, key, suite.fromUtf8(newPassword).value, newKey)
      ensures r.Err? ==>
        (pool.db == old(pool.db) || (user in old(pool.db.users) && IsBlank(old(pool.db.users)[user].username)))
      ensures r.Ok? ==> (exists key ::
        && old(Authenticates(user, current, key)) && OpensEveryVault(suite, old(pool.db), user, key)
        && PasswordChanged(suite, old(Now()), Now(), user, key, suite.fromUtf8(newPassword).value, r.value))
    {
      hide Opens, PasswordChanged, OpensEveryVault, Suite.Ideal, Wrappable, Rekeyed, PasswordReplaced, IsBlank, LeftBehind;
      if user !in pool.db.users {
        return Err(NotFound);
      }
      var username := pool.db.users[user].username;
      if |newPassword| < MIN_MASTER_PASSWORD_LEN {
        return Err(Validation);
      }
      if current == newPassword {
        return Err(Validation);
      }
      var text :- DecodeText(suite, newPassword);
      var unlocked :- auth.DeriveKeyIfValid(username, current);
      if unlocked.None? {
        return Err(InvalidCredentials);
      }
      var key := unlocked.value;
      assert Authenticates(user, current, key);
      ghost var before := Now();
      assert Opens(suite, auth.credentials[username], suite.fromUtf8(current).value, key);
      var outcome :- ChangeKeys(user, key, text);
      var upserted := auth.UpsertPasswordEnvelope(username, outcome.passwordEnvelope);
      TakenOrLeft(suite, before, Now(), user, key, text, outcome);
      r := match upserted
           case Ok(_) => Ok(outcome.sessionKey)
           case Err(error) => Err(error);
    }

    /** One of the three branches: the same key behind another password, an account key for a lone legacy
        account, another derived key for one of several. */
    method ChangeKeys(user: UserId, key: Bytes, text: string) returns (r: Result<RekeyOutcome>)
      requires suite == auth.suite && suite.Ideal()
      requires user in pool.db.users && pool.db.users[user].username in auth.credentials
      requires exists current :: Opens(suite, auth.credentials[pool.db.users[user].username], current, key)
      modifies pool
      ensures r.Ok? <==> OpensEveryVault(suite, old(pool.db), user, key)
      ensures r.Err? ==> pool.db == old(pool.db)
      ensures r.Ok? ==> Written(suite, old(Now()), pool.db, user, key, text, r.value)
    {
      hide Opens, PasswordChanged, OpensEveryVault, Suite.Ideal, Wrappable, VaultsRewrapped, SharesRewrapped, RecoveryRewritten,
        RewrittenBlob, Counted;
      ghost var before := Now();
      ghost var current :| Opens(suite, auth.credentials[pool.db.users[user].username], current, key);
      UnlockedKeyIsWrappable(suite, auth.credentials[pool.db.users[user].username], current, key);
      // The envelope was decoded to unlock it, so reading its version again cannot fail.
      var outcome;
      if IsAccountKey(auth.credentials[pool.db.users[user].username]) {
        outcome :- ReplacePassword(suite, pool, user, key, text);
      } else if SingleAccount(pool.db) {
        outcome :- MigrateToAccountKey(suite, pool, user, key, text, None);
      } else {
        outcome :- RekeyLegacyAccount(suite, pool, user, key, text);
      }
      OpenedIsDecoded(suite, outcome.passwordEnvelope, text, outcome.sessionKey);
      ghost var complete := World(pool.db, before.creds[before.db.users[user].username := outcome.passwordEnvelope]);
      ChangeIsComplete(suite, before, complete, user, key, text, outcome.sessionKey, outcome.passwordEnvelope);
      r := Ok(outcome);
    }

    /** The one legacy account of a database gets an account key behind the password it has. The answer is
        `None` when there was no such work, and then nothing is written. */
    method UpgradeLegacyCredentials(username: string, password: Bytes) returns (r: Result<Option<Bytes>>)
      requires suite == auth.suite && suite.Ideal()
      modifies pool, auth`credentials
      ensures r.Err? || r.value.None? ==> auth.credentials == old(auth.credentials)
      ensures r.Err? || r.value.None? ==> (pool.db == old(pool.db) || (r.Err? && IsBlank(username)))
      ensures old(!auth.shutdown && username in auth.credentials && IsAccountKey(auth.credentials[username])) ==>
        r == Ok(None)
      ensures !auth.shutdown && username !in old(auth.credentials) ==> r == Err(InvalidCredentials)
      ensures auth.shutdown ==> r == Err(ShutdownInProgress)
      ensures (old(!auth.shutdown && username in auth.credentials && Decode(auth.credentials[username]).Ok?)
               && !SingleAccount(old(pool.db))) ==> r == Ok(None)
      ensures forall user, key :: old(Upgradable(user, username, password, key)) ==>
        if IsBlank(username) then
          && r == Err(Validation)
          && exists newKey :: LeftBehind(suite, old(Now()), Now(), user, key, suite.fromUtf8(password).value, newKey)
        else r.Ok? && r.value.Some?
      ensures r.Ok? && r.value.Some? ==>
        exists user, key ::
          && old(Upgradable(user, username, password, key))
          && PasswordChanged(suite, old(Now()), Now(), user, key, suite.fromUtf8(password).value, r.value.value)
    {
      hide Opens, PasswordChanged, OpensEveryVault, Suite.Ideal, Wrappable, Rekeyed, PasswordReplaced, IsBlank, LeftBehind,
        Written;
      forall u, key | Upgradable(u, username, password, key)
        ensures Decode(auth.credentials[username]).Ok?
      {
        OpenedIsDecoded(suite, auth.credentials[username], suite.fromUtf8(password).value, key);
      }
      var envelope :- auth.GetPasswordEnvelope(username);
      var stored :- Decode(envelope);
      if stored.AccountKey? || !SingleAccount(pool.db) {
        return Ok(None);
      }
      var named := set u | u in pool.db.users && pool.db.users[u].username == username;
      assert forall u :: u in pool.db.users && pool.db.users[u].username == username ==> u in named;
      if named == {} {
        return Err(NotFound);
      }
      var user :| user in named;
      OnlyKey(pool.db.users.Keys, user);
      var text :- DecodeText(suite, password);
      var unlocked :- auth.DeriveKeyIfValid(username, password);
      if unlocked.None? {
        return Err(InvalidCredentials);
      }
      var key := unlocked.value;
      assert SingleAccount(pool.db) && Authenticates(user, password, key) && !IsAccountKey(auth.credentials[username]);
      assert OpensEveryVault(suite, pool.db, user, key) ==> Upgradable(user, username, password, key);
      assert forall u, k :: Upgradable(u, username, password, k) ==> u == user;
      ghost var before := Now();
      var outcome :- MigrateToAccountKey(suite, pool, user, key, text, None);
      MigrationIsWritten(suite, before, pool.db, user, key, text, outcome);
      OpenedIsDecoded(suite, outcome.passwordEnvelope, text, outcome.sessionKey);
      var upserted := auth.UpsertPasswordEnvelope(username, outcome.passwordEnvelope);
      TakenOrLeft(suite, before, Now(), user, key, text, outcome);
      r := match upserted
           case Ok(_) => Ok(Some(outcome.sessionKey))
           case Err(error) => Err(error);
    }
  }

  /** The database of a complete password change, for which memory still has to take the new envelope. */
  ghost predicate Written(s: Suite, w: World, db: Database, u: UserId, oldKey: Bytes, newPassword: string, outcome: RekeyOutcome)
  {
    && u in w.db.users && u in db.users
    && db.users[u].passwordEnvelope == Some(outcome.passwordEnvelope) && Decode(outcome.passwordEnvelope).Ok?
    && PasswordChanged(s, w, World(db, w.creds[w.db.users[u].username := outcome.passwordEnvelope]), u, oldKey, newPassword,
                       outcome.sessionKey)
  }

  lemma MigrationIsWritten(s: Suite, w: World, db: Database, u: UserId, oldKey: Bytes, password: string, outcome: RekeyOutcome)
    requires u in w.db.users && w.db.users[u].username in w.creds && SingleAccount(w.db)
    requires !IsAccountKey(w.creds[w.db.users[u].username])
    requires Rekeyed(s, w.db, db, u, oldKey, outcome.sessionKey, outcome.passwordEnvelope, SealedAccountKey(None))
    requires IsAccountKey(outcome.passwordEnvelope) && Opens(s, outcome.passwordEnvelope, password, outcome.sessionKey)
    requires |outcome.sessionKey| == KEY_LEN
    ensures Written(s, w, db, u, oldKey, password, outcome)
  {
    hide Unlock, VaultsRewrapped, SharesRewrapped, RecoveryRewritten, RewrittenBlob;
  }

  lemma TakenOrLeft(s: Suite, w: World, w': World, u: UserId, oldKey: Bytes, newPassword: string, outcome: RekeyOutcome)
    requires Written(s, w, w'.db, u, oldKey, newPassword, outcome)
    ensures w'.creds == w.creds[w.db.users[u].username := outcome.passwordEnvelope] ==>
      PasswordChanged(s, w, w', u, oldKey, newPassword, outcome.sessionKey)
    ensures w'.creds == w.creds ==> LeftBehind(s, w, w', u, oldKey, newPassword, outcome.sessionKey)
  {
    hide PasswordChanged;
  }

  /** The database of a complete password change, with memory as it was before. */
  ghost predicate LeftBehind(s: Suite, w: World, w': World, u: UserId, oldKey: Bytes, newPassword: string, newKey: Bytes) {
    && w'.creds == w.creds
    && u in w.db.users && u in w'.db.users && w'.db.users[u].passwordEnvelope.Some?
    && var stored := w'.db.users[u].passwordEnvelope.value;
       PasswordChanged(s, w, World(w'.db, w.creds[w.db.users[u].username := stored]), u, oldKey, newPassword, newKey)
  }

  lemma ChangeIsComplete(s: Suite, w: World, w': World, u: UserId, oldKey: Bytes, newPassword: string, newKey: Bytes, stored: Bytes)
    requires u in w.db.users && u in w'.db.users && w'.db.users[u].passwordEnvelope == Some(stored)
    requires Opens(s, stored, newPassword, newKey)
    requires w.db.users[u].username in w.creds
    requires w'.creds == w.creds[w.db.users[u].username := stored]
    requires if IsAccountKey(w.creds[w.db.users[u].username]) then
               PasswordReplaced(w.db, w'.db, u, stored) && newKey == oldKey && IsAccountKey(stored)
             else
               && |newKey| == KEY_LEN
               && (IsAccountKey(stored) <==> SingleAccount(w.db))
               && Rekeyed(s, w.db, w'.db, u, oldKey, newKey, stored,
                          if SingleAccount(w.db) then SealedAccountKey(None) else LegacyPhraseEnvelope)
    ensures PasswordChanged(s, w, w', u, oldKey, newPassword, newKey)
  {
  }
}
