/** The first account, and further accounts as the administration interface describes them. */
module AdminServices {
  import opened Wrappers
  import opened Text
  import opened Crypto
  import opened PasswordEnvelopes
  import opened AccountKeys
  import opened Tables
  import opened RekeyService
  import opened AuthServices
  import opened KeyHierarchy
  import opened HierarchyRuns

  class AdminService {
    const suite: Suite
    const pool: Pool
    const auth: AuthService

    constructor (pool: Pool, auth: AuthService)
      ensures this.suite == auth.suite && this.pool == pool && this.auth == auth
    {
      this.suite, this.pool, this.auth := auth.suite, pool, auth;
    }

    ghost function Now(): World
      reads pool, auth
    {
      World(pool.db, auth.credentials)
    }

    /** Only on an empty database; memory is filled first, then the row is written column by column. */
    method BootstrapFirstAdmin(username: string, password: Bytes, phrase: string) returns (r: Result<(UserId, Bytes)>)
      requires suite == auth.suite && suite.Ideal()
      modifies pool, auth`credentials
      ensures r.Ok? <==>
        old(pool.db.users) == map[] && !IsBlank(username) && suite.fromUtf8(password).Some? && !auth.shutdown
      ensures r.Err? ==> Now() == old(Now())
      ensures old(pool.db.users) != map[] ==> r == Err(Conflict)
      ensures old(pool.db.users) == map[] && (IsBlank(username) || suite.fromUtf8(password).None?) ==> r == Err(Validation)
      ensures (old(pool.db.users) == map[] && !IsBlank(username) && suite.fromUtf8(password).Some? && auth.shutdown) ==>
        r == Err(ShutdownInProgress)
      ensures r.Ok? ==>
        && Bootstrapped(suite, old(Now()), Now(), r.value.0, suite.fromUtf8(password).value, phrase, r.value.1)
        && pool.db.users[r.value.0].username == Trim(username)
    {
      hide Opens, OpenWithRecoveryPhrase, SameWords, Decode, Bootstrapped, Suite.Ideal, IsBlank, Trim, IsAccountKey;
      if pool.db.users != map[] {
        return Err(Conflict);
      }
      var trimmed := Trim(username);
      if trimmed == [] {
        return Err(Validation);
      }
      var text :- DecodeText(suite, password);
      var accountKey, bytes := NewAccountKey(suite, text);
      var _ :- auth.UpsertPasswordEnvelope(trimmed, bytes);
      var user := GenerateId(pool.db.users.Keys);
      var row := UserRow(trimmed, None, None, None, None);
      pool.db := pool.db.(users := pool.db.users[user := row]);
      row := row.(passwordEnvelope := Some(bytes));
      pool.db := pool.db.(users := pool.db.users[user := row]);
      var sealed := SealWithRecoveryPhrase(suite, phrase, accountKey);
      row := row.(recoveryKeyEnvelope := Some(sealed));
      pool.db := pool.db.(users := pool.db.users[user := row]);
      r := Ok((user, accountKey));
      BootstrapIsComplete(suite, old(Now()), Now(), user, row, text, phrase, accountKey);
    }

    /** Credentials in memory first, which applies the single-account rule, then the user row. */
    method CreateUser(username: string, password: Bytes) returns (r: Result<UserId>)
      requires suite == auth.suite && suite.Ideal()
      requires forall u :: u in pool.db.users ==> pool.db.users[u].username in auth.credentials
      modifies pool, auth`credentials
      ensures r.Ok? <==>
        && !auth.shutdown && !IsBlank(username) && username !in old(auth.credentials)
        && !HasAccountKeyUser(old(auth.credentials)) && suite.fromUtf8(password).Some?
      ensures (&& !auth.shutdown && !IsBlank(username) && username !in old(auth.credentials)
               && suite.fromUtf8(password).Some?
               && forall name :: name in old(auth.credentials) && old(auth.credentials)[name] != [] ==>
                    old(auth.credentials)[name][0] != 2) ==> r.Ok?
      ensures r.Err? ==> Now() == old(Now())
      ensures r.Ok? ==>
        && suite.fromUtf8(password).Some?
        && exists key :: AccountAdded(suite, old(Now()), Now(), r.value, suite.fromUtf8(password).value, key)
      ensures r.Ok? ==> pool.db.users[r.value].username == username
    {
      var user := GenerateId(pool.db.users.Keys);
      var _ :- auth.CreateUser(username, password);
      var envelope := auth.credentials[username];
      var row := UserRow(username, Some(envelope), None, None, None);
      pool.db := pool.db.(users := pool.db.users[user := row]);
      r := Ok(user);
      VersionByte(envelope);
      ghost var key: Key :| Opens(suite, envelope, suite.fromUtf8(password).value, key);
      assert AccountAdded(suite, old(Now()), Now(), user, suite.fromUtf8(password).value, key);
    }
  }

  method NewAccountKey(s: Suite, password: string) returns (accountKey: Key, stored: Bytes)
    requires s.Ideal()
    ensures Opens(s, stored, password, accountKey) && IsAccountKey(stored) && Decode(stored).Ok?
  {
    hide Opens, Decode, Encode;
    accountKey := GenerateKey();
    var envelope := WrapAccountKey(s, password, accountKey);
    stored := Encode(envelope);
    DecodeUndoesEncode(envelope);
  }

  lemma BootstrapIsComplete(s: Suite, w: World, w': World, u: UserId, row: UserRow, password: string, phrase: string, key: Bytes)
    requires w.db.users == map[] && !IsBlank(row.username) && row.totpSecret.None?
    requires row.passwordEnvelope.Some? && IsAccountKey(row.passwordEnvelope.value)
    requires Opens(s, row.passwordEnvelope.value, password, key) && |key| == KEY_LEN
    requires SealedWith(s, row.recoveryKeyEnvelope, phrase, key)
    requires w'.db == w.db.(users := w.db.users[u := row])
    requires w'.creds == w.creds[row.username := row.passwordEnvelope.value]
    ensures Bootstrapped(s, w, w', u, password, phrase, key)
  {
    hide Opens, SealedWith, IsAccountKey, IsBlank;
  }

  lemma VersionByte(stored: Bytes)
    ensures IsAccountKey(stored) ==> StartsAsAccountKey(stored)
  {
  }
}
