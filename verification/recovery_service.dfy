/** Back into a restored database with nothing but the phrase, and what must have been stored for that. */
module RecoveryServices {
  import opened Wrappers
  import opened Text
  import opened Crypto
  import opened PasswordEnvelopes
  import opened AccountKeys
  import opened Tables
  import opened RekeyService
  import opened AuthPolicyServices
  import opened AuthServices
  import opened SecretRepository
  import opened KeyHierarchy
  import opened HierarchyRuns

  method OnlyUser(db: Database) returns (r: Result<UserId>)
    ensures r.Ok? <==> SingleAccount(db)
    ensures r.Ok? ==> db.users.Keys == {r.value}
    ensures r.Err? ==> r.error == if db.users == map[] then NoAccount else MultipleAccounts
  {
    if db.users == map[] {
      return Err(NoAccount);
    }
    if |db.users| != 1 {
      return Err(MultipleAccounts);
    }
    assert db.users.Keys != {};
    var user :| user in db.users.Keys;
    OnlyKey(db.users.Keys, user);
    r := Ok(user);
  }

  /** A new password for `u` under the key its backup gives, and a report of the old one. */
  ghost predicate BackupReset(s: Suite, before: Database, after: Database, u: UserId, phrase: string, newPassword: string,
                              newKey: Bytes)
  {
    && u in before.users && BackupKey(s, before.users[u], phrase).Ok?
    && var key := BackupKey(s, before.users[u], phrase).value;
       if Wrappable(s, key) || !UsesAccountKey(before, u) then
         ResetFromBackup(s, before, after, u, key, phrase, newPassword, newKey)
       else
         && u in after.users && after.users[u].passwordEnvelope.Some?
         && !Opens(s, after.users[u].passwordEnvelope.value, newPassword, key)
  }

  /** The report is that of the operation the stored format calls for. */
  ghost predicate BackupReported(s: Suite, before: Database, after: Database, u: UserId, phrase: string, report: RekeyReport) {
    && u in before.users && u in after.users && BackupKey(s, before.users[u], phrase).Ok?
    && var key := BackupKey(s, before.users[u], phrase).value;
       if UsesAccountKey(before, u) then ReplacementReported(s, before, after, u, key, report)
       else ReportIsRight(s, before, after, u, key, SealedAccountKey(Some(phrase)), report)
  }

  /** Succeeds exactly when there is one account, its key is found with the phrase, and that key opens
      every accessible vault; otherwise the restored database is unchanged. A recovered account key too
      long to be wrapped again is the one case in which the new password then does not open it. */
  method ResetMasterPasswordFromBackup(s: Suite, pool: Pool, phrase: string, newPassword: string) returns (r: Result<RekeyReport>)
    requires s.Ideal()
    modifies pool
    ensures r.Ok? <==>
      && SingleAccount(old(pool.db))
      && exists u :: u in old(pool.db.users) && BackupKey(s, old(pool.db.users)[u], phrase).Ok?
           && OpensEveryVault(s, old(pool.db), u, BackupKey(s, old(pool.db.users)[u], phrase).value)
    ensures r.Err? ==> pool.db == old(pool.db)
    ensures r.Ok? ==> exists u, newKey ::
      && BackupReset(s, old(pool.db), pool.db, u, phrase, newPassword, newKey)
      && BackupReported(s, old(pool.db), pool.db, u, phrase, r.value)
    // Nothing holds the account back at its next login, and no other name's row has changed.
    ensures r.Ok? ==> forall u :: u in old(pool.db.users) && !IsBlank(old(pool.db.users)[u].username) ==>
      var name := old(pool.db.users)[u].username;
      && name in pool.db.policy && pool.db.policy[name].failedAttempts == 0
      && (forall now :: RemainingLockSecs(0, pool.db.policy[name].lastAttemptAt, now) == 0)
      && pool.db.policy - {name} == old(pool.db.policy) - {name}
    ensures r.Ok? ==> forall u :: u in old(pool.db.users) && IsBlank(old(pool.db.users)[u].username) ==>
      pool.db.policy == old(pool.db.policy)
  {
    hide Suite.Ideal, FailureExplained, Wrappable, Encode, KeyedLive, BackoffDelaySecs, Shifted, Opens, Rekeyed, Counted, OpensEveryVault, OpenWithRecoveryPhrase;
    var user :- OnlyUser(pool.db);
    ghost var before := pool.db;
    var row := pool.db.users[user];
    var key :- BackupKey(s, row, phrase);
    assert forall u :: u in before.users ==> u == user;
    var outcome;
    if Decode(row.passwordEnvelope.value).value.AccountKey? {
      outcome :- ReplacePassword(s, pool, user, key, newPassword);
    } else {
      outcome :- MigrateToAccountKey(s, pool, user, key, newPassword, Some(phrase));
    }
    ghost var rekeyed := pool.db;
    var policy := new SqlxAuthPolicyService(pool);
    policy.ResetFailedAttempts(row.username);
    r := Ok(outcome.report);
    assert pool.db.(policy := before.policy) == rekeyed;
    assert BackupReset(s, before, pool.db, user, phrase, newPassword, outcome.sessionKey);
    assert BackupReported(s, before, pool.db, user, phrase, outcome.report);
  }

  /** From any represented state the reset succeeds, unless a lost vault is live again: with an account
      key when the phrase is the one the account is known by, however it is retyped; in the legacy form
      with any phrase. */
  lemma RepresentedBackupResets(s: Suite, w: World, p: Plain, k: Keyring, u: UserId, typed: string)
    requires s.Ideal()
    requires Represents(s, w, p, k) && SingleAccount(w.db) && u in w.db.users
    requires UsesAccountKey(w.db, u) ==> u in p.phrases && SameWords(s, typed, p.phrases[u])
    ensures u in k.accounts && BackupKey(s, w.db.users[u], typed) == Ok(k.accounts[u])
    ensures Wrappable(s, k.accounts[u])
    ensures p.NothingLostIsLive(u) ==> OpensEveryVault(s, w.db, u, k.accounts[u])
  {
    hide Represents, SealedWith, SameWords, OpensEveryVault, BackupKey, Opens, Plain.NothingLostIsLive;
    BackupGivesAccountKey(s, w, p, k, u, typed);
    if p.NothingLostIsLive(u) {
      RepresentedAccountRekeys(s, w, p, k, u);
    }
    StoredAccount(s, w, p, k, u);
  }

  /** Writes nothing when the phrase already leads to this account key; says whether it wrote. */
  method EnsureRecoveryKey(s: Suite, pool: Pool, user: UserId, accountKey: Key, phrase: string) returns (r: Result<bool>)
    requires s.Ideal()
    modifies pool
    ensures r.Ok? <==> user in old(pool.db.users)
    ensures r.Err? ==> r.error == NotFound && pool.db == old(pool.db)
    ensures r.Ok? ==> RecoverySealed(s, old(pool.db), pool.db, user, phrase, accountKey)
    ensures r.Ok? ==> (!r.value <==>
      old(pool.db.users)[user].recoveryKeyEnvelope.Some?
      && OpenWithRecoveryPhrase(s, phrase, old(pool.db.users)[user].recoveryKeyEnvelope.value) == Ok(accountKey))
    ensures r == Ok(false) ==> pool.db == old(pool.db)
  {
    hide OpenWithRecoveryPhrase, SameWords;
    if user in pool.db.users && pool.db.users[user].recoveryKeyEnvelope.Some? {
      var existing := pool.db.users[user].recoveryKeyEnvelope.value;
      if OpenWithRecoveryPhrase(s, phrase, existing) == Ok(accountKey) {
        forall typed: string | SameWords(s, typed, phrase)
          ensures OpenWithRecoveryPhrase(s, typed, existing) == Ok(accountKey)
        {
          PhraseOpensHoweverTyped(s, existing, phrase, typed);
        }
        return Ok(false);
      }
    }
    var envelope := SealWithRecoveryPhrase(s, phrase, accountKey);
    if user !in pool.db.users {
      return Err(NotFound);
    }
    var row := pool.db.users[user].(recoveryKeyEnvelope := Some(envelope));
    pool.db := pool.db.(users := pool.db.users[user := row]);
    r := Ok(true);
  }
}
