/** The services wired to one database, with the plain state they stand for. Each call is a step of
    `HierarchyRuns`, so the representation holds before and after, and for the right session key the
    calls also succeed. */
module Applications {
  import opened Wrappers
  import opened Text
  import opened Crypto
  import opened PasswordEnvelopes
  import opened AccountKeys
  import opened Tables
  import opened VaultRepository
  import opened RekeyService
  import opened AuthServices
  import opened SecretRepository
  import opened Access
  import opened KeyHierarchy
  import opened HierarchyRuns
  import opened LostVaults
  import opened UserServices
  import opened AdminServices
  import opened VaultServices
  import opened SecretServices
  import opened RecoveryServices
  import opened AuthPolicyServices

  class Application {
    const suite: Suite
    const pool: Pool
    const auth: AuthService
    const repository: SqlxSecretRepository
    const users: UserService
    const admin: AdminService
    const vaults: VaultService
    const secrets: SecretService
    ghost var plain: Plain
    ghost var keys: Keyring

    ghost function Now(): World
      reads pool, auth
    {
      World(pool.db, auth.credentials)
    }

    ghost predicate Wired() {
      && suite.Ideal() && auth.suite == suite
      && repository.pool == pool
      && users.suite == suite && users.pool == pool && users.auth == auth
      && admin.suite == suite && admin.pool == pool && admin.auth == auth
      && vaults.suite == suite && vaults.pool == pool && vaults.secrets == repository
      && secrets.suite == suite && secrets.pool == pool && secrets.secrets == repository
    }

    ghost predicate Valid()
      reads this, pool, auth
    {
      Wired() && Represents(suite, Now(), plain, keys)
    }

    /** Starts on an empty database. */
    constructor (suite: Suite)
      requires suite.Ideal()
      ensures Valid() && LostIsShut() && fresh(pool) && fresh(auth) && !auth.shutdown && this.suite == suite
      ensures pool.db.users == map[] && plain == NOTHING
    {
      var pool := new Pool(Database(map[], map[], map[], map[], map[]));
      var auth := new AuthService(suite, map[]);
      var repository := new SqlxSecretRepository(pool);
      this.suite, this.pool, this.auth, this.repository := suite, pool, auth, repository;
      users := new UserService(pool, auth);
      admin := new AdminService(pool, auth);
      vaults := new VaultService(suite, pool, repository);
      secrets := new SecretService(suite, pool, repository);
      plain, keys := NOTHING, Keyring(map[], map[]);
      new;
      EmptyWorldRepresents(suite);
    }

    /** The plain state follows a step the services have taken. */
    ghost method Advance(w: World, step: Step, w': World)
      requires Wired() && Represents(suite, w, plain, keys)
      requires Next(suite, w, plain, step, w')
      modifies this`plain, this`keys
      ensures Represents(suite, w', plain, keys) && plain == PlainAfter(old(plain), step)
      ensures TouchesNoAccount(step) ==> forall u :: LoginKey(suite, w', plain, u) == LoginKey(suite, w, old(plain), u)
      ensures (LostShut(suite, w.db, old(plain), old(keys))
               && (TouchesNoAccount(step) || FreshStep(suite, w, old(plain), step, w'))) ==>
        LostShut(suite, w'.db, plain, keys)
    {
      hide Represents, Next, PlainAfter, LoginKey, LostShut, FreshStep;
      forall u | TouchesNoAccount(step)
        ensures LoginKey(suite, w', PlainAfter(plain, step), u) == LoginKey(suite, w, plain, u)
      {
        SessionsStay(suite, w, plain, step, w', u);
      }
      if TouchesNoAccount(step) {
        WorkIsFresh(suite, w, plain, step, w');
      }
      if LostShut(suite, w.db, plain, keys) && FreshStep(suite, w, plain, step, w') {
        keys := ShutStep(suite, w, w', plain, keys, step);
      } else {
        keys := StepKeeps(suite, w, w', plain, keys, step);
      }
      plain := PlainAfter(plain, step);
    }

    /** The session of a user who logged in with the current password. */
    ghost predicate Session(user: UserId, key: Bytes)
      reads this, pool, auth
    {
      LoginKey(suite, Now(), plain, user) == Some(key)
    }

    /** What was lost does not open again by chance. */
    ghost predicate LostIsShut()
      reads this, pool
    {
      LostShut(suite, pool.db, plain, keys)
    }

    /** Then `Opened` and `plain.CanOpen` are one. */
    lemma OpenedIff(user: UserId, v: VaultId)
      requires Valid() && LostIsShut()
      ensures Opened(user, v) <==> plain.CanOpen(user, v)
    {
      hide Represents, OpenedBy, LostShut;
      OpensIff(suite, Now(), plain, keys, user, v);
    }

    /** Every session of the earlier state goes on. */
    ghost predicate SessionsOf(w: World, p: Plain)
      reads this, pool, auth
    {
      forall u: UserId :: LoginKey(suite, Now(), plain, u) == LoginKey(suite, w, p, u)
    }

    /** The stored key of the vault opens with the current password of the user. */
    ghost predicate Opened(user: UserId, v: VaultId)
      reads this, pool, auth
    {
      OpenedBy(suite, Now(), plain, user, v).Some?
    }

    method Bootstrap(username: string, password: Bytes, phrase: string) returns (r: Result<(UserId, Bytes)>)
      requires Valid()
      modifies this`plain, this`keys, pool, auth`credentials
      ensures Valid()
      ensures r.Ok? <==>
        old(pool.db.users) == map[] && !IsBlank(username) && suite.fromUtf8(password).Some? && !auth.shutdown
      ensures r.Ok? ==>
        && plain == PlainAfter(old(plain), Step.Bootstrap(r.value.0, suite.fromUtf8(password).value, phrase))
        && Session(r.value.0, r.value.1)
      ensures r.Err? ==> plain == old(plain) && Now() == old(Now())
    {
      hide Represents, Bootstrapped;
      ghost var w := Now();
      r := admin.BootstrapFirstAdmin(username, password, phrase);
      if r.Ok? {
        Advance(w, Step.Bootstrap(r.value.0, suite.fromUtf8(password).value, phrase), Now());
        BootstrappedOpens(suite, w, Now(), r.value.0, suite.fromUtf8(password).value, phrase, r.value.1);
        OnePasswordKey(suite, Now(), plain, keys, r.value.0, suite.fromUtf8(password).value, r.value.1);
      }
    }

    /** With the current password and an acceptable new one the change succeeds, whatever branch it takes,
        unless a vault lost before is live again. All that users see of it is the password and, when the
        key changes, the loss of what the user had in the trash. */
    method ChangeMasterPassword(user: UserId, current: Bytes, newPassword: Bytes) returns (r: Result<Bytes>)
      requires Valid()
      modifies this`plain, this`keys, pool, auth`credentials
      ensures Valid()
      ensures r.Ok? ==>
        && suite.fromUtf8(newPassword).Some?
        && plain == PlainPasswordChange(old(plain), user, suite.fromUtf8(newPassword).value)
        && Session(user, r.value)
        && (forall v :: old(plain).CanOpen(user, v) ==> plain.CanOpen(user, v))
      ensures r.Err? ==> plain == old(plain) && Now() == old(Now())
      ensures (user in old(plain).passwords && !auth.shutdown
               && suite.fromUtf8(current) == Some(old(plain).passwords[user])
               && |newPassword| >= MIN_MASTER_PASSWORD_LEN && current != newPassword && suite.fromUtf8(newPassword).Some?
               && old(plain).NothingLostIsLive(user))
        ==> r.Ok?
      ensures old(LostIsShut()) && r.Ok? ==> old(plain).NothingLostIsLive(user)
      ensures old(LostIsShut()) && r.Ok? && FreshKey(suite, old(pool.db), user, r.value) ==> LostIsShut()
    {
      hide Represents, Opens, PasswordChanged, OpensEveryVault, UsesAccountKey, LostShut, FreshKey, FreshStep,
        Plain.NothingLostIsLive, Plain.CanOpen, PlainPasswordChange, Suite.Ideal, LoginKey, IsBlank;
      ghost var w, p := Now(), plain;
      SameUsers(suite, w, plain, keys);
      if user in pool.db.users {
        AccountFacts(suite, w, plain, keys, user);
        RekeysWhen(suite, w, plain, keys, user);
        assert suite.fromUtf8(current) == Some(plain.passwords[user]) && !auth.shutdown ==>
          users.Authenticates(user, current, keys.accounts[user]);
      }
      label before:
      r := users.ChangeMasterPassword(user, current, newPassword);
      if r.Ok? {
        ghost var text := suite.fromUtf8(newPassword).value;
        ghost var key :| old@before(users.Authenticates(user, current, key)) && OpensEveryVault(suite, w.db, user, key)
          && PasswordChanged(suite, w, Now(), user, key, text, r.value);
        OnePasswordKey(suite, w, plain, keys, user, suite.fromUtf8(current).value, key);
        ChangedOpens(suite, w, Now(), user, key, text, r.value);
        ChangedKeyIsFresh(suite, w, Now(), plain, user, text, r.value);
        Advance(w, ChangePassword(user, text), Now());
        OnePasswordKey(suite, Now(), plain, keys, user, text, r.value);
        LiveAccessStays(p, user, text);
      }
    }

    /** The only account leaves the legacy form by logging in, always unless a vault lost before is live
        again. */
    method UpgradeLegacyCredentials(user: UserId, username: string, password: Bytes) returns (r: Result<Option<Bytes>>)
      requires Valid()
      requires user in pool.db.users && pool.db.users[user].username == username
      requires suite.fromUtf8(password) == Some(plain.passwords[user])
      modifies this`plain, this`keys, pool, auth`credentials
      ensures Valid()
      ensures r.Err? || r.value.None? ==> plain == old(plain) && Now() == old(Now())
      ensures r.Ok? && r.value.Some? ==>
        && user !in old(plain).accountKeys && user in plain.accountKeys
        && plain == PlainAfter(old(plain), UpgradeCredentials(user))
        && (forall v :: old(plain).CanOpen(user, v) ==> plain.CanOpen(user, v))
      ensures !auth.shutdown && |old(plain).passwords| == 1 && old(plain).NothingLostIsLive(user) ==>
        r.Ok? && user in plain.accountKeys
      ensures old(LostIsShut()) && r.Ok? && r.value.Some? ==> old(plain).NothingLostIsLive(user)
    {
      hide Represents, Opens, PasswordChanged, OpensEveryVault, UsesAccountKey, LostShut, Plain.NothingLostIsLive,
        PlainPasswordChange, Next;
      ghost var w, p := Now(), plain;
      AccountFacts(suite, w, plain, keys, user);
      RekeysWhen(suite, w, plain, keys, user);
      OpenedIsDecoded(suite, w.creds[username], plain.passwords[user], keys.accounts[user]);
      assert !auth.shutdown ==> users.Authenticates(user, password, keys.accounts[user]);
      assert !auth.shutdown && SingleAccount(w.db) && !UsesAccountKey(w.db, user) && plain.NothingLostIsLive(user) ==>
        users.Upgradable(user, username, password, keys.accounts[user]);
      label before:
      r := users.UpgradeLegacyCredentials(username, password);
      if r.Ok? && r.value.Some? {
        ghost var text := suite.fromUtf8(password).value;
        ghost var u, key :|
          && old@before(users.Upgradable(u, username, password, key))
          && PasswordChanged(suite, w, Now(), u, key, text, r.value.value);
        assert u == user by {
          SameNameSameUser(suite, w, plain, keys, u, user);
        }
        OnePasswordKey(suite, w, plain, keys, user, text, key);
        UpgradeIsStep(suite, w, plain, Now(), user, key, text, r.value.value);
        Advance(w, UpgradeCredentials(user), Now());
        LiveAccessStays(p, user, text);
        AccountFacts(suite, Now(), plain, keys, user);
      }
    }

    method CreateVault(owner: UserId, name: string, sessionKey: Bytes) returns (r: Result<VaultId>)
      requires Valid() && Session(owner, sessionKey)
      modifies this`plain, this`keys, pool
      ensures Valid() && SessionsOf(old(Now()), old(plain))
      ensures old(LostIsShut()) ==> LostIsShut()
      ensures r.Ok? <==> !IsBlank(name)
      ensures r.Ok? ==>
        && r.value !in old(plain).vaults
        && plain == PlainAfter(old(plain), Step.CreateVault(r.value, owner))
        && plain.CanOpen(owner, r.value)
        && r.value in pool.db.vaults && pool.db.vaults[r.value].name == name
      ensures r.Err? ==> plain == old(plain) && pool.db == old(pool.db)
    {
      hide LostShut, FreshStep;
      hide Represents, LoginKey, VaultCreated, IsBlank;
      ghost var w := Now();
      SessionIsAccountKey(suite, w, plain, keys, owner, sessionKey);
      r := vaults.CreateVault(owner, name, sessionKey);
      if r.Ok? {
        NewVaultId(suite, w, Now(), plain, keys, r.value, owner, sessionKey);
        Advance(w, Step.CreateVault(r.value, owner), Now());
      }
    }

    /** The recipient opens the shared vault from now on. */
    method ShareVault(actor: UserId, v: VaultId, recipient: UserId, sessionKey: Bytes, recipientKey: Bytes)
      returns (r: Result<()>)
      requires Valid() && Session(actor, sessionKey) && Session(recipient, recipientKey)
      modifies this`plain, this`keys, pool
      ensures Valid() && SessionsOf(old(Now()), old(plain))
      ensures old(LostIsShut()) ==> LostIsShut()
      ensures r.Ok? <==> v in old(plain).vaults && old(plain).vaults[v].owner != recipient && old(Opened(actor, v))
      ensures old(plain).CanOpen(actor, v) ==> old(Opened(actor, v))
      ensures r.Ok? ==> plain == old(plain).Granted(recipient, v) && plain.CanOpen(recipient, v)
      ensures r.Err? ==> plain == old(plain) && pool.db == old(pool.db)
    {
      hide LostShut, FreshStep;
      hide Represents, LoginKey, VaultShared, OpenedBy, OpenVaultForUser;
      ghost var w := Now();
      KeyedVaultOpens(suite, w, plain, keys, actor, v, sessionKey);
      SessionIsAccountKey(suite, w, plain, keys, recipient, recipientKey);
      var vaultKey :- OpenVaultForUser(suite, pool.db, actor, v, sessionKey);
      r := vaults.GrantVaultAccess(v, recipient, vaultKey, recipientKey);
      if r.Ok? {
        Advance(w, Step.ShareVault(v, actor, recipient), Now());
      }
    }

    /** Only the recipient of the share loses the vault. */
    method RevokeShare(v: VaultId, user: UserId)
      requires Valid()
      modifies this`plain, this`keys, pool
      ensures Valid() && SessionsOf(old(Now()), old(plain))
      ensures old(LostIsShut()) ==> LostIsShut()
      ensures plain == PlainAfter(old(plain), UnshareVault(v, user))
    {
      hide LostShut, FreshStep;
      hide Represents, PlainAfter;
      ghost var w := Now();
      DeleteKeyShare(pool, v, user);
      Advance(w, UnshareVault(v, user), Now());
    }

    method DeleteVault(requester: UserId, v: VaultId) returns (r: Result<()>)
      requires Valid()
      modifies this`plain, this`keys, pool
      ensures Valid() && SessionsOf(old(Now()), old(plain))
      ensures old(LostIsShut()) ==> LostIsShut()
      ensures r.Ok? <==> requester in old(pool.db.users) && old(pool.db).Accessible(requester, v)
      ensures plain == if r.Ok? then PlainTrash(old(plain), TrashStep.DeleteVault(v)) else old(plain)
      ensures r.Err? ==> pool.db == old(pool.db)
    {
      hide LostShut, FreshStep;
      hide Represents, Runs, PlainTrash;
      ghost var w := Now();
      r := vaults.DeleteVault(requester, v);
      if r.Ok? {
        Advance(w, Trash(TrashStep.DeleteVault(v)), Now());
      }
    }

    /** Whoever has access to the vault can add a value to it, and the value goes into the plain state. */
    method CreateSecret(actor: UserId, v: VaultId, kind: SecretType, title: string, value: Bytes, sessionKey: Bytes)
      returns (r: Result<SecretId>)
      requires Valid() && Session(actor, sessionKey)
      modifies this`plain, this`keys, pool
      ensures Valid() && SessionsOf(old(Now()), old(plain))
      ensures old(LostIsShut()) ==> LostIsShut()
      ensures r.Ok? <==> old(Opened(actor, v)) && value != []
      ensures old(plain).CanOpen(actor, v) ==> old(Opened(actor, v))
      ensures r.Ok? ==>
        && r.value !in old(plain).secrets
        && plain == old(plain).(secrets := old(plain).secrets[r.value := PlainSecret(v, value, false)])
        && r.value in pool.db.secrets && pool.db.secrets[r.value].kind == kind && pool.db.secrets[r.value].title == title
      ensures r.Err? ==> plain == old(plain) && pool.db == old(pool.db)
    {
      hide LostShut, FreshStep;
      hide Represents, LoginKey, SecretAdded, OpenedBy, OpenVaultForUser, GetSecret;
      ghost var w := Now();
      KeyedVaultOpens(suite, w, plain, keys, actor, v, sessionKey);
      var vaultKey :- OpenVaultForUser(suite, pool.db, actor, v, sessionKey);
      r := secrets.CreateSecret(v, kind, title, value, vaultKey);
      if r.Ok? {
        NewSecretId(suite, w, Now(), plain, keys, r.value, v, vaultKey, value);
        Advance(w, Step.CreateSecret(r.value, v, actor, value), Now());
      }
    }

    /** Reading gives the value last stored, to everyone who has access to the vault of a live secret. */
    method ReadSecret(actor: UserId, x: SecretId, sessionKey: Bytes) returns (r: Result<Bytes>)
      requires Valid() && Session(actor, sessionKey)
      ensures r.Ok? <==> x in plain.secrets && !plain.secrets[x].deleted && Opened(actor, plain.secrets[x].vault)
      ensures plain.CanRead(actor, x) ==> r.Ok?
      ensures x !in plain.secrets ==> r == Err(NotFound)
      ensures r.Ok? ==> r.value == plain.secrets[x].value
    {
      hide Represents, LoginKey, OpenedBy, OpenVaultForUser, Deserialize, Decrypt;
      if x !in pool.db.secrets {
        SameSecrets(suite, Now(), plain, keys, x);
        return Err(NotFound);
      }
      var v := pool.db.secrets[x].vault;
      SameSecrets(suite, Now(), plain, keys, x);
      SecretReads(suite, Now(), plain, keys, actor, x, sessionKey);
      var vaultKey :- OpenVaultForUser(suite, pool.db, actor, v, sessionKey);
      r := GetSecret(suite, pool.db, x, vaultKey);
    }

    /** A new title does not show in the plain state; a new value does, and reads back. */
    method UpdateSecret(actor: UserId, x: SecretId, title: string, value: Option<Bytes>, sessionKey: Bytes)
      returns (r: Result<()>)
      requires Valid() && Session(actor, sessionKey)
      modifies this`plain, this`keys, pool
      ensures Valid() && SessionsOf(old(Now()), old(plain))
      ensures old(LostIsShut()) ==> LostIsShut()
      ensures r.Ok? <==>
        && x in old(plain).secrets && !old(plain).secrets[x].deleted && old(Opened(actor, plain.secrets[x].vault))
        && value != Some([])
      ensures old(plain).CanRead(actor, x) ==> old(Opened(actor, plain.secrets[x].vault))
      ensures r.Ok? ==>
        plain == if value.None? then old(plain)
                 else old(plain).(secrets := old(plain).secrets[x := old(plain).secrets[x].(value := value.value)])
      ensures r.Ok? ==> x in pool.db.secrets && pool.db.secrets[x].title == title
      ensures r.Err? ==> plain == old(plain)
    {
      hide LostShut, FreshStep;
      hide Represents, LoginKey, SecretRewritten, OpenedBy, Renamed, Next, Outcome, OpenVaultForUser, GetSecret, Suite.Ideal;
      ghost var w := Now();
      SameSecrets(suite, w, plain, keys, x);
      if x !in pool.db.secrets {
        return Err(NotFound);
      }
      var v := pool.db.secrets[x].vault;
      SecretReads(suite, w, plain, keys, actor, x, sessionKey);
      var vaultKey :- OpenVaultForUser(suite, pool.db, actor, v, sessionKey);
      r := secrets.UpdateSecret(x, title, value, vaultKey);
      if LiveSecret(w.db, x) {
        RenamingKeepsAccess(suite, w, plain, actor, x, title);
        ghost var renamed := World(Renamed(w.db, x, title).value, w.creds);
        Advance(w, Trash(Rename(x, title)), renamed);
        if r.Ok? && value.Some? {
          RewriteIsStep(suite, renamed, plain, Now(), x, actor, value.value, vaultKey);
          Advance(renamed, Step.UpdateSecret(x, actor, value.value), Now());
        }
      }
    }

    method MoveSecret(actor: UserId, x: SecretId, target: VaultId, sessionKey: Bytes) returns (r: Result<()>)
      requires Valid() && Session(actor, sessionKey)
      modifies this`plain, this`keys, pool
      ensures Valid() && SessionsOf(old(Now()), old(plain))
      ensures old(LostIsShut()) ==> LostIsShut()
      ensures r.Ok? <==>
        && x in old(plain).secrets && !old(plain).secrets[x].deleted
        && old(Opened(actor, plain.secrets[x].vault)) && old(Opened(actor, target))
      ensures old(plain).CanRead(actor, x) && old(plain).CanOpen(actor, target) ==> r.Ok?
      ensures r.Ok? ==>
        plain == old(plain).(secrets := old(plain).secrets[x := old(plain).secrets[x].(vault := target)])
      ensures r.Err? ==> plain == old(plain) && pool.db == old(pool.db)
    {
      hide LostShut, FreshStep;
      hide Represents, LoginKey, SecretMoved, OpenedBy, OpenVaultForUser, GetSecret;
      ghost var w := Now();
      SameSecrets(suite, w, plain, keys, x);
      if x !in pool.db.secrets {
        return Err(NotFound);
      }
      var source := pool.db.secrets[x].vault;
      SecretReads(suite, w, plain, keys, actor, x, sessionKey);
      KeyedVaultOpens(suite, w, plain, keys, actor, target, sessionKey);
      var sourceKey :- OpenVaultForUser(suite, pool.db, actor, source, sessionKey);
      var targetKey :- OpenVaultForUser(suite, pool.db, actor, target, sessionKey);
      r := secrets.MoveSecret(x, target, sourceKey, targetKey);
      if r.Ok? && source != target {
        Advance(w, Step.MoveSecret(x, target, actor), Now());
      } else {
        assert r.Ok? ==> plain.secrets[x].(vault := target) == plain.secrets[x];
        assert r.Ok? ==> plain == plain.(secrets := plain.secrets[x := plain.secrets[x].(vault := target)]);
      }
    }

    method RestoreSecret(x: SecretId, v: VaultId) returns (r: Result<()>)
      requires Valid()
      modifies this`plain, this`keys, pool
      ensures Valid() && SessionsOf(old(Now()), old(plain))
      ensures old(LostIsShut()) ==> LostIsShut()
      ensures r.Ok? <==> Outcome(old(pool.db), Restore(x, v)).Ok?
      ensures plain == if r.Ok? then PlainTrash(old(plain), Restore(x, v)) else old(plain)
      ensures r.Err? ==> pool.db == old(pool.db)
    {
      hide LostShut, FreshStep;
      hide Represents, PlainTrash, Restored;
      ghost var w := Now();
      r := repository.RestoreSecret(x, v);
      if r.Ok? {
        assert Runs(w.db, pool.db, Restore(x, v));
        Advance(w, Trash(Restore(x, v)), Now());
      }
    }

    /** Restoring this state from a backup with its phrase, retyped in any way, succeeds unless a vault
        lost before is live again; after the restart the new password opens every live vault the user had
        access to. */
    method RestoreBackup(user: UserId, typed: string, newPassword: string) returns (r: Result<RekeyReport>)
      requires Valid() && user in pool.db.users && SingleAccount(pool.db)
      requires user in plain.accountKeys ==> user in plain.phrases && SameWords(suite, typed, plain.phrases[user])
      modifies this`plain, this`keys, pool, auth`credentials
      ensures Valid()
      ensures r.Ok? ==>
        && plain == PlainAfter(old(plain), Step.RestoreBackup(user, typed, newPassword))
        && plain.passwords == old(plain).passwords[user := newPassword]
        && (forall v :: old(plain).CanOpen(user, v) ==> plain.CanOpen(user, v))
      // The user is told that nothing is unreadable, and how much there is to read.
      ensures r.Ok? ==> r.value.secretsUnreadable == 0
      ensures old(plain).NothingLostIsLive(user) ==> r.Ok? && r.value.secretsReadable == |old(plain).Readable(user)|
      ensures r.Err? ==> plain == old(plain) && Now() == old(Now())
      ensures old(LostIsShut()) && r.Ok? ==> old(plain).NothingLostIsLive(user)
    {
      hide Represents, ResetFromBackup, UsesAccountKey, SameWords, OpensEveryVault, BackupKey, Wrappable,
        LoadedFrom, LostShut, Plain.NothingLostIsLive, PlainAfter, Plain.CanOpen, Plain.Readable, Loadable, Counted,
        RemainingLockSecs, IsBlank, OpenWithRecoveryPhrase, Suite.Ideal, FreshStep;
      ghost var w, p := Now(), plain;
      StoredEnvelopeIsKnown(suite, w, plain, keys, user);
      RepresentedBackupResets(suite, w, plain, keys, user, typed);
      RekeysWhen(suite, w, plain, keys, user);
      OnlyKey(pool.db.users.Keys, user);
      assert forall u :: u in pool.db.users ==> u == user;
      r := ResetMasterPasswordFromBackup(suite, pool, typed, newPassword);
      if r.Ok? {
        ghost var u, newKey :| BackupReset(suite, w.db, pool.db, u, typed, newPassword, newKey)
          && BackupReported(suite, w.db, pool.db, u, typed, r.value);
        assert u == user;
        RepresentedReport(suite, w, plain, keys, user, BackupKey(suite, w.db.users[u], typed).value, r.value);
        ResetIsLoadable(suite, w, plain, keys, user, pool.db, BackupKey(suite, w.db.users[u], typed).value, typed,
                        newPassword, newKey);
        var loaded := LoadCredentials(pool.db);
        auth.credentials := loaded.value;
        Advance(w, Step.RestoreBackup(user, typed, newPassword), Now());
        LiveAccessStaysRestored(p, user, typed, newPassword);
      }
    }
  }

  /** What a caller can rely on across calls: a value stored in a new vault reads back with the session
      that a password change gives, whatever else the database holds. */
  method ReadsAfterPasswordChange(app: Application, user: UserId, name: string, value: Bytes, sessionKey: Bytes,
                                  current: Bytes, newPassword: Bytes)
    returns (r: Result<Bytes>)
    requires app.Valid() && app.Session(user, sessionKey) && user in app.plain.passwords && !app.auth.shutdown
    requires app.plain.NothingLostIsLive(user)
    requires !IsBlank(name) && value != [] && app.suite.fromUtf8(current) == Some(app.plain.passwords[user])
    requires |newPassword| >= MIN_MASTER_PASSWORD_LEN && current != newPassword && app.suite.fromUtf8(newPassword).Some?
    modifies app, app.pool, app.auth
    ensures app.Valid() && r == Ok(value)
  {
    hide Represents, LoginKey, OpenedBy, PlainPasswordChange, IsBlank;
    var v := app.CreateVault(user, name, sessionKey);
    var x := app.CreateSecret(user, v.value, Password, "", value, sessionKey);
    ghost var before := app.plain;
    assert before.CanOpen(user, v.value) && x.Ok? && before.secrets[x.value] == PlainSecret(v.value, value, false);
    var changed := app.ChangeMasterPassword(user, current, newPassword);
    PasswordChangeKeepsSecrets(before, user, app.suite.fromUtf8(newPassword).value);
    assert app.plain.CanRead(user, x.value);
    r := app.ReadSecret(user, x.value, changed.value);
  }

  // ---- facts of a represented state ------------------------------------------------------------------------

  lemma AccountFacts(s: Suite, w: World, p: Plain, k: Keyring, u: UserId)
    requires Represents(s, w, p, k) && u in w.db.users
    ensures u in p.passwords && u in k.accounts && !IsBlank(w.db.users[u].username)
    ensures w.db.users[u].username in w.creds
    ensures Opens(s, w.creds[w.db.users[u].username], p.passwords[u], k.accounts[u])
    ensures LoginKey(s, w, p, u) == Some(k.accounts[u])
    ensures UsesAccountKey(w.db, u) <==> IsAccountKey(w.creds[w.db.users[u].username])
    ensures UsesAccountKey(w.db, u) <==> u in p.accountKeys
    ensures SingleAccount(w.db) <==> |p.passwords| == 1
  {
    hide VaultsOk, SharesOk, KeysOk, SecretsOk, TrashConsistent, SoleAccountKey, PhraseOk, OpenBlob, IsBlank, Unlock;
    SessionKeyIsAccountKey(s, w, p, k, u);
    assert AccountOk(s, w, p, k, u);
  }

  /** Whatever password opens the envelope, it opens the account's key. */
  lemma OnePasswordKey(s: Suite, w: World, p: Plain, k: Keyring, u: UserId, password: string, key: Bytes)
    requires s.Ideal()
    requires Represents(s, w, p, k) && u in w.db.users && w.db.users[u].username in w.creds
    requires Opens(s, w.creds[w.db.users[u].username], password, key)
    ensures u in k.accounts && key == k.accounts[u] && LoginKey(s, w, p, u) == Some(key)
  {
    hide Represents, Unlock, LoginKey, UsesAccountKey, IsAccountKey;
    AccountFacts(s, w, p, k, u);
    OtherPasswordOpensOnlyByCollision(s, Decode(w.creds[w.db.users[u].username]).value, p.passwords[u], password);
  }

  lemma BootstrappedOpens(s: Suite, w: World, w': World, u: UserId, password: string, phrase: string, key: Bytes)
    requires Bootstrapped(s, w, w', u, password, phrase, key)
    ensures u in w'.db.users && w'.db.users[u].username in w'.creds
    ensures Opens(s, w'.creds[w'.db.users[u].username], password, key)
  {
    hide Opens, SealedWith, IsBlank;
  }

  lemma ChangedOpens(s: Suite, w: World, w': World, u: UserId, oldKey: Bytes, newPassword: string, newKey: Bytes)
    requires PasswordChanged(s, w, w', u, oldKey, newPassword, newKey)
    ensures u in w'.db.users && w'.db.users[u].username in w'.creds
    ensures Opens(s, w'.creds[w'.db.users[u].username], newPassword, newKey)
  {
    hide Opens, IsAccountKey, VaultsRewrapped, SharesRewrapped;
  }

  lemma ResetIsLoadable(s: Suite, w: World, p: Plain, k: Keyring, u: UserId, after: Database, oldKey: Bytes, typed: string,
                        newPassword: string, newKey: Bytes)
    requires Represents(s, w, p, k) && u in w.db.users
    requires ResetFromBackup(s, w.db, after, u, oldKey, typed, newPassword, newKey)
    ensures forall o :: o in after.users ==> Loadable(after.users[o])
  {
    hide Represents, VaultsRewrapped, SharesRewrapped, RecoveryRewritten, RewrittenBlob, Unlock, UsesAccountKey;
    AccountFacts(s, w, p, k, u);
    OnlyKey(w.db.users.Keys, u);
    assert after.users.Keys == {u};
  }

  lemma SameNameSameUser(s: Suite, w: World, p: Plain, k: Keyring, u: UserId, u': UserId)
    requires Represents(s, w, p, k) && u in w.db.users && u' in w.db.users
    requires w.db.users[u].username == w.db.users[u'].username
    ensures u == u'
  {
    hide AccountOk, VaultsOk, SharesOk, KeysOk, SecretsOk, TrashConsistent, SoleAccountKey;
  }

  lemma UpgradeIsStep(s: Suite, w: World, p: Plain, w': World, u: UserId, oldKey: Bytes, password: string, newKey: Bytes)
    requires PasswordChanged(s, w, w', u, oldKey, password, newKey)
    requires SingleAccount(w.db) && !UsesAccountKey(w.db, u)
    requires u in p.passwords && p.passwords[u] == password && LoginKey(s, w, p, u) == Some(oldKey)
    ensures Next(s, w, p, UpgradeCredentials(u), w') && u in w'.db.users && UsesAccountKey(w'.db, u)
  {
    hide Opens, Rekeyed, LoginKey;
  }

  lemma LiveAccessStays(p: Plain, u: UserId, newPassword: string)
    ensures forall v :: p.CanOpen(u, v) ==> PlainPasswordChange(p, u, newPassword).CanOpen(u, v)
  {
    hide PhrasesAfter;
  }

  lemma PasswordChangeKeepsSecrets(p: Plain, u: UserId, newPassword: string)
    ensures PlainPasswordChange(p, u, newPassword).secrets == p.secrets
  {
  }

  lemma LiveAccessStaysRestored(p: Plain, u: UserId, typed: string, newPassword: string)
    ensures PlainAfter(p, Step.RestoreBackup(u, typed, newPassword)).passwords == p.passwords[u := newPassword]
    ensures forall v :: p.CanOpen(u, v) ==> PlainAfter(p, Step.RestoreBackup(u, typed, newPassword)).CanOpen(u, v)
  {
    hide PhrasesAfter, PlainTrash;
  }

  lemma ChangedKeyIsFresh(s: Suite, w: World, w': World, p: Plain, u: UserId, password: string, key: Bytes)
    requires u in w'.db.users && w'.db.users[u].username in w'.creds
    requires Opens(s, w'.creds[w'.db.users[u].username], password, key)
    ensures FreshKey(s, w.db, u, key) ==> FreshStep(s, w, p, ChangePassword(u, password), w')
  {
    hide FreshKey, Unlock;
  }

  lemma RekeysWhen(s: Suite, w: World, p: Plain, k: Keyring, u: UserId)
    requires Represents(s, w, p, k) && u in w.db.users && u in k.accounts
    ensures p.NothingLostIsLive(u) ==> OpensEveryVault(s, w.db, u, k.accounts[u])
    ensures LostShut(s, w.db, p, k) && OpensEveryVault(s, w.db, u, k.accounts[u]) ==> p.NothingLostIsLive(u)
  {
    hide Represents, OpensEveryVault, LostShut, Plain.NothingLostIsLive;
    if p.NothingLostIsLive(u) {
      RepresentedAccountRekeys(s, w, p, k, u);
    }
    if LostShut(s, w.db, p, k) {
      RekeysIff(s, w, p, k, u);
    }
  }

  lemma SameUsers(s: Suite, w: World, p: Plain, k: Keyring)
    requires Represents(s, w, p, k)
    ensures p.passwords.Keys == w.db.users.Keys
  {
    hide AccountOk, VaultsOk, SharesOk, KeysOk, SecretsOk, TrashConsistent, SoleAccountKey;
  }

  lemma SameSecrets(s: Suite, w: World, p: Plain, k: Keyring, x: SecretId)
    requires Represents(s, w, p, k)
    ensures x in p.secrets <==> x in w.db.secrets
    ensures x in p.secrets ==> p.secrets[x].vault == w.db.secrets[x].vault
    ensures x in p.secrets ==> (LiveSecret(w.db, x) <==> !p.secrets[x].deleted)
  {
    hide UsersOk, VaultsOk, SharesOk, KeysOk, TrashConsistent, SoleAccountKey, OpenBlob;
    assert x in w.db.secrets ==> SecretOk(s, w.db, p, k, x);
  }

  lemma NewSecretId(s: Suite, w: World, w': World, p: Plain, k: Keyring, x: SecretId, v: VaultId, vaultKey: Bytes,
                    value: Bytes)
    requires Represents(s, w, p, k) && SecretAdded(s, w.db, w'.db, x, v, vaultKey, value)
    ensures x !in p.secrets
  {
    hide Represents, OpenBlob;
    SameSecrets(s, w, p, k, x);
  }

  lemma NewVaultId(s: Suite, w: World, w': World, p: Plain, k: Keyring, v: VaultId, owner: UserId, key: Bytes)
    requires Represents(s, w, p, k) && VaultCreated(s, w.db, w'.db, v, owner, key)
    ensures v !in p.vaults
  {
    hide UsersOk, SharesOk, KeysOk, SecretsOk, TrashConsistent, SoleAccountKey, VaultOk, OpenBlob;
  }

  lemma OpenedWithSession(s: Suite, w: World, p: Plain, u: UserId, v: VaultId, key: Bytes)
    requires LoginKey(s, w, p, u) == Some(key)
    ensures OpenedBy(s, w, p, u, v).Some? <==> OpenVaultForUser(s, w.db, u, v, key).Ok?
    ensures OpenedBy(s, w, p, u, v).Some? ==> OpenVaultForUser(s, w.db, u, v, key) == Ok(OpenedBy(s, w, p, u, v).value)
  {
    hide SessionKey, OpenVaultForUser;
  }

  lemma SessionIsAccountKey(s: Suite, w: World, p: Plain, k: Keyring, u: UserId, key: Bytes)
    requires Represents(s, w, p, k) && LoginKey(s, w, p, u) == Some(key)
    ensures u in w.db.users && |key| == KEY_LEN
  {
    hide Represents, LoginKey, AccountOk;
    LoginGivesAccountKey(s, w, p, k, u);
    StoredAccount(s, w, p, k, u);
    AccountKeyLength(s, w, p, k, u);
  }

  lemma AccountKeyLength(s: Suite, w: World, p: Plain, k: Keyring, u: UserId)
    requires u in w.db.users && u in p.passwords && u in k.accounts && AccountOk(s, w, p, k, u)
    ensures |k.accounts[u]| == KEY_LEN
  {
    hide Opens, OpenBlob, PhraseOk, IsBlank;
  }

  /** What the session key opens; a vault the user has access to among it. */
  lemma KeyedVaultOpens(s: Suite, w: World, p: Plain, k: Keyring, u: UserId, v: VaultId, key: Bytes)
    requires Represents(s, w, p, k) && LoginKey(s, w, p, u) == Some(key)
    ensures OpenVaultForUser(s, w.db, u, v, key).Ok? <==> OpenedBy(s, w, p, u, v).Some?
    ensures OpenedBy(s, w, p, u, v).Some? ==>
      && OpenVaultForUser(s, w.db, u, v, key) == Ok(OpenedBy(s, w, p, u, v).value)
      && |OpenedBy(s, w, p, u, v).value| == KEY_LEN
      && v in p.vaults && v in w.db.vaults && p.vaults[v].owner == w.db.vaults[v].owner && p.LiveVault(v)
    ensures p.CanOpen(u, v) ==> OpenedBy(s, w, p, u, v).Some?
  {
    hide Represents, LoginKey, OpenVaultForUser;
    LoginGivesAccountKey(s, w, p, k, u);
    OpenedWithSession(s, w, p, u, v, key);
    if OpenedBy(s, w, p, u, v).Some? {
      OpenedByGivesVaultKey(s, w, p, k, u, v);
      StoredVault(s, w, p, k, v);
    }
    if p.CanOpen(u, v) {
      AccessibleVaultOpens(s, w, p, k, u, v);
    }
  }

  lemma StoredVault(s: Suite, w: World, p: Plain, k: Keyring, v: VaultId)
    requires Represents(s, w, p, k) && v in w.db.vaults
    ensures v in p.vaults && p.vaults[v] == PlainVault(w.db.vaults[v].owner, w.db.vaults[v].deleted)
  {
    hide UsersOk, SharesOk, KeysOk, SecretsOk, TrashConsistent, SoleAccountKey;
    assert VaultOk(w.db, p, k, v);
  }

  lemma SecretReads(s: Suite, w: World, p: Plain, k: Keyring, u: UserId, x: SecretId, key: Bytes)
    requires Represents(s, w, p, k) && LoginKey(s, w, p, u) == Some(key) && x in w.db.secrets
    ensures var v := w.db.secrets[x].vault;
      && (OpenVaultForUser(s, w.db, u, v, key).Ok? <==> OpenedBy(s, w, p, u, v).Some?)
      && (OpenedBy(s, w, p, u, v).Some? ==>
            && OpenVaultForUser(s, w.db, u, v, key) == Ok(OpenedBy(s, w, p, u, v).value)
            && |OpenedBy(s, w, p, u, v).value| == KEY_LEN
            && (LiveSecret(w.db, x) ==>
                  && x in p.secrets
                  && GetSecret(s, w.db, x, OpenedBy(s, w, p, u, v).value) == Ok(p.secrets[x].value)))
      && (p.CanRead(u, x) ==> OpenedBy(s, w, p, u, v).Some?)
  {
    hide Represents, SessionKey, OpenVaultForUser, OpenedBy, LoginKey;
    var v := w.db.secrets[x].vault;
    KeyedVaultOpens(s, w, p, k, u, v, key);
    StoredSecret(s, w, p, k, x);
    if OpenedBy(s, w, p, u, v).Some? {
      OpenedByGivesVaultKey(s, w, p, k, u, v);
    }
    if p.CanRead(u, x) {
      RepresentedSecretsRead(s, w, p, k, u, x);
    }
  }

  lemma RenamingKeepsAccess(s: Suite, w: World, p: Plain, u: UserId, x: SecretId, title: string)
    requires LiveSecret(w.db, x)
    ensures Renamed(w.db, x, title).Ok?
    ensures var w' := World(Renamed(w.db, x, title).value, w.creds);
      && Runs(w.db, w'.db, Rename(x, title))
      && x in w'.db.secrets && w'.db.secrets[x].vault == w.db.secrets[x].vault
      && Next(s, w, p, Trash(Rename(x, title)), w')
      && forall v :: OpenedBy(s, w', p, u, v) == OpenedBy(s, w, p, u, v)
  {
    hide Unlock, Deserialize, Decrypt;
  }

  lemma RewriteIsStep(s: Suite, w: World, p: Plain, w': World, x: SecretId, actor: UserId, value: Bytes, vaultKey: Bytes)
    requires x in w.db.secrets && OpenedBy(s, w, p, actor, w.db.secrets[x].vault) == Some(vaultKey)
    requires w'.creds == w.creds && SecretRewritten(s, w.db, w'.db, x, vaultKey, value)
    ensures Next(s, w, p, Step.UpdateSecret(x, actor, value), w')
  {
    hide OpenedBy, SecretRewritten;
  }
}
