/** From one machine to another with nothing but a backup file and its phrase: export, import, a new
    password, and everything the user could read reads again. What a file holds is read by a given
    function; that it reads as the database is all that is asked of it. */
module BackupJourneys {
  import opened Wrappers
  import opened Text
  import opened Crypto
  import opened AccountKeys
  import opened PasswordEnvelopes
  import opened Tables
  import opened RekeyService
  import opened AuthServices
  import opened SecretRepository
  import opened Access
  import opened KeyHierarchy
  import opened HierarchyRuns
  import opened RecoveryServices
  import opened AuthPolicyServices
  import opened Applications
  import opened Paths
  import opened HvbContainers

  /** A file as the database engine sees it. */
  type Reader = Bytes -> Option<Database>

  ghost predicate Holds(read: Reader, files: map<Path, Bytes>, path: Path, db: Database) {
    && path in files && IsSqlite(files[path]) && read(files[path]) == Some(db)
    && forall p :: p in files ==> |files[p]| < U64
  }

  /** The words typed are those of the phrase the account is known by, if its format asks for one. */
  ghost predicate KnownByWords(s: Suite, p: Plain, u: UserId, typed: string) {
    u in p.accountKeys ==> u in p.phrases && SameWords(s, typed, p.phrases[u])
  }

  /** Whoever could read a secret or open a vault still can, with the new password. */
  ghost predicate Arrived(s: Suite, w: World, p: Plain, u: UserId, typed: string, newPassword: string) {
    var q := PlainAfter(p, Step.RestoreBackup(u, typed, newPassword));
    && (exists k :: Represents(s, w, q, k))
    && (forall v :: p.CanOpen(u, v) ==> OpenedBy(s, w, q, u, v).Some?)
    && (forall x :: p.CanRead(u, x) ==> ReadThrough(s, w, u, newPassword, x) == Some(p.secrets[x].value))
  }

  /** A new password for the only account of the database, and a start of the program on it. The report says
      that all there is to read reads, and the user may log in at once. */
  method ResetAndStart(s: Suite, db: Database, typed: string, newPassword: string, ghost w: World, ghost p: Plain,
                       ghost k: Keyring, ghost u: UserId)
    returns (pool: Pool, credentials: Credentials, report: RekeyReport)
    requires s.Ideal() && Represents(s, w, p, k) && w.db == db && w.db.users.Keys == {u}
    requires KnownByWords(s, p, u, typed) && p.NothingLostIsLive(u)
    ensures fresh(pool) && Arrived(s, World(pool.db, credentials), p, u, typed, newPassword)
    ensures report.secretsUnreadable == 0 && report.secretsReadable == |p.Readable(u)|
    ensures var name := db.users[u].username;
      && name in pool.db.policy && pool.db.policy[name].failedAttempts == 0
      && forall now :: RemainingLockSecs(0, pool.db.policy[name].lastAttemptAt, now) == 0
  {
    hide Represents, ResetFromBackup, UsesAccountKey, SameWords, OpensEveryVault, BackupKey, Wrappable, LoadedFrom,
      Loadable, Plain.NothingLostIsLive, Arrived, Suite.Ideal,
      Counted, Plain.Readable, RemainingLockSecs, IsBlank;
    AccountFacts(s, w, p, k, u);
    StoredEnvelopeIsKnown(s, w, p, k, u);
    RepresentedBackupResets(s, w, p, k, u, typed);
    assert |db.users.Keys| == 1;
    pool := new Pool(db);
    var reset := ResetMasterPasswordFromBackup(s, pool, typed, newPassword);
    report := reset.value;
    ghost var o, newKey :| BackupReset(s, db, pool.db, o, typed, newPassword, newKey)
      && BackupReported(s, db, pool.db, o, typed, report);
    assert o == u;
    RepresentedReport(s, w, p, k, u, BackupKey(s, db.users[u], typed).value, report);
    ResetIsLoadable(s, w, p, k, u, pool.db, BackupKey(s, db.users[u], typed).value, typed, newPassword, newKey);
    var loaded := LoadCredentials(pool.db);
    credentials := loaded.value;
    ghost var w' := World(pool.db, credentials);
    RestoreBackupKeeps(s, w, w', p, k, u, typed, newPassword, newKey);
    RestoredArrives(s, w, k, w', p, u, typed, newPassword, k.(accounts := k.accounts[u := newKey]));
  }

  lemma RestoredArrives(s: Suite, w0: World, k0: Keyring, w: World, p: Plain, u: UserId, typed: string,
                        newPassword: string, k: Keyring)
    requires Represents(s, w0, p, k0)
    requires Represents(s, w, PlainAfter(p, Step.RestoreBackup(u, typed, newPassword)), k)
    ensures Arrived(s, w, p, u, typed, newPassword)
  {
    hide Represents, ReadThrough, SessionKey, OpenVaultForUser, PlainAfter;
    var q := PlainAfter(p, Step.RestoreBackup(u, typed, newPassword));
    LiveAccessStaysRestored(p, u, typed, newPassword);
    RestoreKeepsSecrets(p, u, typed, newPassword);
    forall v | p.CanOpen(u, v) ensures OpenedBy(s, w, q, u, v).Some? {
      AccessibleVaultOpens(s, w, q, k, u, v);
      SessionKeyIsAccountKey(s, w, q, k, u);
    }
    forall x | p.CanRead(u, x) ensures ReadThrough(s, w, u, newPassword, x) == Some(p.secrets[x].value) {
      RepresentedSecretsRead(s, w0, p, k0, u, x);
      RepresentedSecretsRead(s, w, q, k, u, x);
    }
  }

  lemma RestoreKeepsSecrets(p: Plain, u: UserId, typed: string, newPassword: string)
    ensures var q := PlainAfter(p, Step.RestoreBackup(u, typed, newPassword));
      q.secrets == p.secrets && q.vaults == p.vaults && q.passwords == p.passwords[u := newPassword]
  {
    hide PhrasesAfter, PlainTrash;
  }

  /** The whole way. The container opens with the phrase exactly as it was typed for the export, or another
      text that derives the same key; the account then only looks at the words. */
  method RestoreElsewhere(f: Formats, read: Reader, s: Suite, here: Disk, there: Disk, source: Path, backup: Path,
                          received: Path, target: Path, phrase: string, typed: string, newPassword: string,
                          ghost w: World, ghost p: Plain, ghost k: Keyring, ghost u: UserId)
    returns (r: Result<(Pool, Credentials)>)
    requires f.Lawful() && f.SerializesShort() && s.Ideal()
    requires Represents(s, w, p, k) && w.db.users.Keys == {u} && Holds(read, here.files, source, w.db)
    requires KnownByWords(s, p, u, typed) && p.NothingLostIsLive(u)
    modifies here, there
    ensures r.Ok? ==> fresh(r.value.0) && Arrived(s, World(r.value.0.db, r.value.1), p, u, typed, newPassword)
    ensures (&& typed == phrase && f.validPhrase(phrase)
             && FileName(backup) != "" && FileName(target) != "" && !HasOld(target)) ==> r.Ok?
  {
    hide Represents, OpenContainer, IsSqlite, Formats.Lawful, Formats.SerializesShort, Suite.Ideal, FileName, HasOld, WithOld,
      PartialPath, Arrived, KnownByWords, Plain.NothingLostIsLive, LeftWhole, StillThere;
    ghost var contents := here.files[source];
    var _ :- here.ExportHvb(f, source, backup, phrase, NoFault);
    var file := here.files[backup];
    there.files := there.files[received := file];
    SameContents(f, file, phrase, typed);
    var _ :- there.ImportHvb(f, received, typed, target, NoFault);
    assert there.files[target] == contents;
    var db := read(there.files[target]).value;
    var pool, credentials, _ := ResetAndStart(s, db, typed, newPassword, w, p, k, u);
    r := Ok((pool, credentials));
  }

  lemma SameContents(f: Formats, file: Bytes, phrase: string, typed: string)
    requires f.Lawful() && OpenContainer(f, file, phrase).Ok?
    ensures OpenContainer(f, file, typed).Ok? ==> OpenContainer(f, file, typed) == OpenContainer(f, file, phrase)
  {
    hide OpenContainer;
    OtherPhraseNeedsSameKey(f, file, phrase, typed);
  }
}
