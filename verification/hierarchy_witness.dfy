/** The loss the key hierarchy allows does happen: one run from the empty database, for every ideal
    suite, after which nobody can read a live secret. The steps it takes are open to any user in the
    same position. */
module HierarchyWitness {
  import opened Wrappers
  import opened Text
  import opened Crypto
  import opened PasswordEnvelopes
  import opened AccountKeys
  import opened Tables
  import opened RekeyService
  import opened AuthServices
  import opened SecretRepository
  import opened Access
  import opened KeyHierarchy
  import opened HierarchyRuns

  const ZERO_NONCE: Nonce := [0, 0, 0, 0, 0, 0, 0, 0, 0, 0, 0, 0]

  function Sealed(s: Suite, key: Bytes, plaintext: Bytes): Bytes {
    Serialize(EncryptedPayload(ZERO_NONCE, s.seal(key, ZERO_NONCE, [], plaintext)))
  }

  lemma SealedOpens(s: Suite, key: Bytes, plaintext: Bytes)
    requires s.Ideal() && |key| == KEY_LEN
    ensures OpenBlob(s, Sealed(s, key, plaintext), key) == Some(plaintext)
  {
    SealOpens(s, key, ZERO_NONCE, plaintext);
    BlobLayoutsRoundTrip(EncryptedPayload(ZERO_NONCE, s.seal(key, ZERO_NONCE, [], plaintext)), []);
  }

  /** The key a password derives with one fixed salt. */
  ghost function Derived(s: Suite, password: string): (key: Bytes)
    requires s.Ideal()
    ensures |key| == KEY_LEN && DeriveKey(s, password, ZERO_KEY) == Ok(key)
  {
    DeriveKey(s, password, ZERO_KEY).value
  }

  function AnotherKey(key: Bytes): (other: Bytes)
    requires |key| == KEY_LEN
    ensures |other| == KEY_LEN && other != key
  {
    key[0 := (key[0] as int + 1) % 256]
  }

  // ---- steps that are open -----------------------------------------------------------------------------

  lemma FirstAccount(s: Suite, w: World, name: string, password: string) returns (w': World)
    requires s.Ideal() && !IsBlank(name)
    requires w == World(Database(map[], map[], map[], map[], map[]), map[])
    ensures Next(s, w, NOTHING, AddAccount(0, password), w')
    ensures w'.db.users.Keys == {0} && w'.db.users[0].recoveryPhraseEnvelope.None?
  {
    hide Derived, IsBlank;
    var envelope := Legacy(ZERO_KEY, Derived(s, password));
    var stored := Encode(envelope);
    DecodeUndoesEncode(envelope);
    w' := World(w.db.(users := map[0 := UserRow(name, Some(stored), None, None, None)]), map[name := stored]);
    assert AccountAdded(s, w, w', 0, password, Derived(s, password)) by {
      hide Encode, Decode;
    }
  }

  /** Every user can create a vault. */
  lemma VaultCanBeCreated(s: Suite, w: World, p: Plain, k: Keyring, v: VaultId, owner: UserId) returns (w': World)
    requires s.Ideal() && Represents(s, w, p, k)
    requires owner in p.passwords && v !in p.vaults
    ensures Next(s, w, p, CreateVault(v, owner), w') && w'.db.users == w.db.users
  {
    hide Represents, SessionKey, OpenBlob, Suite.Ideal;
    SameTables(s, w, p, k);
    SessionKeyIsAccountKey(s, w, p, k, owner);
    AccountKeyIsKey(s, w, p, k, owner);
    var key := k.accounts[owner];
    var row := VaultRow(owner, "", Some(Sealed(s, key, ZERO_KEY)), false);
    SealedOpens(s, key, ZERO_KEY);
    w' := w.(db := w.db.(vaults := w.db.vaults[v := row]));
    assert VaultCreated(s, w.db, w'.db, v, owner, key);
  }

  lemma AccountKeyIsKey(s: Suite, w: World, p: Plain, k: Keyring, u: UserId)
    requires Represents(s, w, p, k) && u in w.db.users
    ensures u in k.accounts && |k.accounts[u]| == KEY_LEN
  {
    hide VaultsOk, SharesOk, KeysOk, SecretsOk, TrashConsistent, SoleAccountKey, Opens, OpenBlob, PhraseOk, IsBlank;
    assert AccountOk(s, w, p, k, u);
  }

  /** Whoever can open a vault can store any value in it. */
  lemma SecretCanBeStored(s: Suite, w: World, p: Plain, k: Keyring, x: SecretId, v: VaultId, actor: UserId, value: Bytes)
    returns (w': World)
    requires s.Ideal() && Represents(s, w, p, k)
    requires p.CanOpen(actor, v) && x !in p.secrets
    ensures Next(s, w, p, CreateSecret(x, v, actor, value), w') && w'.db.users == w.db.users
  {
    hide UsersOk, SharesOk, KeysOk, SecretOk, TrashConsistent, SoleAccountKey, SessionKey, OpenBlob, OpenVaultForUser,
      Suite.Ideal;
    AccessibleVaultOpens(s, w, p, k, actor, v);
    SessionKeyIsAccountKey(s, w, p, k, actor);
    assert actor in p.passwords by {
      KnownPassword(s, w, p, k, actor);
    }
    var vaultKey := k.vaults[v];
    assert OpenedBy(s, w, p, actor, v) == Some(vaultKey);
    var blob := Sealed(s, vaultKey, value);
    SealedOpens(s, vaultKey, value);
    w' := w.(db := Inserted(w.db, x, v, Password, "", Inline, blob).value);
    assert Runs(w.db, w'.db, Insert(x, v, Password, "", Inline, blob));
  }

  /** The only account, in the legacy form, can move to an account key of any value, as long as it has
      nothing to rewrap. */
  lemma KeyCanChange(s: Suite, w: World, p: Plain, k: Keyring, u: UserId, newPassword: string, newKey: Bytes)
    returns (w': World)
    requires s.Ideal() && Represents(s, w, p, k) && w.db.users.Keys == {u} && u !in p.accountKeys && |newKey| == KEY_LEN
    requires u !in p.totp && w.db.users[u].recoveryPhraseEnvelope.None?
    requires forall v :: v in w.db.vaults ==> !w.db.LiveVault(v)
    ensures Next(s, w, p, ChangePassword(u, newPassword), w')
    ensures u in k.accounts && PasswordChanged(s, w, w', u, k.accounts[u], newPassword, newKey)
    ensures IsAccountKey(w'.db.users[u].passwordEnvelope.value) && w'.db.users.Keys == {u}
    ensures w'.db.vaults == w.db.vaults && w'.db.secrets == w.db.secrets && w'.db.shares == w.db.shares
  {
    hide Represents, Suite.Ideal, SessionKey, Opens, Encode, Decode, Unlock, IsAccountKey;
    LegacyFacts(s, w, p, k, u);
    var stored := WrappedEnvelope(s, newPassword, newKey);
    var row := w.db.users[u].(passwordEnvelope := Some(stored), recoveryKeyEnvelope := None);
    w' := World(w.db.(users := w.db.users[u := row]), w.creds[row.username := stored]);
    assert |w.db.users.Keys| == 1;
    NothingRewrapped(s, w.db, w'.db, u, k.accounts[u], newKey);
    assert Rekeyed(s, w.db, w'.db, u, k.accounts[u], newKey, stored, SealedAccountKey(None)) by {
      hide VaultsRewrapped, SharesRewrapped;
    }
    hide Rekeyed;
    assert PasswordChanged(s, w, w', u, k.accounts[u], newPassword, newKey);
  }

  lemma LegacyFacts(s: Suite, w: World, p: Plain, k: Keyring, u: UserId)
    requires Represents(s, w, p, k) && u in w.db.users && u !in p.accountKeys && u !in p.totp
    ensures u in p.passwords && u in k.accounts && LoginKey(s, w, p, u) == Some(k.accounts[u])
    ensures w.db.users[u].totpSecret.None? && w.db.users[u].username in w.creds
    ensures !IsAccountKey(w.creds[w.db.users[u].username])
  {
    hide VaultsOk, SharesOk, KeysOk, SecretsOk, TrashConsistent, SoleAccountKey, Opens, OpenBlob, PhraseOk, IsBlank,
      IsAccountKey, SessionKey;
    SessionKeyIsAccountKey(s, w, p, k, u);
    assert AccountOk(s, w, p, k, u);
  }

  lemma WrappedEnvelope(s: Suite, password: string, key: Bytes) returns (stored: Bytes)
    requires s.Ideal() && |key| == KEY_LEN
    ensures Opens(s, stored, password, key) && IsAccountKey(stored)
  {
    var kek := Derived(s, password);
    SealOpens(s, kek, ZERO_NONCE, key);
    var envelope := PasswordEnvelope.AccountKey(ZERO_KEY, EncryptedPayload(ZERO_NONCE, s.seal(kek, ZERO_NONCE, [], key)));
    stored := Encode(envelope);
    DecodeUndoesEncode(envelope);
  }

  lemma NothingRewrapped(s: Suite, before: Database, after: Database, u: UserId, oldKey: Bytes, newKey: Bytes)
    requires forall v :: v in before.vaults ==> !before.LiveVault(v)
    requires after.vaults == before.vaults && after.shares == before.shares
    ensures VaultsRewrapped(s, before, after, u, oldKey, newKey) && SharesRewrapped(s, before, after, u, oldKey, newKey)
  {
  }

  // ---- the run -------------------------------------------------------------------------------------------

  /** Only one key comes out of a login, whatever the password. */
  lemma OneSessionKey(s: Suite, w: World, u: UserId, password: string, key: Bytes)
    requires s.Ideal() && u in w.db.users && w.db.users[u].username in w.creds
    requires Opens(s, w.creds[w.db.users[u].username], password, key)
    ensures SessionKey(s, w, u, password) == Some(key)
    ensures forall typed :: SessionKey(s, w, u, typed).Some? ==> SessionKey(s, w, u, typed).value == key
  {
    var e := Decode(w.creds[w.db.users[u].username]).value;
    hide Decode, Unlock, Suite.Ideal;
    forall typed | SessionKey(s, w, u, typed).Some? ensures SessionKey(s, w, u, typed).value == key {
      OtherPasswordOpensOnlyByCollision(s, e, password, typed);
    }
  }

  lemma OpeningLooksAtKeys(s: Suite, db: Database, other: Database, u: UserId, v: VaultId, key: Bytes)
    requires other == db.(secrets := other.secrets)
    ensures OpenVaultForUser(s, other, u, v, key) == OpenVaultForUser(s, db, u, v, key)
    ensures OpensEveryVault(s, other, u, key) == OpensEveryVault(s, db, u, key)
  {
    hide Deserialize, Decrypt;
    forall v | v in db.vaults
      ensures other.Keyed(u, v) == db.Keyed(u, v) && VaultKeyOf(s, other, u, v, key) == VaultKeyOf(s, db, u, v, key)
    {
    }
  }

  /** A key change with everything in the trash, then a restore: the revived vault opens for nobody. */
  lemma RestoredAfterKeyChange(s: Suite, w: World, changed: World, after: World, p: Plain, k: Keyring, u: UserId,
                               v: VaultId, x: SecretId, newPassword: string, newKey: Bytes)
    requires s.Ideal() && Represents(s, w, p, k) && w.db.users.Keys == {u} && changed.db.users.Keys == {u}
    requires u in k.accounts && newKey != k.accounts[u] && (u, v) in p.TrashedAccess(u)
    requires u !in p.accountKeys
    requires PasswordChanged(s, w, changed, u, k.accounts[u], newPassword, newKey)
    requires Runs(changed.db, after.db, Restore(x, v)) && after.creds == changed.creds
    ensures after.db.users.Keys == {u} && LiveSecret(after.db, x)
    ensures forall typed :: ReadThrough(s, after, u, typed, x).None?
    ensures SessionKey(s, after, u, newPassword) == Some(newKey)
    ensures OpenVaultForUser(s, after.db, u, v, newKey).Err? && !OpensEveryVault(s, after.db, u, newKey)
  {
    hide Represents, Opens, IsAccountKey, SessionKey, OpenVaultForUser, GetSecret, OpensEveryVault, Suite.Ideal;
    StoredEnvelopeIsKnown(s, w, p, k, u);
    RevivedVaultIsLost(s, w, changed.db, p, k, u, newKey, v);
    var revived := VaultRevived(changed.db, v);
    OpeningLooksAtKeys(s, revived, after.db, u, v, newKey);
    OneSessionKey(s, after, u, newPassword, newKey);
  }

  /** What the users see of it. */
  lemma PlainsOfLoss(value: Bytes) returns (ps: seq<Plain>)
    ensures |ps| == 7 && ps[0] == NOTHING
    ensures ps[1] == PlainAfter(ps[0], AddAccount(0, "p")) && 0 in ps[1].passwords && ps[1].vaults == map[]
    ensures ps[2] == PlainAfter(ps[1], CreateVault(0, 0)) && ps[2].CanOpen(0, 0) && ps[2].secrets == map[]
    ensures ps[3] == PlainAfter(ps[2], CreateSecret(0, 0, 0, value)) && ps[3].CanRead(0, 0)
    ensures ps[3].passwords == map[0 := "p"] && ps[3].LiveVault(0) && ps[3].secrets == map[0 := PlainSecret(0, value, false)]
    ensures ps[4] == PlainAfter(ps[3], Trash(TrashStep.DeleteVault(0)))
    ensures ps[4].passwords == map[0 := "p"] && ps[4].accountKeys == {} && ps[4].totp == map[]
    ensures ps[4].vaults == map[0 := PlainVault(0, true)] && (0, 0) in ps[4].TrashedAccess(0)
    ensures ps[4].secrets == map[0 := PlainSecret(0, value, true)]
    ensures ps[5] == PlainAfter(ps[4], ChangePassword(0, "q"))
    ensures ps[6] == PlainAfter(ps[5], Trash(Restore(0, 0))) && ps[6].secrets == map[0 := PlainSecret(0, value, false)]
  {
    hide PlainAfter, Plain.TrashedAccess;
    var p1, p2, p3 := PlainOfSecret(value);
    var p4 := PlainOfTrash(p3, value);
    var p6 := PlainOfRestore(p4, value);
    ps := [NOTHING, p1, p2, p3, p4, PlainAfter(p4, ChangePassword(0, "q")), p6];
  }

  lemma PlainOfSecret(value: Bytes) returns (p1: Plain, p2: Plain, p3: Plain)
    ensures p1 == PlainAfter(NOTHING, AddAccount(0, "p")) && 0 in p1.passwords && p1.vaults == map[]
    ensures p2 == PlainAfter(p1, CreateVault(0, 0)) && p2.CanOpen(0, 0) && p2.secrets == map[]
    ensures p3 == PlainAfter(p2, CreateSecret(0, 0, 0, value)) && p3.CanRead(0, 0)
    ensures p3.passwords == map[0 := "p"] && p3.accountKeys == {} && p3.totp == map[] && (0, 0) in p3.access
    ensures p3.vaults == map[0 := PlainVault(0, false)] && p3.secrets == map[0 := PlainSecret(0, value, false)]
  {
    p1 := PlainAfter(NOTHING, AddAccount(0, "p"));
    p2 := PlainAfter(p1, CreateVault(0, 0));
    p3 := PlainAfter(p2, CreateSecret(0, 0, 0, value));
  }

  lemma PlainOfTrash(p: Plain, value: Bytes) returns (q: Plain)
    requires p.vaults == map[0 := PlainVault(0, false)] && p.secrets == map[0 := PlainSecret(0, value, false)]
    requires (0, 0) in p.access
    ensures q == PlainAfter(p, Trash(TrashStep.DeleteVault(0)))
    ensures q == p.(vaults := map[0 := PlainVault(0, true)], secrets := map[0 := PlainSecret(0, value, true)])
    ensures (0, 0) in q.TrashedAccess(0)
  {
    q := PlainTrash(p, TrashStep.DeleteVault(0));
    assert q.vaults == map[0 := PlainVault(0, true)];
    assert q.secrets == map[0 := PlainSecret(0, value, true)];
  }

  lemma PlainOfRestore(p: Plain, value: Bytes) returns (q: Plain)
    requires p.vaults == map[0 := PlainVault(0, true)] && p.secrets == map[0 := PlainSecret(0, value, true)]
    ensures q == PlainAfter(PlainAfter(p, ChangePassword(0, "q")), Trash(Restore(0, 0)))
    ensures q.secrets == map[0 := PlainSecret(0, value, false)]
  {
    var changed := PlainPasswordChange(p, 0, "q");
    ChangeKeepsTables(p);
    hide PlainPasswordChange;
    q := PlainTrash(changed, Restore(0, 0));
  }

  lemma ChangeKeepsTables(p: Plain)
    ensures var changed := PlainPasswordChange(p, 0, "q"); changed.vaults == p.vaults && changed.secrets == p.secrets
  {
    hide PhrasesAfter, Plain.TrashedAccess;
  }

  lemma SecretStored(s: Suite, p1: Plain, p2: Plain, p3: Plain, value: Bytes)
    returns (w0: World, w1: World, w2: World, w3: World, k: Keyring)
    requires s.Ideal()
    requires p1 == PlainAfter(NOTHING, AddAccount(0, "p")) && 0 in p1.passwords && p1.vaults == map[]
    requires p2 == PlainAfter(p1, CreateVault(0, 0)) && p2.CanOpen(0, 0) && p2.secrets == map[]
    requires p3 == PlainAfter(p2, CreateSecret(0, 0, 0, value))
    ensures Represents(s, w0, NOTHING, Keyring(map[], map[])) && Next(s, w0, NOTHING, AddAccount(0, "p"), w1)
    ensures Next(s, w1, p1, CreateVault(0, 0), w2) && Next(s, w2, p2, CreateSecret(0, 0, 0, value), w3)
    ensures Represents(s, w3, p3, k)
    ensures w3.db.users.Keys == {0} && w3.db.users[0].recoveryPhraseEnvelope.None?
  {
    hide Represents, Next, PlainAfter, Suite.Ideal;
    w0 := World(Database(map[], map[], map[], map[], map[]), map[]);
    EmptyWorldRepresents(s);
    assert !IsWhitespace("u"[0]);
    w1 := FirstAccount(s, w0, "u", "p");
    k := StepKeeps(s, w0, w1, NOTHING, Keyring(map[], map[]), AddAccount(0, "p"));
    w2 := VaultCanBeCreated(s, w1, p1, k, 0, 0);
    k := StepKeeps(s, w1, w2, p1, k, CreateVault(0, 0));
    w3 := SecretCanBeStored(s, w2, p2, k, 0, 0, 0, value);
    k := StepKeeps(s, w2, w3, p2, k, CreateSecret(0, 0, 0, value));
  }

  lemma VaultCanBeTrashed(s: Suite, w: World, p: Plain, k: Keyring, v: VaultId) returns (w': World)
    requires Represents(s, w, p, k) && p.LiveVault(v)
    ensures Next(s, w, p, Trash(TrashStep.DeleteVault(v)), w') && w'.db.users == w.db.users
  {
    hide Represents;
    SameTables(s, w, p, k);
    w' := w.(db := VaultTrashed(w.db, v).value);
  }

  lemma ChangedAndRestored(s: Suite, w: World, p: Plain, p': Plain, k: Keyring) returns (w5: World, w6: World)
    requires s.Ideal() && Represents(s, w, p, k)
    requires p.passwords == map[0 := "p"] && p.accountKeys == {} && p.totp == map[]
    requires p.vaults == map[0 := PlainVault(0, true)] && (0, 0) in p.TrashedAccess(0)
    requires 0 in p.secrets && p.secrets[0].vault == 0 && p.secrets[0].deleted
    requires w.db.users.Keys == {0} && w.db.users[0].recoveryPhraseEnvelope.None?
    ensures Next(s, w, p, ChangePassword(0, "q"), w5) && Next(s, w5, p', Trash(Restore(0, 0)), w6)
    ensures w6.db.users.Keys == {0} && LiveSecret(w6.db, 0)
    ensures forall typed :: ReadThrough(s, w6, 0, typed, 0).None?
    ensures exists key :: ShutOut(s, w6, 0, "q", 0, key)
  {
    hide Represents, ReadThrough, Suite.Ideal, PasswordChanged, IsAccountKey, LoginKey, Plain.TrashedAccess;
    SameTables(s, w, p, k);
    AccountKeyIsKey(s, w, p, k, 0);
    var newKey := AnotherKey(k.accounts[0]);
    w5 := KeyCanChange(s, w, p, k, 0, "q", newKey);
    w6 := w5.(db := Restored(w5.db, 0, 0).value);
    RestoredAfterKeyChange(s, w, w5, w6, p, k, 0, 0, 0, "q", newKey);
    assert ShutOut(s, w6, 0, "q", 0, newKey);
  }

  /** The current password still gives the session a key; that key does not open the vault, and the next
      step that reads every vault would stop. */
  ghost predicate ShutOut(s: Suite, w: World, u: UserId, password: string, v: VaultId, key: Bytes) {
    && SessionKey(s, w, u, password) == Some(key)
    && OpenVaultForUser(s, w.db, u, v, key).Err? && !OpensEveryVault(s, w.db, u, key)
  }

  /** A legacy account, a vault, a secret; the vault goes to the trash, the password changes, the secret
      is restored. It was readable before; now it is live, and no password reads it. */
  lemma LossHappens(s: Suite, value: Bytes) returns (r: Run)
    requires s.Ideal()
    ensures IsRun(s, r) && Represents(s, r.worlds[0], r.plains[0], Keyring(map[], map[])) && r.plains[0] == NOTHING
    ensures r.steps == [AddAccount(0, "p"), CreateVault(0, 0), CreateSecret(0, 0, 0, value),
                        Trash(TrashStep.DeleteVault(0)), ChangePassword(0, "q"), Trash(Restore(0, 0))]
    ensures ReadThrough(s, r.worlds[3], 0, "p", 0) == Some(value)
    ensures r.plains[6].secrets == map[0 := PlainSecret(0, value, false)] && LiveSecret(r.worlds[6].db, 0)
    ensures r.worlds[6].db.users.Keys == {0} && forall typed :: ReadThrough(s, r.worlds[6], 0, typed, 0).None?
    ensures exists key :: ShutOut(s, r.worlds[6], 0, "q", 0, key)
  {
    hide Represents, Next, PlainAfter, ReadThrough, ShutOut, Suite.Ideal, Plain.CanRead, Plain.CanOpen, Plain.TrashedAccess;
    var ps := PlainsOfLoss(value);
    var w0, w1, w2, w3, k := SecretStored(s, ps[1], ps[2], ps[3], value);
    RepresentedSecretsRead(s, w3, ps[3], k, 0, 0);
    var w4 := VaultCanBeTrashed(s, w3, ps[3], k, 0);
    k := StepKeeps(s, w3, w4, ps[3], k, Trash(TrashStep.DeleteVault(0)));
    var w5, w6 := ChangedAndRestored(s, w4, ps[4], ps[5], k);
    r := Run([w0, w1, w2, w3, w4, w5, w6], ps,
             [AddAccount(0, "p"), CreateVault(0, 0), CreateSecret(0, 0, 0, value),
              Trash(TrashStep.DeleteVault(0)), ChangePassword(0, "q"), Trash(Restore(0, 0))]);
  }

  lemma SameTables(s: Suite, w: World, p: Plain, k: Keyring)
    requires Represents(s, w, p, k)
    ensures w.db.users.Keys == p.passwords.Keys && w.db.vaults.Keys == p.vaults.Keys && w.db.secrets.Keys == p.secrets.Keys
    ensures forall v :: v in p.vaults ==> w.db.vaults[v].deleted == p.vaults[v].deleted
    ensures forall x :: x in p.secrets ==>
      w.db.secrets[x].vault == p.secrets[x].vault && w.db.secrets[x].deleted == p.secrets[x].deleted
  {
    hide AccountOk, SharesOk, KeysOk, TrashConsistent, SoleAccountKey, OpenBlob;
    forall v | v in p.vaults ensures w.db.vaults[v].deleted == p.vaults[v].deleted {
      assert VaultOk(w.db, p, k, v);
    }
    forall x | x in p.secrets
      ensures w.db.secrets[x].vault == p.secrets[x].vault && w.db.secrets[x].deleted == p.secrets[x].deleted
    {
      assert SecretOk(s, w.db, p, k, x);
    }
  }
}
