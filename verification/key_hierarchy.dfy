/** The key hierarchy as a refinement. `Plain` is what the users see: passwords, phrases, vaults and
    secret values. A `World` (database and in-memory credentials) represents it when the current
    password opens an account key, that key opens the vault keys, and those open the secret values.
    Every operation, whatever it rewraps, moves the world so that it represents the plain outcome. */
module KeyHierarchy {
  import opened Wrappers
  import opened Text
  import opened Crypto
  import opened PasswordEnvelopes
  import opened AccountKeys
  import opened Tables
  import opened RekeyService
  import opened AuthServices
  import opened SecretRepository
  import opened Access

  datatype PlainVault = PlainVault(owner: UserId, deleted: bool)

  datatype PlainSecret = PlainSecret(vault: VaultId, value: Bytes, deleted: bool)

  /** `access` pairs a user with each vault whose stored key opens with that user's key; `lost` pairs
      those whose stored key was left behind when the user's key changed. */
  datatype Plain = Plain(
    passwords: map<UserId, string>,
    phrases: map<UserId, string>,
    totp: map<UserId, Bytes>,
    accountKeys: set<UserId>,
    vaults: map<VaultId, PlainVault>,
    secrets: map<SecretId, PlainSecret>,
    access: set<(UserId, VaultId)>,
    lost: set<(UserId, VaultId)>)
  {
    predicate LiveVault(v: VaultId) {
      v in vaults && !vaults[v].deleted
    }

    predicate CanOpen(u: UserId, v: VaultId) {
      (u, v) in access && LiveVault(v)
    }

    predicate CanRead(u: UserId, x: SecretId) {
      x in secrets && !secrets[x].deleted && (u, secrets[x].vault) in access
    }

    function Readable(u: UserId): set<SecretId> {
      set x | x in secrets && CanRead(u, x)
    }

    ghost predicate NothingLostIsLive(u: UserId) {
      forall v :: (u, v) in lost ==> !LiveVault(v)
    }

    /** What `u` can open but for its being in the trash. */
    function TrashedAccess(u: UserId): set<(UserId, VaultId)> {
      set a | a in access && a.0 == u && a.1 in vaults && vaults[a.1].deleted
    }

    /** A new key for `u` reaches the live vaults alone. */
    function KeyChanged(u: UserId): Plain {
      this.(access := access - TrashedAccess(u), lost := lost + TrashedAccess(u))
    }

    /** `u` receives the key of `v`, sealed under the current key. */
    function Granted(u: UserId, v: VaultId): Plain {
      this.(access := access + {(u, v)}, lost := lost - {(u, v)})
    }

    function Revoked(u: UserId, v: VaultId): Plain {
      this.(access := access - {(u, v)}, lost := lost - {(u, v)})
    }
  }

  const NOTHING: Plain := Plain(map[], map[], map[], {}, map[], map[], {}, {})

  /** The keys that connect the two; nobody stores them in clear. */
  datatype Keyring = Keyring(accounts: map<UserId, Bytes>, vaults: map<VaultId, Bytes>)

  // ---- the representation invariant ------------------------------------------------------------------

  /** The recovery phrase still leads to the account: sealed account key, or stored legacy phrase. */
  ghost predicate PhraseOk(s: Suite, row: UserRow, phrase: string, key: Bytes)
    requires row.passwordEnvelope.Some?
  {
    if IsAccountKey(row.passwordEnvelope.value) then SealedWith(s, row.recoveryKeyEnvelope, phrase, key)
    else
      && row.recoveryPhraseEnvelope.Some?
      && ReadBlob(s, Versioned, row.recoveryPhraseEnvelope.value, key) == Some(s.utf8(phrase))
  }

  ghost predicate AccountOk(s: Suite, w: World, p: Plain, k: Keyring, u: UserId)
    requires u in w.db.users && u in p.passwords && u in k.accounts
  {
    var row, key := w.db.users[u], k.accounts[u];
    && row.passwordEnvelope.Some?
    && !IsBlank(row.username)
    && row.username in w.creds && w.creds[row.username] == row.passwordEnvelope.value
    && |key| == KEY_LEN
    && Opens(s, row.passwordEnvelope.value, p.passwords[u], key)
    && (u in p.accountKeys <==> IsAccountKey(row.passwordEnvelope.value))
    && (row.totpSecret.Some? <==> u in p.totp)
    && (row.totpSecret.Some? ==> OpenBlob(s, row.totpSecret.value, key) == Some(p.totp[u]))
    && (u in p.phrases ==> PhraseOk(s, row, p.phrases[u], key))
  }

  ghost predicate UsersOk(s: Suite, w: World, p: Plain, k: Keyring) {
    && p.passwords.Keys == w.db.users.Keys
    && k.accounts.Keys == w.db.users.Keys
    && p.accountKeys <= w.db.users.Keys
    && (forall u :: u in w.db.users ==> AccountOk(s, w, p, k, u))
    && (forall u, u' :: u in w.db.users && u' in w.db.users && w.db.users[u].username == w.db.users[u'].username ==>
          u == u')
  }

  predicate UsesAccountKey(db: Database, u: UserId) {
    u in db.users && db.users[u].passwordEnvelope.Some? && IsAccountKey(db.users[u].passwordEnvelope.value)
  }

  /** An account-key account is the only account. */
  ghost predicate SoleAccountKey(db: Database) {
    forall u :: u in db.users && UsesAccountKey(db, u) ==> db.users.Keys == {u}
  }

  ghost predicate VaultOk(db: Database, p: Plain, k: Keyring, v: VaultId)
    requires v in db.vaults && v in p.vaults
  {
    && p.vaults[v] == PlainVault(db.vaults[v].owner, db.vaults[v].deleted)
    && db.vaults[v].owner in k.accounts
  }

  ghost predicate VaultsOk(db: Database, p: Plain, k: Keyring) {
    && p.vaults.Keys == db.vaults.Keys
    && forall v :: v in db.vaults ==> VaultOk(db, p, k, v)
  }

  ghost predicate SharesOk(db: Database, k: Keyring) {
    forall h :: h in db.shares ==> ShareOk(db, k, h)
  }

  ghost predicate ShareOk(db: Database, k: Keyring, h: (VaultId, UserId)) {
    h.0 in db.vaults && h.1 in k.accounts && db.vaults[h.0].owner != h.1
  }

  /** A copy of the key of `v` is stored for `u`, as owner or as recipient of a share. */
  predicate HasKey(db: Database, u: UserId, v: VaultId) {
    v in db.vaults && db.EnvelopeFor(u, v).Some?
  }

  /** Whatever key opens the envelope, it gives this vault key. */
  ghost predicate OnlyHolds(s: Suite, envelope: Bytes, vaultKey: Bytes) {
    forall key: Bytes :: OpenBlob(s, envelope, key).Some? ==> OpenBlob(s, envelope, key).value == vaultKey
  }

  /** The stored keys are those of the pairs with access and of the lost ones, which are apart. Each holds
      the key of its vault and nothing else, and those with access open with the key of their user. */
  ghost predicate PairOk(s: Suite, db: Database, p: Plain, k: Keyring, u: UserId, v: VaultId) {
    && (HasKey(db, u, v) <==> (u, v) in p.access || (u, v) in p.lost)
    && ((u, v) in p.access ==> (u, v) !in p.lost && u in k.accounts)
    && (HasKey(db, u, v) ==>
          var envelope := db.EnvelopeFor(u, v).value;
          && v in k.vaults && |k.vaults[v]| == KEY_LEN
          && OnlyHolds(s, envelope, k.vaults[v])
          && ((u, v) in p.access ==> OpenBlob(s, envelope, k.accounts[u]) == Some(k.vaults[v])))
  }

  ghost predicate KeysOk(s: Suite, db: Database, p: Plain, k: Keyring) {
    forall u, v :: PairOk(s, db, p, k, u, v)
  }

  ghost predicate SecretOk(s: Suite, db: Database, p: Plain, k: Keyring, x: SecretId)
    requires x in db.secrets && x in p.secrets
  {
    var row := db.secrets[x];
    && row.vault in db.vaults && row.vault in k.vaults
    && p.secrets[x].vault == row.vault && p.secrets[x].deleted == row.deleted
    && OpenBlob(s, row.Blob(), k.vaults[row.vault]) == Some(p.secrets[x].value)
  }

  ghost predicate SecretsOk(s: Suite, db: Database, p: Plain, k: Keyring) {
    && p.secrets.Keys == db.secrets.Keys
    && forall x :: x in db.secrets ==> SecretOk(s, db, p, k, x)
  }

  ghost predicate Represents(s: Suite, w: World, p: Plain, k: Keyring) {
    && UsersOk(s, w, p, k)
    && SoleAccountKey(w.db)
    && VaultsOk(w.db, p, k)
    && SharesOk(w.db, k)
    && KeysOk(s, w.db, p, k)
    && SecretsOk(s, w.db, p, k)
    && TrashConsistent(w.db)
  }

  // ---- reading through the hierarchy -------------------------------------------------------------------

  /** The key a login with `password` gives the session. */
  function SessionKey(s: Suite, w: World, u: UserId, password: string): Option<Bytes> {
    if u !in w.db.users || w.db.users[u].username !in w.creds then None
    else
      match Decode(w.creds[w.db.users[u].username])
      case Err(_) => None
      case Ok(e) =>
        match Unlock(s, e, password)
        case Err(_) => None
        case Ok(key) => key
  }

  /** Login, open the vault, read the secret. */
  function ReadThrough(s: Suite, w: World, u: UserId, password: string, x: SecretId): Option<Bytes> {
    if x !in w.db.secrets then None
    else
      match SessionKey(s, w, u, password)
      case None => None
      case Some(key) =>
        match OpenVaultForUser(s, w.db, u, w.db.secrets[x].vault, key)
        case Err(_) => None
        case Ok(vaultKey) =>
          match GetSecret(s, w.db, x, vaultKey)
          case Err(_) => None
          case Ok(value) => Some(value)
  }

  lemma SessionKeyIsAccountKey(s: Suite, w: World, p: Plain, k: Keyring, u: UserId)
    requires Represents(s, w, p, k) && u in w.db.users
    ensures SessionKey(s, w, u, p.passwords[u]) == Some(k.accounts[u])
  {
    assert AccountOk(s, w, p, k, u);
  }

  /** A vault the user has access to opens while it is live. */
  lemma AccessibleVaultOpens(s: Suite, w: World, p: Plain, k: Keyring, u: UserId, v: VaultId)
    requires Represents(s, w, p, k) && p.CanOpen(u, v)
    ensures u in w.db.users && w.db.LiveVault(v) && w.db.Keyed(u, v)
    ensures u in k.accounts && v in k.vaults && |k.vaults[v]| == KEY_LEN
    ensures VaultKeyOf(s, w.db, u, v, k.accounts[u]) == Some(k.vaults[v])
    ensures OpenVaultForUser(s, w.db, u, v, k.accounts[u]) == Ok(k.vaults[v])
  {
    hide AccountOk, SoleAccountKey, SharesOk, SecretsOk, TrashConsistent, OnlyHolds;
    assert VaultOk(w.db, p, k, v);
    assert PairOk(s, w.db, p, k, u, v);
  }

  /** Whatever opens a vault, lost or not, gives its key. */
  lemma OpenedVaultGivesKey(s: Suite, w: World, p: Plain, k: Keyring, u: UserId, v: VaultId, key: Bytes)
    requires Represents(s, w, p, k) && v in w.db.vaults && VaultKeyOf(s, w.db, u, v, key).Some?
    ensures v in k.vaults && VaultKeyOf(s, w.db, u, v, key) == Some(k.vaults[v]) && |k.vaults[v]| == KEY_LEN
  {
    hide UsersOk, SoleAccountKey, VaultsOk, SharesOk, SecretsOk, TrashConsistent, OpenBlob;
    assert PairOk(s, w.db, p, k, u, v);
    assert OpenBlob(s, w.db.EnvelopeFor(u, v).value, key).Some?;
  }

  /** Nothing is lost: every live secret of every vault a user has access to reads, with that user's
      current password, as the value last stored. */
  lemma RepresentedSecretsRead(s: Suite, w: World, p: Plain, k: Keyring, u: UserId, x: SecretId)
    requires Represents(s, w, p, k) && p.CanRead(u, x)
    ensures u in p.passwords && LiveSecret(w.db, x) && p.CanOpen(u, p.secrets[x].vault)
    ensures ReadThrough(s, w, u, p.passwords[u], x) == Some(p.secrets[x].value)
  {
    hide AccountOk, SoleAccountKey, SharesOk, KeysOk, OpenVaultForUser, SessionKey;
    assert SecretOk(s, w.db, p, k, x);
    assert RowConsistent(w.db, x);
    assert VaultOk(w.db, p, k, p.secrets[x].vault);
    AccessibleVaultOpens(s, w, p, k, u, p.secrets[x].vault);
    SessionKeyIsAccountKey(s, w, p, k, u);
  }

  /** A re-key of a represented account never stops at a vault, unless a lost one is live again. */
  lemma RepresentedAccountRekeys(s: Suite, w: World, p: Plain, k: Keyring, u: UserId)
    requires Represents(s, w, p, k) && u in w.db.users && p.NothingLostIsLive(u)
    ensures OpensEveryVault(s, w.db, u, k.accounts[u])
  {
    hide AccountOk, SoleAccountKey, SharesOk, SecretsOk, TrashConsistent, VaultKeyOf, OnlyHolds;
    forall v | v in w.db.vaults && w.db.Keyed(u, v)
      ensures VaultKeyOf(s, w.db, u, v, k.accounts[u]).Some?
    {
      assert PairOk(s, w.db, p, k, u, v);
      assert VaultOk(w.db, p, k, v);
      AccessibleVaultOpens(s, w, p, k, u, v);
    }
  }

  /** ... nothing that reads with the key of the account is unreadable then: the report counts every live
      secret behind a key of the user's as readable, and those are the secrets the user can read. */
  lemma RepresentedReport(s: Suite, w: World, p: Plain, k: Keyring, u: UserId, key: Bytes, report: RekeyReport)
    requires Represents(s, w, p, k) && u in w.db.users && OpensEveryVault(s, w.db, u, key)
    requires Counted(s, w.db, u, key, report)
    ensures report.secretsUnreadable == 0
    ensures p.NothingLostIsLive(u) ==> report.secretsReadable == |p.Readable(u)|
  {
    hide Represents, OpensEveryVault, Reads, Plain.NothingLostIsLive, Plain.Readable, Database.Keyed;
    forall x ensures x in SecretsRead(s, w.db, u, key) <==> x in KeyedLive(w.db, u) {
      KeyedLiveReads(s, w, p, k, u, key, x);
    }
    assert SecretsRead(s, w.db, u, key) == KeyedLive(w.db, u);
    if p.NothingLostIsLive(u) {
      forall x ensures x in KeyedLive(w.db, u) <==> x in p.Readable(u) {
        KeyedLiveIsReadable(s, w, p, k, u, x);
      }
      assert KeyedLive(w.db, u) == p.Readable(u);
    }
  }

  lemma KeyedLiveReads(s: Suite, w: World, p: Plain, k: Keyring, u: UserId, key: Bytes, x: SecretId)
    requires Represents(s, w, p, k) && u in w.db.users && OpensEveryVault(s, w.db, u, key)
    ensures x in SecretsRead(s, w.db, u, key) <==> x in KeyedLive(w.db, u)
  {
    hide UsersOk, SoleAccountKey, VaultsOk, SharesOk, KeysOk;
    if x in w.db.secrets && !w.db.secrets[x].deleted && w.db.Keyed(u, w.db.secrets[x].vault) {
      OpenedVaultGivesKey(s, w, p, k, u, w.db.secrets[x].vault, key);
      assert SecretOk(s, w.db, p, k, x);
      assert RowConsistent(w.db, x);
    }
  }

  lemma KeyedLiveIsReadable(s: Suite, w: World, p: Plain, k: Keyring, u: UserId, x: SecretId)
    requires Represents(s, w, p, k) && p.NothingLostIsLive(u)
    ensures x in KeyedLive(w.db, u) <==> x in p.Readable(u)
  {
    hide UsersOk, SoleAccountKey, SharesOk, OpenBlob, OnlyHolds;
    if x in w.db.secrets {
      var v := w.db.secrets[x].vault;
      assert SecretOk(s, w.db, p, k, x);
      assert VaultOk(w.db, p, k, v);
      assert PairOk(s, w.db, p, k, u, v);
      assert RowConsistent(w.db, x);
    }
  }

  // ---- re-keying keeps the representation ----------------------------------------------------------------

  lemma OneKeyHolds(s: Suite, envelope: Bytes, key: Bytes)
    requires s.Ideal() && OpenBlob(s, envelope, key).Some?
    ensures OnlyHolds(s, envelope, OpenBlob(s, envelope, key).value)
  {
    hide ReadBlob;
    forall other: Bytes | OpenBlob(s, envelope, other).Some?
      ensures OpenBlob(s, envelope, other) == OpenBlob(s, envelope, key)
    {
      BlobOpensUnderOneKey(s, NonceCiphertext, envelope, key, other);
    }
  }

  /** The phrases known after a re-key: one given for sealing becomes the phrase of the account. */
  function PhrasesAfter(p: Plain, u: UserId, recovery: RecoveryMaterial): map<UserId, string> {
    match recovery
    case SealedAccountKey(Some(phrase)) => p.phrases[u := phrase]
    case _ => p.phrases
  }

  /** What the users see after a re-key of `u`. */
  function PlainRekeyed(p: Plain, u: UserId, newPassword: string, recovery: RecoveryMaterial): Plain {
    p.KeyChanged(u).(passwords := p.passwords[u := newPassword], phrases := PhrasesAfter(p, u, recovery),
                     accountKeys := if recovery.SealedAccountKey? then p.accountKeys + {u} else p.accountKeys)
  }

  /** A rewrap touches the stored keys of `u` for live vaults, and no other. */
  lemma RewrappedEnvelope(s: Suite, before: Database, after: Database, u: UserId, oldKey: Bytes, newKey: Bytes,
                          o: UserId, v: VaultId)
    requires VaultsRewrapped(s, before, after, u, oldKey, newKey) && SharesRewrapped(s, before, after, u, oldKey, newKey)
    ensures HasKey(after, o, v) <==> HasKey(before, o, v)
    ensures HasKey(before, o, v) ==>
      if o == u && before.LiveVault(v) then
        SameKeyInside(s, before.EnvelopeFor(o, v).value, after.EnvelopeFor(o, v).value, oldKey, newKey)
      else after.EnvelopeFor(o, v) == before.EnvelopeFor(o, v)
  {
    hide SameKeyInside;
    if v in before.vaults && before.vaults[v].owner != o && (v, o) in before.shares {
      assert Receives(before, u, (v, o)) <==> o == u && before.LiveVault(v);
    }
  }

  lemma RekeyedPairOk(s: Suite, before: Database, after: Database, p: Plain, p': Plain, k: Keyring, u: UserId, newKey: Bytes,
                      o: UserId, v: VaultId)
    requires s.Ideal() && u in k.accounts && PairOk(s, before, p, k, o, v)
    requires VaultsRewrapped(s, before, after, u, k.accounts[u], newKey)
    requires SharesRewrapped(s, before, after, u, k.accounts[u], newKey)
    requires v in before.vaults ==> v in p.vaults && p.vaults[v].deleted == before.vaults[v].deleted
    requires p'.access == p.KeyChanged(u).access && p'.lost == p.KeyChanged(u).lost
    ensures PairOk(s, after, p', k.(accounts := k.accounts[u := newKey]), o, v)
  {
    hide Suite.Ideal, VaultsRewrapped, SharesRewrapped, OpenBlob;
    RewrappedEnvelope(s, before, after, u, k.accounts[u], newKey, o, v);
    if HasKey(before, o, v) && o == u && before.LiveVault(v) {
      OneKeyHolds(s, after.EnvelopeFor(o, v).value, newKey);
    }
  }

  /** After a re-key every stored key of a live vault opens under the new key to the vault key it held. */
  lemma RekeyKeepsVaults(s: Suite, w: World, db: Database, p: Plain, p': Plain, k: Keyring, u: UserId, newKey: Bytes)
    requires s.Ideal()
    requires Represents(s, w, p, k) && u in w.db.users
    requires VaultsRewrapped(s, w.db, db, u, k.accounts[u], newKey)
    requires SharesRewrapped(s, w.db, db, u, k.accounts[u], newKey)
    requires p'.vaults == p.vaults && p'.access == p.KeyChanged(u).access && p'.lost == p.KeyChanged(u).lost
    ensures VaultsOk(db, p', k.(accounts := k.accounts[u := newKey]))
    ensures SharesOk(db, k.(accounts := k.accounts[u := newKey]))
    ensures KeysOk(s, db, p', k.(accounts := k.accounts[u := newKey]))
  {
    hide AccountOk, PairOk, SoleAccountKey, SecretsOk, TrashConsistent, Suite.Ideal, SameKeyInside;
    var k' := k.(accounts := k.accounts[u := newKey]);
    forall v | v in db.vaults ensures VaultOk(db, p', k', v) {
      assert VaultOk(w.db, p, k, v);
    }
    forall h | h in db.shares ensures ShareOk(db, k', h) {
      assert ShareOk(w.db, k, h);
    }
    forall o, v ensures PairOk(s, db, p', k', o, v) {
      assert PairOk(s, w.db, p, k, o, v);
      assert v in w.db.vaults ==> VaultOk(w.db, p, k, v);
      RekeyedPairOk(s, w.db, db, p, p', k, u, newKey, o, v);
    }
  }

  /** An account none of whose own material changed. */
  lemma AccountUntouched(s: Suite, w: World, w': World, p: Plain, p': Plain, k: Keyring, k': Keyring, o: UserId)
    requires o in w.db.users && o in p.passwords && o in k.accounts && AccountOk(s, w, p, k, o)
    requires o in w'.db.users && w'.db.users[o] == w.db.users[o]
    requires w.db.users[o].username in w.creds ==>
      w.db.users[o].username in w'.creds && w'.creds[w.db.users[o].username] == w.creds[w.db.users[o].username]
    requires o in p'.passwords && p'.passwords[o] == p.passwords[o] && o in k'.accounts && k'.accounts[o] == k.accounts[o]
    requires o in p'.totp <==> o in p.totp
    requires o in p'.accountKeys <==> o in p.accountKeys
    requires o in p.totp ==> p'.totp[o] == p.totp[o]
    requires o in p'.phrases ==> o in p.phrases && p'.phrases[o] == p.phrases[o]
    ensures AccountOk(s, w', p', k', o)
  {
    hide OpenBlob, Opens, PhraseOk, IsBlank;
  }

  lemma RekeyedAccountOk(s: Suite, w: World, w': World, p: Plain, k: Keyring, u: UserId, newPassword: string,
                         newKey: Bytes, stored: Bytes, recovery: RecoveryMaterial)
    requires s.Ideal()
    requires u in w.db.users && u in p.passwords && u in k.accounts && AccountOk(s, w, p, k, u)
    requires !UsesAccountKey(w.db, u)
    requires Rekeyed(s, w.db, w'.db, u, k.accounts[u], newKey, stored, recovery)
    requires w'.creds == w.creds[w.db.users[u].username := stored]
    requires Opens(s, stored, newPassword, newKey) && |newKey| == KEY_LEN
    requires IsAccountKey(stored) <==> recovery.SealedAccountKey?
    ensures AccountOk(s, w', PlainRekeyed(p, u, newPassword, recovery), k.(accounts := k.accounts[u := newKey]), u)
  {
    hide VaultsRewrapped, SharesRewrapped, Opens, IsBlank, SealedWith, ReadBlob, IsAccountKey;
    if u in p.phrases {
      assert s.EncodesText();
      assert s.fromUtf8(s.utf8(p.phrases[u])) == Some(p.phrases[u]);
    }
  }

  lemma RekeyKeepsAccounts(s: Suite, w: World, w': World, p: Plain, k: Keyring, u: UserId, newPassword: string,
                           newKey: Bytes, stored: Bytes, recovery: RecoveryMaterial)
    requires s.Ideal()
    requires UsersOk(s, w, p, k) && u in w.db.users && !UsesAccountKey(w.db, u)
    requires Rekeyed(s, w.db, w'.db, u, k.accounts[u], newKey, stored, recovery)
    requires w'.creds == w.creds[w.db.users[u].username := stored]
    requires Opens(s, stored, newPassword, newKey) && |newKey| == KEY_LEN
    requires IsAccountKey(stored) <==> recovery.SealedAccountKey?
    ensures UsersOk(s, w', PlainRekeyed(p, u, newPassword, recovery), k.(accounts := k.accounts[u := newKey]))
  {
    hide VaultsRewrapped, SharesRewrapped, Opens, RecoveryRewritten, RewrittenBlob, IsAccountKey, AccountOk;
    var p' := PlainRekeyed(p, u, newPassword, recovery);
    var k' := k.(accounts := k.accounts[u := newKey]);
    forall o | o in w'.db.users ensures AccountOk(s, w', p', k', o) {
      assert AccountOk(s, w, p, k, o);
      if o == u {
        RekeyedAccountOk(s, w, w', p, k, u, newPassword, newKey, stored, recovery);
      } else {
        AccountUntouched(s, w, w', p, p', k, k', o);
      }
    }
  }

  lemma RekeyKeepsSecrets(s: Suite, before: Database, after: Database, p: Plain, p': Plain, k: Keyring, k': Keyring)
    requires SecretsOk(s, before, p, k) && TrashConsistent(before)
    requires after.secrets == before.secrets && after.vaults.Keys == before.vaults.Keys
    requires forall v :: v in before.vaults ==>
      after.vaults[v].deleted == before.vaults[v].deleted
      && (before.vaults[v].envelope.Some? ==> after.vaults[v].envelope.Some?)
    requires p'.secrets == p.secrets && k'.vaults == k.vaults
    ensures SecretsOk(s, after, p', k') && TrashConsistent(after)
  {
    hide OpenBlob;
    forall x | x in after.secrets ensures SecretOk(s, after, p', k', x) {
      assert SecretOk(s, before, p, k, x);
    }
  }

  /** A re-key changes the password, the phrase given for sealing, and which trashed vaults its user
      could open again; nothing else that users see. */
  lemma RekeyRepresents(s: Suite, w: World, w': World, p: Plain, k: Keyring, u: UserId, newPassword: string,
                        newKey: Bytes, stored: Bytes, recovery: RecoveryMaterial)
    requires s.Ideal()
    requires Represents(s, w, p, k) && u in w.db.users && !UsesAccountKey(w.db, u)
    requires Rekeyed(s, w.db, w'.db, u, k.accounts[u], newKey, stored, recovery)
    requires w'.creds == w.creds[w.db.users[u].username := stored]
    requires Opens(s, stored, newPassword, newKey) && |newKey| == KEY_LEN
    requires IsAccountKey(stored) <==> recovery.SealedAccountKey?
    requires IsAccountKey(stored) ==> SingleAccount(w.db)
    ensures Represents(s, w', PlainRekeyed(p, u, newPassword, recovery), k.(accounts := k.accounts[u := newKey]))
  {
    hide UsersOk, VaultsOk, SharesOk, KeysOk, SecretsOk, TrashConsistent, OpenBlob, Opens, RecoveryRewritten, RewrittenBlob;
    var p' := PlainRekeyed(p, u, newPassword, recovery);
    var k' := k.(accounts := k.accounts[u := newKey]);
    RekeyKeepsAccounts(s, w, w', p, k, u, newPassword, newKey, stored, recovery);
    RekeyKeepsVaults(s, w, w'.db, p, p', k, u, newKey);
    RekeyKeepsSecrets(s, w.db, w'.db, p, p', k, k');
    if IsAccountKey(stored) {
      OnlyKey(w.db.users.Keys, u);
    }
    NoAccountKeyBeside(w.db, u);
  }

  lemma NoAccountKeyBeside(db: Database, u: UserId)
    requires SoleAccountKey(db) && u in db.users && !UsesAccountKey(db, u)
    ensures forall o :: o in db.users ==> !UsesAccountKey(db, o)
  {
  }

  lemma OnlyKey<T>(keys: set<T>, x: T)
    requires |keys| == 1 && x in keys
    ensures keys == {x}
  {
    assert |keys - {x}| == 0;
  }

  predicate StillOpens(s: Suite, db: Database, k: Keyring, u: UserId, v: VaultId, key: Bytes) {
    && HasKey(db, u, v) && v in k.vaults
    && OpenBlob(s, db.EnvelopeFor(u, v).value, key) == Some(k.vaults[v])
  }

  /** No vault `u` owns or receives a key of is in the trash. */
  ghost predicate NothingKeyedInTrash(db: Database, u: UserId) {
    forall v :: HasKey(db, u, v) ==> !db.vaults[v].deleted
  }

  /** Exactly the vaults in the trash are left behind: after a re-key to another key, a vault its user
      had access to, owned or received, opens under the new key if and only if it was live. */
  lemma RekeyReachesExactlyLiveVaults(s: Suite, w: World, after: Database, p: Plain, k: Keyring, u: UserId,
                                      newKey: Bytes, v: VaultId)
    requires s.Ideal()
    requires Represents(s, w, p, k) && u in w.db.users && (u, v) in p.access
    requires VaultsRewrapped(s, w.db, after, u, k.accounts[u], newKey)
    requires SharesRewrapped(s, w.db, after, u, k.accounts[u], newKey)
    requires newKey != k.accounts[u]
    ensures HasKey(w.db, u, v) && HasKey(after, u, v)
    ensures StillOpens(s, after, k, u, v, newKey) <==> !w.db.vaults[v].deleted
    ensures w.db.vaults[v].deleted ==> OpenBlob(s, after.EnvelopeFor(u, v).value, newKey).None?
  {
    hide UsersOk, SoleAccountKey, VaultsOk, SharesOk, SecretsOk, TrashConsistent, ReadBlob, VaultsRewrapped, SharesRewrapped,
      Suite.Ideal, OnlyHolds;
    assert PairOk(s, w.db, p, k, u, v);
    RewrappedEnvelope(s, w.db, after, u, k.accounts[u], newKey, u, v);
    if w.db.vaults[v].deleted {
      BlobOpensUnderOneKey(s, NonceCiphertext, w.db.EnvelopeFor(u, v).value, k.accounts[u], newKey);
    }
  }

  /** So a key-changing step keeps every vault its user has access to exactly when none is in the trash;
      and with nothing lost before, every stored key whatever. */
  lemma RekeyKeepsEveryVaultIff(s: Suite, w: World, after: Database, p: Plain, k: Keyring, u: UserId, newKey: Bytes)
    requires s.Ideal()
    requires Represents(s, w, p, k) && u in w.db.users
    requires VaultsRewrapped(s, w.db, after, u, k.accounts[u], newKey)
    requires SharesRewrapped(s, w.db, after, u, k.accounts[u], newKey)
    requires newKey != k.accounts[u]
    ensures (forall v :: (u, v) in p.access ==> StillOpens(s, after, k, u, v, newKey)) <==> p.TrashedAccess(u) == {}
    ensures (forall v :: (u, v) !in p.lost) ==>
      ((forall v :: HasKey(w.db, u, v) ==> StillOpens(s, after, k, u, v, newKey)) <==> NothingKeyedInTrash(w.db, u))
  {
    hide UsersOk, SoleAccountKey, SharesOk, SecretsOk, TrashConsistent, VaultsRewrapped, SharesRewrapped, OpenBlob,
      Suite.Ideal, OnlyHolds, StillOpens;
    forall v | (u, v) in p.access
      ensures v in w.db.vaults && (StillOpens(s, after, k, u, v, newKey) <==> !w.db.vaults[v].deleted)
      ensures (u, v) in p.TrashedAccess(u) <==> w.db.vaults[v].deleted
      ensures HasKey(w.db, u, v)
    {
      RekeyReachesExactlyLiveVaults(s, w, after, p, k, u, newKey, v);
      assert VaultOk(w.db, p, k, v);
    }
    forall v: VaultId | HasKey(w.db, u, v) ensures (u, v) in p.access || (u, v) in p.lost {
      assert PairOk(s, w.db, p, k, u, v);
    }
    assert p.TrashedAccess(u) == {} <==> forall v :: (u, v) !in p.TrashedAccess(u);
  }

  /** The loss shows when the vault leaves the trash: its user's new session key does not open it, and
      the next step that reads every vault stops at it. */
  lemma RevivedVaultIsLost(s: Suite, w: World, after: Database, p: Plain, k: Keyring, u: UserId, newKey: Bytes, v: VaultId)
    requires s.Ideal()
    requires Represents(s, w, p, k) && u in w.db.users && u in after.users
    requires VaultsRewrapped(s, w.db, after, u, k.accounts[u], newKey)
    requires SharesRewrapped(s, w.db, after, u, k.accounts[u], newKey)
    requires newKey != k.accounts[u]
    requires (u, v) in p.TrashedAccess(u) && v in after.vaults
    ensures OpenVaultForUser(s, VaultRevived(after, v), u, v, newKey).Err?
    ensures !OpensEveryVault(s, VaultRevived(after, v), u, newKey)
  {
    hide UsersOk, SoleAccountKey, SharesOk, KeysOk, SecretsOk, TrashConsistent, VaultsRewrapped, SharesRewrapped,
      Suite.Ideal;
    RekeyReachesExactlyLiveVaults(s, w, after, p, k, u, newKey, v);
    assert VaultOk(w.db, p, k, v);
    var revived := VaultRevived(after, v);
    assert revived.EnvelopeFor(u, v) == after.EnvelopeFor(u, v);
    assert revived.Keyed(u, v) && VaultKeyOf(s, revived, u, v, newKey).None?;
  }

  /** Trash marks aside, the vault and share tables stay as they are. */
  ghost predicate SameKeyTables(before: Database, after: Database) {
    && after.shares == before.shares
    && after.vaults.Keys == before.vaults.Keys
    && forall v :: v in before.vaults ==>
      after.vaults[v].owner == before.vaults[v].owner && after.vaults[v].envelope == before.vaults[v].envelope
  }

  lemma KeysFrame(s: Suite, before: Database, after: Database, p: Plain, p': Plain, k: Keyring, k': Keyring)
    requires SharesOk(before, k) && KeysOk(s, before, p, k) && SameKeyTables(before, after)
    requires p'.access == p.access && p'.lost == p.lost && k'.vaults == k.vaults
    requires forall u :: u in k.accounts ==> u in k'.accounts && k'.accounts[u] == k.accounts[u]
    ensures SharesOk(after, k') && KeysOk(s, after, p', k')
  {
    hide OpenBlob, OnlyHolds;
    forall h | h in after.shares ensures ShareOk(after, k', h) {
      assert ShareOk(before, k, h);
    }
    forall u, v ensures PairOk(s, after, p', k', u, v) {
      assert PairOk(s, before, p, k, u, v);
      assert HasKey(after, u, v) <==> HasKey(before, u, v);
      assert HasKey(after, u, v) ==> after.EnvelopeFor(u, v) == before.EnvelopeFor(u, v);
    }
  }

  lemma VaultsFrame(s: Suite, before: Database, after: Database, p: Plain, p': Plain, k: Keyring, k': Keyring)
    requires VaultsOk(before, p, k) && SharesOk(before, k) && KeysOk(s, before, p, k)
    requires after.vaults == before.vaults && after.shares == before.shares
    requires p'.vaults == p.vaults && p'.access == p.access && p'.lost == p.lost && k'.vaults == k.vaults
    requires forall u :: u in k.accounts ==> u in k'.accounts && k'.accounts[u] == k.accounts[u]
    ensures VaultsOk(after, p', k') && SharesOk(after, k') && KeysOk(s, after, p', k')
  {
    hide SharesOk, KeysOk;
    KeysFrame(s, before, after, p, p', k, k');
    forall v | v in after.vaults ensures VaultOk(after, p', k', v) {
      assert VaultOk(before, p, k, v);
    }
  }

  lemma ReplacedAccountOk(s: Suite, w: World, w': World, p: Plain, k: Keyring, u: UserId, newPassword: string, stored: Bytes)
    requires u in w.db.users && u in p.passwords && u in k.accounts && AccountOk(s, w, p, k, u)
    requires UsesAccountKey(w.db, u)
    requires PasswordReplaced(w.db, w'.db, u, stored)
    requires w'.creds == w.creds[w.db.users[u].username := stored]
    requires IsAccountKey(stored) && Opens(s, stored, newPassword, k.accounts[u])
    ensures AccountOk(s, w', p.(passwords := p.passwords[u := newPassword]), k, u)
  {
    hide OpenBlob, ReadBlob, Opens, SealedWith, IsAccountKey, IsBlank;
  }

  lemma ReplacementKeepsAccounts(s: Suite, w: World, w': World, p: Plain, k: Keyring, u: UserId, newPassword: string, stored: Bytes)
    requires UsersOk(s, w, p, k) && u in w.db.users && UsesAccountKey(w.db, u)
    requires PasswordReplaced(w.db, w'.db, u, stored)
    requires w'.creds == w.creds[w.db.users[u].username := stored]
    requires IsAccountKey(stored) && Opens(s, stored, newPassword, k.accounts[u])
    ensures UsersOk(s, w', p.(passwords := p.passwords[u := newPassword]), k)
  {
    hide AccountOk, Opens, IsAccountKey;
    var p' := p.(passwords := p.passwords[u := newPassword]);
    forall o | o in w'.db.users ensures AccountOk(s, w', p', k, o) {
      assert AccountOk(s, w, p, k, o);
      if o == u {
        ReplacedAccountOk(s, w, w', p, k, u, newPassword, stored);
      } else {
        AccountUntouched(s, w, w', p, p', k, k, o);
      }
    }
  }

  /** A password replaced under the same key keeps everything, the trash included. */
  lemma ReplacementRepresents(s: Suite, w: World, w': World, p: Plain, k: Keyring, u: UserId, newPassword: string, stored: Bytes)
    requires Represents(s, w, p, k) && u in w.db.users && UsesAccountKey(w.db, u)
    requires PasswordReplaced(w.db, w'.db, u, stored)
    requires w'.creds == w.creds[w.db.users[u].username := stored]
    requires IsAccountKey(stored) && Opens(s, stored, newPassword, k.accounts[u])
    ensures Represents(s, w', p.(passwords := p.passwords[u := newPassword]), k)
  {
    hide OpenBlob, UsersOk, Opens, IsAccountKey, TrashConsistent, SecretsOk, VaultsOk, SharesOk, KeysOk;
    var p' := p.(passwords := p.passwords[u := newPassword]);
    ReplacementKeepsAccounts(s, w, w', p, k, u, newPassword, stored);
    VaultsFrame(s, w.db, w'.db, p, p', k, k);
    RekeyKeepsSecrets(s, w.db, w'.db, p, p', k, k);
    forall o | o in w'.db.users && UsesAccountKey(w'.db, o) ensures w'.db.users.Keys == {o} {
      assert UsesAccountKey(w.db, u);
    }
  }
}
