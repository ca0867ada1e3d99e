/** Runs of the application over the key hierarchy: each step pairs what it does to the database and
    the credentials with what it means for the users, and no run loses a vault or a secret. */
module HierarchyRuns {
  import opened Wrappers
  import opened Text
  import opened Crypto
  import opened PasswordEnvelopes
  import opened AccountKeys
  import opened Tables
  import opened RekeyService
  import opened AuthServices
  import opened SecretRepository
  import opened Access
  import opened KeyHierarchy

  // ---- what each operation does to the world -------------------------------------------------------------

  ghost predicate AccountStored(s: Suite, w: World, w': World, u: UserId, row: UserRow, password: string, key: Bytes) {
    && u !in w.db.users
    && !IsBlank(row.username)
    && row.passwordEnvelope.Some?
    && Opens(s, row.passwordEnvelope.value, password, key) && |key| == KEY_LEN
    && w'.db == w.db.(users := w.db.users[u := row])
    && w'.creds == w.creds[row.username := row.passwordEnvelope.value]
    && row.totpSecret.None?
  }

  /** First account: an account key from the start, sealed with the phrase shown to the user. */
  ghost predicate Bootstrapped(s: Suite, w: World, w': World, u: UserId, password: string, phrase: string, key: Bytes) {
    && w.db.users == map[]
    && u in w'.db.users
    && AccountStored(s, w, w', u, w'.db.users[u], password, key)
    && UsesAccountKey(w'.db, u)
    && SealedWith(s, w'.db.users[u].recoveryKeyEnvelope, phrase, key)
  }

  /** Another account, in the legacy form, while no account-key account is known. */
  ghost predicate AccountAdded(s: Suite, w: World, w': World, u: UserId, password: string, key: Bytes) {
    && u in w'.db.users
    && AccountStored(s, w, w', u, w'.db.users[u], password, key)
    && w'.db.users[u].username !in w.creds
    && !HasAccountKeyUser(w.creds)
    && !UsesAccountKey(w'.db, u)
  }

  ghost predicate VaultCreated(s: Suite, before: Database, after: Database, v: VaultId, owner: UserId, masterKey: Bytes) {
    && v !in before.vaults && v in after.vaults && owner in before.users
    && after == before.(vaults := before.vaults[v := after.vaults[v]])
    && after.vaults[v].owner == owner && !after.vaults[v].deleted
    && after.vaults[v].envelope.Some?
    && OpenBlob(s, after.vaults[v].envelope.value, masterKey).Some?
    && |OpenBlob(s, after.vaults[v].envelope.value, masterKey).value| == KEY_LEN
  }

  ghost predicate VaultShared(s: Suite, before: Database, after: Database, v: VaultId, u: UserId,
                              vaultKey: Bytes, recipientKey: Bytes)
  {
    && v in before.vaults && u in before.users && before.vaults[v].owner != u
    && (v, u) in after.shares
    && after == before.(shares := before.shares[(v, u) := after.shares[(v, u)]])
    && OpenBlob(s, after.shares[(v, u)], recipientKey) == Some(vaultKey)
  }

  ghost predicate VaultUnshared(before: Database, after: Database, v: VaultId, u: UserId) {
    after == before.(shares := before.shares - {(v, u)})
  }

  /** The operation of the secret repository succeeds. */
  ghost predicate Runs(before: Database, after: Database, t: TrashStep) {
    Outcome(before, t) == Ok(after)
  }

  ghost predicate SecretAdded(s: Suite, before: Database, after: Database, x: SecretId, v: VaultId, vaultKey: Bytes, value: Bytes)
  {
    exists kind, title, storage, blob ::
      Runs(before, after, Insert(x, v, kind, title, storage, blob)) && OpenBlob(s, blob, vaultKey) == Some(value)
  }

  ghost predicate SecretRewritten(s: Suite, before: Database, after: Database, x: SecretId, vaultKey: Bytes, value: Bytes) {
    exists blob :: Runs(before, after, Rewrite(x, blob)) && OpenBlob(s, blob, vaultKey) == Some(value)
  }

  /** The value the source vault key reads is the value the target vault key reads afterwards. */
  ghost predicate SecretMoved(s: Suite, before: Database, after: Database, x: SecretId, target: VaultId,
                              sourceKey: Bytes, targetKey: Bytes)
  {
    && x in before.secrets
    && exists blob ::
         Runs(before, after, Move(x, target, blob)) && OpenBlob(s, blob, targetKey) == OpenBlob(s, before.secrets[x].Blob(), sourceKey)
  }

  /** One of the three branches of a password change, chosen as the service chooses it. */
  ghost predicate PasswordChanged(s: Suite, w: World, w': World, u: UserId, oldKey: Bytes, newPassword: string, newKey: Bytes)
  {
    && u in w.db.users && u in w'.db.users && w'.db.users[u].passwordEnvelope.Some?
    && var stored := w'.db.users[u].passwordEnvelope.value;
       && Opens(s, stored, newPassword, newKey)
       && w.db.users[u].username in w.creds
       && w'.creds == w.creds[w.db.users[u].username := stored]
       && if IsAccountKey(w.creds[w.db.users[u].username]) then
            PasswordReplaced(w.db, w'.db, u, stored) && newKey == oldKey && IsAccountKey(stored)
          else
            && |newKey| == KEY_LEN
            && (IsAccountKey(stored) <==> SingleAccount(w.db))
            && Rekeyed(s, w.db, w'.db, u, oldKey, newKey, stored,
                       if SingleAccount(w.db) then SealedAccountKey(None) else LegacyPhraseEnvelope)
  }

  ghost predicate RecoverySealed(s: Suite, before: Database, after: Database, u: UserId, phrase: string, key: Bytes) {
    && u in before.users && u in after.users
    && SealedWith(s, after.users[u].recoveryKeyEnvelope, phrase, key)
    && after == before.(users := before.users[u :=
         before.users[u].(recoveryKeyEnvelope := after.users[u].recoveryKeyEnvelope)])
  }

  ghost predicate TotpStored(s: Suite, before: Database, after: Database, u: UserId, secret: Option<Bytes>, key: Bytes) {
    && u in before.users && u in after.users
    && after == before.(users := before.users[u := before.users[u].(totpSecret := after.users[u].totpSecret)])
    && match secret
       case None => after.users[u].totpSecret.None?
       case Some(value) => after.users[u].totpSecret.Some? && OpenBlob(s, after.users[u].totpSecret.value, key) == Some(value)
  }

  /** A new password for the only account of a restored database; the attempt counter is reset too. */
  ghost predicate ResetFromBackup(s: Suite, before: Database, after: Database, u: UserId, oldKey: Bytes, typed: string,
                                  newPassword: string, newKey: Bytes)
  {
    && SingleAccount(before) && u in before.users && u in after.users
    && before.users[u].passwordEnvelope.Some? && after.users[u].passwordEnvelope.Some?
    && var stored := after.users[u].passwordEnvelope.value;
       var rest := after.(policy := before.policy);
       && Opens(s, stored, newPassword, newKey) && IsAccountKey(stored)
       && if UsesAccountKey(before, u) then PasswordReplaced(before, rest, u, stored) && newKey == oldKey
          else
            && |newKey| == KEY_LEN
            && Rekeyed(s, before, rest, u, oldKey, newKey, stored, SealedAccountKey(Some(typed)))
  }

  /** The key a restored account gives up to the phrase, as the service looks for it. */
  function BackupKey(s: Suite, row: UserRow, phrase: string): Result<Bytes> {
    match row.passwordEnvelope
    case None => Err(Storage)
    case Some(bytes) =>
      match Decode(bytes)
      case Err(error) => Err(error)
      case Ok(Legacy(_, masterKey)) => Ok(masterKey)
      case Ok(AccountKey(_, _)) =>
        match row.recoveryKeyEnvelope
        case None => Err(RecoveryKeyMissing)
        case Some(sealed) =>
          match OpenWithRecoveryPhrase(s, phrase, sealed)
          case Ok(key) => Ok(key)
          case Err(_) => Err(InconsistentKeyMaterial)
  }

  // ---- steps ---------------------------------------------------------------------------------------------

  /** A step names who acts and the plain values involved; keys and ciphertexts are not part of it. */
  datatype Step =
    | Idle
    | Bootstrap(u: UserId, password: string, phrase: string)
    | AddAccount(u: UserId, password: string)
    | CreateVault(v: VaultId, owner: UserId)
    | ShareVault(v: VaultId, actor: UserId, recipient: UserId)
    | UnshareVault(v: VaultId, u: UserId)
    | CreateSecret(x: SecretId, v: VaultId, actor: UserId, value: Bytes)
    | UpdateSecret(x: SecretId, actor: UserId, value: Bytes)
    | MoveSecret(x: SecretId, target: VaultId, actor: UserId)
    | Trash(step: TrashStep)
    | ChangePassword(u: UserId, newPassword: string)
    | UpgradeCredentials(u: UserId)
    | SealPhrase(u: UserId, phrase: string)
    | SetTotp(u: UserId, secret: Option<Bytes>)
    | Restart
    | RestoreBackup(u: UserId, typed: string, newPassword: string)

  /** The plain meaning of a step. The three that can change the account key leave behind the trashed
      vaults of their user. */
  function PlainAfter(p: Plain, step: Step): Plain {
    match step
    case Bootstrap(u, password, phrase) =>
      p.(passwords := p.passwords[u := password], phrases := p.phrases[u := phrase], totp := p.totp - {u},
         accountKeys := p.accountKeys + {u})
    case AddAccount(u, password) =>
      p.(passwords := p.passwords[u := password], phrases := p.phrases - {u}, totp := p.totp - {u},
         accountKeys := p.accountKeys - {u})
    case CreateVault(v, owner) => p.(vaults := p.vaults[v := PlainVault(owner, false)]).Granted(owner, v)
    case ShareVault(v, _, recipient) => p.Granted(recipient, v)
    case UnshareVault(v, u) => if v in p.vaults && p.vaults[v].owner != u then p.Revoked(u, v) else p
    case CreateSecret(x, v, _, value) => p.(secrets := p.secrets[x := PlainSecret(v, value, false)])
    case UpdateSecret(x, _, value) =>
      if x in p.secrets then p.(secrets := p.secrets[x := p.secrets[x].(value := value)]) else p
    case MoveSecret(x, target, _) =>
      if x in p.secrets then p.(secrets := p.secrets[x := p.secrets[x].(vault := target)]) else p
    case Trash(t) => PlainTrash(p, t)
    case ChangePassword(u, newPassword) => PlainPasswordChange(p, u, newPassword)
    case UpgradeCredentials(u) => if u in p.passwords then PlainPasswordChange(p, u, p.passwords[u]) else p
    case SealPhrase(u, phrase) => p.(phrases := p.phrases[u := phrase])
    case SetTotp(u, None) => p.(totp := p.totp - {u})
    case SetTotp(u, Some(secret)) => p.(totp := p.totp[u := secret])
    case RestoreBackup(u, typed, newPassword) =>
      if u in p.accountKeys then p.(passwords := p.passwords[u := newPassword], phrases := p.phrases[u := typed])
      else PlainRekeyed(p, u, newPassword, SealedAccountKey(Some(typed)))
    case _ => p
  }

  /** An account key stays; a legacy account is re-keyed, to an account key when it is alone. */
  function PlainPasswordChange(p: Plain, u: UserId, newPassword: string): Plain {
    if u in p.accountKeys then p.(passwords := p.passwords[u := newPassword])
    else PlainRekeyed(p, u, newPassword, if |p.passwords| == 1 then SealedAccountKey(None) else LegacyPhraseEnvelope)
  }

  /** The step gives `u` another key. */
  predicate ChangesKey(p: Plain, step: Step, u: UserId) {
    && u !in p.accountKeys
    && match step
       case ChangePassword(o, _) => o == u
       case UpgradeCredentials(o) => o == u
       case RestoreBackup(o, _, _) => o == u
       case _ => false
  }

  function PlainTrashOf(p: Plain, v: VaultId): set<SecretId> {
    set x | x in p.secrets && p.secrets[x].vault == v && p.secrets[x].deleted
  }

  function PlainTrash(p: Plain, t: TrashStep): (q: Plain)
    ensures q.passwords == p.passwords && q.phrases == p.phrases && q.access == p.access && q.lost == p.lost
  {
    match t
    case SoftDelete(x) =>
      if x in p.secrets then p.(secrets := p.secrets[x := p.secrets[x].(deleted := true)]) else p
    case Restore(x, v) =>
      if x in p.secrets && v in p.vaults then
        p.(secrets := p.secrets[x := p.secrets[x].(deleted := false)],
           vaults := p.vaults[v := p.vaults[v].(deleted := false)])
      else p
    case Purge(x, _) => p.(secrets := p.secrets - {x})
    case EmptyTrash(v) =>
      p.(secrets := p.secrets - PlainTrashOf(p, v))
    case DeleteVault(v) =>
      if v in p.vaults then
        p.(vaults := p.vaults[v := p.vaults[v].(deleted := true)],
           secrets := map x | x in p.secrets ::
             if p.secrets[x].vault == v then p.secrets[x].(deleted := true) else p.secrets[x])
      else p
    case _ => p
  }

  /** The vault key a user gets by logging in with the current password and opening the vault. */
  function OpenedBy(s: Suite, w: World, p: Plain, u: UserId, v: VaultId): Option<Bytes> {
    if u !in p.passwords then None
    else
      match SessionKey(s, w, u, p.passwords[u])
      case None => None
      case Some(key) =>
        match OpenVaultForUser(s, w.db, u, v, key)
        case Err(_) => None
        case Ok(vaultKey) => Some(vaultKey)
  }

  function LoginKey(s: Suite, w: World, p: Plain, u: UserId): Option<Bytes> {
    if u !in p.passwords then None else SessionKey(s, w, u, p.passwords[u])
  }

  /** The step takes `w` to `w'`, and users act with the current password. Nothing is asked beyond what
      the code checks. */
  ghost predicate Next(s: Suite, w: World, p: Plain, step: Step, w': World) {
    match step
    case Idle => w' == w
    case Bootstrap(u, password, phrase) => exists key :: Bootstrapped(s, w, w', u, password, phrase, key)
    case AddAccount(u, password) => exists key :: AccountAdded(s, w, w', u, password, key)
    case CreateVault(v, owner) =>
      && LoginKey(s, w, p, owner).Some?
      && VaultCreated(s, w.db, w'.db, v, owner, LoginKey(s, w, p, owner).value) && w'.creds == w.creds
    case ShareVault(v, actor, recipient) =>
      && OpenedBy(s, w, p, actor, v).Some? && LoginKey(s, w, p, recipient).Some?
      && VaultShared(s, w.db, w'.db, v, recipient, OpenedBy(s, w, p, actor, v).value, LoginKey(s, w, p, recipient).value)
      && w'.creds == w.creds
    case UnshareVault(v, u) => VaultUnshared(w.db, w'.db, v, u) && w'.creds == w.creds
    case CreateSecret(x, v, actor, value) =>
      && OpenedBy(s, w, p, actor, v).Some?
      && w'.creds == w.creds
      && SecretAdded(s, w.db, w'.db, x, v, OpenedBy(s, w, p, actor, v).value, value)
    case UpdateSecret(x, actor, value) =>
      && x in w.db.secrets && OpenedBy(s, w, p, actor, w.db.secrets[x].vault).Some?
      && w'.creds == w.creds
      && SecretRewritten(s, w.db, w'.db, x, OpenedBy(s, w, p, actor, w.db.secrets[x].vault).value, value)
    case MoveSecret(x, target, actor) =>
      && x in w.db.secrets
      && OpenedBy(s, w, p, actor, w.db.secrets[x].vault).Some? && OpenedBy(s, w, p, actor, target).Some?
      && w'.creds == w.creds
      && SecretMoved(s, w.db, w'.db, x, target, OpenedBy(s, w, p, actor, w.db.secrets[x].vault).value,
                     OpenedBy(s, w, p, actor, target).value)
    case Trash(t) => !t.Insert? && !t.Rewrite? && !t.Move? && Runs(w.db, w'.db, t) && w'.creds == w.creds
    case ChangePassword(u, newPassword) =>
      && LoginKey(s, w, p, u).Some?
      && exists newKey :: PasswordChanged(s, w, w', u, LoginKey(s, w, p, u).value, newPassword, newKey)
    case UpgradeCredentials(u) =>
      && LoginKey(s, w, p, u).Some? && SingleAccount(w.db) && !UsesAccountKey(w.db, u)
      && exists newKey :: PasswordChanged(s, w, w', u, LoginKey(s, w, p, u).value, p.passwords[u], newKey)
    case SealPhrase(u, phrase) =>
      && LoginKey(s, w, p, u).Some? && UsesAccountKey(w.db, u) && w'.creds == w.creds
      && RecoverySealed(s, w.db, w'.db, u, phrase, LoginKey(s, w, p, u).value)
    case SetTotp(u, secret) =>
      && LoginKey(s, w, p, u).Some? && w'.creds == w.creds
      && TotpStored(s, w.db, w'.db, u, secret, LoginKey(s, w, p, u).value)
    case Restart => w'.db == w.db && LoadedFrom(w.db, w'.creds)
    case RestoreBackup(u, typed, newPassword) =>
      && u in w.db.users
      && (UsesAccountKey(w.db, u) ==> u in p.phrases && SameWords(s, typed, p.phrases[u]))
      && LoadedFrom(w'.db, w'.creds)
      && BackupKey(s, w.db.users[u], typed).Ok?
      && exists newKey ::
           ResetFromBackup(s, w.db, w'.db, u, BackupKey(s, w.db.users[u], typed).value, typed, newPassword, newKey)
  }

  // ---- frames ------------------------------------------------------------------------------------------------

  lemma UsersFrame(s: Suite, w: World, w': World, p: Plain, p': Plain, k: Keyring, k': Keyring)
    requires UsersOk(s, w, p, k)
    requires w'.db.users == w.db.users && k'.accounts == k.accounts
    requires forall u :: u in w.db.users && w.db.users[u].username in w.creds ==>
      w.db.users[u].username in w'.creds && w'.creds[w.db.users[u].username] == w.creds[w.db.users[u].username]
    requires p'.passwords == p.passwords && p'.phrases == p.phrases && p'.totp == p.totp && p'.accountKeys == p.accountKeys
    ensures UsersOk(s, w', p', k')
  {
    hide AccountOk;
    forall o | o in w'.db.users ensures AccountOk(s, w', p', k', o) {
      AccountUntouched(s, w, w', p, p', k, k', o);
    }
  }

  lemma SoleFrame(before: Database, after: Database)
    requires SoleAccountKey(before)
    requires after.users.Keys == before.users.Keys
    requires forall u :: u in before.users ==> (UsesAccountKey(after, u) ==> UsesAccountKey(before, u))
    ensures SoleAccountKey(after)
  {
  }

  /** The representation does not look at the attempt counters. */
  lemma PolicyFrame(s: Suite, w: World, w': World, p: Plain, k: Keyring)
    requires Represents(s, w, p, k)
    requires w'.creds == w.creds && w'.db == w.db.(policy := w'.db.policy)
    ensures Represents(s, w', p, k)
  {
    hide UsersOk, VaultsOk, SharesOk, KeysOk, SecretsOk;
    UsersFrame(s, w, w', p, p, k, k);
    VaultsFrame(s, w.db, w'.db, p, p, k, k);
    RekeyKeepsSecrets(s, w.db, w'.db, p, p, k, k);
  }

  // ---- each step keeps the representation ------------------------------------------------------------------------

  lemma OpenedByGivesVaultKey(s: Suite, w: World, p: Plain, k: Keyring, u: UserId, v: VaultId)
    requires Represents(s, w, p, k) && OpenedBy(s, w, p, u, v).Some?
    ensures v in w.db.vaults && v in k.vaults && w.db.LiveVault(v)
    ensures OpenedBy(s, w, p, u, v) == Some(k.vaults[v]) && |k.vaults[v]| == KEY_LEN
  {
    hide Represents, SessionKey;
    LoginGivesAccountKey(s, w, p, k, u);
    OpenedVaultGivesKey(s, w, p, k, u, v, k.accounts[u]);
  }

  lemma LoginGivesAccountKey(s: Suite, w: World, p: Plain, k: Keyring, u: UserId)
    requires Represents(s, w, p, k) && LoginKey(s, w, p, u).Some?
    ensures u in w.db.users && u in k.accounts && LoginKey(s, w, p, u) == Some(k.accounts[u])
  {
    hide SessionKey, AccountOk, SoleAccountKey, VaultsOk, SharesOk, KeysOk, SecretsOk, TrashConsistent;
    SessionKeyIsAccountKey(s, w, p, k, u);
  }

  /** The entries of every user but `u` are the same in both. */
  ghost predicate SameForOthers<T(!new)>(a: map<UserId, T>, b: map<UserId, T>, u: UserId) {
    forall o :: o != u ==> (o in a <==> o in b) && (o in a ==> a[o] == b[o])
  }

  lemma NewAccountUsers(s: Suite, w: World, w': World, p: Plain, p': Plain, k: Keyring, u: UserId, row: UserRow,
                        password: string, key: Bytes)
    requires UsersOk(s, w, p, k)
    requires AccountStored(s, w, w', u, row, password, key)
    requires row.username !in w.creds || w.db.users == map[]
    requires p'.passwords == p.passwords[u := password]
    requires SameForOthers(p'.phrases, p.phrases, u) && SameForOthers(p'.totp, p.totp, u)
    requires p'.accountKeys - {u} == p.accountKeys - {u} && (u in p'.accountKeys <==> UsesAccountKey(w'.db, u))
    requires u !in p'.totp
    requires u in p'.phrases ==> PhraseOk(s, row, p'.phrases[u], key)
    ensures UsersOk(s, w', p', k.(accounts := k.accounts[u := key]))
  {
    hide AccountOk, PhraseOk, Opens, SameForOthers, IsBlank, IsAccountKey;
    var k' := k.(accounts := k.accounts[u := key]);
    NameIsNew(s, w, p, k, row.username);
    NewAccountOk(s, w', p', k', u, row, password, key);
    OthersStayIn(p.accountKeys, p'.accountKeys, u);
    forall o | o in w'.db.users && o != u ensures AccountOk(s, w', p', k', o) {
      BesideNewAccountOk(s, w, w', p, p', k, u, row, key, o);
    }
  }

  lemma OthersStayIn(a: set<UserId>, b: set<UserId>, u: UserId)
    requires b - {u} == a - {u}
    ensures forall o :: o != u ==> (o in b <==> o in a)
    ensures b <= a + {u}
  {
    forall o | o != u ensures o in b <==> o in a {
      assert o in b - {u} <==> o in a - {u};
    }
  }

  lemma BesideNewAccountOk(s: Suite, w: World, w': World, p: Plain, p': Plain, k: Keyring, u: UserId, row: UserRow,
                           key: Bytes, o: UserId)
    requires UsersOk(s, w, p, k) && o in w.db.users && o != u
    requires w'.db.users == w.db.users[u := row] && row.passwordEnvelope.Some?
    requires w'.creds == w.creds[row.username := row.passwordEnvelope.value] && w.db.users[o].username != row.username
    requires o in p'.passwords && p'.passwords[o] == p.passwords[o]
    requires SameForOthers(p'.phrases, p.phrases, u) && SameForOthers(p'.totp, p.totp, u)
    requires o in p'.accountKeys <==> o in p.accountKeys
    ensures AccountOk(s, w', p', k.(accounts := k.accounts[u := key]), o)
  {
    hide AccountOk;
    assert AccountOk(s, w, p, k, o);
    AccountUntouched(s, w, w', p, p', k, k.(accounts := k.accounts[u := key]), o);
  }

  lemma NameIsNew(s: Suite, w: World, p: Plain, k: Keyring, name: string)
    requires UsersOk(s, w, p, k)
    requires name !in w.creds || w.db.users == map[]
    ensures forall o :: o in w.db.users ==> w.db.users[o].username != name
  {
    hide Opens, OpenBlob, PhraseOk, IsBlank;
    forall o | o in w.db.users ensures w.db.users[o].username != name {
      assert AccountOk(s, w, p, k, o);
    }
  }

  lemma NewAccountOk(s: Suite, w: World, p: Plain, k: Keyring, u: UserId, row: UserRow, password: string, key: Bytes)
    requires u in w.db.users && w.db.users[u] == row
    requires !IsBlank(row.username) && row.passwordEnvelope.Some? && row.totpSecret.None?
    requires Opens(s, row.passwordEnvelope.value, password, key) && |key| == KEY_LEN
    requires row.username in w.creds && w.creds[row.username] == row.passwordEnvelope.value
    requires u in p.passwords && p.passwords[u] == password && u in k.accounts && k.accounts[u] == key
    requires u in p.accountKeys <==> UsesAccountKey(w.db, u)
    requires u !in p.totp && (u in p.phrases ==> PhraseOk(s, row, p.phrases[u], key))
    ensures AccountOk(s, w, p, k, u)
  {
    hide Opens, OpenBlob, PhraseOk, IsBlank;
  }

  lemma NewAccountRepresents(s: Suite, w: World, w': World, p: Plain, p': Plain, k: Keyring, u: UserId, row: UserRow,
                             password: string, key: Bytes)
    requires Represents(s, w, p, k)
    requires AccountStored(s, w, w', u, row, password, key)
    requires row.username !in w.creds || w.db.users == map[]
    requires UsesAccountKey(w'.db, u) ==> w.db.users == map[]
    requires !UsesAccountKey(w'.db, u) ==> forall o :: o in w.db.users ==> !UsesAccountKey(w.db, o)
    requires p' == p.(passwords := p.passwords[u := password], phrases := p'.phrases, totp := p'.totp,
                      accountKeys := p'.accountKeys)
    requires SameForOthers(p'.phrases, p.phrases, u) && SameForOthers(p'.totp, p.totp, u)
    requires p'.accountKeys - {u} == p.accountKeys - {u} && (u in p'.accountKeys <==> UsesAccountKey(w'.db, u))
    requires u !in p'.totp
    requires u in p'.phrases ==> PhraseOk(s, row, p'.phrases[u], key)
    ensures u !in k.accounts && Represents(s, w', p', k.(accounts := k.accounts[u := key]))
  {
    hide Opens, OpenBlob, PhraseOk, IsBlank, UsersOk, VaultsOk, SharesOk, KeysOk, SecretsOk, IsAccountKey;
    var k' := k.(accounts := k.accounts[u := key]);
    assert u !in k.accounts by {
      KeyringUsers(s, w, p, k);
    }
    NewAccountUsers(s, w, w', p, p', k, u, row, password, key);
    VaultsFrame(s, w.db, w'.db, p, p', k, k');
    RekeyKeepsSecrets(s, w.db, w'.db, p, p', k, k');
  }

  lemma KeyringUsers(s: Suite, w: World, p: Plain, k: Keyring)
    requires UsersOk(s, w, p, k)
    ensures k.accounts.Keys == w.db.users.Keys && p.passwords.Keys == w.db.users.Keys
  {
  }

  // ---- secrets --------------------------------------------------------------------------------------------------

  ghost predicate VaultMarksAgree(rows: map<VaultId, VaultRow>, seen: map<VaultId, PlainVault>) {
    && seen.Keys == rows.Keys
    && forall v :: v in rows ==> seen[v].deleted == rows[v].deleted
  }

  ghost predicate SecretMarksAgree(rows: map<SecretId, SecretRow>, seen: map<SecretId, PlainSecret>) {
    && seen.Keys == rows.Keys
    && forall x :: x in rows ==> seen[x].vault == rows[x].vault && seen[x].deleted == rows[x].deleted
  }

  /** Vaults and trash marks of the stored rows are those the users see. */
  ghost predicate MarksAgree(db: Database, p: Plain) {
    VaultMarksAgree(db.vaults, p.vaults) && SecretMarksAgree(db.secrets, p.secrets)
  }

  lemma RepresentedMarksAgree(s: Suite, db: Database, p: Plain, k: Keyring)
    requires VaultsOk(db, p, k) && SecretsOk(s, db, p, k)
    ensures MarksAgree(db, p)
    ensures forall x :: x in db.secrets ==> db.secrets[x].vault in db.vaults
  {
    hide OpenBlob;
    forall v | v in db.vaults ensures VaultOk(db, p, k, v) {}
    forall x | x in db.secrets ensures SecretOk(s, db, p, k, x) {}
  }

  /** A secret row that changes at most its trash mark, in step with the plain secret. */
  lemma SecretFrame(s: Suite, before: Database, after: Database, p: Plain, p': Plain, k: Keyring, x: SecretId)
    requires x in before.secrets && x in p.secrets && SecretOk(s, before, p, k, x)
    requires x in after.secrets && after.secrets[x] == before.secrets[x].(deleted := after.secrets[x].deleted)
    requires x in p'.secrets && p'.secrets[x] == p.secrets[x].(deleted := after.secrets[x].deleted)
    requires before.secrets[x].vault in after.vaults
    ensures SecretOk(s, after, p', k, x)
  {
    hide OpenBlob;
  }

  lemma OtherSecretsOk(s: Suite, before: Database, after: Database, p: Plain, p': Plain, k: Keyring, x: SecretId)
    requires SecretsOk(s, before, p, k) && after.vaults == before.vaults
    requires x in after.secrets && after.secrets == before.secrets[x := after.secrets[x]]
    requires x in p'.secrets && p'.secrets == p.secrets[x := p'.secrets[x]]
    requires SecretOk(s, after, p', k, x)
    ensures SecretsOk(s, after, p', k)
  {
    hide OpenBlob;
    forall y | y in after.secrets ensures SecretOk(s, after, p', k, y) {
      if y != x {
        assert SecretOk(s, before, p, k, y);
      }
    }
  }

  /** Writing one secret row, with its value sealed under the key of its vault. */
  lemma SecretWritten(s: Suite, w: World, w': World, p: Plain, p': Plain, k: Keyring, t: TrashStep, x: SecretId)
    requires Represents(s, w, p, k)
    requires Runs(w.db, w'.db, t) && t.Allowed(w.db) && w'.creds == w.creds
    requires w'.db == w.db.(secrets := w'.db.secrets) && x in w'.db.secrets
    requires w'.db.secrets == w.db.secrets[x := w'.db.secrets[x]]
    requires p' == p.(secrets := p'.secrets) && x in p'.secrets
    requires p'.secrets == p.secrets[x := p'.secrets[x]]
    requires SecretOk(s, w'.db, p', k, x)
    ensures Represents(s, w', p', k)
  {
    hide UsersOk, VaultsOk, SharesOk, KeysOk, SecretOk, SecretsOk, TrashConsistent, SoleAccountKey, Outcome;
    TrashStepKeeps(w.db, t);
    assert After(w.db, t) == w'.db;
    UsersFrame(s, w, w', p, p', k, k);
    VaultsFrame(s, w.db, w'.db, p, p', k, k);
    SoleFrame(w.db, w'.db);
    OtherSecretsOk(s, w.db, w'.db, p, p', k, x);
  }

  lemma AddedSecretKeeps(s: Suite, w: World, w': World, p: Plain, k: Keyring, x: SecretId, v: VaultId, value: Bytes)
    requires Represents(s, w, p, k)
    requires w.db.LiveVault(v) && v in k.vaults
    requires w'.creds == w.creds
    requires SecretAdded(s, w.db, w'.db, x, v, k.vaults[v], value)
    ensures Represents(s, w', p.(secrets := p.secrets[x := PlainSecret(v, value, false)]), k)
  {
    hide Represents, OpenBlob, Outcome;
    var kind, title, storage, blob :|
      Runs(w.db, w'.db, Insert(x, v, kind, title, storage, blob)) && OpenBlob(s, blob, k.vaults[v]) == Some(value);
    InsertedRow(w.db, w'.db, x, v, kind, title, storage, blob);
    SecretWritten(s, w, w', p, p.(secrets := p.secrets[x := PlainSecret(v, value, false)]), k,
                  Insert(x, v, kind, title, storage, blob), x);
  }

  lemma InsertedRow(before: Database, after: Database, x: SecretId, v: VaultId, kind: SecretType, title: string,
                    storage: BlobStorage, blob: Bytes)
    requires Runs(before, after, Insert(x, v, kind, title, storage, blob))
    ensures after == before.(secrets := after.secrets) && x in after.secrets
    ensures after.secrets == before.secrets[x := after.secrets[x]]
    ensures after.secrets[x].Blob() == blob && after.secrets[x].vault == v && !after.secrets[x].deleted
  {
  }

  lemma StoredAccount(s: Suite, w: World, p: Plain, k: Keyring, u: UserId)
    requires Represents(s, w, p, k) && u in w.db.users
    ensures u in p.passwords && u in k.accounts && AccountOk(s, w, p, k, u)
  {
    hide AccountOk, VaultsOk, SharesOk, KeysOk, SecretsOk, TrashConsistent, SoleAccountKey;
  }

  lemma StoredSecret(s: Suite, w: World, p: Plain, k: Keyring, x: SecretId)
    requires Represents(s, w, p, k) && x in w.db.secrets
    ensures x in p.secrets && SecretOk(s, w.db, p, k, x)
  {
    hide UsersOk, VaultsOk, SharesOk, KeysOk, TrashConsistent, SoleAccountKey, SecretOk;
  }

  lemma RewrittenSecretKeeps(s: Suite, w: World, w': World, p: Plain, k: Keyring, x: SecretId, value: Bytes)
    requires Represents(s, w, p, k)
    requires x in w.db.secrets && w.db.secrets[x].vault in k.vaults && x in p.secrets
    requires w'.creds == w.creds
    requires SecretRewritten(s, w.db, w'.db, x, k.vaults[w.db.secrets[x].vault], value)
    ensures Represents(s, w', p.(secrets := p.secrets[x := p.secrets[x].(value := value)]), k)
  {
    hide Represents, OpenBlob;
    StoredSecret(s, w, p, k, x);
    var blob :| Runs(w.db, w'.db, Rewrite(x, blob)) && OpenBlob(s, blob, k.vaults[w.db.secrets[x].vault]) == Some(value);
    SecretWritten(s, w, w', p, p.(secrets := p.secrets[x := p.secrets[x].(value := value)]), k, Rewrite(x, blob), x);
  }

  lemma MovedSecretKeeps(s: Suite, w: World, w': World, p: Plain, k: Keyring, x: SecretId, target: VaultId)
    requires Represents(s, w, p, k)
    requires x in w.db.secrets && w.db.secrets[x].vault in k.vaults && x in p.secrets
    requires w.db.LiveVault(target) && target in k.vaults
    requires w'.creds == w.creds
    requires SecretMoved(s, w.db, w'.db, x, target, k.vaults[w.db.secrets[x].vault], k.vaults[target])
    ensures Represents(s, w', p.(secrets := p.secrets[x := p.secrets[x].(vault := target)]), k)
  {
    hide Represents, OpenBlob;
    StoredSecret(s, w, p, k, x);
    var blob :| Runs(w.db, w'.db, Move(x, target, blob))
      && OpenBlob(s, blob, k.vaults[target]) == OpenBlob(s, w.db.secrets[x].Blob(), k.vaults[w.db.secrets[x].vault]);
    SecretWritten(s, w, w', p, p.(secrets := p.secrets[x := p.secrets[x].(vault := target)]), k, Move(x, target, blob), x);
  }

  ghost predicate VaultsTogether(rows: map<VaultId, VaultRow>, rows': map<VaultId, VaultRow>,
                                 seen: map<VaultId, PlainVault>, seen': map<VaultId, PlainVault>)
    requires VaultMarksAgree(rows, seen)
  {
    && VaultMarksAgree(rows', seen') && rows'.Keys == rows.Keys
    && forall v :: v in rows' ==>
      && rows'[v] == rows[v].(deleted := rows'[v].deleted)
      && seen'[v] == seen[v].(deleted := rows'[v].deleted)
  }

  ghost predicate SecretsTogether(rows: map<SecretId, SecretRow>, rows': map<SecretId, SecretRow>,
                                  seen: map<SecretId, PlainSecret>, seen': map<SecretId, PlainSecret>, t: TrashStep)
    requires SecretMarksAgree(rows, seen)
  {
    && SecretMarksAgree(rows', seen') && rows'.Keys <= rows.Keys
    && forall x :: x in rows' ==>
      && seen'[x] == seen[x].(deleted := rows'[x].deleted)
      && ((t.Rename? && t.x == x) || rows'[x] == rows[x].(deleted := rows'[x].deleted))
  }

  /** One trash operation on both sides: only trash marks move, in step, and rows leave together. */
  ghost predicate TrashedTogether(db: Database, after: Database, p: Plain, q: Plain, t: TrashStep)
    requires MarksAgree(db, p)
  {
    && after == db.(vaults := after.vaults, secrets := after.secrets)
    && q == p.(vaults := q.vaults, secrets := q.secrets)
    && VaultsTogether(db.vaults, after.vaults, p.vaults, q.vaults)
    && SecretsTogether(db.secrets, after.secrets, p.secrets, q.secrets, t)
  }

  lemma VaultMarkMoves(rows: map<VaultId, VaultRow>, seen: map<VaultId, PlainVault>, v: VaultId, mark: bool)
    requires VaultMarksAgree(rows, seen) && v in rows
    ensures VaultsTogether(rows, rows[v := rows[v].(deleted := mark)], seen, seen[v := seen[v].(deleted := mark)])
  {
  }

  lemma SecretMarkMoves(rows: map<SecretId, SecretRow>, seen: map<SecretId, PlainSecret>, x: SecretId, mark: bool, t: TrashStep)
    requires SecretMarksAgree(rows, seen) && x in rows
    ensures SecretsTogether(rows, rows[x := rows[x].(deleted := mark)], seen, seen[x := seen[x].(deleted := mark)], t)
  {
  }

  lemma SecretsLeave(rows: map<SecretId, SecretRow>, seen: map<SecretId, PlainSecret>, gone: set<SecretId>, t: TrashStep)
    requires SecretMarksAgree(rows, seen)
    ensures SecretsTogether(rows, rows - gone, seen, seen - gone, t)
  {
  }

  lemma VaultSecretsMarked(db: Database, after: Database, p: Plain, t: TrashStep)
    requires MarksAgree(db, p) && t.DeleteVault? && Outcome(db, t) == Ok(after)
    ensures SecretsTogether(db.secrets, after.secrets, p.secrets, PlainTrash(p, t).secrets, t)
  {
  }

  lemma RenameMarks(db: Database, after: Database, p: Plain, t: TrashStep)
    requires MarksAgree(db, p) && t.Rename? && Outcome(db, t) == Ok(after)
    ensures TrashedTogether(db, after, p, PlainTrash(p, t), t)
  {
  }

  lemma TrashMarksAgree(db: Database, after: Database, p: Plain, t: TrashStep)
    requires MarksAgree(db, p)
    requires !t.Insert? && !t.Rewrite? && !t.Move? && Outcome(db, t) == Ok(after)
    ensures TrashedTogether(db, after, p, PlainTrash(p, t), t)
  {
    hide VaultMarksAgree, SecretMarksAgree, SecretsTogether;
    SameVaultMarks(db.vaults, p.vaults);
    match t {
      case Rename(_, _) => RenameMarks(db, after, p, t);
      case SoftDelete(x) =>
        SecretKeysAgree(db.secrets, p.secrets);
        SecretMarkMoves(db.secrets, p.secrets, x, true, t);
      case Restore(x, v) =>
        SecretKeysAgree(db.secrets, p.secrets);
        VaultMarkMoves(db.vaults, p.vaults, v, false);
        SecretMarkMoves(db.secrets, p.secrets, x, false, t);
      case Purge(x, _) => SecretsLeave(db.secrets, p.secrets, {x}, t);
      case EmptyTrash(v) =>
        SecretsLeave(db.secrets, p.secrets, TrashOf(db, v), t);
        SameTrash(db, p, v);
      case DeleteVault(v) =>
        VaultMarkMoves(db.vaults, p.vaults, v, true);
        VaultSecretsMarked(db, after, p, t);
    }
  }

  /** Leaving the vault table alone keeps the marks together. */
  lemma SameVaultMarks(rows: map<VaultId, VaultRow>, seen: map<VaultId, PlainVault>)
    requires VaultMarksAgree(rows, seen)
    ensures VaultsTogether(rows, rows, seen, seen) && seen.Keys == rows.Keys
  {
  }

  lemma SecretKeysAgree(rows: map<SecretId, SecretRow>, seen: map<SecretId, PlainSecret>)
    requires SecretMarksAgree(rows, seen)
    ensures seen.Keys == rows.Keys
  {
  }

  lemma SameTrash(db: Database, p: Plain, v: VaultId)
    requires SecretMarksAgree(db.secrets, p.secrets)
    ensures TrashOf(db, v) == PlainTrashOf(p, v)
  {
  }

  lemma TrashKeeps(s: Suite, w: World, w': World, p: Plain, k: Keyring, step: Step)
    requires Represents(s, w, p, k) && step.Trash? && Next(s, w, p, step, w')
    ensures Represents(s, w', PlainAfter(p, step), k)
  {
    hide UsersOk, OpenBlob, TrashConsistent, Outcome, PlainTrash, SecretOk, SoleAccountKey, SharesOk, KeysOk;
    var p' := PlainAfter(p, step);
    TrashStepKeeps(w.db, step.step);
    assert After(w.db, step.step) == w'.db;
    RepresentedMarksAgree(s, w.db, p, k);
    TrashMarksAgree(w.db, w'.db, p, step.step);
    UsersFrame(s, w, w', p, p', k, k);
    SoleFrame(w.db, w'.db);
    forall v | v in w'.db.vaults ensures VaultOk(w'.db, p', k, v) {
      assert VaultOk(w.db, p, k, v);
    }
    KeysFrame(s, w.db, w'.db, p, p', k, k);
    forall x | x in w'.db.secrets ensures SecretOk(s, w'.db, p', k, x) {
      assert SecretOk(s, w.db, p, k, x);
      if step.step.Rename? && step.step.x == x {
        RenamedSecretOk(s, w.db, w'.db, p, p', k, step.step);
      } else {
        SecretFrame(s, w.db, w'.db, p, p', k, x);
      }
    }
  }

  lemma RenamedSecretOk(s: Suite, before: Database, after: Database, p: Plain, p': Plain, k: Keyring, t: TrashStep)
    requires t.Rename? && t.x in before.secrets && t.x in p.secrets && SecretOk(s, before, p, k, t.x)
    requires Outcome(before, t) == Ok(after)
    requires t.x in p'.secrets && p'.secrets[t.x] == p.secrets[t.x].(deleted := after.secrets[t.x].deleted)
    ensures SecretOk(s, after, p', k, t.x)
  {
    hide OpenBlob;
  }

  // ---- vaults and account material ---------------------------------------------------------------------------------

  /** A new vault opens with its owner's key; every other stored key is as it was. */
  lemma CreateVaultKeeps(s: Suite, w: World, w': World, p: Plain, k: Keyring, v: VaultId, owner: UserId) returns (k': Keyring)
    requires s.Ideal()
    requires Represents(s, w, p, k) && owner in k.accounts
    requires VaultCreated(s, w.db, w'.db, v, owner, k.accounts[owner]) && w'.creds == w.creds
    ensures Represents(s, w', PlainAfter(p, CreateVault(v, owner)), k') && k'.accounts == k.accounts
    ensures PlainAfter(p, CreateVault(v, owner)).CanOpen(owner, v)
  {
    hide UsersOk, OpenBlob, SoleAccountKey, TrashConsistent, SecretOk, ShareOk, PairOk, Suite.Ideal;
    var p' := PlainAfter(p, CreateVault(v, owner));
    var vaultKey := OpenBlob(s, w'.db.vaults[v].envelope.value, k.accounts[owner]).value;
    k' := k.(vaults := k.vaults[v := vaultKey]);
    UsersFrame(s, w, w', p, p', k, k');
    SoleFrame(w.db, w'.db);
    forall o | o in w'.db.vaults ensures VaultOk(w'.db, p', k', o) {
      if o != v {
        assert VaultOk(w.db, p, k, o);
      }
    }
    forall u, o ensures PairOk(s, w'.db, p', k', u, o) {
      assert PairOk(s, w.db, p, k, u, o);
      NewVaultPairOk(s, w.db, w'.db, p, p', k, k', v, u, o);
    }
    NewVaultFrame(s, w.db, w'.db, p, p', k, k', v);
  }

  lemma NewVaultPairOk(s: Suite, before: Database, after: Database, p: Plain, p': Plain, k: Keyring, k': Keyring,
                       v: VaultId, u: UserId, o: VaultId)
    requires s.Ideal() && SharesOk(before, k) && PairOk(s, before, p, k, u, o)
    requires v !in before.vaults && v in after.vaults && after == before.(vaults := before.vaults[v := after.vaults[v]])
    requires after.vaults[v].envelope.Some? && after.vaults[v].owner in k.accounts
    requires v in k'.vaults && |k'.vaults[v]| == KEY_LEN && k' == k.(vaults := k.vaults[v := k'.vaults[v]])
    requires OpenBlob(s, after.vaults[v].envelope.value, k.accounts[after.vaults[v].owner]) == Some(k'.vaults[v])
    requires p'.access == p.Granted(after.vaults[v].owner, v).access && p'.lost == p.Granted(after.vaults[v].owner, v).lost
    ensures PairOk(s, after, p', k', u, o)
  {
    hide OpenBlob, OnlyHolds, Suite.Ideal;
    if o == v {
      assert (v, u) in before.shares ==> ShareOk(before, k, (v, u));
      OneKeyHolds(s, after.vaults[v].envelope.value, k.accounts[after.vaults[v].owner]);
    } else {
      assert HasKey(after, u, o) ==> after.EnvelopeFor(u, o) == before.EnvelopeFor(u, o);
    }
  }

  lemma NewVaultFrame(s: Suite, before: Database, after: Database, p: Plain, p': Plain, k: Keyring, k': Keyring, v: VaultId)
    requires SharesOk(before, k) && SecretsOk(s, before, p, k) && TrashConsistent(before)
    requires v !in before.vaults && v in after.vaults && after == before.(vaults := before.vaults[v := after.vaults[v]])
    requires v in k'.vaults && k' == k.(vaults := k.vaults[v := k'.vaults[v]]) && p'.secrets == p.secrets
    ensures SharesOk(after, k') && SecretsOk(s, after, p', k') && TrashConsistent(after)
  {
    hide OpenBlob;
    forall h | h in after.shares ensures ShareOk(after, k', h) {
      assert ShareOk(before, k, h);
    }
    forall x | x in after.secrets ensures SecretOk(s, after, p', k', x) {
      assert SecretOk(s, before, p, k, x);
    }
  }

  /** A shared vault opens with the recipient's key to the key its sharer opened. */
  lemma ShareVaultKeeps(s: Suite, w: World, w': World, p: Plain, k: Keyring, step: Step)
    requires s.Ideal()
    requires Represents(s, w, p, k) && step.ShareVault? && Next(s, w, p, step, w')
    ensures Represents(s, w', PlainAfter(p, step), k)
    ensures PlainAfter(p, step).CanOpen(step.recipient, step.v)
  {
    hide UsersOk, OpenBlob, LoginKey, OpenedBy, SecretsOk, TrashConsistent, PairOk, SoleAccountKey, Suite.Ideal;
    var p' := PlainAfter(p, step);
    LoginGivesAccountKey(s, w, p, k, step.recipient);
    OpenedByGivesVaultKey(s, w, p, k, step.actor, step.v);
    UsersFrame(s, w, w', p, p', k, k);
    SoleFrame(w.db, w'.db);
    forall v | v in w'.db.vaults ensures VaultOk(w'.db, p', k, v) {
      assert VaultOk(w.db, p, k, v);
    }
    forall h | h in w'.db.shares ensures ShareOk(w'.db, k, h) {
      assert h in w.db.shares ==> ShareOk(w.db, k, h);
    }
    forall u, v ensures PairOk(s, w'.db, p', k, u, v) {
      assert PairOk(s, w.db, p, k, u, v);
      SharedPairOk(s, w.db, w'.db, p, p', k, step.v, step.recipient, u, v);
    }
    assert VaultOk(w.db, p, k, step.v);
    RekeyKeepsSecrets(s, w.db, w'.db, p, p', k, k);
  }

  lemma SharedPairOk(s: Suite, before: Database, after: Database, p: Plain, p': Plain, k: Keyring,
                     shared: VaultId, recipient: UserId, u: UserId, v: VaultId)
    requires s.Ideal() && PairOk(s, before, p, k, u, v)
    requires shared in k.vaults && |k.vaults[shared]| == KEY_LEN && recipient in k.accounts
    requires VaultShared(s, before, after, shared, recipient, k.vaults[shared], k.accounts[recipient])
    requires p'.access == p.Granted(recipient, shared).access && p'.lost == p.Granted(recipient, shared).lost
    ensures PairOk(s, after, p', k, u, v)
  {
    hide OpenBlob, OnlyHolds, Suite.Ideal;
    if (u, v) == (recipient, shared) {
      OneKeyHolds(s, after.shares[(v, u)], k.accounts[u]);
    } else {
      assert HasKey(after, u, v) <==> HasKey(before, u, v);
      assert HasKey(after, u, v) ==> after.EnvelopeFor(u, v) == before.EnvelopeFor(u, v);
    }
  }

  /** Revoking a share takes the vault from that user alone. */
  lemma UnshareVaultKeeps(s: Suite, w: World, w': World, p: Plain, k: Keyring, v: VaultId, u: UserId)
    requires Represents(s, w, p, k)
    requires VaultUnshared(w.db, w'.db, v, u) && w'.creds == w.creds
    ensures Represents(s, w', PlainAfter(p, UnshareVault(v, u)), k)
  {
    hide UsersOk, OpenBlob, VaultsOk, SharesOk, SecretsOk, TrashConsistent, KeysOk, SoleAccountKey;
    var p' := PlainAfter(p, UnshareVault(v, u));
    UsersFrame(s, w, w', p, p', k, k);
    SoleFrame(w.db, w'.db);
    UnsharedTablesOk(w.db, w'.db, p, p', k, v, u);
    UnsharedKeysOk(s, w.db, w'.db, p, p', k, v, u);
    RekeyKeepsSecrets(s, w.db, w'.db, p, p', k, k);
  }

  lemma UnsharedTablesOk(before: Database, after: Database, p: Plain, p': Plain, k: Keyring, v: VaultId, u: UserId)
    requires VaultsOk(before, p, k) && SharesOk(before, k) && VaultUnshared(before, after, v, u) && p'.vaults == p.vaults
    ensures VaultsOk(after, p', k) && SharesOk(after, k)
    ensures v in before.vaults <==> v in p.vaults
    ensures v in before.vaults ==> p.vaults[v].owner == before.vaults[v].owner
  {
    forall o | o in after.vaults ensures VaultOk(after, p', k, o) {
      assert VaultOk(before, p, k, o);
    }
    forall h | h in after.shares ensures ShareOk(after, k, h) {
      assert ShareOk(before, k, h);
    }
    assert v in before.vaults ==> VaultOk(before, p, k, v);
  }

  /** ... with whatever key, until it is shared again. */
  lemma UnsharedVaultIsShut(s: Suite, before: Database, after: Database, v: VaultId, u: UserId, key: Bytes)
    requires VaultUnshared(before, after, v, u)
    ensures OpenVaultForUser(s, after, u, v, key).Ok? ==> before.LiveVault(v) && before.vaults[v].owner == u
    ensures forall o: UserId, x: VaultId :: (x, o) != (v, u) ==>
      OpenVaultForUser(s, after, o, x, key) == OpenVaultForUser(s, before, o, x, key)
  {
    hide Decrypt, Deserialize;
  }

  lemma UnsharedKeysOk(s: Suite, before: Database, after: Database, p: Plain, p': Plain, k: Keyring, v: VaultId, u: UserId)
    requires SharesOk(before, k) && KeysOk(s, before, p, k) && VaultUnshared(before, after, v, u)
    requires p' == if v in before.vaults && before.vaults[v].owner != u then p.Revoked(u, v) else p
    ensures KeysOk(s, after, p', k)
  {
    hide PairOk;
    forall o, x ensures PairOk(s, after, p', k, o, x) {
      assert PairOk(s, before, p, k, o, x);
      UnsharedPairOk(s, before, after, p, p', k, v, u, o, x);
    }
  }

  lemma UnsharedPairOk(s: Suite, before: Database, after: Database, p: Plain, p': Plain, k: Keyring,
                       v: VaultId, u: UserId, o: UserId, x: VaultId)
    requires SharesOk(before, k) && PairOk(s, before, p, k, o, x) && VaultUnshared(before, after, v, u)
    requires p' == if v in before.vaults && before.vaults[v].owner != u then p.Revoked(u, v) else p
    ensures PairOk(s, after, p', k, o, x)
  {
    hide OpenBlob, OnlyHolds;
    assert (v, u) in before.shares ==> ShareOk(before, k, (v, u));
    assert HasKey(after, o, x) ==> HasKey(before, o, x) && after.EnvelopeFor(o, x) == before.EnvelopeFor(o, x);
  }

  /** Only columns of one user row other than the password envelope change. */
  lemma MaterialKeeps(s: Suite, w: World, w': World, p: Plain, p': Plain, k: Keyring, u: UserId)
    requires Represents(s, w, p, k) && u in w.db.users
    requires w'.creds == w.creds && u in w'.db.users
    requires w'.db == w.db.(users := w.db.users[u := w'.db.users[u]])
    requires w'.db.users[u].username == w.db.users[u].username
    requires w'.db.users[u].passwordEnvelope == w.db.users[u].passwordEnvelope
    requires p' == p.(phrases := p'.phrases, totp := p'.totp)
    requires SameForOthers(p'.phrases, p.phrases, u) && SameForOthers(p'.totp, p.totp, u)
    requires u in p.passwords && u in k.accounts && AccountOk(s, w', p', k, u)
    ensures Represents(s, w', p', k)
  {
    hide AccountOk, VaultsOk, SharesOk, KeysOk, SecretsOk, TrashConsistent, SoleAccountKey;
    forall o | o in w'.db.users ensures AccountOk(s, w', p', k, o) {
      if o != u {
        assert AccountOk(s, w, p, k, o);
        AccountUntouched(s, w, w', p, p', k, k, o);
      }
    }
    VaultsFrame(s, w.db, w'.db, p, p', k, k);
    RekeyKeepsSecrets(s, w.db, w'.db, p, p', k, k);
    SoleFrame(w.db, w'.db);
  }

  lemma SealPhraseKeeps(s: Suite, w: World, w': World, p: Plain, k: Keyring, u: UserId, phrase: string)
    requires Represents(s, w, p, k) && u in k.accounts && UsesAccountKey(w.db, u) && w'.creds == w.creds
    requires RecoverySealed(s, w.db, w'.db, u, phrase, k.accounts[u])
    ensures Represents(s, w', PlainAfter(p, SealPhrase(u, phrase)), k)
  {
    hide Represents, Opens, OpenBlob, SealedWith, IsBlank, IsAccountKey;
    StoredAccount(s, w, p, k, u);
    MaterialKeeps(s, w, w', p, PlainAfter(p, SealPhrase(u, phrase)), k, u);
  }

  lemma PhraseFrame(s: Suite, row: UserRow, row': UserRow, phrase: string, key: Bytes)
    requires row' == row.(totpSecret := row'.totpSecret) && row.passwordEnvelope.Some?
    ensures PhraseOk(s, row', phrase, key) <==> PhraseOk(s, row, phrase, key)
  {
    hide SealedWith, ReadBlob, IsAccountKey;
  }

  lemma SetTotpKeeps(s: Suite, w: World, w': World, p: Plain, k: Keyring, u: UserId, secret: Option<Bytes>)
    requires Represents(s, w, p, k) && u in k.accounts && w'.creds == w.creds
    requires TotpStored(s, w.db, w'.db, u, secret, k.accounts[u])
    ensures Represents(s, w', PlainAfter(p, SetTotp(u, secret)), k)
  {
    hide Represents, Opens, OpenBlob, PhraseOk, IsBlank, IsAccountKey;
    StoredAccount(s, w, p, k, u);
    if u in p.phrases {
      PhraseFrame(s, w.db.users[u], w'.db.users[u], p.phrases[u], k.accounts[u]);
    }
    MaterialKeeps(s, w, w', p, PlainAfter(p, SetTotp(u, secret)), k, u);
  }

  // ---- accounts -----------------------------------------------------------------------------------------------

  lemma BootstrapKeeps(s: Suite, w: World, w': World, p: Plain, k: Keyring, u: UserId, password: string, phrase: string,
                       key: Bytes)
    requires Represents(s, w, p, k)
    requires Bootstrapped(s, w, w', u, password, phrase, key)
    ensures u !in k.accounts
    ensures Represents(s, w', PlainAfter(p, Bootstrap(u, password, phrase)), k.(accounts := k.accounts[u := key]))
  {
    hide Represents, Opens, SealedWith, IsBlank, IsAccountKey;
    NewAccountRepresents(s, w, w', p, PlainAfter(p, Bootstrap(u, password, phrase)), k, u, w'.db.users[u], password, key);
  }

  lemma NoAccountKeyKnown(s: Suite, w: World, p: Plain, k: Keyring)
    requires UsersOk(s, w, p, k) && !HasAccountKeyUser(w.creds)
    ensures forall o :: o in w.db.users ==> !UsesAccountKey(w.db, o)
  {
    hide Opens, OpenBlob, PhraseOk, IsBlank;
    forall o | o in w.db.users ensures !UsesAccountKey(w.db, o) {
      assert AccountOk(s, w, p, k, o);
      assert !StartsAsAccountKey(w.creds[w.db.users[o].username]);
    }
  }

  lemma AddAccountKeeps(s: Suite, w: World, w': World, p: Plain, k: Keyring, u: UserId, password: string, key: Bytes)
    requires Represents(s, w, p, k)
    requires AccountAdded(s, w, w', u, password, key)
    ensures u !in k.accounts
    ensures Represents(s, w', PlainAfter(p, AddAccount(u, password)), k.(accounts := k.accounts[u := key]))
  {
    hide UsersOk, VaultsOk, SharesOk, KeysOk, SecretsOk, TrashConsistent, SoleAccountKey, Opens, PhraseOk, IsBlank,
      IsAccountKey, StartsAsAccountKey, UsesAccountKey;
    NoAccountKeyKnown(s, w, p, k);
    NewAccountRepresents(s, w, w', p, PlainAfter(p, AddAccount(u, password)), k, u, w'.db.users[u], password, key);
  }

  lemma StoredEnvelopeIsKnown(s: Suite, w: World, p: Plain, k: Keyring, u: UserId)
    requires Represents(s, w, p, k) && u in w.db.users
    ensures u in k.accounts && w.db.users[u].username in w.creds
    ensures UsesAccountKey(w.db, u) <==> IsAccountKey(w.creds[w.db.users[u].username])
    ensures UsesAccountKey(w.db, u) <==> u in p.accountKeys
    ensures SingleAccount(w.db) <==> |p.passwords| == 1
  {
    hide Opens, OpenBlob, PhraseOk, IsBlank, IsAccountKey, VaultsOk, SharesOk, KeysOk, SecretsOk, TrashConsistent, SoleAccountKey;
    assert AccountOk(s, w, p, k, u);
  }

  /** Every branch of a password change leaves vaults, secrets, phrases and two-factor secrets as they
      were, and every live vault its user could open still opens. */
  lemma PasswordChangeKeeps(s: Suite, w: World, w': World, p: Plain, k: Keyring, u: UserId, newPassword: string, newKey: Bytes)
    requires s.Ideal()
    requires Represents(s, w, p, k) && u in k.accounts
    requires PasswordChanged(s, w, w', u, k.accounts[u], newPassword, newKey)
    ensures Represents(s, w', PlainPasswordChange(p, u, newPassword), k.(accounts := k.accounts[u := newKey]))
    ensures u in p.accountKeys ==> newKey == k.accounts[u]
    ensures forall v :: p.CanOpen(u, v) ==>
      OpenVaultForUser(s, w'.db, u, v, newKey) == OpenVaultForUser(s, w.db, u, v, k.accounts[u])
  {
    hide Represents, Rekeyed, Opens, IsAccountKey, UsesAccountKey, OpenVaultForUser;
    StoredEnvelopeIsKnown(s, w, p, k, u);
    var stored := w'.db.users[u].passwordEnvelope.value;
    var p', k' := PlainPasswordChange(p, u, newPassword), k.(accounts := k.accounts[u := newKey]);
    if UsesAccountKey(w.db, u) {
      ReplacementRepresents(s, w, w', p, k, u, newPassword, stored);
      assert k' == k;
    } else {
      var recovery := if SingleAccount(w.db) then SealedAccountKey(None) else LegacyPhraseEnvelope;
      RekeyRepresents(s, w, w', p, k, u, newPassword, newKey, stored, recovery);
    }
    forall v | p.CanOpen(u, v)
      ensures OpenVaultForUser(s, w'.db, u, v, newKey) == OpenVaultForUser(s, w.db, u, v, k.accounts[u])
    {
      AccessibleVaultOpens(s, w, p, k, u, v);
      AccessibleVaultOpens(s, w', p', k', u, v);
    }
  }

  /** After a restart the credentials are those of the stored envelopes. */
  lemma RestartKeeps(s: Suite, w: World, w': World, p: Plain, k: Keyring)
    requires Represents(s, w, p, k)
    requires w'.db == w.db && LoadedFrom(w.db, w'.creds)
    ensures Represents(s, w', p, k)
  {
    hide Opens, OpenBlob, PhraseOk, IsBlank, IsAccountKey, VaultsOk, SharesOk, KeysOk, SecretsOk, TrashConsistent,
      SoleAccountKey;
    forall u | u in w.db.users ensures AccountOk(s, w', p, k, u) {
      assert AccountOk(s, w, p, k, u);
      var o :| o in w.db.users && w.db.users[o].username == w.db.users[u].username
        && w.db.users[o].passwordEnvelope == Some(w'.creds[w.db.users[u].username]);
      assert o == u;
    }
    VaultsFrame(s, w.db, w'.db, p, p, k, k);
  }

  /** The key a backup gives is the account key. */
  lemma BackupGivesAccountKey(s: Suite, w: World, p: Plain, k: Keyring, u: UserId, typed: string)
    requires Represents(s, w, p, k) && u in w.db.users
    requires UsesAccountKey(w.db, u) ==> u in p.phrases && SameWords(s, typed, p.phrases[u])
    ensures u in k.accounts && BackupKey(s, w.db.users[u], typed) == Ok(k.accounts[u])
    ensures UsesAccountKey(w.db, u) ==> SealedWith(s, w.db.users[u].recoveryKeyEnvelope, typed, k.accounts[u])
  {
    hide AccountOk, VaultsOk, SharesOk, KeysOk, SecretsOk, TrashConsistent, SoleAccountKey;
    StoredAccount(s, w, p, k, u);
    StoredKeyRecovers(s, w, p, k, u, typed);
  }

  lemma StoredKeyRecovers(s: Suite, w: World, p: Plain, k: Keyring, u: UserId, typed: string)
    requires u in w.db.users && u in p.passwords && u in k.accounts && AccountOk(s, w, p, k, u)
    requires UsesAccountKey(w.db, u) ==> u in p.phrases && SameWords(s, typed, p.phrases[u])
    ensures BackupKey(s, w.db.users[u], typed) == Ok(k.accounts[u])
    ensures UsesAccountKey(w.db, u) ==> SealedWith(s, w.db.users[u].recoveryKeyEnvelope, typed, k.accounts[u])
  {
    hide OpenBlob, IsBlank, OpenWithRecoveryPhrase, Words, LowerAll;
  }

  lemma RetypedPhraseKeeps(s: Suite, w: World, p: Plain, k: Keyring, u: UserId, typed: string)
    requires Represents(s, w, p, k) && u in w.db.users && UsesAccountKey(w.db, u) && u in k.accounts
    requires SealedWith(s, w.db.users[u].recoveryKeyEnvelope, typed, k.accounts[u])
    ensures Represents(s, w, p.(phrases := p.phrases[u := typed]), k)
  {
    hide OpenBlob, IsBlank, VaultsOk, SharesOk, KeysOk, SecretsOk, TrashConsistent, Opens, SealedWith, IsAccountKey;
    assert AccountOk(s, w, p, k, u);
    MaterialKeeps(s, w, w, p, p.(phrases := p.phrases[u := typed]), k, u);
  }

  /** Restoring a backup with its phrase, retyped in any way, and choosing any new password keeps every
      vault and secret, and every live vault its user could open still opens; an account key itself stays. */
  lemma RestoreBackupKeeps(s: Suite, w: World, w': World, p: Plain, k: Keyring, u: UserId, typed: string,
                           newPassword: string, newKey: Bytes)
    requires s.Ideal()
    requires Represents(s, w, p, k) && u in w.db.users
    requires UsesAccountKey(w.db, u) ==> u in p.phrases && SameWords(s, typed, p.phrases[u])
    requires BackupKey(s, w.db.users[u], typed).Ok?
    requires ResetFromBackup(s, w.db, w'.db, u, BackupKey(s, w.db.users[u], typed).value, typed, newPassword, newKey)
    requires LoadedFrom(w'.db, w'.creds)
    ensures Represents(s, w', PlainAfter(p, RestoreBackup(u, typed, newPassword)), k.(accounts := k.accounts[u := newKey]))
    ensures u in k.accounts && (u in p.accountKeys ==> newKey == k.accounts[u])
    ensures forall v :: p.CanOpen(u, v) ==>
      OpenVaultForUser(s, w'.db, u, v, newKey) == OpenVaultForUser(s, w.db, u, v, k.accounts[u])
  {
    hide Represents, Rekeyed, Opens, IsAccountKey, UsesAccountKey, BackupKey, SealedWith, SameWords, LoadedFrom,
      OpenVaultForUser;
    BackupGivesAccountKey(s, w, p, k, u, typed);
    StoredEnvelopeIsKnown(s, w, p, k, u);
    var stored := w'.db.users[u].passwordEnvelope.value;
    var mid := World(w'.db.(policy := w.db.policy), w.creds[w.db.users[u].username := stored]);
    var k' := k.(accounts := k.accounts[u := newKey]);
    var p' := PlainAfter(p, RestoreBackup(u, typed, newPassword));
    if UsesAccountKey(w.db, u) {
      assert k' == k;
      RetypedPhraseKeeps(s, w, p, k, u, typed);
      ReplacementRepresents(s, w, mid, p.(phrases := p.phrases[u := typed]), k, u, newPassword, stored);
    } else {
      RekeyRepresents(s, w, mid, p, k, u, newPassword, newKey, stored, SealedAccountKey(Some(typed)));
    }
    assert Represents(s, mid, p', k');
    PolicyFrame(s, mid, mid.(db := w'.db), p', k');
    RestartKeeps(s, mid.(db := w'.db), w', p', k');
    forall v | p.CanOpen(u, v)
      ensures OpenVaultForUser(s, w'.db, u, v, newKey) == OpenVaultForUser(s, w.db, u, v, k.accounts[u])
    {
      AccessibleVaultOpens(s, w, p, k, u, v);
      AccessibleVaultOpens(s, w', p', k', u, v);
    }
  }

  // ---- every step, every run ---------------------------------------------------------------------------------------

  lemma StepKeeps(s: Suite, w: World, w': World, p: Plain, k: Keyring, step: Step) returns (k': Keyring)
    requires s.Ideal()
    requires Represents(s, w, p, k) && Next(s, w, p, step, w')
    ensures Represents(s, w', PlainAfter(p, step), k')
    ensures forall u :: u in k.accounts && !ChangesKey(p, step, u) ==> u in k'.accounts && k'.accounts[u] == k.accounts[u]
  {
    hide Represents, OpenedBy, LoginKey, UsesAccountKey, SecretAdded, SecretMoved, SecretRewritten,
      Bootstrapped, AccountAdded, PasswordChanged, ResetFromBackup, BackupKey, SameWords, LoadedFrom, PlainTrash,
      PlainPasswordChange, PlainRekeyed, Suite.Ideal;
    k' := k;
    match step {
      case Idle =>
      case Bootstrap(u, password, phrase) =>
        var key :| Bootstrapped(s, w, w', u, password, phrase, key);
        BootstrapKeeps(s, w, w', p, k, u, password, phrase, key);
        k' := k.(accounts := k.accounts[u := key]);
      case AddAccount(u, password) =>
        var key :| AccountAdded(s, w, w', u, password, key);
        AddAccountKeeps(s, w, w', p, k, u, password, key);
        k' := k.(accounts := k.accounts[u := key]);
      case CreateVault(_, _) =>
        LoginGivesAccountKey(s, w, p, k, step.owner);
        k' := CreateVaultKeeps(s, w, w', p, k, step.v, step.owner);
      case ShareVault(_, _, _) =>
        ShareVaultKeeps(s, w, w', p, k, step);
      case UnshareVault(v, u) =>
        UnshareVaultKeeps(s, w, w', p, k, v, u);
      case CreateSecret(x, v, actor, value) =>
        OpenedByGivesVaultKey(s, w, p, k, actor, v);
        AddedSecretKeeps(s, w, w', p, k, x, v, value);
      case UpdateSecret(x, actor, value) =>
        OpenedByGivesVaultKey(s, w, p, k, actor, w.db.secrets[x].vault);
        StoredSecret(s, w, p, k, x);
        RewrittenSecretKeeps(s, w, w', p, k, x, value);
      case MoveSecret(x, target, actor) =>
        OpenedByGivesVaultKey(s, w, p, k, actor, w.db.secrets[x].vault);
        OpenedByGivesVaultKey(s, w, p, k, actor, target);
        StoredSecret(s, w, p, k, x);
        MovedSecretKeeps(s, w, w', p, k, x, target);
      case Trash(_) =>
        TrashKeeps(s, w, w', p, k, step);
      case ChangePassword(u, newPassword) =>
        LoginGivesAccountKey(s, w, p, k, u);
        var newKey :| PasswordChanged(s, w, w', u, k.accounts[u], newPassword, newKey);
        PasswordChangeKeeps(s, w, w', p, k, u, newPassword, newKey);
        k' := k.(accounts := k.accounts[u := newKey]);
      case UpgradeCredentials(u) =>
        LoginGivesAccountKey(s, w, p, k, u);
        KnownPassword(s, w, p, k, u);
        var newKey :| PasswordChanged(s, w, w', u, k.accounts[u], p.passwords[u], newKey);
        PasswordChangeKeeps(s, w, w', p, k, u, p.passwords[u], newKey);
        k' := k.(accounts := k.accounts[u := newKey]);
      case SealPhrase(u, phrase) =>
        LoginGivesAccountKey(s, w, p, k, u);
        SealPhraseKeeps(s, w, w', p, k, u, phrase);
      case SetTotp(u, secret) =>
        LoginGivesAccountKey(s, w, p, k, u);
        SetTotpKeeps(s, w, w', p, k, u, secret);
      case Restart =>
        RestartKeeps(s, w, w', p, k);
      case RestoreBackup(u, typed, newPassword) =>
        var newKey :| ResetFromBackup(s, w.db, w'.db, u, BackupKey(s, w.db.users[u], typed).value, typed, newPassword, newKey);
        RestoreBackupKeeps(s, w, w', p, k, u, typed, newPassword, newKey);
        k' := k.(accounts := k.accounts[u := newKey]);
    }
  }

  predicate TouchesNoAccount(step: Step) {
    step.CreateVault? || step.ShareVault? || step.UnshareVault? || step.CreateSecret? || step.UpdateSecret?
    || step.MoveSecret? || step.Trash?
  }

  /** Work on vaults and secrets leaves every session as it is. */
  lemma SessionsStay(s: Suite, w: World, p: Plain, step: Step, w': World, u: UserId)
    requires TouchesNoAccount(step) && Next(s, w, p, step, w')
    ensures LoginKey(s, w', PlainAfter(p, step), u) == LoginKey(s, w, p, u)
  {
    hide Next, PlainAfter, Decode, Unlock;
    AccountsStay(s, w, p, step, w');
  }

  lemma AccountsStay(s: Suite, w: World, p: Plain, step: Step, w': World)
    requires TouchesNoAccount(step) && Next(s, w, p, step, w')
    ensures w'.db.users == w.db.users && w'.creds == w.creds && PlainAfter(p, step).passwords == p.passwords
  {
    PlainAccountsStay(p, step);
    hide OpenedBy, LoginKey, OpenBlob, PlainAfter, Outcome;
    forall t: TrashStep | Runs(w.db, w'.db, t) ensures w'.db.users == w.db.users {
      OutcomeKeepsUsers(w.db, t);
    }
  }

  lemma PlainAccountsStay(p: Plain, step: Step)
    requires TouchesNoAccount(step)
    ensures PlainAfter(p, step).passwords == p.passwords
  {
    hide PlainTrash, PlainPasswordChange, PlainRekeyed;
  }

  lemma OutcomeKeepsUsers(db: Database, t: TrashStep)
    ensures Outcome(db, t).Ok? ==> Outcome(db, t).value.users == db.users
  {
  }

  lemma KnownPassword(s: Suite, w: World, p: Plain, k: Keyring, u: UserId)
    requires Represents(s, w, p, k) && u in w.db.users
    ensures u in p.passwords
  {
    hide AccountOk, VaultsOk, SharesOk, KeysOk, SecretsOk, TrashConsistent, SoleAccountKey;
  }

  datatype Run = Run(worlds: seq<World>, plains: seq<Plain>, steps: seq<Step>)

  /** A run: the worlds follow the operations, the plain states follow their meaning. */
  ghost predicate IsRun(s: Suite, r: Run) {
    && |r.worlds| == |r.steps| + 1 && |r.plains| == |r.steps| + 1
    && forall i :: 0 <= i < |r.steps| ==>
      && Next(s, r.worlds[i], r.plains[i], r.steps[i], r.worlds[i + 1])
      && r.plains[i + 1] == PlainAfter(r.plains[i], r.steps[i])
  }

  lemma {:induction false} RunKeeps(s: Suite, r: Run, k: Keyring, n: nat) returns (k': Keyring)
    requires s.Ideal() && IsRun(s, r) && n < |r.worlds|
    requires Represents(s, r.worlds[0], r.plains[0], k)
    ensures n < |r.plains| && Represents(s, r.worlds[n], r.plains[n], k')
  {
    hide Represents, Next, PlainAfter;
    if n == 0 {
      k' := k;
    } else {
      var before := RunKeeps(s, r, k, n - 1);
      assert Next(s, r.worlds[n - 1], r.plains[n - 1], r.steps[n - 1], r.worlds[n - 1 + 1]);
      k' := StepKeeps(s, r.worlds[n - 1], r.worlds[n], r.plains[n - 1], before, r.steps[n - 1]);
    }
  }

  /** No run loses a secret: at every point, whoever has access to the vault of a live secret reads, by
      logging in with the current password and opening the vault, the value last stored. */
  lemma NoRunLosesASecret(s: Suite, r: Run, k: Keyring, n: nat, u: UserId, x: SecretId)
    requires s.Ideal() && IsRun(s, r) && n < |r.worlds|
    requires Represents(s, r.worlds[0], r.plains[0], k)
    requires r.plains[n].CanRead(u, x)
    ensures u in r.plains[n].passwords
    ensures ReadThrough(s, r.worlds[n], u, r.plains[n].passwords[u], x) == Some(r.plains[n].secrets[x].value)
  {
    hide Represents, IsRun, ReadThrough;
    var k' := RunKeeps(s, r, k, n);
    RepresentedSecretsRead(s, r.worlds[n], r.plains[n], k', u, x);
  }

  /** The phrase an account is known by changes only when one is sealed or given, and is forgotten only with
      the account. */
  lemma PhrasesStay(p: Plain, step: Step)
    ensures PlainAfter(p, step).phrases ==
      match step
      case Bootstrap(u, _, phrase) => p.phrases[u := phrase]
      case SealPhrase(u, phrase) => p.phrases[u := phrase]
      case RestoreBackup(u, typed, _) => p.phrases[u := typed]
      case AddAccount(u, _) => p.phrases - {u}
      case _ => p.phrases
  {
    hide PlainTrash, PlainPasswordChange, PlainRekeyed;
    match step {
      case ChangePassword(u, newPassword) => RekeyedPhrases(p, u, newPassword);
      case UpgradeCredentials(u) => if u in p.passwords { RekeyedPhrases(p, u, p.passwords[u]); }
      case RestoreBackup(u, typed, newPassword) => RestoredPhrases(p, u, typed, newPassword);
      case _ =>
    }
  }

  lemma RekeyedPhrases(p: Plain, u: UserId, newPassword: string)
    ensures PlainPasswordChange(p, u, newPassword).phrases == p.phrases
  {
    hide Plain.KeyChanged;
  }

  lemma RestoredPhrases(p: Plain, u: UserId, typed: string, newPassword: string)
    ensures PlainRekeyed(p, u, newPassword, SealedAccountKey(Some(typed))).phrases == p.phrases[u := typed]
  {
    hide Plain.KeyChanged;
  }

  /** The step takes a vault from `u`: a revocation, or a new key of `u` while the vault is in the trash. */
  ghost predicate AccessEnds(p: Plain, step: Step, u: UserId, v: VaultId) {
    && v in p.vaults
    && ((step == UnshareVault(v, u) && p.vaults[v].owner != u) || (ChangesKey(p, step, u) && p.vaults[v].deleted))
  }

  lemma AccessStays(p: Plain, step: Step, u: UserId, v: VaultId)
    requires (u, v) in p.access && u in p.passwords
    ensures (u, v) in PlainAfter(p, step).access <==> !AccessEnds(p, step, u, v)
  {
    hide PlainTrash, PlainPasswordChange, PlainRekeyed, Plain.KeyChanged;
    match step {
      case ChangePassword(o, newPassword) => KeyChangeAccess(p, o, newPassword, LegacyPhraseEnvelope);
      case UpgradeCredentials(o) => if o in p.passwords { KeyChangeAccess(p, o, p.passwords[o], LegacyPhraseEnvelope); }
      case RestoreBackup(o, typed, newPassword) => KeyChangeAccess(p, o, newPassword, SealedAccountKey(Some(typed)));
      case _ =>
    }
  }

  lemma KeyChangeAccess(p: Plain, u: UserId, newPassword: string, recovery: RecoveryMaterial)
    ensures PlainRekeyed(p, u, newPassword, recovery).access == p.access - p.TrashedAccess(u)
    ensures PlainPasswordChange(p, u, newPassword).access ==
      if u in p.accountKeys then p.access else p.access - p.TrashedAccess(u)
  {
    hide PhrasesAfter;
  }

  lemma AccessIsOfUsers(s: Suite, w: World, p: Plain, k: Keyring, u: UserId, v: VaultId)
    requires Represents(s, w, p, k) && (u, v) in p.access
    ensures u in p.passwords && v in p.vaults
  {
    hide AccountOk, SharesOk, SecretsOk, TrashConsistent, SoleAccountKey;
    assert PairOk(s, w.db, p, k, u, v);
  }

  /** Nor access: it ends only at such a step. */
  lemma {:induction false} NoRunLosesAccess(s: Suite, r: Run, k: Keyring, i: nat, n: nat, u: UserId, v: VaultId)
    requires s.Ideal() && IsRun(s, r) && Represents(s, r.worlds[0], r.plains[0], k)
    requires i <= n < |r.plains| && (u, v) in r.plains[i].access
    ensures (u, v) in r.plains[n].access || exists j :: i <= j < n && AccessEnds(r.plains[j], r.steps[j], u, v)
    decreases n
  {
    hide Next, PlainAfter, AccessEnds, Represents;
    if i < n {
      NoRunLosesAccess(s, r, k, i, n - 1, u, v);
      assert Next(s, r.worlds[n - 1], r.plains[n - 1], r.steps[n - 1], r.worlds[n - 1 + 1]);
      if !AccessEnds(r.plains[n - 1], r.steps[n - 1], u, v) && (u, v) in r.plains[n - 1].access {
        var before := RunKeeps(s, r, k, n - 1);
        AccessIsOfUsers(s, r.worlds[n - 1], r.plains[n - 1], before, u, v);
        AccessStays(r.plains[n - 1], r.steps[n - 1], u, v);
      }
    }
  }

  /** Nor the account: the current password opens the stored envelope, which is the one in memory, to a
      key that opens every live vault the user has access to; an account-key account is alone; and unless
      a lost vault is live again the next re-key reads everything. */
  lemma NoRunLosesAnAccount(s: Suite, r: Run, k: Keyring, n: nat, u: UserId)
    requires s.Ideal() && IsRun(s, r) && n < |r.worlds|
    requires Represents(s, r.worlds[0], r.plains[0], k)
    requires n < |r.plains| && u in r.plains[n].passwords
    ensures var w, p := r.worlds[n], r.plains[n];
      && u in w.db.users && w.db.users[u].passwordEnvelope.Some? && w.db.users[u].username in w.creds
      && w.creds[w.db.users[u].username] == w.db.users[u].passwordEnvelope.value
      && (exists key :: |key| == KEY_LEN && Opens(s, w.db.users[u].passwordEnvelope.value, p.passwords[u], key)
            && (forall v :: p.CanOpen(u, v) ==> OpenVaultForUser(s, w.db, u, v, key).Ok?)
            && (p.NothingLostIsLive(u) ==> OpensEveryVault(s, w.db, u, key)))
      && (u in p.accountKeys <==> UsesAccountKey(w.db, u))
      && (u in p.accountKeys ==> p.passwords.Keys == {u})
  {
    hide IsRun, VaultsOk, SharesOk, KeysOk, SecretsOk, TrashConsistent, OpenBlob, Opens, PhraseOk, IsBlank, OpensEveryVault,
      OpenVaultForUser, IsAccountKey, Plain.NothingLostIsLive, Plain.CanOpen;
    var k' := RunKeeps(s, r, k, n);
    var w, p := r.worlds[n], r.plains[n];
    assert AccountOk(s, w, p, k', u);
    var key := k'.accounts[u];
    forall v | p.CanOpen(u, v) ensures OpenVaultForUser(s, w.db, u, v, key).Ok? {
      AccessibleVaultOpens(s, w, p, k', u, v);
    }
    if p.NothingLostIsLive(u) {
      RepresentedAccountRekeys(s, w, p, k', u);
    }
    assert |key| == KEY_LEN && Opens(s, w.db.users[u].passwordEnvelope.value, p.passwords[u], key);
  }

  /** The empty database represents the empty plain state: runs may start there. */
  lemma EmptyWorldRepresents(s: Suite)
    ensures Represents(s, World(Database(map[], map[], map[], map[], map[]), map[]),
                       NOTHING, Keyring(map[], map[]))
  {
  }
}
