/** Re-keying one account: the read pass that opens everything with the old key, the rewrap, the
    rotation and the read-back, and the three public operations built from them. */
module RekeyService {
  import opened Wrappers
  import opened Text
  import opened Crypto
  import opened PasswordEnvelopes
  import opened AccountKeys
  import opened Tables
  import opened SecretRepository
  import opened Access
  import opened VaultRepository

  datatype RekeyReport = RekeyReport(
    ownerVaultsRewrapped: nat,
    sharedVaultsRewrapped: nat,
    vaultsWithoutKey: nat,
    secretsReadable: nat,
    secretsUnreadable: nat,
    totpDisabled: bool,
    recoveryKeyAvailable: bool)

  datatype RekeyOutcome = RekeyOutcome(report: RekeyReport, passwordEnvelope: Bytes, sessionKey: Bytes)

  datatype RecoveryMaterial =
    /** The phrase column is sealed anew; the sealed-key column stays. */
    | LegacyPhraseEnvelope
    /** Seals the new key, with this phrase or else with one found in the phrase column. */
    | SealedAccountKey(given: Option<string>)

  datatype UnwrappedVault = UnwrappedVault(vaultId: VaultId, owned: bool, vaultKey: Bytes)

  // ---- what a key opens --------------------------------------------------------------------------

  /** The vault key `key` gives `user` for vault `v`. */
  function VaultKeyOf(s: Suite, db: Database, user: UserId, v: VaultId, key: Bytes): Option<Bytes>
    requires v in db.vaults
  {
    match db.EnvelopeFor(user, v)
    case Some(envelope) => OpenBlob(s, envelope, key)
    case None => None
  }

  /** `key` opens every accessible vault that has a key at all. */
  ghost predicate OpensEveryVault(s: Suite, db: Database, user: UserId, key: Bytes) {
    forall v :: v in db.vaults && db.Keyed(user, v) ==> VaultKeyOf(s, db, user, v, key).Some?
  }

  /** The list entry of a vault that opens. */
  function UnwrappedEntry(s: Suite, db: Database, user: UserId, key: Bytes, v: VaultId): UnwrappedVault
    requires v in db.vaults && VaultKeyOf(s, db, user, v, key).Some?
  {
    UnwrappedVault(v, db.vaults[v].owner == user, VaultKeyOf(s, db, user, v, key).value)
  }

  ghost predicate IsUnwrapped(s: Suite, db: Database, user: UserId, key: Bytes, u: UnwrappedVault) {
    && u.vaultId in db.vaults && db.Keyed(user, u.vaultId)
    && VaultKeyOf(s, db, user, u.vaultId, key).Some?
    && u == UnwrappedEntry(s, db, user, key, u.vaultId)
  }

  ghost predicate DistinctVaults(vs: seq<UnwrappedVault>) {
    forall i, j :: 0 <= i < j < |vs| ==> vs[i].vaultId != vs[j].vaultId
  }

  /** `vs` holds each reachable vault that has a key exactly once, with that key. */
  ghost predicate UnwrapsAll(s: Suite, db: Database, user: UserId, key: Bytes, vs: seq<UnwrappedVault>) {
    && DistinctVaults(vs)
    && (forall u :: u in vs ==> IsUnwrapped(s, db, user, key, u))
    && (forall v :: v in db.vaults && db.Keyed(user, v) ==>
          VaultKeyOf(s, db, user, v, key).Some? && UnwrappedEntry(s, db, user, key, v) in vs)
  }

  function KeylessVaults(db: Database, user: UserId): set<VaultId> {
    set v | v in db.vaults && db.Accessible(user, v) && !db.Keyed(user, v)
  }

  /** `v` is an accessible vault whose envelope is too short, or does not decrypt with `key`. */
  ghost predicate StopsAt(s: Suite, db: Database, user: UserId, key: Bytes, v: VaultId, error: AppError) {
    && v in db.vaults && db.Keyed(user, v)
    && VaultKeyOf(s, db, user, v, key).None?
    && error == if |db.EnvelopeFor(user, v).value| < NONCE_LEN then Storage else InconsistentKeyMaterial
  }

  /** What the loop over the accessible rows collects, if every row so far opened. */
  function UnwrapRows(s: Suite, db: Database, user: UserId, key: Bytes, rows: seq<VaultId>): Option<seq<UnwrappedVault>>
    requires forall v :: v in rows ==> v in db.vaults
  {
    if rows == [] then Some([])
    else
      var v := rows[|rows| - 1];
      match UnwrapRows(s, db, user, key, rows[..|rows| - 1])
      case None => None
      case Some(vs) =>
        if db.EnvelopeFor(user, v).None? then Some(vs)
        else if VaultKeyOf(s, db, user, v, key).None? then None
        else Some(vs + [UnwrappedEntry(s, db, user, key, v)])
  }

  /** The entries `vs` account for the rows `rows`. */
  ghost predicate Collected(s: Suite, db: Database, user: UserId, key: Bytes, rows: seq<VaultId>, vs: seq<UnwrappedVault>)
    requires forall v :: v in rows ==> v in db.vaults
  {
    && DistinctVaults(vs)
    && (forall u :: u in vs ==> u.vaultId in rows && IsUnwrapped(s, db, user, key, u))
    && (forall v :: v in rows && db.EnvelopeFor(user, v).Some? ==>
          VaultKeyOf(s, db, user, v, key).Some? && UnwrappedEntry(s, db, user, key, v) in vs)
  }

  lemma CollectedGrows(s: Suite, db: Database, user: UserId, key: Bytes, rows: seq<VaultId>, vs: seq<UnwrappedVault>,
                       v: VaultId, more: seq<UnwrappedVault>)
    requires forall w :: w in rows + [v] ==> w in db.vaults
    requires Collected(s, db, user, key, rows, vs)
    requires v !in rows
    requires if db.EnvelopeFor(user, v).None? then more == vs
             else
               && VaultKeyOf(s, db, user, v, key).Some?
               && IsUnwrapped(s, db, user, key, UnwrappedEntry(s, db, user, key, v))
               && more == vs + [UnwrappedEntry(s, db, user, key, v)]
    ensures Collected(s, db, user, key, rows + [v], more)
  {
    assert v in rows + [v];
    forall w | w in rows + [v] && db.EnvelopeFor(user, w).Some?
      ensures VaultKeyOf(s, db, user, w, key).Some? && UnwrappedEntry(s, db, user, key, w) in more
    {
      if w != v {
        assert w in rows;
      }
    }
  }

  lemma {:induction false} UnwrapRowsCollects(s: Suite, db: Database, user: UserId, key: Bytes, rows: seq<VaultId>)
    requires forall v :: v in rows ==> v in db.vaults && db.Accessible(user, v)
    requires forall i, j :: 0 <= i < j < |rows| ==> rows[i] != rows[j]
    requires UnwrapRows(s, db, user, key, rows).Some?
    ensures Collected(s, db, user, key, rows, UnwrapRows(s, db, user, key, rows).value)
  {
    if rows != [] {
      var init, v := rows[..|rows| - 1], rows[|rows| - 1];
      UnwrapRowsCollects(s, db, user, key, init);
      assert rows == init + [v];
      CollectedGrows(s, db, user, key, init, UnwrapRows(s, db, user, key, init).value, v,
                     UnwrapRows(s, db, user, key, rows).value);
    }
  }

  function KeylessIn(db: Database, user: UserId, rows: seq<VaultId>): set<VaultId>
    requires forall v :: v in rows ==> v in db.vaults
  {
    set v | v in rows && db.EnvelopeFor(user, v).None?
  }

  lemma KeylessGrows(db: Database, user: UserId, rows: seq<VaultId>, v: VaultId)
    requires forall w :: w in rows + [v] ==> w in db.vaults
    requires v !in rows
    ensures |KeylessIn(db, user, rows + [v])| ==
      |KeylessIn(db, user, rows)| + if db.EnvelopeFor(user, v).None? then 1 else 0
  {
    assert KeylessIn(db, user, rows + [v]) ==
      KeylessIn(db, user, rows) + if db.EnvelopeFor(user, v).None? then {v} else {};
  }

  /** Opens every accessible vault, or stops at the first one that does not open. */
  method UnwrapAccessibleVaults(s: Suite, db: Database, user: UserId, key: Bytes)
    returns (r: Result<(seq<UnwrappedVault>, nat)>)
    ensures r.Ok? <==> OpensEveryVault(s, db, user, key)
    ensures r.Ok? ==> UnwrapsAll(s, db, user, key, r.value.0) && r.value.1 == |KeylessVaults(db, user)|
    ensures r.Err? ==> exists v :: StopsAt(s, db, user, key, v, r.error)
  {
    var vs: seq<UnwrappedVault> := [];
    var vaultsWithoutKey := 0;
    var rows := ListAccessible(db, user);
    assert forall i :: 0 <= i <= |rows| ==> forall v :: v in rows[..i] ==> v in rows;
    for i := 0 to |rows|
      invariant UnwrapRows(s, db, user, key, rows[..i]) == Some(vs)
      invariant vaultsWithoutKey == |KeylessIn(db, user, rows[..i])|
    {
      var vaultId := rows[i];
      assert rows[i] in rows && db.Accessible(user, vaultId);
      assert rows[..i + 1] == rows[..i] + [vaultId] && rows[..i + 1][..i] == rows[..i];
      KeylessGrows(db, user, rows[..i], vaultId);
      match db.EnvelopeFor(user, vaultId) {
        case None =>
          vaultsWithoutKey := vaultsWithoutKey + 1;
        case Some(envelope) =>
          if Deserialize(envelope).Err? {
            assert StopsAt(s, db, user, key, vaultId, Storage);
            return Err(Storage);
          }
          match Decrypt(s, Deserialize(envelope).value, key) {
            case None =>
              assert StopsAt(s, db, user, key, vaultId, InconsistentKeyMaterial);
              return Err(InconsistentKeyMaterial);
            case Some(vaultKey) =>
              vs := vs + [UnwrappedVault(vaultId, db.vaults[vaultId].owner == user, vaultKey)];
          }
      }
    }
    assert rows[..|rows|] == rows;
    UnwrapRowsCollects(s, db, user, key, rows);
    assert KeylessIn(db, user, rows) == KeylessVaults(db, user);
    r := Ok((vs, vaultsWithoutKey));
  }

  // ---- secrets are read, not rewritten -------------------------------------------------------------

  function LiveSecrets(db: Database, v: VaultId): set<SecretId> {
    set x | x in db.secrets && db.secrets[x].vault == v && !db.secrets[x].deleted
  }

  function Decrypting(s: Suite, db: Database, xs: set<SecretId>, vaultKey: Bytes): set<SecretId>
    requires xs <= db.secrets.Keys
  {
    set x | x in xs && OpenBlob(s, db.secrets[x].Blob(), vaultKey).Some?
  }

  lemma DecryptingWithout(s: Suite, db: Database, xs: set<SecretId>, x: SecretId, vaultKey: Bytes)
    requires xs <= db.secrets.Keys && x in xs
    ensures |Decrypting(s, db, xs, vaultKey)| == |Decrypting(s, db, xs - {x}, vaultKey)|
      + if OpenBlob(s, db.secrets[x].Blob(), vaultKey).Some? then 1 else 0
  {
    assert Decrypting(s, db, xs, vaultKey) == Decrypting(s, db, xs - {x}, vaultKey)
      + if OpenBlob(s, db.secrets[x].Blob(), vaultKey).Some? then {x} else {};
  }

  function ReadableSecrets(s: Suite, db: Database, v: VaultId, vaultKey: Bytes): set<SecretId> {
    Decrypting(s, db, LiveSecrets(db, v), vaultKey)
  }

  function CountReadable(s: Suite, db: Database, vs: seq<UnwrappedVault>): nat {
    if vs == [] then 0
    else
      var last := vs[|vs| - 1];
      CountReadable(s, db, vs[..|vs| - 1]) + |ReadableSecrets(s, db, last.vaultId, last.vaultKey)|
  }

  function CountLive(db: Database, vs: seq<UnwrappedVault>): nat {
    if vs == [] then 0
    else CountLive(db, vs[..|vs| - 1]) + |LiveSecrets(db, vs[|vs| - 1].vaultId)|
  }

  method CheckVaultSecrets(s: Suite, db: Database, vault: UnwrappedVault) returns (readable: nat, unreadable: nat)
    ensures readable == |ReadableSecrets(s, db, vault.vaultId, vault.vaultKey)|
    ensures readable + unreadable == |LiveSecrets(db, vault.vaultId)|
  {
    readable, unreadable := 0, 0;
    var left := LiveSecrets(db, vault.vaultId);
    while left != {}
      invariant left <= LiveSecrets(db, vault.vaultId)
      invariant readable + |Decrypting(s, db, left, vault.vaultKey)|
             == |ReadableSecrets(s, db, vault.vaultId, vault.vaultKey)|
      invariant readable + unreadable + |left| == |LiveSecrets(db, vault.vaultId)|
      decreases |left|
    {
      var x :| x in left;
      DecryptingWithout(s, db, left, x, vault.vaultKey);
      if OpenBlob(s, db.secrets[x].Blob(), vault.vaultKey).Some? {
        readable := readable + 1;
      } else {
        unreadable := unreadable + 1;
      }
      left := left - {x};
    }
  }

  method CheckSecrets(s: Suite, db: Database, vs: seq<UnwrappedVault>) returns (readable: nat, unreadable: nat)
    ensures readable == CountReadable(s, db, vs)
    ensures readable + unreadable == CountLive(db, vs)
  {
    readable, unreadable := 0, 0;
    for i := 0 to |vs|
      invariant readable == CountReadable(s, db, vs[..i])
      invariant readable + unreadable == CountLive(db, vs[..i])
    {
      var good, bad := CheckVaultSecrets(s, db, vs[i]);
      readable, unreadable := readable + good, unreadable + bad;
      assert vs[..i + 1][..i] == vs[..i];
    }
    assert vs[..|vs|] == vs;
  }

  // ---- what the counters say -----------------------------------------------------------------------

  /** The secrets the user reads with this key: the vault opens, and the value behind it. */
  function SecretsRead(s: Suite, db: Database, user: UserId, key: Bytes): set<SecretId> {
    set x | x in db.secrets && Reads(s, db, user, key, x)
  }

  predicate Reads(s: Suite, db: Database, user: UserId, key: Bytes, x: SecretId)
    requires x in db.secrets
  {
    match OpenVaultForUser(s, db, user, db.secrets[x].vault, key)
    case Err(_) => false
    case Ok(vaultKey) => GetSecret(s, db, x, vaultKey).Ok?
  }

  function ReadableIn(s: Suite, db: Database, vs: seq<UnwrappedVault>): set<SecretId> {
    set x | x in db.secrets && exists u :: u in vs && x in ReadableSecrets(s, db, u.vaultId, u.vaultKey)
  }

  function LiveIn(db: Database, vs: seq<UnwrappedVault>): set<SecretId> {
    set x | x in db.secrets && exists u :: u in vs && x in LiveSecrets(db, u.vaultId)
  }

  lemma ReadableInGrows(s: Suite, db: Database, vs: seq<UnwrappedVault>, u: UnwrappedVault)
    requires forall w :: w in vs ==> w.vaultId != u.vaultId
    ensures |ReadableIn(s, db, vs + [u])| == |ReadableIn(s, db, vs)| + |ReadableSecrets(s, db, u.vaultId, u.vaultKey)|
  {
    hide OpenBlob;
    assert u in vs + [u];
    assert ReadableIn(s, db, vs + [u]) == ReadableIn(s, db, vs) + ReadableSecrets(s, db, u.vaultId, u.vaultKey);
    assert ReadableIn(s, db, vs) !! ReadableSecrets(s, db, u.vaultId, u.vaultKey);
  }

  lemma LiveInGrows(db: Database, vs: seq<UnwrappedVault>, u: UnwrappedVault)
    requires forall w :: w in vs ==> w.vaultId != u.vaultId
    ensures |LiveIn(db, vs + [u])| == |LiveIn(db, vs)| + |LiveSecrets(db, u.vaultId)|
  {
    assert u in vs + [u];
    assert LiveIn(db, vs + [u]) == LiveIn(db, vs) + LiveSecrets(db, u.vaultId);
    assert LiveIn(db, vs) !! LiveSecrets(db, u.vaultId);
  }

  lemma {:induction false} CountsAreSizes(s: Suite, db: Database, vs: seq<UnwrappedVault>)
    requires DistinctVaults(vs)
    ensures CountReadable(s, db, vs) == |ReadableIn(s, db, vs)| && CountLive(db, vs) == |LiveIn(db, vs)|
  {
    if vs == [] {
      assert ReadableIn(s, db, vs) == {} && LiveIn(db, vs) == {};
    } else {
      hide ReadableIn, LiveIn, ReadableSecrets, LiveSecrets;
      var n := |vs| - 1;
      assert vs == vs[..n] + [vs[n]];
      CountsAreSizes(s, db, vs[..n]);
      ReadableInGrows(s, db, vs[..n], vs[n]);
      LiveInGrows(db, vs[..n], vs[n]);
    }
  }

  lemma VaultIdsGrow(vs: seq<UnwrappedVault>, u: UnwrappedVault, owned: bool)
    requires forall w :: w in vs ==> w.vaultId != u.vaultId
    ensures |VaultIds(vs + [u], owned)| == |VaultIds(vs, owned)| + if u.owned == owned then 1 else 0
  {
    var more := if u.owned == owned then {u.vaultId} else {};
    forall v ensures v in VaultIds(vs + [u], owned) <==> v in VaultIds(vs, owned) || v in more {
      if v in VaultIds(vs, owned) {
        var w :| w in vs && w.owned == owned && w.vaultId == v;
        assert w in vs + [u];
      }
      assert v in more ==> u in vs + [u];
    }
    assert VaultIds(vs + [u], owned) == VaultIds(vs, owned) + more;
    assert VaultIds(vs, owned) !! more;
  }

  lemma {:induction false} OwnedIsSize(vs: seq<UnwrappedVault>)
    requires DistinctVaults(vs)
    ensures CountOwned(vs) == |VaultIds(vs, true)| && |vs| == |VaultIds(vs, true)| + |VaultIds(vs, false)|
  {
    if vs != [] {
      hide VaultIds;
      var n := |vs| - 1;
      OwnedIsSize(vs[..n]);
      assert vs == vs[..n] + [vs[n]];
      VaultIdsGrow(vs[..n], vs[n], true);
      VaultIdsGrow(vs[..n], vs[n], false);
    } else {
      assert VaultIds(vs, true) == {} && VaultIds(vs, false) == {};
    }
  }

  /** The counters of a report say what can be checked without the list: which secrets read, which live
      ones there are, and how many of the user's vaults hold no key. */
  ghost predicate Counted(s: Suite, db: Database, user: UserId, key: Bytes, report: RekeyReport) {
    && report.secretsReadable == |SecretsRead(s, db, user, key)|
    && report.secretsReadable + report.secretsUnreadable == |KeyedLive(db, user)|
    && report.vaultsWithoutKey == |set v | v in db.vaults && db.Accessible(user, v) && db.EnvelopeFor(user, v).None?|
  }

  /** The live secrets behind a key of the user's. */
  function KeyedLive(db: Database, user: UserId): set<SecretId> {
    set x | x in db.secrets && !db.secrets[x].deleted && db.Keyed(user, db.secrets[x].vault)
  }

  lemma UnwrappedCounts(s: Suite, db: Database, user: UserId, key: Bytes, vs: seq<UnwrappedVault>, report: RekeyReport)
    requires UnwrapsAll(s, db, user, key, vs) && user in db.users
    requires report.secretsReadable == CountReadable(s, db, vs)
    requires report.secretsReadable + report.secretsUnreadable == CountLive(db, vs)
    requires report.vaultsWithoutKey == |KeylessVaults(db, user)|
    ensures Counted(s, db, user, key, report)
  {
    LiveInIsKeyed(s, db, user, key, vs);
    ReadableInReads(s, db, user, key, vs);
    hide ReadableIn, LiveIn, CountReadable, CountLive, Reads, IsUnwrapped, VaultKeyOf;
    CountsAreSizes(s, db, vs);
    assert LiveIn(db, vs) == KeyedLive(db, user);
    assert ReadableIn(s, db, vs) == SecretsRead(s, db, user, key);
    assert KeylessVaults(db, user) == set v | v in db.vaults && db.Accessible(user, v) && db.EnvelopeFor(user, v).None?;
  }

  lemma LiveInIsKeyed(s: Suite, db: Database, user: UserId, key: Bytes, vs: seq<UnwrappedVault>)
    requires UnwrapsAll(s, db, user, key, vs)
    ensures forall x :: x in LiveIn(db, vs) <==> x in db.secrets && !db.secrets[x].deleted && db.Keyed(user, db.secrets[x].vault)
  {
    hide VaultKeyOf;
    forall x | x in db.secrets && !db.secrets[x].deleted && db.Keyed(user, db.secrets[x].vault) ensures x in LiveIn(db, vs) {
      var u := UnwrappedEntry(s, db, user, key, db.secrets[x].vault);
      assert u in vs;
      assert x in LiveSecrets(db, u.vaultId);
    }
    forall x | x in LiveIn(db, vs) ensures !db.secrets[x].deleted && db.Keyed(user, db.secrets[x].vault) {
      var u :| u in vs && x in LiveSecrets(db, u.vaultId);
      assert IsUnwrapped(s, db, user, key, u);
    }
  }

  lemma ReadableInReads(s: Suite, db: Database, user: UserId, key: Bytes, vs: seq<UnwrappedVault>)
    requires UnwrapsAll(s, db, user, key, vs) && user in db.users
    ensures forall x :: x in ReadableIn(s, db, vs) <==> x in db.secrets && Reads(s, db, user, key, x)
  {
    hide Decrypt, Deserialize;
    forall x | x in db.secrets && Reads(s, db, user, key, x) ensures x in ReadableIn(s, db, vs) {
      var u := UnwrappedEntry(s, db, user, key, db.secrets[x].vault);
      assert u in vs;
      assert x in ReadableSecrets(s, db, u.vaultId, u.vaultKey);
    }
    forall x | x in ReadableIn(s, db, vs) ensures Reads(s, db, user, key, x) {
      var u :| u in vs && x in ReadableSecrets(s, db, u.vaultId, u.vaultKey);
      assert IsUnwrapped(s, db, user, key, u);
    }
  }

  lemma OwnedVaultsCounted(s: Suite, db: Database, user: UserId, key: Bytes, vs: seq<UnwrappedVault>)
    requires UnwrapsAll(s, db, user, key, vs)
    ensures CountOwned(vs) == |set v | v in db.vaults && db.Keyed(user, v) && db.vaults[v].owner == user|
    ensures |vs| - CountOwned(vs) == |set v | v in db.vaults && db.Keyed(user, v) && db.vaults[v].owner != user|
  {
    hide VaultKeyOf;
    OwnedIsSize(vs);
    forall v: VaultId, owned: bool
      ensures v in VaultIds(vs, owned) <==> v in db.vaults && db.Keyed(user, v) && (db.vaults[v].owner == user) == owned
    {
      if v in db.vaults && db.Keyed(user, v) {
        assert UnwrappedEntry(s, db, user, key, v) in vs;
      }
      if v in VaultIds(vs, owned) {
        var u :| u in vs && u.owned == owned && u.vaultId == v;
        assert IsUnwrapped(s, db, user, key, u);
      }
    }
    assert VaultIds(vs, true) == set v | v in db.vaults && db.Keyed(user, v) && db.vaults[v].owner == user;
    assert VaultIds(vs, false) == set v | v in db.vaults && db.Keyed(user, v) && db.vaults[v].owner != user;
  }

  // ---- per-user material ---------------------------------------------------------------------------

  /** A readable value keeps its plaintext under the new key; an unreadable one is cleared. */
  ghost predicate RewrittenBlob(s: Suite, format: BlobFormat, before: Option<Bytes>, after: Option<Bytes>,
                                oldKey: Bytes, newKey: Bytes)
  {
    match before
    case None => after.None?
    case Some(b) =>
      if ReadBlob(s, format, b, oldKey).None? then after.None?
      else after.Some? && ReadBlob(s, format, after.value, newKey) == ReadBlob(s, format, b, oldKey)
  }

  method RewrapUserBlob(s: Suite, stored: Option<Bytes>, format: BlobFormat, oldKey: Bytes, newKey: Key)
    returns (change: UserEnvelopeChange)
    requires s.Ideal()
    ensures RewrittenBlob(s, format, stored, ApplyChange(stored, change), oldKey, newKey)
    ensures change.Clear? <==> stored.Some? && ReadBlob(s, format, stored.value, oldKey).None?
  {
    if stored.None? {
      return Keep;
    }
    match ReadBlob(s, format, stored.value, oldKey) {
      case None => change := Clear;
      case Some(plaintext) =>
        var blob := SealBlob(s, format, plaintext, newKey);
        change := Replace(blob.value);
    }
  }

  /** What the phrase column says under the old key, if that is text at all. */
  function PhraseFromLegacyEnvelope(s: Suite, row: UserRow, legacyKey: Bytes): Option<string> {
    match row.recoveryPhraseEnvelope
    case None => None
    case Some(stored) =>
      match ReadBlob(s, Versioned, stored, legacyKey)
      case None => None
      case Some(plaintext) => s.fromUtf8(plaintext)
  }

  function PhraseToSeal(s: Suite, row: UserRow, oldKey: Bytes, given: Option<string>): Option<string> {
    if given.Some? then given else PhraseFromLegacyEnvelope(s, row, oldKey)
  }

  ghost predicate SealedWith(s: Suite, envelope: Option<Bytes>, phrase: string, key: Bytes) {
    && envelope.Some?
    && forall typed: string | SameWords(s, typed, phrase) ::
         OpenWithRecoveryPhrase(s, typed, envelope.value) == Ok(key)
  }

  ghost predicate RecoveryRewritten(s: Suite, before: UserRow, after: UserRow, oldKey: Bytes, newKey: Bytes,
                                    recovery: RecoveryMaterial)
  {
    match recovery
    case LegacyPhraseEnvelope =>
      && after.recoveryKeyEnvelope == before.recoveryKeyEnvelope
      && RewrittenBlob(s, Versioned, before.recoveryPhraseEnvelope, after.recoveryPhraseEnvelope, oldKey, newKey)
    case SealedAccountKey(given) =>
      && after.recoveryPhraseEnvelope.None?
      && match PhraseToSeal(s, before, oldKey, given)
         case Some(phrase) => SealedWith(s, after.recoveryKeyEnvelope, phrase, newKey)
         case None => after.recoveryKeyEnvelope.None?
  }

  // ---- the re-key relation ---------------------------------------------------------------------------

  /** The new envelope holds, under the new key, what the old one held under the old key. */
  ghost predicate SameKeyInside(s: Suite, before: Bytes, after: Bytes, oldKey: Bytes, newKey: Bytes) {
    OpenBlob(s, before, oldKey).Some? && OpenBlob(s, after, newKey) == OpenBlob(s, before, oldKey)
  }

  ghost predicate VaultsRewrapped(s: Suite, before: Database, after: Database, user: UserId, oldKey: Bytes, newKey: Bytes) {
    && after.vaults.Keys == before.vaults.Keys
    && forall v :: v in before.vaults ==>
      if before.vaults[v].owner == user && before.Keyed(user, v) then
        && after.vaults[v].envelope.Some?
        && after.vaults[v] == before.vaults[v].(envelope := after.vaults[v].envelope)
        && SameKeyInside(s, before.vaults[v].envelope.value, after.vaults[v].envelope.value, oldKey, newKey)
      else after.vaults[v] == before.vaults[v]
  }

  /** A share of a live vault, received by `user` from its owner. */
  predicate Receives(db: Database, user: UserId, k: (VaultId, UserId)) {
    k in db.shares && k.1 == user && db.LiveVault(k.0) && db.vaults[k.0].owner != user
  }

  ghost predicate SharesRewrapped(s: Suite, before: Database, after: Database, user: UserId, oldKey: Bytes, newKey: Bytes) {
    && after.shares.Keys == before.shares.Keys
    && forall k :: k in before.shares ==>
      if Receives(before, user, k) then
        SameKeyInside(s, before.shares[k], after.shares[k], oldKey, newKey)
      else after.shares[k] == before.shares[k]
  }

  /** Everything a re-key from `oldKey` to `newKey` changes, and that nothing else changes. */
  ghost predicate Rekeyed(s: Suite, before: Database, after: Database, user: UserId, oldKey: Bytes, newKey: Bytes,
                          stored: Bytes, recovery: RecoveryMaterial)
  {
    && user in before.users && user in after.users
    && after == before.(users := before.users[user := after.users[user]], vaults := after.vaults, shares := after.shares)
    && after.users[user].username == before.users[user].username
    && after.users[user].passwordEnvelope == Some(stored)
    && RewrittenBlob(s, NonceCiphertext, before.users[user].totpSecret, after.users[user].totpSecret, oldKey, newKey)
    && RecoveryRewritten(s, before.users[user], after.users[user], oldKey, newKey, recovery)
    && VaultsRewrapped(s, before, after, user, oldKey, newKey)
    && SharesRewrapped(s, before, after, user, oldKey, newKey)
  }

  // ---- rewrap_account ----------------------------------------------------------------------------------

  function VaultIds(vs: seq<UnwrappedVault>, owned: bool): set<VaultId> {
    set u | u in vs && u.owned == owned :: u.vaultId
  }

  ghost predicate HoldsKey(s: Suite, written: Option<Bytes>, vaultKey: Bytes, newKey: Bytes) {
    written.Some? && OpenBlob(s, written.value, newKey) == Some(vaultKey)
  }

  /** The update lists write each unwrapped vault's key, under the new key, and nothing else. */
  ghost predicate UpdatesCover(s: Suite, user: UserId, newKey: Bytes, vs: seq<UnwrappedVault>,
                               owners: seq<VaultEnvelopeUpdate>, shares: seq<ShareEnvelopeUpdate>)
  {
    && (forall u :: u in vs && u.owned ==> HoldsKey(s, OwnerWrite(owners, u.vaultId), u.vaultKey, newKey))
    && (forall u :: u in vs && !u.owned ==> HoldsKey(s, ShareWrite(shares, (u.vaultId, user)), u.vaultKey, newKey))
    && (forall v :: OwnerWrite(owners, v).Some? ==> v in VaultIds(vs, true))
    && (forall k :: ShareWrite(shares, k).Some? ==> k.1 == user && k.0 in VaultIds(vs, false))
  }

  function CountOwned(vs: seq<UnwrappedVault>): nat {
    if vs == [] then 0 else CountOwned(vs[..|vs| - 1]) + if vs[|vs| - 1].owned then 1 else 0
  }

  lemma AppendedWrites(owners: seq<VaultEnvelopeUpdate>, shares: seq<ShareEnvelopeUpdate>,
                       o: VaultEnvelopeUpdate, h: ShareEnvelopeUpdate)
    ensures forall v ::
      OwnerWrite(owners + [o], v) == (if o.vaultId == v then Some(o.envelope) else OwnerWrite(owners, v))
    ensures forall k ::
      ShareWrite(shares + [h], k) == (if (h.vaultId, h.userId) == k then Some(h.envelope) else ShareWrite(shares, k))
  {
    assert (owners + [o])[..|owners|] == owners && (shares + [h])[..|shares|] == shares;
  }

  lemma CoverGrows(s: Suite, user: UserId, newKey: Bytes, vs: seq<UnwrappedVault>, u: UnwrappedVault, envelope: Bytes,
                   owners: seq<VaultEnvelopeUpdate>, shares: seq<ShareEnvelopeUpdate>)
    requires UpdatesCover(s, user, newKey, vs, owners, shares)
    requires forall w :: w in vs ==> w.vaultId != u.vaultId
    requires OpenBlob(s, envelope, newKey) == Some(u.vaultKey)
    ensures u.owned ==>
      UpdatesCover(s, user, newKey, vs + [u], owners + [VaultEnvelopeUpdate(u.vaultId, envelope)], shares)
    ensures !u.owned ==>
      UpdatesCover(s, user, newKey, vs + [u], owners, shares + [ShareEnvelopeUpdate(u.vaultId, user, envelope)])
  {
    AppendedWrites(owners, shares, VaultEnvelopeUpdate(u.vaultId, envelope),
                   ShareEnvelopeUpdate(u.vaultId, user, envelope));
    assert u in vs + [u];
    assert forall o :: VaultIds(vs + [u], o) == VaultIds(vs, o) + if u.owned == o then {u.vaultId} else {};
  }

  lemma NothingToCover(s: Suite, user: UserId, newKey: Bytes)
    ensures UpdatesCover(s, user, newKey, [], [], [])
  {
  }

  lemma NoneOwned()
    ensures CountOwned([]) == 0
  {
  }

  lemma OneMoreCovered(s: Suite, user: UserId, newKey: Bytes, vs: seq<UnwrappedVault>, n: nat, envelope: Bytes,
                       owners: seq<VaultEnvelopeUpdate>, shares: seq<ShareEnvelopeUpdate>)
    requires n < |vs| && DistinctVaults(vs) && UpdatesCover(s, user, newKey, vs[..n], owners, shares)
    requires OpenBlob(s, envelope, newKey) == Some(vs[n].vaultKey)
    ensures vs[n].owned ==>
      UpdatesCover(s, user, newKey, vs[..n + 1], owners + [VaultEnvelopeUpdate(vs[n].vaultId, envelope)], shares)
    ensures !vs[n].owned ==>
      UpdatesCover(s, user, newKey, vs[..n + 1], owners, shares + [ShareEnvelopeUpdate(vs[n].vaultId, user, envelope)])
    ensures CountOwned(vs[..n + 1]) == CountOwned(vs[..n]) + if vs[n].owned then 1 else 0
  {
    hide UpdatesCover, OpenBlob;
    assert vs[..n + 1] == vs[..n] + [vs[n]] && vs[..n + 1][..n] == vs[..n];
    CoverGrows(s, user, newKey, vs[..n], vs[n], envelope, owners, shares);
  }

  /** One owner update or one share update per unwrapped vault. */
  method WrapVaultKeys(s: Suite, user: UserId, newKey: Key, vs: seq<UnwrappedVault>)
    returns (owners: seq<VaultEnvelopeUpdate>, shares: seq<ShareEnvelopeUpdate>)
    requires s.Ideal()
    requires DistinctVaults(vs)
    ensures UpdatesCover(s, user, newKey, vs, owners, shares)
    ensures |owners| == CountOwned(vs) && |owners| + |shares| == |vs|
  {
    hide UpdatesCover, ReadBlob, DistinctVaults, CountOwned, Suite.Ideal;
    owners, shares := [], [];
    NothingToCover(s, user, newKey);
    assert vs[..0] == [] && CountOwned([]) == 0 by {
      NoneOwned();
    }
    for n := 0 to |vs|
      invariant UpdatesCover(s, user, newKey, vs[..n], owners, shares)
      invariant |owners| == CountOwned(vs[..n]) && |owners| + |shares| == n
    {
      var vault := vs[n];
      var envelope := SealBlob(s, NonceCiphertext, vault.vaultKey, newKey);
      OneMoreCovered(s, user, newKey, vs, n, envelope.value, owners, shares);
      if vault.owned {
        owners := owners + [VaultEnvelopeUpdate(vault.vaultId, envelope.value)];
      } else {
        shares := shares + [ShareEnvelopeUpdate(vault.vaultId, user, envelope.value)];
      }
    }
    assert vs[..|vs|] == vs;
  }

  /** What the rotation leaves in the vault table is the re-key relation. */
  lemma RotationRekeysVaults(s: Suite, before: Database, after: Database, user: UserId, oldKey: Bytes, newKey: Bytes,
                             vs: seq<UnwrappedVault>, owners: seq<VaultEnvelopeUpdate>, shares: seq<ShareEnvelopeUpdate>)
    requires UnwrapsAll(s, before, user, oldKey, vs)
    requires UpdatesCover(s, user, newKey, vs, owners, shares)
    requires OwnersWritten(before.vaults, after.vaults, owners)
    ensures VaultsRewrapped(s, before, after, user, oldKey, newKey)
  {
    forall v | v in before.vaults
      ensures before.vaults[v].owner == user && before.Keyed(user, v) ==>
        && OwnerWrite(owners, v).Some?
        && SameKeyInside(s, before.vaults[v].envelope.value, OwnerWrite(owners, v).value, oldKey, newKey)
      ensures OwnerWrite(owners, v).Some? ==> before.vaults[v].owner == user && before.Keyed(user, v)
    {
      if before.vaults[v].owner == user && before.Keyed(user, v) {
        var u := UnwrappedEntry(s, before, user, oldKey, v);
        assert u in vs && u.owned;
      }
      if OwnerWrite(owners, v).Some? {
        var u :| u in vs && u.owned && u.vaultId == v;
        assert IsUnwrapped(s, before, user, oldKey, u);
      }
    }
  }

  lemma RotationRekeysShares(s: Suite, before: Database, after: Database, user: UserId, oldKey: Bytes, newKey: Bytes,
                             vs: seq<UnwrappedVault>, owners: seq<VaultEnvelopeUpdate>, shares: seq<ShareEnvelopeUpdate>)
    requires UnwrapsAll(s, before, user, oldKey, vs)
    requires UpdatesCover(s, user, newKey, vs, owners, shares)
    requires SharesWritten(before.shares, after.shares, shares)
    ensures SharesRewrapped(s, before, after, user, oldKey, newKey)
  {
    forall k | k in before.shares
      ensures Receives(before, user, k) ==>
        && ShareWrite(shares, k).Some?
        && SameKeyInside(s, before.shares[k], ShareWrite(shares, k).value, oldKey, newKey)
      ensures ShareWrite(shares, k).Some? ==> Receives(before, user, k)
    {
      if Receives(before, user, k) {
        var u := UnwrappedEntry(s, before, user, oldKey, k.0);
        assert u in vs && !u.owned;
        assert k == (k.0, user);
      }
      if ShareWrite(shares, k).Some? {
        var u :| u in vs && !u.owned && u.vaultId == k.0;
        assert IsUnwrapped(s, before, user, oldKey, u);
      }
    }
  }

  method VerifyStoredEnvelope(db: Database, user: UserId, expected: Bytes) returns (r: Result<()>)
    ensures r.Ok? <==> user in db.users && db.users[user].passwordEnvelope == Some(expected)
    ensures r.Err? ==> r.error == Storage
  {
    if user !in db.users || db.users[user].passwordEnvelope.None? {
      return Err(Storage);
    }
    return if db.users[user].passwordEnvelope.value == expected then Ok(()) else Err(Storage);
  }

  /** Each vault of the list opens with the new key to the key it had. */
  ghost predicate ReopensAll(s: Suite, db: Database, user: UserId, newKey: Bytes, vs: seq<UnwrappedVault>) {
    forall u :: u in vs ==> Reopens(s, db, user, newKey, u)
  }

  predicate Reopens(s: Suite, db: Database, user: UserId, newKey: Bytes, vault: UnwrappedVault) {
    var envelope := LoadVaultEnvelope(db, vault.vaultId, vault.owned, user);
    envelope.Some? && OpenBlob(s, envelope.value, newKey) == Some(vault.vaultKey)
  }

  function LoadVaultEnvelope(db: Database, v: VaultId, owned: bool, user: UserId): Option<Bytes> {
    if owned then if v in db.vaults then db.vaults[v].envelope else None
    else if (v, user) in db.shares then Some(db.shares[(v, user)]) else None
  }

  method VerifyVaults(s: Suite, db: Database, user: UserId, newKey: Bytes, vs: seq<UnwrappedVault>) returns (r: Result<()>)
    ensures r.Ok? <==> ReopensAll(s, db, user, newKey, vs)
    ensures r.Ok? <==> forall u :: u in vs ==>
      if u.owned then
        && u.vaultId in db.vaults && db.vaults[u.vaultId].envelope.Some?
        && OpenBlob(s, db.vaults[u.vaultId].envelope.value, newKey) == Some(u.vaultKey)
      else
        (u.vaultId, user) in db.shares && OpenBlob(s, db.shares[(u.vaultId, user)], newKey) == Some(u.vaultKey)
  {
    hide OpenBlob;
    for i := 0 to |vs|
      invariant ReopensAll(s, db, user, newKey, vs[..i])
    {
      assert vs[..i + 1] == vs[..i] + [vs[i]];
      if !Reopens(s, db, user, newKey, vs[i]) {
        assert vs[i] in vs;
        var envelope := LoadVaultEnvelope(db, vs[i].vaultId, vs[i].owned, user);
        return Err(if envelope.None? || |envelope.value| < NONCE_LEN then Storage else CryptoFailure);
      }
    }
    assert vs[..|vs|] == vs;
    return Ok(());
  }

  /** The read-back after the commit cannot fail. */
  lemma ReadBackSucceeds(s: Suite, before: Database, after: Database, user: UserId, oldKey: Bytes, newKey: Bytes,
                         vs: seq<UnwrappedVault>)
    requires UnwrapsAll(s, before, user, oldKey, vs)
    requires VaultsRewrapped(s, before, after, user, oldKey, newKey)
    requires SharesRewrapped(s, before, after, user, oldKey, newKey)
    ensures ReopensAll(s, after, user, newKey, vs)
  {
    forall u | u in vs
      ensures Reopens(s, after, user, newKey, u)
    {
      assert IsUnwrapped(s, before, user, oldKey, u);
      if !u.owned {
        assert Receives(before, user, (u.vaultId, user));
      }
    }
  }

  /** The re-encrypted user columns, and whether the recovery phrase still opens the account. */
  method RewrapUserMaterial(s: Suite, row: UserRow, oldKey: Bytes, newKey: Key, recovery: RecoveryMaterial)
    returns (material: UserKeyMaterial, available: bool)
    requires s.Ideal()
    ensures RewrittenBlob(s, NonceCiphertext, row.totpSecret, ApplyChange(row.totpSecret, material.totp), oldKey, newKey)
    ensures material.totp.Clear? <==> row.totpSecret.Some? && ApplyChange(row.totpSecret, material.totp).None?
    ensures forall stored: Bytes ::
      RecoveryRewritten(s, row, RotatedUser(row, stored, material), oldKey, newKey, recovery)
    ensures recovery.SealedAccountKey? ==>
      (available <==> ApplyChange(row.recoveryKeyEnvelope, material.recoveryKey).Some?)
    ensures recovery.LegacyPhraseEnvelope? ==> available
  {
    var totp := RewrapUserBlob(s, row.totpSecret, NonceCiphertext, oldKey, newKey);
    var phraseChange, sealed := Keep, Keep;
    available := true;
    match recovery {
      case LegacyPhraseEnvelope =>
        phraseChange := RewrapUserBlob(s, row.recoveryPhraseEnvelope, Versioned, oldKey, newKey);
      case SealedAccountKey(given) =>
        phraseChange := Clear;
        match PhraseToSeal(s, row, oldKey, given) {
          case Some(phrase) =>
            var blob := SealWithRecoveryPhrase(s, phrase, newKey);
            sealed := Replace(blob);
          case None =>
            sealed, available := Clear, false;
        }
    }
    material := UserKeyMaterial(phraseChange, totp, sealed);
  }

  /** Two causes of failure: a vault that stops the read pass, or no row for the account. */
  ghost predicate FailureExplained(s: Suite, db: Database, user: UserId, key: Bytes, error: AppError) {
    if OpensEveryVault(s, db, user, key) then user !in db.users && (error == NotFound || error == Storage)
    else exists v :: StopsAt(s, db, user, key, v, error)
  }

  /** Rewraps everything `oldKey` protects. It succeeds exactly when the user exists and every
      accessible vault opens with `oldKey`; on any failure the database is unchanged, and the
      verification after the commit never turns a success into a failure. */
  method RewrapAccount(s: Suite, pool: Pool, user: UserId, oldKey: Bytes, newKey: Key,
                       envelope: PasswordEnvelope, recovery: RecoveryMaterial)
    returns (r: Result<RekeyOutcome>)
    requires s.Ideal()
    modifies pool
    ensures r.Ok? <==> user in old(pool.db.users) && OpensEveryVault(s, old(pool.db), user, oldKey)
    ensures r.Err? ==> pool.db == old(pool.db) && FailureExplained(s, pool.db, user, oldKey, r.error)
    ensures r.Ok? ==>
      && Rekeyed(s, old(pool.db), pool.db, user, oldKey, newKey, Encode(envelope), recovery)
      && r.value.sessionKey == newKey && r.value.passwordEnvelope == Encode(envelope)
      && ReportIsRight(s, old(pool.db), pool.db, user, oldKey, recovery, r.value.report)
  {
    var db := pool.db;
    var unwrapped :- UnwrapAccessibleVaults(s, db, user, oldKey);
    var vs := unwrapped.0;
    var readable, unreadable := CheckSecrets(s, db, vs);
    var owners, shares := WrapVaultKeys(s, user, newKey, vs);

    // The columns of an absent row read as NULL; the rotation then refuses it.
    var row := if user in db.users then db.users[user] else UserRow("", None, None, None, None);
    var material, available := RewrapUserMaterial(s, row, oldKey, newKey, recovery);
    var report := RekeyReport(|owners|, |shares|, unwrapped.1, readable, unreadable, material.totp.Clear?, available);

    var bytes := Encode(envelope);
    RowsToRewrite(s, db, user, oldKey, newKey, vs, owners, shares);
    var _ :- ApplyMasterKeyRotationAtomically(pool, user, bytes, owners, shares, material);
    RotationRekeysVaults(s, db, pool.db, user, oldKey, newKey, vs, owners, shares);
    RotationRekeysShares(s, db, pool.db, user, oldKey, newKey, vs, owners, shares);
    ReadBackSucceeds(s, db, pool.db, user, oldKey, newKey, vs);
    UnwrappedCounts(s, db, user, oldKey, vs, report);
    OwnedVaultsCounted(s, db, user, oldKey, vs);

    var checked := VerifyStoredEnvelope(pool.db, user, bytes);
    if checked.Ok? {
      checked := VerifyVaults(s, pool.db, user, newKey, vs);
    }
    r := match checked
         case Ok(_) => Ok(RekeyOutcome(report, bytes, newKey))
         case Err(error) => Err(error);
  }

  lemma RowsToRewrite(s: Suite, db: Database, user: UserId, oldKey: Bytes, newKey: Bytes, vs: seq<UnwrappedVault>,
                      owners: seq<VaultEnvelopeUpdate>, shares: seq<ShareEnvelopeUpdate>)
    requires UnwrapsAll(s, db, user, oldKey, vs)
    requires UpdatesCover(s, user, newKey, vs, owners, shares)
    ensures user in db.users ==> RowsExist(db, user, owners, shares)
  {
    forall j | 0 <= j < |owners| ensures owners[j].vaultId in db.vaults {
      OwnerWriteNamed(owners, j);
      var u :| u in vs && u.owned && u.vaultId == owners[j].vaultId;
      assert IsUnwrapped(s, db, user, oldKey, u);
    }
    forall j | 0 <= j < |shares| ensures (shares[j].vaultId, shares[j].userId) in db.shares {
      ShareWriteNamed(shares, j);
      var u :| u in vs && !u.owned && u.vaultId == shares[j].vaultId;
      assert IsUnwrapped(s, db, user, oldKey, u);
    }
  }

  lemma {:induction false} OwnerWriteNamed(updates: seq<VaultEnvelopeUpdate>, j: nat)
    requires j < |updates|
    ensures OwnerWrite(updates, updates[j].vaultId).Some?
  {
    if j < |updates| - 1 {
      OwnerWriteNamed(updates[..|updates| - 1], j);
    }
  }

  lemma {:induction false} ShareWriteNamed(updates: seq<ShareEnvelopeUpdate>, j: nat)
    requires j < |updates|
    ensures ShareWrite(updates, (updates[j].vaultId, updates[j].userId)).Some?
  {
    if j < |updates| - 1 {
      ShareWriteNamed(updates[..|updates| - 1], j);
    }
  }

  /** What the report of a rewrap says of the database before and after it. */
  ghost predicate ReportIsRight(s: Suite, before: Database, after: Database, user: UserId, oldKey: Bytes,
                                recovery: RecoveryMaterial, report: RekeyReport)
    requires user in before.users && user in after.users
  {
    && Counted(s, before, user, oldKey, report)
    && report.ownerVaultsRewrapped == |set v | v in before.vaults && before.Keyed(user, v) && before.vaults[v].owner == user|
    && report.sharedVaultsRewrapped == |set v | v in before.vaults && before.Keyed(user, v) && before.vaults[v].owner != user|
    && (report.totpDisabled <==> before.users[user].totpSecret.Some? && after.users[user].totpSecret.None?)
    && (report.recoveryKeyAvailable <==> recovery.LegacyPhraseEnvelope? || after.users[user].recoveryKeyEnvelope.Some?)
  }

  /** A replaced password rewraps nothing; its report still counts what was read on the way. */
  ghost predicate ReplacementReported(s: Suite, before: Database, after: Database, user: UserId, key: Bytes, report: RekeyReport)
    requires user in after.users
  {
    && Counted(s, before, user, key, report)
    && report.ownerVaultsRewrapped == 0 && report.sharedVaultsRewrapped == 0 && !report.totpDisabled
    && (report.recoveryKeyAvailable <==> after.users[user].recoveryKeyEnvelope.Some?)
  }

  // ---- the public operations ---------------------------------------------------------------------------

  /** From the key a password derives to a key drawn at random. */
  method MigrateToAccountKey(s: Suite, pool: Pool, user: UserId, legacyMasterKey: Bytes, password: string,
                             phrase: Option<string>)
    returns (r: Result<RekeyOutcome>)
    requires s.Ideal()
    modifies pool
    ensures r.Ok? <==> user in old(pool.db.users) && OpensEveryVault(s, old(pool.db), user, legacyMasterKey)
    ensures r.Err? ==> pool.db == old(pool.db) && FailureExplained(s, pool.db, user, legacyMasterKey, r.error)
    ensures r.Ok? ==>
      && Rekeyed(s, old(pool.db), pool.db, user, legacyMasterKey, r.value.sessionKey, r.value.passwordEnvelope,
                 SealedAccountKey(phrase))
      && IsAccountKey(r.value.passwordEnvelope)
      && Opens(s, r.value.passwordEnvelope, password, r.value.sessionKey)
      && |r.value.sessionKey| == KEY_LEN
      && ReportIsRight(s, old(pool.db), pool.db, user, legacyMasterKey, SealedAccountKey(phrase), r.value.report)
  {
    var accountKey := GenerateKey();
    var envelope := WrapAccountKey(s, password, accountKey);
    DecodeUndoesEncode(envelope);
    r := RewrapAccount(s, pool, user, legacyMasterKey, accountKey, envelope, SealedAccountKey(phrase));
  }

  /** One derived key gives way to another; the format stays. */
  method RekeyLegacyAccount(s: Suite, pool: Pool, user: UserId, legacyMasterKey: Bytes, newPassword: string)
    returns (r: Result<RekeyOutcome>)
    requires s.Ideal()
    modifies pool
    ensures r.Ok? <==> user in old(pool.db.users) && OpensEveryVault(s, old(pool.db), user, legacyMasterKey)
    ensures r.Err? ==> pool.db == old(pool.db) && FailureExplained(s, pool.db, user, legacyMasterKey, r.error)
    ensures r.Ok? ==>
      && Rekeyed(s, old(pool.db), pool.db, user, legacyMasterKey, r.value.sessionKey, r.value.passwordEnvelope,
                 LegacyPhraseEnvelope)
      && !IsAccountKey(r.value.passwordEnvelope)
      && Opens(s, r.value.passwordEnvelope, newPassword, r.value.sessionKey)
      && |r.value.sessionKey| == KEY_LEN
      && ReportIsRight(s, old(pool.db), pool.db, user, legacyMasterKey, LegacyPhraseEnvelope, r.value.report)
  {
    var envelope := DeriveLegacy(s, newPassword);
    DecodeUndoesEncode(envelope);
    r := RewrapAccount(s, pool, user, legacyMasterKey, envelope.masterKey, envelope, LegacyPhraseEnvelope);
  }

  /** Only the password envelope of one row changes. */
  ghost predicate PasswordReplaced(before: Database, after: Database, user: UserId, stored: Bytes) {
    && user in before.users
    && after == before.(users := before.users[user := before.users[user].(passwordEnvelope := Some(stored))])
  }

  /** The same key behind another password, once it has been seen to open everything. */
  method ReplacePassword(s: Suite, pool: Pool, user: UserId, accountKey: Bytes, newPassword: string)
    returns (r: Result<RekeyOutcome>)
    requires s.Ideal()
    modifies pool
    ensures r.Ok? <==> user in old(pool.db.users) && OpensEveryVault(s, old(pool.db), user, accountKey)
    ensures r.Err? ==> pool.db == old(pool.db) && FailureExplained(s, pool.db, user, accountKey, r.error)
    ensures r.Ok? ==>
      && PasswordReplaced(old(pool.db), pool.db, user, r.value.passwordEnvelope)
      && r.value.sessionKey == accountKey
      && (IsAccountKey(r.value.passwordEnvelope) <==> Wrappable(s, accountKey))
      && (Opens(s, r.value.passwordEnvelope, newPassword, accountKey) <==> Wrappable(s, accountKey))
      && ReplacementReported(s, old(pool.db), pool.db, user, accountKey, r.value.report)
  {
    hide Suite.Ideal, OpensEveryVault, UnwrapsAll, Counted, CountReadable, CountLive, KeylessVaults, StopsAt;
    hide Wrappable, IsAccountKey, Opens, Encode;
    var db := pool.db;
    var unwrapped :- UnwrapAccessibleVaults(s, db, user, accountKey);
    var readable, unreadable := CheckSecrets(s, db, unwrapped.0);
    var envelope := WrapAccountKey(s, newPassword, accountKey);
    var bytes := Encode(envelope);
    if user !in db.users {
      return Err(Storage);
    }
    var row := db.users[user].(passwordEnvelope := Some(bytes));
    pool.db := db.(users := db.users[user := row]);
    var report := RekeyReport(0, 0, unwrapped.1, readable, unreadable, false, row.recoveryKeyEnvelope.Some?);
    UnwrappedCounts(s, db, user, accountKey, unwrapped.0, report);
    var checked := VerifyStoredEnvelope(pool.db, user, bytes);
    r := match checked
         case Ok(_) => Ok(RekeyOutcome(report, bytes, accountKey))
         case Err(error) => Err(error);
  }
}
