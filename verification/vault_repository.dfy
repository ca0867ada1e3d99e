/** The rotation transaction: one user row, a list of owner envelopes and a list of share envelopes
    are rewritten together or not at all. */
module VaultRepository {
  import opened Wrappers
  import opened Crypto
  import opened Tables

  datatype VaultEnvelopeUpdate = VaultEnvelopeUpdate(vaultId: VaultId, envelope: Bytes)

  datatype ShareEnvelopeUpdate = ShareEnvelopeUpdate(vaultId: VaultId, userId: UserId, envelope: Bytes)

  datatype UserEnvelopeChange = Keep | Replace(envelope: Bytes) | Clear

  datatype UserKeyMaterial = UserKeyMaterial(
    recoveryPhrase: UserEnvelopeChange,
    totp: UserEnvelopeChange,
    recoveryKey: UserEnvelopeChange)

  function ApplyChange(column: Option<Bytes>, change: UserEnvelopeChange): Option<Bytes> {
    match change
    case Keep => column
    case Replace(envelope) => Some(envelope)
    case Clear => None
  }

  /** The envelope a list of updates leaves in a vault row: the last one that names it. */
  function OwnerWrite(updates: seq<VaultEnvelopeUpdate>, v: VaultId): Option<Bytes> {
    if updates == [] then None
    else
      var last := updates[|updates| - 1];
      if last.vaultId == v then Some(last.envelope) else OwnerWrite(updates[..|updates| - 1], v)
  }

  function ShareWrite(updates: seq<ShareEnvelopeUpdate>, k: (VaultId, UserId)): Option<Bytes> {
    if updates == [] then None
    else
      var last := updates[|updates| - 1];
      if (last.vaultId, last.userId) == k then Some(last.envelope) else ShareWrite(updates[..|updates| - 1], k)
  }

  /** Every row the rotation names exists. */
  predicate RowsExist(db: Database, user: UserId, owners: seq<VaultEnvelopeUpdate>, shares: seq<ShareEnvelopeUpdate>) {
    && user in db.users
    && (forall i :: 0 <= i < |owners| ==> owners[i].vaultId in db.vaults)
    && (forall i :: 0 <= i < |shares| ==> (shares[i].vaultId, shares[i].userId) in db.shares)
  }

  ghost predicate OwnersWritten(before: map<VaultId, VaultRow>, after: map<VaultId, VaultRow>,
                                updates: seq<VaultEnvelopeUpdate>)
  {
    && after.Keys == before.Keys
    && forall v :: v in before ==>
      after[v] == match OwnerWrite(updates, v) case Some(e) => before[v].(envelope := Some(e)) case None => before[v]
  }

  ghost predicate SharesWritten(before: map<(VaultId, UserId), Bytes>, after: map<(VaultId, UserId), Bytes>,
                                updates: seq<ShareEnvelopeUpdate>)
  {
    && after.Keys == before.Keys
    && forall k :: k in before ==> after[k] == ShareWrite(updates, k).GetOr(before[k])
  }

  function RotatedUser(row: UserRow, envelope: Bytes, material: UserKeyMaterial): UserRow {
    row.(passwordEnvelope := Some(envelope),
         recoveryPhraseEnvelope := ApplyChange(row.recoveryPhraseEnvelope, material.recoveryPhrase),
         totpSecret := ApplyChange(row.totpSecret, material.totp),
         recoveryKeyEnvelope := ApplyChange(row.recoveryKeyEnvelope, material.recoveryKey))
  }

  /** The owner loop of the transaction, on its working copy. */
  method WriteOwners(vaults: map<VaultId, VaultRow>, updates: seq<VaultEnvelopeUpdate>)
    returns (r: Result<map<VaultId, VaultRow>>)
    ensures r.Ok? <==> forall i :: 0 <= i < |updates| ==> updates[i].vaultId in vaults
    ensures r.Ok? ==> OwnersWritten(vaults, r.value, updates)
    ensures r.Err? ==> r.error == Storage
  {
    var tx: map<VaultId, VaultRow> := vaults;
    for i := 0 to |updates|
      invariant forall j :: 0 <= j < i ==> updates[j].vaultId in vaults
      invariant OwnersWritten(vaults, tx, updates[..i])
    {
      var update := updates[i];
      if update.vaultId !in tx {
        return Err(Storage);
      }
      tx := tx[update.vaultId := tx[update.vaultId].(envelope := Some(update.envelope))];
      assert updates[..i + 1][..i] == updates[..i];
    }
    assert updates[..|updates|] == updates;
    r := Ok(tx);
  }

  /** The share loop of the transaction, on its working copy. */
  method WriteShares(shares: map<(VaultId, UserId), Bytes>, updates: seq<ShareEnvelopeUpdate>)
    returns (r: Result<map<(VaultId, UserId), Bytes>>)
    ensures r.Ok? <==> forall i :: 0 <= i < |updates| ==> (updates[i].vaultId, updates[i].userId) in shares
    ensures r.Ok? ==> SharesWritten(shares, r.value, updates)
    ensures r.Err? ==> r.error == Storage
  {
    var tx: map<(VaultId, UserId), Bytes> := shares;
    for i := 0 to |updates|
      invariant forall j :: 0 <= j < i ==> (updates[j].vaultId, updates[j].userId) in shares
      invariant SharesWritten(shares, tx, updates[..i])
    {
      var update := updates[i];
      if (update.vaultId, update.userId) !in tx {
        return Err(Storage);
      }
      tx := tx[(update.vaultId, update.userId) := update.envelope];
      assert updates[..i + 1][..i] == updates[..i];
    }
    assert updates[..|updates|] == updates;
    r := Ok(tx);
  }

  /** All rows are rewritten, or (when one is missing) the database is untouched. */
  method ApplyMasterKeyRotationAtomically(pool: Pool, user: UserId, envelope: Bytes,
                                          owners: seq<VaultEnvelopeUpdate>, shares: seq<ShareEnvelopeUpdate>,
                                          material: UserKeyMaterial)
    returns (r: Result<()>)
    modifies pool
    ensures r.Ok? <==> RowsExist(old(pool.db), user, owners, shares)
    ensures r.Err? ==> pool.db == old(pool.db)
    ensures r.Err? ==> r.error == if user in old(pool.db.users) then Storage else NotFound
    ensures r.Ok? ==>
      && pool.db == old(pool.db).(users := pool.db.users, vaults := pool.db.vaults, shares := pool.db.shares)
      && pool.db.users == old(pool.db.users)[user := RotatedUser(old(pool.db.users)[user], envelope, material)]
      && OwnersWritten(old(pool.db.vaults), pool.db.vaults, owners)
      && SharesWritten(old(pool.db.shares), pool.db.shares, shares)
  {
    var tx := pool.db;
    if user !in tx.users {
      return Err(NotFound);
    }
    var row := tx.users[user].(passwordEnvelope := Some(envelope));
    row := row.(recoveryPhraseEnvelope := ApplyChange(row.recoveryPhraseEnvelope, material.recoveryPhrase));
    row := row.(totpSecret := ApplyChange(row.totpSecret, material.totp));
    row := row.(recoveryKeyEnvelope := ApplyChange(row.recoveryKeyEnvelope, material.recoveryKey));
    tx := tx.(users := tx.users[user := row]);
    var vaults :- WriteOwners(tx.vaults, owners);
    tx := tx.(vaults := vaults);
    var written :- WriteShares(tx.shares, shares);
    tx := tx.(shares := written);
    pool.db := tx;
    r := Ok(());
  }

  /** `delete_key_share`; a share that is not there is no error. */
  method DeleteKeyShare(pool: Pool, v: VaultId, user: UserId)
    modifies pool
    ensures pool.db == old(pool.db).(shares := old(pool.db.shares) - {(v, user)})
  {
    pool.db := pool.db.(shares := pool.db.shares - {(v, user)});
  }

  /** The rows of `accessible_vaults` for one user, each vault once, in any order. */
  method ListAccessible(db: Database, user: UserId) returns (rows: seq<VaultId>)
    ensures forall i, j :: 0 <= i < j < |rows| ==> rows[i] != rows[j]
    ensures forall v :: v in rows <==> db.Accessible(user, v)
  {
    rows := [];
    var left := set v | v in db.vaults && db.Accessible(user, v);
    while left != {}
      invariant forall v :: v in left ==> db.Accessible(user, v)
      invariant forall v :: db.Accessible(user, v) <==> v in left || v in rows
      invariant forall v :: v in rows ==> v !in left
      invariant forall i, j :: 0 <= i < j < |rows| ==> rows[i] != rows[j]
      decreases |left|
    {
      var v :| v in left;
      rows := rows + [v];
      left := left - {v};
    }
  }
}
