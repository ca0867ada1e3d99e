/** Secrets as the service stores, reads, rewrites and moves them. */
module SecretServices {
  import opened Wrappers
  import opened Crypto
  import opened Tables
  import opened SecretRepository
  import opened Access
  import opened HierarchyRuns

  function BlobStorageFor(kind: SecretType): BlobStorage {
    if kind.SecureDocument? then File else Inline
  }

  class SecretService {
    const suite: Suite
    const pool: Pool
    const secrets: SqlxSecretRepository

    constructor (suite: Suite, pool: Pool, secrets: SqlxSecretRepository)
      ensures this.suite == suite && this.pool == pool && this.secrets == secrets
    {
      this.suite, this.pool, this.secrets := suite, pool, secrets;
    }

    /** The stored value reads back with the vault key. */
    method CreateSecret(v: VaultId, kind: SecretType, title: string, plaintext: Bytes, vaultKey: Bytes)
      returns (r: Result<SecretId>)
      requires secrets.pool == pool && suite.Ideal()
      modifies pool
      ensures r.Err? ==> pool.db == old(pool.db)
      ensures plaintext == [] ==> r == Err(Validation)
      ensures r.Ok? <==> plaintext != [] && |vaultKey| == KEY_LEN && v in old(pool.db.vaults)
      ensures r.Ok? ==>
        && SecretAdded(suite, old(pool.db), pool.db, r.value, v, vaultKey, plaintext)
        && GetSecret(suite, pool.db, r.value, vaultKey) == Ok(plaintext)
        && r.value in pool.db.secrets
        && var row := pool.db.secrets[r.value];
           && row.vault == v && row.kind == kind && row.title == title && !row.deleted
           && (if kind == SecureDocument then row.fileBlob.Some? && row.inlineBlob.None?
               else row.inlineBlob.Some? && row.fileBlob.None?)
    {
      if plaintext == [] {
        return Err(Validation);
      }
      var blob :- SealBlob(suite, NonceCiphertext, plaintext, vaultKey);
      var x := GenerateId(pool.db.secrets.Keys);
      var inserted := secrets.InsertSecretBlob(x, v, kind, title, BlobStorageFor(kind), blob);
      if inserted.Err? {
        return Err(inserted.error);
      }
      assert Runs(old(pool.db), pool.db, Insert(x, v, kind, title, BlobStorageFor(kind), blob));
      r := Ok(x);
    }

    /** The metadata is written first; an empty new value is refused only after that. */
    method UpdateSecret(x: SecretId, title: string, plaintext: Option<Bytes>, vaultKey: Bytes) returns (r: Result<()>)
      requires secrets.pool == pool && suite.Ideal()
      modifies pool
      ensures r.Ok? <==> (LiveSecret(old(pool.db), x)
        && (plaintext.Some? ==> plaintext.value != [] && |vaultKey| == KEY_LEN))
      ensures !LiveSecret(old(pool.db), x) ==> r == Err(Storage) && pool.db == old(pool.db)
      ensures LiveSecret(old(pool.db), x) && plaintext == Some([]) ==> r == Err(Validation)
      ensures LiveSecret(old(pool.db), x) ==>
        var renamed := Renamed(old(pool.db), x, title).value;
        if r.Ok? && plaintext.Some? then
          && SecretRewritten(suite, renamed, pool.db, x, vaultKey, plaintext.value)
          && GetSecret(suite, pool.db, x, vaultKey) == plaintext.ToResult()
        else pool.db == renamed
      ensures LiveSecret(old(pool.db), x) ==>
        && OnlySecret(old(pool.db), pool.db, x) && x in pool.db.secrets
        && var before, row := old(pool.db.secrets)[x], pool.db.secrets[x];
           && row.title == title
           && row == before.(title := row.title, inlineBlob := row.inlineBlob, fileBlob := row.fileBlob)
           && (plaintext.None? ==> row.inlineBlob == before.inlineBlob && row.fileBlob == before.fileBlob)
    {
      var _ :- secrets.UpdateSecretMetadata(x, title);
      ghost var renamed := pool.db;
      if plaintext.Some? {
        if plaintext.value == [] {
          return Err(Validation);
        }
        var blob :- SealBlob(suite, NonceCiphertext, plaintext.value, vaultKey);
        r := secrets.UpdateSecretBlob(x, blob);
        assert Runs(renamed, pool.db, Rewrite(x, blob));
      } else {
        r := Ok(());
      }
    }

    /** Moving re-encrypts: the value the source key read is the value the target key reads. */
    method MoveSecret(x: SecretId, target: VaultId, sourceKey: Bytes, targetKey: Bytes) returns (r: Result<()>)
      requires secrets.pool == pool && suite.Ideal()
      modifies pool
      ensures r.Err? ==> pool.db == old(pool.db)
      ensures r.Ok? <==>
        && LiveSecret(old(pool.db), x)
        && (old(pool.db.secrets[x].vault) == target
            || (GetSecret(suite, old(pool.db), x, sourceKey).Ok? && |targetKey| == KEY_LEN && target in old(pool.db.vaults)))
      ensures !LiveSecret(old(pool.db), x) ==> r == Err(NotFound)
      ensures r.Ok? && old(pool.db.secrets[x].vault) == target ==> pool.db == old(pool.db)
      ensures r.Ok? && old(pool.db.secrets[x].vault) != target ==>
        && SecretMoved(suite, old(pool.db), pool.db, x, target, sourceKey, targetKey)
        && GetSecret(suite, pool.db, x, targetKey) == GetSecret(suite, old(pool.db), x, sourceKey)
        && GetSecret(suite, pool.db, x, targetKey).Ok?
        && OnlySecret(old(pool.db), pool.db, x) && x in pool.db.secrets
        && var before, row := old(pool.db.secrets)[x], pool.db.secrets[x];
           && row.vault == target
           && row == before.(vault := row.vault, inlineBlob := row.inlineBlob, fileBlob := row.fileBlob)
    {
      if !LiveSecret(pool.db, x) {
        return Err(NotFound);
      }
      if pool.db.secrets[x].vault == target {
        return Ok(());
      }
      var plaintext :- GetSecret(suite, pool.db, x, sourceKey);
      var blob :- SealBlob(suite, NonceCiphertext, plaintext, targetKey);
      r := secrets.MoveSecretToVault(x, target, blob);
      assert r.Ok? ==> Runs(old(pool.db), pool.db, Move(x, target, blob));
    }
  }
}
