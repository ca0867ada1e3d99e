/** Vault creation, sharing and removal. */
module VaultServices {
  import opened Wrappers
  import opened Text
  import opened Crypto
  import opened Tables
  import opened RekeyService
  import opened SecretRepository
  import opened Access
  import opened KeyHierarchy
  import opened HierarchyRuns

  class VaultService {
    const suite: Suite
    const pool: Pool
    const secrets: SqlxSecretRepository

    constructor (suite: Suite, pool: Pool, secrets: SqlxSecretRepository)
      ensures this.suite == suite && this.pool == pool && this.secrets == secrets
    {
      this.suite, this.pool, this.secrets := suite, pool, secrets;
    }

    /** Row and envelope are inserted together, so no vault is ever without its key. */
    method CreateVault(owner: UserId, name: string, masterKey: Bytes) returns (r: Result<VaultId>)
      requires suite.Ideal()
      modifies pool
      ensures r.Ok? <==> !IsBlank(name) && owner in old(pool.db.users) && |masterKey| == KEY_LEN
      ensures r.Err? ==> pool.db == old(pool.db)
      ensures r.Ok? ==> VaultCreated(suite, old(pool.db), pool.db, r.value, owner, masterKey)
      ensures r.Ok? ==> pool.db.vaults[r.value].name == name
      ensures r.Err? ==>
        r.error == (if IsBlank(name) then Validation else if owner !in old(pool.db.users) then NotFound else CryptoFailure)
    {
      if IsBlank(name) {
        return Err(Validation);
      }
      if owner !in pool.db.users {
        return Err(NotFound);
      }
      var vaultKey := GenerateKey();
      var envelope :- SealBlob(suite, NonceCiphertext, vaultKey, masterKey);
      var v := GenerateId(pool.db.vaults.Keys);
      pool.db := pool.db.(vaults := pool.db.vaults[v := VaultRow(owner, name, Some(envelope), false)]);
      r := Ok(v);
    }

    /** `insert_key_share` with the vault key under the recipient's key. */
    method GrantVaultAccess(v: VaultId, recipient: UserId, vaultKey: Bytes, recipientKey: Bytes) returns (r: Result<()>)
      requires suite.Ideal()
      modifies pool
      ensures r.Err? ==> pool.db == old(pool.db)
      ensures r.Ok? <==>
        && v in old(pool.db.vaults) && recipient in old(pool.db.users)
        && old(pool.db.vaults)[v].owner != recipient && |recipientKey| == KEY_LEN
      ensures r.Ok? ==> VaultShared(suite, old(pool.db), pool.db, v, recipient, vaultKey, recipientKey)
    {
      if v !in pool.db.vaults || recipient !in pool.db.users || pool.db.vaults[v].owner == recipient {
        return Err(Storage);
      }
      var envelope :- SealBlob(suite, NonceCiphertext, vaultKey, recipientKey);
      pool.db := pool.db.(shares := pool.db.shares[(v, recipient) := envelope]);
      r := Ok(());
    }

    /** Only a vault the requester can reach goes to the trash, with all its live secrets. */
    method DeleteVault(requester: UserId, v: VaultId) returns (r: Result<()>)
      requires secrets.pool == pool
      modifies pool
      ensures r.Ok? <==> requester in old(pool.db.users) && old(pool.db).Accessible(requester, v)
      ensures r.Err? ==> r.error == if requester !in old(pool.db.users) then NotFound else VaultAccessDenied
      ensures r.Ok? ==> Runs(old(pool.db), pool.db, TrashStep.DeleteVault(v))
      ensures r.Err? ==> pool.db == old(pool.db)
    {
      if requester !in pool.db.users {
        return Err(NotFound);
      }
      if !pool.db.Accessible(requester, v) {
        return Err(VaultAccessDenied);
      }
      r := secrets.DeleteVault(v);
    }
  }
}
