/** Read chains: opening a vault with the session key, and a secret with the vault key. */
module Access {
  import opened Wrappers
  import opened Crypto
  import opened Tables
  import opened SecretRepository

  /** `open_vault_for_user`: the owner's envelope, or the share of another user. */
  function OpenVaultForUser(s: Suite, db: Database, requester: UserId, v: VaultId, key: Bytes): Result<Bytes> {
    if requester !in db.users then Err(NotFound)
    else if !db.Accessible(requester, v) then Err(VaultAccessDenied)
    else
      match db.EnvelopeFor(requester, v)
      case None => Err(Storage)
      case Some(envelope) =>
        match Deserialize(envelope)
        case Err(error) => Err(error)
        case Ok(payload) =>
          match Decrypt(s, payload, key)
          case Some(vaultKey) => Ok(vaultKey)
          case None => Err(CryptoFailure)
  }

  /** `get_secret`: only live secrets are read. */
  function GetSecret(s: Suite, db: Database, x: SecretId, vaultKey: Bytes): Result<Bytes> {
    if !LiveSecret(db, x) then Err(NotFound)
    else
      match Deserialize(db.secrets[x].Blob())
      case Err(error) => Err(error)
      case Ok(payload) =>
        match Decrypt(s, payload, vaultKey)
        case Some(value) => Ok(value)
        case None => Err(CryptoFailure)
  }
}
