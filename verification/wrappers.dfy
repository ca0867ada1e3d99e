/** Results, optional values and the error cases of `AppError` that the modelled operations return. */
module Wrappers {

  datatype Option<+T> = None | Some(value: T) {
    function GetOr(default: T): T {
      match this
      case Some(v) => v
      case None => default
    }

    function ToResult(error: AppError := NotFound): Result<T> {
      match this
      case Some(v) => Ok(v)
      case None => Err(error)
    }
  }

  datatype AppError =
    | Validation
    | NotFound
    | Storage
    | CryptoFailure
    | Io
    | Cancelled
    | Conflict
    | InvalidCredentials
    | VaultAccessDenied
    | InvalidTotpCode
    | SingleAccountVault
    | ShutdownInProgress
    | NoAccount
    | MultipleAccounts
    | RecoveryKeyMissing
    | InconsistentKeyMaterial
    | InvalidPhrase
    | NotABackup
    | UnsupportedBackupVersion
    | WrongPhraseOrAlteredFile

  datatype Result<+T> = Ok(value: T) | Err(error: AppError) {
    predicate IsFailure() {
      Err?
    }

    function PropagateFailure<U>(): Result<U>
      requires Err?
    {
      Err(error)
    }

    function Extract(): T
      requires Ok?
    {
      value
    }
  }
}
