/** The SQLite database as maps, and the connection pool that holds its current contents. A
    transaction works on a copy of `Pool.db` and commits by assigning it back. */
module Tables {
  import opened Wrappers
  import opened Crypto

  type UserId = nat
  type VaultId = nat
  type SecretId = nat

  datatype SecretType = Password | ApiToken | SshKey | SecureDocument

  datatype BlobStorage = Inline | File

  datatype UserRow = UserRow(
    username: string,
    passwordEnvelope: Option<Bytes>,
    recoveryPhraseEnvelope: Option<Bytes>,
    recoveryKeyEnvelope: Option<Bytes>,
    totpSecret: Option<Bytes>)

  datatype VaultRow = VaultRow(owner: UserId, name: string, envelope: Option<Bytes>, deleted: bool)

  datatype AnySecretRow = SecretRow(
    vault: VaultId,
    kind: SecretType,
    title: string,
    storage: BlobStorage,
    inlineBlob: Option<Bytes>,
    fileBlob: Option<Bytes>,
    deleted: bool)
  {
    /** The schema's CHECK: the column named by `blob_storage` is not null. */
    predicate Checked() {
      match storage
      case Inline => inlineBlob.Some?
      case File => fileBlob.Some?
    }

    /** Stronger than the CHECK: no other column is filled. */
    predicate ExactlyOneColumn() {
      match storage
      case Inline => inlineBlob.Some? && fileBlob.None?
      case File => fileBlob.Some? && inlineBlob.None?
    }

    function Blob(): Bytes
      requires Checked()
    {
      match storage
      case Inline => inlineBlob.value
      case File => fileBlob.value
    }

    /** `SET secret_blob = ?, file_blob_ref = NULL` or the reverse, by `blob_storage`. */
    function WithBlob(blob: Bytes): (r: AnySecretRow)
      ensures r.ExactlyOneColumn() && r.Blob() == blob
      ensures r == this.(inlineBlob := r.inlineBlob, fileBlob := r.fileBlob)
    {
      match storage
      case Inline => this.(inlineBlob := Some(blob), fileBlob := None)
      case File => this.(fileBlob := Some(blob), inlineBlob := None)
    }
  }

  type SecretRow = r: AnySecretRow | r.Checked()
    witness SecretRow(0, Password, "", Inline, Some([]), None, false)

  datatype PolicyRow = PolicyRow(failedAttempts: nat, lastAttemptAt: Option<int>)

  datatype Database = Database(
    users: map<UserId, UserRow>,
    vaults: map<VaultId, VaultRow>,
    shares: map<(VaultId, UserId), Bytes>,
    secrets: map<SecretId, SecretRow>,
    policy: map<string, PolicyRow>)
  {
    predicate LiveVault(v: VaultId) {
      v in vaults && !vaults[v].deleted
    }

    /** The `accessible_vaults` view: live vaults owned by the user or shared with them. */
    predicate Accessible(u: UserId, v: VaultId) {
      LiveVault(v) && (vaults[v].owner == u || (v, u) in shares)
    }

    /** Where the user's copy of the vault key is stored. */
    function EnvelopeFor(u: UserId, v: VaultId): Option<Bytes>
      requires v in vaults
    {
      if vaults[v].owner == u then vaults[v].envelope
      else if (v, u) in shares then Some(shares[(v, u)])
      else None
    }

    /** Accessible, with a stored key. */
    predicate Keyed(u: UserId, v: VaultId) {
      Accessible(u, v) && EnvelopeFor(u, v).Some?
    }
  }

  /** A new UUID: one that no row uses. */
  method GenerateId(used: set<nat>) returns (id: nat)
    ensures id !in used
  {
    id := 0;
    var left := used;
    while left != {}
      invariant left <= used && forall x :: x in used && x !in left ==> x < id
      decreases |left|
    {
      var x :| x in left;
      id := if x >= id then x + 1 else id;
      left := left - {x};
    }
  }

  class Pool {
    var db: Database

    constructor (db: Database)
      ensures this.db == db
    {
      this.db := db;
    }
  }

  /** `list_all().len() == 1` */
  predicate SingleAccount(db: Database) {
    |db.users| == 1
  }
}
