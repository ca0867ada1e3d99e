/** The `secret_items` table and the trash: soft delete, restore, purge, and the vault that goes to
    the trash with its secrets. Each operation is specified by the database it leaves. */
module SecretRepository {
  import opened Wrappers
  import opened Crypto
  import opened Tables

  predicate LiveSecret(db: Database, x: SecretId) {
    x in db.secrets && !db.secrets[x].deleted
  }

  predicate InTrash(db: Database, x: SecretId) {
    x in db.secrets && db.secrets[x].deleted
  }

  function WithSecret(db: Database, x: SecretId, row: SecretRow): Database {
    db.(secrets := db.secrets[x := row])
  }

  // ---- specifications ------------------------------------------------------------------------------

  /** The new row names the column that holds the value; the foreign key asks for the vault. */
  function Inserted(db: Database, x: SecretId, v: VaultId, kind: SecretType, title: string, storage: BlobStorage,
                    blob: Bytes): Result<Database>
  {
    if x in db.secrets || v !in db.vaults then Err(Storage)
    else Ok(WithSecret(db, x, SecretRow(v, kind, title, storage, None, None, false).WithBlob(blob)))
  }

  function Renamed(db: Database, x: SecretId, title: string): Result<Database> {
    if !LiveSecret(db, x) then Err(Storage) else Ok(WithSecret(db, x, db.secrets[x].(title := title)))
  }

  function Rewritten(db: Database, x: SecretId, blob: Bytes): Result<Database> {
    if !LiveSecret(db, x) then Err(Storage) else Ok(WithSecret(db, x, db.secrets[x].WithBlob(blob)))
  }

  function Moved(db: Database, x: SecretId, target: VaultId, blob: Bytes): Result<Database> {
    if !LiveSecret(db, x) || target !in db.vaults then Err(Storage)
    else Ok(WithSecret(db, x, (db.secrets[x].WithBlob(blob)).(vault := target)))
  }

  function SoftDeleted(db: Database, x: SecretId): Result<Database> {
    if !LiveSecret(db, x) then Err(Storage) else Ok(WithSecret(db, x, db.secrets[x].(deleted := true)))
  }

  function VaultRevived(db: Database, v: VaultId): Database
    requires v in db.vaults
  {
    db.(vaults := db.vaults[v := db.vaults[v].(deleted := false)])
  }

  function Restored(db: Database, x: SecretId, v: VaultId): Result<Database> {
    if v !in db.vaults then Err(Storage)
    else if !InTrash(db, x) || db.secrets[x].vault != v then Err(Storage)
    else Ok(WithSecret(VaultRevived(db, v), x, db.secrets[x].(deleted := false)))
  }

  function Purged(db: Database, x: SecretId, v: VaultId): Result<Database> {
    if !InTrash(db, x) || db.secrets[x].vault != v then Err(Storage)
    else Ok(db.(secrets := db.secrets - {x}))
  }

  function TrashOf(db: Database, v: VaultId): set<SecretId> {
    set x | x in db.secrets && db.secrets[x].vault == v && db.secrets[x].deleted
  }

  function TrashEmptied(db: Database, v: VaultId): Database {
    db.(secrets := db.secrets - TrashOf(db, v))
  }

  function VaultTrashed(db: Database, v: VaultId): Result<Database> {
    if !db.LiveVault(v) then Err(NotFound)
    else Ok(db.(vaults := db.vaults[v := db.vaults[v].(deleted := true)],
                secrets := map x | x in db.secrets ::
                  if db.secrets[x].vault == v then db.secrets[x].(deleted := true) else db.secrets[x]))
  }

  /** The outcome of one call against its specification: committed, or refused and rolled back. */
  ghost predicate Commits(before: Database, after: Database, r: Result<()>, spec: Result<Database>) {
    match spec
    case Ok(db) => r.Ok? && after == db
    case Err(error) => r == Err(error) && after == before
  }

  /** Nothing outside this row of the secret table is different. */
  ghost predicate OnlySecret(before: Database, after: Database, x: SecretId) {
    && after == before.(secrets := after.secrets)
    && after.secrets - {x} == before.secrets - {x}
  }

  // ---- operations ------------------------------------------------------------------------------------

  class SqlxSecretRepository {
    const pool: Pool

    constructor (pool: Pool)
      ensures this.pool == pool
    {
      this.pool := pool;
    }

    method InsertSecretBlob(x: SecretId, v: VaultId, kind: SecretType, title: string, storage: BlobStorage, blob: Bytes)
      returns (r: Result<()>)
      modifies pool
      ensures Commits(old(pool.db), pool.db, r, Inserted(old(pool.db), x, v, kind, title, storage, blob))
      ensures r.Ok? <==> x !in old(pool.db.secrets) && v in old(pool.db.vaults)
      ensures r.Ok? ==>
        && OnlySecret(old(pool.db), pool.db, x) && x in pool.db.secrets
        && var row := pool.db.secrets[x];
           && row.vault == v && row.kind == kind && row.title == title && !row.deleted
           && row.inlineBlob == (if storage.Inline? then Some(blob) else None)
           && row.fileBlob == (if storage.File? then Some(blob) else None)
    {
      if x in pool.db.secrets || v !in pool.db.vaults {
        return Err(Storage);
      }
      var inlineBlob := if storage.Inline? then Some(blob) else None;
      var fileBlob := if storage.File? then Some(blob) else None;
      var row := SecretRow(v, kind, title, storage, inlineBlob, fileBlob, false);
      pool.db := pool.db.(secrets := pool.db.secrets[x := row]);
      r := Ok(());
    }

    method UpdateSecretMetadata(x: SecretId, title: string) returns (r: Result<()>)
      modifies pool
      ensures Commits(old(pool.db), pool.db, r, Renamed(old(pool.db), x, title))
      ensures r.Ok? <==> x in old(pool.db.secrets) && !old(pool.db.secrets)[x].deleted
      ensures r.Ok? ==>
        && OnlySecret(old(pool.db), pool.db, x) && x in pool.db.secrets && pool.db.secrets[x].title == title
        && pool.db.secrets[x] == old(pool.db.secrets)[x].(title := pool.db.secrets[x].title)
    {
      if !LiveSecret(pool.db, x) {
        return Err(Storage);
      }
      pool.db := pool.db.(secrets := pool.db.secrets[x := pool.db.secrets[x].(title := title)]);
      r := Ok(());
    }

    method UpdateSecretBlob(x: SecretId, blob: Bytes) returns (r: Result<()>)
      modifies pool
      ensures Commits(old(pool.db), pool.db, r, Rewritten(old(pool.db), x, blob))
      ensures r.Ok? <==> x in old(pool.db.secrets) && !old(pool.db.secrets)[x].deleted
      ensures r.Ok? ==>
        && OnlySecret(old(pool.db), pool.db, x) && x in pool.db.secrets
        && var before, row := old(pool.db.secrets)[x], pool.db.secrets[x];
           && row == before.(inlineBlob := row.inlineBlob, fileBlob := row.fileBlob)
           && row.inlineBlob == (if row.storage.Inline? then Some(blob) else None)
           && row.fileBlob == (if row.storage.File? then Some(blob) else None)
    {
      if !LiveSecret(pool.db, x) {
        return Err(Storage);
      }
      var row: SecretRow := pool.db.secrets[x];
      match row.storage {
        case Inline => row := row.(inlineBlob := Some(blob), fileBlob := None);
        case File => row := row.(fileBlob := Some(blob), inlineBlob := None);
      }
      pool.db := pool.db.(secrets := pool.db.secrets[x := row]);
      r := Ok(());
    }

    method MoveSecretToVault(x: SecretId, target: VaultId, blob: Bytes) returns (r: Result<()>)
      modifies pool
      ensures Commits(old(pool.db), pool.db, r, Moved(old(pool.db), x, target, blob))
      ensures r.Ok? <==>
        x in old(pool.db.secrets) && !old(pool.db.secrets)[x].deleted && target in old(pool.db.vaults)
      ensures r.Ok? ==>
        && OnlySecret(old(pool.db), pool.db, x) && x in pool.db.secrets
        && var before, row := old(pool.db.secrets)[x], pool.db.secrets[x];
           && row == before.(vault := row.vault, inlineBlob := row.inlineBlob, fileBlob := row.fileBlob)
           && row.vault == target
           && row.inlineBlob == (if row.storage.Inline? then Some(blob) else None)
           && row.fileBlob == (if row.storage.File? then Some(blob) else None)
    {
      if !LiveSecret(pool.db, x) || target !in pool.db.vaults {
        return Err(Storage);
      }
      var row: SecretRow := pool.db.secrets[x];
      match row.storage {
        case Inline => row := row.(vault := target, inlineBlob := Some(blob), fileBlob := None);
        case File => row := row.(vault := target, fileBlob := Some(blob), inlineBlob := None);
      }
      pool.db := pool.db.(secrets := pool.db.secrets[x := row]);
      r := Ok(());
    }

    method SoftDelete(x: SecretId) returns (r: Result<()>)
      modifies pool
      ensures Commits(old(pool.db), pool.db, r, SoftDeleted(old(pool.db), x))
      ensures r.Ok? <==> x in old(pool.db.secrets) && !old(pool.db.secrets)[x].deleted
      ensures r.Ok? ==>
        && OnlySecret(old(pool.db), pool.db, x) && x in pool.db.secrets && pool.db.secrets[x].deleted
        && pool.db.secrets[x].(deleted := false) == old(pool.db.secrets)[x]
    {
      if !LiveSecret(pool.db, x) {
        return Err(Storage);
      }
      pool.db := pool.db.(secrets := pool.db.secrets[x := pool.db.secrets[x].(deleted := true)]);
      r := Ok(());
    }

    /** The vault is revived first; the transaction is dropped when the secret is not in its trash. */
    method RestoreSecret(x: SecretId, v: VaultId) returns (r: Result<()>)
      modifies pool
      ensures Commits(old(pool.db), pool.db, r, Restored(old(pool.db), x, v))
      ensures r.Ok? <==>
        && x in old(pool.db.secrets) && old(pool.db.secrets)[x].deleted
        && old(pool.db.secrets)[x].vault == v && v in old(pool.db.vaults)
      ensures r.Ok? ==>
        && pool.db == old(pool.db).(vaults := pool.db.vaults, secrets := pool.db.secrets)
        && pool.db.secrets - {x} == old(pool.db.secrets) - {x} && pool.db.vaults - {v} == old(pool.db.vaults) - {v}
        && x in pool.db.secrets && !pool.db.secrets[x].deleted && pool.db.LiveVault(v)
        && pool.db.secrets[x].(deleted := true) == old(pool.db.secrets)[x]
        && pool.db.vaults[v].(deleted := old(pool.db.vaults)[v].deleted) == old(pool.db.vaults)[v]
    {
      var tx := pool.db;
      if v !in tx.vaults {
        return Err(Storage);
      }
      if tx.vaults[v].deleted {
        tx := tx.(vaults := tx.vaults[v := tx.vaults[v].(deleted := false)]);
      }
      assert tx == VaultRevived(pool.db, v);
      if x !in tx.secrets || tx.secrets[x].vault != v || !tx.secrets[x].deleted {
        return Err(Storage);
      }
      tx := tx.(secrets := tx.secrets[x := tx.secrets[x].(deleted := false)]);
      pool.db := tx;
      r := Ok(());
    }

    method PermanentDelete(x: SecretId, v: VaultId) returns (r: Result<()>)
      modifies pool
      ensures Commits(old(pool.db), pool.db, r, Purged(old(pool.db), x, v))
      ensures r.Ok? <==>
        x in old(pool.db.secrets) && old(pool.db.secrets)[x].deleted && old(pool.db.secrets)[x].vault == v
      ensures r.Ok? ==> OnlySecret(old(pool.db), pool.db, x) && x !in pool.db.secrets
    {
      if x !in pool.db.secrets || pool.db.secrets[x].vault != v || !pool.db.secrets[x].deleted {
        return Err(Storage);
      }
      pool.db := pool.db.(secrets := pool.db.secrets - {x});
      r := Ok(());
    }

    method EmptyTrash(v: VaultId) returns (removed: nat)
      modifies pool
      ensures pool.db == TrashEmptied(old(pool.db), v)
      ensures removed == |TrashOf(old(pool.db), v)|
      ensures |old(pool.db.secrets)| == |pool.db.secrets| + removed
      ensures pool.db == old(pool.db).(secrets := pool.db.secrets)
      ensures forall x :: x in pool.db.secrets <==>
        x in old(pool.db.secrets) && (old(pool.db.secrets)[x].vault == v ==> !old(pool.db.secrets)[x].deleted)
      ensures forall x :: x in pool.db.secrets ==> pool.db.secrets[x] == old(pool.db.secrets)[x]
    {
      var doomed := set x | x in pool.db.secrets && pool.db.secrets[x].vault == v && pool.db.secrets[x].deleted;
      assert doomed == TrashOf(pool.db, v);
      ghost var before := pool.db.secrets;
      pool.db := pool.db.(secrets := pool.db.secrets - doomed);
      assert pool.db.secrets.Keys == before.Keys - doomed;
      assert |before.Keys| == |before.Keys - doomed| + |doomed|;
      removed := |doomed|;
    }

    /** `vault_repository::delete_vault`: the vault and its live secrets in one transaction. */
    method DeleteVault(v: VaultId) returns (r: Result<()>)
      modifies pool
      ensures Commits(old(pool.db), pool.db, r, VaultTrashed(old(pool.db), v))
      ensures r.Ok? <==> v in old(pool.db.vaults) && !old(pool.db.vaults)[v].deleted
      ensures r.Ok? ==>
        && pool.db == old(pool.db).(vaults := pool.db.vaults, secrets := pool.db.secrets)
        && pool.db.vaults - {v} == old(pool.db.vaults) - {v} && pool.db.secrets.Keys == old(pool.db.secrets.Keys)
        && v in pool.db.vaults && pool.db.vaults[v].deleted
        && pool.db.vaults[v].(deleted := false) == old(pool.db.vaults)[v]
        && (forall x :: x in pool.db.secrets ==>
              && (pool.db.secrets[x].deleted <==> old(pool.db.secrets)[x].deleted || pool.db.secrets[x].vault == v)
              && pool.db.secrets[x].(deleted := false) == old(pool.db.secrets)[x].(deleted := false))
    {
      var tx := pool.db;
      if !tx.LiveVault(v) {
        return Err(NotFound);
      }
      tx := tx.(vaults := tx.vaults[v := tx.vaults[v].(deleted := true)]);
      tx := tx.(secrets := map x | x in tx.secrets ::
        if tx.secrets[x].vault == v && !tx.secrets[x].deleted then tx.secrets[x].(deleted := true) else tx.secrets[x]);
      pool.db := tx;
      r := Ok(());
    }
  }

  // ---- what every step keeps ---------------------------------------------------------------------------

  /** Every secret belongs to a vault, a live one to a live vault, and exactly the column named by
      `blob_storage` holds its value. */
  ghost predicate TrashConsistent(db: Database) {
    forall x :: x in db.secrets ==> RowConsistent(db, x)
  }

  ghost predicate RowConsistent(db: Database, x: SecretId)
    requires x in db.secrets
  {
    && db.secrets[x].vault in db.vaults
    && (!db.secrets[x].deleted ==> db.LiveVault(db.secrets[x].vault))
    && db.secrets[x].ExactlyOneColumn()
  }

  datatype TrashStep =
    | Insert(x: SecretId, v: VaultId, kind: SecretType, title: string, storage: BlobStorage, blob: Bytes)
    | Rename(x: SecretId, title: string)
    | Rewrite(x: SecretId, blob: Bytes)
    | Move(x: SecretId, v: VaultId, blob: Bytes)
    | SoftDelete(x: SecretId)
    | Restore(x: SecretId, v: VaultId)
    | Purge(x: SecretId, v: VaultId)
    | EmptyTrash(v: VaultId)
    | DeleteVault(v: VaultId)
  {
    /** Inserts and moves go to a vault the caller has open, hence live. */
    predicate Allowed(db: Database) {
      Insert? || Move? ==> v in db.vaults ==> db.LiveVault(v)
    }
  }

  function Outcome(db: Database, step: TrashStep): Result<Database> {
    match step
    case Insert(x, v, kind, title, storage, blob) => Inserted(db, x, v, kind, title, storage, blob)
    case Rename(x, title) => Renamed(db, x, title)
    case Rewrite(x, blob) => Rewritten(db, x, blob)
    case Move(x, v, blob) => Moved(db, x, v, blob)
    case SoftDelete(x) => SoftDeleted(db, x)
    case Restore(x, v) => Restored(db, x, v)
    case Purge(x, v) => Purged(db, x, v)
    case EmptyTrash(v) => Ok(TrashEmptied(db, v))
    case DeleteVault(v) => VaultTrashed(db, v)
  }

  /** A refused step leaves both tables as they were. */
  function After(db: Database, step: TrashStep): Database {
    match Outcome(db, step)
    case Ok(next) => next
    case Err(_) => db
  }

  lemma TrashStepKeeps(db: Database, step: TrashStep)
    requires TrashConsistent(db) && step.Allowed(db)
    ensures TrashConsistent(After(db, step))
  {
    var next := After(db, step);
    forall x | x in next.secrets ensures RowConsistent(next, x) {
      RowKept(db, step, x);
    }
  }

  lemma RowKept(db: Database, step: TrashStep, x: SecretId)
    requires TrashConsistent(db) && step.Allowed(db) && x in After(db, step).secrets
    ensures RowConsistent(After(db, step), x)
  {
    if x in db.secrets {
      assert RowConsistent(db, x);
    }
  }

  /** A row disappears only through a purge of its vault, and only from the trash. */
  lemma RowsLeaveOnlyByPurge(db: Database, step: TrashStep, x: SecretId)
    requires x in db.secrets && x !in After(db, step).secrets
    ensures InTrash(db, x)
    ensures step == Purge(x, db.secrets[x].vault) || step == EmptyTrash(db.secrets[x].vault)
  {
  }

  /** Trashing and restoring a secret gives back the very same database. */
  lemma RestoreUndoesSoftDelete(db: Database, x: SecretId)
    requires TrashConsistent(db) && LiveSecret(db, x)
    ensures SoftDeleted(db, x).Ok?
    ensures Restored(SoftDeleted(db, x).value, x, db.secrets[x].vault) == Ok(db)
  {
    var gone := SoftDeleted(db, x).value;
    var v := db.secrets[x].vault;
    assert db.secrets[x].(deleted := true).(deleted := false) == db.secrets[x];
    assert VaultRevived(gone, v).vaults == db.vaults;
    assert gone.secrets[x := db.secrets[x]] == db.secrets;
  }

  /** Restoring the secrets of a trashed vault one by one, starting from any of them, brings the vault
      back; until each is restored it stays in the trash. */
  lemma RestoreAfterVaultTrash(db: Database, v: VaultId, x: SecretId)
    requires TrashConsistent(db) && db.LiveVault(v)
    requires LiveSecret(db, x) && db.secrets[x].vault == v
    ensures var gone := VaultTrashed(db, v); gone.Ok? && Restored(gone.value, x, v).Ok?
    ensures var back := Restored(VaultTrashed(db, v).value, x, v).value;
      && back.vaults == db.vaults
      && back.secrets[x] == db.secrets[x]
      && (forall y :: y in db.secrets && y != x && db.secrets[y].vault == v ==>
            y in back.secrets && back.secrets[y] == db.secrets[y].(deleted := true))
      && (forall y :: y in db.secrets && db.secrets[y].vault != v ==>
            y in back.secrets && back.secrets[y] == db.secrets[y])
  {
    var gone := VaultTrashed(db, v).value;
    assert InTrash(gone, x) && gone.secrets[x].vault == v;
    assert VaultRevived(gone, v).vaults == db.vaults;
    assert db.secrets[x].(deleted := true).(deleted := false) == db.secrets[x];
  }

  ghost predicate TrashRun(states: seq<Database>, steps: seq<TrashStep>) {
    && |states| == |steps| + 1
    && forall i :: 0 <= i < |steps| ==>
      steps[i].Allowed(states[i]) && states[i + 1] == After(states[i], steps[i])
  }

  /** Safety over whole runs; a row still there at the end was there, or inserted, on the way, and one
      missing at the end was purged from the trash at some step. */
  lemma {:induction false} TrashRunIsSafe(states: seq<Database>, steps: seq<TrashStep>)
    requires TrashRun(states, steps)
    requires TrashConsistent(states[0])
    ensures TrashConsistent(states[|steps|])
    ensures forall x :: x in states[0].secrets && x !in states[|steps|].secrets ==>
      exists i :: 0 <= i < |steps| && InTrash(states[i], x) && (steps[i].Purge? || steps[i].EmptyTrash?)
    decreases |steps|
  {
    if steps != [] {
      var n := |steps| - 1;
      TrashRunIsSafe(states[..n + 1], steps[..n]);
      assert states[..n + 1][n] == states[n];
      TrashStepKeeps(states[n], steps[n]);
      forall x | x in states[0].secrets && x !in states[|steps|].secrets
        ensures exists i :: 0 <= i < |steps| && InTrash(states[i], x) && (steps[i].Purge? || steps[i].EmptyTrash?)
      {
        if x in states[n].secrets {
          RowsLeaveOnlyByPurge(states[n], steps[n], x);
        } else {
          var i :| 0 <= i < n && InTrash(states[..n + 1][i], x) && (steps[..n][i].Purge? || steps[..n][i].EmptyTrash?);
          assert InTrash(states[i], x);
        }
      }
    }
  }
}
