/** The security centre over the key hierarchy: which vaults a session opens, which items are listed and
    decrypted in them, and what the report then says about the values the users stored. */
module SecurityScans {
  import opened Wrappers
  import opened Crypto
  import opened Tables
  import opened VaultRepository
  import opened RekeyService
  import opened AuthServices
  import opened SecretRepository
  import opened Access
  import opened KeyHierarchy
  import SecurityCenter

  type Metadata = SecretId -> seq<SecurityCenter.MetadataFinding>

  /** Decrypted and read as UTF-8. */
  function TextOf(s: Suite, blob: Bytes, vaultKey: Bytes): Option<string> {
    match OpenBlob(s, blob, vaultKey)
    case None => None
    case Some(value) => s.fromUtf8(value)
  }

  function ItemOf(s: Suite, db: Database, x: SecretId, vaultKey: Bytes, metadata: Metadata): SecurityCenter.Item
    requires x in db.secrets
  {
    var row := db.secrets[x];
    SecurityCenter.Item(x, row.vault, Some(row.title), row.kind.Password?, TextOf(s, row.Blob(), vaultKey), metadata(x))
  }

  /** Each live secret of the vault once, in any order. */
  ghost predicate ListsVault(s: Suite, db: Database, v: VaultId, vaultKey: Bytes, metadata: Metadata,
                             items: seq<SecurityCenter.Item>)
  {
    && (forall i :: 0 <= i < |items| ==>
          LiveSecret(db, items[i].id) && db.secrets[items[i].id].vault == v
          && items[i] == ItemOf(s, db, items[i].id, vaultKey, metadata))
    && (forall i, j :: 0 <= i < j < |items| ==> items[i].id != items[j].id)
    && (forall x :: LiveSecret(db, x) && db.secrets[x].vault == v ==> Listed(items, x))
  }

  ghost predicate Listed(items: seq<SecurityCenter.Item>, x: SecretId) {
    exists i :: 0 <= i < |items| && items[i].id == x
  }

  lemma ListedGrows(items: seq<SecurityCenter.Item>, item: SecurityCenter.Item)
    ensures forall y :: Listed(items, y) || y == item.id ==> Listed(items + [item], y)
  {
    var more := items + [item];
    assert more[|items|] == item;
    forall y | Listed(items, y) ensures Listed(more, y) {
      var i :| 0 <= i < |items| && items[i].id == y;
      assert more[i].id == y;
    }
  }

  /** `list_by_vault`, with each value decrypted as the scan does. */
  method ListByVault(s: Suite, db: Database, v: VaultId, vaultKey: Bytes, metadata: Metadata)
    returns (items: seq<SecurityCenter.Item>)
    ensures ListsVault(s, db, v, vaultKey, metadata, items)
  {
    hide TextOf, Listed;
    items := [];
    var left := LiveSecrets(db, v);
    while left != {}
      invariant left <= LiveSecrets(db, v)
      invariant forall i :: 0 <= i < |items| ==>
        && items[i].id in LiveSecrets(db, v) && items[i].id !in left
        && items[i] == ItemOf(s, db, items[i].id, vaultKey, metadata)
      invariant forall i, j :: 0 <= i < j < |items| ==> items[i].id != items[j].id
      invariant forall x :: x in LiveSecrets(db, v) && x !in left ==> Listed(items, x)
      decreases |left|
    {
      var x :| x in left;
      ListedGrows(items, ItemOf(s, db, x, vaultKey, metadata));
      items := items + [ItemOf(s, db, x, vaultKey, metadata)];
      left := left - {x};
    }
    assert forall x :: LiveSecret(db, x) && db.secrets[x].vault == v ==> x in LiveSecrets(db, v);
  }

  ghost predicate ScansVault(s: Suite, db: Database, user: UserId, key: Bytes, metadata: Metadata, v: VaultId,
                             scan: SecurityCenter.VaultScan)
  {
    && v in db.vaults
    && match OpenVaultForUser(s, db, user, v, key)
       case Err(_) => scan == SecurityCenter.Unavailable
       case Ok(vaultKey) =>
         scan.Available? && scan.name == db.vaults[v].name && ListsVault(s, db, v, vaultKey, metadata, scan.items)
  }

  /** One result for each accessible vault. */
  ghost predicate Scans(s: Suite, db: Database, user: UserId, key: Bytes, metadata: Metadata, rows: seq<VaultId>,
                        scans: seq<SecurityCenter.VaultScan>)
  {
    && |scans| == |rows|
    && (forall v :: v in rows <==> db.Accessible(user, v))
    && (forall i, j :: 0 <= i < j < |rows| ==> rows[i] != rows[j])
    && (forall i :: 0 <= i < |rows| ==> ScansVault(s, db, user, key, metadata, rows[i], scans[i]))
  }

  /** Opens what the session key opens; a vault that does not open is counted and passed over. */
  method ScanVaults(s: Suite, db: Database, user: UserId, key: Bytes, metadata: Metadata)
    returns (rows: seq<VaultId>, scans: seq<SecurityCenter.VaultScan>)
    ensures Scans(s, db, user, key, metadata, rows, scans)
  {
    hide OpenVaultForUser, ListsVault;
    rows := ListAccessible(db, user);
    scans := [];
    for n := 0 to |rows|
      invariant |scans| == n
      invariant forall i :: 0 <= i < n ==> ScansVault(s, db, user, key, metadata, rows[i], scans[i])
    {
      var v := rows[n];
      assert v in rows && db.Accessible(user, v);
      match OpenVaultForUser(s, db, user, v, key) {
        case Err(_) => scans := scans + [SecurityCenter.Unavailable];
        case Ok(vaultKey) =>
          var items := ListByVault(s, db, v, vaultKey, metadata);
          scans := scans + [SecurityCenter.Available(db.vaults[v].name, items)];
      }
    }
  }

  /** The scan of a session: its report is the one the opened vaults call for. Listing refuses a user who
      has no row. */
  method AnalyzeSession(est: SecurityCenter.Estimator, digest: string -> SecurityCenter.Digest, s: Suite, db: Database,
                        user: UserId, key: Bytes, metadata: Metadata, control: SecurityCenter.ScanControl)
    returns (r: Result<SecurityCenter.SecurityReport>)
    requires SecurityCenter.Injective(digest)
    modifies control
    ensures r.Ok? ==> exists rows, scans ::
      Scans(s, db, user, key, metadata, rows, scans) && SecurityCenter.ReportFor(est, scans, r.value)
    ensures r.Ok? ==> user in db.users
    ensures r.Err? ==> r.error == Cancelled || (r.error == NotFound && user !in db.users)
  {
    hide SecurityCenter.ReportFor, Scans;
    var rows, scans := ScanVaults(s, db, user, key, metadata);
    r := SecurityCenter.Analyze(est, digest, if user in db.users then Ok(scans) else Err(NotFound), control);
  }

  // ---- what the entries are ---------------------------------------------------------------------------

  /** The item scanned at position `n` is a live secret of a vault that opens, listed under its name. */
  lemma {:induction false} ScannedIsLive(s: Suite, db: Database, user: UserId, key: Bytes, metadata: Metadata,
                                         rows: seq<VaultId>, scans: seq<SecurityCenter.VaultScan>, n: nat)
    requires |scans| == |rows|
    requires forall i :: 0 <= i < |rows| ==> ScansVault(s, db, user, key, metadata, rows[i], scans[i])
    requires n < |SecurityCenter.ScannedItems(scans)|
    ensures var item := SecurityCenter.ScannedItems(scans)[n].item;
      && LiveSecret(db, item.id) && db.secrets[item.id].vault in rows
      && OpenVaultForUser(s, db, user, db.secrets[item.id].vault, key).Ok?
      && item == ItemOf(s, db, item.id, OpenVaultForUser(s, db, user, db.secrets[item.id].vault, key).value, metadata)
      && db.secrets[item.id].vault in db.vaults
      && SecurityCenter.ScannedItems(scans)[n].vaultName == db.vaults[db.secrets[item.id].vault].name
  {
    hide OpenVaultForUser, ItemOf;
    var last := |scans| - 1;
    var earlier := SecurityCenter.ScannedItems(scans[..last]);
    if n < |earlier| {
      ScannedIsLive(s, db, user, key, metadata, rows[..last], scans[..last], n);
    } else {
      assert ScansVault(s, db, user, key, metadata, rows[last], scans[last]);
    }
  }

  /** Every live secret of every vault that opens is scanned. */
  lemma {:induction false} LiveIsScanned(s: Suite, db: Database, user: UserId, key: Bytes, metadata: Metadata,
                                         rows: seq<VaultId>, scans: seq<SecurityCenter.VaultScan>, x: SecretId)
    returns (n: nat)
    requires |scans| == |rows|
    requires forall i :: 0 <= i < |rows| ==> ScansVault(s, db, user, key, metadata, rows[i], scans[i])
    requires LiveSecret(db, x) && db.secrets[x].vault in rows
    requires OpenVaultForUser(s, db, user, db.secrets[x].vault, key).Ok?
    ensures n < |SecurityCenter.ScannedItems(scans)| && SecurityCenter.ScannedItems(scans)[n].item.id == x
  {
    hide OpenVaultForUser, ItemOf, ScansVault;
    var last := |scans| - 1;
    var earlier := SecurityCenter.ScannedItems(scans[..last]);
    assert SecurityCenter.ScannedItems(scans) == earlier + SecurityCenter.VaultItems(scans[last]);
    hide SecurityCenter.ScannedItems;
    if rows[last] == db.secrets[x].vault {
      var i := LiveIsListed(s, db, user, key, metadata, rows[last], scans[last], x);
      n := |earlier| + i;
    } else {
      assert db.secrets[x].vault in rows[..last];
      n := LiveIsScanned(s, db, user, key, metadata, rows[..last], scans[..last], x);
    }
  }

  lemma LiveIsListed(s: Suite, db: Database, user: UserId, key: Bytes, metadata: Metadata, v: VaultId,
                     scan: SecurityCenter.VaultScan, x: SecretId)
    returns (i: nat)
    requires ScansVault(s, db, user, key, metadata, v, scan) && OpenVaultForUser(s, db, user, v, key).Ok?
    requires LiveSecret(db, x) && db.secrets[x].vault == v
    ensures i < |SecurityCenter.VaultItems(scan)| && SecurityCenter.VaultItems(scan)[i].item.id == x
  {
    hide OpenVaultForUser, ItemOf;
    i :| 0 <= i < |scan.items| && scan.items[i].id == x;
  }

  // ---- what the report says of the plain state ----------------------------------------------------------------

  /** The password text a user sees behind a secret, if it is one. */
  function PlainText(s: Suite, db: Database, p: Plain, x: SecretId): Option<string>
    requires x in db.secrets && x in p.secrets
  {
    if !db.secrets[x].kind.Password? then None
    else
      match s.fromUtf8(p.secrets[x].value)
      case None => None
      case Some(text) => if text == [] then None else Some(text)
  }

  lemma ScannedText(s: Suite, w: World, p: Plain, k: Keyring, u: UserId, metadata: Metadata, x: SecretId, vaultKey: Bytes)
    requires Represents(s, w, p, k) && u in k.accounts && x in w.db.secrets
    requires OpenVaultForUser(s, w.db, u, w.db.secrets[x].vault, k.accounts[u]) == Ok(vaultKey)
    ensures x in p.secrets
    ensures SecurityCenter.Readable(ItemOf(s, w.db, x, vaultKey, metadata)) == PlainText(s, w.db, p, x)
  {
    hide UsersOk, VaultsOk, SharesOk, KeysOk, SoleAccountKey, TrashConsistent;
    assert SecretOk(s, w.db, p, k, x);
    OpenedKeyOf(s, w, p, k, u, w.db.secrets[x].vault, k.accounts[u]);
  }

  lemma OpenedKeyOf(s: Suite, w: World, p: Plain, k: Keyring, u: UserId, v: VaultId, key: Bytes)
    requires Represents(s, w, p, k) && OpenVaultForUser(s, w.db, u, v, key).Ok?
    ensures v in k.vaults && OpenVaultForUser(s, w.db, u, v, key).value == k.vaults[v]
  {
    hide Represents;
    OpenedVaultGivesKey(s, w, p, k, u, v, key);
  }

  /** Two entries of a report carry the same reuse group exactly when the users stored the same non-empty
      text as both passwords. */
  lemma ReuseIsEqualValues(s: Suite, w: World, p: Plain, k: Keyring, u: UserId, metadata: Metadata, rows: seq<VaultId>,
                           scans: seq<SecurityCenter.VaultScan>, est: SecurityCenter.Estimator,
                           report: SecurityCenter.SecurityReport, i: nat, j: nat)
    requires Represents(s, w, p, k) && u in k.accounts
    requires Scans(s, w.db, u, k.accounts[u], metadata, rows, scans)
    requires SecurityCenter.ReportFor(est, scans, report)
    requires i < |report.entries| && j < |report.entries| && i != j
    ensures var x, y := report.entries[i].secretId, report.entries[j].secretId;
      && LiveSecret(w.db, x) && LiveSecret(w.db, y) && x in p.secrets && y in p.secrets
      && ((report.entries[i].reuseGroup.Some? && report.entries[i].reuseGroup == report.entries[j].reuseGroup) <==>
            (PlainText(s, w.db, p, x).Some? && PlainText(s, w.db, p, x) == PlainText(s, w.db, p, y)))
  {
    hide Represents, OpenVaultForUser, PlainText, ItemOf, SecurityCenter.Readable;
    var scanned := SecurityCenter.ScannedItems(scans);
    EntryIsLive(s, w, p, k, u, metadata, rows, scans, est, report, i);
    EntryIsLive(s, w, p, k, u, metadata, rows, scans, est, report, j);
    SecurityCenter.SameGroupIff(SecurityCenter.Texts(scanned), i, j, report.entries[i].reuseGroup, report.entries[j].reuseGroup);
  }

  lemma EntryIsLive(s: Suite, w: World, p: Plain, k: Keyring, u: UserId, metadata: Metadata, rows: seq<VaultId>,
                    scans: seq<SecurityCenter.VaultScan>, est: SecurityCenter.Estimator,
                    report: SecurityCenter.SecurityReport, i: nat)
    requires Represents(s, w, p, k) && u in k.accounts
    requires Scans(s, w.db, u, k.accounts[u], metadata, rows, scans)
    requires SecurityCenter.ReportFor(est, scans, report) && i < |report.entries|
    ensures var x := report.entries[i].secretId;
      && LiveSecret(w.db, x) && x in p.secrets
      && i < |SecurityCenter.ScannedItems(scans)|
      && SecurityCenter.Texts(SecurityCenter.ScannedItems(scans))[i] == PlainText(s, w.db, p, x)
  {
    hide Represents, OpenVaultForUser, PlainText, ItemOf, SecurityCenter.Readable, SecurityCenter.OwnFindings;
    ScannedIsLive(s, w.db, u, k.accounts[u], metadata, rows, scans, i);
    var item := SecurityCenter.ScannedItems(scans)[i].item;
    var v := w.db.secrets[item.id].vault;
    ScannedText(s, w, p, k, u, metadata, item.id, OpenVaultForUser(s, w.db, u, v, k.accounts[u]).value);
  }

  /** Nothing a user can read is missing from the report. */
  lemma ReadableIsReported(s: Suite, w: World, p: Plain, k: Keyring, u: UserId, metadata: Metadata, rows: seq<VaultId>,
                           scans: seq<SecurityCenter.VaultScan>, est: SecurityCenter.Estimator,
                           report: SecurityCenter.SecurityReport, x: SecretId)
    returns (n: nat)
    requires Represents(s, w, p, k) && p.CanRead(u, x) && u in k.accounts
    requires Scans(s, w.db, u, k.accounts[u], metadata, rows, scans)
    requires SecurityCenter.ReportFor(est, scans, report)
    ensures n < |report.entries| && report.entries[n].secretId == x
  {
    hide Represents, OpenVaultForUser, ItemOf, SecurityCenter.OwnFindings, ScansVault, ReadThrough;
    RepresentedSecretsRead(s, w, p, k, u, x);
    AccessibleVaultOpens(s, w, p, k, u, p.secrets[x].vault);
    SecretRow(s, w, p, k, x);
    n := LiveIsScanned(s, w.db, u, k.accounts[u], metadata, rows, scans, x);
  }

  lemma SecretRow(s: Suite, w: World, p: Plain, k: Keyring, x: SecretId)
    requires Represents(s, w, p, k) && x in p.secrets
    ensures x in w.db.secrets && w.db.secrets[x].vault == p.secrets[x].vault
  {
    hide UsersOk, VaultsOk, SharesOk, KeysOk, SoleAccountKey, TrashConsistent, OpenBlob;
    assert SecretOk(s, w.db, p, k, x);
  }

  /** An entry names its secret and the vault of it, and is marked as reused exactly when another entry's
      password is the same non-empty text. */
  lemma EntryNamesSecret(s: Suite, w: World, p: Plain, k: Keyring, u: UserId, metadata: Metadata, rows: seq<VaultId>,
                         scans: seq<SecurityCenter.VaultScan>, est: SecurityCenter.Estimator,
                         report: SecurityCenter.SecurityReport, i: nat)
    requires Represents(s, w, p, k) && u in k.accounts
    requires Scans(s, w.db, u, k.accounts[u], metadata, rows, scans)
    requires SecurityCenter.ReportFor(est, scans, report) && i < |report.entries|
    ensures var e := report.entries[i];
      && LiveSecret(w.db, e.secretId) && e.vaultId == w.db.secrets[e.secretId].vault && e.vaultId in w.db.vaults
      && e.title == w.db.secrets[e.secretId].title && e.vaultName == w.db.vaults[e.vaultId].name
    ensures SecurityCenter.ReusedPassword in report.entries[i].findings <==>
      exists j: nat :: j != i && SameEntryText(s, w.db, p, report, i, j)
  {
    hide Represents, OpenVaultForUser, PlainText, SecurityCenter.Readable, SecurityCenter.OwnFindings, TextOf, SameEntryText;
    SecurityCenter.EntryTells(est, scans, report, i);
    ScannedIsLive(s, w.db, u, k.accounts[u], metadata, rows, scans, i);
    forall j: nat
      ensures SecurityCenter.SameText(SecurityCenter.Texts(SecurityCenter.ScannedItems(scans)), i, j)
        <==> SameEntryText(s, w.db, p, report, i, j)
    {
      SameTextIsPlain(s, w, p, k, u, metadata, rows, scans, est, report, i, j);
    }
  }

  /** The users stored the same non-empty text behind both entries. */
  ghost predicate SameEntryText(s: Suite, db: Database, p: Plain, report: SecurityCenter.SecurityReport, i: nat, j: nat) {
    && i < |report.entries| && j < |report.entries|
    && var x, y := report.entries[i].secretId, report.entries[j].secretId;
       && x in db.secrets && x in p.secrets && y in db.secrets && y in p.secrets
       && PlainText(s, db, p, x).Some? && PlainText(s, db, p, x) == PlainText(s, db, p, y)
  }

  lemma SameTextIsPlain(s: Suite, w: World, p: Plain, k: Keyring, u: UserId, metadata: Metadata, rows: seq<VaultId>,
                        scans: seq<SecurityCenter.VaultScan>, est: SecurityCenter.Estimator,
                        report: SecurityCenter.SecurityReport, i: nat, j: nat)
    requires Represents(s, w, p, k) && u in k.accounts
    requires Scans(s, w.db, u, k.accounts[u], metadata, rows, scans)
    requires SecurityCenter.ReportFor(est, scans, report) && i < |report.entries|
    ensures SecurityCenter.SameText(SecurityCenter.Texts(SecurityCenter.ScannedItems(scans)), i, j)
      <==> SameEntryText(s, w.db, p, report, i, j)
  {
    hide Represents, OpenVaultForUser, PlainText, Scans, SecurityCenter.Texts, SecurityCenter.ScannedItems,
      SecurityCenter.GroupIs, SecurityCenter.EntryOf;
    EntryIsLive(s, w, p, k, u, metadata, rows, scans, est, report, i);
    if j < |report.entries| {
      EntryIsLive(s, w, p, k, u, metadata, rows, scans, est, report, j);
    }
  }

  /** No secret has two entries. */
  lemma {:induction false} ScannedOnce(s: Suite, db: Database, user: UserId, key: Bytes, metadata: Metadata,
                                       rows: seq<VaultId>, scans: seq<SecurityCenter.VaultScan>, m: nat, n: nat)
    requires |scans| == |rows|
    requires forall i, j :: 0 <= i < j < |rows| ==> rows[i] != rows[j]
    requires forall i :: 0 <= i < |rows| ==> ScansVault(s, db, user, key, metadata, rows[i], scans[i])
    requires m < n < |SecurityCenter.ScannedItems(scans)|
    ensures SecurityCenter.ScannedItems(scans)[m].item.id != SecurityCenter.ScannedItems(scans)[n].item.id
  {
    hide OpenVaultForUser, ItemOf;
    var last := |scans| - 1;
    var earlier := SecurityCenter.ScannedItems(scans[..last]);
    if n < |earlier| {
      ScannedOnce(s, db, user, key, metadata, rows[..last], scans[..last], m, n);
    } else {
      assert ScansVault(s, db, user, key, metadata, rows[last], scans[last]);
      if m < |earlier| {
        ScannedIsLive(s, db, user, key, metadata, rows[..last], scans[..last], m);
      }
    }
  }

  /** A vault that does not open is counted, and no other. */
  lemma UnavailableAreShut(s: Suite, db: Database, user: UserId, key: Bytes, metadata: Metadata, rows: seq<VaultId>,
                           scans: seq<SecurityCenter.VaultScan>, est: SecurityCenter.Estimator,
                           report: SecurityCenter.SecurityReport)
    requires Scans(s, db, user, key, metadata, rows, scans) && SecurityCenter.ReportFor(est, scans, report)
    ensures report.unavailableVaults == |VaultsBy(s, db, user, key, false)|
    ensures report.vaultsAnalyzed == |VaultsBy(s, db, user, key, true)|
  {
    CountedByOutcome(s, db, user, key, metadata, rows, scans);
    hide OpenVaultForUser;
    assert Among(s, db, user, key, rows, false) == VaultsBy(s, db, user, key, false);
    assert Among(s, db, user, key, rows, true) == VaultsBy(s, db, user, key, true);
  }

  /** The accessible vaults that open with the key, or those that do not. */
  function VaultsBy(s: Suite, db: Database, user: UserId, key: Bytes, opens: bool): set<VaultId> {
    set v | v in db.vaults && db.Accessible(user, v) && OpenVaultForUser(s, db, user, v, key).Ok? == opens
  }

  function Among(s: Suite, db: Database, user: UserId, key: Bytes, rows: seq<VaultId>, opens: bool): set<VaultId> {
    set v | v in rows && OpenVaultForUser(s, db, user, v, key).Ok? == opens
  }

  lemma {:induction false} CountedByOutcome(s: Suite, db: Database, user: UserId, key: Bytes, metadata: Metadata,
                                            rows: seq<VaultId>, scans: seq<SecurityCenter.VaultScan>)
    requires |scans| == |rows|
    requires forall i, j :: 0 <= i < j < |rows| ==> rows[i] != rows[j]
    requires forall i :: 0 <= i < |rows| ==> ScansVault(s, db, user, key, metadata, rows[i], scans[i])
    ensures SecurityCenter.CountUnavailable(scans) == |Among(s, db, user, key, rows, false)|
    ensures |rows| == |Among(s, db, user, key, rows, false)| + |Among(s, db, user, key, rows, true)|
  {
    hide OpenVaultForUser, ListsVault;
    if rows != [] {
      hide Among;
      var n := |rows| - 1;
      CountedByOutcome(s, db, user, key, metadata, rows[..n], scans[..n]);
      assert ScansVault(s, db, user, key, metadata, rows[n], scans[n]);
      OneMoreAmong(s, db, user, key, rows[..n], rows[n], false);
      OneMoreAmong(s, db, user, key, rows[..n], rows[n], true);
      assert rows == rows[..n] + [rows[n]];
    } else {
      assert Among(s, db, user, key, rows, false) == {} && Among(s, db, user, key, rows, true) == {};
    }
  }

  lemma OneMoreAmong(s: Suite, db: Database, user: UserId, key: Bytes, rows: seq<VaultId>, v: VaultId, opens: bool)
    requires v !in rows
    ensures |Among(s, db, user, key, rows + [v], opens)| == |Among(s, db, user, key, rows, opens)|
      + if OpenVaultForUser(s, db, user, v, key).Ok? == opens then 1 else 0
  {
    hide OpenVaultForUser;
    assert Among(s, db, user, key, rows + [v], opens) == Among(s, db, user, key, rows, opens)
      + if OpenVaultForUser(s, db, user, v, key).Ok? == opens then {v} else {};
  }

  /** An entry is marked unreadable exactly when its password is no visible text; weak exactly when the
      text the users stored is. */
  lemma MarksAreOfPlainText(s: Suite, w: World, p: Plain, k: Keyring, u: UserId, metadata: Metadata, rows: seq<VaultId>,
                            scans: seq<SecurityCenter.VaultScan>, est: SecurityCenter.Estimator,
                            report: SecurityCenter.SecurityReport, i: nat)
    requires Represents(s, w, p, k) && u in k.accounts
    requires Scans(s, w.db, u, k.accounts[u], metadata, rows, scans)
    requires SecurityCenter.ReportFor(est, scans, report) && i < |report.entries|
    ensures var x, findings := report.entries[i].secretId, report.entries[i].findings;
      && x in w.db.secrets && x in p.secrets
      && (SecurityCenter.Unreadable in findings <==> w.db.secrets[x].kind.Password? && PlainText(s, w.db, p, x).None?)
      && (SecurityCenter.WeakPassword in findings <==>
            PlainText(s, w.db, p, x).Some? && !SecurityCenter.Strong(est, PlainText(s, w.db, p, x).value))
  {
    hide Represents, OpenVaultForUser, PlainText, SecurityCenter.Readable, SecurityCenter.OwnFindings, TextOf,
      SecurityCenter.Estimator.IsWeak, SecurityCenter.Strong;
    EntryIsLive(s, w, p, k, u, metadata, rows, scans, est, report, i);
    ScannedIsLive(s, w.db, u, k.accounts[u], metadata, rows, scans, i);
    OwnMarks(est, SecurityCenter.ScannedItems(scans)[i], report.entries[i].reuseGroup);
  }

  lemma OwnMarks(est: SecurityCenter.Estimator, x: SecurityCenter.Scanned, group: Option<nat>)
    ensures var findings, text := SecurityCenter.EntryOf(est, x, group).findings, SecurityCenter.Readable(x.item);
      && (SecurityCenter.Unreadable in findings <==> x.item.isPassword && text.None?)
      && (SecurityCenter.WeakPassword in findings <==> text.Some? && !SecurityCenter.Strong(est, text.value))
  {
    hide SecurityCenter.Estimator.IsWeak, SecurityCenter.Strong;
    if SecurityCenter.Readable(x.item).Some? {
      SecurityCenter.WeakVerdict(est, SecurityCenter.Readable(x.item).value);
    }
  }
}
