/** The security centre's scan: one pass over every readable password with a fingerprint index, and the
    report whose reuse groups come out of that index. The estimator, the Unicode classes, the digest and
    the metadata checks are parameters. */
module SecurityCenter {
  import opened Wrappers

  type Digest = nat

  datatype MetadataFinding = Expired | ExpiringSoon | InvalidExpiry | InvalidMetadata | Url(status: nat)

  datatype Finding = WeakPassword | ReusedPassword | Unreadable | Metadata(finding: MetadataFinding)

  /** An item as listed: `value` is its decrypted UTF-8 text, `None` when it has none. */
  datatype Item = Item(id: nat, vaultId: nat, title: Option<string>, isPassword: bool, value: Option<string>,
                       metadata: seq<MetadataFinding>)

  datatype VaultScan = Unavailable | Available(name: string, items: seq<Item>)

  datatype SecurityEntry = SecurityEntry(secretId: nat, vaultId: nat, title: string, vaultName: string,
                                         findings: seq<Finding>, reuseGroup: Option<nat>)

  datatype SecurityReport = SecurityReport(entries: seq<SecurityEntry>, vaultsAnalyzed: nat, unavailableVaults: nat,
                                           analyzed: nat, unreadable: nat)
  {
    predicate IsComplete() {
      && unavailableVaults == 0 && unreadable == 0
      && forall e :: e in entries ==>
           Metadata(InvalidExpiry) !in e.findings && Metadata(InvalidMetadata) !in e.findings
    }
  }

  // ---- the weak verdict ------------------------------------------------------------------------------------

  const WEAK_SCORE_THRESHOLD: nat := 3

  datatype Estimator = Estimator(score: string -> nat, upper: char -> bool, lower: char -> bool, alphanumeric: char -> bool)
  {
    function Categories(password: string): nat {
      (if exists c :: c in password && upper(c) then 1 else 0)
      + (if exists c :: c in password && lower(c) then 1 else 0)
      + (if exists c :: c in password && '0' <= c <= '9' then 1 else 0)
      + (if exists c :: c in password && !alphanumeric(c) then 1 else 0)
    }

    function PolicyCap(password: string): nat {
      var categories, len := Categories(password), |password|;
      if len < 12 then 1
      else if len < 14 then (if categories >= 4 then 3 else 2)
      else if len == 14 then (if categories >= 3 then 3 else 2)
      else if categories >= 3 then 4
      else 2
    }

    function Assess(password: string): nat {
      if score(password) <= PolicyCap(password) then score(password) else PolicyCap(password)
    }

    /** Skips the estimator when the cap alone decides. */
    predicate IsWeak(password: string) {
      PolicyCap(password) < WEAK_SCORE_THRESHOLD || Assess(password) < WEAK_SCORE_THRESHOLD
    }
  }

  /** A good score and enough kinds of characters, told from the characters alone: an upper-case letter, a
      lower-case letter, a digit and something not alphanumeric, all four with 12 or 13 characters and all
      but one of them from 14 on. */
  ghost predicate Strong(est: Estimator, password: string) {
    est.score(password) >= 3 && EnoughKinds(est, password)
  }

  ghost predicate EnoughKinds(est: Estimator, password: string) {
    var upper := exists c :: c in password && est.upper(c);
    var lower := exists c :: c in password && est.lower(c);
    var digit := exists c :: c in password && '0' <= c <= '9';
    var other := exists c :: c in password && !est.alphanumeric(c);
    if |password| < 12 then false
    else if |password| < 14 then upper && lower && digit && other
    else
      || (upper && lower && digit) || (upper && lower && other)
      || (upper && digit && other) || (lower && digit && other)
  }

  /** The fast verdict is the full one, and both call weak whatever is not strong. */
  lemma WeakVerdict(est: Estimator, password: string)
    ensures est.IsWeak(password) <==> est.Assess(password) < WEAK_SCORE_THRESHOLD
    ensures est.IsWeak(password) <==> !Strong(est, password)
  {
  }

  /** The score shown is the estimator's, held down to 1 for a short password, to 2 for one of too few
      kinds, and to 3 below 15 characters. */
  lemma AssessIsCapped(est: Estimator, password: string)
    ensures var cap := if |password| < 12 then 1 else if !EnoughKinds(est, password) then 2 else if |password| < 15 then 3 else 4;
      est.Assess(password) == if est.score(password) < cap then est.score(password) else cap
  {
  }

  // ---- what a scan sees --------------------------------------------------------------------------------------

  datatype Scanned = Scanned(vaultName: string, item: Item)

  /** The items of the available vaults, in order. */
  function ScannedItems(vaults: seq<VaultScan>): seq<Scanned> {
    if vaults == [] then []
    else ScannedItems(vaults[..|vaults| - 1]) + VaultItems(vaults[|vaults| - 1])
  }

  function VaultItems(vault: VaultScan): seq<Scanned> {
    match vault
    case Unavailable => []
    case Available(name, items) => seq(|items|, i requires 0 <= i < |items| => Scanned(name, items[i]))
  }

  function CountUnavailable(vaults: seq<VaultScan>): nat {
    if vaults == [] then 0
    else CountUnavailable(vaults[..|vaults| - 1]) + if vaults[|vaults| - 1].Unavailable? then 1 else 0
  }

  function Readable(item: Item): Option<string> {
    if item.isPassword && item.value.Some? && item.value.value != [] then item.value else None
  }

  predicate UnreadablePassword(item: Item) {
    item.isPassword && Readable(item).None?
  }

  function CountUnreadable(scanned: seq<Scanned>): nat {
    if scanned == [] then 0
    else CountUnreadable(scanned[..|scanned| - 1]) + if UnreadablePassword(scanned[|scanned| - 1].item) then 1 else 0
  }

  function Texts(scanned: seq<Scanned>): (r: seq<Option<string>>)
    ensures |r| == |scanned|
  {
    seq(|scanned|, i requires 0 <= i < |scanned| => Readable(scanned[i].item))
  }

  function MetadataFindings(item: Item): seq<Finding> {
    seq(|item.metadata|, i requires 0 <= i < |item.metadata| => Metadata(item.metadata[i]))
  }

  /** The findings of an item by itself, with the weak verdict taken from its own text. */
  function OwnFindings(est: Estimator, item: Item): seq<Finding> {
    MetadataFindings(item)
    + (if UnreadablePassword(item) then [Unreadable]
       else if Readable(item).Some? && est.IsWeak(Readable(item).value) then [WeakPassword]
       else [])
  }

  function EntryOf(est: Estimator, s: Scanned, group: Option<nat>): SecurityEntry {
    SecurityEntry(s.item.id, s.item.vaultId, s.item.title.GetOr(""), s.vaultName,
                  OwnFindings(est, s.item) + (if group.Some? then [ReusedPassword] else []), group)
  }

  // ---- reuse groups, by comparing every pair -------------------------------------------------------------------

  /** Positions of a text, in order. */
  function Positions(texts: seq<Option<string>>, t: string): (r: seq<nat>)
    ensures forall i: nat :: i in r <==> i < |texts| && texts[i] == Some(t)
    ensures forall i, j :: 0 <= i < j < |r| ==> r[i] < r[j]
  {
    if texts == [] then []
    else
      var n := |texts| - 1;
      var before := Positions(texts[..n], t);
      assert forall i :: 0 <= i < |before| ==> before[i] in before;
      before + if texts[n] == Some(t) then [n] else []
  }

  ghost predicate SameText(texts: seq<Option<string>>, i: nat, j: nat) {
    i < |texts| && j < |texts| && texts[i].Some? && texts[i] == texts[j]
  }

  /** The first entry of a text that occurs again later. */
  ghost predicate IsLeader(texts: seq<Option<string>>, i: nat) {
    && (exists j: nat :: j > i && SameText(texts, i, j))
    && !exists j: nat :: j < i && SameText(texts, i, j)
  }

  ghost function Leaders(texts: seq<Option<string>>, n: nat): (r: seq<nat>)
    ensures forall i: nat :: i in r <==> i < n && IsLeader(texts, i)
    ensures forall i, j :: 0 <= i < j < |r| ==> r[i] < r[j]
  {
    if n == 0 then []
    else
      var before := Leaders(texts, n - 1);
      assert forall i :: 0 <= i < |before| ==> before[i] in before;
      before + if IsLeader(texts, n - 1) then [n - 1] else []
  }

  /** The group of an entry: the number of its text among the reused texts, by first occurrence. */
  ghost predicate InGroup(texts: seq<Option<string>>, i: nat, g: nat) {
    && g < |Leaders(texts, |texts|)|
    && SameText(texts, Leaders(texts, |texts|)[g], i)
  }

  ghost predicate GroupIs(texts: seq<Option<string>>, i: nat, group: Option<nat>) {
    match group
    case Some(g) => InGroup(texts, i, g)
    case None => forall g: nat :: !InGroup(texts, i, g)
  }

  /** The report of a scan that nobody cancelled. */
  ghost predicate ReportFor(est: Estimator, vaults: seq<VaultScan>, report: SecurityReport) {
    var scanned := ScannedItems(vaults);
    && |report.entries| == |scanned| == report.analyzed
    && (forall i :: 0 <= i < |scanned| ==>
          && GroupIs(Texts(scanned), i, report.entries[i].reuseGroup)
          && report.entries[i] == EntryOf(est, scanned[i], report.entries[i].reuseGroup))
    && report.unreadable == CountUnreadable(scanned)
    && report.unavailableVaults == CountUnavailable(vaults)
    && report.vaultsAnalyzed + report.unavailableVaults == |vaults|
  }

  // ---- what the groups mean -----------------------------------------------------------------------------------

  lemma FirstOfText(texts: seq<Option<string>>, i: nat) returns (first: nat)
    requires i < |texts| && texts[i].Some?
    ensures first <= i && SameText(texts, first, i)
    ensures forall j: nat :: j < first ==> !SameText(texts, first, j)
    decreases i
  {
    if j: nat :| j < i && SameText(texts, i, j) {
      first := FirstOfText(texts, j);
    } else {
      first := i;
    }
  }

  /** An entry is in some group exactly when its text occurs in another entry too. */
  lemma GroupedIff(texts: seq<Option<string>>, i: nat)
    requires i < |texts|
    ensures (exists g: nat :: InGroup(texts, i, g)) <==> exists j: nat :: j != i && SameText(texts, i, j)
  {
    if g: nat :| InGroup(texts, i, g) {
      var leader := Leaders(texts, |texts|)[g];
      assert leader in Leaders(texts, |texts|);
      var other: nat :| other > leader && SameText(texts, leader, other);
      assert SameText(texts, i, leader) && SameText(texts, i, other);
    }
    if j: nat :| j != i && SameText(texts, i, j) {
      var first := FirstOfText(texts, i);
      var later := if first == i then j else i;
      assert SameText(texts, first, later);
      assert !(later < first);
      assert !exists m: nat :: m < first && SameText(texts, first, m);
      assert IsLeader(texts, first);
      assert first in Leaders(texts, |texts|);
      var g: nat :| g < |Leaders(texts, |texts|)| && Leaders(texts, |texts|)[g] == first;
      assert InGroup(texts, i, g);
    }
  }

  /** Two entries are in the same group exactly when they hold the same readable text twice or more. */
  lemma SameGroupIff(texts: seq<Option<string>>, i: nat, j: nat, gi: Option<nat>, gj: Option<nat>)
    requires i < |texts| && j < |texts| && i != j
    requires GroupIs(texts, i, gi) && GroupIs(texts, j, gj)
    ensures gi.Some? && gi == gj <==> SameText(texts, i, j)
  {
    GroupedIff(texts, i);
    GroupedIff(texts, j);
    var leaders := Leaders(texts, |texts|);
    if SameText(texts, i, j) {
      assert SameText(texts, j, i);
      var a, b := leaders[gi.value], leaders[gj.value];
      assert SameText(texts, a, b) && SameText(texts, b, a);
      assert a in leaders && b in leaders;
      assert a == b;
    }
  }

  /** Groups are numbered from 0 without gaps, in the order of their first entries. */
  lemma GroupsAreNumberedInOrder(texts: seq<Option<string>>, g: nat, h: nat)
    requires g < h < |Leaders(texts, |texts|)|
    ensures var leaders := Leaders(texts, |texts|);
      && leaders[g] < leaders[h] < |texts|
      && InGroup(texts, leaders[g], g) && InGroup(texts, leaders[h], h)
      && (forall i: nat :: InGroup(texts, i, g) ==> leaders[g] <= i)
      && (forall i: nat :: InGroup(texts, i, h) ==> leaders[h] <= i)
  {
    var leaders := Leaders(texts, |texts|);
    assert leaders[g] in leaders && leaders[h] in leaders;
    forall i: nat | InGroup(texts, i, g) ensures leaders[g] <= i {
      assert SameText(texts, leaders[g], i);
    }
    forall i: nat | InGroup(texts, i, h) ensures leaders[h] <= i {
      assert SameText(texts, leaders[h], i);
    }
  }

  // ---- the fingerprint index ------------------------------------------------------------------------------------

  /** Where a text was seen, and its verdict, computed once. */
  datatype Slot = Slot(indices: seq<nat>, weak: bool)

  type Fingerprints = map<Digest, Slot>

  ghost predicate Injective(digest: string -> Digest) {
    forall a, b :: digest(a) == digest(b) ==> a == b
  }

  /** The index holds, for every text seen, its positions and its weak verdict, and nothing else. */
  ghost predicate Indexes(est: Estimator, digest: string -> Digest, fingerprints: Fingerprints, texts: seq<Option<string>>) {
    && (forall d :: d in fingerprints ==> exists i :: 0 <= i < |texts| && texts[i].Some? && digest(texts[i].value) == d)
    && (forall i :: 0 <= i < |texts| && texts[i].Some? ==>
          && digest(texts[i].value) in fingerprints
          && fingerprints[digest(texts[i].value)] == Slot(Positions(texts, texts[i].value), est.IsWeak(texts[i].value)))
  }

  lemma PositionsOneMore(texts: seq<Option<string>>, next: Option<string>, t: string)
    ensures Positions(texts + [next], t) == Positions(texts, t) + if next == Some(t) then [|texts|] else []
  {
    assert (texts + [next])[..|texts|] == texts;
  }

  lemma IndexesUnchanged(est: Estimator, digest: string -> Digest, fingerprints: Fingerprints, texts: seq<Option<string>>)
    requires Indexes(est, digest, fingerprints, texts)
    ensures Indexes(est, digest, fingerprints, texts + [None])
  {
    var more := texts + [None];
    forall i | 0 <= i < |more| && more[i].Some?
      ensures digest(more[i].value) in fingerprints
      ensures fingerprints[digest(more[i].value)] == Slot(Positions(more, more[i].value), est.IsWeak(more[i].value))
    {
      assert more[i] == texts[i];
      PositionsOneMore(texts, None, more[i].value);
    }
    forall d | d in fingerprints
      ensures exists i :: 0 <= i < |more| && more[i].Some? && digest(more[i].value) == d
    {
      var i :| 0 <= i < |texts| && texts[i].Some? && digest(texts[i].value) == d;
      assert more[i] == texts[i];
    }
  }

  /** The slot of a text, seen or not. */
  lemma SlotOf(est: Estimator, digest: string -> Digest, fingerprints: Fingerprints, texts: seq<Option<string>>, t: string)
    requires Injective(digest) && Indexes(est, digest, fingerprints, texts)
    ensures digest(t) in fingerprints ==> fingerprints[digest(t)] == Slot(Positions(texts, t), est.IsWeak(t))
    ensures digest(t) !in fingerprints ==> Positions(texts, t) == []
  {
    hide Positions;
    if digest(t) in fingerprints {
      var i :| 0 <= i < |texts| && texts[i].Some? && digest(texts[i].value) == digest(t);
      assert texts[i] == Some(t);
    } else if Positions(texts, t) != [] {
      assert Positions(texts, t)[0] in Positions(texts, t);
    }
  }

  lemma IndexesUpdated(est: Estimator, digest: string -> Digest, fingerprints: Fingerprints, texts: seq<Option<string>>,
                       t: string, after: Fingerprints)
    requires Injective(digest) && Indexes(est, digest, fingerprints, texts)
    requires var known := digest(t) in fingerprints;
      after == fingerprints[digest(t) :=
        if known then fingerprints[digest(t)].(indices := fingerprints[digest(t)].indices + [|texts|])
        else Slot([|texts|], est.IsWeak(t))]
    ensures Indexes(est, digest, after, texts + [Some(t)])
    ensures after[digest(t)].weak == est.IsWeak(t)
  {
    hide Positions;
    var more := texts + [Some(t)];
    SlotOf(est, digest, fingerprints, texts, t);
    PositionsOneMore(texts, Some(t), t);
    forall i | 0 <= i < |more| && more[i].Some?
      ensures digest(more[i].value) in after
      ensures after[digest(more[i].value)] == Slot(Positions(more, more[i].value), est.IsWeak(more[i].value))
    {
      PositionsOneMore(texts, Some(t), more[i].value);
      assert i < |texts| ==> more[i] == texts[i];
    }
    forall d | d in after
      ensures exists i :: 0 <= i < |more| && more[i].Some? && digest(more[i].value) == d
    {
      if d == digest(t) {
        assert more[|texts|] == Some(t);
      } else {
        var i :| 0 <= i < |texts| && texts[i].Some? && digest(texts[i].value) == d;
        assert more[i] == texts[i];
      }
    }
  }

  // ---- the scan ----------------------------------------------------------------------------------------------------

  /** The cancel flag as read at each check, and the progress other threads may read. */
  class ScanControl {
    const signals: nat -> bool
    var checks: nat
    var processed: nat

    constructor (signals: nat -> bool)
      ensures this.signals == signals && checks == 0 && processed == 0
    {
      this.signals := signals;
      checks, processed := 0, 0;
    }

    method Check() returns (r: Result<()>)
      modifies this`checks
      ensures checks == old(checks) + 1
      ensures r == if signals(old(checks)) then Err(Cancelled) else Ok(())
      ensures if r.Ok? then Clear(signals, old(checks), checks) else CancelledAt(signals, old(checks), checks)
    {
      var cancelled := signals(checks);
      checks := checks + 1;
      r := if cancelled then Err(Cancelled) else Ok(());
    }
  }

  /** The flag was not set at any of these looks. */
  ghost predicate Clear(signals: nat -> bool, start: nat, end: nat) {
    forall n :: start <= n < end ==> !signals(n)
  }

  /** The last of these looks found the flag set, and no earlier one did. */
  ghost predicate CancelledAt(signals: nat -> bool, start: nat, end: nat) {
    start < end && signals(end - 1) && Clear(signals, start, end - 1)
  }

  lemma ClearGoesOn(signals: nat -> bool, start: nat, mid: nat, end: nat)
    requires start <= mid <= end && Clear(signals, start, mid)
    ensures Clear(signals, mid, end) ==> Clear(signals, start, end)
    ensures CancelledAt(signals, mid, end) ==> CancelledAt(signals, start, end)
  {
  }

  lemma ClearSoFar(signals: nat -> bool, start: nat)
    ensures Clear(signals, start, start)
  {
  }

  /** Report and index after the first pass has seen `scanned`; no group is numbered yet. */
  ghost predicate Collected(est: Estimator, digest: string -> Digest, scanned: seq<Scanned>, report: SecurityReport,
                            fingerprints: Fingerprints)
  {
    && |report.entries| == |scanned| == report.analyzed
    && (forall i :: 0 <= i < |scanned| ==> report.entries[i] == EntryOf(est, scanned[i], None))
    && report.unreadable == CountUnreadable(scanned)
    && Indexes(est, digest, fingerprints, Texts(scanned))
  }

  /** One item: its own findings, the weak verdict from the index when the text is known already. */
  method Visit(est: Estimator, digest: string -> Digest, name: string, item: Item, report: SecurityReport,
               fingerprints: Fingerprints, ghost scanned: seq<Scanned>)
    returns (after: SecurityReport, index: Fingerprints)
    requires Injective(digest) && Collected(est, digest, scanned, report, fingerprints)
    ensures Collected(est, digest, scanned + [Scanned(name, item)], after, index)
    ensures after.analyzed == report.analyzed + 1
    ensures after.vaultsAnalyzed == report.vaultsAnalyzed && after.unavailableVaults == report.unavailableVaults
  {
    hide Indexes, Estimator.IsWeak;
    var findings := MetadataFindings(item);
    var unreadable := report.unreadable;
    index := fingerprints;
    ghost var texts := Texts(scanned);
    if item.isPassword {
      if item.value.Some? && item.value.value != [] {
        var text := item.value.value;
        var slot := if digest(text) in index then index[digest(text)] else Slot([], est.IsWeak(text));
        if slot.weak {
          findings := findings + [WeakPassword];
        }
        index := index[digest(text) := slot.(indices := slot.indices + [|report.entries|])];
        assert [] + [|texts|] == [|texts|];
        IndexesUpdated(est, digest, fingerprints, texts, text, index);
      } else {
        findings := findings + [Unreadable];
        unreadable := unreadable + 1;
        IndexesUnchanged(est, digest, fingerprints, texts);
      }
    } else {
      IndexesUnchanged(est, digest, fingerprints, texts);
    }
    var entry := SecurityEntry(item.id, item.vaultId, item.title.GetOr(""), name, findings, None);
    after := report.(entries := report.entries + [entry], analyzed := report.analyzed + 1, unreadable := unreadable);
    ghost var more := scanned + [Scanned(name, item)];
    assert Texts(more) == texts + [Readable(item)];
    assert more[..|scanned|] == scanned;
    assert entry == EntryOf(est, more[|scanned|], None);
  }

  /** The inner loop. */
  method ScanVault(est: Estimator, digest: string -> Digest, name: string, items: seq<Item>, control: ScanControl,
                   before: SecurityReport, index: Fingerprints, ghost scanned: seq<Scanned>)
    returns (r: Result<()>, report: SecurityReport, fingerprints: Fingerprints)
    requires Injective(digest) && Collected(est, digest, scanned, before, index)
    requires before.analyzed > 0 ==> control.processed == before.analyzed
    modifies control
    ensures old(control.checks) <= control.checks
    ensures r.Ok? ==> Clear(control.signals, old(control.checks), control.checks)
    ensures r.Err? ==> r.error == Cancelled && CancelledAt(control.signals, old(control.checks), control.checks)
    ensures r.Ok? ==>
      && control.checks - old(control.checks) == |items| == report.analyzed - before.analyzed
      && Collected(est, digest, scanned + VaultItems(Available(name, items)), report, fingerprints)
      && report.unavailableVaults == before.unavailableVaults && report.vaultsAnalyzed == before.vaultsAnalyzed
      && (report.analyzed > 0 ==> control.processed == report.analyzed)
  {
    hide Collected, Clear, CancelledAt;
    report, fingerprints := before, index;
    ghost var start := control.checks;
    ClearSoFar(control.signals, start);
    ghost var own := VaultItems(Available(name, items));
    assert scanned + own[..0] == scanned;
    for k := 0 to |items|
      invariant Collected(est, digest, scanned + own[..k], report, fingerprints)
      invariant report.unavailableVaults == before.unavailableVaults && report.vaultsAnalyzed == before.vaultsAnalyzed
      invariant report.analyzed > 0 ==> control.processed == report.analyzed
      invariant control.checks == start + k && report.analyzed == before.analyzed + k
      invariant Clear(control.signals, start, control.checks)
    {
      ghost var mid := control.checks;
      r := control.Check();
      ClearGoesOn(control.signals, start, mid, control.checks);
      if r.Err? {
        return;
      }
      report, fingerprints := Visit(est, digest, name, items[k], report, fingerprints, scanned + own[..k]);
      assert scanned + own[..k + 1] == scanned + own[..k] + [Scanned(name, items[k])];
      control.processed := report.analyzed;
    }
    assert own[..|items|] == own;
    r := Ok(());
  }

  lemma OneMoreVault(vaults: seq<VaultScan>, v: nat)
    requires v < |vaults|
    ensures ScannedItems(vaults[..v + 1]) == ScannedItems(vaults[..v]) + VaultItems(vaults[v])
    ensures CountUnavailable(vaults[..v + 1]) == CountUnavailable(vaults[..v]) + if vaults[v].Unavailable? then 1 else 0
  {
    assert vaults[..v + 1][..v] == vaults[..v];
  }

  lemma CountersAside(est: Estimator, digest: string -> Digest, scanned: seq<Scanned>, report: SecurityReport,
                      fingerprints: Fingerprints)
    requires Collected(est, digest, scanned, report, fingerprints)
    ensures Collected(est, digest, scanned, report.(vaultsAnalyzed := report.vaultsAnalyzed + 1), fingerprints)
    ensures Collected(est, digest, scanned + VaultItems(Unavailable),
                      report.(unavailableVaults := report.unavailableVaults + 1), fingerprints)
  {
    hide Indexes, EntryOf, Texts;
    assert scanned + VaultItems(Unavailable) == scanned;
  }

  /** One turn of the outer loop. */
  method ScanNext(est: Estimator, digest: string -> Digest, vault: VaultScan, control: ScanControl,
                  before: SecurityReport, index: Fingerprints, ghost scanned: seq<Scanned>)
    returns (r: Result<()>, report: SecurityReport, fingerprints: Fingerprints)
    requires Injective(digest) && Collected(est, digest, scanned, before, index)
    requires before.analyzed > 0 ==> control.processed == before.analyzed
    modifies control
    ensures old(control.checks) <= control.checks
    ensures r.Ok? ==> Clear(control.signals, old(control.checks), control.checks)
    ensures r.Err? ==> r.error == Cancelled && CancelledAt(control.signals, old(control.checks), control.checks)
    ensures r.Ok? ==>
      && Collected(est, digest, scanned + VaultItems(vault), report, fingerprints)
      && report.unavailableVaults == before.unavailableVaults + (if vault.Unavailable? then 1 else 0)
      && report.vaultsAnalyzed == before.vaultsAnalyzed + (if vault.Unavailable? then 0 else 1)
      && (report.analyzed > 0 ==> control.processed == report.analyzed)
      && control.checks - old(control.checks) == 1 + report.analyzed - before.analyzed
  {
    CountersAside(est, digest, scanned, before, index);
    hide Collected, Injective, Clear, CancelledAt;
    ghost var start := control.checks;
    report, fingerprints := before, index;
    r := control.Check();
    if r.Err? {
      return;
    }
    match vault {
      case Unavailable =>
        report := report.(unavailableVaults := report.unavailableVaults + 1);
      case Available(name, items) =>
        report := report.(vaultsAnalyzed := report.vaultsAnalyzed + 1);
        ghost var mid := control.checks;
        r, report, fingerprints := ScanVault(est, digest, name, items, control, report, fingerprints, scanned);
        ClearGoesOn(control.signals, start, mid, control.checks);
    }
  }

  method Collect(est: Estimator, digest: string -> Digest, vaults: seq<VaultScan>, control: ScanControl)
    returns (r: Result<()>, report: SecurityReport, fingerprints: Fingerprints)
    requires Injective(digest)
    modifies control
    ensures old(control.checks) <= control.checks
    ensures r.Ok? ==> Clear(control.signals, old(control.checks), control.checks)
    ensures r.Err? ==> r.error == Cancelled && CancelledAt(control.signals, old(control.checks), control.checks)
    ensures r.Ok? ==>
      && Collected(est, digest, ScannedItems(vaults), report, fingerprints)
      && report.unavailableVaults == CountUnavailable(vaults)
      && report.vaultsAnalyzed + report.unavailableVaults == |vaults|
      && (report.analyzed > 0 ==> control.processed == report.analyzed)
      && control.checks == old(control.checks) + |vaults| + report.analyzed
  {
    report := SecurityReport([], 0, 0, 0, 0);
    fingerprints := map[];
    NothingIndexed(est, digest);
    assert vaults[..0] == [];
    hide Collected, Injective, ScannedItems, CountUnavailable, VaultItems, Clear, CancelledAt;
    ghost var start := control.checks;
    ClearSoFar(control.signals, start);
    for v := 0 to |vaults|
      invariant Collected(est, digest, ScannedItems(vaults[..v]), report, fingerprints)
      invariant report.unavailableVaults == CountUnavailable(vaults[..v])
      invariant report.vaultsAnalyzed + report.unavailableVaults == v
      invariant report.analyzed > 0 ==> control.processed == report.analyzed
      invariant Clear(control.signals, start, control.checks)
      invariant control.checks == start + v + report.analyzed
    {
      OneMoreVault(vaults, v);
      ghost var mid := control.checks;
      r, report, fingerprints := ScanNext(est, digest, vaults[v], control, report, fingerprints, ScannedItems(vaults[..v]));
      ClearGoesOn(control.signals, start, mid, control.checks);
      if r.Err? {
        return;
      }
    }
    assert vaults[..|vaults|] == vaults;
    r := Ok(());
  }

  lemma NothingIndexed(est: Estimator, digest: string -> Digest)
    ensures Collected(est, digest, ScannedItems([]), SecurityReport([], 0, 0, 0, 0), map[])
    ensures CountUnavailable([]) == 0
  {
  }

  // ---- numbering the groups ------------------------------------------------------------------------------------------

  ghost predicate IsGroup(texts: seq<Option<string>>, group: seq<nat>) {
    |group| > 1 && group[0] < |texts| && texts[group[0]].Some? && group == Positions(texts, texts[group[0]].value)
  }

  /** Every reused text once, in any order. */
  ghost predicate AreGroups(texts: seq<Option<string>>, groups: seq<seq<nat>>) {
    && (forall group :: group in groups ==> IsGroup(texts, group))
    && (forall i: nat :: IsLeader(texts, i) ==> exists group :: group in groups && IsGroup(texts, group) && group[0] == i)
    && (forall g, h :: 0 <= g < h < |groups| ==> groups[g] != groups[h])
  }

  lemma GroupStartsAtLeader(texts: seq<Option<string>>, group: seq<nat>)
    requires IsGroup(texts, group)
    ensures IsLeader(texts, group[0])
    ensures forall i: nat :: i in group <==> SameText(texts, group[0], i)
  {
    assert group[1] in group && group[0] in group;
    assert SameText(texts, group[0], group[1]);
    forall j: nat | SameText(texts, group[0], j) ensures group[0] <= j {
      assert j in group;
      var k: nat :| k < |group| && group[k] == j;
    }
  }

  lemma LeaderHasGroup(texts: seq<Option<string>>, i: nat)
    requires IsLeader(texts, i)
    ensures texts[i].Some? && IsGroup(texts, Positions(texts, texts[i].value)) && Positions(texts, texts[i].value)[0] == i
  {
    var positions := Positions(texts, texts[i].value);
    var j: nat :| j > i && SameText(texts, i, j);
    assert i in positions && j in positions;
    assert positions[0] in positions;
    assert SameText(texts, i, positions[0]);
    var k: nat :| k < |positions| && positions[k] == i;
  }

  /** `fingerprints.values()` in whatever order, without the texts that occur once. */
  method ReusedGroups(est: Estimator, digest: string -> Digest, fingerprints: Fingerprints, ghost texts: seq<Option<string>>)
    returns (groups: seq<seq<nat>>)
    requires Injective(digest) && Indexes(est, digest, fingerprints, texts)
    ensures AreGroups(texts, groups)
  {
    hide Indexes, AreGroups;
    groups := [];
    var left := fingerprints.Keys;
    while left != {}
      invariant left <= fingerprints.Keys
      invariant forall d :: d in fingerprints && d !in left && |fingerprints[d].indices| > 1 ==>
        fingerprints[d].indices in groups
      invariant forall group :: group in groups ==>
        exists d :: d in fingerprints && d !in left && fingerprints[d].indices == group && |group| > 1
      invariant forall g, h :: 0 <= g < h < |groups| ==> groups[g] != groups[h]
      decreases |left|
    {
      var d :| d in left;
      if |fingerprints[d].indices| > 1 {
        forall g | 0 <= g < |groups| ensures groups[g] != fingerprints[d].indices {
          assert groups[g] in groups;
          var e :| e in fingerprints && e !in left && fingerprints[e].indices == groups[g];
          SlotsDiffer(est, digest, fingerprints, texts, d, e);
        }
        groups := groups + [fingerprints[d].indices];
      }
      left := left - {d};
    }
    IndexedGroups(est, digest, fingerprints, texts, groups);
  }

  lemma SlotsDiffer(est: Estimator, digest: string -> Digest, fingerprints: Fingerprints, texts: seq<Option<string>>,
                    d: Digest, e: Digest)
    requires Indexes(est, digest, fingerprints, texts) && d in fingerprints && e in fingerprints && d != e
    requires |fingerprints[d].indices| > 1
    ensures fingerprints[d].indices != fingerprints[e].indices
  {
    var i: nat :| i < |texts| && texts[i].Some? && digest(texts[i].value) == d;
    var j: nat :| j < |texts| && texts[j].Some? && digest(texts[j].value) == e;
    assert i in fingerprints[d].indices;
    assert i !in fingerprints[e].indices;
  }

  lemma IndexedGroups(est: Estimator, digest: string -> Digest, fingerprints: Fingerprints, texts: seq<Option<string>>,
                      groups: seq<seq<nat>>)
    requires Indexes(est, digest, fingerprints, texts)
    requires forall d :: d in fingerprints && |fingerprints[d].indices| > 1 ==> fingerprints[d].indices in groups
    requires forall group :: group in groups ==> exists d :: d in fingerprints && fingerprints[d].indices == group && |group| > 1
    requires forall g, h :: 0 <= g < h < |groups| ==> groups[g] != groups[h]
    ensures AreGroups(texts, groups)
  {
    forall group | group in groups ensures IsGroup(texts, group) {
      var d :| d in fingerprints && fingerprints[d].indices == group && |group| > 1;
      var i: nat :| i < |texts| && texts[i].Some? && digest(texts[i].value) == d;
      assert group[0] in group;
      assert texts[group[0]] == texts[i];
    }
    forall i: nat | IsLeader(texts, i)
      ensures exists group :: group in groups && IsGroup(texts, group) && group[0] == i
    {
      LeaderHasGroup(texts, i);
      assert fingerprints[digest(texts[i].value)].indices in groups;
    }
  }

  function First(group: seq<nat>): nat {
    if group == [] then 0 else group[0]
  }

  ghost predicate SortedByFirst(groups: seq<seq<nat>>) {
    forall g, h :: 0 <= g < h < |groups| ==> First(groups[g]) < First(groups[h])
  }

  /** `sort_by_key` on the first index; groups have different first indexes. */
  method SortByFirst(groups: seq<seq<nat>>, ghost texts: seq<Option<string>>) returns (sorted: seq<seq<nat>>)
    requires AreGroups(texts, groups)
    ensures AreGroups(texts, sorted) && SortedByFirst(sorted)
  {
    hide IsGroup, IsLeader;
    sorted := [];
    for k := 0 to |groups|
      invariant SortedByFirst(sorted)
      invariant forall group :: group in sorted <==> group in groups[..k]
    {
      var next := groups[k];
      var at := 0;
      while at < |sorted| && First(sorted[at]) < First(next)
        invariant 0 <= at <= |sorted|
        invariant forall g :: 0 <= g < at ==> First(sorted[g]) < First(next)
      {
        at := at + 1;
      }
      if at < |sorted| {
        assert sorted[at] in groups[..k];
        var g :| 0 <= g < k && groups[g] == sorted[at];
        HeadsDiffer(texts, groups, g, k);
      }
      InsertedInOrder(sorted, at, next);
      sorted := sorted[..at] + [next] + sorted[at..];
      assert groups[..k + 1] == groups[..k] + [next];
    }
    assert groups[..|groups|] == groups;
    StillGroups(texts, groups, sorted);
  }

  lemma StillGroups(texts: seq<Option<string>>, groups: seq<seq<nat>>, sorted: seq<seq<nat>>)
    requires AreGroups(texts, groups) && SortedByFirst(sorted)
    requires forall group :: group in sorted <==> group in groups
    ensures AreGroups(texts, sorted)
  {
    hide IsGroup, IsLeader, First;
  }

  lemma HeadsDiffer(texts: seq<Option<string>>, groups: seq<seq<nat>>, g: nat, h: nat)
    requires AreGroups(texts, groups) && g < h < |groups|
    ensures First(groups[g]) != First(groups[h])
  {
    hide IsLeader;
    assert groups[g] in groups && groups[h] in groups;
    assert IsGroup(texts, groups[g]) && IsGroup(texts, groups[h]);
  }

  lemma InsertedInOrder(sorted: seq<seq<nat>>, at: nat, next: seq<nat>)
    requires SortedByFirst(sorted) && at <= |sorted|
    requires forall g :: 0 <= g < at ==> First(sorted[g]) < First(next)
    requires at < |sorted| ==> First(next) < First(sorted[at])
    ensures var after := sorted[..at] + [next] + sorted[at..];
      SortedByFirst(after) && forall group :: group in after <==> group in sorted || group == next
  {
    hide First;
    assert sorted == sorted[..at] + sorted[at..];
  }

  /** In sorted order the groups are the leaders' groups, one by one. */
  lemma SortedGroupsFollowLeaders(texts: seq<Option<string>>, groups: seq<seq<nat>>)
    requires AreGroups(texts, groups) && SortedByFirst(groups)
    ensures |groups| == |Leaders(texts, |texts|)|
    ensures forall g :: 0 <= g < |groups| ==> First(groups[g]) == Leaders(texts, |texts|)[g]
  {
    assert forall g :: 0 <= g < |groups| ==> groups[g] in groups;
    var heads := seq(|groups|, g requires 0 <= g < |groups| => First(groups[g]));
    var leaders := Leaders(texts, |texts|);
    forall i: nat | i in heads ensures i in leaders {
      var g :| 0 <= g < |heads| && heads[g] == i;
      GroupStartsAtLeader(texts, groups[g]);
    }
    forall i: nat | i in leaders ensures i in heads {
      var group :| group in groups && IsGroup(texts, group) && group[0] == i;
      var g :| 0 <= g < |groups| && groups[g] == group;
      assert heads[g] == i;
    }
    IncreasingIsUnique(heads, leaders);
  }

  lemma FirstIn(s: seq<nat>)
    requires s != []
    ensures s[0] in s
  {
  }

  lemma {:induction false} IncreasingIsUnique(a: seq<nat>, b: seq<nat>)
    requires forall i, j :: 0 <= i < j < |a| ==> a[i] < a[j]
    requires forall i, j :: 0 <= i < j < |b| ==> b[i] < b[j]
    requires forall x: nat :: x in a <==> x in b
    ensures a == b
  {
    if a == [] {
      if b != [] {
        FirstIn(b);
        assert false;
      }
    } else {
      assert a[|a| - 1] in a;
      assert b[|b| - 1] in b;
      var la, lb := |a| - 1, |b| - 1;
      var i: nat :| i < |b| && b[i] == a[la];
      var j: nat :| j < |a| && a[j] == b[lb];
      assert a[la] == b[lb];
      forall x: nat ensures x in a[..la] <==> x in b[..lb] {
        InPrefix(a, x);
        InPrefix(b, x);
      }
      IncreasingIsUnique(a[..la], b[..lb]);
      assert a == a[..la] + [a[la]] && b == b[..lb] + [b[lb]];
    }
  }

  lemma InPrefix(a: seq<nat>, x: nat)
    requires a != [] && forall i, j :: 0 <= i < j < |a| ==> a[i] < a[j]
    ensures x in a[..|a| - 1] <==> x in a && x != a[|a| - 1]
  {
    assert a == a[..|a| - 1] + [a[|a| - 1]];
  }

  function Grouped(e: SecurityEntry, g: nat): SecurityEntry {
    e.(findings := e.findings + [ReusedPassword], reuseGroup := Some(g))
  }

  /** The entries of the first `g` groups, and of the first `k` indexes of the next, carry their number. */
  ghost predicate AssignedUpTo(base: seq<SecurityEntry>, entries: seq<SecurityEntry>, groups: seq<seq<nat>>, g: nat, k: nat)
    requires g <= |groups| && (g < |groups| ==> k <= |groups[g]|)
  {
    && |entries| == |base|
    && (forall h, i: nat :: 0 <= h < g && i in groups[h] && i < |base| ==> entries[i] == Grouped(base[i], h))
    && (g < |groups| ==> forall i: nat :: i in groups[g][..k] && i < |base| ==> entries[i] == Grouped(base[i], g))
    && (forall i: nat | i < |base| && (forall h :: 0 <= h < g ==> i !in groups[h]) && (g < |groups| ==> i !in groups[g][..k]) ::
          entries[i] == base[i])
  }

  ghost predicate Disjoint(groups: seq<seq<nat>>) {
    && (forall g, h, i :: 0 <= g < h < |groups| && i in groups[g] ==> i !in groups[h])
    && (forall g, i, j :: 0 <= g < |groups| && 0 <= i < j < |groups[g]| ==> groups[g][i] != groups[g][j])
  }

  method AssignGroups(base: seq<SecurityEntry>, groups: seq<seq<nat>>) returns (entries: seq<SecurityEntry>)
    requires Disjoint(groups) && forall g, i :: 0 <= g < |groups| && i in groups[g] ==> i < |base|
    ensures AssignedUpTo(base, entries, groups, |groups|, 0)
  {
    entries := base;
    for g := 0 to |groups|
      invariant AssignedUpTo(base, entries, groups, g, 0)
    {
      for k := 0 to |groups[g]|
        invariant AssignedUpTo(base, entries, groups, g, k)
      {
        var index := groups[g][k];
        OneMoreAssigned(base, entries, groups, g, k);
        entries := entries[index := entries[index].(findings := entries[index].findings + [ReusedPassword],
                                                    reuseGroup := Some(g))];
      }
      NextGroup(base, entries, groups, g);
    }
  }

  lemma OneMoreAssigned(base: seq<SecurityEntry>, entries: seq<SecurityEntry>, groups: seq<seq<nat>>, g: nat, k: nat)
    requires Disjoint(groups) && forall g, i :: 0 <= g < |groups| && i in groups[g] ==> i < |base|
    requires g < |groups| && k < |groups[g]| && AssignedUpTo(base, entries, groups, g, k)
    ensures groups[g][k] < |base| && entries[groups[g][k]] == base[groups[g][k]]
    ensures AssignedUpTo(base, entries[groups[g][k] := Grouped(base[groups[g][k]], g)], groups, g, k + 1)
  {
    var index := groups[g][k];
    assert index in groups[g];
    assert groups[g][..k + 1] == groups[g][..k] + [index];
    assert index !in groups[g][..k];
    assert forall h :: 0 <= h < g ==> index !in groups[h];
  }

  lemma NextGroup(base: seq<SecurityEntry>, entries: seq<SecurityEntry>, groups: seq<seq<nat>>, g: nat)
    requires g < |groups| && AssignedUpTo(base, entries, groups, g, |groups[g]|)
    ensures AssignedUpTo(base, entries, groups, g + 1, 0)
  {
    assert groups[g][..|groups[g]|] == groups[g];
  }

  lemma GroupsAreDisjoint(texts: seq<Option<string>>, groups: seq<seq<nat>>)
    requires AreGroups(texts, groups)
    ensures Disjoint(groups) && forall g, i :: 0 <= g < |groups| && i in groups[g] ==> i < |texts|
  {
    hide IsLeader;
    forall g, h, i | 0 <= g < h < |groups| && i in groups[g] ensures i !in groups[h] {
      assert groups[g] in groups && groups[h] in groups;
      assert IsGroup(texts, groups[g]) && IsGroup(texts, groups[h]);
    }
    forall g | 0 <= g < |groups| ensures IsGroup(texts, groups[g]) {
      assert groups[g] in groups;
    }
  }

  /** After the assignment each entry carries the group that comparing every pair gives it. */
  lemma AssignedIsGrouping(est: Estimator, scanned: seq<Scanned>, base: seq<SecurityEntry>, entries: seq<SecurityEntry>,
                           groups: seq<seq<nat>>, i: nat)
    requires i < |scanned| == |base|
    requires base[i] == EntryOf(est, scanned[i], None)
    requires AreGroups(Texts(scanned), groups) && SortedByFirst(groups)
    requires AssignedUpTo(base, entries, groups, |groups|, 0)
    ensures |entries| == |scanned|
    ensures GroupIs(Texts(scanned), i, entries[i].reuseGroup)
    ensures entries[i] == EntryOf(est, scanned[i], entries[i].reuseGroup)
  {
    var texts := Texts(scanned);
    SortedGroupsFollowLeaders(texts, groups);
    MembersOfGroups(texts, groups, i);
    hide IsGroup, IsLeader, SortedByFirst, AreGroups, OwnFindings;
    if g: nat :| g < |groups| && i in groups[g] {
      assert entries[i] == Grouped(base[i], g);
    } else {
      assert entries[i] == base[i];
    }
  }

  lemma MembersOfGroups(texts: seq<Option<string>>, groups: seq<seq<nat>>, i: nat)
    requires AreGroups(texts, groups) && SortedByFirst(groups) && |groups| == |Leaders(texts, |texts|)|
    requires forall g :: 0 <= g < |groups| ==> First(groups[g]) == Leaders(texts, |texts|)[g]
    ensures forall g: nat :: InGroup(texts, i, g) <==> g < |groups| && i in groups[g]
  {
    hide Leaders, IsLeader;
    forall g: nat ensures InGroup(texts, i, g) <==> g < |groups| && i in groups[g] {
      if g < |groups| {
        assert groups[g] in groups;
        GroupStartsAtLeader(texts, groups[g]);
      }
    }
  }

  /** A scan ends in the report that its vaults call for, whatever the order of the index; only a failed
      listing or a cancellation stops it, and a cancellation does so the next time the flag is looked at:
      at the start, for each vault, for each item and at the end. */
  method Analyze(est: Estimator, digest: string -> Digest, listed: Result<seq<VaultScan>>, control: ScanControl)
    returns (r: Result<SecurityReport>)
    requires Injective(digest)
    modifies control
    ensures r.Ok? ==>
      && listed.Ok? && ReportFor(est, listed.value, r.value)
      && (r.value.analyzed > 0 ==> control.processed == r.value.analyzed)
    ensures r.Ok? ==> control.checks == old(control.checks) + 2 + |listed.value| + r.value.analyzed
    ensures r.Ok? ==> Clear(control.signals, old(control.checks), control.checks)
    ensures r.Err? ==>
      || (r.error == Cancelled && CancelledAt(control.signals, old(control.checks), control.checks))
      || (listed.Err? && r.error == listed.error && !control.signals(old(control.checks)))
  {
    hide Indexes, AreGroups, Clear, CancelledAt, IsGroup, IsLeader;
    ghost var start := control.checks;
    var _ :- control.Check();
    ghost var mid := control.checks;
    var vaults :- listed;
    var collected, report, fingerprints := Collect(est, digest, vaults, control);
    ClearGoesOn(control.signals, start, mid, control.checks);
    if collected.Err? {
      return Err(collected.error);
    }
    mid := control.checks;
    var last := control.Check();
    ClearGoesOn(control.signals, start, mid, control.checks);
    if last.Err? {
      return Err(last.error);
    }
    ghost var scanned := ScannedItems(vaults);
    ghost var texts := Texts(scanned);
    var found := ReusedGroups(est, digest, fingerprints, texts);
    var groups := SortByFirst(found, texts);
    GroupsAreDisjoint(texts, groups);
    var entries := AssignGroups(report.entries, groups);
    forall i | 0 <= i < |scanned|
      ensures |entries| == |scanned| && GroupIs(texts, i, entries[i].reuseGroup)
      ensures entries[i] == EntryOf(est, scanned[i], entries[i].reuseGroup)
    {
      AssignedIsGrouping(est, scanned, report.entries, entries, groups, i);
    }
    r := Ok(report.(entries := entries));
  }

  /** The report is fixed by the vaults alone: no iteration order of the index shows in it. */
  lemma ReportIsDetermined(est: Estimator, vaults: seq<VaultScan>, a: SecurityReport, b: SecurityReport)
    requires ReportFor(est, vaults, a) && ReportFor(est, vaults, b)
    ensures a == b
  {
    var texts := Texts(ScannedItems(vaults));
    forall i | 0 <= i < |texts| ensures a.entries[i] == b.entries[i] {
      OneGroup(texts, i, a.entries[i].reuseGroup, b.entries[i].reuseGroup);
    }
  }

  lemma OneGroup(texts: seq<Option<string>>, i: nat, g: Option<nat>, h: Option<nat>)
    requires i < |texts| && GroupIs(texts, i, g) && GroupIs(texts, i, h)
    ensures g == h
  {
    if g.Some? && h.Some? {
      var leaders := Leaders(texts, |texts|);
      var a, b := leaders[g.value], leaders[h.value];
      assert a in leaders && b in leaders;
      assert SameText(texts, a, b) && SameText(texts, b, a);
    }
  }

  /** What an entry shows of its item, and that it is marked as reused exactly when its text occurs again. */
  lemma EntryTells(est: Estimator, vaults: seq<VaultScan>, report: SecurityReport, i: nat)
    requires ReportFor(est, vaults, report) && i < |report.entries|
    ensures i < |ScannedItems(vaults)|
    ensures var e, x := report.entries[i], ScannedItems(vaults)[i];
      && e.secretId == x.item.id && e.vaultId == x.item.vaultId && e.vaultName == x.vaultName
      && e.title == (match x.item.title case Some(title) => title case None => "")
      && (ReusedPassword in e.findings <==> exists j: nat :: j != i && SameText(Texts(ScannedItems(vaults)), i, j))
  {
    var texts := Texts(ScannedItems(vaults));
    GroupedIff(texts, i);
    hide InGroup, Texts, ScannedItems;
    assert ReusedPassword in report.entries[i].findings <==> report.entries[i].reuseGroup.Some? by {
      MarkedIffGrouped(est, ScannedItems(vaults)[i], report.entries[i].reuseGroup);
    }
  }

  lemma MarkedIffGrouped(est: Estimator, x: Scanned, group: Option<nat>)
    ensures ReusedPassword in EntryOf(est, x, group).findings <==> group.Some?
  {
    hide Estimator.IsWeak;
    if group.Some? {
      assert EntryOf(est, x, group).findings == OwnFindings(est, x.item) + [ReusedPassword];
    }
  }

  /** The counters of a report are told from its entries and its vaults. */
  lemma CountersTell(est: Estimator, vaults: seq<VaultScan>, report: SecurityReport)
    requires ReportFor(est, vaults, report)
    ensures report.analyzed == |report.entries|
    ensures report.unreadable == |set i | 0 <= i < |report.entries| && Unreadable in report.entries[i].findings|
    ensures report.unavailableVaults == |set v | 0 <= v < |vaults| && vaults[v].Unavailable?|
    ensures report.vaultsAnalyzed + report.unavailableVaults == |vaults|
  {
    var scanned := ScannedItems(vaults);
    UnreadableCount(scanned);
    UnavailableCount(vaults);
    hide OwnFindings, ScannedItems, CountUnreadable, CountUnavailable, GroupIs, UnreadablePassword;
    forall i | 0 <= i < |scanned|
      ensures Unreadable in report.entries[i].findings <==> UnreadablePassword(scanned[i].item)
    {
      UnreadableMark(est, scanned[i], report.entries[i].reuseGroup);
    }
    assert (set i | 0 <= i < |report.entries| && Unreadable in report.entries[i].findings)
      == set i | 0 <= i < |scanned| && UnreadablePassword(scanned[i].item);
  }

  lemma UnreadableMark(est: Estimator, x: Scanned, group: Option<nat>)
    ensures Unreadable in EntryOf(est, x, group).findings <==> UnreadablePassword(x.item)
  {
    hide Estimator.IsWeak;
  }

  lemma {:induction false} UnreadableCount(scanned: seq<Scanned>)
    ensures CountUnreadable(scanned) == |set i | 0 <= i < |scanned| && UnreadablePassword(scanned[i].item)|
  {
    hide UnreadablePassword;
    if scanned != [] {
      var n := |scanned| - 1;
      var init := scanned[..n];
      UnreadableCount(init);
      assert (set i | 0 <= i < |scanned| && UnreadablePassword(scanned[i].item))
        == (set i | 0 <= i < |init| && UnreadablePassword(init[i].item))
           + if UnreadablePassword(scanned[n].item) then {n} else {};
    }
  }

  lemma {:induction false} UnavailableCount(vaults: seq<VaultScan>)
    ensures CountUnavailable(vaults) == |set v | 0 <= v < |vaults| && vaults[v].Unavailable?|
  {
    if vaults != [] {
      var n := |vaults| - 1;
      var init := vaults[..n];
      UnavailableCount(init);
      assert (set v | 0 <= v < |vaults| && vaults[v].Unavailable?)
        == (set v | 0 <= v < |init| && init[v].Unavailable?) + if vaults[n].Unavailable? then {n} else {};
    }
  }

  /** A report is complete exactly when every vault was opened, every password was readable and no
      metadata was invalid. */
  lemma CompleteIff(est: Estimator, vaults: seq<VaultScan>, report: SecurityReport)
    requires ReportFor(est, vaults, report)
    ensures report.IsComplete() <==>
      && (forall vault :: vault in vaults ==> vault.Available?)
      && forall x :: x in ScannedItems(vaults) ==>
           !UnreadablePassword(x.item) && ValidMetadata(x.item.metadata)
  {
    var scanned := ScannedItems(vaults);
    NoneUnavailable(vaults);
    NoneUnreadable(scanned);
    NoInvalidMetadata(est, scanned, report.entries);
  }

  predicate ValidMetadata(metadata: seq<MetadataFinding>) {
    InvalidExpiry !in metadata && InvalidMetadata !in metadata
  }

  lemma NoInvalidMetadata(est: Estimator, scanned: seq<Scanned>, entries: seq<SecurityEntry>)
    requires |entries| == |scanned|
    requires forall i :: 0 <= i < |scanned| ==> entries[i] == EntryOf(est, scanned[i], entries[i].reuseGroup)
    ensures (forall e :: e in entries ==> Metadata(InvalidExpiry) !in e.findings && Metadata(InvalidMetadata) !in e.findings)
      <==> forall x :: x in scanned ==> ValidMetadata(x.item.metadata)
  {
    hide EntryOf;
    forall i | 0 <= i < |scanned|
      ensures entries[i] in entries && scanned[i] in scanned
      ensures ValidMetadata(scanned[i].item.metadata)
        <==> Metadata(InvalidExpiry) !in entries[i].findings && Metadata(InvalidMetadata) !in entries[i].findings
    {
      MetadataKept(est, scanned[i], entries[i].reuseGroup);
    }
  }

  lemma MetadataKept(est: Estimator, x: Scanned, group: Option<nat>)
    ensures forall m :: Metadata(m) in EntryOf(est, x, group).findings <==> m in x.item.metadata
  {
    var own := MetadataFindings(x.item);
    forall m ensures Metadata(m) in own <==> m in x.item.metadata {
      if m in x.item.metadata {
        var k :| 0 <= k < |x.item.metadata| && x.item.metadata[k] == m;
        assert own[k] == Metadata(m);
      }
    }
  }

  lemma {:induction false} NoneUnavailable(vaults: seq<VaultScan>)
    ensures CountUnavailable(vaults) == 0 <==> forall vault :: vault in vaults ==> vault.Available?
  {
    if vaults != [] {
      var n := |vaults| - 1;
      NoneUnavailable(vaults[..n]);
      assert vaults == vaults[..n] + [vaults[n]];
      assert forall vault :: vault in vaults <==> vault in vaults[..n] || vault == vaults[n];
      assert vaults[n].Available? <==> !vaults[n].Unavailable?;
    }
  }

  lemma {:induction false} NoneUnreadable(scanned: seq<Scanned>)
    ensures CountUnreadable(scanned) == 0 <==> forall x :: x in scanned ==> !UnreadablePassword(x.item)
  {
    if scanned != [] {
      var n := |scanned| - 1;
      NoneUnreadable(scanned[..n]);
      assert scanned == scanned[..n] + [scanned[n]];
      assert forall x :: x in scanned <==> x in scanned[..n] || x == scanned[n];
    }
  }
}
