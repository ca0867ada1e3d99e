/** What was lost stays lost, as long as new keys are fresh: then the plain state tells exactly which
    vaults open and which re-keys succeed. A key drawn at random or derived with a new salt is fresh but
    for chance, which is why this is a hypothesis and no part of the steps. */
module LostVaults {
  import opened Wrappers
  import opened Crypto
  import opened PasswordEnvelopes
  import opened AccountKeys
  import opened Tables
  import opened RekeyService
  import opened AuthServices
  import opened SecretRepository
  import opened Access
  import opened KeyHierarchy
  import opened HierarchyRuns

  /** No stored key of a lost pair opens with the key its user has. */
  ghost predicate LostShut(s: Suite, db: Database, p: Plain, k: Keyring) {
    forall u, v :: (u, v) in p.lost ==> PairShut(s, db, k, u, v)
  }

  ghost predicate PairShut(s: Suite, db: Database, k: Keyring, u: UserId, v: VaultId) {
    HasKey(db, u, v) && u in k.accounts && OpenBlob(s, db.EnvelopeFor(u, v).value, k.accounts[u]).None?
  }

  /** The key opens nothing that is stored for `u`. */
  ghost predicate FreshKey(s: Suite, db: Database, u: UserId, key: Bytes) {
    forall v :: HasKey(db, u, v) ==> OpenBlob(s, db.EnvelopeFor(u, v).value, key).None?
  }

  /** If the step gives somebody a new key, it is a fresh one. */
  ghost predicate FreshStep(s: Suite, w: World, p: Plain, step: Step, w': World) {
    forall u, key :: ChangesKey(p, step, u) && LoginKey(s, w', PlainAfter(p, step), u) == Some(key) ==>
      FreshKey(s, w.db, u, key)
  }

  // ---- what the plain state then tells -------------------------------------------------------------------

  /** A vault opens for a user exactly when the plain state says so. */
  lemma OpensIff(s: Suite, w: World, p: Plain, k: Keyring, u: UserId, v: VaultId)
    requires Represents(s, w, p, k) && LostShut(s, w.db, p, k)
    ensures OpenedBy(s, w, p, u, v).Some? <==> p.CanOpen(u, v)
  {
    hide Represents, SessionKey, LostShut, OpenVaultForUser;
    if OpenedBy(s, w, p, u, v).Some? {
      LoginGivesAccountKey(s, w, p, k, u);
      OpenedByGivesVaultKey(s, w, p, k, u, v);
      OpenedIsHeld(s, w, p, k, u, v);
    }
    if p.CanOpen(u, v) {
      AccessibleVaultOpens(s, w, p, k, u, v);
      SessionKeyIsAccountKey(s, w, p, k, u);
      KnownPassword(s, w, p, k, u);
    }
  }

  lemma OpenedIsHeld(s: Suite, w: World, p: Plain, k: Keyring, u: UserId, v: VaultId)
    requires Represents(s, w, p, k) && LostShut(s, w.db, p, k) && u in k.accounts
    requires OpenVaultForUser(s, w.db, u, v, k.accounts[u]).Ok?
    ensures p.CanOpen(u, v)
  {
    hide UsersOk, SoleAccountKey, SharesOk, SecretsOk, TrashConsistent, OnlyHolds;
    assert PairOk(s, w.db, p, k, u, v);
    assert VaultOk(w.db, p, k, v);
    assert (u, v) in p.lost ==> PairShut(s, w.db, k, u, v);
  }

  /** A re-key reads everything exactly when nothing its user has lost is live. */
  lemma RekeysIff(s: Suite, w: World, p: Plain, k: Keyring, u: UserId)
    requires Represents(s, w, p, k) && LostShut(s, w.db, p, k) && u in k.accounts
    ensures OpensEveryVault(s, w.db, u, k.accounts[u]) <==> p.NothingLostIsLive(u)
  {
    hide AccountOk, SoleAccountKey, SharesOk, SecretsOk, TrashConsistent, OnlyHolds, VaultKeyOf;
    if p.NothingLostIsLive(u) {
      RepresentedAccountRekeys(s, w, p, k, u);
    }
    if OpensEveryVault(s, w.db, u, k.accounts[u]) {
      forall v | (u, v) in p.lost ensures !p.LiveVault(v) {
        assert PairShut(s, w.db, k, u, v);
        assert VaultOk(w.db, p, k, v);
        ShutIsNotRead(s, w.db, k, u, v);
      }
    }
  }

  lemma ShutIsNotRead(s: Suite, db: Database, k: Keyring, u: UserId, v: VaultId)
    requires PairShut(s, db, k, u, v)
    ensures VaultKeyOf(s, db, u, v, k.accounts[u]).None? && (db.LiveVault(v) ==> db.Keyed(u, v))
  {
  }

  // ---- every step, every run -----------------------------------------------------------------------------

  /** Work on vaults leaves the stored key of a pair that stays lost. */
  lemma LostKeyStays(s: Suite, w: World, p: Plain, step: Step, w': World, u: UserId, v: VaultId)
    requires TouchesNoAccount(step) && Next(s, w, p, step, w')
    requires (u, v) in PlainAfter(p, step).lost && HasKey(w.db, u, v)
    requires forall h :: h in w.db.shares ==> h.0 in w.db.vaults && w.db.vaults[h.0].owner != h.1
    requires forall v :: v in w.db.vaults ==> v in p.vaults && p.vaults[v].owner == w.db.vaults[v].owner
    ensures (u, v) in p.lost && HasKey(w'.db, u, v) && w'.db.EnvelopeFor(u, v) == w.db.EnvelopeFor(u, v)
  {
    hide OpenedBy, LoginKey, OpenBlob, PlainPasswordChange, PlainRekeyed, PlainTrash, Outcome, HasKey;
    if step.CreateVault? || step.ShareVault? || step.UnshareVault? {
      TableStepKeepsKey(s, w, p, step, w', u, v);
    } else {
      forall t: TrashStep | Runs(w.db, w'.db, t) ensures SameKeyTables(w.db, w'.db) {
        OutcomeKeepsKeys(w.db, t);
      }
      SameTablesKeepKey(w.db, w'.db, u, v);
    }
  }

  lemma TableStepKeepsKey(s: Suite, w: World, p: Plain, step: Step, w': World, u: UserId, v: VaultId)
    requires (step.CreateVault? || step.ShareVault? || step.UnshareVault?) && Next(s, w, p, step, w')
    requires (u, v) in PlainAfter(p, step).lost && HasKey(w.db, u, v)
    requires forall h :: h in w.db.shares ==> h.0 in w.db.vaults && w.db.vaults[h.0].owner != h.1
    requires forall v :: v in w.db.vaults ==> v in p.vaults && p.vaults[v].owner == w.db.vaults[v].owner
    ensures (u, v) in p.lost && HasKey(w'.db, u, v) && w'.db.EnvelopeFor(u, v) == w.db.EnvelopeFor(u, v)
  {
    hide OpenedBy, LoginKey, OpenBlob;
  }

  lemma SameTablesKeepKey(before: Database, after: Database, u: UserId, v: VaultId)
    requires HasKey(before, u, v) && SameKeyTables(before, after)
    ensures HasKey(after, u, v) && after.EnvelopeFor(u, v) == before.EnvelopeFor(u, v)
  {
  }

  lemma OutcomeKeepsKeys(db: Database, t: TrashStep)
    ensures Outcome(db, t).Ok? ==> SameKeyTables(db, Outcome(db, t).value)
  {
  }

  lemma LostKeyStaysAtWork(s: Suite, w: World, p: Plain, k: Keyring, step: Step, w': World, u: UserId, v: VaultId)
    requires Represents(s, w, p, k)
    requires TouchesNoAccount(step) && Next(s, w, p, step, w') && (u, v) in PlainAfter(p, step).lost
    ensures HasKey(w.db, u, v) && KeyUntouched(w.db, w'.db, u, v) && (u, v) in p.lost
  {
    hide UsersOk, SoleAccountKey, SecretsOk, TrashConsistent, OnlyHolds, OpenBlob, Next, PlainAfter;
    assert (u, v) in p.lost by {
      LossOnlyByKeyChange(p, step, u, v);
    }
    assert PairOk(s, w.db, p, k, u, v);
    forall h | h in w.db.shares ensures h.0 in w.db.vaults && w.db.vaults[h.0].owner != h.1 {
      assert ShareOk(w.db, k, h);
    }
    forall o | o in w.db.vaults ensures o in p.vaults && p.vaults[o].owner == w.db.vaults[o].owner {
      assert VaultOk(w.db, p, k, o);
    }
    LostKeyStays(s, w, p, step, w', u, v);
  }

  ghost predicate KeyUntouched(before: Database, after: Database, u: UserId, v: VaultId) {
    HasKey(before, u, v) && HasKey(after, u, v) && after.EnvelopeFor(u, v) == before.EnvelopeFor(u, v)
  }

  lemma LossOnlyByKeyChange(p: Plain, step: Step, u: UserId, v: VaultId)
    requires (u, v) in PlainAfter(p, step).lost && !ChangesKey(p, step, u)
    ensures (u, v) in p.lost
  {
    hide PlainTrash, PhrasesAfter;
  }

  /** A rewrap does not reach what is lost before or by it: live lost vaults would have stopped it. */
  lemma RekeyLeavesLost(s: Suite, w: World, after: Database, p: Plain, k: Keyring, x: UserId, newKey: Bytes,
                        u: UserId, v: VaultId)
    requires Represents(s, w, p, k) && LostShut(s, w.db, p, k) && x in k.accounts
    requires VaultsRewrapped(s, w.db, after, x, k.accounts[x], newKey)
    requires SharesRewrapped(s, w.db, after, x, k.accounts[x], newKey)
    requires (u, v) in p.KeyChanged(x).lost
    ensures KeyUntouched(w.db, after, u, v)
  {
    hide UsersOk, SoleAccountKey, SharesOk, SecretsOk, TrashConsistent, OnlyHolds, VaultsRewrapped, SharesRewrapped, OpenBlob;
    assert PairOk(s, w.db, p, k, u, v);
    assert VaultOk(w.db, p, k, v);
    assert (u, v) in p.lost ==> PairShut(s, w.db, k, u, v);
    RewrappedEnvelope(s, w.db, after, x, k.accounts[x], newKey, u, v);
  }

  lemma LostKeyStaysOnChange(s: Suite, w: World, p: Plain, k: Keyring, x: UserId, newPassword: string, newKey: Bytes, w': World,
                             u: UserId, v: VaultId)
    requires Represents(s, w, p, k) && LostShut(s, w.db, p, k) && x in k.accounts
    requires PasswordChanged(s, w, w', x, k.accounts[x], newPassword, newKey)
    requires (u, v) in PlainPasswordChange(p, x, newPassword).lost
    ensures KeyUntouched(w.db, w'.db, u, v)
  {
    hide Represents, LostShut, Opens, IsAccountKey, VaultsRewrapped, SharesRewrapped, RecoveryRewritten, RewrittenBlob,
      HasKey, PhrasesAfter;
    StoredEnvelopeIsKnown(s, w, p, k, x);
    if x in p.accountKeys {
      LostHasKey(s, w, p, k, u, v);
      SameTablesSameKeys(w.db, w'.db, u, v);
    } else {
      RekeyLeavesLost(s, w, w'.db, p, k, x, newKey, u, v);
    }
  }

  lemma LostKeyStaysOnRestore(s: Suite, w: World, p: Plain, k: Keyring, x: UserId, typed: string, newPassword: string,
                              newKey: Bytes, w': World, u: UserId, v: VaultId)
    requires Represents(s, w, p, k) && LostShut(s, w.db, p, k) && x in k.accounts
    requires ResetFromBackup(s, w.db, w'.db, x, k.accounts[x], typed, newPassword, newKey)
    requires (u, v) in PlainAfter(p, RestoreBackup(x, typed, newPassword)).lost
    ensures KeyUntouched(w.db, w'.db, u, v)
  {
    hide Represents, LostShut, Opens, IsAccountKey, VaultsRewrapped, SharesRewrapped, RecoveryRewritten, RewrittenBlob,
      HasKey, PhrasesAfter, UsesAccountKey;
    StoredEnvelopeIsKnown(s, w, p, k, x);
    var rest := w'.db.(policy := w.db.policy);
    if x in p.accountKeys {
      LostHasKey(s, w, p, k, u, v);
      SameTablesSameKeys(w.db, w'.db, u, v);
    } else {
      RekeyLeavesLost(s, w, rest, p, k, x, newKey, u, v);
      SameTablesSameKeys(rest, w'.db, u, v);
    }
  }

  lemma LostHasKey(s: Suite, w: World, p: Plain, k: Keyring, u: UserId, v: VaultId)
    requires Represents(s, w, p, k) && (u, v) in p.lost
    ensures HasKey(w.db, u, v)
  {
    hide UsersOk, VaultsOk, SoleAccountKey, SharesOk, SecretsOk, TrashConsistent, OnlyHolds;
    assert PairOk(s, w.db, p, k, u, v);
  }

  lemma SameTablesSameKeys(before: Database, after: Database, u: UserId, v: VaultId)
    requires HasKey(before, u, v) && after.vaults == before.vaults && after.shares == before.shares
    ensures KeyUntouched(before, after, u, v)
  {
  }

  lemma LostKeyStaysOnAccount(s: Suite, w: World, p: Plain, k: Keyring, step: Step, w': World, u: UserId, v: VaultId)
    requires s.Ideal() && Represents(s, w, p, k) && LostShut(s, w.db, p, k)
    requires !TouchesNoAccount(step) && Next(s, w, p, step, w') && (u, v) in PlainAfter(p, step).lost
    ensures KeyUntouched(w.db, w'.db, u, v)
  {
    hide Represents, LostShut, OpenBlob, LoginKey, UsesAccountKey, PasswordChanged, ResetFromBackup, BackupKey, SameWords,
      PlainPasswordChange, PlainRekeyed, Opens, IsAccountKey, SealedWith, HasKey, Suite.Ideal, LoadedFrom;
    match step {
      case ChangePassword(x, newPassword) =>
        LoginGivesAccountKey(s, w, p, k, x);
        var newKey :| PasswordChanged(s, w, w', x, k.accounts[x], newPassword, newKey);
        LostKeyStaysOnChange(s, w, p, k, x, newPassword, newKey, w', u, v);
      case UpgradeCredentials(x) =>
        LoginGivesAccountKey(s, w, p, k, x);
        KnownPassword(s, w, p, k, x);
        var newKey :| PasswordChanged(s, w, w', x, k.accounts[x], p.passwords[x], newKey);
        LostKeyStaysOnChange(s, w, p, k, x, p.passwords[x], newKey, w', u, v);
      case RestoreBackup(x, typed, newPassword) =>
        BackupGivesAccountKey(s, w, p, k, x, typed);
        var newKey :| ResetFromBackup(s, w.db, w'.db, x, k.accounts[x], typed, newPassword, newKey);
        LostKeyStaysOnRestore(s, w, p, k, x, typed, newPassword, newKey, w', u, v);
      case _ =>
        LostHasKey(s, w, p, k, u, v);
        SameTablesSameKeys(w.db, w'.db, u, v);
    }
  }

  lemma WorkIsFresh(s: Suite, w: World, p: Plain, step: Step, w': World)
    requires TouchesNoAccount(step)
    ensures FreshStep(s, w, p, step, w')
  {
    hide LoginKey, PlainAfter, FreshKey;
  }

  /** A step whose new key, if any, is fresh keeps what is lost shut. */
  lemma ShutStep(s: Suite, w: World, w': World, p: Plain, k: Keyring, step: Step) returns (k': Keyring)
    requires s.Ideal() && Represents(s, w, p, k) && LostShut(s, w.db, p, k)
    requires Next(s, w, p, step, w') && FreshStep(s, w, p, step, w')
    ensures Represents(s, w', PlainAfter(p, step), k') && LostShut(s, w'.db, PlainAfter(p, step), k')
  {
    hide Represents, Next, PlainAfter, ChangesKey, PairShut, FreshStep, TouchesNoAccount, Suite.Ideal;
    k' := StepKeeps(s, w, w', p, k, step);
    var p' := PlainAfter(p, step);
    forall u, v | (u, v) in p'.lost ensures PairShut(s, w'.db, k', u, v) {
      if TouchesNoAccount(step) {
        LostKeyStaysAtWork(s, w, p, k, step, w', u, v);
      } else {
        LostKeyStaysOnAccount(s, w, p, k, step, w', u, v);
      }
      LostStaysShut(s, w, w', p, k, k', step, u, v);
    }
  }

  lemma LostStaysShut(s: Suite, w: World, w': World, p: Plain, k: Keyring, k': Keyring, step: Step, u: UserId, v: VaultId)
    requires Represents(s, w, p, k) && LostShut(s, w.db, p, k) && Represents(s, w', PlainAfter(p, step), k')
    requires FreshStep(s, w, p, step, w')
    requires !ChangesKey(p, step, u) && u in k.accounts ==> u in k'.accounts && k'.accounts[u] == k.accounts[u]
    requires (u, v) in PlainAfter(p, step).lost && KeyUntouched(w.db, w'.db, u, v)
    ensures PairShut(s, w'.db, k', u, v)
  {
    hide Represents, PlainAfter, OpenBlob, LoginKey, ChangesKey;
    if ChangesKey(p, step, u) {
      LostIsOfUsers(s, w', PlainAfter(p, step), k', u, v);
      assert FreshKey(s, w.db, u, k'.accounts[u]);
    } else {
      LossOnlyByKeyChange(p, step, u, v);
      assert PairShut(s, w.db, k, u, v);
    }
  }

  lemma LostIsOfUsers(s: Suite, w: World, p: Plain, k: Keyring, u: UserId, v: VaultId)
    requires Represents(s, w, p, k) && (u, v) in p.lost
    ensures u in k.accounts && LoginKey(s, w, p, u) == Some(k.accounts[u])
  {
    hide AccountOk, SoleAccountKey, SecretsOk, TrashConsistent, OnlyHolds, SessionKey;
    assert PairOk(s, w.db, p, k, u, v);
    assert VaultOk(w.db, p, k, v);
    assert w.db.vaults[v].owner != u ==> ShareOk(w.db, k, (v, u));
    SessionKeyIsAccountKey(s, w, p, k, u);
  }

  /** In a run whose new keys are fresh, at every point: a vault opens for a user exactly when the plain
      state says so, and the next re-key of a user reads everything exactly when nothing lost is live. */
  lemma {:induction false} FreshRunTells(s: Suite, r: Run, k: Keyring, n: nat) returns (k': Keyring)
    requires s.Ideal() && IsRun(s, r) && n < |r.worlds|
    requires forall i :: 0 <= i < |r.steps| ==> FreshStep(s, r.worlds[i], r.plains[i], r.steps[i], r.worlds[i + 1])
    requires Represents(s, r.worlds[0], r.plains[0], k) && r.plains[0].lost == {}
    ensures n < |r.plains| && Represents(s, r.worlds[n], r.plains[n], k') && LostShut(s, r.worlds[n].db, r.plains[n], k')
    ensures forall u, v :: OpenedBy(s, r.worlds[n], r.plains[n], u, v).Some? <==> r.plains[n].CanOpen(u, v)
    ensures forall u :: u in k'.accounts ==>
      (OpensEveryVault(s, r.worlds[n].db, u, k'.accounts[u]) <==> r.plains[n].NothingLostIsLive(u))
  {
    hide Represents, Next, PlainAfter, FreshStep, OpenedBy, OpensEveryVault, Plain.CanOpen, Plain.NothingLostIsLive,
      Suite.Ideal, PairShut;
    if n == 0 {
      k' := k;
    } else {
      var before := FreshRunTells(s, r, k, n - 1);
      assert Next(s, r.worlds[n - 1], r.plains[n - 1], r.steps[n - 1], r.worlds[n - 1 + 1]);
      assert FreshStep(s, r.worlds[n - 1], r.plains[n - 1], r.steps[n - 1], r.worlds[n - 1 + 1]);
      k' := ShutStep(s, r.worlds[n - 1], r.worlds[n], r.plains[n - 1], before, r.steps[n - 1]);
    }
    var w, p := r.worlds[n], r.plains[n];
    forall u, v ensures OpenedBy(s, w, p, u, v).Some? <==> p.CanOpen(u, v) {
      OpensIff(s, w, p, k', u, v);
    }
    forall u | u in k'.accounts ensures OpensEveryVault(s, w.db, u, k'.accounts[u]) <==> p.NothingLostIsLive(u) {
      RekeysIff(s, w, p, k', u);
    }
  }
}
