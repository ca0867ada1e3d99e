# HeelonVault in Dafny

HeelonVault keeps secrets in vaults. A password, or a recovery phrase of 24 words, opens an account key; the account key
opens vault keys; vault keys open secrets. This project models that key hierarchy with every operation that rewrites
it, and seven self-contained parts beside it, and proves what each of them is for.

## What is modelled

**The key hierarchy and its re-key protocol.** The tables are maps in a `Database` value that a `Pool` holds; a
transaction is a working copy that is committed or dropped. `rekey_service.dfy`, `vault_repository.dfy`,
`secret_repository.dfy` and the service files follow the program's own modules, as methods on classes where the program
updates a pool or the credentials map. Every method is proved against a relation between the old and the new state.
`key_hierarchy.dfy` says when a database together with the credentials in memory represents a plain state, that is,
passwords, phrases, vaults, secret values and who has access to which vault, as the users see them: each such pair has
a stored key that opens. `hierarchy_runs.dfy` lists sixteen kinds of step, shows that each keeps the representation, and
concludes for runs of any length that no secret, no access and no account is lost, with the one exception below.
`hierarchy_witness.dfy` shows a run that meets the exception, and `lost_vaults.dfy` that what is lost stays shut when new
keys are fresh, so that the plain state tells exactly what opens. `application.dfy` wires the service methods together
and shows that each call is such a step, and when it succeeds. `backup_journey.dfy` joins export, import and reset: the
whole way from one machine to another.

**Codecs.** The password envelope (`password_envelope.dfy`), the blob layouts (`crypto.dfy`) and the `.hvb` backup
container (`hvb_container.dfy`), with both directions of each round trip; the container's files and paths (`paths.dfy`).

**The password generator** (`password_generator.dfy`): rejection sampling over a tape of 32-bit draws and an in-place
shuffle, proved to be a bijection between choices and permutations; every index comes from equally many draws; the passwords it
can produce, exactly.

**The security centre's scan** (`security_center.dfy`): a fingerprint index against plain comparison of every pair; and
what the report of a session says about the values in the key hierarchy (`security_scan.dfy`).

**Throttling**: attempts per address (`ip_rate_limit.dfy`), backoff per user (`auth_policy.dfy`) and the guard against
replayed two-factor codes (`totp_service.dfy`), as state machines over a clock that does not go back.

**The clipboard** (`clipboard.dfy`): copies, timers, take-overs and clearing in any order.

**The address filter** (`ip_filter.dfy`): mask tests as arithmetic.

## What is assumed

The cipher, the key derivation, the text encoding and lower-casing are a record of functions, `Crypto.Suite`, with the
laws of an ideal AEAD (section 2 of RFC 5116): sealing opens with the same key, nonce and associated data, and a ciphertext
determines the three it was made with. The last law is stronger than what AES-GCM gives, since AES-GCM does not commit
to its key. That distinct passwords derive distinct keys (RFC 9106) is never assumed; where it matters the statement
says "derives the same key". `Crypto.IdealSuiteExists` shows that the laws can hold together. The digest of the scan
is assumed injective, the JSON header and base 64 of the backup to read back (`HvbContainers.LawfulFormatsExist`), the
lower-casing to make words of words. Random values are arbitrary values; a new identifier is one that no row uses.

In the runs users act with the password and the session key they have at that moment, and services run one at a time.

## What the code does that one might not expect

- A step that changes the account key rewraps the vaults of the `accessible_vaults` view, which leaves out the trash.
  A vault in the trash, owned or received, stays sealed under the old key. It no longer opens when a restored secret
  revives it, and from then on every step that reads all vaults stops at it (`KeyHierarchy.RevivedVaultIsLost`). From a
  state with nothing lost, a step to another key keeps every stored key of its user if and only if no vault with a
  stored key is in the trash (`KeyHierarchy.RekeyKeepsEveryVaultIff`). The plain state therefore has two relations, `access` and `lost`, and such a
  step moves what is in the trash from one to the other; the runs exclude nothing.
  `HierarchyWitness.LossHappens` is a run from the empty database that ends with a live secret nobody can read.
  Replacing the password of an account-key account keeps the key and loses nothing.
- Envelope lengths are cast to 16 bits, so an oversized envelope encodes to something else
  (`PasswordEnvelopes.DecodeUndoesEncode`).
- A `.hvb` prefix with an empty header is built without complaint and refused when read
  (`HvbContainers.SplitUndoesBuild`).
- An import over a file whose extension is `old` removes that file and then fails
  (`HvbContainers.Disk.ReplaceExistingDatabase`, `Paths.WithExtensionFixpoint`). An export removes an earlier backup of
  the same name before the new one takes its place: the earlier one is lost if and only if the rename fails
  (`HvbContainers.Disk.WriteAtomic`).
- A password change for an account with a blank name writes the whole change to the database and then fails, because
  memory refuses the name (`UserServices.UserService.ChangeMasterPassword`); no account the program creates has one.
- The key of a backup file comes from the phrase as it is typed, the account key from its words alone. A retyped phrase
  that finds the account key need not open the file (`HvbContainers.OtherPhraseNeedsSameKey`,
  `BackupJourneys.RestoreElsewhere`).
- Updating a secret writes title and metadata before it refuses an empty value
  (`SecretServices.SecretService.UpdateSecret`).
- A text copied inside HeelonVault itself does not end a sensitive copy, so the timer wipes that text
  (`SensitiveClipboards.SensitiveClipboard.TimerFires`: wiped exactly when the clipboard is ours).
- The two-factor check reads the clock once for the code and once for the guard; a call delayed in between can let a
  code through a second time (`TotpServices.DelayedReplayPassesIff` says when, `TotpWitness.DelayedReplayHappens` shows
  such a run).
- The window of the address limit admits at most max(1, 2M - 2) attempts, one less than 2M - 1 from the second allowed
  attempt on (`IpRateLimit.WindowNeverExceedsBound`, `IpRateLimit.BoundIsReached`); the periodic cleanup is invisible
  only while the lock is no shorter than the window (`IpRateLimit.CleanupTransparentIff`).

## Model

| member | source | states |
|---|---|---|
| HierarchyRuns.NoRunLosesASecret | crates/heelonvault-core/src/services/user_service.rs:238-353 | At every point of every run, stated on what the users see alone: whoever has access to the vault of a secret that is not deleted reads, through login with the current password and the vault key, the value last stored |
| HierarchyRuns.NoRunLosesAnAccount | crates/heelonvault-core/src/services/user_service.rs:238-353 | At every such point the current password opens the stored envelope, which equals the one in memory, to a key that opens every live vault the user has access to; an account-key account is the only account; and unless a lost vault is live again the next re-key reads everything |
| HierarchyRuns.NoRunLosesAccess | crates/heelonvault-core/src/services/user_service.rs:238-353 | In every run, access to a vault ends only at a revocation of that share or when its user's key changes while the vault is in the trash |
| HierarchyRuns.AccessStays | crates/heelonvault-core/src/services/user_service.rs:238-353 | Both directions for one step, for a user with an account: access goes exactly when the step is one of those two |
| HierarchyRuns.PhrasesStay | crates/heelonvault-core/src/services/user_service.rs:238-353 | A step forgets no phrase: the phrase an account is known by changes only when one is sealed or given |
| HierarchyWitness.LossHappens | crates/heelonvault-core/src/repositories/secret_repository.rs:442-483 | For every ideal suite and value, a run of six steps from the empty database after which the secret is live, was readable before the vault went to the trash, and reads for no password; the session key does not open the vault and the next re-key would stop |
| HierarchyWitness.KeyCanChange | crates/heelonvault-core/src/services/rekey_service.rs:89-116 | The only legacy account with nothing to rewrap can move to an account key of any value, so the key of the run need not be the old one |
| LostVaults.FreshRunTells | crates/heelonvault-core/src/services/user_service.rs:238-353 | In a run whose new keys are fresh, that is, open nothing stored for their user, the plain state tells exactly: a vault opens for a user if and only if the user has access and it is live, and a re-key reads everything if and only if nothing its user has lost is live |
| LostVaults.ShutStep | crates/heelonvault-core/src/services/rekey_service.rs:205-323 | Each step keeps every lost vault shut as long as its new key, if it makes one, is fresh |
| LostVaults.OpensIff | crates/heelonvault-core/src/services/vault_service.rs:258-327 | While what was lost is shut, a vault opens for a user exactly when the plain state says so |
| LostVaults.RekeysIff | crates/heelonvault-core/src/services/rekey_service.rs:367-407 | While what was lost is shut, the read pass of a re-key succeeds exactly when nothing its user has lost is live |
| HierarchyRuns.StepKeeps | crates/heelonvault-core/src/services/user_service.rs:238-307 | Each of the sixteen kinds of step, with no condition beyond what the code checks, takes a represented state, which records who has access to which vault, to a state that represents the plain outcome of the step |
| HierarchyRuns.RunKeeps | crates/heelonvault-core/src/services/user_service.rs:238-353 | The representation, access included, holds at every point of every run |
| HierarchyRuns.PasswordChangeKeeps | crates/heelonvault-core/src/services/user_service.rs:238-307 | All three branches of a password change keep every vault, secret, phrase and TOTP secret; every live vault the user could open opens to the same key afterwards, and what the user had in the trash is lost exactly when the key changes |
| HierarchyRuns.RestoreBackupKeeps | crates/heelonvault-core/src/services/recovery_service.rs:24-97 | Restoring with the phrase, retyped in any way, and any new password keeps every vault and secret, and every live vault the user could open opens to the same key; with an account key the key itself is unchanged |
| HierarchyRuns.BackupGivesAccountKey | crates/heelonvault-core/src/services/recovery_service.rs:38-61 | The key recovered from the stored rows and the phrase is the account's key, in both formats |
| HierarchyRuns.TrashKeeps | crates/heelonvault-core/src/repositories/secret_repository.rs:425-514 | Soft delete, restore, purge, emptying, renaming and vault removal move the plain state and the tables together |
| HierarchyRuns.CreateVaultKeeps | crates/heelonvault-core/src/services/vault_service.rs:198-242 | A new vault is one its owner has access to, so its stored key is there and opens; every other stored key is as it was |
| HierarchyRuns.ShareVaultKeeps | crates/heelonvault-core/src/services/team_service.rs:60-71 | A share gives the recipient access: the stored share opens with the recipient's key to the vault key the sharer opened |
| HierarchyRuns.UnshareVaultKeeps | crates/heelonvault-core/src/repositories/vault_repository.rs:510-517 | Deleting a share takes access from that user and leaves every other key as it was |
| HierarchyRuns.UnsharedVaultIsShut | crates/heelonvault-core/src/repositories/vault_repository.rs:510-517 | After it no key opens the vault for that user, and every other user opens what they opened |
| HierarchyRuns.SessionsStay | crates/heelonvault-core/src/services/secret_service.rs:184-382 | Work on vaults and secrets leaves every user's session key as it is |
| HierarchyRuns.BootstrapKeeps | crates/heelonvault-core/src/services/admin_service.rs:81-145 | The first account starts represented, with its phrase |
| HierarchyRuns.AddAccountKeeps | crates/heelonvault-core/src/services/admin_service.rs:32-43 | A further legacy account is represented and leaves the others alone |
| HierarchyRuns.MovedSecretKeeps | crates/heelonvault-core/src/services/secret_service.rs:351-382 | A moved secret keeps its value under the key of its new vault |
| HierarchyRuns.RestartKeeps | crates/heelonvault-core/src/repositories/user_repository.rs:596-612 | Reloading all envelopes at start-up gives credentials that represent the same state |
| HierarchyRuns.EmptyWorldRepresents | crates/heelonvault-core/src/services/admin_service.rs:81-145 | The empty database represents the empty plain state, so runs may start there |
| Applications.Application.ChangeMasterPassword | crates/heelonvault-core/src/services/user_service.rs:238-307 | With the current password and an acceptable new one the change succeeds, whatever branch it takes, unless a lost vault is live again, and while what was lost is shut it does not succeed in that case; the returned key is the new session, every live vault stays open to the user, and only a change of key loses what was in the trash; a failure changes nothing |
| Applications.Application.UpgradeLegacyCredentials | crates/heelonvault-core/src/services/user_service.rs:309-353 | The only account leaves the legacy form at login and keeps access to every live vault; always succeeds unless a lost vault is live again |
| Applications.Application.Bootstrap | crates/heelonvault-core/src/services/admin_service.rs:81-145 | Succeeds exactly on an empty database with a visible name and a text password; the returned key is the session of the new account |
| Applications.Application.CreateVault | crates/heelonvault-core/src/services/vault_service.rs:198-242 | With a session it succeeds exactly for a visible name, and adds one live vault that its owner can open |
| Applications.Application.ShareVault | crates/heelonvault-core/src/services/team_service.rs:60-71 | Succeeds exactly for a vault the sharer opens and a recipient other than its owner; the recipient can open it from then on |
| Applications.Application.RevokeShare | crates/heelonvault-core/src/repositories/vault_repository.rs:510-517 | Takes the vault from the recipient of the share alone |
| Applications.ReadsAfterPasswordChange | crates/heelonvault-core/src/services/user_service.rs:238-353 | Calls in sequence: a value stored in a new vault reads back with the session that a password change returns, in any database |
| Applications.Application.CreateSecret | crates/heelonvault-core/src/services/secret_service.rs:184-242 | Succeeds exactly for a non-empty value and a vault the session opens, which every live vault the user has access to is; the plain state gains that value |
| Applications.Application.ReadSecret | crates/heelonvault-core/src/services/secret_service.rs:244-265 | Succeeds for every secret the plain state lets the user read, and exactly for live secrets of vaults that open; gives the value last stored |
| Applications.Application.OpenedIff | crates/heelonvault-core/src/services/vault_service.rs:258-327 | While what was lost is shut, the vaults a session opens are exactly those the plain state names, so that the other calls succeed exactly as it says |
| Applications.Application.UpdateSecret | crates/heelonvault-core/src/services/secret_service.rs:267-303 | Succeeds exactly for a live secret of a vault that opens and no empty value; a new title does not show in the plain state, a new value does |
| Applications.Application.MoveSecret | crates/heelonvault-core/src/services/secret_service.rs:351-382 | Succeeds exactly for a live secret between two vaults that open; only its vault changes |
| Applications.Application.DeleteVault | crates/heelonvault-core/src/services/vault_service.rs:426-476 | Succeeds exactly for a vault the requester can reach; vault and secrets are in the trash |
| Applications.Application.RestoreSecret | crates/heelonvault-core/src/repositories/secret_repository.rs:442-483 | A restore commits as specified or changes nothing, and the plain state follows |
| Applications.Application.RestoreBackup | crates/heelonvault-core/src/services/recovery_service.rs:24-97 | From any represented single-account state the restore succeeds with the phrase however typed unless a lost vault is live again; after the restart the user can open every live vault as before, under the new password; the report counts no secret as unreadable, and as readable what the user can read |
| Applications.OnePasswordKey | crates/heelonvault-core/src/services/auth_service.rs:132-157 | Whatever password opens an envelope opens the same account key |
| BackupJourneys.RestoreElsewhere | crates/heelonvault-core/src/services/backup_service.rs:470-582 | Export here, import there and reset: whatever the only user could open or read, the user can open and read on the other machine with the new password; with the phrase typed as for the export every part succeeds |
| BackupJourneys.ResetAndStart | crates/heelonvault-core/src/services/recovery_service.rs:24-97 | A database read back from a file, reset with the words of its phrase and started, represents the plain outcome, everything readable before reads and is counted so, nothing is reported unreadable, and the next login has to wait for nothing |
| KeyHierarchy.RepresentedSecretsRead | crates/heelonvault-core/src/services/vault_service.rs:258-327 | Login, vault opening and secret reading chain to the value last stored, for every secret the plain state lets a user read |
| KeyHierarchy.AccessibleVaultOpens | crates/heelonvault-core/src/services/vault_service.rs:258-327 | A live vault the user has access to has a stored key, owned or shared, that opens with the user's key to the vault key |
| KeyHierarchy.OpenedVaultGivesKey | crates/heelonvault-core/src/services/vault_service.rs:258-327 | Whatever key opens a stored envelope, lost or not, it gives the key of that vault |
| KeyHierarchy.RepresentedAccountRekeys | crates/heelonvault-core/src/services/rekey_service.rs:367-407 | The read pass of a re-key stops at no vault of a represented account, unless a lost one is live again |
| KeyHierarchy.RepresentedReport | crates/heelonvault-core/src/services/rekey_service.rs:367-438 | When the read pass succeeds on a represented state, the report counts no secret as unreadable; with nothing lost live it counts as readable exactly the secrets the user can read |
| KeyHierarchy.RekeyRepresents | crates/heelonvault-core/src/services/rekey_service.rs:205-323 | A re-key changes the password and the phrase given for sealing, moves access to trashed vaults from held to lost, and changes nothing else that users see |
| KeyHierarchy.RekeyKeepsVaults | crates/heelonvault-core/src/services/rekey_service.rs:226-306 | Every stored key of a live vault, owned or received, opens under the new session key to the same vault key, and all other stored keys are as they were |
| KeyHierarchy.RekeyReachesExactlyLiveVaults | crates/heelonvault-core/src/services/rekey_service.rs:367-407 | A vault the user has access to, owned or received, opens under a changed key if and only if it was live |
| KeyHierarchy.RekeyKeepsEveryVaultIff | crates/heelonvault-core/src/services/rekey_service.rs:367-407 | From a state with nothing lost, a step to another key keeps every stored key of its user, owned or received, if and only if no vault with a stored key for that user is in the trash |
| KeyHierarchy.RevivedVaultIsLost | crates/heelonvault-core/src/repositories/secret_repository.rs:442-483 | A vault revived after such a step opens for its user no more, whether owner or recipient, and stops the next re-key |
| KeyHierarchy.ReplacementRepresents | crates/heelonvault-core/src/services/rekey_service.rs:154-197 | A password replaced under the same key keeps everything, the trash included |
| RekeyService.RewrapAccount | crates/heelonvault-core/src/services/rekey_service.rs:205-323 | Succeeds exactly when the user exists and every accessible vault opens with the old key; then everything is rewrapped as `Rekeyed` says; on any failure the database is unchanged, and the verification after the commit never fails. The report counts the user's keyed vaults, owned and received, those without a key, the secrets the old key reads and the live ones it does not, and says whether the two-factor secret was lost and whether a phrase still leads back |
| RekeyService.UnwrapAccessibleVaults | crates/heelonvault-core/src/services/rekey_service.rs:367-407 | Lists every keyed accessible vault once with the key it opens to, counts the keyless ones, and fails exactly when one does not open, with the error that vault gives |
| RekeyService.CheckSecrets | crates/heelonvault-core/src/services/rekey_service.rs:410-438 | Counts the readable and the unreadable live secrets of the listed vaults |
| RekeyService.RewrapUserBlob | crates/heelonvault-core/src/services/rekey_service.rs:441-465 | A readable blob keeps its plaintext under the new key, an unreadable one is cleared |
| RekeyService.WrapVaultKeys | crates/heelonvault-core/src/services/rekey_service.rs:226-244 | Every listed vault key gets one update, owned or shared, that opens under the new key |
| RekeyService.MigrateToAccountKey | crates/heelonvault-core/src/services/rekey_service.rs:89-116 | A fresh account key takes over, the new password opens it, and the phrase seals it |
| RekeyService.RekeyLegacyAccount | crates/heelonvault-core/src/services/rekey_service.rs:120-150 | A fresh legacy key takes over and the stored phrase follows |
| RekeyService.ReplacePassword | crates/heelonvault-core/src/services/rekey_service.rs:154-197 | Only the envelope changes, after the vaults were seen to open; the new password opens it to the same key exactly when that key still fits an envelope. The report counts the live secrets that opening their vault and reading them gives, those it does not, and the vaults without a key; nothing was rewrapped or lost |
| RekeyService.UnwrappedCounts | crates/heelonvault-core/src/services/rekey_service.rs:410-438 | The counters taken from the list of opened vaults are sizes told without it: the secrets that opening their vault and reading them gives, the live secrets behind a key, the vaults without one |
| RekeyService.OwnedVaultsCounted | crates/heelonvault-core/src/services/rekey_service.rs:268-291 | The numbers of owner and share updates are those of the user's own and received vaults that hold a key |
| RekeyService.VerifyVaults | crates/heelonvault-core/src/services/rekey_service.rs:493-537 | Passes exactly when every listed vault reopens to the same key |
| RekeyService.VerifyStoredEnvelope | crates/heelonvault-core/src/services/rekey_service.rs:467-491 | Passes exactly when the stored envelope is the written one |
| RekeyService.ReadBackSucceeds | crates/heelonvault-core/src/services/rekey_service.rs:306-323 | After a committed rewrap the read-back cannot fail |
| VaultRepository.ApplyMasterKeyRotationAtomically | crates/heelonvault-core/src/repositories/vault_repository.rs:611-696 | Commits all writes exactly when every row of both lists and the user exist, otherwise leaves the whole database as it was |
| VaultRepository.WriteOwners | crates/heelonvault-core/src/repositories/vault_repository.rs:663-675 | Owner envelopes are written row by row, and a missing row is found |
| VaultRepository.WriteShares | crates/heelonvault-core/src/repositories/vault_repository.rs:677-692 | The same for shares |
| VaultRepository.ListAccessible | crates/heelonvault-core/src/repositories/vault_repository.rs:387-390 | Exactly the live vaults owned by or shared with the user |
| UserServices.UserService.ChangeMasterPassword | crates/heelonvault-core/src/services/user_service.rs:238-307 | Succeeds exactly for a visible username, a different, long enough, textual new password and a current one whose key opens every vault; memory then holds the stored envelope; otherwise nothing changed, but that for a blank username, all else being met, the whole change is in the database when memory refuses it |
| UserServices.UserService.ChangeKeys | crates/heelonvault-core/src/services/user_service.rs:273-295 | The branch that the stored format and the number of accounts ask for writes a database in which the new password opens the outcome's key, exactly when every vault opens first |
| UserServices.UserService.UpgradeLegacyCredentials | crates/heelonvault-core/src/services/user_service.rs:309-353 | `None` without change for an account-key or multi-account database, otherwise a migration under the same password; a blank username is refused after the database was written |
| RecoveryServices.ResetMasterPasswordFromBackup | crates/heelonvault-core/src/services/recovery_service.rs:24-97 | Succeeds exactly for a single account whose recovered key opens every vault; otherwise nothing changed; for a recovered account key too long for an envelope the new password does not open it. Afterwards the count of failed attempts of the name is 0, no later login has to wait, and no other row of that table is different. The report is that of the branch the stored format calls for |
| RecoveryServices.RepresentedBackupResets | crates/heelonvault-core/src/services/recovery_service.rs:24-97 | On a represented single-account state the conditions of the reset hold, unless a lost vault is live again |
| RecoveryServices.EnsureRecoveryKey | crates/heelonvault-core/src/services/account_key.rs:109-135 | Afterwards the phrase opens the stored envelope to the account key; it is rewritten exactly when it did not before |
| RecoveryServices.OnlyUser | crates/heelonvault-core/src/services/recovery_service.rs:31-37 | The single account, or which of the two errors |
| AdminServices.AdminService.BootstrapFirstAdmin | crates/heelonvault-core/src/services/admin_service.rs:81-145 | Succeeds exactly on an empty database with a visible name and a text password; stores an account-key envelope and the sealed key |
| AdminServices.AdminService.CreateUser | crates/heelonvault-core/src/services/admin_service.rs:32-43 | Refused next to an account-key account; otherwise a legacy account in memory and table |
| VaultServices.VaultService.CreateVault | crates/heelonvault-core/src/services/vault_service.rs:198-242 | Row and envelope appear together, for a visible name, a known owner and a 32-byte key |
| VaultServices.VaultService.GrantVaultAccess | crates/heelonvault-core/src/services/team_service.rs:60-71 | The share opens with the recipient's key to the vault key |
| VaultServices.VaultService.DeleteVault | crates/heelonvault-core/src/services/vault_service.rs:426-476 | Only a reachable vault goes to the trash, with all its live secrets |
| SecretServices.SecretService.CreateSecret | crates/heelonvault-core/src/services/secret_service.rs:184-242 | Refuses empty values; the stored value reads back with the vault key; kind and title are stored, a document goes to the file column and everything else to the inline one |
| SecretServices.SecretService.UpdateSecret | crates/heelonvault-core/src/services/secret_service.rs:267-303 | The metadata is written before an empty value is refused; apart from title and value the row, and every other row, stays |
| SecretServices.SecretService.MoveSecret | crates/heelonvault-core/src/services/secret_service.rs:351-382 | The value the source key read is the value the target key reads; a move to the same vault does nothing |
| AuthServices.AuthService.CreateUser | crates/heelonvault-core/src/services/auth_service.rs:249-283 | A new name with a text password, unless an account-key account is known |
| AuthServices.AuthService.DeriveKeyIfValid | crates/heelonvault-core/src/services/auth_service.rs:351-363 | Gives exactly the key the password opens |
| AuthServices.AuthService.UpsertPasswordEnvelope | crates/heelonvault-core/src/services/auth_service.rs:365-383 | Only well-formed envelopes of a visible name enter the map |
| AuthServices.LoadCredentials | crates/heelonvault-app/src/main.rs:1565-1588 | Fails on a malformed envelope or a blank name; otherwise every stored envelope is loaded under its user's name and nothing else is |
| PasswordEnvelopes.DecodeUndoesEncode | crates/heelonvault-core/src/services/auth_service.rs:37-111 | Decoding an encoded envelope gives it back if and only if salt and body lengths are 1..65535 and a version 2 ciphertext is not empty: both lengths are cast to 16 bits |
| PasswordEnvelopes.EncodeUndoesDecode | crates/heelonvault-core/src/services/auth_service.rs:66-111 | Accepted bytes decode to an envelope that encodes back to them, and nothing else is accepted |
| PasswordEnvelopes.AcceptedBytesReencode | crates/heelonvault-core/src/services/auth_service.rs:66-111 | Re-encoding any accepted bytes returns them |
| PasswordEnvelopes.StoredLayout | crates/heelonvault-core/src/services/auth_service.rs:37-64 | The bytes of a stored envelope: version 1 or 2, two big-endian lengths modulo 2^16, salt, and the key or nonce and wrapped key |
| PasswordEnvelopes.WrapAccountKey | crates/heelonvault-core/src/services/auth_service.rs:114-129 | The password opens the stored form to the account key exactly when the wrapped key has a 16-bit length, and a password that derives another key does not |
| PasswordEnvelopes.OtherPasswordOpensOnlyByCollision | crates/heelonvault-core/src/services/auth_service.rs:132-157 | Another password opens an envelope exactly when it derives the same key |
| PasswordEnvelopes.UnlockedKeyIsWrappable | crates/heelonvault-core/src/services/auth_service.rs:114-157 | A key that came out of an envelope fits into one again |
| AccountKeys.SealWithRecoveryPhrase | crates/heelonvault-core/src/services/account_key.rs:53-77 | The sealed key opens with the phrase in any casing and spacing, for every lower-casing that makes words of words; version 1, salt, nonce, then the key sealed under one derived from the domain line and the words |
| AccountKeys.PhraseOpensHoweverTyped | crates/heelonvault-core/src/services/account_key.rs:26-50 | Two phrases with the same words open the same envelopes |
| Text.WordsOfSpaced | crates/heelonvault-core/src/services/account_key.rs:34-40 | Splitting at white space gives the words whatever the spacing |
| Text.WordsOfJoin | crates/heelonvault-core/src/services/account_key.rs:34-40 | Joining words with single spaces and splitting gives them back |
| Text.NormalFormIsComplete | crates/heelonvault-core/src/services/account_key.rs:34-40 | Two phrases have the same normal form exactly when they have the same lower-case words, whatever the lower-casing of single words |
| Text.JoinedBySingleSpaces | crates/heelonvault-core/src/services/account_key.rs:34-40 | In the joined form words are apart by one space and no other white space occurs |
| Text.TrimTakesBlanks | crates/heelonvault-core/src/services/admin_service.rs:97-104 | Trimming a name takes away white space at its two ends and nothing else |
| Crypto.BlobLayoutsRoundTrip | crates/heelonvault-core/src/services/crypto_service.rs:43-72 | Both blob layouts decode what they encode and re-encode what they decode, nonce first, behind a version byte 1 or none; which byte strings are read at all |
| Crypto.SealBlob | crates/heelonvault-core/src/services/rekey_service.rs:79-85 | A sealed blob opens with its key and with no other |
| Crypto.BlobOpensUnderOneKey | crates/heelonvault-core/src/services/crypto_service.rs:184-199 | No blob opens under two keys |
| Crypto.IdealSuiteExists | crates/heelonvault-core/src/services/crypto_service.rs:134-199 | The laws assumed of the cipher, the derivation and the text encoding can be met together |
| SecretRepository.TrashRunIsSafe | crates/heelonvault-core/src/repositories/secret_repository.rs:228-514 | Over every run: a live secret sits in a live vault, exactly the column named by `blob_storage` is filled, and a row leaves only by a purge while in the trash |
| SecretRepository.TrashStepKeeps | crates/heelonvault-core/src/repositories/secret_repository.rs:228-514 | Each operation keeps that invariant, and a refused one changes nothing |
| SecretRepository.RowsLeaveOnlyByPurge | crates/heelonvault-core/src/repositories/secret_repository.rs:485-514 | A row disappears only through a purge of its own vault, from the trash |
| SecretRepository.RestoreUndoesSoftDelete | crates/heelonvault-core/src/repositories/secret_repository.rs:425-483 | Restoring a trashed secret gives back the very same database |
| SecretRepository.RestoreAfterVaultTrash | crates/heelonvault-core/src/repositories/secret_repository.rs:442-483 | Restoring one secret of a trashed vault revives the vault and leaves the others in the trash |
| SecretRepository.SqlxSecretRepository.RestoreSecret | crates/heelonvault-core/src/repositories/secret_repository.rs:442-483 | Vault and secret are revived together, or both tables are unchanged |
| SecretRepository.SqlxSecretRepository.PermanentDelete | crates/heelonvault-core/src/repositories/secret_repository.rs:485-502 | Removes a trashed row of the named vault, or nothing |
| SecretRepository.SqlxSecretRepository.EmptyTrash | crates/heelonvault-core/src/repositories/secret_repository.rs:504-514 | Removes exactly the rows of the vault that are marked deleted and counts them; every other row of the table stays as it is |
| SecretRepository.SqlxSecretRepository.InsertSecretBlob | crates/heelonvault-core/src/repositories/secret_repository.rs:228-260 | The new row has the vault, kind and title given, and the value in the column named by the storage kind and in no other; no other row changes |
| SecretRepository.SqlxSecretRepository.UpdateSecretBlob | crates/heelonvault-core/src/repositories/secret_repository.rs:295-346 | The value is replaced in its column and the other column is cleared; the rest of the row and every other row stay |
| SecretRepository.SqlxSecretRepository.UpdateSecretMetadata | crates/heelonvault-core/src/repositories/secret_repository.rs:262-293 | The title of a live secret is the one given; its value and every other row stay |
| SecretRepository.SqlxSecretRepository.MoveSecretToVault | crates/heelonvault-core/src/repositories/secret_repository.rs:348-404 | Vault and value change together |
| SecretRepository.SqlxSecretRepository.DeleteVault | crates/heelonvault-core/src/repositories/vault_repository.rs:326-350 | A live vault and its live secrets go to the trash in one transaction |
| TotpServices.LoginCodeAcceptedOnce | crates/heelonvault-core/src/services/totp_service.rs:309-391 | Over any run of login checks, on both paths and with accounts, passwords and stored secrets changing in between: two accepted calls of one user with the code their generator gives for one step, valid at both, are the same call, as long as each reads the clock once |
| TotpServices.LoginRunIsGuardRun | crates/heelonvault-core/src/services/totp_service.rs:309-391 | Every run of login checks is a run of the guard in which each accepted call has passed |
| TotpServices.AcceptedCodeIsCurrent | crates/heelonvault-core/src/services/totp_service.rs:309-391 | An accepted code is the one of a step that is valid when it is checked |
| TotpServices.CodeOfAStepAcceptedOnce | crates/heelonvault-core/src/services/totp_service.rs:94-111 | Over any run of the guard with one clock reading per attempt the code of one step (section 5.2 of RFC 6238) passes at most once |
| TotpServices.DelayedReplayPassesIff | crates/heelonvault-core/src/services/totp_service.rs:94-111 | With two readings per call a second use passes the guard if and only if it reaches it 90 seconds or more after the first |
| TotpWitness.DelayedReplayHappens | crates/heelonvault-core/src/services/totp_service.rs:309-391 | For every ideal suite, generator, secret and step: a run of two accepted calls with the same code of that step, valid at both checks, the second held up by one second between its readings of the clock |
| TotpWitness.LegacySecretProves | crates/heelonvault-core/src/services/totp_service.rs:309-391 | A secret sealed under the fixed 32-byte key of the first releases, which the session key does not open, reads on the legacy path, and its current code proves the second factor |
| TotpServices.GuardRemembersLastAcceptances | crates/heelonvault-core/src/services/totp_service.rs:94-111 | The guard's unexpired entries are exactly what passed in the last 90 seconds |
| TotpServices.SecondAcceptanceIsLate | crates/heelonvault-core/src/services/totp_service.rs:94-111 | Two acceptances of one code are at least 90 seconds apart |
| TotpServices.ReplayKeyIsInjective | crates/heelonvault-core/src/services/totp_service.rs:90-92 | `username:code` determines both for codes of a fixed length |
| TotpServices.TotpService.RejectReplayAndRecord | crates/heelonvault-core/src/services/totp_service.rs:94-111 | Expired entries go first; passes exactly when no unexpired entry names the code, and records it |
| TotpServices.TotpService.VerifyLoginTotp | crates/heelonvault-core/src/services/totp_service.rs:309-391 | Accepted exactly when the code proves the second factor and passes the guard, on the regular and on the legacy path; an accepted legacy secret is stored again under the session key if the database takes the write, and the call does not see whether it did |
| TotpServices.TotpService.CheckStored | crates/heelonvault-core/src/services/totp_service.rs:340-391 | A stored secret that is too short is a storage error, one that neither the session key nor the fixed legacy key opens is refused; any other is accepted exactly with a current code that passes the guard, whatever the path |
| TotpServices.TotpService.EnableTotp | crates/heelonvault-core/src/services/totp_service.rs:251-292 | The secret is stored under the session key, once a current code proves it |
| TotpServices.TotpService.DisableTotp | crates/heelonvault-core/src/services/totp_service.rs:294-307 | Clears the secret of an existing user |
| PasswordGenerator.GeneratePassword | crates/heelonvault-core/src/services/password_service.rs:217-257 | Fails only for a length outside the policy or a failing random source; the password is the one its draws describe and passes the policy |
| PasswordGenerator.GeneratedMeetsPolicy | crates/heelonvault-core/src/services/password_service.rs:217-257 | Whatever is picked and however it is shuffled, the final check passes |
| PasswordGenerator.ProducibleIff | crates/heelonvault-core/src/services/password_service.rs:217-257 | The generator reaches exactly the passwords over its alphabet that meet the policy |
| PasswordGenerator.CharsetsAreFull | crates/heelonvault-core/src/services/password_service.rs:11-14 | Each alphabet holds every letter or digit of its class but l, I, O, 0 and 1; with its length, each once |
| PasswordGenerator.SymbolsAreFull | crates/heelonvault-core/src/services/password_service.rs:14 | The symbols are the printable ASCII ones but for eight; with the length, each once |
| PasswordGenerator.SamplingIsUniform | crates/heelonvault-core/src/services/password_service.rs:72-98 | For every bound each index below it is given by the same number of 32-bit draws, U32_MAX / bound, and more than half of all draws give some index |
| PasswordGenerator.DrawDecidesOrIsPassedOver | crates/heelonvault-core/src/services/password_service.rs:83-98 | A draw that gives an index decides whatever follows; any other draw is passed over and the next one is looked at |
| PasswordGenerator.RandomSource.RandomIndex | crates/heelonvault-core/src/services/password_service.rs:72-98 | On the tape: the last draw taken is one of those that give the index, and every draw taken before it gives none; fails only for an unsupported bound or when the source ends after draws that give none |
| PasswordGenerator.Shuffle | crates/heelonvault-core/src/services/password_service.rs:247-252 | The buffer, shuffled in place, ends as the function of the drawn choices |
| PasswordGenerator.ShuffleIsInjective | crates/heelonvault-core/src/services/password_service.rs:247-252 | Different choices give different permutations |
| PasswordGenerator.ShuffleReaches | crates/heelonvault-core/src/services/password_service.rs:247-252 | Every permutation comes from some choices |
| PasswordGenerator.ShuffledKeepsContents | crates/heelonvault-core/src/services/password_service.rs:247-252 | The shuffle keeps the multiset of characters |
| PasswordGenerator.PolicyIgnoresOrder | crates/heelonvault-core/src/services/password_service.rs:113-149 | The policy depends on which characters occur, not where |
| PasswordGenerator.ValidPasswordIff | crates/heelonvault-core/src/services/password_service.rs:111-151 | Accepts exactly 16 to 128 characters without white space among which are a lower-case letter, an upper-case letter, a digit and another character |
| PasswordGenerator.PickCharacters | crates/heelonvault-core/src/services/password_service.rs:226-245 | One character of each class, then any, by consecutive draws |
| SecurityCenter.Analyze | crates/heelonvault-core/src/services/security_center.rs:294-392 | A finished scan is the report its vaults call for: findings, groups and counters; only a failed listing or a cancellation stops it. The flag is looked at at the start, for each vault, for each item and at the end; the scan finishes only if no look found it set, and is cancelled by the first that does |
| SecurityScans.ReuseIsEqualValues | crates/heelonvault-core/src/services/security_center.rs:294-392 | Over the key hierarchy: two entries of a session's report share a group exactly when the users stored the same non-empty text as both passwords |
| SecurityScans.MarksAreOfPlainText | crates/heelonvault-core/src/services/security_center.rs:334-375 | Unreadable and weak marks are those of the text the users stored, weak being told from its characters and its score |
| SecurityScans.EntryNamesSecret | crates/heelonvault-core/src/services/security_center.rs:361-392 | An entry shows the vault, title and vault name of its live secret, and is marked as reused exactly when another entry's password is the same non-empty text |
| SecurityScans.ScannedOnce | crates/heelonvault-core/src/services/security_center.rs:330-371 | No secret is scanned twice |
| SecurityScans.UnavailableAreShut | crates/heelonvault-core/src/services/security_center.rs:308-332 | The vaults counted as unavailable are the accessible ones that the session key does not open, and the others are counted as analysed |
| SecurityScans.ReadableIsReported | crates/heelonvault-core/src/services/security_center.rs:312-333 | Every secret a user can read has an entry in the report |
| SecurityScans.ScanVaults | crates/heelonvault-core/src/services/security_center.rs:312-333 | One result per accessible vault: its live secrets once each, decrypted with the vault key, or unavailable when it does not open |
| SecurityScans.AnalyzeSession | crates/heelonvault-core/src/services/security_center.rs:294-392 | The report of a session is the one its opened vaults call for; only a cancellation or a user without a row stops it |
| SecurityCenter.SameGroupIff | crates/heelonvault-core/src/services/security_center.rs:378-390 | Two entries share a group exactly when both hold the same readable non-empty password |
| SecurityCenter.GroupedIff | crates/heelonvault-core/src/services/security_center.rs:378-390 | An entry is grouped exactly when its text occurs in another entry |
| SecurityCenter.GroupsAreNumberedInOrder | crates/heelonvault-core/src/services/security_center.rs:378-390 | Groups are 0..k-1 in the order of their first entries |
| SecurityCenter.ReportIsDetermined | crates/heelonvault-core/src/services/security_center.rs:378-390 | The report depends on the vaults alone, not on the iteration order of the index |
| SecurityCenter.WeakVerdict | crates/heelonvault-core/src/services/security_center.rs:58-110 | The fast verdict is the full one: a password is strong exactly with a score of 3 or more and 12 or 13 characters among which are an upper-case letter, a lower-case letter, a digit and one not alphanumeric, or 14 or more with at least three of these four |
| SecurityCenter.AssessIsCapped | crates/heelonvault-core/src/services/security_center.rs:58-102 | The score shown is the estimator's, held down to 1 below 12 characters, to 2 for too few kinds and to 3 below 15 characters |
| SecurityCenter.IndexesUpdated | crates/heelonvault-core/src/services/security_center.rs:345-352 | The index keeps, per text, all positions and a verdict equal to the direct one |
| SecurityCenter.Visit | crates/heelonvault-core/src/services/security_center.rs:334-375 | One item yields its own findings and the updated index and counters |
| SecurityCenter.SortedGroupsFollowLeaders | crates/heelonvault-core/src/services/security_center.rs:379-384 | Sorting by first index puts the groups in the order of first occurrences |
| SecurityCenter.CompleteIff | crates/heelonvault-core/src/services/security_center.rs:212-220 | A report is complete exactly when every vault opened, every password read and no metadata was invalid |
| SecurityCenter.CountersTell | crates/heelonvault-core/src/services/security_center.rs:294-392 | The counters are the number of entries, of entries marked unreadable and of vaults that were not available |
| IpRateLimit.WindowNeverExceedsBound | crates/heelonvault-core/src/repositories/ip_rate_limit_repository.rs:126-222 | With a lock at least as long as the window, between two resets no half-open interval of one window holds more than max(1, 2M - 2) recorded attempts, hence never more than 2M - 1 |
| IpRateLimit.BoundIsReached | crates/heelonvault-core/src/repositories/ip_rate_limit_repository.rs:126-222 | For a maximum of at least one, a window of at least two ticks and a lock no shorter than the window, some run reaches that bound |
| IpRateLimit.CleanupTransparentIff | crates/heelonvault-core/src/repositories/ip_rate_limit_repository.rs:289-302 | Cleaning up changes no later answer of any run if and only if the lock lasts at least as long as the window |
| IpRateLimit.CleanupIsUnseen | crates/heelonvault-core/src/repositories/ip_rate_limit_repository.rs:289-302 | A run with cleanups and the same run without give the same answers |
| IpRateLimit.ShortLockIsSeen | crates/heelonvault-core/src/repositories/ip_rate_limit_repository.rs:289-302 | With a shorter lock a run shows the difference |
| IpRateLimit.EventsAccounted | crates/heelonvault-core/src/repositories/ip_rate_limit_repository.rs:126-222 | At every point the row accounts for the attempts recorded since the reset |
| IpRateLimit.SqlxIpRateLimitRepository.RecordAttempt | crates/heelonvault-core/src/repositories/ip_rate_limit_repository.rs:126-222 | A locked address is answered without recording; otherwise the window goes on or starts anew |
| IpRateLimit.SqlxIpRateLimitRepository.CheckRateLimit | crates/heelonvault-core/src/repositories/ip_rate_limit_repository.rs:224-266 | The answer is locked at a time exactly when an attempt recorded at that time would leave every row as it is |
| IpRateLimit.SqlxIpRateLimitRepository.ResetAttempts | crates/heelonvault-core/src/repositories/ip_rate_limit_repository.rs:268-287 | Forgets the address |
| IpRateLimit.SqlxIpRateLimitRepository.CleanupExpired | crates/heelonvault-core/src/repositories/ip_rate_limit_repository.rs:289-302 | Removes exactly the rows with an expired lock and counts them |
| AuthPolicyServices.RemainingIsHoldMinusElapsed | crates/heelonvault-core/src/services/auth_policy_service.rs:55-83 | Both rules together: max(0, H(n) - elapsed), with H 0, 1, 2, 4, 8 and 300 from the fifth failure |
| AuthPolicyServices.RunRemaining | crates/heelonvault-core/src/services/auth_policy_service.rs:65-83 | At every point of every run, for the failures since the last success, between 0 and 300 |
| AuthPolicyServices.CountsDown | crates/heelonvault-core/src/services/auth_policy_service.rs:65-83 | The wait goes down by one per second |
| AuthPolicyServices.FailuresNeverShorten | crates/heelonvault-core/src/services/auth_policy_service.rs:124-157 | More failures never shorten the wait at any later time |
| AuthPolicyServices.BackoffValues | crates/heelonvault-core/src/services/auth_policy_service.rs:55-63 | The shift with its cap, by value |
| AuthPolicyServices.LockedIff | crates/heelonvault-core/src/services/auth_policy_service.rs:18-22 | The lock flag holds exactly within 300 seconds of the fifth or a later failure |
| AuthPolicyServices.SqlxAuthPolicyService.RecordFailedAttempt | crates/heelonvault-core/src/services/auth_policy_service.rs:124-157 | Counts and dates the failure of a visible name; a blank one is not stored |
| AuthPolicyServices.SqlxAuthPolicyService.GetState | crates/heelonvault-core/src/services/auth_policy_service.rs:91-122 | The row's count and the remaining wait; creates a missing row |
| AuthPolicyServices.SqlxAuthPolicyService.ResetFailedAttempts | crates/heelonvault-core/src/services/auth_policy_service.rs:159-189 | Clears count and date |
| SensitiveClipboards.SensitiveClipboard.CopySensitive | crates/heelonvault-app/src/ui/sensitive_clipboard.rs:452-494 | The new content alone holds a secret, the earlier one is dropped, and timer, content and active copy appear together with the new generation; from 150 ms after it was made a paste gives exactly the text, and nothing before; a copy that fails changes no paste |
| SensitiveClipboards.SensitiveClipboard.TimerFires | crates/heelonvault-app/src/ui/sensitive_clipboard.rs:475-490 | No secret is left and no copy can be pasted any more; the clipboard is wiped exactly when it is ours |
| SensitiveClipboards.SensitiveClipboard.ClearNow | crates/heelonvault-app/src/ui/sensitive_clipboard.rs:498-511 | No secret is left and no copy can be pasted any more; the clipboard is wiped exactly when it is ours and the latest copy is still owed |
| SensitiveClipboards.SensitiveClipboard.ClipboardChanged | crates/heelonvault-app/src/ui/sensitive_clipboard.rs:367-396 | A standing copy that lost the clipboard is dropped and owes nothing; the new content is left alone |
| SensitiveClipboards.SensitiveClipboard.Paste | crates/heelonvault-app/src/ui/sensitive_clipboard.rs:204-222 | A paste gives the text of the standing copy from 150 ms after it was made, nothing before that or from an earlier copy, and an ordinary text as it is |
| SensitiveClipboards.SensitiveClipboard.CurrentExposure | crates/heelonvault-app/src/ui/sensitive_clipboard.rs:94-105 | Shows the kind and both times of the copy that stands, else a decryption in flight |
| SensitiveClipboards.Ledger.Expire | crates/heelonvault-app/src/ui/sensitive_clipboard.rs:121-129 | Says to wipe only for the pending latest generation on our own clipboard |
| SensitiveClipboards.Ledger.TakePending | crates/heelonvault-app/src/ui/sensitive_clipboard.rs:131-136 | Settles what is pending |
| SensitiveClipboards.StandingIff | crates/heelonvault-app/src/ui/sensitive_clipboard.rs:107-137 | A copy stands exactly when nothing ended it since |
| SensitiveClipboards.OwingIsStanding | crates/heelonvault-app/src/ui/sensitive_clipboard.rs:107-137 | While the display is there, pending and standing are the same |
| HvbContainers.SplitUndoesBuild | crates/heelonvault-core/src/services/backup_service.rs:202-257 | A built container splits into its prefix, header and ciphertext if and only if header and ciphertext are not empty |
| HvbContainers.BuildUndoesSplit | crates/heelonvault-core/src/services/backup_service.rs:202-257 | For every accepted file prefix plus ciphertext is the file, and the prefix is the one built from the header |
| HvbContainers.FrameLayout | crates/heelonvault-core/src/services/backup_service.rs:202-257 | An accepted file starts with HVBK, version 2 and a little-endian header length of 1 to 8192, followed by header and ciphertext |
| HvbContainers.IsSqliteIff | crates/heelonvault-core/src/services/backup_service.rs:107-113 | An SQLite file starts with its fifteen-letter name and a zero byte |
| HvbContainers.ExportOpens | crates/heelonvault-core/src/services/backup_service.rs:470-551 | An exported container opens with its phrase to the source, so the self-check never fires |
| HvbContainers.OtherPrefixNeverOpens | crates/heelonvault-core/src/services/backup_service.rs:326-382 | No ciphertext opens behind two different prefixes, whatever the phrases |
| HvbContainers.OtherPhraseNeedsSameKey | crates/heelonvault-core/src/services/backup_service.rs:326-382 | Another phrase opens a file exactly when it derives the same key, and then to the same contents |
| HvbContainers.OpenedIff | crates/heelonvault-core/src/services/backup_service.rs:259-382 | A file opens to a database exactly when its frame splits, its header parses and names argon2id with costs inside the bounds, salt and nonce have their lengths, the derived key opens the ciphertext behind this very prefix, and the plaintext is an SQLite file of the size the header gives |
| HvbContainers.OtherCostsNeverDerive | crates/heelonvault-core/src/services/backup_service.rs:259-284 | Costs outside the bounds are refused before anything is derived: the answer is the same for any derivation |
| HvbContainers.Disk.ExportHvb | crates/heelonvault-core/src/services/backup_service.rs:470-551 | Without a fault of the disk it succeeds exactly for a valid phrase, an SQLite source and a named backup path, and returns the digest of a file that opens to the source; after a failure the backup path holds its old contents, or nothing, which is so exactly when the rename failed |
| HvbContainers.Disk.WriteAtomic | crates/heelonvault-core/src/services/backup_service.rs:286-322 | Whichever call on the file system fails, the path holds the whole of its old or new contents, or nothing, and an old file is lost exactly when the rename fails |
| HvbContainers.LawfulFormatsExist | crates/heelonvault-core/src/services/backup_service.rs:203-257 | The laws assumed of header, base 64 and derivation can be met together |
| HvbContainers.Disk.ImportHvb | crates/heelonvault-core/src/services/backup_service.rs:553-582 | On success the target holds the backup's database, the old one is kept beside it under the extension `old`, and the digest of the backup is returned; after any failure, a fault of the disk included, the old database is in its place or beside it unless it has this extension itself |
| HvbContainers.Disk.ReplaceExistingDatabase | crates/heelonvault-core/src/services/backup_service.rs:384-400 | Without a fault it fails, for a target with a name, exactly when the target exists and its extension is `old`; after a failure the old database is still there if and only if it has another extension or removing it as its own stale copy failed |
| Paths.WithExtensionFixpoint | crates/heelonvault-core/src/services/backup_service.rs:390-397 | Changing the extension of a path gives the same path exactly when it has that extension already or has no name |
| Paths.WithExtensionOf | crates/heelonvault-core/src/services/backup_service.rs:390-397 | An extension is replaced by the new one, and one is added where there was none |
| Paths.NamedPath | crates/heelonvault-core/src/services/backup_service.rs:286-295 | What follows the last separator is the file name and the rest the directory |
| HvbContainers.PartialPathIsSibling | crates/heelonvault-core/src/services/backup_service.rs:286-295 | An export is first written to a hidden file of its name in the same directory |
| HvbContainers.WithOldFixpoint | crates/heelonvault-core/src/services/backup_service.rs:390-397 | The same for the extension `old` |
| IpFilter.InBlockIff | crates/heelonvault-url-check/src/ip_filter.rs:18-34 | For every address, network and prefix length the mask test is membership in the aligned range of size 2^(width - prefix) |
| IpFilter.ShiftedOnes | crates/heelonvault-url-check/src/ip_filter.rs:18-34 | The shifted mask is 2^width - 2^(width - prefix) |
| IpFilter.PublicV4Iff | crates/heelonvault-url-check/src/ip_filter.rs:37-62 | An IPv4 address is public exactly when no block of the table covers it |
| IpFilter.PublicV4ByOctets | crates/heelonvault-url-check/src/ip_filter.rs:37-62 | An IPv4 address is public exactly when its octets name none of the eighteen special-purpose ranges |
| IpFilter.PublicV6Iff | crates/heelonvault-url-check/src/ip_filter.rs:64-90 | Outside ::ffff:0:0/96 and 64:ff9b::/96 an IPv6 address is public exactly inside 2000::/3 and outside the four carved-out blocks, by its first two groups |
| IpFilter.EmbeddedDecides | crates/heelonvault-url-check/src/ip_filter.rs:73-82 | An address of ::ffff:0:0/96 (section 2.5.5.2 of RFC 4291) or 64:ff9b::/96 (section 2.1 of RFC 6052) is judged as the IPv4 address in its low 32 bits |
| IpFilter.EmbeddingsOf | crates/heelonvault-url-check/src/ip_filter.rs:73-82 | Both ranges reach every IPv4 address |
| IpFilter.OctetsRecompose | crates/heelonvault-url-check/src/ip_filter.rs:79-81 | The last four octets are the low 32 bits |

## Left out

- HvbContainers.Disk.ExportHvb: parent directories exist, one call on the file system fails at most, and removing the partial file after a fault works; two spellings of one file, by links or `..`, count as two files.
- HvbContainers.Disk.ImportHvb: the same.
- BackupJourneys.RestoreElsewhere: what the database engine reads in a file is a given function.
- AdminServices.AdminService.BootstrapFirstAdmin: the recovery verifier and the role column are not stored; neither opens anything.
- AuthServices.AuthService.CreateUser: `change_password` beside it, which on a legacy envelope rewrites memory only, is not modelled and not part of the runs.
- AdminServices.AdminService.CreateUser: the implementation is not part of the repository; the member follows the trait's description and the single-account rule of the authentication service, and asks that memory holds every stored name.
- VaultServices.VaultService.GrantVaultAccess: likewise after the trait's description; who may grant is not checked.
- Applications.Application.DeleteVault: like the service method, leaves the role check out.
- Applications.Application.ShareVault: like `VaultServices.VaultService.GrantVaultAccess`, does not check who may grant.
- VaultServices.VaultService.DeleteVault: the role check of `check_permission` is left out, so every user who reaches the vault may delete it.
- SecurityCenter.Analyze: metadata, expiry and URL findings are given with each item; vaults are opened, listed and decrypted before the pass (`SecurityScans.ScanVaults`) instead of within it, and listing one vault does not fail.
- SecurityCenter.Visit: takes the item with its text and metadata findings.
- SecurityCenter.WeakVerdict: the estimator's score and the Unicode letter classes are parameters.
- SensitiveClipboards.SensitiveClipboard.Paste: the Windows provider, which cannot drop its text, and the formats offered besides text are left out; listeners are not modelled.
- PasswordGenerator.RandomSource.RandomIndex: an endless stream of rejected draws is not a run; the tape is finite and its end is a failing source.
- AuthPolicyServices.SqlxAuthPolicyService.RecordFailedAttempt: the counter is unbounded, and the auto-lock delay beside it is left out.
- IpRateLimit.SqlxIpRateLimitRepository.CleanupExpired: compares instants where the program compares their text form.
- Faults of the database in the middle of an operation other than missing rows, and concurrent calls: a transaction commits as a whole, and operations outside one transaction run without interruption.
- The recovery verifier, the vault key version, tags, expiry, usage counts and other columns that open nothing.
- User deletion, vault key rotation, teams and audit records.
- `score_password_strength`: a sum of one-branch terms.
- PIN attempts, entitlements, licences, access control tables and plain getters: they would only add easy members.
- SQL text, JSON, base 64, BIP-39 word lists, Argon2id, AES-GCM, HOTP and zxcvbn themselves.
- Windows, dialogs, settings, update checks, TLS and DNS.
- Wiping of memory and constant-time comparison: assignment and equality here.
