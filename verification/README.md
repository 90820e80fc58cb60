# Verification of the Vaultwarden operator

The operator keeps Kubernetes Secrets in step with items of a Vaultwarden (Bitwarden) vault. It logs in,
downloads and decrypts the vault into a cache, answers lookups from that cache, and writes one Secret per
`VaultwardenSecret` resource. Replicas elect a leader through a lease. This project is a Dafny model of
that logic with proofs of what it guarantees. `dafny verify dfyconfig.toml` checks all of it.

## What is modelled

- **Cipher strings** (`Bytes`, `Base64`, `CipherString`, `Crypto`): Base64 (section 4 of RFC 4648, canonical
  as section 3.5 asks), splitting and parsing the four cipher string types, the MAC check, CBC chaining
  (section 6.2 of NIST SP 800-38A) done in place on a buffer, padding (section 6.3 of RFC 5652), and the
  symmetric key with its legacy fallback (`LegacyLoss`). AES, HMAC, HKDF, RSA and UTF-8 decoding are parameters.
  The only law assumed of them is that the block cipher is a permutation under every key (`Crypto.Lawful`).
- **The vault** (`Vault`, `Lookup`): organization keys, ciphers, skip counters and the name index, each built
  by a loop and proved equal to a declarative meaning; the two-pass search, scoped lookup, and the tiers of
  secret extraction. A hash map may list its fields in any order, so extraction is a relation.
- **The session** (`Session`, `Protocol`, `Invariants`, `Runs`, `Guarantees`, `Calls`, `Outcomes`, `Renewals`,
  `CallOutcomes`, `Sections`, `Freshness`, `Recovery`, and `Schedules` for concrete runs): the fields behind the readers-writer lock are a class whose methods are the sections run under that lock. Around them is a step
  system in which any number of callers, background refreshers and token refreshers interleave. One step is
  the code between two suspension points, one lookup, or one assignment under the write lock. Server
  replies are free; the clock is free except that it never goes back.
- **Reconcile and status** (`Status`, `Controller`, `Turns`): the sync interval, the requests made from a spec, the
  data of the Secret, the ordered writes to the cluster (each of which may be refused, or take effect and
  still report an error), the two status updates, and the JSON merge patch (section 2 of RFC 7396).
- **The operator** (`Operator`): runs of reconciles that read any earlier state, spec edits and foreign work on the
  Secret, side by side with a run of a vault client for each time a process came to lead, so restarts and
  overlapping leaders are included. Each fetching reconcile has its own call to its own client, started after the
  state it read and returned before its writes. `Reached` exhibits such a run.
- **Leader election** (`Leader`, `Overlap`, `Contest`): the renewal loop and any number of replicas over one lease record in real
  time. The lease service is assumed to be atomic, to grant a lease that is free, expired or already the
  caller's, and to release it only for its holder. Every lease call is bounded by `callLimit`, and the
  client initialization between acquiring the lease and the renewal loop by `initLimit`.
- **Durations** (`Duration`, `DurationFaults`): the scanning loop with its 64-bit arithmetic.

## Limits of the code

Each of these is a lemma, with the exact condition where there is one.

- The cooldown spaces on-demand refreshes after commits only (`Runs.RefreshesCoolDown`, `Runs.CloseStarts`). A
  failed refresh does not move `last_refresh_at` (src/vault/mod.rs:200-205, 242), so the next one may follow at once
  (`Freshness.FailedRefreshDoesNotCool`).
- The background refresher does not take the refresh mutex (src/vault/mod.rs:294-295). A commit can put an older
  response over a newer one only if exactly one of the two was on demand (`Freshness.FreshUnlessMixed`), and then it
  can in either order (`Freshness.OlderOverNewer`).
- `lastSyncTime` is never lost but can go back. A failure leaves it alone exactly if it read none or the present
  one (`Status.FailureKeepsTimeExactly`), and the first wrong time is due to a failure that overlooked a success
  (`Status.TimeIsLatest`).
- Two leaders can overlap. A replica that lost the lease may win it back while it is still in its loop. Whether the
  overlaps have a bound is decided exactly by the timing (`Contest.OverlapBoundedExactly`); with the shipped constants
  they have one exactly if lease calls take under five seconds (`Contest.ShippedSettles`). Sharper bounds hold for
  shorter calls: with calls under 15/4 s the one of `Leader.OverlapWithoutGap`, and if the initialization gap and four
  calls fit in the 15 s lifetime together, the one of `Leader.OverlapIsOverstay` (`Leader.ShippedBounds`).
  `initialize_vault_client` waits 20 s and 45 s between its attempts (src/vault/mod.rs:393-398), so after a failed
  attempt the last one does not apply.
- Minutes and hours that overflow 64 bits wrap instead of saturating (`Durations.OverflowIsNotSaturated`), and
  units below a second count as nothing.
- An interval such as a digit and an accented letter makes the parser panic (`Durations.PanicsExactly`,
  `Durations.AccentedUnitPanics`); the reconcile then answers nothing (`Controller.ComesBack`).
- A type 0 key wrapped the legacy way is lost if the first attempt, under the stretched key, happens to succeed
  (`Crypto.LegacyKeyRecovered`, `LegacyLoss.LegacyKeyLost`).
- The repository's README.md:176 says there is no leader election; src/leader.rs has one and is followed.

## Model

| member | source | states |
|---|---|---|
| `Base64.DecodeEncode` | src/vault/crypto.rs:119-120 | Decoding an encoding returns the bytes, for every length. |
| `Base64.DecodeExact` | src/vault/crypto.rs:119-137 | Each byte string has exactly one accepted text, its encoding: decoding is canonical. |
| `Base64.EncodedAt` | src/vault/crypto.rs:453-455 | Character by character, an encoding is the standard alphabet at the next six bits of the bytes, four characters for three bytes or part of them, and `=` where no bits are left. |
| `CipherStrings.ParseExact` | src/vault/crypto.rs:94-152 | Parsing accepts a text as a value exactly when the value is well shaped for its type and the text spells it: only the type number's spelling and, for RSA, stray pipes are free. |
| `CipherStrings.ParsePrint` | src/vault/crypto.rs:450-455 | Printing and parsing back is the identity for all four types. |
| `CipherStrings.ParsesExactly` | src/vault/crypto.rs:94-152 | The accepted texts written out: a decimal number, with or without a plus sign, that is 0, 2, 3 or 4; a dot; and the Base64 fields of that type, for 3 and 4 with pipes anywhere. |
| `CipherStrings.RemoveJoins` | src/vault/crypto.rs:142 | Removing the pipes distributes over joining texts. |
| `CipherStrings.ParseErrorsExactly` | src/vault/crypto.rs:95-152 | Exactly when a text is refused for being empty, for its missing dot, for its type text, for its type, and for its number of parts. |
| `Crypto.UnpadExact` | src/vault/crypto.rs:388-409 | Unpadding accepts exactly the padded buffers and undoes padding, in both directions and for every length. |
| `Crypto.CbcDecryptEncrypt` | src/vault/crypto.rs:439-442 | CBC decryption inverts encryption over any number of blocks. |
| `Crypto.CbcEncryptDecrypt` | src/vault/crypto.rs:190-193 | CBC encryption inverts decryption, so no two ciphertexts decrypt alike. |
| `Crypto.CbcDecryptInPlace` | src/vault/crypto.rs:190-193 | Decrypting the buffer in place, one block at a time, leaves the CBC decryption of its old contents. |
| `Crypto.Decrypt` | src/vault/crypto.rs:155-196 | The imperative decryption gives the specified outcome, each error in the order the checks are made. |
| `Crypto.DecryptExact` | src/vault/crypto.rs:155-196 | Success with `m` holds exactly for encryptions of `m`; for type 2 only with a correct MAC under a non-empty MAC key. |
| `Crypto.DecryptErrorsExactly` | src/vault/crypto.rs:155-196 | Exactly when each error of a decryption is given, from the lengths, the type, the MAC and the padding. |
| `Bytes.XorAt` | src/vault/crypto.rs:190-193 | The exclusive-or of the chaining is addition without carry on each binary digit of each byte. |
| `Crypto.RoundTrip` | src/vault/crypto.rs:427-456 | For every key, IV and plaintext, decrypting the printed type 2 string returns the plaintext. |
| `Crypto.DecryptBytesExact` | src/vault/crypto.rs:94-196 | For any key, a text decrypts to `m` exactly when the encryption half has 32 bytes and the text spells a type 0 encryption of `m`, or a type 2 one and there is a MAC key. |
| `Crypto.OpensExactly` | src/vault/crypto.rs:94-196 | The same by type number: a text decrypts to `m` exactly if it spells type 0, or under a MAC key type 2, with the CBC encryption of padded `m`. |
| `Crypto.TextExactly` | src/vault/crypto.rs:225-232 | A decrypted text is exactly what UTF-8 reads from the opened bytes; the empty text gives the empty one. |
| `Crypto.PrivateKeyExactly` | src/vault/crypto.rs:348-360 | A private key comes out exactly when the text opens under the user key to bytes that PKCS#8 reads as it. |
| `Crypto.UserKeyExactly` | src/vault/crypto.rs:290-342 | From text and master key to user key: the 64 bytes it opens to under the keys expanded with the labels `enc` and `mac`; or, only if it opens to nothing under these and is type 0, under the master key itself. |
| `Crypto.SymmetricKeyExact` | src/vault/crypto.rs:308-342 | Exactly when the user key comes out, and which: the stretched key first, the raw master key only after that fails and only for type 0. |
| `Crypto.KeyIsAuthenticated` | src/vault/crypto.rs:308-342 | A key obtained from a type 2 text had its MAC verified under the stretched key; RSA texts give none. |
| `Crypto.ModernKeyRecovered` | src/vault/crypto.rs:318-341 | A key wrapped under the stretched key is always recovered. |
| `Crypto.LegacyKeyRecovered` | src/vault/crypto.rs:322-331 | A key wrapped under the raw master key is recovered exactly when the stretched attempt fails or gives the same bytes. |
| `LegacyLoss.LegacyKeyLost` | src/vault/crypto.rs:318-336 | A lawful block cipher under which every such key is lost: the stretched attempt turns the padding of sixteen into one and succeeds with 79 bytes. |
| `Crypto.OrgKeyExact` | src/vault/crypto.rs:206-385 | From text to key: an organization key comes out exactly of a type 3 text whose plaintext under OAEP with SHA-256, or a type 4 text whose plaintext under OAEP with SHA-1, is its two 32-byte halves in order. |
| `Vault.DecryptCipher` | src/vault/sync.rs:308-369 | The loop over the fields builds the specified item, and fails only for the name. |
| `Vault.CipherExactly` | src/vault/sync.rs:308-369 | Whichever parts of a cipher decrypt, its item is exactly this: each part is what its text opens to, empty if it is missing or does not open; and there is none exactly if the name does not open. |
| `Vault.SealedItemOpens` | src/vault/sync.rs:308-369 | A cipher whose name, notes, password and fields are sealed under a key decrypts under it to exactly that item, every part in its place. |
| `Vault.FieldMapMeaning` | src/vault/sync.rs:341-356 | The field map holds each non-empty field name with the value of its last occurrence, and nothing else. |
| `Vault.DecryptOrgKeys` | src/vault/sync.rs:240-260 | Each organization id gets the key of its last entry whose key decrypts, and nothing if none does or the private key fails. |
| `Vault.KeyForExactly` | src/vault/sync.rs:240-277 | The key an owner dictates, from the response itself: the user's, or what the last entry with that id whose RSA text opens under the private key holds. |
| `Vault.IndexOrgs` | src/vault/sync.rs:223-232 | Each lowercased organization name leads to the ids that carry it, in order, and no other name is present. |
| `Vault.IdsNamedExactly` | src/vault/sync.rs:223-232 | A name leads to one id for each organization that carries it up to letter case, in the order of the response. |
| `Vault.DecryptVault` | src/vault/sync.rs:239-305 | The items are the decryptions, each under the key its owner dictates, of exactly the ciphers that decrypt, in order; kept and skipped add up to all, and each skip has its right reason. |
| `Vault.VaultUnique` | src/vault/sync.rs:239-305 | A response and a key determine the cache. |
| `Lookup.FindItem` | src/vault/sync.rs:380-405 | The two loops find the specified item. |
| `Lookup.FindIsBest` | src/vault/sync.rs:371-405 | The item found is the least in scope by (exact before partial, then position), and none is found only when no item in scope matches. |
| `Lookup.LookupAnywhereExactly` | src/vault/sync.rs:436-440 | Without a vault a lookup gives exactly the best eligible item, and `NotFound` exactly if none is eligible. |
| `Lookup.LookupInVaultExactly` | src/vault/sync.rs:419-435 | With a vault: `VaultNotFound` exactly if no organization carries the name, `VaultAmbiguous` exactly if several do, the best eligible item of the one that does, and `NotFoundInVault` exactly if it has none; nothing else. |
| `Lookup.WorthRefreshExactly` | src/vault/sync.rs:180-187 | A failed lookup is worth a refresh exactly unless the request names a vault that several organizations carry. |
| `Lookup.ScopedIsFiltered` | src/vault/sync.rs:377-405 | A search scoped to an organization is the unscoped search on that organization's items alone. |
| `Lookup.NoInterference` | src/vault/sync.rs:407-441 | Two caches that agree on one organization's id and items answer every lookup scoped to it alike, up to the count in the message. |
| `Lookup.DecryptedIsWellIndexed` | src/vault/sync.rs:428 | In a decrypted vault, taking the first id of a name cannot fail. |
| `Lookup.ScopedProvenance` | src/vault/sync.rs:414-435 | A scoped lookup returns the decryption of a cipher with the id of the only organization of that name, under the key for that id. |
| `Lookup.KeyIsOwn` | src/vault/sync.rs:245-252 | If no other entry repeats its id, the key for an organization's id is that of its own entry. |
| `Lookup.ExtractSecret` | src/vault/sync.rs:450-474 | The loops return one of the item's possible secrets. |
| `Lookup.SecretsAreExtractions` | src/vault/sync.rs:450-474 | The possible secrets are exactly what the code yields over all orders in which the fields may be listed. |
| `Lookup.TiersExactly` | src/vault/sync.rs:443-474 | The possible secrets by name: the password; the first filled of value, secret, api_key, apikey and token; the notes; any filled field; nothing. |
| `Lookup.SecretUniqueExactly` | src/vault/sync.rs:467-471 | The secret does not depend on that order exactly when an earlier tier decides or all non-empty fields agree. |
| `Lookup.SecretEmptyExactly` | src/vault/sync.rs:450-474 | The secret is empty exactly when password, notes and every field are. |
| `Sessions.Session.StoreTokens` | src/vault/mod.rs:327-332 | Storing a token answer changes exactly the fields it carries; the cache and its time stay. |
| `Sections.CommitSection` | src/vault/mod.rs:231-242 | The two assignments a committing refresh makes, one per step, add up to the state that `CommitCache` leaves, and the lock is given back. |
| `Sections.TokenSection` | src/vault/mod.rs:326-361 | The four assignments of a token write, one per step, add up to the method that stores a token answer. |
| `Sections.WriterIsAlone` | src/vault/mod.rs:326-361 | While one process holds the write lock nobody else changes the session, so each section appears as one change. |
| `Sessions.Session.TryFetchSecrets` | src/vault/mod.rs:170-183 | Either one secret per request, index by index, or the error of the first request that fails; no partial answer. |
| `Sessions.FailureDecides` | src/vault/mod.rs:177-181 | The first failing request alone decides the error. |
| `Invariants.InitHolds` | src/vault/mod.rs:103-137 | A client that has just logged in satisfies the session invariant. |
| `Invariants.StepKeeps` | src/vault/mod.rs:153-362 | Every step of every process keeps it, and disturbs the others only through the locks it holds. |
| `Runs.RefreshesCoolDown` | src/vault/mod.rs:191-207 | In every interleaving each on-demand refresh starts at least the cooldown after every earlier commit, and on-demand commits are that far apart. |
| `Runs.CloseStarts` | src/vault/mod.rs:191-207 | Between two on-demand starts closer than the cooldown nothing was committed. |
| `Freshness.FailedRefreshDoesNotCool` | src/vault/mod.rs:200-205 | Whatever the cooldown, a run in which two on-demand refreshes start at the same moment, the first having failed. |
| `Runs.FewRefreshesPerWindow` | src/vault/mod.rs:187-198 | However many callers miss at once, a window of length w sees at most w/min + 1 on-demand refreshes succeed. |
| `Runs.FetchIsSnapshot` | src/vault/mod.rs:153-183 | Whatever a call returns is the answer to all its requests from one cache the session held during the call, after its own refresh if it made one. |
| `Runs.AttemptedExactly` | src/vault/mod.rs:157-166 | A call tries a refresh exactly when its first failing request fails with an error a refresh might cure. |
| `Guarantees.SessionConsistent` | src/vault/mod.rs:326-361 | Outside a write, the access token and its expiry are of one grant and the cache is that of the last commit; both key halves always have 32 bytes; readers exclude a writer; an open client always has a cache. |
| `Guarantees.RefreshTimeMonotone` | src/vault/mod.rs:231-242 | The time of the last refresh never goes back, and a client once open stays open. |
| `Guarantees.NeverUninitialized` | src/vault/mod.rs:137-175 | No call ever returns that the client is not initialized. |
| `Guarantees.CommitsAreOwnRefreshes` | src/vault/mod.rs:210-245 | Every commit was appended by a refresh that read its key before it received its response, held both until that very commit, and stored the decryption of the one under the other. |
| `Freshness.OnDemandIsFresh` | src/vault/mod.rs:191-207 | An on-demand refresh that commits after another one sent its request after that commit, so these never put an older response over a newer one. |
| `Freshness.SameProcessIsFresh` | src/vault/mod.rs:284-307 | Of two commits of one process, the later one's request was sent after the earlier commit. |
| `Freshness.FreshUnlessMixed` | src/vault/mod.rs:191-245 | With one background refresher, a commit can overlook an earlier one only if exactly one of the two was on demand. |
| `Freshness.OlderOverNewer` | src/vault/mod.rs:289-305 | And then it can, in both orders: for any two responses there is a run in which the one received first is committed last and stays in the cache. |
| `Guarantees.FetchIsCurrent` | src/vault/mod.rs:153-183 | Whatever a call returns is the answer to all its requests from the vault committed last at one moment of the call; a retry reads its own refresh or a later one. |
| `Guarantees.FetchedValuesAreServed` | src/vault/mod.rs:153-245 | Every fetched value is a secret of an item of a committed cache; if the request names a vault, the item comes from that organization's own cipher and key. |
| `Calls.CallIsBounded` | src/vault/mod.rs:153-245 | From above: a call makes at most two passes, one refresh attempt and two sync requests, and takes at most 2n + 35 steps for n requests, whatever others do. |
| `Outcomes.RefreshExactly` | src/vault/mod.rs:210-245 | From the replies it heard, a refresh commits a response exactly if that answered its sync, or a second one after a refusal and a renewal; and ends without a commit exactly if the renewal that was due failed (grant refused and login refused or its key not unwrapped), or the sync, or the renewal after a refusal, or the second sync. |
| `Outcomes.KeeperExactly` | src/vault/mod.rs:313-320 | A round of the token keeper asks for a renewal exactly if the expiry it read is at most a minute away. |
| `Outcomes.RoundHasStart` | src/vault/mod.rs:210-215 | Every round has come from reading the expiry, so none begins in the middle. |
| `Renewals.RenewalStores` | src/vault/mod.rs:322-361 | A renewal leaves exactly what the server granted last: access token, refresh token if there is one, the expiry counted from a moment of the write, after a login the unwrapped key; and nothing else changes. |
| `Renewals.CarriedWasRead` | src/vault/mod.rs:213-223 | Each sync carries the access token, and each renewal the refresh token, that the session had when the round read it; the second sync reads it again. |
| `Recovery.RefusalIsRecovered` | src/vault/mod.rs:216-242 | For any grant and response a run in which the first sync is refused, the token renewed, the second sync answered and its response committed. |
| `CallOutcomes.CallExactly` | src/vault/mod.rs:153-207 | A call checks the cooldown exactly after a miss that a refresh might cure, starts a refresh exactly if the check finds the last one long enough ago, makes a second pass exactly if its refresh commits, and returns what its last pass gave. |
| `Calls.NoDeadlock` | src/vault/mod.rs:153-362 | A call that has not returned is never stuck: it, the holder of the refresh mutex or a holder of the lock can move. |
| `Status.StatusRoundTrip` | src/crd.rs:84-126 | A status written by the serialization rules fits the schema and reads back as itself. |
| `Status.PatchMeaning` | src/controller.rs:309-315 | On any server the patch sets readiness and error exactly, sets time and generation or keeps the old, replaces a non-empty condition list whole, and touches nothing else. |
| `Status.PlainPatchKeepsError` | src/controller.rs:301-313 | Without the explicit null an earlier error would survive every success. |
| `Status.ConditionList.Upsert` | src/controller.rs:318-324 | The list is changed in place at the first condition of that type, or grows by one. |
| `Status.UpsertedFacts` | src/controller.rs:317-324 | Upserting keeps types unique, installs the new condition, and loses or adds no other. |
| `Status.BuildReadyStatus` | src/controller.rs:198-229 | The status built for a success, its list of conditions changed in place. |
| `Status.BuildFailedStatus` | src/controller.rs:241-279 | The status built for a failure, its list of conditions changed in place twice. |
| `Status.ReadyStatusExactly` | src/controller.rs:198-229 | The status of a success in full: its Ready condition with reason, message, generation and time, and every other condition that was read except SyncFailed. |
| `Status.FailedStatusExactly` | src/controller.rs:241-279 | The status of a failure in full: both its conditions with reason, message, generation and time, every other condition that was read, and the last sync time that was read. |
| `Status.UpdatesAreCoherent` | src/controller.rs:192-282 | Whatever status was read, both updates give unique condition types; ready goes with Ready "True", no SyncFailed, no error; not ready with both conditions carrying the error. |
| `Status.UpdateShows` | src/controller.rs:192-299 | In every run an update leaves its own outcome, error, generation and, on success, time on the server, however stale its read. |
| `Status.StatusRuns` | src/controller.rs:192-324 | From no status at all, every later status is coherent, stays present, and keeps a last sync time once it has one. |
| `Status.FailureKeepsTimeExactly` | src/controller.rs:275 | In every run a failure leaves the last sync time as it is exactly if the status it read had none or the present one. |
| `Status.TimeIsLatest` | src/controller.rs:192-324 | While no failure overlooks a success written between its read and its write, the time on the server is always that of the latest success. |
| `Status.StaleFailureRewindsTime` | src/controller.rs:275 | A run in which a failure that overlooked a success puts an older time over the newer one. |
| `Status.RewindRepeats` | src/controller.rs:275 | Once that has happened, a later failure can set the time back though no success lies between its read and its write. |
| `Controller.IntervalExactly` | src/controller.rs:375-384 | Accepted intervals are the default for the empty text and otherwise exactly the positive durations the text denotes. |
| `Controller.RequestsExactly` | src/controller.rs:335-370 | The requests are exactly what the entries ask for, in order, or the error is that of the first entry without a name. |
| `Controller.SecretDataKeys` | src/controller.rs:120-126 | The Secret has exactly the keys of the entries. |
| `Controller.SecretDataValue` | src/controller.rs:120-126 | Each key holds the value fetched for the last entry with that key. |
| `Controller.FetchedIsDelivered` | src/controller.rs:105-126 | Data built from what one cache answered to the requests delivers every entry of the spec from that cache. |
| `Controller.Cluster.PatchStatus` | src/controller.rs:284-299 | A status write changes the resource by its patch or not at all. |
| `Controller.Cluster.SetReadyStatus` | src/controller.rs:192-232 | A success changes nothing in the cluster but the resource's status. |
| `Controller.Cluster.SetFailedStatus` | src/controller.rs:234-282 | A failure changes nothing in the cluster but the resource's status. |
| `Controller.Cluster.WriteSecret` | src/controller.rs:149-169 | At most one body is submitted, as a creation exactly when there was no Secret. |
| `Controller.Cluster.ReconcileApply` | src/controller.rs:78-176 | The ordered writes, with their early exits, lead to the specified cluster state and action. |
| `Controller.WrittenAllOrNothing` | src/controller.rs:85-169 | The Secret is submitted exactly when interval, every entry and the whole fetch are good and the cluster takes it; then once, each key with the value fetched for its last entry; otherwise it is untouched. |
| `Controller.ComesBack` | src/controller.rs:91-186 | Every outcome comes back after a positive delay, exactly unless the interval is a text that makes the parser panic. |
| `Turns.IntervalCases` | src/controller.rs:375-384 | An interval text is accepted, breaks the parser, stands for nothing, or is faulty in one way, each exactly when it should. |
| `Turns.DecisionExactly` | src/controller.rs:85-114 | A reconcile reports a failure exactly if it is that of the interval, else of the first entry without a name, else of the fetch; and stores exactly if there is none. |
| `Turns.ActionExactly` | src/controller.rs:85-186 | When the resource is looked at again: after its own interval if that is good, else after 300 s, provided the writes due are confirmed; after an API error otherwise; never if the parser breaks. |
| `Turns.ResourceExactly` | src/controller.rs:85-172 | What becomes of the resource: the reported failure, or ready once the Secret is confirmed, unless the status write is refused; and nothing in all other cases. |
| `Operator.RunOfStatuses` | src/controller.rs:78-299 | Every run of reconciles, seen from the status, is a run of status updates, so all that holds of those holds here. |
| `Operator.GenerationFixesSpec` | src/controller.rs:198 | States of one generation have one spec, so a generation names a spec. |
| `Operator.WritesAreComplete` | src/controller.rs:105-169 | Over every joint run each Secret ever submitted was filled completely by one reconcile, for the spec of its generation, from one vault its own client held between that reconcile's read and its write, itself the decryption of the response last committed. |
| `Operator.ReadyMeansDelivered` | src/controller.rs:78-232 | Over every joint run, however stale the reads, the very reconcile that made the status ready submitted such a Secret for the generation the status names. |
| `Operator.CallDelivers` | src/controller.rs:106 | What a call of the client's run returned delivers every entry out of the last commit at a moment of that call, a scoped entry from its own organization's ciphers. |
| `Reached.ReadyIsReached` | src/controller.rs:78-232 | A joint run from a sealed item in the vault to a Secret that holds exactly its password under the entry's key, and a ready resource; so the statements about ready resources are not empty. |
| `Leader.KeepRenewing` | src/leader.rs:146-181 | The loop ends at the first answer that loses the lease or completes a threshold of failures in a row, and not before. |
| `Leader.AnswerHeard` | src/leader.rs:153-181 | Once the answer to its request is back a replica has renewed and forgotten its errors if the lease was to be had, is gone if it was not, and counts one error more, or is gone at the threshold, if there was no answer. |
| `Leader.StepKeeps` | src/leader.rs:91-190 | Every step of every replica, and every passing of time, keeps the invariant relating loop time, error count and recorded renewal. |
| `Leader.StayIsBounded` | src/leader.rs:146-181 | A replica in the loop had a renewal recorded at most its longest stay ago: the threshold of failing rounds, one more call, and the initialization gap if it has not renewed in the loop. |
| `Leader.StayIsReached` | src/leader.rs:146-181 | For every choice of constants a run reaches that stay, so it cannot be improved. |
| `Leader.LeaderWasRenewed` | src/leader.rs:146-181 | With a lifetime of two intervals or more, that is at most TTL + (threshold + 1) calls ago, plus the gap. |
| `Leader.OverlapIsBounded` | src/leader.rs:109-181 | When two replicas are in the loop, one of them does not hold the lease, and the holder's tenure began at most that one's stay, less one lifetime, ago. |
| `Leader.NoReturnFromTheLoop` | src/leader.rs:155-163 | If the stay is shorter than two lifetimes, a replica that lost the lease to another cannot win it back from inside the loop. |
| `Leader.OverlapLasts` | src/leader.rs:109-181 | If the stay is shorter than two lifetimes, two replicas are in the loop together for at most the stay less one lifetime, whether the lease was taken over after expiry or released, by them or by others. |
| `Leader.OverlapIsOverstay` | src/main.rs:109-203 | In other terms: for at most the initialization gap and threshold + 1 lease calls. |
| `Leader.OverlapWithoutGap` | src/vault/mod.rs:382-424 | However long the client takes to initialize, for at most the failing rounds and a stay without the gap less one lifetime, if that stay is shorter than two lifetimes. |
| `Overlap.OverlapIsLimited` | src/leader.rs:109-181 | If the failing rounds last less than two lifetimes, and with one more call less than two lifetimes and an interval, no two replicas are in the loop together for longer than a bound fixed by the timing, however long the client takes to initialize and whoever else competes. |
| `Contest.OverlapUnbounded` | src/leader.rs:146-181 | For every timing with a positive lifetime that fails either half of that condition, and every length, a run in which two replicas are in the loop together for that long. |
| `Contest.OverlapBoundedExactly` | src/leader.rs:146-181 | So for every positive lifetime the overlaps have a bound exactly under that condition. |
| `Contest.ShippedSettles` | src/leader.rs:37-40 | With the shipped constants the condition holds exactly when lease calls take under five seconds. |
| `Leader.ShippedBounds` | src/leader.rs:37-40 | With the shipped constants the loop gives up after three failures; the bounds that count the gap need gap + four calls under 15 s, those without it need four calls under 15 s. |
| `Leader.ShortLifetimeOverstays` | src/leader.rs:148-150 | For every lifetime below two intervals there is a run beyond lifetime and overstay, so the condition on the constants is exact. |
| `Durations.ParseDuration` | src/duration.rs:12-73 | The scanning loop computes the specified outcome, error or panic. |
| `Durations.AcceptedExactly` | src/duration.rs:12-73 | A text is accepted with a value exactly when, trimmed, it is one or more digit-run and unit pairs whose seconds sum to it with saturation. |
| `Durations.ConcatAdds` | src/duration.rs:8-11 | Two accepted texts without outer space, joined, give the saturated sum of their values. |
| `DurationFaults.ErrorsExactly` | src/duration.rs:12-57 | Each error exactly: the empty one on nothing but space, the others by what stands after the last good term. |
| `DurationFaults.TrimTakesSpace` | src/duration.rs:13 | Trimming takes only space, and all of it at both ends. |
| `DurationFaults.SpacesAre` | src/duration.rs:13 | The characters that count as space, by code point. |
| `DurationFaults.NumberWithUnit` | src/duration.rs:59-67 | A number with a unit is worth that many times 3600, 60, 1 or, below a second, 0 seconds, modulo 2^64. |
| `DurationFaults.TwoNumbersOfSeconds` | src/duration.rs:68 | Two terms add up and stop at the largest 64-bit number. |
| `Durations.PanicsExactly` | src/duration.rs:53-56 | The parser panics exactly on texts that, trimmed, are terms, a number below 2^64, and a character outside ASCII that starts no unit; it answers every other text. |
| `Durations.AccentedUnitPanics` | src/duration.rs:53-56 | A digit followed by an accented letter panics. |
| `Durations.ValueIsMeantExactly` | src/duration.rs:59-68 | The value is the saturated sum of what the terms say exactly when no term overflows or the sum saturates all the same. |
| `Durations.HoursWrap` | src/duration.rs:65 | Any number of hours is read modulo 2^64 seconds. |
| `Durations.OverflowIsNotSaturated` | src/duration.rs:65 | An accepted text with a very large number of hours that is read as less than an hour. |

## Left out

- HTTP, JSON decoding and the token endpoints (src/vault/auth.rs, `fetch_sync`): each is a free reply.
- AES, HMAC, HKDF, RSA-OAEP, PBKDF2, Argon2 and UTF-8 decoding: parameters; deriving the master key and hashing the password are not modelled.
- Unicode lowercasing: a parameter; no law of it is needed.
- `username`, `uri`, `id` and card fields of items: they never affect lookup or extraction.
- `fetch_secrets`, `refresh_vault_cache` and the token methods as whole imperative methods: their interleaving is the subject, so they are a step system; only the sections under the lock are methods of the class.
- Cancellation of a future between two suspension points, and overflow of the monotonic clock.
- The sleeps of the background loops: a background process may start a round at any time, which includes every schedule.
- Fairness of the locks: `Calls.NoDeadlock` says someone can always move, not that each waiter gets its turn.
- The kube runtime: watch streams, the finalizer, the owner reference and labels of the Secret, and how server-side apply merges a submitted body into a stored Secret.
- Finer interleaving inside one reconcile: its writes are one step, of which any part may fail; edits between its read and its writes are covered by stale reads.
- The texts of failure messages: one unknown function of the failure; log lines are dropped.
- The lease library: assumed as stated above; the release in src/main.rs:278 and draining the controller afterwards are not part of this model.
- src/health.rs, src/crdgen.rs, environment reading, Helm templates, manifests and end-to-end scripts.
- Durations.ParseDuration: models the release build, where products wrap; a debug build panics on the same inputs.
- Crypto.LegacyKeyRecovered: recovery is conditional, because a type 0 text has no MAC to refute the first attempt.
