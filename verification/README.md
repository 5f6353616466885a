# VaultKeep: a verified model

VaultKeep is a zero-knowledge password manager. Devices keep an encrypted
vault, sync it through a server that only sees ciphertext, and log in with a
password, a second factor and an approved device. This project models the
parts of it whose correctness spans several functions or a whole run, and
proves what they promise.

**Sync.** The server gives each item a version and takes a write only from the
version before (`SyncRules`, `VaultService`). A device keeps items and their
metadata, pushes its edits, then pulls and merges (`Replica`, `VaultApp`).
`SyncSession` says what one sync computes under any interference by other
devices and any loss of requests and replies; the class `App` computes exactly
that. `QuietSync` gives the same result item by item, `Reconciliation` says
when device and server agree afterwards, `SyncProtocol` is the state machine
of n devices and one server with crashes and restarts, `Convergence` shows that
quiet syncs are runs of it and that devices converge, `SyncWeather` that a whole
disturbed sync keeps its invariant, `AppProtocol` that the app's other methods
are its steps and what an edit and a sync amount to, and `Rekeying` covers the
change of the master key.

**CBOR and authenticator data.** `Cbor` is the codec as functions, byte for
byte, with the source's reads past the end of the buffer; `Utf8` is its text
decoder, which `Scalars` judges by scalar values. `CborRoundTrip` and
`CborReads` prove what decoding and encoding do to each other, `CborRefusals`
what is refused as what, `CborBounds` what a reading depends on and how much work
it is, `CborCodec` is the code with its cursor and output buffer, `AuthData` is
the parser of authenticator data over it, and `AuthLayout` says which strings in
the standard's layout it accepts, and which others.

**Server state machines.** `Passkeys`, `DeviceChallenges`, `Devices`, `Mfa`,
`Emergency` and `Gateway` are the ceremonies, the trust chain, one-time code
enrolment, the emergency timer and the token gate, each as a step function,
theorems over all its runs, and a class whose methods take exactly those steps.
`Devices` is about both stores, the one under joined keys and the one searched
by pairs, which `DeviceList` is. `CoseKeys` says which key a registration
stores, `Registration` follows an attestation object from its bytes to the stored
credential, `PasskeyFactor` a passkey from its challenge to the session, and
`CodeFactor` a code from its digits.

**Breach check.** `RangeText` holds the string operations, `BreachRange` the
server's index, `CorpusText` says what its loaders read, `RangeLookup` what the
client finds in the server's text when hashes repeat and which hashes are
breached, and `VaultHealth` is the client's report over that server and the
end-to-end theorem.

**Small codecs.** `Totp` is base32 and one-time codes, `RecoveryKey` the
recovery key's printed form and its forgiving reading.

## Assumptions

- Cryptography is ideal: a blob opens under its own key only, a signature names
  its key and message, and a token with a good signature was issued earlier.
  Keyed hashes, digests and signature checks are function parameters.
- Random values are fresh: item, contact and device ids, and challenges.
- The clock is a parameter of each request, in any order.
- A server request is atomic. In the source the read and the write of a push
  are separate awaits (packages/server/src/vault/vault.service.ts:30 and 51).
- A device does not edit while its own sync is running.
- Ids that the server draws are UUIDs and hold no colon: account ids, and so the
  user ids in tokens, and device ids. The stores in memory join user id and item
  or device id with one (`JoinMeetsOnSeparators`). Of the user ids and approvers
  that a request to enrol or approve a device carries nothing is assumed.
- In the step functions a lost reply, an exception and an error answer are
  values; `Threw`, `Crashed` and `None` stand for exceptions.

## Where code and comments differ

- packages/server/src/auth/passkey.service.ts:216-219 says that an attempt
  consumes its challenge whatever the outcome. The code returns before that
  when the client data names another ceremony; `AttemptConsumes` gives the exact
  condition, `RefusedAttemptSparesItsChallenge` a run.
- packages/server/src/sync/conflict.ts:43 leaves a deleted item to the client to
  reconcile. The client keeps the edit, and keeps its clean copies too:
  `QuietSyncAgreesExactly` gives the condition, `StaleItemSurvivesSync` and
  `TwoItemsStayApart` are cases, and `DeletionIsSoundExactly` says when a
  deletion does no harm.
- packages/server/src/devices/device.service.ts:79-83 promises that an
  already-approved device of the user signs an approval. In memory the approver
  is looked up under a joined key, and a name with a colon finds another user's
  device: `ApprovalIsHonouredExactly` and `ChainIsOwnExactly` give the exact
  condition, `ForeignApproverCounts` a run. The file store keeps the promise.
- packages/server/src/auth/cbor.ts reads past the end of its input where a head
  is cut off, and packages/server/src/auth/passkey.service.ts:268-277 drops where
  the reading stopped: `LayoutIsAcceptedExactly` says which strings outside the
  standard's layout are accepted, `CutKeyIsAccepted` and `CutKeyIsAKey` are cases.
- `normalizeRecoveryKey` is not idempotent; `MarklessKeyReadsBackExactly` says
  when a payload reads back without its mark.

## Model

| member | source | states |
|---|---|---|
| `SyncRules.PushAcceptsExactlySuccessors` | packages/server/src/sync/conflict.ts:35-53 | A write is taken exactly from the version before, or from none for a new item, and then becomes the next version; otherwise the row stays and the answer carries it. |
| `SyncRules.ServeKeepsOrder` | packages/server/src/vault/vault.service.ts:29-57 | Every request keeps the history in order and the rows equal to the newest accepted writes. |
| `SyncRules.RunsLoseNoUpdates` | packages/server/src/vault/vault.service.ts:29-57 | In every run, between deletions of an item its accepted writes carry 1, 2, 3, ..., each based on the one before. |
| `SyncRules.VersionsNameWrites` | packages/server/src/sync/conflict.ts:47-49 | Between deletions a version names one write of an item. |
| `CompositeKey.JoinIsInjective` | packages/server/src/vault/vault.repository.ts:32-34 | A joined store key names one pair when the part before the separator holds none. |
| `CompositeKey.JoinIsInjectiveBehind` | packages/server/src/devices/device.service.ts:32-35 | So it does when the part behind the separator holds none, whatever the user ids are. |
| `CompositeKey.JoinMeetsOnSeparators` | packages/server/src/vault/vault.repository.ts:32-34 | With a separator in a user id, two pairs share a key. |
| `VaultService.SaveRows` | packages/server/src/vault/vault.repository.ts:47-49 | Storing an item changes one row of one user and nothing of any other. |
| `VaultService.DeleteRows` | packages/server/src/vault/vault.repository.ts:51-53 | Removing an item removes one row of one user. |
| `VaultService.VaultRepository.ListSince` | packages/server/src/vault/vault.repository.ts:36-41 | Lists each of the user's rows exactly once, and nobody else's. |
| `VaultService.VaultService.Push` | packages/server/src/vault/vault.service.ts:29-53 | The user's rows and the answer are those of the version rule; other users' rows stay. |
| `VaultService.VaultService.Delete` | packages/server/src/vault/vault.service.ts:55-57 | Removes exactly the one row of that user. |
| `Replicas.ReloadRestores` | packages/desktop/src/core/vault-app.ts:52-63 | Reading back what was persisted restores items and metadata, exactly when every item is filed under its own id. |
| `Replicas.MergeKeepsPaired` | packages/desktop/src/core/vault-app.ts:163-172 | The pull loop keeps items and metadata on the same ids, also when a row does not decrypt. |
| `SyncSession.PushAllSteps` | packages/desktop/src/core/vault-app.ts:142-160 | A push loop that visits more ids is the shorter one followed by their turns. |
| `QuietSync.PushAllQuiet` | packages/desktop/src/core/vault-app.ts:141-160 | Without interference the push loop, in any order, leaves each item as the reference account of its own push says, and counts accepted and refused edits. |
| `QuietSync.MergeAt` | packages/desktop/src/core/vault-app.ts:163-172 | The pull loop leaves each item as its own row in the list decides. |
| `QuietSync.PulledAreNew` | packages/desktop/src/core/vault-app.ts:163-172 | A merge that reaches the end of a listing, of any rows, counts as pulled exactly the listed items that the replica did not hold, or held at a lower version. |
| `QuietSync.QuietSyncSettles` | packages/desktop/src/core/vault-app.ts:134-176 | A quiet sync ends well exactly when every row it has to read opens, and then every item is as the item-wise account says, whatever the order; pushed and conflicts add up to the edits, and pulled is the number of rows that the device had never met, or had met at a lower version and not edited. |
| `Reconciliation.QuietSyncAgreesExactly` | packages/desktop/src/core/vault-app.ts:134-176 | After a quiet sync device and server hold the same items at the same versions, all clean, if and only if beforehand each edited item had a row or was brand new, and each clean item had a newer row, or a row at its own version that holds it. |
| `Reconciliation.SecondSyncIsIdle` | packages/desktop/src/core/vault-app.ts:134-176 | Once they agree, another sync changes nothing and counts nothing. |
| `Reconciliation.AgreementIsUnique` | packages/desktop/src/core/vault-app.ts:134-176 | Two devices that agree with the same rows hold the same vault. |
| `Reconciliation.EditFate` | packages/desktop/src/core/vault-app.ts:142-160 | A pushed edit ends in exactly one of three states: stored, replaced by the server's version, or kept for want of a row. |
| `Reconciliation.NoSilentLoss` | packages/desktop/src/core/vault-app.ts:141-172 | Deletions allowed: after a quiet sync each earlier edit is stored and clean, or replaced by another version and counted as a conflict, or still there, dirty and counted. |
| `Reconciliation.MarkedIsStoredExactly` | packages/desktop/src/core/vault-app.ts:117-160 | After a quiet sync an item that was marked as the successor of version v is stored as the next version, and counted as pushed, if and only if the server had its row at v, or had none and v is 0. |
| `Reconciliation.EditThenSync` | packages/desktop/src/core/vault-app.ts:117-172 | So for an edit at the version held before it, with the pulls counted. |
| `SyncProtocol.StepIsSound` | packages/desktop/src/core/vault-app.ts:52-188 | Each protocol step without a deletion keeps the cross-machine invariant. |
| `SyncProtocol.DeletionIsSoundExactly` | packages/server/src/vault/vault.service.ts:55-57 | From a sound world a deletion keeps the invariant if and only if no device has heard of the row: in memory and on disk the item is absent or only added, no push of it is under way, and no listing under way holds it. |
| `SyncProtocol.SoundThroughoutExactly` | packages/desktop/src/core/vault-app.ts:52-188 | From a sound world the invariant holds after every step of a run if and only if each deletion in it meets that guard. |
| `SyncProtocol.EveryRunIsSound` | packages/desktop/src/core/vault-app.ts:52-188 | In every run of any number of devices, with lost requests and replies and restarts from disk, no device is ever ahead of the server and every clean item is always what the server accepted as that version, if and only if each deletion comes before any device has heard of the row; so without deletions always. |
| `Convergence.QuietSyncIsARun` | packages/desktop/src/core/vault-app.ts:134-176 | A quiet sync as the app computes it is a run of the protocol. |
| `Convergence.SoundDevicesCanSync` | packages/desktop/src/core/vault-app.ts:134-176 | In a world that satisfies the invariant every device can read every row and reach agreement. |
| `Convergence.QuietSyncConverges` | packages/desktop/src/core/vault-app.ts:134-176 | After any run whose deletions all meet the guard, a quiet sync succeeds, agrees with the server, counts each edit once, and a second sync is idle. |
| `Convergence.TwoRoundsMakeAllEqual` | packages/desktop/src/core/vault-app.ts:134-176 | After such a run, once every device has synced in two rounds without edits, all devices are equal. |
| `Convergence.DeletionLeavesAStaleItem` | packages/server/src/vault/vault.service.ts:55-57 | A run in which a deletion leaves a clean copy on a device. |
| `Convergence.StaleItemSurvivesSync` | packages/desktop/src/core/vault-app.ts:163-172 | The next sync does not remove that copy. |
| `Convergence.OneVersionNamesTwoItems` | packages/desktop/src/core/vault-app.ts:117-160 | A run with a lost reply and a deletion after which two devices hold different items, both clean at the same version. |
| `Convergence.TwoItemsStayApart` | packages/desktop/src/core/vault-app.ts:134-176 | From there every quiet sync of either device changes nothing. |
| `SyncWeather.SyncKeepsFaith` | packages/desktop/src/core/vault-app.ts:134-176 | A sync amid other devices' honest pushes, with any requests and replies lost, never meets an unreadable row and keeps the invariant wherever it stopped, saved or not, if each deletion amid it comes while the row is still news to every device; without deletions the server only adds accepted versions. |
| `SyncWeather.AnySyncIsSound` | packages/desktop/src/core/vault-app.ts:134-176 | The same for every sync as the app computes it, in any visiting order; weather without deletions needs no guard. |
| `SyncWeather.CalmAfterStorm` | packages/desktop/src/core/vault-app.ts:134-176 | The first quiet sync after it succeeds and ends in agreement. |
| `VaultApp.App.UnlockWithKey` | packages/desktop/src/core/vault-app.ts:52-63 | Opens with the blob's key only, lays the saved state over memory, and a refused key changes nothing. |
| `Replicas.ReloadOverlaysExactly` | packages/desktop/src/core/vault-app.ts:52-63 | Loading what was saved lays that replica over whatever is in memory, exactly when its items are filed under their own ids. |
| `Replicas.ReloadTakesTheDisk` | packages/desktop/src/core/vault-app.ts:52-63 | Id by id: what is on disk replaces what is in memory, and all else in memory stays. |
| `AppProtocol.UnlockStep` | packages/desktop/src/core/vault-app.ts:52-63 | Unlocking while unlocked is the step of the protocol that lays the disk over memory. |
| `AppProtocol.RestartStep` | packages/desktop/src/core/vault-app.ts:52-80 | Locking and unlocking is the restart of the protocol. |
| `AppProtocol.AddStep` | packages/desktop/src/core/vault-app.ts:95-114 | Adding an item is its step, with the disk written. |
| `AppProtocol.UpdateStep` | packages/desktop/src/core/vault-app.ts:117-127 | An update of an item is its step, with its version kept; so is the error for a missing one. |
| `AppProtocol.UpdateAndSync` | packages/desktop/src/core/vault-app.ts:117-176 | An edit by the app, and then a sync that nothing disturbs: if the sync ends well, the edit is on device and server as the next version of the row if and only if the row is at the version the app held before the edit, or there is neither; pulled is the number of rows never met, or met at a lower version and not edited, without the edited one. |
| `AppProtocol.SyncStep` | packages/desktop/src/core/vault-app.ts:134-176 | A sync leaves the device as the session ends, on disk exactly if it reached its end. |
| `VaultApp.App.SnapshotKey` | packages/desktop/src/core/vault-app.ts:70-72 | Returns a fresh buffer with the live key's bytes. |
| `VaultApp.Transport.Push` | packages/desktop/src/core/sync-client.ts:47-54 | A push over the network changes the user's rows and answers as the exchange says, with other devices' requests before it and a request or reply that may be lost. |
| `VaultApp.Transport.Pull` | packages/desktop/src/core/sync-client.ts:39-45 | A pull that is answered lists the user's rows as they are then, each once. |
| `VaultApp.App.Lock` | packages/desktop/src/core/vault-app.ts:75-80 | Zeroes the key buffer and forgets everything. |
| `VaultApp.App.Add` | packages/desktop/src/core/vault-app.ts:95-114 | Adds the item, marked for the next push at version 0, leaves every other id alone, and writes the whole state under the live key. |
| `VaultApp.App.Update` | packages/desktop/src/core/vault-app.ts:117-127 | Replaces an existing item and marks it for the next push at exactly the version it had, leaves every other id alone, and writes the state; a missing item is an error that changes nothing. |
| `VaultApp.App.PushEdits` | packages/desktop/src/core/vault-app.ts:141-160 | The push loop, over any network, is the session's push run in the order the metadata lists. |
| `VaultApp.App.MergeRemote` | packages/desktop/src/core/vault-app.ts:163-172 | The merge loop adopts exactly the rows that are new or newer, counts each once, and stops at the first that does not decrypt. |
| `VaultApp.App.Sync` | packages/desktop/src/core/vault-app.ts:134-176 | Device, server and summary end as a sync session says, so in quiet weather as `QuietSyncSettles` says; only a sync that reaches its end is written to disk. |
| `VaultApp.App.Persist` | packages/desktop/src/core/vault-app.ts:180-188 | Writes one blob under the live key that holds exactly the state. |
| `VaultApp.App.Rekey` | packages/mobile/lib/core/vault_app.dart:126-135 | Marks every item, zeroes the old buffer and writes under the new key; the new key survives exactly when it is another buffer. |
| `VaultApp.ZeroKey` | packages/mobile/lib/core/vault_crypto.dart:103 | Overwrites every byte of the buffer. |
| `Rekeying.SyncAfterRekey` | packages/mobile/lib/core/vault_app.dart:126-135 | A quiet sync after a re-key succeeds exactly when the device knew every row at its version, and then moves every row. |
| `Rekeying.RekeySafety` | packages/mobile/lib/core/vault_app.dart:198-253 | From agreement under the old key, after any number of syncs with lost requests and replies and restarts from the re-keyed disk, a quiet sync succeeds: every row opens under the new key only, to the same item, exactly one version up, and device and server agree again. |
| `Rekeying.RekeyAfterAnyRun` | packages/mobile/lib/core/vault_app.dart:126-253 | After any run whose deletions all meet the guard: quiet sync, re-key, any number of disturbed syncs and a quiet one move every row. |
| `Utf8.RepairIsWellFormed` | packages/server/src/auth/cbor.ts:48 | What the text decoder returns is well-formed UTF-8. |
| `Utf8.DecodeTextKeepsExactly` | packages/server/src/auth/cbor.ts:48 | It returns the bytes it got exactly when they are well-formed and have no byte order mark. |
| `Scalars.WellFormedExactly` | packages/server/src/auth/cbor.ts:48 | Well-formed bytes are the UTF-8 encodings of sequences of scalar values, and nothing else. |
| `Scalars.RepairReplaces` | packages/server/src/auth/cbor.ts:48 | A scalar value in front stands for itself; otherwise one U+FFFD stands for the longest piece that begins some scalar value, or for one byte. |
| `Scalars.MarkIsDropped` | packages/server/src/auth/cbor.ts:48 | One U+FEFF in front is dropped, and nothing else. |
| `CborRoundTrip.HeadReads` | packages/server/src/auth/cbor.ts:81-133 | A written head reads back as its major type and its length modulo 2^32. |
| `CborRoundTrip.FromPairsKeeps` | packages/server/src/auth/cbor.ts:61-75 | The decoded map holds each key once, and all pairs exactly when their keys differ. |
| `CborRoundTrip.DecodesEncoding` | packages/server/src/auth/cbor.ts:26-133 | An encoding anywhere in a buffer reads as the value's normal form and takes exactly its own bytes. |
| `CborRoundTrip.FirstItemOfEncoding` | packages/server/src/auth/cbor.ts:22-24 | Reading the first item of an encoding and any suffix gives the value and the encoding's length. |
| `CborRoundTrip.EncodingsArePrefixFree` | packages/server/src/auth/cbor.ts:95-133 | No encoding is the beginning of a different one. |
| `CborRoundTrip.RoundTripExactly` | packages/server/src/auth/cbor.ts:15-133 | Decoding an encoding gives the value back if and only if its integers lie in [-2^32, 2^32 - 1], its texts have no byte order mark and its map keys differ; in every case it gives the normal form. |
| `CborRoundTrip.TwoTo32DoesNotSurvive` | packages/server/src/auth/cbor.ts:127-133 | The integer bound is tight. |
| `CborRefusals.BadFirstBytes` | packages/server/src/auth/cbor.ts:26-92 | The empty input, lengths from 27 on and major types 6 and 7 are refused, each as what it is. |
| `CborRefusals.CutStringsAreRefused` | packages/server/src/auth/cbor.ts:37-49 | A string of any length with fewer bytes than its head says is refused as a truncated byte string or text. |
| `CborRefusals.BadKeysAreRefused` | packages/server/src/auth/cbor.ts:61-75 | A map whose first key is an encoded byte string, array or map is refused for the key. |
| `CborRefusals.TrailingIsRefused` | packages/server/src/auth/cbor.ts:15-19 | Anything behind a whole encoding is refused. |
| `CborReads.AcceptedInputIsReadOnce` | packages/server/src/auth/cbor.ts:15-92 | An accepted input was read inside the buffer, each byte once and in order, by at most one call per byte. |
| `CborBounds.CallsStayWithinTheInput` | packages/server/src/auth/cbor.ts:15-92 | Every input, accepted or refused, takes at most one call per byte and one that fails, beside the calls at position NaN; of those there are none unless the input ends behind the first byte of a string head of one or four length bytes. |
| `CborBounds.CutMapCosts` | packages/server/src/auth/cbor.ts:61-75 | Seven bytes that announce a map of 2^32 - 1 entries and end in such a head cost two calls for each entry. |
| `CborBounds.FirstItemIsThereExactly` | packages/server/src/auth/cbor.ts:22-24 | The first item read is one that the bytes begin with, as a whole encoding, if and only if the reading stopped inside them. |
| `CborBounds.StopsInsideExactly` | packages/server/src/auth/cbor.ts:22-92 | A reading stops inside the buffer if and only if every byte it took is there. |
| `CborReads.HeadIsShortest` | packages/server/src/auth/cbor.ts:81-92 | No head that reads as a length is shorter than the encoder's. |
| `CborReads.ReencodingIsAccounted` | packages/server/src/auth/cbor.ts:15-133 | An accepted input gives a value of the source's type with 32-bit magnitudes and distinct keys, whose encoding takes the input's length plus what repair added minus what longer heads and replaced entries had taken, never more than three times the input. |
| `CborReads.ReencodingIsShort` | packages/server/src/auth/cbor.ts:15-133 | Encoding an accepted input again is never longer when repair lengthened no text; when each head was the shortest and no key came twice, it is no longer if and only if repair lengthened the texts by nothing in all. |
| `CborReads.TextGrowsExactly` | packages/server/src/auth/cbor.ts:48 | One text adds nothing exactly when repair does not lengthen it. |
| `CborReads.TextItemIsShortExactly` | packages/server/src/auth/cbor.ts:48 | An accepted text item encodes no longer than it was if and only if repair adds no more than its head spares; under the shortest head, if and only if repair does not lengthen it. |
| `CborReads.EncoderIsShortest` | packages/server/src/auth/cbor.ts:95-133 | No input of which repair lengthens no text decodes to a value and is shorter than its encoding. |
| `CborReads.RepairLengthens` | packages/server/src/auth/cbor.ts:48 | With a repaired text the encoding can be longer than the input. |
| `CborReads.ReencodingIsStable` | packages/server/src/auth/cbor.ts:15-133 | Decoding, encoding and decoding again gives the same value, exactly when no text begins with a byte order mark. |
| `CborCodec.DecodeItem` | packages/server/src/auth/cbor.ts:26-79 | The code with its cursor reads what the functions say, errors included. |
| `CborCodec.DecodeArray` | packages/server/src/auth/cbor.ts:50-60 | So does the array loop. |
| `CborCodec.DecodeMap` | packages/server/src/auth/cbor.ts:61-75 | So does the map loop, with a repeated key keeping its place and taking the last value. |
| `CborCodec.DecodeCbor` | packages/server/src/auth/cbor.ts:15-19 | The whole input has to be one item. |
| `CborCodec.Output.EncodeItem` | packages/server/src/auth/cbor.ts:101-125 | Appends the encoding, or gives up exactly on a value that holds something else than the codec's types. |
| `CborCodec.EncodeCbor` | packages/server/src/auth/cbor.ts:95-99 | Returns the encoding of exactly the values that can be encoded. |
| `AuthLayout.AssertionDataReads` | packages/server/src/auth/passkey.service.ts:248-266 | Every string in the standard's layout gives exactly its counter as an unsigned 32-bit number, if the hash and the user-present flag fit. |
| `AuthLayout.RegistrationDataReads` | packages/server/src/auth/passkey.service.ts:248-277 | With a credential: exactly the counter, credential id and COSE map that were put in, with or without extension bytes; otherwise the matching refusal. |
| `AuthLayout.LayoutIsAcceptedExactly` | packages/server/src/auth/passkey.service.ts:248-277 | A string is in the layout, its key bytes beginning with a whole encoding of the map, if and only if it is accepted with that result and the reading of the key stopped inside it; the accepted strings outside the layout are exactly those whose key was read with bytes that are not there. |
| `AuthLayout.CutKeyIsAccepted` | packages/server/src/auth/passkey.service.ts:268-277 | With the three bytes A1 01 58 for a key the data is accepted, and it is not in the layout. |
| `Registration.CutKeyIsAKey` | packages/server/src/auth/passkey.service.ts:268-277 | An Ed25519 key whose bytes are cut off is accepted as a key of no bytes. |
| `Passkeys.SuccessAnswersItsChallenge` | packages/server/src/auth/passkey.service.ts:103-245 | A success answers a challenge minted earlier for the same user and ceremony, no later than its expiry. |
| `Passkeys.ChallengeSucceedsOnce` | packages/server/src/auth/passkey.service.ts:210-245 | Over a whole run no challenge leads to two successes. |
| `Passkeys.AttemptConsumes` | packages/server/src/auth/passkey.service.ts:221-245 | An attempt uses up its pending challenge exactly when it names its own ceremony. |
| `Registration.RefusedAttemptSparesItsChallenge` | packages/server/src/auth/passkey.service.ts:221-232 | A run: a challenge is minted, an attempt that names it in the other ceremony is refused, and the next attempt succeeds on it. |
| `Passkeys.PendingExactly` | packages/server/src/auth/passkey.service.ts:210-245 | In every run a challenge is pending exactly while it is minted and no attempt has named it in its own ceremony. |
| `Passkeys.AssertionSucceedsExactly` | packages/server/src/auth/passkey.service.ts:164-206 | An assertion succeeds if and only if it answers a pending challenge of its user and ceremony in time and from an allowed origin, with the user's credential, present-user data for this relying party, a good signature and a new counter. |
| `Passkeys.ClientIsRefusedExactly` | packages/server/src/auth/passkey.service.ts:221-245 | Over all runs: an attempt is refused for its client data as malformed, as of the wrong ceremony, as naming no challenge that awaits its user and ceremony, as late, or as from a foreign origin, each exactly when that is so. |
| `Passkeys.AssertionIsRefusedExactly` | packages/server/src/auth/passkey.service.ts:178-206 | Behind that it is refused for an unknown credential, its data, its signature or its counter, each exactly when that is so. |
| `Passkeys.SignCountNeverDecreases` | packages/server/src/auth/passkey.service.ts:198-204 | Over any run a credential keeps its user and key, and its count never decreases. |
| `Passkeys.AcceptedCounterIsNew` | packages/server/src/auth/passkey.service.ts:164-206 | An accepted nonzero counter is above all counts stored before, and a zero counter is accepted only while all were zero. |
| `Passkeys.AssertionIsGenuine` | packages/server/src/auth/passkey.service.ts:164-206 | An accepted assertion is signed under the key that the same user registered earlier in the run. |
| `Passkeys.RegisteredOnce` | packages/server/src/auth/passkey.service.ts:124-143 | A credential id is registered at most once in a run. |
| `CoseKeys.KeyIsSpelledExactly` | packages/server/src/auth/passkey.service.ts:281-316 | A map with distinct keys gives an EC key x, y if and only if it binds 1 to 2, 3 to -7, -1 to 1, -2 to the bytes x and -3 to the bytes y; an Ed25519 key x if and only if 1 to 1, 3 to -8, -1 to 6 and -2 to x; an RSA key n, e if and only if 1 to 3, 3 to -257, -1 to n and -2 to e. |
| `CoseKeys.OfferIsStoredExactly` | packages/server/src/auth/passkey.service.ts:103-145 | Of a credential that any attestation offers, a new id is stored with the key that its map spells, an id in use is refused, and so is a map that spells no key. |
| `CoseKeys.OnlyOffersAreStored` | packages/server/src/auth/passkey.service.ts:110-133 | Nothing else is stored; an attestation that is no map, and one that binds no authenticator data, are refused as such. |
| `CoseKeys.RegistrationSucceedsExactly` | packages/server/src/auth/passkey.service.ts:103-145 | A registration succeeds if and only if it answers a pending challenge of its user and ceremony in time and from an allowed origin and its attestation offers a new credential whose map spells a key, and then it stores exactly that one. |
| `Registration.RegistrationStoresWhatWasSent` | packages/server/src/auth/passkey.service.ts:103-145 | An attestation object in the standard's layout stores exactly the id and counter it was built from with a key if and only if the COSE map, its entries in any order, binds what spells that key; it is refused as unsupported if and only if the map spells none. |
| `Passkeys.PasskeyService.VerifyRegistration` | packages/server/src/auth/passkey.service.ts:103-145 | The method takes exactly the step of a registration, of which `RegistrationSucceedsExactly` says when it succeeds and what it stores. |
| `Passkeys.PasskeyService.VerifyAssertion` | packages/server/src/auth/passkey.service.ts:164-206 | The method takes exactly the step of an assertion. |
| `Passkeys.PasskeyService.CheckClient` | packages/server/src/auth/passkey.service.ts:221-245 | Checks the client data and leaves the challenges as the step says. |
| `Passkeys.PasskeyService.MintChallenge` | packages/server/src/auth/passkey.service.ts:210-214 | Stores a fresh challenge with its user, ceremony and expiry. |
| `Devices.LookupFindsItsOwnExactly` | packages/server/src/devices/device.service.ts:30-49 | A lookup that finds a record finds the one of that user and id if and only if the store searches by pairs or the id holds no colon; otherwise it finds a record of another user. |
| `Devices.ApprovedExactlyByNamedChain` | packages/server/src/devices/device.service.ts:62-103 | In every reachable store of either kind, whatever user ids and approvers the requests carry, a device is found approved if and only if a chain of signed approvals leads to it from a first device, each approver being the device that its name finds. |
| `Devices.ChainIsOwnExactly` | packages/server/src/devices/device.service.ts:84-103 | Such a chain consists of the user's own devices, from the user's first, if and only if the store searches by pairs or no name in it holds a colon. |
| `Devices.ApprovalIsHonouredExactly` | packages/server/src/devices/device.service.ts:84-103 | An approval is honoured if and only if its target is enrolled and the device that the approver's name finds is approved and signed it; that device is another user's exactly when keys are joined and the name holds a colon. |
| `Devices.ApprovalIsRefusedExactly` | packages/server/src/devices/device.service.ts:84-103 | An approval is refused because the approver's name finds no device, or none with a chain of approvals, or the target is not enrolled, or the signature is not that of the approver over exactly this target, each exactly when that is so; a key that does not parse is an exception. |
| `Devices.ForeignApproverCounts` | packages/server/src/devices/device.service.ts:30-49 | A run in which another user's device is found under the approver's name: the device is approved under joined keys without a chain of the user's own, and refused in the store of pairs. |
| `Devices.ApprovedExactlyByChain` | packages/server/src/devices/device.service.ts:62-103 | For any user ids, in every reachable store of pairs, and of joined keys while approvers and the device are named without a colon, a device is approved if and only if a chain of signed approvals of the user's own devices leads to it from the user's first. |
| `Devices.ApprovalStays` | packages/server/src/devices/device.service.ts:84-103 | Approval is never withdrawn, in either store and for any names. |
| `Devices.OneFirstDevice` | packages/server/src/devices/device.service.ts:62-77 | All chains of a user start at one device. |
| `Devices.DeviceService.EnrollDevice` | packages/server/src/devices/device.service.ts:62-77 | Stores the device, approved exactly when the user had none. |
| `Devices.DeviceService.ApproveDevice` | packages/server/src/devices/device.service.ts:84-103 | The method takes exactly the step of an approval. |
| `DeviceList.FileDeviceRepository.GetDevice` | packages/server/src/store/filedb.ts:104-106 | The search through the list gives what the store of pairs holds. |
| `DeviceList.FileDeviceRepository.Create` | packages/server/src/store/filedb.ts:107-110 | A new record goes into the store of pairs, and nothing else changes. |
| `DeviceList.FileDeviceRepository.SetApproved` | packages/server/src/store/filedb.ts:111-114 | The change in place is the change of that one record. |
| `DeviceChallenges.SuccessAnswersItsChallenge` | packages/server/src/auth/webauthn.service.ts:41-75 | A success answers the newest challenge of exactly this user and device, in time, from a device approved then, under its key. |
| `DeviceChallenges.ChallengeSucceedsOnce` | packages/server/src/auth/webauthn.service.ts:56-75 | Over a whole run no challenge leads to two successes. |
| `DeviceChallenges.NewestIsPending` | packages/server/src/auth/webauthn.service.ts:41-69 | What is pending for a user and device is their newest challenge, marked used exactly if it was presented in time. |
| `DeviceChallenges.AnswerSucceedsExactly` | packages/server/src/auth/webauthn.service.ts:56-75 | An answer succeeds if and only if it is the first to present the newest challenge of its user and device within 120000 milliseconds, the device is approved at that moment, and its key signed the challenge; there is an exception exactly if all but the signature is so and the key does not parse. |
| `DeviceChallenges.SuccessHasTrustChain` | packages/server/src/auth/webauthn.service.ts:71-74 | Behind a success stands a chain of signed approvals from a first device; it is the user's own exactly when devices are found by pairs, or neither the answering device nor an approver in the chain is named with a colon. |
| `DeviceChallenges.WebauthnService.CreateChallenge` | packages/server/src/auth/webauthn.service.ts:41-49 | Replaces the pair's pending challenge by a fresh one. |
| `DeviceChallenges.WebauthnService.VerifyAssertion` | packages/server/src/auth/webauthn.service.ts:56-75 | The method takes exactly the step of an answer. |
| `Emergency.ContactFollowsRequests` | packages/server/src/recovery/recovery.service.ts:126-205 | In every run a contact's state is the one its requests alone determine. |
| `Emergency.KeyIsHandedOutExactly` | packages/server/src/recovery/recovery.service.ts:190-205 | The sealed key is handed out if and only if the contact signs for it, its first signed request came at t0, this or an earlier signed attempt came at t0 + wait or later, and the owner had not denied before. |
| `Emergency.RequestIsAnsweredExactly` | packages/server/src/recovery/recovery.service.ts:160-172 | In every run a request is told the time t if and only if the contact signed it, no denial and no release came before it, and t is the clock of the contact's first signed request plus the waiting period; otherwise nothing. |
| `Emergency.WaitIsAnsweredExactly` | packages/server/src/recovery/recovery.service.ts:194-199 | An attempt to collect is told to wait until t if and only if the contact signed it, waits still, and that same t has not come. |
| `Emergency.DenialSucceedsExactly` | packages/server/src/recovery/recovery.service.ts:175-183 | A denial succeeds if and only if the owner makes it while the contact waits. |
| `Emergency.AddingSucceedsExactly` | packages/server/src/recovery/recovery.service.ts:133-148 | A contact is enrolled if and only if none of its three keys is empty, and then nothing else changes. |
| `Emergency.UnknownContactIsRefused` | packages/server/src/recovery/recovery.service.ts:161-177 | Under an id never enrolled nothing is asked or denied. |
| `Emergency.MessagesAreApart` | packages/server/src/recovery/recovery.service.ts:156-195 | The texts signed to ask and to collect are never the same, for any two contacts. |
| `Emergency.UnknownContactGetsNothing` | packages/server/src/recovery/recovery.service.ts:194-195 | Nobody collects under an id that was never enrolled. |
| `Emergency.UnlockTimeNeverMoves` | packages/server/src/recovery/recovery.service.ts:160-172 | No request moves the unlock time; denied and released are final. |
| `Emergency.EachContactIsNoticedOnce` | packages/server/src/recovery/recovery.service.ts:170-202 | Each contact gets at most one request notice and at most one of denial and release, as its state says. |
| `Emergency.RecoveryService.AddContact` | packages/server/src/recovery/recovery.service.ts:126-149 | The method takes exactly the step of an enrolment, or refuses without key material. |
| `Emergency.RecoveryService.RequestAccess` | packages/server/src/recovery/recovery.service.ts:160-172 | The method takes exactly the step of a request, notice and answer included; `RequestIsAnsweredExactly` says what is answered. |
| `Emergency.RecoveryService.DenyRequest` | packages/server/src/recovery/recovery.service.ts:175-183 | The method takes exactly the step of a denial, notice included. |
| `Emergency.RecoveryService.CollectKey` | packages/server/src/recovery/recovery.service.ts:190-205 | The method takes exactly the step of an attempt to collect, notice included. |
| `Gateway.GrantedBy` | packages/server/src/main.ts:231-303 | Tokens come from a login without the second factor, and from an accepted second factor with it, for the same user and device. |
| `Gateway.GuardNeedsBothFactors` | packages/server/src/auth/guard.ts:22-42 | Whoever passes the guard logged in, then passed a second factor within the last 3600 seconds, and uses a device approved now. |
| `Gateway.GuardAnswersExactly` | packages/server/src/auth/guard.ts:22-42 | The guard passes exactly an untampered, unexpired token of a second factor whose device is approved now, answers 403 exactly if only the second factor or the approval is missing, and 401 to everything else. |
| `Gateway.RowsChangeOnlyBehindTheGate` | packages/server/src/main.ts:462-482 | In every run, a step that changes a user's rows carries an unexpired token of that user whose device logged in and then passed a second factor, and the device is approved at that step. |
| `Gateway.RowsAreServedOnlyBehindTheGate` | packages/server/src/main.ts:464-467 | Rows are served to their own user only, behind the same gate. |
| `Gateway.RowsChangeOnlyFromTrustedDevices` | packages/server/src/main.ts:390-392 | So does the device that changes rows, with the same exact condition for the chain to be the user's own. |
| `Mfa.CodeIsAcceptedExactly` | packages/server/src/mfa/mfa.service.ts:43-67 | In every run a code is accepted at login if and only if the user's newest secret was confirmed by a right code and this one is right for it. |
| `Mfa.ConfirmIsAnsweredExactly` | packages/server/src/mfa/mfa.service.ts:50-56 | In every run a confirmation is answered by what the code is for the user's newest secret, and refused without one. |
| `Mfa.MfaService.ConfirmEnrollment` | packages/server/src/mfa/mfa.service.ts:50-56 | The method takes exactly the step of a confirmation. |
| `Mfa.MfaService.VerifyCode` | packages/server/src/mfa/mfa.service.ts:63-67 | The method answers as the store says. |
| `Gateway.CodeProvesExactly` | packages/server/src/main.ts:244-253 | A code at login proves its user in exactly these cases, over all runs of the gateway. |
| `CodeFactor.CodeProvesByDigits` | packages/server/src/mfa/totp.service.ts:69-79 | That is: it is the code of this step or of one next to it under the user's newest secret, and a code of that secret confirmed it before, in its own time. |
| `Gateway.SessionPassesExactly` | packages/server/src/auth/token.service.ts:35-70 | A login, a second factor on its token within 300 seconds and a request on the full token within 3600 seconds pass the guard exactly when the device is approved. |
| `Gateway.ProofIsGranted` | packages/server/src/main.ts:244-303 | An accepted second factor on an unexpired token is answered with a full token for the same user and device. |
| `Gateway.OnlyProofIsGranted` | packages/server/src/main.ts:244-303 | Each route of a second factor gives a token if and only if it is proved on an untampered, unexpired token, and answers 401 or with an exception otherwise. |
| `PasskeyFactor.PasskeyIsGrantedExactly` | packages/server/src/main.ts:257-281 | A challenge from the login options that nobody has used, answered in time by its user on an unexpired token, earns a full token for an hour if and only if the assertion is good: the user's credential, data for this site with the user present, a good signature, a new counter. |
| `PasskeyFactor.RegistrationIsHandledExactly` | packages/server/src/main.ts:399-411 | A challenge from the registration options, answered in time by its user in a session that the guard passes, is handled if and only if the attestation offers a new credential whose map spells a key. |
| `Gateway.SomeoneGetsThrough` | packages/server/src/main.ts:231-482 | A run in which a user enrolls a device, logs in, answers a challenge with it and stores an item. |
| `Gateway.Server.PostLogin` | packages/server/src/main.ts:231-241 | The method takes exactly the step of a login. |
| `Gateway.Server.PostCodeConfirm` | packages/server/src/main.ts:218-222 | The method takes exactly the step of a confirmation. |
| `Gateway.Server.PostCode` | packages/server/src/main.ts:244-253 | The method takes exactly the step of a one-time code. |
| `Gateway.Server.PostPasskeyOptions` | packages/server/src/main.ts:257-265 | The method takes exactly the step of the login options. |
| `Gateway.Server.PostPasskeyVerify` | packages/server/src/main.ts:268-281 | The method takes exactly the step of a passkey as second factor. |
| `Gateway.Server.PostRegisterOptions` | packages/server/src/main.ts:399-402 | The method takes exactly the step of the registration options. |
| `Gateway.Server.PostRegisterVerify` | packages/server/src/main.ts:404-411 | The method takes exactly the step of a registration. |
| `Gateway.Server.PostDeviceChallenge` | packages/server/src/main.ts:284-290 | The method takes exactly the step that hands out a device challenge. |
| `Gateway.Server.PostDeviceVerify` | packages/server/src/main.ts:293-303 | The method takes exactly the step of a device answer as second factor. |
| `Gateway.Server.PutItem` | packages/server/src/main.ts:469-477 | The method, over the store with joined keys, takes exactly the step of a guarded push. |
| `Gateway.Server.DeleteItem` | packages/server/src/main.ts:479-482 | So does the deletion. |
| `Gateway.Server.GetItems` | packages/server/src/main.ts:464-467 | The method refuses as the guard does, or lists each row of the token's user exactly once. |
| `RangeText.SplitUndoesJoin` | packages/desktop/src/core/vault-health.ts:82 | Lines joined by the server come back on the client. |
| `RangeText.SortKeeps` | packages/server/src/breach/range.service.ts:99 | Sorting keeps every line as often as it was there, and orders them. |
| `RangeText.DecimalReadsBack` | packages/server/src/breach/range.service.ts:81 | A count reads back as it was written. |
| `BreachRange.BreachRangeService.AddHash` | packages/server/src/breach/range.service.ts:63-68 | Every bucket holds the suffixes loaded for its prefix, in order. |
| `BreachRange.BreachRangeService.LoadPasswords` | packages/server/src/breach/range.service.ts:42-44 | Adds each password's hash with its rank as count. |
| `BreachRange.BreachRangeService.LoadCorpus` | packages/server/src/breach/range.service.ts:47-57 | Adds each line as a hash with its count, or as a password that counts once. |
| `CorpusText.HashLineLoads` | packages/server/src/breach/range.service.ts:50-53 | A line of forty hexadecimal digits, a colon and decimal digits, with any white space around, loads that hash in upper case with that count. |
| `CorpusText.OtherLineLoads` | packages/server/src/breach/range.service.ts:54 | Every other line loads as a password that counts once. |
| `CorpusText.LinesLoadInOrder` | packages/server/src/breach/range.service.ts:48-56 | Lines load in order, each once, and empty ones load nothing. |
| `CorpusText.RankedCountsDown` | packages/server/src/breach/range.service.ts:42-44 | In the list of common passwords the last counts once and each other once more than the next. |
| `BreachRange.BreachRangeService.Range` | packages/server/src/breach/range.service.ts:78-100 | The body is the sorted local lines and the upstream's news; the upstream is asked once per prefix, also when it fails. |
| `BreachRange.AskTwice` | packages/server/src/breach/range.service.ts:84-92 | Asking again gives the same body without another upstream call. |
| `BreachRange.TrimKeepsMeaning` | packages/server/src/breach/range.service.ts:94-97 | A trimmed upstream line is about the same suffix with the same count. |
| `RangeLookup.LookupIsLastMatch` | packages/desktop/src/core/vault-health.ts:79-92 | The client's bucket gives the count of the last line about a suffix, else 0. |
| `RangeLookup.BodyAnswersLikeLookup` | packages/desktop/src/core/vault-health.ts:74-92 | With any repeats, the client finds in the body the count of the stored entry whose count sorts last as a text, else that of the upstream line that sorts last, else 0. |
| `RangeLookup.CountIsUnique` | packages/server/src/breach/range.service.ts:78-100 | That rule gives each hash one count. |
| `RangeLookup.CountOfOneLoad` | packages/server/src/breach/range.service.ts:63-68 | For a hash loaded once it is the count it was loaded with. |
| `RangeLookup.LargestCountExactly` | packages/server/src/breach/range.service.ts:99 | For a hash loaded any number of times, the largest count is the one reported if and only if no other count loaded for it sorts after it as a text. |
| `RangeLookup.RepeatedHashMisleads` | packages/server/src/breach/range.service.ts:63-68 | Loaded as 10 and as 9, a hash is reported with 9. |
| `RangeLookup.BreachedByCount` | packages/desktop/src/core/vault-health.ts:107 | A hash has a count of at least 1, or a text for a count that passes for positive, if and only if the corpus was loaded with some count above 0 for it or, where the corpus does not have it, the upstream's count is such. |
| `VaultHealth.LoginsAreRanked` | packages/desktop/src/core/vault-health.ts:63 | The report is about the items with a non-empty password, each at its rank among them. |
| `VaultHealth.TallyCounts` | packages/desktop/src/core/vault-health.ts:117-125 | The summary holds the number of entries, and of those flagged breached, reused and weak. |
| `VaultHealth.ReportedCountIsTheCount` | packages/desktop/src/core/vault-health.ts:59-113 | End to end, with any repeats: a count read from the server's answers is that of the corpus for the hash, else what the upstream says, else 0. |
| `VaultHealth.BreachCount` | packages/desktop/src/core/vault-health.ts:74-92 | The cached count is the count in the answer for the password's own prefix. |
| `VaultHealth.ReportHealth` | packages/desktop/src/core/vault-health.ts:59-126 | Over the server object with its kept upstream answers and a network that can fail: up to the first failure each entry has the count that corpus and upstream give its hash and is flagged breached exactly if its hash is, and none is after it; it is reused exactly when another item has the same password; the summary counts the flags; and only hash prefixes are asked for, none twice. |
| `RangeLookup.CorpusLoadsHashes` | packages/server/src/breach/range.service.ts:47-57 | Whatever a corpus file holds, what is loaded of it are hashes, in upper case. |
| `VaultHealth.StartServer` | packages/server/src/main.ts:111-119 | The server starts with the entries of the corpus file, or of the common passwords, all of them hashes. |
| `VaultHealth.CheckVault` | packages/desktop/src/core/vault-health.ts:59-126 | From the loaders to the report: over any corpus, upstream and network, up to the first failure each reported count is the one of the hash, and each entry is flagged exactly if its hash was loaded with any count above 0 or, unknown to the corpus, has one upstream. |
| `Totp.DecodeOfEncode` | packages/server/src/mfa/totp.service.ts:17-47 | Decoding a secret gives the first floor(5 * floor(8n / 5) / 8) of its n bytes. |
| `Totp.SecretSurvivesExactly` | packages/server/src/mfa/totp.service.ts:17-47 | All of them exactly when 5 divides n; otherwise the last byte is lost. |
| `Totp.CodesHaveSixDigits` | packages/server/src/mfa/totp.service.ts:49-61 | Every 20-byte digest gives six digits that spell its truncation modulo a million. |
| `Totp.TruncationIsThirtyOneBits` | packages/server/src/mfa/totp.service.ts:54-59 | The truncation reads inside the digest, and is the number that all bits but the first of four bytes spell. |
| `Totp.CounterReadsBack` | packages/server/src/mfa/totp.service.ts:51-52 | The eight bytes that are hashed spell the counter. |
| `Totp.LettersAreTheAlphabet` | packages/server/src/mfa/totp.service.ts:15 | Each value has the letter at its place in the alphabet. |
| `Totp.CodesUseTheWholeSecret` | packages/server/src/mfa/totp.service.ts:49-61 | For a secret of a multiple of five bytes the hash is keyed with exactly these bytes. |
| `Totp.GenerateSecret` | packages/server/src/mfa/totp.service.ts:17-26 | The loops build the base32 text. |
| `Totp.DecodeSecret` | packages/server/src/mfa/totp.service.ts:35-47 | The loops read it back. |
| `Totp.AcceptsExactly` | packages/server/src/mfa/totp.service.ts:69-79 | The loop's answer is acceptance if and only if there is a step before this one and one of the three has the code. |
| `Totp.VerifyTotp` | packages/server/src/mfa/totp.service.ts:69-79 | Accepts exactly the codes of the three adjacent steps; in the first step of the epoch it throws. The three are tried in order. |
| `RecoveryKey.EachSymbolHasSevenBytes` | packages/crypto/src/recovery.ts:33-48 | The rejection loop lets through exactly seven byte values for each symbol. |
| `RecoveryKey.GenerateRecoveryKey` | packages/crypto/src/recovery.ts:33-48 | The key is the printed form of the first 25 symbols drawn. |
| `RecoveryKey.NormalizesExactly` | packages/crypto/src/recovery.ts:51-58 | A text normalises to a payload if and only if it spells it behind the mark, or spells it alone and it does not begin like the mark. |
| `RecoveryKey.EveryRewritingReads` | packages/crypto/src/recovery.ts:51-58 | Other case, added or removed separators, I or L for 1 and O for 0 change nothing. |
| `RecoveryKey.PrintedKeyReadsBack` | packages/crypto/src/recovery.ts:33-58 | Every printed key reads back as its payload. |
| `RecoveryKey.MarklessKeyReadsBackExactly` | packages/crypto/src/recovery.ts:51-58 | Without the mark it reads back exactly when the payload does not begin with VK. |

## Left out

- VaultService.VaultService.Pull: does not model the `since` filter and the timestamps behind it; the client of the source never sends one.
- VaultApp.App.Update: takes the new body of the item as a whole; merging a patch into the fields of an item is not modelled, as items are opaque to the sync.
- VaultApp.App.Add: does not model timestamps and default fields.
- SyncWeather.SyncKeepsFaith: the other devices push under the same key.
- Rekeying.RekeySafety: no other device writes while the vault moves, as their rows under the old key would not open with the new one.
- Gateway.Server.PostLogin: takes the account service's verdict as input; password verification is not part of this model.
- The routes for the enrolment and approval of devices and the start of code enrolment are steps of `Gateway` without a method of their own.
- BreachRange.BreachRangeService.Range: is on ASCII text and exact counts; upper-casing of other letters and rounding of counts past 2^53 are not modelled.
- VaultHealth.ReportHealth: takes the weak-password heuristic, and the sign of a count that is no natural number, as parameters; titles, reasons and the time of the report are not modelled.
- RecoveryKey.GenerateRecoveryKey: draws from a given sequence of bytes and gives up when it ends, where the source draws on.
- RecoveryKey.EveryRewritingReads: upper-cases ASCII letters only.
- Lone surrogates in texts: CBOR texts are the UTF-8 bytes of scalar values.
- The mobile item type, which drops notes, tags, fields and favorite; its app class otherwise has the desktop's methods.
- Interleaving of the awaits inside one server handler.
- VaultApp.Transport.Push: does not model an error body of the server, which the client of the source takes for a conflict without a row.
- Request parsing, CORS, static files and QR images.
- The Prisma stores, the file stores but the device list, base64, JSON text and timestamps.
- `begin` and `setup` of the recovery service: one check of one stored hash each.
- Key derivation, timing, and wiping of buffers beyond the master key.
- Autofill, phishing checks, the password generator, biometrics and all user interface: single-branch or outside the core.
