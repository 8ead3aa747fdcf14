# Copay wallet core, modelled in Dafny

This project models the copayer-side wallet of Copay, an M-of-N multisignature
Bitcoin wallet (`js/models/core/Wallet.js`). Each copayer runs a `Wallet`
that talks to the other copayers over a peer network. The wallet does the
following:

- it merges the key ring, derivation indexes, transaction proposals and
  address-book entries that peers send;
- it signs, rejects, acknowledges and broadcasts proposals;
- it discovers which derived addresses are in use with a gap-limited scan
  (the "Address gap limit" rule of BIP 44);
- it filters spendable outputs and computes balances;
- it keeps a few small state machines: reconnect back-off, the seeded join
  greeting, and the registered-peer cache.

The wallet's collaborators are the key ring, the proposal set, the
transaction builder, the chain, the network and storage. Their sources are
not part of this model. Each appears only through what the wallet observes
of it:

- the observable state it keeps: `KeyRing`, `Proposal` with its
  signed/rejected/seen maps, signature count and completeness;
- oracle parameters standing for its answers: merge outcomes, activity sets
  per derivation branch, chain replies, signature checks, the clock.

What the wallet sends, emits and stores is recorded in its `sent`, `events`
and `stores` fields.

Layout, one module per file:

- `types.dfy` (`Types`): entities, wire messages, outbound records, failures.
- `discovery.dfy` (`Discovery`): `indexDiscovery`, `updateIndex` and `updateIndexes`.
- `addressbook.dfy` (`AddressBook`): the write-once merge and the local commands.
- `proposals.dfy` (`Proposals`): key maps, proposal events, reject/seen/sign/send, listing, creation, the reserved outputs.
- `balance.dfy` (`Balance`): `getUnspent` and `getBalance`.
- `connection.dfy` (`Connection`): back-off, seeded join, peer cache.
- `config.dfy` (`Config`): the constructor's option checks, `getName`, `isShared`.
- `handlers.dfy` (`Handlers`): `_handleData` and its handlers as functions of the wallet state.
- `wallet.dfy` (`WalletCore`): `class Wallet`. Its fields are updated in place. Each method is proved against the functions above.

Decisions where the source leaves a choice, or where the code and its
description differ:

- `indexDiscovery` throws when the activity query fails (Wallet.js:971). That
  throw would escape the scan. The model passes the failure on as an error
  result, which is what the surrounding callbacks (935, 940, 923) expect.
- `_handleSeen` dereferences an unknown proposal (Wallet.js:269-270). The
  resulting TypeError is raised before anything changes, so it is modelled as
  an error with no state change.
- `_checkAddressBook` builds its error message from an undefined `address`
  (Wallet.js:1005). It still throws, only with a ReferenceError in place of
  the intended message. The model reports `AddressExists`.
- A received key ring is re-broadcast to every peer (`sendPublicKeyRing()`
  with no recipients, Wallet.js:122), not only answered to its sender; the
  model follows the code.
- `getMyCopayerId` is the key ring's first copayer (Wallet.js:381-383); `MyId`.
- `getUsedUnspent` belongs to the proposal set. `Reserved` models it as the
  outputs of proposals with at most `maxRejectCount` rejections.
  `ReservedExactlyViable` shows that with `maxRejectCount = total - required`
  these are the outputs of the proposals that are not finally rejected.
- `updateIndexes` runs one task per index pair, and each task advances the
  key ring's own pair object in place (Wallet.js:916-928). The model commits
  the refreshed pairs all together, and only when every pair's update
  succeeded (`Refreshed`). `PartialRefreshAsWritten` shows what the in-place
  update keeps after a failure.
- A copayer's nickname comes from the key ring (`nicknameForCopayer`,
  Wallet.js:480); its peer id from the network (`peerFromCopayer`,
  Wallet.js:476). `nickOf` and `peerOf` stand for these two lookups; the key
  ring's nickname table itself is not modelled.
- `Dispatch` and `HandleData` take the proposal set's `getNtxids` answer
  (`Peers.listed`) as an enumeration of the known proposal ids, each once.

## Model

| member | source | states |
|---|---|---|
| Discovery.RecentActiveIsLast | js/models/core/Wallet.js:974-976 | The fold over a window's activity flags returns either the prior value, when no position of the window is active, or an active position of the window after which none is active. |
| Discovery.Discover | js/models/core/Wallet.js:959-991 | The reported last-active position never falls below the one the scan started from. |
| Discovery.IndexDiscovery | js/models/core/Wallet.js:959-991 | The loop over scanIndex/lastActive/hasActivity computes exactly the recursive scan: the same last-active position, the same windows, the same failure. |
| Discovery.DiscoveryFindsLastActive | js/models/core/Wallet.js:956-991 | On success the result is -1 only if the first gap-wide window is quiet. Otherwise it is an active position at or after start, followed by gap inactive positions, with activity in every gap-wide window starting between start and it. |
| Discovery.DiscoveryWindows | js/models/core/Wallet.js:966-980 | Every window holds at most gap positions, and at least one when the gap is positive. Together the windows end exactly gap positions past the last active one, or past the scan's start when none was found. |
| Discovery.DiscoveryFailsOnlyOnQueryFailure | js/models/core/Wallet.js:970-971 | A scan fails only with a query failure the chain reported at or after the scan's start. |
| Discovery.DiscoveryExample | js/models/core/Wallet.js:959-991 | With activity only at 5 and 17, start 0 and gap 20, the scan queries windows of 20 and 18 and reports 17. |
| Discovery.DiscoveryThreeWindowsExample | js/models/core/Wallet.js:959-991 | With activity only at 1 and 5, start 0 and gap 4, the scan queries windows of 4, 2 and 4 and reports 5. |
| Discovery.AdvanceMovesToActivity | js/models/core/Wallet.js:931-946 | After a successful update, neither position of a pair has decreased. A position moves exactly when its branch shows activity within the gap. It then lands one past an active address followed by 20 quiet ones. |
| Discovery.UpdatedNeverDecreases | js/models/core/Wallet.js:931-946 | Whether it succeeds or fails, an update never moves a position back and keeps the cosigner. |
| Discovery.PartialAdvanceAsWritten | js/models/core/Wallet.js:934-944 | With the scan's failure passed on as an error (see the first decision above), a failing receive scan reports the error after the change position has already moved (0 to 1). Where the throw escapes instead, no error is reported, but the change position has still moved. The all-or-nothing update reports the error and moves nothing. |
| Discovery.Complete | js/models/core/Wallet.js:922-928 | updateIndexes with the early return calls back exactly once, with the error if any. It notifies and stores exactly on success. |
| Discovery.FailedUpdateCallsBackTwiceAsWritten | js/models/core/Wallet.js:922-928 | With the scan's failure passed on as an error, the completion as written reports the failure, then reports success and stores the wallet. The corrected completion reports the failure once and stores nothing. |
| Discovery.FirstFailureExactlyWhenSomePairFails | js/models/core/Wallet.js:912-929 | The refresh fails exactly when some pair's update fails, and then with the error of a failing pair. |
| Discovery.RefreshAllOrNothing | js/models/core/Wallet.js:912-929 | The refresh keeps the number of pairs. When any pair fails, no pair moves; when none fails, every pair becomes its own successful update. |
| Discovery.PartialRefreshAsWritten | js/models/core/Wallet.js:916-928 | As written, with pairs (0, 0, 0) and (1, 0, 0), cosigner 0's change branch used at 0 and cosigner 1's change query failing, the refresh fails but cosigner 0's pair has advanced to change 1. The all-or-nothing refresh keeps both pairs. |
| AddressBook.MergeIsWriteOnce | js/models/core/Wallet.js:283-301 | The merge never overwrites or removes an existing entry. Every added entry is carried by the message under an unseen non-empty key and verifies against the sender. Unless an empty key stopped the merge, every verifying entry's key ends up in the book. |
| AddressBook.MergeChangedExactlyWhenAdded | js/models/core/Wallet.js:288-300 | The merge reports a change exactly when the book changed. Otherwise the book is unchanged. |
| AddressBook.UnverifiedEntriesAreDropped | js/models/core/Wallet.js:289-294 | A message none of whose entries verifies leaves the book unchanged and reports no change. |
| AddressBook.CheckAddressBook | js/models/core/Wallet.js:1003-1007 | An entry may be set exactly when the address has no entry or only one owned by no copayer. |
| AddressBook.SetEntry | js/models/core/Wallet.js:1009-1029 | Fails exactly when a copayer already owns the address. Otherwise it adds, under that key only, a visible entry owned by this copayer, stamped now, whose signature is the signing function applied to the entry's own fields. |
| AddressBook.SetEntryIsAcceptedByPeers | js/models/core/Wallet.js:1009-1041 | An entry set locally, signed with a key whose signatures verify against this copayer, is accepted by any peer whose book lacks the address. setAddressBook and verifyAddressbookEntry sign and check the same fields. |
| AddressBook.Toggle | js/models/core/Wallet.js:1043-1047 | Fails exactly for an empty or unknown key. Otherwise it flips that entry's hidden flag and changes nothing else. |
| AddressBook.ToggleTwiceRestores | js/models/core/Wallet.js:1043-1047 | Toggling an entry twice restores the book. |
| Proposals.KeyMapOf | js/models/core/Wallet.js:167-187 | Succeeds exactly when there is an input, every signer key of the first input belongs to a known copayer, and every input has the same signer set. The map then covers exactly those keys, with their owners. |
| Proposals.GetKeyMap | js/models/core/Wallet.js:167-187 | The loop over the inputs' signer sets agrees with `KeyMapOf`. |
| Proposals.ProposalEventFor | js/models/core/Wallet.js:133-156 | A failed merge is reported corrupt, a new proposal new, a known one with new signers signed by exactly those signers. A merge with nothing new is not reported. |
| Proposals.ReservedExactlyViable | js/models/core/Wallet.js:802-823 | With maxRejectCount = total - required, an output is reserved exactly when a proposal that is not finally rejected spends it. |
| Proposals.GetTxProposals | js/models/core/Wallet.js:647-663 | Lists every proposal except read-only ones that are neither finally rejected nor sent, each once. It marks them signed/rejected by us and finally rejected when fewer than `required` copayers have not rejected. |
| Proposals.ApplyReject | js/models/core/Wallet.js:242-263 | Fails exactly for an empty or unknown id or a sender who already signed. Otherwise only that proposal's rejections change, gaining the sender. |
| Proposals.RejectKeepsFinallyRejected | js/models/core/Wallet.js:242-263 | A rejection never brings a finally rejected proposal back. |
| Proposals.ApplySeen | js/models/core/Wallet.js:265-279 | Fails exactly for an empty or unknown id. Otherwise only that proposal's acknowledgements change, gaining the sender. |
| Proposals.SeenLeavesFinalityAlone | js/models/core/Wallet.js:265-279 | An acknowledgement changes neither signatures, completeness, signers, sent state nor final rejection. |
| Proposals.SignProposal | js/models/core/Wallet.js:673-699 | Fails without a copayer id or for an unknown proposal. It reports signed exactly when the signature count strictly grew. Only then is this copayer added to the signers, stamped now; otherwise nothing changes. |
| Proposals.SignTwiceAddsAtMostOne | js/models/core/Wallet.js:673-699 | Signing twice adds at most one signer, this copayer. |
| Proposals.CheckSent | js/models/core/Wallet.js:190-202 | A proposal is marked sent, with the chain's id, exactly when the chain reports the transaction accepted. No other proposal changes. |
| Proposals.SendTx | js/models/core/Wallet.js:702-733 | Refuses an unknown or incomplete proposal. It reports the broadcast id, or else the id the chain reports for an earlier send. It marks the proposal sent exactly when an id came back, and re-announces it only after a direct broadcast. |
| Proposals.AsWrittenNeverReportsSigners | js/models/core/Wallet.js:205-239 | As written, no proposal message ever yields a signed event, and a proposal whose inputs disagree on their signers is stored anyway. |
| Proposals.ReactRejectsCorrupt | js/models/core/Wallet.js:205-239 | With the signer check enforced, a failed merge or an inconsistent signer set changes nothing and yields only a corrupt event. |
| Proposals.ReactRecordsSigners | js/models/core/Wallet.js:205-239 | An accepted proposal is stored with all copayers that signed its inputs, and only that proposal changes. A known proposal with new signers yields a signed event for them. A seen message goes out exactly when the merge changed something. The proposal is marked sent only when it changed, is complete and the chain reports it accepted. |
| Proposals.CreateTxCheck | js/models/core/Wallet.js:850-858 | Passes exactly when the destination's network is the wallet's, the key ring is complete, a private key exists and the comment has at most 100 UTF-16 code units. |
| Proposals.Utf16LengthBounds | js/models/core/Wallet.js:858 | A string's length in UTF-16 code units lies between its character count and twice it, and is twice it when every character lies beyond the Basic Multilingual Plane. |
| Proposals.EmojiCommentTooLong | js/models/core/Wallet.js:858 | A comment of 60 emoji, 120 code units, is refused as too long. |
| Proposals.CreateTx | js/models/core/Wallet.js:850-910 | Succeeds exactly when the checks pass and the first input could be signed. It then adds only the new proposal, created, signed and seen by this copayer now, rejected by nobody and not sent. |
| Balance.SafeListKeepsExactlySpendable | js/models/core/Wallet.js:814-818 | Each output appears in the safe list exactly as often as in the raw list when it is neither reserved nor (unless allowed) unconfirmed, and not at all otherwise. |
| Balance.SafeListIsSubsequence | js/models/core/Wallet.js:814-818 | The safe list keeps the raw list's order: it is the raw list at strictly increasing positions. |
| Balance.SafeBalanceAtMostBalance | js/models/core/Wallet.js:766-800 | The safe balance never exceeds the balance. |
| Balance.ByAddressAddsUpToBalance | js/models/core/Wallet.js:777-787 | Over any duplicate-free list naming every address paid, the per-address totals add up to the balance. |
| Balance.AbsentAddressTotalsZero | js/models/core/Wallet.js:777-782 | An address no output pays to has no balance. |
| Balance.GetUnspent | js/models/core/Wallet.js:802-823 | Passes on the chain's error. Otherwise it returns the raw list and its spendable sublist. |
| Balance.SumOutputs | js/models/core/Wallet.js:777-787 | The loop yields the total of all outputs, and a per-address map over exactly the addresses paid, each holding that address's total. |
| Balance.SumAmounts | js/models/core/Wallet.js:791-797 | The loop yields the total of the spendable outputs. |
| Balance.GetBalance | js/models/core/Wallet.js:766-800 | Passes on the chain's error. Otherwise it returns the balance, the per-address balances and the safe balance, each as the total of the outputs concerned. |
| Connection.BackoffDoubles | js/models/core/Wallet.js:446-453 | From an unset delay (the start, and what a disconnect restores), k online ticks give reconnectDelay·2^(k-1). Offline ticks change nothing, and no online tick leaves it unset. |
| Connection.DelayFromSet | js/models/core/Wallet.js:446-453 | From a set delay d, k online ticks give d·2^k. |
| Connection.SeededGreetedOnce | js/models/core/Wallet.js:85-93 | Over any number of connectToAll calls, a seeded copayer is greeted with walletReady exactly once, and nobody is greeted when none was seeded. |
| Connection.BuildPeerCache | js/models/core/Wallet.js:472-483 | One entry per registered copayer, in ring order, each with its position, peer id and nickname. |
| Config.CheckRequiredOptions | js/models/core/Wallet.js:29-37 | Reports nothing exactly when every required option is present. Otherwise it reports a missing one, all options before it in the list being present. |
| Config.CheckNetwork | js/models/core/Wallet.js:38-40 | Fails exactly when a network is forced and the key ring's differs. |
| Config.WalletId | js/models/core/Wallet.js:44 | The given id when non-empty, otherwise the random one. The result is never empty when the random id is not. |
| Config.DisplayName | js/models/core/Wallet.js:629-631 | The name when it is non-empty, otherwise the id. |
| Config.Construct | js/models/core/Wallet.js:25-60 | Succeeds exactly when every required option is present and the forced network, if any, matches. Failures name the missing option or the forced network. Success keeps the given settings with the chosen id. |
| Handlers.MyId | js/models/core/Wallet.js:381-383 | This copayer's id is the key ring's first copayer, and is unset exactly when the ring is empty. |
| Handlers.RingReplyAndLock | js/models/core/Wallet.js:105-130 | The ring is re-broadcast exactly when the merge changed it and ours was incomplete. Incoming connections are locked exactly when it changed and is complete. The wallet notifies and stores exactly when it changed. |
| Handlers.OnIndexes | js/models/core/Wallet.js:95-103 | The merged indexes are kept. The wallet notifies and stores exactly when they changed, and nothing else changes. |
| Handlers.ProposalSends | js/models/core/Wallet.js:538-544 | One proposal message per listed id, to the given recipients, in order. |
| Handlers.AddressBookNotifiesOnCleanChange | js/models/core/Wallet.js:283-301 | The handler keeps the merged book and changes nothing else but events and stores. It notifies and stores exactly when the book changed and no empty key stopped the merge. An empty key makes it throw, keeping the entries added before. |
| Handlers.EnumeratedSendsEachOnce | js/models/core/Wallet.js:538-544 | When the listed ids enumerate the known proposals, every known proposal is sent, only known proposals are sent, and none is sent twice. |
| Handlers.WalletReadyReply | js/models/core/Wallet.js:316-320 | A copayer reporting ready is sent the key ring, then the address book, then one message per listed proposal, and nothing else changes. |
| Handlers.ForeignMessagesRunNoHandler | js/models/core/Wallet.js:303-341 | A message that is not a walletId handshake and names another wallet runs no handler. Its only effect is a badMessage event. A message of unknown type changes nothing. |
| Handlers.DispatchOnlyAppends | js/models/core/Wallet.js:303-341 | Handling a message only appends to what was sent and emitted and never lowers the store count. |
| Handlers.EachMessageTouchesItsOwnState | js/models/core/Wallet.js:303-341 | Only a key ring message changes the ring; only an indexes message the indexes; only proposal, reject or seen messages the proposals; only an address book message the book. |
| Handlers.FailuresChangeNothing | js/models/core/Wallet.js:242-301 | A handler that throws leaves the wallet unchanged. The one exception is address-book entries merged before an empty key stopped the merge. |
| Handlers.RejectFromSignerRefused | js/models/core/Wallet.js:242-263 | A reject from a copayer who signed is refused with no change. An accepted one only adds the sender to that proposal's rejections. |
| WalletCore.Wallet.Create | js/models/core/Wallet.js:25-60 | A wallet is built exactly when the option checks pass. It gets the chosen id and keeps every given setting, ring, indexes, proposals and book. Nothing is sent, emitted or stored, no reconnect delay is set, no copayer is seeded and the peer cache is empty. |
| WalletCore.Wallet.HandleData | js/models/core/Wallet.js:303-341 | The in-place handling of a message leaves the wallet in the state `Dispatch` gives and throws what it gives. |
| WalletCore.Wallet.SendAllTxProposals | js/models/core/Wallet.js:538-544 | The loop appends one proposal message per listed id, in order, and changes nothing else. |
| WalletCore.Wallet.HandlePublicKeyRing | js/models/core/Wallet.js:105-130 | The new state is the one `OnPublicKeyRing` gives. |
| WalletCore.Wallet.HandleIndexes | js/models/core/Wallet.js:95-103 | The new state is the one `OnIndexes` gives. |
| WalletCore.Wallet.HandleReject | js/models/core/Wallet.js:242-263 | The new state and failure are those of `OnReject`: `ApplyReject`'s proposals, one store, an update and a rejected event. |
| WalletCore.Wallet.HandleSeen | js/models/core/Wallet.js:265-279 | The new state and failure are those of `OnSeen`. |
| WalletCore.Wallet.HandleTxProposal | js/models/core/Wallet.js:205-239 | Step by step (key map, signer stamping, seen/re-broadcast, chain check, events) the new state is the one `React` gives. |
| WalletCore.Wallet.StoreMerged | js/models/core/Wallet.js:219-238 | After an accepted merge, the proposals, sends, events and store count become what `AfterMerge` gives: the proposal is stored, acknowledged and re-broadcast while incomplete, checked against the chain once complete, then the wallet notifies and stores. |
| WalletCore.Wallet.HandleAddressBook | js/models/core/Wallet.js:283-301 | The loop over the received entries ends in the book `MergeBook` gives, notifying and storing exactly when it added an entry and no empty key stopped the merge. On an empty key it stops with a failure, keeping the entries added before. |
| WalletCore.Wallet.Sign | js/models/core/Wallet.js:673-699 | Proposals change as `SignProposal` says. A successful signature is re-broadcast, stored and notified; otherwise nothing changes. |
| WalletCore.Wallet.SendTx | js/models/core/Wallet.js:702-733 | Proposals and the returned id are those of `SendTx`. A direct broadcast is re-announced, and the wallet stores whenever an id came back. |
| WalletCore.Wallet.CreateTx | js/models/core/Wallet.js:826-910 | Proposals change as `CreateTx` says. A created proposal is announced after the indexes, then stored and notified. A refused one changes nothing. |
| WalletCore.Wallet.GetUnspent | js/models/core/Wallet.js:802-823 | The safe list is filtered against the outputs of the proposals with at most total - required rejections, and against confirmations unless unconfirmed spending is on. |
| WalletCore.Wallet.GetBalance | js/models/core/Wallet.js:766-800 | The balance and safe balance are those of this wallet's outputs and reserved set, and the safe balance never exceeds the balance. |
| WalletCore.Wallet.UpdateIndex | js/models/core/Wallet.js:931-946 | Only the i-th pair changes: it becomes `Updated`, advancing only when both scans succeed. The method fails exactly when `Advance` does, with its error. |
| WalletCore.Wallet.UpdateEach | js/models/core/Wallet.js:916-922 | The loop over the pairs leaves every pair as its own update says and returns the first failure, in pair order. |
| WalletCore.Wallet.UpdateIndexes | js/models/core/Wallet.js:912-929 | The pairs become `Refreshed`: all advanced when every update succeeds, all kept otherwise. The single callback carries the first failure. The wallet notifies and stores only when there was none. |
| WalletCore.Wallet.SeedCopayer | js/models/core/Wallet.js:81-83 | Records the copayer to greet on the next connection round. |
| WalletCore.Wallet.ConnectToAll | js/models/core/Wallet.js:85-93 | Connects to the ring's copayers and greets and forgets a seeded copayer, as `ConnectStep` says. |
| WalletCore.Wallet.ScheduleConnect | js/models/core/Wallet.js:446-453 | The delay follows `Tick`. Online, the wallet connects as `ConnectStep` says; offline, nothing else changes. |
| WalletCore.Wallet.HandleDisconnect | js/models/core/Wallet.js:352-355 | The delay becomes unset and the disconnect is reported. |
| WalletCore.Wallet.GetRegisteredPeerIds | js/models/core/Wallet.js:469-486 | The cache always has one entry per registered copayer. It is kept when its length already matches and rebuilt entry by entry otherwise. |
| WalletCore.Wallet.SetAddressBook | js/models/core/Wallet.js:1009-1029 | The book changes as `SetEntry` says. A new entry is announced with the whole book and stored; a refused one changes nothing. |
| WalletCore.Wallet.ToggleAddressBookEntry | js/models/core/Wallet.js:1043-1047 | The book changes as `Toggle` says, and the wallet stores only on success. |

## Left out

- js/controllers/sidebar.js is an Angular menu controller with no wallet logic; it is not part of this model.
- Network plumbing is not modelled: `netStart`, `_handleConnect`, `disconnect`, `getOnlinePeerIDs`, and the wire encoding of the `send*` methods. What the wallet sends is recorded as `NetCall` values.
- Persistence is not modelled: `store`, `toObj`, `fromObj`, `toEncryptedObj`, `_optsToObj`. Each store is counted in `stores`.
- Cryptography and encoding are parameters: signing and verifying JSON (`sign`, `Verifier`), the wallet id's random bytes (`randomId`). `getSecret`/`decodeSecret` (Base58Check) are not modelled.
- The collaborators' own logic is not modelled: the key ring's merges, the proposal set's merge, and the builder's signing and coin selection. They are represented by `MergedRing`, `MergedIndexes`, `TxMerge`, `Signing` and `Built`.
- `getBalance` converts with floating point (`amount * COIN`, `toFixed`). The model works in integer satoshis throughout.
- Timers and `async.parallel` are not modelled: a `sign` tick, `scheduleConnect` ticks and the index updates run as sequential steps. The chain's answer to `_checkSentTx` is applied after the synchronous part of `_handleTxProposal`.
- Several operations outside the named core are left out: the local `reject` (the proposal set does the work), `generateAddress`, `getAddresses*`, `addressIsOwn`, `isReady`, `setBackupReady` and `getNetworkName`. `deriveAddresses` is implicit in the position-based activity sets.
- `createTxSync`'s derivation of a change address is not modelled; it advances the key ring's indexes inside the key ring. `createTx` ignoring an error from `getUnspent` is not modelled either.
- The order of `for ... in` over the proposal map is not modelled. `GetTxProposals` promises each listed proposal once, in some order. `sendAllTxProposals` sends the ids `getNtxids` lists (`Peers.listed`), which enumerate the known proposals each once; only their order is left to the proposal set.
- `_getKeyMap` compares sorted, JSON-encoded key arrays. The model compares sets of keys, so duplicate keys within one input's signer list are not distinguished.
- `Proposals.GetTxProposals`, `Proposals.ApplyReject`: "signed/rejected by us" and "the sender already signed" are modelled as key presence in the maps. The source tests the stored timestamp for truthiness (Wallet.js:251, 652-653), and the two differ only for a timestamp of 0.
- `WalletCore.Wallet.SetAddressBook`, `WalletCore.Wallet.CreateTx`: both require the key ring to hold at least one copayer, since this copayer's own id is its first entry. The source would otherwise write an undefined owner or creator.
- `Connection.NextDelay`: the doubling delay is an unbounded integer. The host's timer clamping of very large delays is not modelled.
- `Config.IsShared` (`isShared`, Wallet.js:1049-1051) carries no contract of its own; it is the plain comparison total > 1.

## Findings

| source | as written | input that shows it | evidently intended | confidence | as-written member | corrected member |
|---|---|---|---|---|---|---|
| js/models/core/Wallet.js:213 | The result of `setCopayers` is assigned to an undeclared `ret`. The ReferenceError is swallowed by the surrounding `catch`, so signers are never recorded, no "signed" event ever fires, and a proposal whose inputs carry different signer sets stays merged. | Any merged proposal that is not new and brings a new signer: no signed event. A proposal whose two inputs have different signer sets: stored anyway. | The key map check rejects the proposal as corrupt without storing it. The signers are recorded, and a known proposal with new signers is reported as signed by them. | high; not executed | Proposals.AsWrittenNeverReportsSigners | Proposals.ReactRecordsSigners |
| js/models/core/Wallet.js:923 | `callback(err)` has no `return`, so after a failed update the wallet still notifies, stores and calls back a second time with no error. | Any update whose activity query fails, with that failure passed on as an error: callbacks `[Some(e), None]` and a store. In the unmodified code the throw at 971 escapes the scan first, so neither callback runs. | One callback carrying the error, with no notification or store. | medium; not executed | Discovery.FailedUpdateCallsBackTwiceAsWritten | Discovery.Complete |
| js/models/core/Wallet.js:937 | The change position is stored before the receive branch is scanned. A failing receive scan then reports an error yet leaves the pair half advanced. | Pair (cosigner 0, change 0, receive 0), change branch active at 0, receive query failing at 0: the pair becomes change 1, receive 0. With the failure passed on it reports an error; in the unmodified code the throw escapes, but the change position has already moved in memory. | Both positions advance together or not at all. | medium; not executed | Discovery.PartialAdvanceAsWritten | Discovery.AdvanceMovesToActivity |
| js/models/core/Wallet.js:916-928 | Each parallel task advances the key ring's own index pair in place. When one pair's update fails, the pairs that succeeded keep their advance, and the next store persists it. | Pairs (0, 0, 0) and (1, 0, 0); cosigner 0's change branch used at 0, cosigner 1's change query failing: the refresh fails, yet cosigner 0's pair is at change 1. | A refresh commits all pairs or none. | medium; not executed | Discovery.PartialRefreshAsWritten | Discovery.RefreshAllOrNothing |
