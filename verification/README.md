# Verified models of the swap backend's core

The backend swaps between Lightning and on-chain coins. This project models the small state machines and stores
that decide about money and proves what they keep over whole runs, for all inputs:

- **MuSig2 signing** (`Congruence`, `MusigPrimitives`, `MusigBuilder`, `MusigNonces`, `MusigRuns`, `MusigTheorems`):
  the six-phase session builder. The primitives are the equations of BIP 327 ("Nonce Aggregation", "Signing",
  "Partial Signature Verification", "Partial Signature Aggregation") and BIP 340 over exponents modulo the group
  order; parity and hash functions are parameters, so the theorems hold for any choice of them. The phases that
  consume a builder are functions, matching nonces is a loop, and the signing phase is a class that writes its slots
  in place. A run is any sequence of calls that the phase types admit, failing calls included.
- **0-conf risk ledger** (`RiskLedger`, `LockupTracker`): one chain's ledger as a concurrent state machine with a
  step per stretch between two awaits, and the tracker class whose methods are those steps on its per-chain maps.
- **Instrumented lock** (`InstrumentedLock`): the lock's bookkeeping maps against what the tasks are doing.
- **Invoice payments** (`PaymentTracker`, `PaymentRuns`, `PaymentRecords`): the payment rows of one preimage hash under serialised calls,
  tracker resolutions and self payments.
- **Lockup writes** (`LockupIdentity`): the decision function over unbounded runs of events.
- **TTL cache** (`MemCache`): the flat evicting map against a two-level map that never evicts.
- **Short channel ids** (`ShortChannelId`), **configuration** (`ConfigMerge`, `ConfigLoad`), **fees** (`FeeProvider`).

`dafny verify dfyconfig.toml` checks everything.

## Where the code does less, or more, than expected

- An aggregated signature verifies unless the participants' nonces cancel out to the point at infinity. The session
  then signs under the generator, every partial signature passes its check, aggregation succeeds, and the result never
  verifies. `AggregatedSignatureVerifiesIff` gives both directions; `CancellingNoncesDoNotVerify` builds such a run on
  every curve, for any two participants and any message.
- If the caller supplies a nonce pair that does not match, our slot alone decides: the signature verifies iff the slot
  holds what the published nonce owes (`AnyNonceVerifiesIff`), which is what we sign iff the secret combines to that
  nonce (`SignPassesIff`).
- At most one attempt of a payment is awaited at any time, but not at most one is in flight: an error of the call to a
  node other than CLN is recorded as a failure even if the node goes on paying (for LND, any error of the stream), and
  so is such an error seen by a node tracker. Attempts orphaned that way are conserved until they land
  (`OrphansAreConserved`); a payment is dispatched on top of another exactly if an orphan has not landed
  (`DispatchOverlapsIff`), and without orphans there is at most one attempt (`OneUnfinished`). `TwoAttemptsInFlight` and
  `FailedForGoodInFlight` are runs in which it happens.
- A referral lookup that throws leaves a pending row that nobody works on (`PendingWithoutAttemptIff`) and that blocks
  all calls until a node tracker resolves it (`LiveRowBlocks`).
- The clamp at zero in the risk ledger never changes a value, even if swaps are accepted twice or rows fail to be
  written (`ClampNeverFires`). The risk of a row that could not be written is never released: it stays recorded in
  every later state (`LostRiskStays`) and keeps what no longer fits beside it out forever (`LostRiskBlocks`).
  `RiskCanLeak` and, for a swap that is accepted twice, `DoubleAcceptanceLeaks` are runs in which it happens. `RiskIsExactIff` says exactly when the risk is the exposed amount.
- A fee rate that is not a whole multiple of 0.01% can make the extra fee negative (`FinerRateGoesNegative`);
  `ExtraFeeNeverNegativeIff` says exactly for which rates it cannot, `AlwaysAddsUpIff` for which rates the two fees
  always add up, and `ExtraFeeAlwaysCloseIff` when the extra fee stays within one unit of the exact charge.
- A cache key that continues another key after the separator answers for it (`ExtendedKeyAnswers`). A set of key names
  is safe exactly if it has no such pair (`TransparentIff`); names without the separator always are.
- A path in a merged tree is "the source's value, else the target's" exactly if no shapes clash along it
  (`MergeLookupIff`, with a clash in `PlainTargetHidesLeaf`), and a path setting follows its documented precedence
  exactly unless the command line has an object where the TOML file has a falsy value (`PathPrecedenceIff`, with a
  failing input in `ObjectErasesEmptyPath`); `CertificatesPrecedenceIff` is the same for the gRPC certificates.
- `Config.load` resolves the data directory and derives the other paths from it, but the later merges put the text as
  written, on the command line or in the TOML file, back into `datadir` (`StoredDataDirIff`). The stored directory is
  the resolved one exactly if that text resolves to itself, except that an empty text on the command line is put back
  without having been used (`StoredDataDirIsResolvedIff`). `TildeIsStored` and `EmptyDataDirIsStored` are the failing
  inputs.
- Converting a `block x tx x output` text to an integer and back is the identity exactly if the fields fit their widths
  (`ClnLndClnIff`).

## Assumptions

- MuSig2: received points and scalars are parsed ones; the random secret nonce is a parameter.
- Risk ledger: `init` has run, a swap's amount does not change, every pending row belongs to a known swap, the lock
  admits one holder per chain, and only the block handler deletes rows. Each chain has its own lock, risk entry and
  rows; `LockupTracker` proves that a method for one chain leaves every other chain's book alone.
- Lock: tasks have no limit on how long they may occupy it.
- Payments: calls for one hash are serialised and read the current rows; repository writes succeed; node trackers
  resolve pending rows only; a reverse swap, once there, is not deleted; for the timeout theorem the timeout is fixed
  and call times do not go back.
  Whether a node goes on paying after an error, and when an attempt that nobody awaits ends, is up to the environment.
- Lockup writes: applying a decision stores the incoming transaction id, the decided output index and the target
  status; whether a write is updatable is part of the event.
- Cache: operations are sequential; the clock is whole seconds since the epoch and does not go back.
- Fees: JavaScript numbers are exact reals.

## Model

| member | source | states |
|---|---|---|
| MusigPrimitives.Curve.TweakKeepsCacheInv | boltz-core/src/musig.rs:266-270 | After any x-only tweak the cached point is still the weighted key sum under the accumulated sign and tweak. |
| MusigPrimitives.Curve.PartialSignVerifies | boltz-core/src/musig.rs:563-572 | A partial signature made with the secret of the published nonce passes the check for that nonce and key. |
| MusigPrimitives.Curve.ExpectedSum | boltz-core/src/musig.rs:615-626 | Checked partial signatures add up to the nonce sums plus the challenged weighted key sum. |
| MusigPrimitives.Curve.AggregateVerifiesIff | boltz-core/src/musig.rs:612-626 | If slot i was checked against key i and nonce i for all i, the aggregate verifies iff the effective nonce is finite. |
| MusigBuilder.KeyIndex | boltz-core/src/musig.rs:231-236 | Finds the first occurrence of a key, and fails exactly for keys that are not participants. |
| MusigBuilder.OrderNonces | boltz-core/src/musig.rs:441-451 | The loop yields the nonces in participant order, or names the first participant without one. |
| MusigBuilder.AggregateReceived | boltz-core/src/musig.rs:425-454 | The method with its completed list computes the specified aggregation, for every error as well. |
| MusigBuilder.Collect | boltz-core/src/musig.rs:616-620 | All slots in order iff every one is filled. |
| MusigBuilder.SigningSession.AddPartial | boltz-core/src/musig.rs:522-558 | Stores a signature in its key's slot only after it passed the check, otherwise changes nothing. |
| MusigBuilder.SigningSession.Sign | boltz-core/src/musig.rs:563-596 | Takes the nonce and fills our slot, and only our slot. |
| MusigBuilder.SigningSession.Aggregate | boltz-core/src/musig.rs:615-626 | The collecting loop succeeds with the specified aggregate or reports a missing signature. |
| MusigNonces.AllFoundIsOnePerParticipant | boltz-core/src/musig.rs:437-451 | Pigeonhole: right count and every participant found means one entry each and nobody else. |
| MusigNonces.AggregateNoncesSucceedsIff | boltz-core/src/musig.rs:425-490 | For distinct keys, success iff the list, with our entry if it was missing, has one entry per participant, no others, and our nonce unchanged; nonce i is then the one listed for key i. |
| MusigNonces.AggregateNoncesOrderedIff | boltz-core/src/musig.rs:458-490 | The ordered vector is stored iff it has one nonce per key and ours at our index, with the matching error otherwise. |
| MusigNonces.AggregateNoncesFailsWith | boltz-core/src/musig.rs:425-490 | Which error: a wrong count, then the first participant without a nonce, then our changed nonce. |
| MusigNonces.AggregateNoncesPermutation | boltz-core/src/musig.rs:423-454 | The order of the received list does not matter, neither for the result nor for the error. |
| MusigNonces.AggregateNoncesMatchesOrdered | boltz-core/src/musig.rs:456-490 | A list keyed by participant, in any order, gives what the participant-ordered vector gives. |
| MusigRuns.StepKeepsInv | boltz-core/src/musig.rs:243-264 | Every call takes a builder that satisfies its phase's invariant to one that satisfies the next phase's. |
| MusigRuns.PhaseInvariants | boltz-core/src/musig.rs:458-609 | In every state of every run the phase invariants hold and no `expect` ever fails. |
| MusigTheorems.RunBindsInputs | boltz-core/src/musig.rs:243-287 | Along any run keys never change, the aggregated key is the tweaked key sum, the message is the one bound. |
| MusigTheorems.SetupIff | boltz-core/src/musig.rs:243-264 | Setup succeeds iff our key is among the keys, with an empty builder for all of them. |
| MusigTheorems.TweaksMoveKey | boltz-core/src/musig.rs:266-270 | Over any run the aggregated key is the weighted key sum with every tweak added in turn to its even lift; a tweak fails iff that is the point at infinity. |
| MusigTheorems.HeldNonceWasInjected | boltz-core/src/musig.rs:292-373 | The pair a builder holds is a generated secret with its public part, or the injected pair. |
| MusigTheorems.SecretNonceLeavesOnce | boltz-core/src/musig.rs:417-421 | Signing and extracting the secret nonce happen at most once together; what leaves is what was put in. |
| MusigTheorems.HonestRun | boltz-core/src/musig.rs:542-596 | In every run with matching nonce pairs each filled slot passes the check for its own key and nonce. |
| MusigTheorems.AggregatedSignatureVerifiesIff | boltz-core/src/musig.rs:458-626 | For any participants, tweaks and arrival order a finished signature verifies for the aggregated key and the bound message iff the nonces do not cancel out. |
| MusigTheorems.SignatureIsForTweakedKey | boltz-core/src/musig.rs:266-626 | In terms of the calls: the finished signature verifies for the even lift of the tweaked key and the bound message iff the nonces do not cancel out. |
| MusigTheorems.AddIff | boltz-core/src/musig.rs:522-558 | An addition fails with the matching error iff the key is a stranger or the check fails, and otherwise fills only the key's first slot. |
| MusigTheorems.AggregateFailsWith | boltz-core/src/musig.rs:612-626 | Aggregation reports a missing signature iff some slot is empty, and no other error. |
| MusigPrimitives.Curve.FinalNonceIs | boltz-core/src/musig.rs:495-517 | A session signs under the effective nonce, or under the generator if that is the point at infinity. |
| MusigPrimitives.Curve.PartialSignVerifiesIff | boltz-core/src/musig.rs:563-572 | With any published nonce a partial signature passes the check iff the secret nonce combines to it. |
| MusigPrimitives.Curve.AggregateVerifiesIffSlot | boltz-core/src/musig.rs:612-626 | If all slots but one were checked, the aggregate verifies iff that slot is what its participant owes (off by the generator if the nonces cancel out). |
| MusigTheorems.AnyNonceVerifiesIff | boltz-core/src/musig.rs:352-373 | In every run, mismatched nonce pairs included, a finished signature verifies iff our slot is what our published nonce owes. |
| MusigTheorems.SignPassesIff | boltz-core/src/musig.rs:563-596 | In every run, what we sign passes our own check iff our secret nonce combines to our public nonce. |
| MusigTheorems.SlotsFilledIff | boltz-core/src/musig.rs:542-596 | In every run, with any nonces, a slot is filled iff its participant was heard from. |
| MusigTheorems.AggregateSucceedsIff | boltz-core/src/musig.rs:612-626 | In every run, with any nonces, aggregation succeeds iff everybody was heard from. |
| MusigTheorems.OurSlotIsEmptyIff | boltz-core/src/musig.rs:576-581 | In every run, with any nonces, our slot is empty when we sign iff nobody added a signature under our key before. |
| MusigTheorems.SigningClosedForm | boltz-core/src/musig.rs:542-596 | In every run with matching nonce pairs the contributors' slots hold the only scalars that pass, all others are empty. |
| MusigTheorems.ArrivalOrderIsIrrelevant | boltz-core/src/musig.rs:542-558 | Runs that open the same session and hear from the same participants end in the same state, whatever the order and repetitions. |
| MusigTheorems.RepeatedKeyNeverFinishes | boltz-core/src/musig.rs:227-236 | With a repeated participant key no run ever yields a signature. |
| MusigTheorems.CancellingNoncesDoNotVerify | boltz-core/src/musig.rs:495-517 | On every curve, for any two keys and message: a run with opposite nonces that succeeds with a signature that does not verify. |
| RiskLedger.RunInv | lib/rates/LockupTransactionTracker.ts:128-239 | In every interleaving the risk equals rows plus unstored acceptances plus lost rows plus the release under way, and every acceptance is accounted for. |
| RiskLedger.ExposureIsCovered | lib/rates/LockupTransactionTracker.ts:80-239 | The total amount of distinct swaps pending or accepted but not stored is at most the recorded risk. |
| RiskLedger.RiskIsBounded | lib/rates/LockupTransactionTracker.ts:150-158 | The risk stays between zero and the larger of the limit and what `init` found. |
| RiskLedger.RiskIsExactIff | lib/rates/LockupTransactionTracker.ts:128-239 | The risk is exactly the exposed amount (plus a release under way) iff nothing of value was lost or accepted again. |
| RiskLedger.RiskIsExact | lib/rates/LockupTransactionTracker.ts:128-239 | If no swap was taken twice and no row lost, the risk is exactly the exposed amount (plus a release under way). |
| RiskLedger.ClampNeverFires | lib/rates/LockupTransactionTracker.ts:216-222 | Giving risk back never hits the clamp at zero, in any run. |
| RiskLedger.LostRiskStays | lib/rates/LockupTransactionTracker.ts:162-168 | What failed row creations left behind stays recorded in every later state, and is all that remains once nothing is pending. |
| RiskLedger.LostRiskBlocks | lib/rates/LockupTransactionTracker.ts:149-168 | A swap that does not fit beside the lost risk is never accepted again. |
| RiskLedger.RiskCanLeak | lib/rates/LockupTransactionTracker.ts:149-168 | A run that ends with nothing exposed and risk recorded. |
| RiskLedger.DoubleAcceptanceLeaks | lib/rates/LockupTransactionTracker.ts:149-168 | A run in which a swap is accepted twice, its second row cannot be written and its amount is recorded twice. |
| RiskLedger.AcceptedIffExposureFits | lib/rates/LockupTransactionTracker.ts:146-160 | A swap is accepted iff exposure, repeated and lost risk plus its amount fit the limit; with exact risk iff the exposure does. |
| RiskLedger.RowStaysIff | lib/rates/LockupTransactionTracker.ts:208-222 | Over every run a swap's row stays iff no lookup of it was confirmed. |
| RiskLedger.RowAppearsIff | lib/rates/LockupTransactionTracker.ts:162-168 | A row appears iff it is stored. |
| RiskLedger.DisabledIff | lib/rates/LockupTransactionTracker.ts:224-237 | 0-conf is disabled iff some lookup has failed, and announced iff a reaction completed. |
| RiskLedger.DisabledIsForever | lib/rates/LockupTransactionTracker.ts:138-144 | Disabled is never undone; the calls that threw since are exactly those started since, and what is accepted since had passed the check before. |
| RiskLedger.EmittedAtMostOnce | lib/rates/LockupTransactionTracker.ts:229-236 | `zeroConf.disabled` is emitted at most once, and only once disabled. |
| RiskLedger.LateAcceptanceIsPossible | lib/rates/LockupTransactionTracker.ts:142-160 | A call past the check can still be accepted after 0-conf was disabled. |
| LockupTracker.LockupTransactionTracker.constructor | lib/rates/LockupTransactionTracker.ts:50-73 | Tracked chains start enabled, without risk, with their configured limit. |
| LockupTracker.LockupTransactionTracker.Init | lib/rates/LockupTransactionTracker.ts:80-114 | The loop adds the total amount of the chain's pending swaps, and touches no other chain. |
| LockupTracker.LockupTransactionTracker.StartAcceptance | lib/rates/LockupTransactionTracker.ts:138-144 | Passes iff the chain is tracked and enabled, with the matching error otherwise. |
| LockupTracker.LockupTransactionTracker.ReserveRisk | lib/rates/LockupTransactionTracker.ts:149-159 | Reserves under the limit or leaves the chain's book as it was; other chains unchanged. |
| LockupTracker.LockupTransactionTracker.CreateRow | lib/rates/LockupTransactionTracker.ts:162-168 | Stores the row unless the swap has one on any chain. |
| LockupTracker.LockupTransactionTracker.ReleaseConfirmed | lib/rates/LockupTransactionTracker.ts:214-222 | Removes the row and gives back the swap's amount; other chains unchanged. |
| LockupTracker.LockupTransactionTracker.HandleFailure | lib/rates/LockupTransactionTracker.ts:229-236 | Disables and announces once; aborts the handler if the rate update throws. |
| LockupTracker.LockupTransactionTracker.CheckPendingLockups | lib/rates/LockupTransactionTracker.ts:185-239 | The block handler's loop has the specified effect on its chain's book and none on others. |
| LockupTracker.HandlerRemovesConfirmed | lib/rates/LockupTransactionTracker.ts:185-239 | The block handler removes exactly the rows whose confirmed lookup it got to before a throwing rate update stopped it. |
| LockupTracker.HandlerStepsMatchLoop | lib/rates/LockupTransactionTracker.ts:173-239 | Without interference the ledger's handler steps end in the book that the loop computes. |
| InstrumentedLock.Lock.AdjustPending | lib/InstrumentedLock.ts:114-123 | Changes one key's count and deletes the key at zero. |
| InstrumentedLock.Lock.TaskEnqueued | lib/InstrumentedLock.ts:64-65 | One more task is pending for the key. |
| InstrumentedLock.Lock.TaskEntered | lib/InstrumentedLock.ts:70-76 | One task fewer is pending and the key is held by its operation. |
| InstrumentedLock.Lock.TaskExited | lib/InstrumentedLock.ts:80-83 | The key is no longer held. |
| InstrumentedLock.Lock.TaskRefused | lib/InstrumentedLock.ts:88-96 | The pending slot is cleared and an overflow is counted. |
| InstrumentedLock.Lock.Snapshot | lib/InstrumentedLock.ts:139-164 | One entry for each key that is pending, held or was rejected, with name, holder, hold age and the current counts. |
| InstrumentedLock.SnapshotAll | lib/InstrumentedLock.ts:139-164 | The same for every registered lock. |
| InstrumentedLock.MapsAreExact | lib/InstrumentedLock.ts:49-123 | In every run and for every key: pending is the number of waiting tasks and absent iff zero, held iff exactly one task is inside (under its operation and entry time), rejections count the overflows. |
| InstrumentedLock.ClampNeverChanges | lib/InstrumentedLock.ts:114-123 | Whoever decrements is itself counted, so the clamp never changes a value. |
| PaymentTracker.FirstWith | lib/lightning/PendingPaymentTracker.ts:167-170 | A row with the status, or none exists. |
| PaymentTracker.FirstLive | lib/lightning/PendingPaymentTracker.ts:120-125 | A pending, successful or permanently failed row, or none exists. |
| PaymentTracker.TimedOutIffSomeRow | lib/lightning/PendingPaymentTracker.ts:224-234 | The invoice has timed out iff the limit has passed for some temporarily failed attempt. |
| PaymentTracker.TimedOutInMilliseconds | lib/lightning/PendingPaymentTracker.ts:219-234 | Timed out iff some failed attempt is older than the swap's seconds or, without them, the configured minutes. |
| PaymentTracker.PendingPaymentTracker.SendPayment | lib/lightning/PendingPaymentTracker.ts:154-211 | Rows, reply and dispatch are the specified ones, through the loop over the three statuses. |
| PaymentTracker.PendingPaymentTracker.CheckInvoiceTimeout | lib/lightning/PendingPaymentTracker.ts:213-246 | Detects the timeout and then permanently fails the chosen node's row, if it has one. |
| PaymentTracker.PendingPaymentTracker.SendPaymentWithNode | lib/lightning/PendingPaymentTracker.ts:248-329 | Creates or retries the row and records the attempt's outcome in it. |
| PaymentRuns.RunInv | lib/lightning/PendingPaymentTracker.ts:103-329 | One live row, one awaited attempt that belongs to it, and self payments exclusive of rows, in every state of every run. |
| PaymentRuns.OneAttemptAtATime | lib/lightning/PendingPaymentTracker.ts:154-329 | At most one row is live and one attempt awaited; a dispatch happens only with neither. |
| PaymentRuns.DispatchesIff | lib/lightning/PendingPaymentTracker.ts:162-276 | A call that gets to sending dispatches iff no row is live, nothing timed out and the preparations succeeded. |
| PaymentRuns.DispatchLeavesAttempt | lib/lightning/PendingPaymentTracker.ts:248-329 | A dispatched attempt has a row for its node and is awaited iff that row is pending. |
| PaymentRecords.CallRecords | lib/lightning/PendingPaymentTracker.ts:154-329 | In every run, what a call that gets to sending writes and answers: a live row's state, the timeout's failure, or the attempt's outcome in its node's row, and no other row changes. |
| PaymentRecords.PaidIsFinal | lib/lightning/PendingPaymentTracker.ts:278-292 | After a paid attempt the row is successful in every later state and nothing is dispatched. |
| PaymentRecords.ResolveRecords | lib/lightning/paymentTrackers/NodePendingPaymentTracker.ts:33-83 | A tracker's resolution is what its row says afterwards; no other row changes. |
| PaymentRecords.NodeForIs | lib/lightning/PendingPaymentTracker.ts:120-151 | The node is the live row's if that is available, else the preferred one. |
| PaymentRecords.StoppedCallChangesNothing | lib/lightning/PendingPaymentTracker.ts:154-211 | A call stopped before sending leaves rows and attempts alone. |
| PaymentRuns.OrphansAreConserved | lib/lightning/PendingPaymentTracker.ts:301-326 | Attempts whose failure was recorded while in flight are those that landed since plus those still in flight. |
| PaymentRuns.OneUnfinished | lib/lightning/PendingPaymentTracker.ts:279-328 | If no failure was recorded for an attempt in flight, at most one attempt is unfinished. |
| PaymentRuns.DispatchOverlapsIff | lib/lightning/PendingPaymentTracker.ts:248-329 | A payment is dispatched while an earlier attempt is unfinished iff some orphaned attempt has not landed. |
| PaymentRuns.TwoAttemptsInFlight | lib/lightning/LndClient.ts:452-456 | A run of two calls with two attempts in flight, on any two nodes. |
| PaymentRuns.FailedForGoodInFlight | lib/lightning/PendingPaymentTracker.ts:213-246 | A run in which a payment times out for good while an attempt is in flight. |
| PaymentRuns.PendingWithoutAttemptIff | lib/lightning/PendingPaymentTracker.ts:255-276 | Every pending row was made pending by a call for its node, and nobody awaits its outcome iff that call's referral lookup threw. |
| PaymentRuns.LiveRowBlocks | lib/lightning/PendingPaymentTracker.ts:162-194 | Until it is resolved, a live row keeps all calls from changing rows or dispatching. |
| PaymentRuns.SettledIsForever | lib/lightning/PendingPaymentTracker.ts:172-194 | After success or permanent failure the rows never change and nothing is dispatched. |
| PaymentRuns.SameRelevantRow | lib/lightning/PendingPaymentTracker.ts:120-170 | The row that selects the node is the row that sending then acts on. |
| PaymentRuns.NoDispatchAfterTimeout | lib/lightning/PendingPaymentTracker.ts:213-246 | Once a call timed out no later call dispatches, whether or not the failure could be written to a row. |
| PaymentRecords.SelfAcceptedIff | lib/lightning/SelfPaymentClient.ts:72-131 | `htlc.accepted` is emitted iff no node was tried and a new reverse swap has the same invoice, with signer, CLTV limit and expiry in order. |
| PaymentRecords.SelfPreimage | lib/lightning/SelfPaymentClient.ts:293-330 | When a call is a self payment, when it throws, and which preimage it answers with. |
| PaymentRuns.SelfPaymentOrDispatch | lib/lightning/SelfPaymentClient.ts:72-177 | No run both accepts a self payment and dispatches to a node; once accepted, later calls are self payments. |
| LockupIdentity.ConfirmedIffTargeted | lib/db/LockupIdentity.ts:47-106 | For writes about one output in any order, repeated, updatable or not, with rejections between: confirmed at the end iff before or some updatable write said so. |
| LockupIdentity.ReplayChangesNothing | lib/db/LockupIdentity.ts:47-106 | Delivering any event again right away changes nothing. |
| LockupIdentity.ConfirmedIsForever | lib/db/LockupIdentity.ts:72-92 | Over arbitrary transactions, once a run has confirmed the swap it stays confirmed with the same transaction. |
| LockupIdentity.TransactionChangesIff | lib/db/LockupIdentity.ts:24-93 | The stored transaction changes iff another one takes over, updatable and from a takeover status. |
| LockupIdentity.OutcomeIff | lib/db/LockupIdentity.ts:24-93 | Acquired iff updatable and nothing is stored, or another output from a takeover status; idempotent iff the same output is stored; rejected otherwise. |
| LockupIdentity.WriteStores | lib/db/LockupIdentity.ts:60-93 | An acquisition stores the write as it came, a repetition that may update and undoes no confirmation stores its status and fills in the index, anything else nothing. |
| LockupIdentity.RejectionStores | lib/db/LockupIdentity.ts:95-106 | A rejection changes exactly the status of a swap whose own lockup is in the mempool. |
| LockupIdentity.FirstLockup | lib/db/LockupIdentity.ts:60-70 | An empty swap ends up with a lockup iff some write was updatable, and the first such write sets it. |
| LockupIdentity.RejectedIff | lib/db/LockupIdentity.ts:47-106 | A run ends with 0-conf rejected iff the own mempool lockup was rejected, or it started so, and no updatable write came after. |
| LockupIdentity.VoutIsKept | lib/db/LockupIdentity.ts:77-81 | Between acquisitions a stored output index is neither lost nor replaced. |
| LockupIdentity.WrittenVoutsAgree | lib/db/LockupIdentity.ts:32-93 | All concrete indices written without an acquisition in between are equal. |
| LockupIdentity.SameIsNotTransitive | lib/db/LockupIdentity.ts:32-39 | The comparison itself is not transitive. |
| MemCache.Cache.Get | boltz-cache/src/memcache.rs:82-99 | Answers with the live value and evicts an expired one. |
| MemCache.Cache.GetMultiple | boltz-cache/src/memcache.rs:101-107 | Reads the fields one after the other, each at its own time. |
| MemCache.Cache.Set | boltz-cache/src/memcache.rs:109-132 | Stores with the expiry, or fails without a change if that is out of the clock's range. |
| MemCache.Cache.Take | boltz-cache/src/memcache.rs:134-147 | Removes the entry and answers with it if it is live. |
| MemCache.Cache.Delete | boltz-cache/src/memcache.rs:149-152 | Removes the entry. |
| MemCache.Cache.CleanupExpired | boltz-cache/src/memcache.rs:51-68 | Keeps exactly what has not expired. |
| MemCache.KeysCollideIff | boltz-cache/src/memcache.rs:154-156 | Two different keys share a composed key for some fields iff one continues the other after the separator. |
| MemCache.KeysAreInjective | boltz-cache/src/memcache.rs:154-156 | Composed keys are unambiguous in a set of keys none of which continues another. |
| MemCache.KeysWithoutSeparator | boltz-cache/src/memcache.rs:154-156 | Keys without the separator are such a set. |
| MemCache.StepRefines | boltz-cache/src/memcache.rs:82-157 | Every operation answers like the two-level map and keeps the two in agreement. |
| MemCache.CacheIsTransparent | boltz-cache/src/memcache.rs:51-157 | From an empty cache and over such keys all answers are those of a two-level map that never evicts, with cleanups anywhere. |
| MemCache.AnswersArePromised | boltz-cache/src/memcache.rs:51-157 | Over such keys every answer follows from the operations before it: a field set at u with time to live d, and not removed since, reads as its value iff the time is before u + d. |
| MemCache.ExpiredLeaves | boltz-cache/src/memcache.rs:51-99 | After a cleanup the map holds exactly what is readable then, and a read removes what is not. |
| MemCache.TransparentIff | boltz-cache/src/memcache.rs:51-157 | All runs over a set of keys answer like the two-level map iff none of the keys continues another. |
| MemCache.CleanupIsInvisible | boltz-cache/src/memcache.rs:40-68 | Cleaning up changes no later answer, for any keys and contents. |
| MemCache.ExtendedKeyAnswers | boltz-cache/src/memcache.rs:154-156 | For every key that continues another, a run in which a value set under it is read under the other. |
| ShortChannelId.ParseUndoesToText | lib/lightning/ChannelUtils.ts:4-8 | Decimal text parses back to its number. |
| ShortChannelId.OrOfDisjointIsSum | lib/lightning/ChannelUtils.ts:13-17 | The bitwise-or of fields that do not overlap is their sum. |
| ShortChannelId.LndClnLnd | lib/lightning/ChannelUtils.ts:3-18 | For every id, to CLN's text and back is the identity. |
| ShortChannelId.ClnToLndConvertsIff | lib/lightning/ChannelUtils.ts:11-18 | A text converts iff it is made of digits and at least two separators. |
| ShortChannelId.ClnLndClnIff | lib/lightning/ChannelUtils.ts:3-18 | For every triple, to the integer and back is the identity iff its fields fit 24 and 16 bits. |
| ShortChannelId.TransactionAgrees | lib/lightning/ChannelUtils.ts:20-30 | Encoding a transaction position agrees with both conversions. |
| ShortChannelId.OrderIsLexicographic | lib/lightning/ChannelUtils.ts:3-9 | Integer order is the lexicographic order of block, transaction and output. |
| ConfigMerge.DeepMerge | lib/Utils.ts:289-308 | The loop computes the merge for any order of the source's keys. |
| ConfigMerge.MergeLookupIff | lib/Utils.ts:289-308 | A path lookup gives the source's leaf, else the target's, iff no shapes clash along the path. |
| ConfigMerge.MergeNodeIff | lib/Utils.ts:289-308 | Where the merged tree has objects: the source's unless a truthy leaf of the target is in the way, the target's unless a leaf of the source is. |
| ConfigMerge.PlainTargetHidesLeaf | lib/Utils.ts:298-301 | A tree in which a plain target value keeps the source's deeper leaf out. |
| ConfigMerge.MergeTwice | lib/Utils.ts:282-308 | Merging a source a second time changes nothing. |
| ConfigLoad.Config.LoadInto | lib/Config.ts:445-494 | The sequence of in-place merges ends in the specified tree, or throws. |
| ConfigLoad.PathPrecedenceIff | lib/Config.ts:445-494 | Each path setting is the command line's, else the TOML file's, else the data directory's, iff no object meets a falsy TOML value. |
| ConfigLoad.Config.MergeFiles | lib/Config.ts:451-479 | Merging the TOML file and the data directory's paths gives the specified tree, or throws. |
| ConfigLoad.DefaultFiles | lib/Config.ts:532-540 | The file names in the data directory where nobody names others. |
| ConfigLoad.ConfigPathIs | lib/Config.ts:446-493 | The stored config path is the command line's, resolved, else the default. |
| ConfigLoad.CurrenciesAre | lib/Config.ts:481-490 | The currencies are the command line's parsed on top of the TOML file's or the default ones. |
| ConfigLoad.DataDirPrecedence | lib/Config.ts:458-470 | Without a command-line data directory the TOML file's is used, else the default. |
| ConfigLoad.ObjectErasesEmptyPath | lib/Config.ts:479-490 | A command-line object over an empty TOML path, where the precedence fails. |
| ConfigLoad.StoredDataDirIff | lib/Config.ts:458-490 | The stored data directory is the command line's text, else the TOML file's, else the resolved one, iff no TOML object meets an empty directory. |
| ConfigLoad.StoredDataDirIsResolvedIff | lib/Config.ts:458-490 | The stored data directory is the resolved one iff the text put back resolves to itself or, if that is empty on the command line, the directory used instead resolves to it. |
| ConfigLoad.TildeIsStored | lib/Config.ts:458-490 | `~/x` stays unresolved in the loaded tree, from the TOML file and from the command line. |
| ConfigLoad.EmptyDataDirIsStored | lib/Config.ts:458-490 | An empty data directory on the command line is stored while the paths derive from the default one. |
| ConfigLoad.CertificatesPrecedenceIff | lib/Config.ts:472-490 | The gRPC certificates follow the same precedence iff no plain value replaces the section and no object gets in the way. |
| FeeProvider.FeesAre | lib/rates/FeeProvider.ts:247-301 | For all inputs, with and without extra fees: the regular fee is the rounded-up charge and both together the rounded-up charge at the combined rate; only a negative extra percentage is refused. |
| FeeProvider.RateIs | lib/rates/FeeProvider.ts:148-246 | The rate of every kind and side, and that a premium shifts it by its hundredth up to rounding to 0.01%. |
| FeeProvider.FeesAddUp | lib/rates/FeeProvider.ts:158-171 | For rates in steps of 0.01% both fees add up to the rounded-up combined fee, the extra fee is not negative and within one unit of the exact charge. |
| FeeProvider.PremiumRateQualifies | lib/rates/FeeProvider.ts:148-156 | With a premium the rate is always in steps of 0.01%. |
| FeeProvider.FeesWithPremiumAddUp | lib/rates/FeeProvider.ts:225-301 | So with a premium the split adds up for every pair. |
| FeeProvider.AlwaysAddsUpIff | lib/rates/FeeProvider.ts:158-171 | For any rate the fees add up for all amounts iff the rate is in steps of 0.01%. |
| FeeProvider.ExtraFeeAlwaysCloseIff | lib/rates/FeeProvider.ts:275-293 | The extra fee is within one unit of the exact charge for all amounts iff rounding left the combined rate unchanged. |
| FeeProvider.ExtraFeeNeverNegativeIff | lib/rates/FeeProvider.ts:279-293 | For any rate the extra fee is never negative iff rounding did not lower the combined rate. |
| FeeProvider.FinerRateGoesNegative | lib/rates/FeeProvider.ts:225-301 | Every pair configured with 0.004% and no premium yields a negative extra fee for no extra percentage. |

## Left out

- Elliptic-curve, hashing and blinding internals; a secret nonce's binding to its public key; parsing of keys, nonces,
  tweaks and signatures from bytes; the negligible case of an aggregated key at infinity.
- `null` in configuration trees, on which `deepMerge` throws or overwrites; aliasing of arrays between source and target.
  `DeepMerge` works on tree values and returns the merged tree, so update through a shared reference is not captured.
- PutCertificates: counts an array at `grpc` as throwing; the original sets a property on the array, which tree values
  cannot hold.
- CurrenciesAre: the JSON parsing of command-line currencies and the merging of their entries is a parameter.
- The creation of a missing data directory.
- Serialization in the cache: a read under another type fails in the original; the reader here always gets the stored type.
- Concurrent interleavings inside one cache operation.
- Text other than decimal digits in `BigInt` (signs, whitespace, hexadecimal), and negative channel ids.
- Rounding of JavaScript numbers in fees; miner fees and the base fee of `getFees`.
- What `getSuccessfulPaymentDetails` fetches from the node that paid; error messages; notifications, tracing and logging.
- The registration of locks by their constructor and `destroy`; `SnapshotAll` gets the registered locks as a parameter.
- The rest of the swap life cycle, node and chain clients, HTTP and gRPC interfaces, database migrations.
