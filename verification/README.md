# Verified model of the IGRA transport, payload builder and example contracts

The project models four parts of the repository and proves what they promise over every
input, every run and every interleaving.

1. **Sender locks and nonces.** `IgraStore` is a set of SQLite transactions run by concurrent
   requests, possibly from several processes. `StoreModel` gives each transaction as a function on
   the tables; `Store` is the class that updates the tables in place, polling and eviction loops
   included, each method proved against those functions. `Protocol` lets any number of raw-send
   requests take their steps in any order over one store: every transaction, clock reading and
   submission is one action, a clock reading is older than the transaction it is used in, and
   crashes, failed writes, lost tasks, store errors and opens for any profile are actions too. An
   action that goes wrong leaves a fault that names its request, sender or hash, and each theorem
   excludes only faults of its own subject: `LeaseSafety` (mutual exclusion), `LockLeaks`,
   `NonceOrder` (prefix closure), `ExactlyOnce`, `Lifecycle`. `Deliveries` says, for runs with all
   these faults, exactly when a nonce is delivered again. `FaultsMatter` puts together, from
   the pieces in `Scenarios`, runs in which such a fault occurs and what it costs; `StoreOpens`
   says when an open does no harm. `Transport` is the raw-send branch as straight-line code among
   others that use the store, and `OwnSteps` and `Refinement` hold it and the class methods against
   the actions. `ProfileIsolation` treats the profile stamped on every row.
2. **Payload builder.** `Selection` (fee, sort, greedy scan), `Mining` (payload layout, in-place
   nonce search) and `Payload` (both together). A transaction id is an uninterpreted function of
   inputs, output and payload; the clock is an oracle.
3. **UTXO cache.** `UtxoCache` interleaves loads and invalidations step by step; `Submitter` has
   the cache methods and the two-attempt loop as one caller runs them.
4. **Example contracts.** `Dex`, `MultiSig` and `Auction` update storage in place; `DexModel`,
   `MultiSigModel` and `AuctionModel` are their specifications, and an external call is a tree of
   calls back into the contract; `MultiSigEarly` treats confirmations that come too early and
   `MultiSigMoney` where the wallet's ether goes. `NewtonSqrt`, `DexMath` and `Evm` hold the
   arithmetic. Solidity's checked arithmetic reverts on overflow.

Integer widths are modelled where they matter: u64 and i64 casts at the database, saturating
arithmetic, the wrapping u32 nonce, the wrapping cache epoch and 256-bit words.

## What came out differently

- **Exactly-once needs the lease.** The default lease (2 x 60 s) can be shorter than mining
  (120 s, twice). `InOrderExactlyOnce` therefore excludes lease overruns of its sender, and lost or
  failed marks and wipes. Each of the four alone delivers a nonce twice in a run from an empty
  store: `OverrunDeliversTwice`, `LostMarkDeliversTwice`, `FailedMarkDeliversTwice`,
  `WipeDeliversTwice`. None of them has to, and `ExactlyOnceIff` says exactly when exactly-once
  holds: when no submission met the condition of `RepeatsIff`. Prefix closure needs no lease at all.
- **A store error other than timeout or gap lets the request go on unclassified**
  (crates/igra/src/transport.rs:471-476). It costs prefix closure in the run of
  `StoreErrorSkipsNonce`; over all runs, prefix closure holds exactly under the condition of
  `PrefixClosedIff`. Exactly-once survives it.
- **Forced refreshes may cache what an invalidation was meant to drop**
  (crates/igra/src/submitter.rs:261), exactly under the condition of `StaleSlotIff`;
  `ForcedLoadCachesStale` is such a run.
- **A second handle with another profile breaks isolation**, and nothing else does:
  `WriteIsolatedIff`, `SecondHandleBreaksIsolation`.
- **Multisig confirmations given before the submission are lost for good**: `submit` resets the
  count and not the `confirmed` flags. They never count (`EarlyNeverCounts`), and they block the
  transaction exactly when too few other owners are left (`CanRunIff`,
  `OneEarlyConfirmationBlocks`).
- **A retention of 2^63 hours or more reaches into the future**, because the hours are cast to a
  signed word (crates/igra/src/store.rs:720-723): `CutoffMeaning`.
- **Mining candidates do repeat**, but only once the output has reached zero: `CandidatesRepeatIff`.

## Model

| member | source | states |
|---|---|---|
| LeaseSafety.MutualExclusion | crates/igra/src/store.rs:258-290 | in every run, two requests of one sender are never both in the critical section with both leases unexpired, and a request within its lease still owns the lock row, unless an open dropped the sender's rows while it was in there |
| LeaseSafety.FreshLeaseNotTaken | crates/igra/src/store.rs:260-272 | a call started at `s` cannot take an unreleased lock granted to another owner at reading `g` with `g + timeout >= s`, saturating values included; the attempt changes nothing |
| LeaseSafety.LeaseSurvives | crates/igra/src/store.rs:578-596 | no action of another request, with however old a clock reading, takes away a lock row whose lease still runs |
| LeaseSafety.ActorHoldsLease | crates/igra/src/transport.rs:421-446 | a request inside its critical section owns the row its transaction wrote, through all its own steps |
| LockLeaks.NoLeakedLocks | crates/igra/src/transport.rs:587-600 | a finished request whose own lock task was not lost and whose own release did not fail leaves no row with its owner id on any path, whatever happens to others |
| LockLeaks.NoLocksLeft | crates/igra/src/transport.rs:587-600 | when all requests have finished like that, the lock table is empty |
| LockLeaks.FlagMatchesCommit | crates/igra/src/transport.rs:421-477 | in every run, after its lock transaction a request counts the lock as acquired exactly when the row is its own; otherwise nothing changed |
| LockLeaks.LockRowOrigin | crates/igra/src/store.rs:633-646 | a lock row found after any action was there before and not released, or was committed by a granted attempt of its owner |
| NonceOrder.PrefixClosure | crates/igra/src/store.rs:516-558 | with crashes and expired leases allowed, when nonce n of a sender is submitted all of [first seen, n) have been accepted before; only a store error or a wipe of that sender is excluded |
| NonceOrder.SubmissionClosedIff | crates/igra/src/transport.rs:471-509 | with any number of store errors and anything in between, a submission keeps the prefix closed exactly when its nonce is at most the stored next one or one more than an accepted one |
| NonceOrder.PrefixClosedIff | crates/igra/src/transport.rs:471-509 | a sender's submissions are prefix closed throughout a run exactly when each of them met that condition |
| NonceOrder.NextGrowsByOne | crates/igra/src/store.rs:336-377 | the next expected nonce starts at the first nonce classified and each action leaves it or raises it by one, store errors included |
| NonceOrder.NonceRowKept | crates/igra/src/store.rs:356-373 | only the mark of the current next nonce moves a sender's row, and by exactly one |
| NonceOrder.NonceRowBorn | crates/igra/src/store.rs:532-542 | a nonce row appears with the first classified nonce as its next expected value |
| ExactlyOnce.InOrderExactlyOnce | crates/igra/src/transport.rs:421-600 | a sender whose leases are kept and marks written, without a wipe of its rows, gets its accepted in-order submissions as b, b+1, ..., next-1, each once and in order, plus at most one landed but unmarked; other senders' faults do not matter |
| ExactlyOnce.DeliveredMeaning | crates/igra/src/transport.rs:506-511 | the delivered sequence holds exactly the nonces of accepted in-order submissions |
| Deliveries.ExactlyOnceIff | crates/igra/src/transport.rs:421-558 | in every run without a wipe of the sender's rows, its in-order submissions are delivered once each and in order exactly when none of them repeats |
| Deliveries.RepeatsIff | crates/igra/src/transport.rs:421-558 | an in-order submission delivers a nonce again exactly when the nonce is below the stored next one or another request has delivered it in order |
| Deliveries.RepeatsIffOutstanding | crates/igra/src/transport.rs:532-558 | with no mark lost or failed, exactly when it is below the stored next one or another request with it has landed and is not yet marked; leases may run out |
| Deliveries.RepeatsAnother | crates/igra/src/transport.rs:506-511 | in every run, wipes included, exactly when another request has delivered it |
| Deliveries.SentIffAccepted | crates/igra/src/transport.rs:506-511 | in every run, a nonce has been accepted exactly when some request for it was answered yes |
| ExactlyOnce.SoleHolder | crates/igra/src/store.rs:602-647 | while leases last, one sender has at most one request in its critical section |
| ExactlyOnce.FrontStep | crates/igra/src/transport.rs:541-558 | an accepted in-order submission carries the next expected nonce, and only its mark moves the front |
| FaultsMatter.RacerGrantedIff | crates/igra/src/store.rs:621-626 | a second request for the nonce in flight is let in exactly when the first one's lease ended before the second one's clock reading |
| FaultsMatter.BothDeliver | crates/igra/src/transport.rs:506-511 | two requests inside in-order submissions of one nonce deliver it twice |
| FaultsMatter.OverrunDeliversTwice | crates/igra/src/store.rs:262-272 | for any sender and nonce, a run from an empty store with a lease overrun as its only fault delivers the nonce twice |
| FaultsMatter.LostMarkDeliversTwice | crates/igra/src/transport.rs:532-558 | the same with a crash between submission and mark as the only fault |
| FaultsMatter.FailedMarkDeliversTwice | crates/igra/src/transport.rs:549-557 | the same with a failed mark as the only fault |
| FaultsMatter.WipeDeliversTwice | crates/igra/src/store.rs:694-698 | the same with an open for another profile |
| FaultsMatter.StoreErrorSkipsNonce | crates/igra/src/transport.rs:471-476 | for any sender and two nonces, a run from an empty store with a store error as its only fault submits the later one although the earlier one never was |
| Protocol.OwnFaults | crates/igra/src/transport.rs:387-600 | each fault that the theorems exclude for a request or its sender is raised by the failure it is named after and by nothing else |
| Protocol.OtherFaults | crates/igra/src/store.rs:669-740 | the same for lease overruns while time passes, overlapping requests, and rows that an open drops |
| Lifecycle.LifecycleTraces | crates/igra/src/transport.rs:387-585 | an answered request whose own writes worked and whose own lock task was not lost wrote Failed alone, or Received followed by LockTimeout and Failed, by NonceGap and Failed, or by [StaleReplacement] Unsigned and then Failed or PrefixMined, Signed, Broadcasted; success exactly in the last case |
| Lifecycle.TraceStep | crates/igra/src/transport.rs:447-494 | every action of a request keeps it on one of those sequences and its answer consistent with them |
| Lifecycle.AnswerMatchesRow | crates/igra/src/transport.rs:532-585 | while nobody has removed or overwritten its row since it wrote it: success is returned exactly when the row ends Broadcasted with a Kaspa id, and it is the id the submission returned; failure exactly when it ends FailedRecoverable |
| Lifecycle.SoleRequestLeftAlone | crates/igra/src/transport.rs:387-585 | a request that came when nobody was at work on its hash, and after which nobody came for it, has its row to itself until an open prunes it, whatever happened to the hash before |
| Lifecycle.RowInvHolds | crates/igra/src/transport.rs:268-308 | under the same condition the row carries the request's last write, with its code, payload nonce and Kaspa id |
| Lifecycle.RowContents | crates/igra/src/transport.rs:268-308 | that row in full: sender, nonce and correlation id, IGRA_NONCE_002 for a timeout, IGRA_NONCE_001 for a gap, IGRA_NONCE_004 for a replacement candidate, the refusal's code for a failure, the payload nonce from the mined prefix on and the Kaspa id at the end |
| Lifecycle.AttemptsCountFailures | crates/igra/src/store.rs:383-396 | in every run `attempts` is the saturating count of failed completions since the row was created |
| Lifecycle.CreatedAtIsFixed | crates/igra/src/store.rs:419-433 | in every run a row keeps the creation time it was born with while it exists |
| Transport.OwnerIdInjective | crates/igra/src/transport.rs:682-684 | equal owner ids have equal sender, nonce and correlation id |
| Transport.IgraTransport.RawSend | crates/igra/src/transport.rs:381-604 | from its inputs: success exactly when the submission is accepted, there is a prefix, and the lock task breaks or some first poll before the deadline lets the owner in and finds a nonce that is new or not ahead; exactly the writes of `RequestWrites`, beginning with Received; with others acting before each of its store calls and calls that fail, it takes steps of the protocol only, from created to done; with its own writes working and its task not lost its row says what it answered if others leave the row alone; it leaves no lock row of its own; an in-order success that is marked moves the next nonce on by one if others leave the nonce alone |
| Transport.IgraTransport.Process | crates/igra/src/transport.rs:387-566 | success exactly when the submission is accepted, there is a prefix and the lock task lets the request through; the code is the refusal's exactly when it was asked; the writes in order; the lock counts as acquired exactly when the lock task answered with an ordering; without that no row carries the owner id unless a lost task committed one |
| Transport.WorkingWrites | crates/igra/src/transport.rs:387-585 | when its writes work: Failed alone without a prefix; Received and Failed for a lost task; Received, the block and Failed for a timeout or a gap; otherwise Received, the replacement mark if there is one, Unsigned, and then PrefixMined, Signed, Broadcasted or Failed |
| Transport.LetsThroughIff | crates/igra/src/transport.rs:421-478 | the lock task lets the request through exactly when it breaks or the polls meet, before the deadline, first tables that let the owner in and whose next nonce is missing or not below the request's |
| Transport.IgraTransport.Prepare | crates/igra/src/transport.rs:391-478 | Received is written first; then the lock decides whether to go on, what else is written, and whether the request is in order |
| Transport.IgraTransport.Classify | crates/igra/src/transport.rs:403-478 | goes on exactly when the lock task breaks or answers with an ordering; holds the lock exactly in the second case, in order exactly when the ordering says so; timeout, gap and a lost task block; writes what goes with it |
| Transport.IgraTransport.ClassifyJoined | crates/igra/src/transport.rs:421-470 | the same for a lock task that answers, whose answer is the one its polls decide |
| Transport.IgraTransport.Lock | crates/igra/src/transport.rs:408-446 | the answering lock task takes the protocol's steps poll by poll and ends granted, timed out or at a gap |
| Transport.IgraTransport.LoseLockTask | crates/igra/src/transport.rs:408-419 | a lost lock task fails the request, having run to a commit or not |
| Transport.IgraTransport.Submit | crates/igra/src/transport.rs:480-511 | one state before the submission; success exactly when it is accepted; its refusal gives the error code; no lock row is added |
| Transport.IgraTransport.RecordSubmission | crates/igra/src/transport.rs:513-559 | three states, then the mark exactly for in-order requests, whose next nonce it advances |
| Transport.IgraTransport.WriteLanding | crates/igra/src/transport.rs:514-540 | the last three states in order, with the payload nonce and, at the end, the Kaspa id |
| Transport.IgraTransport.MarkNonce | crates/igra/src/transport.rs:541-558 | the mark moves the next nonce when it works and is passed over when it does not |
| Transport.IgraTransport.PersistTransitionSafe | crates/igra/src/transport.rs:268-308 | a write that works appends its state and makes the row match the request; one that fails is passed over; no lock row is added, and the sender's nonce stays if others leave it |
| Transport.IgraTransport.Release | crates/igra/src/transport.rs:587-600 | touches the tables only when the flag is set; then no row of its own is left, unless the release fails, which is passed over |
| OwnSteps.SameAnywhere | crates/igra/src/transport.rs:381-604 | an action of a request does the same to the tables and to the request in any world, so steps taken alone are steps of the protocol |
| OwnSteps.WalkSteps | crates/igra/src/transport.rs:381-604 | each step of a walk is one action of the request or leaves the request as it was |
| OwnSteps.VainPolls | crates/igra/src/store.rs:305-321 | the polls in vain of the lock loop are clock readings and attempts of the protocol that leave the request polling |
| Store.IgraStore.AcquireSenderLock | crates/igra/src/store.rs:258-281 | ends at the first poll that finds the lock free or at the deadline, the latter exactly when it fails; a fresh lease elsewhere is never waited out; terminates when the clock advances |
| Store.IgraStore.AcquireSenderLockAndClassifyNonce | crates/igra/src/store.rs:292-322 | the same for the joint transaction: the first tables before the deadline that let the owner in decide; a gap commits nothing and carries the next expected nonce of those tables and the request's own; an ordering carries the next expected nonce and comes with the lease |
| Store.FreshLeaseOutlastsCall | crates/igra/src/store.rs:262-264 | no poll before the deadline can acquire over another owner's lease granted within one timeout of the call's start |
| Store.AnswersUnique | crates/igra/src/store.rs:292-322 | what the polls meet leaves one answer |
| StoreModel.LeaseTwiceTimeout | crates/igra/src/store.rs:262-264 | the lease is twice the timeout in milliseconds, saturating |
| StoreModel.AcquireOutcome | crates/igra/src/store.rs:560-600 | a lock goes to whoever finds it missing, their own, or expired before the reading, until one lease after it; no other row changes |
| StoreModel.ReleaseOutcome | crates/igra/src/store.rs:283-290 | a row goes exactly when it is the owner's |
| StoreModel.ClassifyOutcome | crates/igra/src/store.rs:516-558 | compares with the stored next nonce, or starts the sequence; gap, in order and stale carry the next nonce, a gap also the nonce given; a stale one is a replacement candidate exactly when another hash has it |
| StoreModel.MarkOutcome | crates/igra/src/store.rs:336-377 | only the largest nonce cannot be marked; a matching or missing row moves to nonce + 1, another stays |
| StoreModel.ReconcileOutcome | crates/igra/src/store.rs:669-715 | the rows stay exactly when the recorded profile is missing or the same; afterwards this one is recorded |
| Store.IgraStore.TryAcquireSenderLockOnce | crates/igra/src/store.rs:560-600 | takes the row exactly when it is free, its own or expired at the given reading |
| Store.IgraStore.ReleaseSenderLock | crates/igra/src/store.rs:283-290 | removes the sender's row exactly when the owner matches |
| Store.IgraStore.TryAcquireSenderLockAndClassifyOnce | crates/igra/src/store.rs:602-647 | lock and nonce row commit together or, on a gap, not at all |
| Store.IgraStore.ClassifyNonceInTx | crates/igra/src/store.rs:516-558 | compares with the stored or newly inserted next nonce; a stale nonce under another hash is a replacement candidate |
| Store.IgraStore.ClassifyNonce | crates/igra/src/store.rs:324-334 | the same on its own; a gap commits nothing |
| Store.IgraStore.MarkSubmittedInOrderNonce | crates/igra/src/store.rs:336-377 | advances a matching or missing row to nonce + 1, refuses the largest nonce, leaves others |
| Store.IgraStore.PersistTransition | crates/igra/src/store.rs:379-455 | writes the update with the handle's profile, adds to attempts with saturation and keeps the creation time |
| Store.IgraStore.LoadTx | crates/igra/src/store.rs:457-514 | reads the row back through the casts, or none |
| StoreModel.AttemptOutcome | crates/igra/src/store.rs:602-647 | a held lock or a gap changes nothing, and a gap carries the stored next nonce and the one given; an ordering comes with a lease to one lease length after the reading and with the next nonce of the row it leaves |
| StoreModel.ReplacementMeaning | crates/igra/src/store.rs:649-667 | a replacement candidate is exactly a record of the same sender and nonce under another hash |
| StoreModel.PersistThenLoad | crates/igra/src/store.rs:379-514 | round trip: what was persisted is loaded again, for all u64 values, and other rows load as before |
| Store.IgraStore.constructor | crates/igra/src/store.rs:215-239 | a writable open reconciles the profile, drops the expired rows and then the oldest evictable ones |
| Store.IgraStore.ReconcileProfileCache | crates/igra/src/store.rs:669-715 | another recorded profile empties the three tables; the metadata then records this one |
| ProfileIsolation.ReconcileRecords | crates/igra/src/store.rs:700-711 | after an open the metadata reads back exactly its chain id, network and fingerprints |
| ProfileIsolation.ChangedIff | crates/igra/src/store.rs:682-692 | once a profile is recorded, a profile counts as changed exactly when it is another one |
| StoreOpens.WipesIff | crates/igra/src/store.rs:694-698 | an open drops a sender's lock or nonce row exactly when there is one and the recorded profile is another |
| StoreOpens.OneProfileNeverWipes | crates/igra/src/store.rs:234-238 | in every run in which all opens are for one profile and come before the first request, no open ever drops a lock or a nonce |
| StoreOpens.SecondOpenKeepsLock | crates/igra/src/store.rs:682-698 | a run in which a second process opens the store while a request holds its lock, and the lock stays |
| Store.IgraStore.PruneCache | crates/igra/src/store.rs:717-740 | in-flight rows stay as they are; beyond the expired rows only the oldest evictable ones go, and none if the file fits; at the end the file fits or nothing evictable is left |
| Store.ExpiryOutcome | crates/igra/src/store.rs:725-736 | broadcasted rows expire by one cutoff, failed and blocked ones by the other, no other state at all |
| Store.CutoffMeaning | crates/igra/src/store.rs:719-723 | the cutoff lies that many hours of 3,600,000 ms before the clock; of 2^63 or more hours, after it |
| Store.EvictableStates | crates/igra/src/store.rs:753-780 | eviction takes failed, blocked, replacement and broadcasted rows and never one in flight |
| Store.IgraStore.EvictBatch | crates/igra/src/store.rs:760-775 | one statement removes the oldest evictable rows, 1024 at most and as many as there are below that |
| Store.IgraStore.EnforceSizeBudget | crates/igra/src/store.rs:742-782 | every batch follows a look that found the file over budget; ends within budget or with nothing evictable left; every evicted row is no newer than every evictable survivor |
| Store.EvictionsCompose | crates/igra/src/store.rs:753-780 | batch after batch still removes the oldest |
| ProfileIsolation.ProfileIsolationHolds | crates/igra/src/store.rs:379-455 | after any opens with any profiles and writes through the handle opened last, every row carries the recorded chain id, network and fingerprints |
| ProfileIsolation.WriteIsolatedIff | crates/igra/src/store.rs:434-446 | a write keeps the table isolated exactly when its handle's profile is the recorded one |
| ProfileIsolation.SecondHandleBreaksIsolation | crates/igra/src/store.rs:669-715 | opening an empty store for one profile, then for another, and writing through the first handle breaks isolation |
| ProfileIsolation.ReconcileIsolates | crates/igra/src/store.rs:682-711 | opening keeps rows only under the profile they were written with |
| Refinement.OpenIsOneAction | crates/igra/src/store.rs:234-238 | whatever an open prunes, the tables it leaves are those of one action of the protocol |
| Refinement.LastPollIsOneAction | crates/igra/src/store.rs:305-321 | the last poll of the lock loop is one attempt of the protocol, with the same outcome |
| Selection.SelectInputs | crates/igra/src/payload.rs:119-146 | fails exactly when no non-empty pick pays its own fee and the minimum change; otherwise takes the largest, as few as any pick that pays, so at the lowest fee; what is left over after the fee is the output |
| Selection.PrefixTakesLargest | crates/igra/src/payload.rs:121-132 | nothing left behind by a prefix of the sorted UTXOs is larger than what it takes |
| Selection.AffordsMeaning | crates/igra/src/payload.rs:125-146 | a pick pays when its saturated sum reaches its fee and 1,000 sompi more |
| Selection.GreedyScan | crates/igra/src/payload.rs:121-132 | stops at the first prefix of the sorted UTXOs that covers its fee, with the saturated total |
| Selection.GreedyStopsBy | crates/igra/src/payload.rs:125-132 | the scan stops no later than the size of any pick that pays |
| Selection.LargestAreBest | crates/igra/src/payload.rs:121-122 | no pick is worth more than as many of the largest |
| Selection.SortDescending | crates/igra/src/payload.rs:121-122 | a descending permutation |
| Selection.SortIsStable | crates/igra/src/payload.rs:122 | equal amounts keep their order |
| Selection.FeeSteps | crates/igra/src/payload.rs:45-52 | the base fee, and what each KiB and each further input adds, saturating |
| Selection.FeeIsSum | crates/igra/src/payload.rs:45-52 | saturating at every operation is saturating the exact sum once |
| Mining.Mine | crates/igra/src/payload.rs:155-183 | returns the first candidate whose id has the prefix, or a timeout with none before it; the in-place payload is the one built from the nonce |
| Mining.CandidatesRepeatIff | crates/igra/src/payload.rs:169-182 | two tries give one candidate exactly when they share the nonce and the output has reached zero by both |
| Mining.NextCandidate | crates/igra/src/payload.rs:176-180 | the nonce wraps every 2^32 tries and takes one sompi off the output, down to zero |
| Mining.FirstCandidate | crates/igra/src/payload.rs:148-169 | the search starts with nonce zero and the whole output; inputs and data stay |
| Mining.PayloadRoundTrip | crates/igra/src/payload.rs:54-65 | header, data and nonce can be read back, and reading then building gives the same bytes |
| Mining.PayloadLayout | crates/igra/src/payload.rs:54-65 | one header byte, the data, and four bytes that add up to the nonce, the first one most significant |
| Mining.KaspaTransaction.OverwriteNonce | crates/igra/src/payload.rs:156-169 | replaces the last four bytes with the big-endian nonce and nothing else |
| Payload.MineAndBuild | crates/igra/src/payload.rs:99-183 | which error occurs when; a built transaction spends a cheapest pick, the largest there is, carries its nonce under a matching id, pays the fee of the payload it has, and inputs = output + fee + min(wraps, first output) |
| UtxoCache.StaleNeverCached | crates/igra/src/submitter.rs:227-269 | in every interleaving, after a finished invalidation the cache never holds what a non-forced load installed after reading the epoch before it |
| UtxoCache.HitsAreFresh | crates/igra/src/submitter.rs:243-252 | nor does a hit return it |
| UtxoCache.LookOutcome | crates/igra/src/submitter.rs:243-252 | a look hits exactly when the key is the same and the entry at most 20 seconds old, and answers with the entries of the slot |
| UtxoCache.CompareOutcome | crates/igra/src/submitter.rs:259-261 | a load decides to install exactly when it is forced or no invalidation has bumped since it read the epoch, short of a full wrap |
| UtxoCache.InstallOutcome | crates/igra/src/submitter.rs:261-268 | the slot then holds the fetched entries with the load's key and the current time, or stays; the mutex is free again |
| UtxoCache.CacheInvHolds | crates/igra/src/submitter.rs:242-269 | the invariant behind both: while a load that compared equal holds the mutex no invalidation can finish |
| UtxoCache.StaleSlotIff | crates/igra/src/submitter.rs:259-267 | an install leaves the slot older than a finished invalidation exactly when its load is forced and one that bumped after its epoch read has finished; a clear never does and nothing else matters |
| UtxoCache.StaleExactlyByForce | crates/igra/src/submitter.rs:227-269 | over whole runs, the slot is stale exactly when such a forced install made it so and nothing has replaced it since |
| UtxoCache.ForcedLoadCachesStale | crates/igra/src/submitter.rs:261-267 | a run in which this happens |
| Submitter.InProcessKaspaPayloadSubmitter.LoadUtxos | crates/igra/src/submitter.rs:233-269 | a hit needs the key and the TTL; a miss installs its answer exactly when forced or when the epoch it read has come back; otherwise what others left in the slot stays |
| Submitter.InProcessKaspaPayloadSubmitter.InvalidateUtxoCache | crates/igra/src/submitter.rs:227-231 | bumps the wrapping epoch and empties the slot |
| Submitter.InProcessKaspaPayloadSubmitter.SubmitPayload | crates/igra/src/submitter.rs:138-222 | a second attempt, forced, exactly when the first found no UTXOs or was refused, and then it decides; of its own effects, each broadcast is fenced by invalidations, there are at most two, and one is accepted exactly on success, which leaves the cache empty |
| Submitter.SecondAttemptIff | crates/igra/src/submitter.rs:150-156 | a forced load occurs exactly after no UTXOs or a refusal; the effects are those of one attempt or of two |
| Submitter.FirstUtxosOutcome | crates/igra/src/submitter.rs:243-252 | the first attempt works on the cached set exactly when key and age allow, otherwise on the node's reply |
| Submitter.EndOutcome | crates/igra/src/submitter.rs:143-219 | an attempt fails to load, finds nothing, fails to build, is refused or is submitted, as its UTXOs, the build and the node decide |
| Submitter.EffectsOutcome | crates/igra/src/submitter.rs:143-219 | and leaves a load, a build, an invalidation before the broadcast and another after an accepted one |
| Submitter.BroadcastsAreFenced | crates/igra/src/submitter.rs:191-219 | each broadcast comes right after an invalidation; an accepted one is followed by another and by nothing else |
| Submitter.AtMostTwoBroadcasts | crates/igra/src/submitter.rs:138-220 | at most two broadcasts, two exactly when the node refused the first and the second attempt got as far |
| DexModel.PoolStaysBacked | examples/deploy-suite/src/DEX.sol:19-54 | after any deposits, swaps and donations the squared LP supply is at most the product of the reserves, and both are positive once there is supply |
| DexModel.ShareNeverDiluted | examples/deploy-suite/src/DEX.sol:19-54 | the product per LP share never shrinks over any run |
| DexModel.LaterDepositKeepsShare | examples/deploy-suite/src/DEX.sol:26-32 | a later deposit lowers neither reserve per LP share |
| DexModel.FirstDepositBacked | examples/deploy-suite/src/DEX.sol:24-25 | the first deposit mints the integer root of the product it brought |
| DexModel.LiquidityIsLargest | examples/deploy-suite/src/DEX.sol:26-30 | the LP minted is the largest number within both proportional shares |
| DexModel.LpSumsToSupply | examples/deploy-suite/src/DEX.sol:32 | LP balances add up to the LP supply after every run |
| DexModel.TradingKeepsProduct | examples/deploy-suite/src/DEX.sol:36-54 | no sequence of swaps and donations lowers the product of the reserves |
| DexModel.NoFreeLunch | examples/deploy-suite/src/DEX.sol:36-54 | trading that leaves the pool no more of one token cannot leave it less of the other |
| DexModel.RoundTripNeverGains | examples/deploy-suite/src/DEX.sol:36-54 | swapping and then swapping the whole output back, in either direction, returns no more than was put in |
| DexModel.MoveConserves | examples/deploy-suite/src/DEX.sol:20-21 | a standard token transfer conserves the total and touches two accounts |
| DexModel.AddOutcome | examples/deploy-suite/src/DEX.sol:19-34 | a deposit goes through exactly when the sender can pay both amounts, no word overflows and it mints something; then the sender pays both amounts to the pool and the sender, and nobody else, gets the LP tokens |
| DexModel.LpOutcome | examples/deploy-suite/src/DEX.sol:32 | every other operation leaves all LP balances and the supply alone |
| DexModel.SwapOutcome | examples/deploy-suite/src/DEX.sol:36-54 | a swap goes through exactly when no word overflows, the payout is positive and the sender can pay; then the sender pays the input to the pool and is paid the output by it, and nobody else's balance changes |
| DexModel.LiquidityOutcome | examples/deploy-suite/src/DEX.sol:23-30 | what a deposit mints: the root of the first product, the smaller share later |
| DexMath.SwapOutIsLargest | examples/deploy-suite/src/DEX.sol:39 | the payout is the largest that keeps the product when the input counts 997 in 1000 |
| DexMath.SwapLeavesSome | examples/deploy-suite/src/DEX.sol:39 | a swap never empties the output reserve of a pool holding both tokens |
| DexMath.SwapKeepsProduct | examples/deploy-suite/src/DEX.sol:39 | one swap does not lower the product of the reserves |
| Dex.SimpleDEX.AddLiquidity | examples/deploy-suite/src/DEX.sol:19-34 | both transfers from the sender to the pool, the minted LP tokens to the sender and to the supply, or a revert that restores everything |
| Dex.SimpleDEX.SwapAForB | examples/deploy-suite/src/DEX.sol:36-44 | the sender pays in A and is paid out B, or everything is as before |
| Dex.SimpleDEX.SwapBForA | examples/deploy-suite/src/DEX.sol:46-54 | the sender pays in B and is paid out A, or everything is as before |
| NewtonSqrt.Sqrt | examples/deploy-suite/src/DEX.sol:56-61 | terminates without overflow or division by zero at the integer square root, for every word but the largest, where it reverts |
| NewtonSqrt.RootUnique | examples/deploy-suite/src/DEX.sol:56-61 | the root is determined by y*y <= x < (y+1)*(y+1) |
| NewtonSqrt.StepStaysAbove | examples/deploy-suite/src/DEX.sol:60 | a Newton step never falls below the root |
| MultiSigModel.RunsAtMostOnceAfterSubmit | examples/deploy-suite/src/MultiSig.sol:53-60 | a submitted transaction runs at most once after its submit, under any re-entrance |
| MultiSigModel.RunsWithConfirmersAfterSubmit | examples/deploy-suite/src/MultiSig.sol:39-60 | and only with `required` distinct owners who each confirmed it after its submit and before the run |
| MultiSigEarly.EarlyNeverCounts | examples/deploy-suite/src/MultiSig.sol:39-51 | a confirmation of an id given before its submit never counts, whatever calls follow |
| MultiSigEarly.CanRunIff | examples/deploy-suite/src/MultiSig.sol:39-60 | after any calls, an id not yet submitted can still be submitted with given terms and run exactly when the counter can reach it and at least `required` distinct owners have not confirmed it yet |
| MultiSigEarly.OneEarlyConfirmationBlocks | examples/deploy-suite/src/MultiSig.sol:46-51 | on a fresh wallet that needs all its owners, a confirmation of the unsubmitted id 0 is accepted, and id 0 can never run |
| MultiSigModel.TermsFixed | examples/deploy-suite/src/MultiSig.sol:39-60 | recipient, value and data of a submitted transaction never change, and an executed mark stays |
| MultiSigModel.CallKeeps | examples/deploy-suite/src/MultiSig.sol:39-60 | every call, however deep the re-entrance, keeps storage in agreement with the event log |
| MultiSigModel.ConfirmersMeaning | examples/deploy-suite/src/MultiSig.sol:46-51 | the counted owners are exactly those with a confirmation after the last submit of the id |
| MultiSigMoney.MoneyConserved | examples/deploy-suite/src/MultiSig.sol:39-60 | after any calls, however they re-enter, the balance is the opening balance plus all deposits less the submitted value of every run of a submitted transaction that paid somebody else |
| MultiSigMoney.ExecuteOutcome | examples/deploy-suite/src/MultiSig.sol:53-60 | runs exactly when an owner asks, it has not run, enough owners confirmed, the wallet can pay and the callee succeeds; with a callee that does not call back the value is paid and nothing else changes |
| MultiSigMoney.SubmitOutcome | examples/deploy-suite/src/MultiSig.sol:39-44 | an owner's submission takes the next id with a fresh entry; otherwise nothing changes |
| MultiSigMoney.ConfirmOutcome | examples/deploy-suite/src/MultiSig.sol:46-51 | an owner's first confirmation of an id adds one; otherwise nothing changes |
| MultiSig.MultiSig.OnlyOwner | examples/deploy-suite/src/MultiSig.sol:24-31 | the scan accepts exactly the owners |
| MultiSig.MultiSig.Submit | examples/deploy-suite/src/MultiSig.sol:39-44 | an owner gets the next id and a fresh entry; others change nothing |
| MultiSig.MultiSig.Confirm | examples/deploy-suite/src/MultiSig.sol:46-51 | an owner is counted once per id; others change nothing |
| MultiSig.MultiSig.Execute | examples/deploy-suite/src/MultiSig.sol:53-60 | marks before the call, runs with whatever the callee does in between, and undoes everything when it fails |
| AuctionModel.EtherConserved | examples/deploy-suite/src/Auction.sol:21-47 | after every run and at every external call, the ether is the sum of the pending returns plus the highest bid unless ended; accepted bids strictly increase |
| AuctionModel.AlwaysSolvent | examples/deploy-suite/src/Auction.sol:32-47 | every pending return, together with the highest bid until the end, is covered |
| AuctionModel.EveryoneAccounted | examples/deploy-suite/src/Auction.sol:21-47 | an outbid bidder can take out exactly what they paid in, and the seller gets the highest bid once |
| AuctionModel.WinnerIsFinal | examples/deploy-suite/src/Auction.sol:21-47 | from the end time on, no later transaction and no call made from inside one changes the highest bidder, the highest bid or the accepted bids |
| AuctionModel.BidOutcome | examples/deploy-suite/src/Auction.sol:21-30 | accepted exactly before the end, above the highest bid, and when the beaten bid fits its bidder's returns, to which alone it is added |
| AuctionModel.WithdrawOutcome | examples/deploy-suite/src/Auction.sol:32-38 | the sender's whole entry is cleared and paid before the sender is called; a failure undoes all |
| AuctionModel.EndOutcome | examples/deploy-suite/src/Auction.sol:40-47 | pays the highest bid to the seller, once and not before the end time, marked before the seller is called; a failure undoes both |
| AuctionModel.CallsInOrder | examples/deploy-suite/src/Auction.sol:32-47 | the calls a callee makes take effect one after the other |
| AuctionModel.CallKeeps | examples/deploy-suite/src/Auction.sol:21-47 | every call, re-entrant or reverted, keeps the invariant, and so does every state a callee sees |
| Auction.Auction.Bid | examples/deploy-suite/src/Auction.sol:21-30 | accepts a higher bid before the end and credits the one it beats; otherwise nothing changes |
| Auction.Auction.Withdraw | examples/deploy-suite/src/Auction.sol:32-38 | clears the entry before paying, with re-entrance, and undoes everything when the payment fails |
| Auction.Auction.EndAuction | examples/deploy-suite/src/Auction.sol:40-47 | once, after the end time, pays the seller the highest bid, with re-entrance and rollback |

## Left out

Assumptions of the model

- SQLite transactions are atomic and roll back when dropped; a retryable busy error is a transaction that did nothing. Mutexes and atomics are linearizable.
- The clock is shared and never goes back. A store opened for writing is one action; its separate deletes are the same action taken again.
- Owner ids are unique: `OwnerIdInjective` reduces this to unique correlation ids, which the source builds from time, process id, a counter and a hash.
- A submission counts as delivered when `submit_payload` returned success. One that returned an error may have reached the chain, and one call may broadcast twice (`AtMostTwoBroadcasts`).
- A request whose future is dropped leaves a running lock or mark task behind. What that task still commits counts as committed just before the request's crash.
- ExactlyOnce.InOrderExactlyOnce: is about submissions classified in order; one sent unclassified after a store error is covered by `SubmissionClosedIff`.
- Deliveries.ExactlyOnceIff: leaves out runs in which the sender's nonce row was wiped, after which its sequence starts anew; `OneProfileNeverWipes` and `WipesIff` say when that happens, and `RepeatsAnother` holds there too.
- UtxoCache.StaleNeverCached: leaves out forced loads, which `StaleSlotIff` covers, and loads overtaken by 2^64 invalidations between their two epoch reads, after which the epoch reads the same again.
- ProfileIsolation.ProfileIsolationHolds: one handle at a time; with two, `WriteIsolatedIff` says when it fails.
- Transport.IgraTransport.RawSend: assumes that no row carries its owner id when it starts and that others forge none, which unique ids give. What it says about its row and its nonce holds if others leave these two rows alone; `Lifecycle` and `NonceOrder` say when they do.
- Transport.IgraTransport.Process: `submit_payload` is represented by its answer; building the request, the RPC and the JSON response are not modelled.

Not modelled

- Error texts (`last_error_message`) and log lines; only error codes are.
- Untracked sends (no store, or no sender or nonce in the metadata), request routing, the gas-price override and raw transaction decoding.
- URL fingerprints, path and name sanitising, schema creation beyond the version key, read-only opens.
- The checks `submit_payload` makes before its loop (payload mode and size, configuration, keys, prefix hex), and what follows mining in the builder: signing, signature verification and mass.
- Other fields of a Kaspa transaction than inputs, the one output and the payload; they are the same for every candidate.
- ERC-20 tokens other than standard ones, transfers of LP tokens, and the caps that total supplies put on balances. The pool's two tokens are distinct and the pool never calls itself.
- Ether forced into the auction, and calls from address zero, which no account has.
- Gas, and the content of the calls a callee makes elsewhere.
- The remaining example contracts (`Staking`, `Vault`, `Counter`, `NFT` and the library-driven ones), configuration parsing and command-line code.
