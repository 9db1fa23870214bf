# A verified model of parts of flow-go

flow-go is the node software of the Flow network. This project models the parts of it
where order, state and concurrency matter most, and proves what they promise, for all
inputs, all behaviours of the code around them and all interleavings:

- transaction authorization and the worker pool that verifies signatures;
- the transaction executor on its stack of nested transactions, with sequence numbers,
  fees, rollback and the storage check;
- the ledger: the binary format of keys, payloads, updates and proofs, the Merkle trie
  and its proofs;
- the engines: message stores with their notifier, the shutdown of a unit, and the
  serial startup of a node's components.

## How the model is laid out

`Bytes` and `Framing` hold big-endian numbers and length-prefixed items. `LedgerFormat`
says what the ledger's byte strings are, `LedgerCodec` holds the loops that write and
read them, `LedgerLaws` what follows; `LedgerLayout` writes the same bytes down with
literal widths and tags. `Merkle`, `MTrie`, `PrunedTries` and `TrieProofs` are the
trie over uninterpreted hash functions; collision freedom is an explicit premise where
the source relies on it.

`SignaturePool`, `Wakeups`, `Unit` and `Startup` are state machines: `Enabled` and
`Apply` give the atomic steps of the goroutines, `Run` the state after a sequence of
steps, and the theorems are about every such sequence. `WorkQueue` holds the objects
behind `Wakeups`.

`NestedTransactions` is the stack of frames with its meters. `Executor` runs on it; the
code it calls (Cadence, the contracts, the environment) is a `World` of steps, each with
an arbitrary effect and outcome, and `ForeignCodeIsAnEffect` shows that any sequence of
calls on the stack is such an effect. `Outcome` is the reference: it mentions no stack.
`ExecutorTable` says how every run ends in terms of the `World` alone, without the
executor's own functions; `ExecutorLaws` and `StorageLimits` build on the reference.
`Authorization` stands beside them, and `AuthorizationLaws` states its verdict over the
transaction and the account keys.

## Where the code does not do what its comments or names say

- A proof counts its steps in 8 bits, so a proof of 256 steps reads as one of none
  (`ProofVerifiesIff`, `NeighboursDefeatProofs`).
- A proof of absence keeps the zero path and is verified along it, so it mostly fails
  (`ProofVerifiesIff`, `RightTurnDefeatsAbsence`). The forest avoids it by writing empty
  values first (`ForestProofs`).
- The encoding of an empty trie update cannot be decoded (`EmptyUpdateRejected`), and the
  payload length is 2 too large for an empty encoded key (`PayloadLengthError`).
- The payer is not to be charged for the fee deduction itself, but is if a first attempt
  fails with a metered frame open (`FeeLeakIsCharged`).

## Model

| member | source | states |
|---|---|---|
| SignaturePool.RunsAgreeWithSequentialScan | fvm/transactionVerifier.go:330-409 | main result: in every interleaving of caller and workers, a return value is that of a sequential scan, nil or the error of the lowest-index invalid signature, and the final panic is not reached |
| SignaturePool.StepInv | fvm/transactionVerifier.go:333-400 | every step of every goroutine keeps the channel invariant: entries are dequeued in order, each at most once, and every dequeued entry is verified before the caller scans |
| SignaturePool.SendNeverBlocks | fvm/transactionVerifier.go:333-345 | a worker that has verified an entry always finds room in the result channel |
| SignaturePool.CallerNotStarved | fvm/transactionVerifier.go:362-390 | once all workers have exited, also after early cancellation, the caller finds an entry to collect |
| SignaturePool.Progress | fvm/transactionVerifier.go:330-409 | no deadlock: until the caller returns some goroutine can move, given a worker or nothing to verify |
| SignaturePool.RunIsBounded | fvm/transactionVerifier.go:330-409 | a measure bounds the length of every run |
| SignaturePool.NoWorkersNoReturn | fvm/transactionVerifier.go:330-409 | the worker count must be positive: with none the caller never returns once there is a signature |
| SignaturePool.VerifySignatures | fvm/transactionVerifier.go:330-409 | under a scheduler that picks any possible step the pool terminates with the result of a sequential scan |
| SignaturePool.BadSignatureCancels | fvm/transactionVerifier.go:333-360 | a worker that passed on an invalid signature cancels and leaves; after a valid one it goes on iff nobody has cancelled |
| SignaturePool.CancelledWorkersStop | fvm/transactionVerifier.go:333-360 | once cancelled, in every continuation each worker takes at most one more signature, and none if it already holds one |
| SignaturePool.WorkersAre | fvm/transactionVerifier.go:330-360 | there are as many workers as signatures, but no more than configured |
| AuthorizationLaws.VerdictIff | fvm/transactionVerifier.go:189-286 | main result, over the two signature lists, the account keys and the weights alone: the check succeeds iff the payer is set, every signer is payer, proposer or authorizer, no key signs twice within or across the lists, all keys exist and are unrevoked, one is the proposal key, every other authorizer and the payer reach the threshold in their list and all signatures verify; a negative threshold leaves only the first three conditions |
| AuthorizationLaws.FirstEntryError | fvm/transactionVerifier.go:145-174 | otherwise the error is, in this order: the first signature by a stranger or with a key used before |
| AuthorizationLaws.FirstKeyError | fvm/transactionVerifier.go:297-308 | the first missing or revoked key |
| AuthorizationLaws.NoProposer | fvm/transactionVerifier.go:319-323 | the missing proposal signature |
| AuthorizationLaws.FirstWeightError | fvm/transactionVerifier.go:248-274 | the first authorizer other than the payer with too little payload weight, else the payer with too little envelope weight |
| AuthorizationLaws.FirstBadSignature | fvm/transactionVerifier.go:276-283 | the first signature, payload before envelope, that does not verify |
| Authorization.NewSignatureEntries | fvm/transactionVerifier.go:95-177 | the loops build one entry per signature in order, wired to the weight map of its group, or report the first signature by a stranger or with a repeated key |
| Authorization.GetAccountKeysAndAggregateWeights | fvm/transactionVerifier.go:290-326 | the loop over shared weight maps leaves every account with the sum of its key weights per group, or reports the first missing or revoked key, or the missing proposal signature |
| Authorization.VerifyTransaction | fvm/transactionVerifier.go:209-286 | the whole check, with the pool under an arbitrary scheduler, returns the specified error, in the order the source meets them |
| Authorization.PoolGivesVerdict | fvm/transactionVerifier.go:275-283 | whatever a returning run of the pool yields for the signatures is the verdict |
| Authorization.EntryErrorIff | fvm/transactionVerifier.go:145-174 | no entry error iff every signer is payer, proposer or authorizer and every pair of address and key index is new |
| Authorization.KeyErrorIff | fvm/transactionVerifier.go:297-308 | no key error iff every key exists and is not revoked |
| Authorization.AuthorizerErrorIff | fvm/transactionVerifier.go:248-264 | no authorizer error iff every authorizer other than the payer has enough payload weight |
| NestedTransactions.RestartIs | fvm/storage/state/transaction_state.go:478-505 | a restart closes all frames above the given one, keeps the sum of what they metered and drops what they wrote |
| NestedTransactions.ExecutedLocal | fvm/storage/state/execution_state.go:101-109 | whatever foreign code calls, frames below stay, its caller gains no computation while it does not meter, and every metering flag is restored |
| NestedTransactions.ForeignCodeIsAnEffect | fvm/storage/state/transaction_state.go:313-521 | every sequence of calls amounts to one effect on the frame it was called in plus some frames left open |
| NestedTransactions.MergeKeepsTotal | fvm/storage/state/execution_state.go:398-412 | merging a metering child into its parent keeps the total of the meters |
| NestedTransactions.ReadYourWrite | fvm/storage/state/execution_state.go:218-275 | a write is read back and no other read changes |
| NestedTransactions.CommitKeepsReads | fvm/storage/state/execution_state.go:398-412 | a commit changes no read |
| NestedTransactions.CommitMeters | fvm/storage/state/execution_state.go:398-412 | a commit closes the current frame and changes only writes and meter of its parent, the meter only while that meters |
| NestedTransactions.RestartForgets | fvm/storage/state/transaction_state.go:478-505 | after a restart of an open frame reads are those of the frames below it |
| NestedTransactions.AttachOverlays | fvm/storage/state/transaction_state.go:472-476 | attached writes are read from then on; they are metered unless metering is off |
| NestedTransactions.BeginIff | fvm/storage/state/transaction_state.go:313-384 | an unrestricted frame can be opened iff the current one is not restricted; what every new frame holds, meters and is limited to |
| NestedTransactions.CommitIff | fvm/storage/state/transaction_state.go:429-470 | only the current frame above the main one commits: by its id if unrestricted, by its location if restricted |
| NestedTransactions.RestartIff | fvm/storage/state/transaction_state.go:478-505 | a restart succeeds iff the frame is open |
| NestedTransactions.TransactionState.BeginNested | fvm/storage/state/transaction_state.go:313-330 | opens a frame under the same controller and limit, unless the current one is restricted |
| NestedTransactions.TransactionState.BeginNestedWithMeterParams | fvm/storage/state/transaction_state.go:351-370 | opens a frame with a limit of its own |
| NestedTransactions.TransactionState.BeginNestedForDerivedData | fvm/storage/state/execution_state.go:172-188 | opens a frame that meters under its own controller, without limits if its parent does not meter |
| NestedTransactions.TransactionState.CommitNested | fvm/storage/state/transaction_state.go:429-449 | merges the current frame into its parent iff the id is its own, it is not restricted and it is not the main one; else nothing changes |
| NestedTransactions.TransactionState.Attach | fvm/storage/state/transaction_state.go:472-476 | merges writes always and the meter only while metering |
| NestedTransactions.TransactionState.RestartNested | fvm/storage/state/transaction_state.go:478-505 | the search and the merge loop implement Restart, and nothing changes if the frame is not found |
| NestedTransactions.TransactionState.Get | fvm/storage/state/execution_state.go:218-245 | finds the newest write through all frames, else the storage below |
| NestedTransactions.TransactionState.RunUnmetered | fvm/storage/state/execution_state.go:101-109 | runs code with the current controller disabled and restores it |
| NestedTransactions.TransactionState.Finalize | fvm/storage/state/transaction_state.go:301-311 | gives the writes of the main transaction iff nothing else is open |
| Executor.RunTransaction | fvm/fvm.go:185-244 | main result: executor, stack and storage transaction together yield exactly the stack-free Outcome, for every behaviour of authorization, Cadence, fees and storage check; with the charges and the invalidator; a run without authorization commits nothing but its error and charges nothing; finalizing finds nothing left open |
| Executor.CheckAndIncrementSequenceNumber | fvm/transactionSequenceNum.go:15-89 | adds exactly the increment to the current frame if the check passes and nothing otherwise, leaves the meter and the other frames, and reaches neither panic; a restricted frame is an error that changes nothing |
| Executor.TransactionExecutor.Check | fvm/transactionInvoker.go:147-169 | authorization and sequence number checks in order, with what they leave in the main transaction: an authorization error is the result, then a missing or revoked key |
| Executor.TransactionExecutor.Preprocess | fvm/transactionInvoker.go:139-181 | either stops the run, or ends it without a body, or opens the body frame with the preparation done |
| Executor.TransactionExecutor.GetExecutionParameters | fvm/storage/derived/table.go:481-531 | the parameters are replayed or computed in a frame that is committed also on failure; open frames make the commit fail |
| Executor.TransactionExecutor.Compute | fvm/executionParameters.go:122-221 | reads three settings unmetered up to the first failure; user errors are passed over |
| Executor.Gets | fvm/executionParameters.go:167-190 | so getting the parameters fails only with a failure |
| Executor.TransactionExecutor.PreprocessTransactionBody | fvm/transactionInvoker.go:186-231 | panics iff the parameters wrote a register; else opens the executor frame and prepares the body in it |
| Executor.TransactionExecutor.RunBody | fvm/transactionInvoker.go:333-361 | the body runs in its own frame, which is merged iff nothing was left open above it |
| Executor.TransactionExecutor.NormalExecution | fvm/transactionInvoker.go:315-391 | first error, meter total, writes and charge of the path without earlier errors; the charge is that of the frame on top at the deduction, whatever was left open |
| Executor.TransactionExecutor.DeductTransactionFees | fvm/transactionInvoker.go:269-289 | reports the metered computation capped at the limit and charges nothing for the deduction itself |
| Executor.TransactionExecutor.ErrorExecution | fvm/transactionInvoker.go:394-435 | drops all writes, keeps the meter, retries the deduction once and drops the writes of a failed retry |
| Executor.TransactionExecutor.Commit | fvm/transactionInvoker.go:437-466 | merges the executor frame iff it is the only one open |
| Executor.TransactionExecutor.ExecuteTransactionBody | fvm/transactionInvoker.go:241-267 | ends in the specified result; a failed transaction hands on no invalidator |
| Executor.TransactionExecutor.Execute | fvm/transactionInvoker.go:143-145 | the executor result for started and unstarted bodies |
| Executor.TransactionExecutor.HandleError | fvm/transactionInvoker.go:119-137 | failures stop, user errors become the output |
| ExecutorTable.Unauthorized | fvm/transactionInvoker.go:148-158 | from the authorization verdict alone: with checks on, an error of it discards the run if it is a failure and is else all that is committed; the body does not start |
| ExecutorTable.BadProposal | fvm/transactionSequenceNum.go:53-88 | the same for a missing key, a revoked key, an unreadable number, a number other than the stored one and a failed increment, in this order |
| ExecutorTable.OnlyChecked | fvm/transactionInvoker.go:165-181 | a transaction that passes and has no body to execute commits exactly its increment |
| ExecutorTable.NoParameters | fvm/transactionInvoker.go:186-231 | without metering parameters the body does not start and nothing is committed; the reason in every case |
| ExecutorTable.BodyStages | fvm/transactionInvoker.go:186-391 | the error of a body is the first of eight in order, from preparation to fee deduction, and the meter is the sum of what the calls up to it metered |
| ExecutorTable.StartedIff | fvm/transactionInvoker.go:139-231 | a body starts iff both checks pass, bodies are executed, the parameters can be had and the preparation does not fail |
| ExecutorTable.SuccessIff | fvm/transactionInvoker.go:139-466 | main result: a transaction commits without error iff checks and parameters are fine, every call returns without error and closes what it opened, and the derived data accept; then it writes its increment and all calls in order |
| ExecutorTable.SuccessCharge | fvm/transactionInvoker.go:269-289 | and is charged once: the metered computation in units of 2^16, up to the limit |
| ExecutorTable.FailedRun | fvm/transactionInvoker.go:241-267 | main result: every end of a run whose body met an error, with what is committed and what the last charge is, as a table over the behaviour of the calls |
| ExecutorLaws.Rollback | fvm/transactionInvoker.go:394-435 | main result: a transaction that commits with an error leaves exactly its sequence increment and the writes of one successful fee retry |
| ExecutorLaws.NoBodyWriteSurvives | fvm/transactionInvoker.go:241-267 | so every surviving register is the sequence number or written by the retry |
| ExecutorLaws.Success | fvm/transactionInvoker.go:315-391 | a transaction without error leaves increment, preparation, balance check, body, storage check and one fee deduction, in that order |
| ExecutorLaws.FeesSurviveAtMostOnce | fvm/transactionInvoker.go:386-434 | registers that only fee deductions write come from one attempt: the first without error, else a successful retry, never both |
| ExecutorLaws.NestingBalance | fvm/transactionInvoker.go:437-446 | the unexpected-nested error occurs iff a call on the path returned without error and left a frame open |
| ExecutorLaws.TidyRunsBalance | fvm/transactionInvoker.go:437-446 | if calls that do not fail close what they open, no failure of a run is an internal one of executor or stack |
| ExecutorLaws.SettledIsMetered | fvm/transactionInvoker.go:269-289 | main result: the last charge of a committed transaction, failed or not, is min(limit, computation before fees), iff no failed first deduction left a metered frame that shows below the limit |
| ExecutorLaws.ChargesAreMetered | fvm/transactionInvoker.go:269-289 | if the calls before it closed what they opened, the same holds of every attempt; at most two attempts, none above the limit |
| ExecutorLaws.FeeLeakIsCharged | fvm/transactionInvoker.go:402-419 | the exception exists: computation of a first deduction that failed with a frame open is charged on the retry |
| ExecutorLaws.UnmeteredCodeCanLeak | fvm/storage/state/execution_state.go:172-188 | code with metering disabled can leave such a frame open: one for derived data, metered without limits |
| ExecutorLaws.OneTransaction | fvm/transactionSequenceNum.go:33-89 | a committed transaction moves its key by one iff it passed the check, failed body or not, and moves no other key |
| ExecutorLaws.NumbersCountPasses | fvm/transactionSequenceNum.go:67-87 | over any sequence of transactions a key holds its initial number plus the committed passes, modulo 2^64 |
| ExecutorLaws.NoReplay | fvm/transactionInvoker.go:160-169 | among fewer than 2^64 transactions no two pass with the same key and number |
| StorageLimits.GetStorageCheckAddresses | fvm/transactionStorageLimiter.go:59-105 | for every iteration order of the write set: strictly descending, and exactly the payer if fees are due plus all 8-byte owners except the EVM storage |
| StorageLimits.LessIsNumeric | fvm/transactionStorageLimiter.go:97-105 | addresses are ordered as the numbers they are written as |
| StorageLimits.DescendingUnique | fvm/transactionStorageLimiter.go:97-105 | so the list is determined by the write set |
| StorageLimits.CheckStorageLimits | fvm/transactionStorageLimiter.go:36-54 | the result of the check over the sorted list, which exists and is the only one; none when limits are off |
| StorageLimits.Compare | fvm/transactionStorageLimiter.go:109-166 | errors in the order of the source: unreadable usage, failed call, wrong answer, then the first account over capacity |
| StorageLimits.VerdictIff | fvm/transactionStorageLimiter.go:109-166 | the check passes iff there are as many capacities as accounts and every usage is readable and, in bytes times 100, at most its capacity |
| StorageLimits.VerdictTable | fvm/transactionStorageLimiter.go:109-166 | which error is returned: the first unreadable usage, else the bad answer, else the first account over capacity with its capacity in whole bytes |
| StorageLimits.CheckPayerBalanceAndReturnMaxFees | fvm/transactionPayerBalanceChecker.go:61-99 | returns the maximum iff the reply decodes and lets the payer pay, insufficient balance iff it decodes and does not, else the failed call or the first field that does not decode |
| StorageLimits.PayerStillFits | fvm/transactionInvoker.go:319-388 | for monotone fee and capacity, every charge that is paid costs at most the maximum, so a payer who passed the storage check fits after paying; one who was not checked pays nothing |
| Merkle.BitIsDigit | ledger/common/bitutils/utils.go:5-9 | bit i of a path is its binary digit of weight 2^(255 - i) |
| Merkle.FirstDifferenceOrders | ledger/common/bitutils/utils.go:5-9 | at the first bit in which two paths differ, the one with the bit set is the larger number |
| Merkle.LeavesInOrder | ledger/trie.go:68-99 | main result: the expanded tree hashes every allocated register once, from left to right in the numeric order of the paths |
| Merkle.ComputeCompactValue | ledger/trie.go:71-79 | equals the top-down hash of the fully expanded tree with this one register; the default hash for an empty value |
| Merkle.ComputeCompactValueFromLeafHash | ledger/trie.go:87-99 | the loop computes the branch from the leaf hash up, with default siblings |
| Merkle.BranchIsExpanded | ledger/trie.go:68-99 | that branch is the expanded tree whenever the path is the only allocated one |
| Merkle.InitDefaultHashes | ledger/trie.go:46-58 | the table holds the hash of the empty tree of every height |
| Merkle.EmptySubtree | ledger/trie.go:41-66 | a subtree without registers has the default hash of its height |
| Merkle.ExpandedInjective | ledger/trie.go:68-99 | without collisions the hash of a subtree determines its registers |
| MTrie.UpdateCorrect | ledger/complete/mtrie/trie/trie.go:383-542 | main result: update writes exactly what it is asked to, keeps every cached hash right under compact leaves and pruning, and reports the change in allocated registers |
| MTrie.HistoriesAgree | ledger/complete/mtrie/trie/trie.go:328-352 | two histories of updates end in the same root hash iff they leave the same values, however they group, order and prune |
| MTrie.RootHashOfHistory | ledger/complete/mtrie/trie/trie.go:328-352 | the root hash after any history is that of the fully expanded tree of the last values |
| MTrie.BuildHoldsLastWritten | ledger/complete/mtrie/trie/trie.go:205-230 | reading after any history gives the last value written |
| MTrie.RootHashIffSameRegisters | ledger/complete/mtrie/trie/trie.go:67-73 | same registers give the same root hash, and without collisions only those |
| MTrie.HashIsExpanded | ledger/complete/mtrie/node/node.go:147-172 | the hash of a compactified node is that of its expanded tree |
| MTrie.CompactifiedJoins | ledger/complete/mtrie/node/node.go:108-134 | compactification keeps the registers of both children |
| MTrie.DefaultIsEmpty | ledger/complete/mtrie/node/node.go:136-144 | a node taken for a default one holds no register |
| MTrie.ReadSingle | ledger/complete/mtrie/trie/trie.go:205-230 | the descent returns the value held for the path |
| MTrie.AllocatedIs | ledger/complete/mtrie/trie/trie.go:383-542 | the count of a node is the number of registers under it that hold a value |
| MTrie.RegCountIs | ledger/complete/mtrie/trie/trie.go:328-352 | the count carried along any history is the number of paths whose last value is not empty |
| PrunedTries.UpdatePrunes | ledger/complete/mtrie/trie/trie.go:531-542 | updating with pruning keeps a pruned trie pruned: leaves hold values and no interim node could be a leaf or nothing |
| PrunedTries.PrunedUnique | ledger/complete/mtrie/node/node.go:95-134 | two pruned tries with the same registers are the same, node by node |
| PrunedTries.PrunedHistoriesAgree | ledger/complete/mtrie/trie/trie.go:328-352 | main result: histories that always prune end in the same trie iff they leave the same values, up to a root that was emptied |
| TrieProofs.VerifyTrieProof | ledger/common/proof/proof.go:13-50 | the loop upwards accepts iff there are enough interims and the siblings read off from the last one rebuild the expected hash |
| TrieProofs.SurplusInterimsIgnored | ledger/common/proof/proof.go:20-39 | interims that are not needed are ignored; too few reject |
| TrieProofs.VerifiedValueIsTrue | ledger/common/proof/proof.go:13-50 | soundness: an accepted proof with any flags, interims and step count states the value of its register |
| TrieProofs.InclusionIff | ledger/complete/mtrie/trie/trie.go:596-625 | a generated proof claims inclusion iff the path has a leaf, as every register with a value does |
| TrieProofs.ProofVerifies | ledger/complete/mtrie/trie/trie.go:584-685 | a generated proof states the register, and an inclusion proof under 256 steps verifies |
| TrieProofs.ProofVerifiesIff | ledger/complete/mtrie/trie/trie.go:596-655 | main result: the exact condition for a generated proof to verify: an inclusion proof under 256 steps always; a proof of absence, whose path stays zero, iff the way ends in no value and every right turn is into an empty subtree; with 256 steps, where the 8-bit counter wraps, iff the trie holds no other register |
| TrieProofs.RightTurnDefeatsAbsence | ledger/complete/mtrie/trie/trie.go:603-625 | a failing family: in a trie that holds anything, no proof of absence verifies whose path turns right at the root |
| TrieProofs.AbsenceProofCanFail | ledger/trie.go:489-497 | its smallest member: one register at the zero path |
| TrieProofs.NeighboursDefeatProofs | ledger/complete/mtrie/trie/trie.go:660-685 | the failing family: in a trie holding two registers whose paths differ in the last bit only, neither proof verifies |
| TrieProofs.ForestProofs | ledger/complete/mtrie/forest.go:253-302 | proofs the forest makes after writing absent paths state the old values and verify unless they have 256 steps |
| TrieProofs.WrittenHasLeaf | ledger/complete/mtrie/trie/trie.go:383-542 | a path written without pruning gets a leaf of its own |
| LedgerLayout.KeyLayout | ledger/trie_encoder.go:131-219 | the bytes of a key, with literal widths |
| LedgerLayout.PayloadLayout | ledger/trie_encoder.go:386-454 | the bytes of a payload: the value length has 8 bytes in version 0 and 4 in version 1; the top-level form starts with 0, 1, 6 |
| LedgerLayout.Headers | ledger/trie_encoder.go:17-73 | version and type of every entity |
| LedgerLayout.UpdateLayout | ledger/trie_encoder.go:586-616 | the bytes of a trie update |
| LedgerLayout.ProofIs | ledger/trie_encoder.go:757-790 | the bytes of a proof |
| LedgerLayout.PayloadlessIs | ledger/trie_encoder.go:1002-1036 | the bytes of a payloadless proof |
| LedgerLayout.BatchLayout | ledger/trie_encoder.go:916-930 | the bytes of both kinds of batches |
| LedgerLaws.HeaderRoundTrip | ledger/trie_encoder.go:75-108 | a body is decoded iff the version is supported and the type is the expected one |
| LedgerLaws.OneType | ledger/trie_encoder.go:90-108 | a string decodes as at most one type |
| LedgerLaws.TopKeyRoundTripIff | ledger/trie_encoder.go:185-253 | the top-level key format round-trips iff the key fits, in both versions |
| LedgerLaws.TopUpdateRoundTripIff | ledger/trie_encoder.go:570-635 | the top-level update format round-trips iff the update fits, nil included |
| LedgerLaws.TopProofRoundTripIff | ledger/trie_encoder.go:740-805 | the top-level proof format round-trips iff the proof fits |
| LedgerLaws.TopBatchRoundTripIff | ledger/trie_encoder.go:900-951 | the top-level batch format round-trips iff the batch fits, whatever follows |
| LedgerLaws.TopPayloadlessRoundTripIff | ledger/trie_encoder.go:992-1054 | the top-level payloadless proof format round-trips iff the proof fits |
| LedgerLaws.TopPayloadlessBatchRoundTripIff | ledger/trie_encoder.go:1147-1188 | the top-level payloadless batch format round-trips iff the batch fits and nothing follows |
| LedgerLaws.KeyCanonical | ledger/trie_encoder.go:314-340 | a byte string decodes to a key and a remainder iff it is the encoding of that key followed by the remainder |
| LedgerLaws.KeyRoundTripIff | ledger/trie_encoder.go:205-219 | a key round-trips iff its counts and lengths fit their fields |
| LedgerLaws.KeyPrefixRejected | ledger/trie_encoder.go:314-340 | every strict prefix of an encoded key is rejected |
| LedgerLaws.LookupAgrees | ledger/trie_encoder.go:255-276 | on every accepted key the early-exit lookup finds the first part of the type in the decoded key, or nothing |
| LedgerLaws.LookupBeforeError | ledger/trie_encoder.go:255-276 | on input that is not a key the lookup may still succeed |
| LedgerLaws.PayloadCanonical | ledger/trie_encoder.go:512-567 | payload decoding inverts encoding, with its remainder, in both versions |
| LedgerLaws.PayloadRoundTripIff | ledger/trie_encoder.go:428-454 | a payload round-trips iff its lengths fit, in both versions |
| LedgerLaws.PayloadPrefixRejected | ledger/trie_encoder.go:512-567 | every strict prefix of a payload body is rejected |
| LedgerLaws.TopPayloadRoundTrip | ledger/trie_encoder.go:386-399 | the top-level format round-trips, nil included |
| LedgerLaws.OldPayloadReadable | ledger/trie_encoder.go:480-497 | the top-level decoder reads both versions |
| LedgerLaws.PayloadLengthError | ledger/trie_encoder.go:456-477 | the computed payload length is exact unless the encoded key is empty or undecodable, and by how much it is off then |
| LedgerLaws.NewPayloadLengthExact | ledger/trie_encoder.go:456-477 | it is exact for payloads built from a key |
| LedgerLaws.UpdateRoundTripIff | ledger/trie_encoder.go:586-704 | a trie update round-trips iff it is not empty, has as many payloads as paths and all lengths fit |
| LedgerLaws.EmptyUpdateRejected | ledger/trie_encoder.go:637-665 | the encoding of an empty update is always rejected |
| LedgerLaws.UpdatePrefixRejected | ledger/trie_encoder.go:637-704 | every strict prefix of a non-empty update body is rejected |
| LedgerLaws.ProofRoundTripIff | ledger/trie_encoder.go:757-897 | a trie proof round-trips iff flags and interims fit in a byte each and the lengths fit |
| LedgerLaws.ProofPrefixRejected | ledger/trie_encoder.go:807-897 | every strict prefix of a proof is rejected |
| LedgerLaws.PayloadlessRoundTripIff | ledger/trie_encoder.go:1002-1143 | a payloadless proof round-trips iff its counts fit |
| LedgerLaws.PayloadlessPrefixRejected | ledger/trie_encoder.go:1056-1143 | every strict prefix of a payloadless proof is rejected |
| LedgerLaws.BatchRoundTripIff | ledger/trie_encoder.go:916-984 | the ordinary batch decoder returns the batch, whatever follows it, iff the batch fits |
| LedgerLaws.PayloadlessBatchRoundTripIff | ledger/trie_encoder.go:1157-1220 | the payloadless one returns it iff it fits and nothing follows, and rejects any suffix |
| LedgerLaws.BatchPrefixRejected | ledger/trie_encoder.go:953-984 | every strict prefix of a batch is rejected |
| LedgerLaws.PayloadlessBatchPrefixRejected | ledger/trie_encoder.go:1190-1220 | every strict prefix of a payloadless batch is rejected |
| LedgerCodec.AppendKey | ledger/trie_encoder.go:205-219 | the loop appends the specified bytes of a key |
| LedgerCodec.EncodedKeyLength | ledger/trie_encoder.go:221-232 | the computed length is that of the encoded key |
| LedgerCodec.DecodeKey | ledger/trie_encoder.go:314-340 | the loop decodes exactly what the format says |
| LedgerCodec.DecodeKeyPart | ledger/trie_encoder.go:278-310 | one sized part and the rest of the input, or an error |
| LedgerCodec.DecodeKeyPartValueByType | ledger/trie_encoder.go:255-276 | the loop that stops early agrees with a scan of the decoded key |
| LedgerCodec.EncodePayload | ledger/trie_encoder.go:428-454 | the specified bytes of a payload in either version |
| LedgerCodec.DecodePayload | ledger/trie_encoder.go:512-567 | the specified payload, or an error |
| LedgerCodec.EncodeTrieUpdate | ledger/trie_encoder.go:586-616 | both loops append the specified bytes, without the path size if there are no paths |
| LedgerCodec.DecodeTrieUpdate | ledger/trie_encoder.go:637-704 | both loops decode exactly what the format says |
| LedgerCodec.EncodeTrieProof | ledger/trie_encoder.go:757-790 | the specified bytes of a proof |
| LedgerCodec.DecodeTrieProof | ledger/trie_encoder.go:807-897 | the specified proof, or an error |
| LedgerCodec.EncodeTrieBatchProof | ledger/trie_encoder.go:916-930 | the loop appends every proof with its length |
| LedgerCodec.DecodeTrieBatchProof | ledger/trie_encoder.go:953-984 | the loop decodes every proof, ignoring what follows |
| LedgerCodec.EncodePayloadlessTrieProof | ledger/trie_encoder.go:1002-1036 | the specified bytes of a payloadless proof |
| LedgerCodec.DecodePayloadlessTrieProof | ledger/trie_encoder.go:1056-1143 | the specified payloadless proof, or an error |
| LedgerCodec.EncodePayloadlessTrieBatchProof | ledger/trie_encoder.go:1157-1166 | the loop appends every proof with its length |
| LedgerCodec.DecodePayloadlessTrieBatchProof | ledger/trie_encoder.go:1190-1220 | the loop decodes every proof and requires the input to end there |
| WorkQueue.MessageHandler.Process | engine/enqueue.go:76-111 | the first matching pattern maps and stores the message in its own store alone and notifies iff it was stored |
| WorkQueue.FifoMessageStore.Put | engine/common/fifoqueue/fifoqueue.go:100-110 | appends at the tail iff there is room |
| WorkQueue.FifoMessageStore.Get | engine/common/fifoqueue/fifoqueue.go:132-138 | takes the head, or nothing from an empty queue |
| WorkQueue.NewFifoMessageStore | engine/common/fifoqueue/fifoqueue.go:70-86 | an empty store of that capacity, or an error iff the capacity is below one |
| WorkQueue.Notifier.Notify | engine/notifier.go:35-42 | leaves the token set |
| WorkQueue.Notifier.Take | engine/notifier.go:44-47 | hands the token to one receiver and leaves none |
| Wakeups.NoLostWakeup | engine/enqueue.go:76-111 | main result: in every reachable state with any number of producers, consumers and stores, a store with a message has a token, a producer about to notify or a consumer on its way; accepted messages leave in order, each once |
| Wakeups.StepInv | engine/common/synchronization/request_handler.go:335-396 | every step keeps that invariant |
| Wakeups.QuietRunsEnd | engine/common/synchronization/request_handler.go:335-396 | once nothing more is stored a measure bounds the steps left |
| Wakeups.StuckMeansDrained | engine/common/synchronization/request_handler.go:379-396 | where no step is left and a consumer exists, every accepted message was handed out |
| Wakeups.PutIsTaken | engine/common/fifoqueue/fifoqueue.go:100-110 | in every run an offered message is taken iff accepted less delivered is below the capacity, and then its producer must notify; else nothing changes |
| Wakeups.NotifyNeverBlocks | engine/notifier.go:35-42 | a producer can always notify, which leaves the token set |
| Wakeups.OneConsumerPerToken | engine/notifier.go:44-47 | a waiting consumer goes on iff there is a token, and takes it |
| Wakeups.AskIsAnswered | engine/common/synchronization/request_handler.go:335-376 | a consumer gets the oldest message not handed out of the store it asks and starts over, goes on from an empty one, and waits after the last |
| Wakeups.AllOffersTaken | engine/enqueue.go:76-111 | if no more is offered to a store than its capacity, all of it is accepted in order |
| Wakeups.AllOffersDelivered | engine/common/synchronization/request_handler.go:335-396 | and then, where no step is left, all of it was handed out in order |
| Startup.AddWorkersFromComponents | cmd/scaffold.go:1575-1618 | the loop chains the channels of the serial components in order and appends the asynchronous ones |
| Startup.ChainAt | cmd/scaffold.go:1580-1612 | components without dependencies are chained in the order given, and the others appended in that order |
| Startup.SerialStartup | cmd/scaffold.go:1633-1690 | main result: in every interleaving a factory in the chain has run only if every earlier serial component is ready and every earlier restartable one was released; each started channel closes at most once |
| Startup.FailureBlocks | cmd/scaffold.go:1638-1680 | after a component of the chain ended without releasing the next, no later one is ever built |
| Startup.EarlyEndFails | cmd/scaffold.go:1638-1672 | throwing in the factory, or aborting before being ready, is such an end |
| Startup.AsyncStartup | cmd/scaffold.go:1612-1617 | in every run in which such a component was built, its worker entered after the step that closed the channel of its dependencies |
| Startup.WaitsForParent | cmd/scaffold.go:1638-1648 | a waiting worker enters iff its parent channel is closed, and aborts iff it is not and the context is cancelled |
| Startup.WaitsForReady | cmd/scaffold.go:1664-1680 | a built component passes iff it is ready, and is given up iff it is not and the context is cancelled |
| Startup.ReleasesTheNext | cmd/scaffold.go:1678-1719 | a worker that passes closes its own channel, once, and no other; a restartable one has built nothing by then |
| Startup.RebuiltAgain | cmd/scaffold.go:1723-1748 | a restartable component that was released is built at every restart until it ends or throws |
| Startup.BuiltOnce | cmd/scaffold.go:1638-1690 | the factory of any other is called at most once, and its worker does not end before cancellation except by throwing |
| Startup.StepInv | cmd/scaffold.go:1699-1752 | every step of serial and restartable workers keeps the channel invariant |
| Startup.StuckMeansStarted | cmd/scaffold.go:1633-1690 | no deadlock: without failures and without a startup step left, the whole chain is released |
| Startup.StartupIsBounded | cmd/scaffold.go:1633-1690 | the number of startup steps of every run is bounded |
| Unit.DoneMeansSilent | engine/unit.go:155-166 | main result: once any done channel is closed no function runs or is admitted, then and in every continuation |
| Unit.WaitGroupCounts | engine/unit.go:31-75 | the wait group counts the admitted and unfinished functions, and is zero iff there are none |
| Unit.StepInv | engine/unit.go:31-119 | every step keeps count, cancellation and closed channels consistent |
| Unit.AtMostOneMore | engine/unit.go:93-119 | a cancelled unit starts each function at most once more, a periodic one only if it was waiting for its tick |
| Unit.ShutdownEnds | engine/unit.go:155-166 | after cancellation a measure bounds the steps left |
| Unit.StuckMeansDone | engine/unit.go:155-166 | where none is left every done channel is closed |
| Unit.AdmittedUnlessCancelled | engine/unit.go:31-43 | in every run a function is refused iff an earlier step was a cancellation; else it is admitted and the wait group grows by one |
| Unit.AdmittedGoesOn | engine/unit.go:66-119 | an admitted function starts, or enters its loop if periodic |
| Unit.QuitsOnlyCancelled | engine/unit.go:79-119 | a wait is left early iff the unit was cancelled, and never before a function that runs at once |
| Unit.LoopChecksFirst | engine/unit.go:104-117 | a periodic loop waits for its tick iff the unit is not cancelled when it checks; a tick starts the function |
| Unit.DoneInOrder | engine/unit.go:155-166 | Done cancels, runs its actions once each and closes its channel iff no function is left |
| Unit.LiveUnitRunsAll | engine/unit.go:55-88 | main result: in a run without cancellation, where only new uses are left, every function that was used once or delayed has started exactly once and finished |
| Unit.PeriodicStartsAgain | engine/unit.go:93-119 | and a periodic one can start again after every return |

## Left out

- Executor.RunTransaction: only the computation meter is modelled, on unbounded numbers; memory, event and interaction meters, emitted events, logs, tracing and inspectors are not.
- NestedTransactions.ForeignCodeIsAnEffect: foreign code returns from its calls; a panic that unwinds through RunWithMeteringDisabled, which restores its flag without a defer, is not modelled. Size limits of keys and values are not modelled.
- Executor.CheckAndIncrementSequenceNumber: the revocation status of the key and failures of the account registers are inputs; a key's number is one register, whatever its index.
- Authorization.VerifyTransaction: weights are unbounded integers.
- StorageLimits.GetStorageCheckAddresses: the library's sort is an insertion sort on values.
- StorageLimits.PayerStillFits: the inclusion effort is part of the fee function, and the balance does not change between the storage check and the deduction.
- MTrie.UpdateCorrect: the order of the paths, which splitByPath permutes in place, the parallel recursion and the byte size of the registers are not modelled; update works on values.
- TrieProofs.ProofVerifiesIff: proofs are built path by path, not for a batch at once; the batch form splits the paths like update does.
- TrieProofs.VerifyTrieProof: a proof with more steps than flag bits, on which the source panics, is not modelled.
- LedgerCodec.DecodePayload: the zero-copy option, which decides whether the result shares memory with the input, is not modelled.
- Wakeups.NoLostWakeup: consumers do not stop; context cancellation and errors of the message processors are not modelled.
- Startup.SerialStartup: the shutdown of components, and when a restartable component is built again, are left open rather than modelled.
- Unit.DoneMeansSilent: Ready, which only runs its checks and closes a channel, is not modelled.
- CBOR and JSON forms of ledger values, String methods and metrics.
- Bootstrapping, scripts, and the overrides of metering parameters: option setters and simple merges.
- The forest's cache, the checkpoints and the write-ahead log of the ledger.
- The rest of cmd, and consensus, network, access and collection packages.
