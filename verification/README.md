# Nitewatch custody: a Dafny model and its proofs

Nitewatch guards withdrawals from an on-chain custody contract. This project models three connected parts of it and
proves what holds in every run of each:

- **`QuorumCustody`**, an m-of-n custody contract: a signer array with its membership map, co-signed signer changes, a
  bounded quorum, withdrawals with a snapshotted quorum, approvals, a one-hour expiry and payouts that hand control to
  the recipient.
- **The daemon**: one worker that checks hourly and daily limits against a database log, sends a finalization or a
  rejection to `SimpleCustody`, waits, and records, while time passes, others act on the chain, the database may refuse
  and the process may crash between any two effects.
- **Historical reconciliation**: the paging loop over block ranges, and restarting from the stored cursor.

`dafny verify dfyconfig.toml` checks everything.

## How it is built

State is changed in place by classes (`QuorumCustody`, `SimpleCustody`, `Adapter`, `PolicyChecker`, `Daemon`) and by the
paging loop `ReconcileBlockRange`. Each of their methods is proved to compute a function of the inputs and the old
state; the theorems are then about those functions, over all runs.

| file | what it holds |
|---|---|
| Evm.dfy, Encoding.dfy | addresses, words, outcomes; the byte strings that are hashed, down to big-endian words |
| SignerTable.dfy | push loop, swap-and-pop removal, the ascending co-signature loop, and what they mean for the signer set |
| QuorumSpec.dfy, QuorumErrors.dfy, QuorumCustody.dfy | the contract as a function of storage and transaction, its invariant, exactly when each transaction is accepted; what a revert reports; the contract as a class |
| QuorumRuns.dfy | lifecycle, quorum safety |
| QuorumMoney.dfy | conservation of money |
| QuorumAdmin.dfy, QuorumFloors.dfy | the ledger of signer changes: co-signed, single-use, quorum floor; the floor counted between transactions only |
| QuorumThreshold.dfy, QuorumRevival.dfy | when pending withdrawals stay below their threshold; a run in which one does not |
| SimpleSpec.dfy, SimpleCustody.dfy | the contract the daemon serves |
| Decimal.dfy, Store.dfy | amounts as decimal text; the database tables and their operations |
| Windows.dfy, Checker.dfy | sums over time windows; the limit check |
| Pipeline.dfy, PipelineLimits.dfy, PipelineOnce.dfy | the daemon as a protocol of single effects; rate-limit safety; exactly-once effect |
| PipelinePay.dfy, PipelineReject.dfy | which withdrawals have been or can still be paid; what decision rows, "rejected" in particular, say about that |
| PaidUnapproved.dfy | three runs in which a withdrawal that is not recorded as approved was paid |
| PipelineRecord.dfy | what the rows of both tables say about the chain and the transactions sent; every approval is counted |
| Service.dfy, TurnOutcome.dfy | `processWithdrawal` and the event loop, proved to be paths of that protocol; in which case which decision is recorded |
| Listener.dfy, Replay.dfy | reconciliation: coverage and termination; restarting from the cursor |
| Resume.dfy | the same for the daemon as it runs, cut off at any effect |
| AnyOrder.dfy, CursorGap.dfy | the cursor when events are served in any order; runs in which it moves past an undecided event |

Conventions. A transaction that reverts leaves the storage as it was: the class takes a copy and restores it. The hash,
signature recovery, the domain separator, the chain id and the contract's address are parameters (`Evm.Crypto`). No
hash is injective on all byte strings, so where collisions matter they are excluded only on the finite set of messages
actually hashed. An external call is any finite sequence of the two unguarded signer functions followed by success or
failure. What the outside decides (clock readings, database refusals, provider answers, receipts) is a parameter of the
step or method.

## Where the code does not do what one might expect

- A token withdrawal whose recipient is the custody contract itself is executed and moves nothing, so "balance =
  deposits - executed withdrawals" fails. `QuorumMoney.ConservationIff` gives the exact condition,
  `QuorumMoney.ConservedWithoutSelfStarts` one on the calls, and `QuorumMoney.SelfPayoutKeepsBalance` a run in which
  the equation fails.
- Re-adding a removed signer makes its old approvals count again, so a pending withdrawal can reach its threshold
  without being executed. `QuorumThreshold.AlwaysBelowIff` gives the exact condition for a run,
  `QuorumThreshold.AddKeepsBelowIff` the one for a single addition, `QuorumRevival.RevivalReachesThreshold` a run, for
  any hash and any genuine co-signatures, in which it fails.
- The quorum can drop while a payout or a token call is running and signers can be added again before it ends. The
  floor in `QuorumAdmin.QuorumFloor` therefore counts the moments inside transactions. Counted between transactions
  only it can fail (`QuorumFloors.BoundaryFloorFails`); `QuorumFloors.BoundaryFloorIff` says exactly when it holds, and
  `QuorumFloors.BoundaryFloorHolds` that it does when no transaction adds signers after removing some.
- Reconciliation can end without fetching the head block, even with a provider that serves every request at once.
  `Listener.HeadMissedIff` says for which distances to the head; with any other well-behaved provider the end of the
  loop tells whether the head was fetched (`Listener.HeadFetchedIff`).
- Halving stops at two blocks, so a provider that serves single blocks only, and gives no advice, is never asked for
  one: from its first request on the loop fetches nothing (`Listener.StuckAtTwoBlocks`). With a provider that
  serves ranges up to some width the loop ends exactly if that is at least two blocks, or there is nothing to fetch
  (`Listener.EndsIff`).
- Only "approved" decides whether a withdrawal is paid. A reject receipt is not inspected (service/service.go:239), and
  a finalization can be mined while the daemon is down, so a row "rejected" or "failed" can stand for a paid withdrawal:
  `PaidUnapproved.PaidThenRejected`, `PaidUnapproved.RejectedThenPaid` and `PaidUnapproved.PaidThenFailed` are such runs.
  `PipelinePay.RowPayableIff` says of any row exactly when its withdrawal has been paid or can still be paid,
  `PipelineReject.RejectedUnpaidIff` when a mined rejection leaves it unpaid for good.
- A recording that fails is only logged (service/service.go:302-306). If a later one then succeeds, the cursor moves past
  an event without a decision (`CursorGap.GapLosesEvent`); `Resume.LivesKeepSafe` says that this is exactly when the
  cursor stops being a safe resume point, as long as events come in order. A live event that is served before one of
  the history moves it too far as well (`CursorGap.LiveFirstLosesEvent`); `AnyOrder.CourseSafeIff` is the exact condition
  for any order of serving.
- The check counts records stamped after the current window too, which matters only after a clock has been set back
  (`Checker.CheckExact`; with a clock that is not behind, `Checker.CheckInWindows`).
- A failing lookup of a decision row reads as "unknown" (internal/store/adapter.go:124-128).
- A limit configured as negative lets nothing be recorded; the bounds below use zero for it, and equal the limit
  otherwise.

## Model

| member | source | states |
|---|---|---|
| Encoding.EncodeWordsInjective | contracts/evm/src/QuorumCustody.sol:279-285 | concatenated 32-byte words determine the words, however many |
| Encoding.StructHashInjective | contracts/evm/src/QuorumCustody.sol:89-94 | without a collision among the messages hashed, equal struct hashes mean the same operation kind, addresses, quorum, nonce and deadline |
| Encoding.DigestInjective | contracts/evm/src/QuorumCustody.sol:264-265 | the same for the signed EIP-712 digest, in both directions |
| Encoding.WithdrawalIdInjective | contracts/evm/src/QuorumCustody.sol:287-293 | without a collision a withdrawal id determines recipient, token, amount and nonce |
| Encoding.BigEndianValue | contracts/evm/src/QuorumCustody.sol:279-285 | the bytes of a word, each weighted by 256 to the power of its place, give the number |
| Encoding.IdLayout | contracts/evm/src/QuorumCustody.sol:287-293 | a withdrawal id is the hash of six words: chain, contract, recipient, token, amount, nonce, in that order |
| Encoding.StructLayout | contracts/evm/src/QuorumCustody.sol:89-94 | a struct hash is over five words: type hash, array hash, quorum, nonce, deadline |
| Encoding.DigestLayout | contracts/evm/src/QuorumCustody.sol:264-265 | a digest is the hash of the prefix bytes, the domain separator and the struct hash |
| Encoding.ArrayLayout | contracts/evm/src/QuorumCustody.sol:279-285 | an address array is hashed as one word for each address, in order |
| SignerTable.PushAllExact | contracts/evm/src/QuorumCustody.sol:97-99 | a batch is accepted iff duplicate-free, without the zero address and disjoint from the signers; the array then gains exactly the batch |
| SignerTable.SwapPopExact | contracts/evm/src/QuorumCustody.sol:135-142 | swap-and-pop removes exactly one element and creates no duplicate, also in the self-swap case |
| SignerTable.RemoveAllExact | contracts/evm/src/QuorumCustody.sol:129-144 | a batch is accepted iff pairwise distinct current signers; the result is the set difference, the length falls by the batch size, map and array still agree |
| SignerTable.SignatureLoopExact | contracts/evm/src/QuorumCustody.sol:268-275 | the loop accepts iff the recovered authors are ascending current signers other than the caller |
| SignerTable.VerifySound | contracts/evm/src/QuorumCustody.sol:264-277 | acceptance names co-signers of this digest who with the caller are at least quorum distinct current signers |
| SignerTable.VerifyComplete | contracts/evm/src/QuorumCustody.sol:264-277 | any quorum - 1 other signers who can sign the digest have a signature list that is accepted |
| QuorumSpec.ConstructInv | contracts/evm/src/QuorumCustody.sol:62-72 | deployment succeeds iff quorum and signer list are proper, and establishes the invariant |
| QuorumSpec.AdminExact | contracts/evm/src/QuorumCustody.sol:79-150 | an accepted signer change yields exactly the union or difference, one nonce step, quorum bounds kept; nothing else moves |
| QuorumSpec.AdminAuthorised | contracts/evm/src/QuorumCustody.sol:74-96 | behind an accepted change stand at least quorum distinct current signers of the digest for the nonce in force, within the deadline |
| QuorumSpec.CallbackExact | contracts/evm/src/QuorumCustody.sol:243-250 | whatever the callee does, the signer invariant holds and withdrawals, approvals and balances are untouched |
| QuorumSpec.DepositExact | contracts/evm/src/QuorumCustody.sol:156-167 | an accepted deposit credits exactly its amount to its token |
| QuorumSpec.FinalizeExact | contracts/evm/src/QuorumCustody.sol:195-213 | one approval is added; the request is paid and cleared iff the current signers among the approvers reach the required quorum |
| QuorumSpec.CoSignedIff | contracts/evm/src/QuorumCustody.sol:264-277 | co-signatures pass iff enough other current signers have signed this digest, in ascending order |
| QuorumSpec.AddAcceptedIff | contracts/evm/src/QuorumCustody.sol:79-105 | exactly when an addition is accepted, on the fields of the storage; the quorum asked for takes effect |
| QuorumSpec.RemoveAcceptedIff | contracts/evm/src/QuorumCustody.sol:107-150 | exactly when a removal is accepted; the quorum asked for takes effect |
| QuorumSpec.DepositAcceptedIff | contracts/evm/src/QuorumCustody.sol:156-167 | exactly when a deposit is accepted |
| QuorumSpec.StartAcceptedIff | contracts/evm/src/QuorumCustody.sol:169-193 | exactly when a start is accepted, and the record it leaves |
| QuorumSpec.FinalizeAcceptedIff | contracts/evm/src/QuorumCustody.sol:195-255 | an approval is accepted iff signer, known, unfinished, within the hour and new, and either below the required quorum or covered, paid out successfully and not native to the contract |
| QuorumSpec.RejectAcceptedIff | contracts/evm/src/QuorumCustody.sol:215-224 | exactly when a rejection is accepted, and what it leaves |
| QuorumSpec.PaidRecord | contracts/evm/src/QuorumCustody.sol:236-255 | a paid record is finished, without recipient, token and amount, with its time and required quorum |
| QuorumSpec.ExecInv | contracts/evm/src/QuorumCustody.sol:54-60 | every transaction keeps array and map in agreement, 1 <= quorum <= signer count, and well-formed requests |
| QuorumErrors.AdminErrorExact | contracts/evm/src/QuorumCustody.sol:79-144 | a rejected signer change reports the first condition it does not meet, the first bad signature or address included |
| QuorumErrors.DepositErrorExact | contracts/evm/src/QuorumCustody.sol:156-164 | a rejected deposit reports the first condition it does not meet |
| QuorumErrors.StartErrorExact | contracts/evm/src/QuorumCustody.sol:176-180 | a rejected start reports the first condition it does not meet |
| QuorumErrors.FinalizeErrorExact | contracts/evm/src/QuorumCustody.sol:195-250 | a rejected approval reports the first condition it does not meet, up to the failed payout |
| QuorumErrors.RejectErrorExact | contracts/evm/src/QuorumCustody.sol:215-220 | a rejected rejection reports the first condition it does not meet |
| QuorumCustodyContract.QuorumCustody.Deploy | contracts/evm/src/QuorumCustody.sol:62-72 | the constructor with its push loop, or its error and no contract |
| QuorumCustodyContract.QuorumCustody.AddSigners | contracts/evm/src/QuorumCustody.sol:79-105 | guards, co-signatures, nonce, push loop; a failure undoes everything |
| QuorumCustodyContract.QuorumCustody.RemoveSigners | contracts/evm/src/QuorumCustody.sol:107-150 | guards, co-signatures, nonce, nested removal loop; a failure undoes everything |
| QuorumCustodyContract.QuorumCustody.SearchAndPop | contracts/evm/src/QuorumCustody.sol:135-142 | the inner search loop overwrites the first occurrence with the last element and pops |
| QuorumCustodyContract.QuorumCustody.AddSigner | contracts/evm/src/QuorumCustody.sol:228-234 | pushes a new nonzero signer, or fails without effect |
| QuorumCustodyContract.QuorumCustody.VerifyCoSignatures | contracts/evm/src/QuorumCustody.sol:264-277 | the loop returns the first violated check, or the missing quorum |
| QuorumCustodyContract.QuorumCustody.Deposit | contracts/evm/src/QuorumCustody.sol:156-167 | credits native value or tokens, with the token's call-back |
| QuorumCustodyContract.QuorumCustody.StartWithdraw | contracts/evm/src/QuorumCustody.sol:169-193 | creates the pending request with time and quorum of the moment |
| QuorumCustodyContract.QuorumCustody.CountValidApprovals | contracts/evm/src/QuorumCustody.sol:257-262 | the counting loop yields the size of the set of current signers who approved |
| QuorumCustodyContract.QuorumCustody.FinalizeWithdraw | contracts/evm/src/QuorumCustody.sol:195-213 | records the approval and executes at the threshold; a failed payout also takes the approval back |
| QuorumCustodyContract.QuorumCustody.ExecuteWithdrawal | contracts/evm/src/QuorumCustody.sol:236-255 | marks, pays, lets the recipient call back, clears |
| QuorumCustodyContract.QuorumCustody.RunCallback | contracts/evm/src/QuorumCustody.sol:245-249 | the callee's calls, each succeeding or reverting on its own |
| QuorumCustodyContract.QuorumCustody.RejectWithdraw | contracts/evm/src/QuorumCustody.sol:215-224 | closes an expired pending request |
| QuorumRuns.ReachableInv | contracts/evm/src/QuorumCustody.sol:58-60 | the signer-table invariant holds in every reachable state |
| QuorumRuns.OnlySignersAct | contracts/evm/src/QuorumCustody.sol:74-77 | a transaction of a non-signer other than a deposit changes nothing |
| QuorumRuns.StepRequest | contracts/evm/src/QuorumCustody.sol:169-255 | everything one transaction can do to one withdrawal record, with the time window of each |
| QuorumRuns.StepApprovals | contracts/evm/src/QuorumCustody.sol:202-205 | approvals of a withdrawal grow only by the sender of an accepted call within the hour |
| QuorumRuns.StepLifecycle | contracts/evm/src/QuorumCustody.sol:180-223 | each id moves only None -> Pending -> Executed or Rejected |
| QuorumRuns.Lifecycle | contracts/evm/src/QuorumCustody.sol:199-222 | finished records never change; a pending one keeps its terms and its required quorum |
| QuorumRuns.RejectableNeverFinalizes | contracts/evm/src/QuorumCustody.sol:201-220 | once rejection is possible by time, no later approval is accepted |
| QuorumRuns.Resolvable | contracts/evm/src/QuorumCustody.sol:215-224 | in every reachable state there are signers, and any of them can reject an expired pending withdrawal |
| QuorumRuns.StartOf | contracts/evm/src/QuorumCustody.sol:182-189 | every known withdrawal was started, at the time and under the quorum it carries |
| QuorumRuns.ApprovalOf | contracts/evm/src/QuorumCustody.sol:195-205 | every recorded approval was made by that address in an accepted call within the hour |
| QuorumRuns.QuorumSafety | contracts/evm/src/QuorumCustody.sol:169-213 | an executed withdrawal had, at execution, at least the quorum of its start of distinct current signers who each approved it themselves within one hour of its start |
| QuorumRuns.ExecutedOnce | contracts/evm/src/QuorumCustody.sol:200-241 | no id is executed twice in a run |
| QuorumMoney.Conservation | contracts/evm/src/QuorumCustody.sol:156-255 | each balance is deposits minus executed withdrawals plus those paid to the contract itself |
| QuorumMoney.ConservationIff | contracts/evm/src/QuorumCustody.sol:236-255 | the plain equation holds iff no executed withdrawal of the token had the contract itself in its record |
| QuorumMoney.ConservedWithoutSelfStarts | contracts/evm/src/QuorumCustody.sol:169-193 | it holds in every run in which no accepted start call of that token names the contract |
| QuorumMoney.NeverOverdrawn | contracts/evm/src/QuorumCustody.sol:243-250 | what left custody never exceeds what was deposited |
| QuorumMoney.PaysStartedAmount | contracts/evm/src/QuorumCustody.sol:182-250 | an execution pays exactly the amount and token of its start call and moves no other balance |
| QuorumMoney.SelfPayoutKeepsBalance | contracts/evm/src/QuorumCustody.sol:248-249 | a run in which the plain equation fails |
| QuorumAdmin.ReentryExact | contracts/evm/src/QuorumCustody.sol:243-250 | signers, quorum and nonce change through signer-management calls and in no other way |
| QuorumAdmin.LedgerOf | contracts/evm/src/QuorumCustody.sol:79-150 | every run has a ledger of its signer changes |
| QuorumAdmin.NonceCounts | contracts/evm/src/QuorumCustody.sol:96-129 | the nonce is the number of accepted signer changes of the run |
| QuorumAdmin.HistoryNumbered | contracts/evm/src/QuorumCustody.sol:89-129 | the i-th accepted change, inside a payout or not, was made at nonce i in a sound state |
| QuorumAdmin.SingleUse | contracts/evm/src/QuorumCustody.sol:89-129 | no digest is accepted at two different changes of a run |
| QuorumAdmin.EveryChangeCoSigned | contracts/evm/src/QuorumCustody.sol:79-129 | each change of a run has at least quorum distinct current signers behind it, for its own nonce |
| QuorumAdmin.HistoryChained | contracts/evm/src/QuorumCustody.sol:100-149 | the quorum moves from one signer change to the next and in no other way |
| QuorumAdmin.LowestIsMinimum | contracts/evm/src/QuorumCustody.sol:85-149 | the floor is the minimum of the initial quorum and the signer counts right after each change |
| QuorumAdmin.QuorumFloor | contracts/evm/src/QuorumCustody.sol:85-149 | between transactions and right after every signer change, also inside a payout, the quorum is at least the smaller of the initial quorum and the smallest signer count seen |
| QuorumFloors.BoundaryFloorIff | contracts/evm/src/QuorumCustody.sol:85-149 | counted between transactions only, the floor holds iff in each transaction with changes the last one asks for a quorum no lower than the lowest seen |
| QuorumFloors.BoundaryFloorHolds | contracts/evm/src/QuorumCustody.sol:79-150 | it holds in every run in which no transaction adds signers after removing some |
| QuorumFloors.BoundaryFloorFails | contracts/evm/src/QuorumCustody.sol:79-163 | a run, for any hash and any genuine co-signature, with two signers after every transaction in which the quorum falls from 2 to 1 |
| QuorumThreshold.AdminCounts | contracts/evm/src/QuorumCustody.sol:257-262 | an addition raises a count by exactly the approvals it revives, a removal never raises one |
| QuorumThreshold.AddKeepsBelowIff | contracts/evm/src/QuorumCustody.sol:79-105 | exactly when an addition keeps every pending withdrawal below its threshold |
| QuorumThreshold.AlwaysBelowIff | contracts/evm/src/QuorumCustody.sol:79-262 | in every run all pending withdrawals stay below their threshold throughout, inside payouts too, iff every addition found counts plus revived approvals below it |
| QuorumThreshold.PendingStaysBelow | contracts/evm/src/QuorumCustody.sol:195-213 | in particular in runs that revive no approval of a pending withdrawal |
| QuorumThreshold.ThresholdExecutes | contracts/evm/src/QuorumCustody.sol:204-212 | as long as every addition was harmless, an approval executes the withdrawal iff it reaches the threshold exactly |
| QuorumRevival.RevivalReachesThreshold | contracts/evm/src/QuorumCustody.sol:257-262 | for any hash, recipient and genuine co-signatures, a run in which a re-added signer leaves a pending withdrawal at its threshold |
| SimpleSpec.ExecInv | contracts/evm/src/SimpleCustody.sol:34-101 | ids are started and paid at most once, payouts are as started, closing goes one way, a stored amount is cleared iff it was paid, and each balance is the Deposited amounts less what payouts moved, also for tokens that deliver less |
| SimpleSpec.ExecLater | contracts/evm/src/SimpleCustody.sol:66-101 | finished requests never change and the logs only grow |
| SimpleSpec.RolesGuard | contracts/evm/src/SimpleCustody.sol:48-93 | only the NEODAX role starts, only the NITEWATCH role pays or closes |
| SimpleSpec.DepositExact | contracts/evm/src/SimpleCustody.sol:34-46 | exactly when a deposit is accepted; it is announced with its sender and what the balance rose by |
| SimpleSpec.StartExact | contracts/evm/src/SimpleCustody.sol:48-64 | exactly when a start is accepted; it is stored and announced as asked for |
| SimpleSpec.FinalizeExact | contracts/evm/src/SimpleCustody.sol:66-91 | exactly when a withdrawal is paid, and what that leaves |
| SimpleSpec.RejectExact | contracts/evm/src/SimpleCustody.sol:93-101 | exactly when a withdrawal is closed without payment, and what that leaves |
| SimpleSpec.RevertExact | contracts/evm/src/SimpleCustody.sol:34-98 | a rejected call reports the first condition it does not meet |
| SimpleSpec.AnnouncedStays | contracts/evm/src/SimpleCustody.sol:56-63 | every started id is the hash of what its event announces |
| SimpleCustodyContract.SimpleCustody.Deposit | contracts/evm/src/SimpleCustody.sol:34-46 | announces what actually arrived |
| SimpleCustodyContract.SimpleCustody.StartWithdraw | contracts/evm/src/SimpleCustody.sol:48-64 | records and announces a new request |
| SimpleCustodyContract.SimpleCustody.FinalizeWithdraw | contracts/evm/src/SimpleCustody.sol:66-91 | clears, then pays; a failed transfer reverts all of it |
| SimpleCustodyContract.SimpleCustody.RejectWithdraw | contracts/evm/src/SimpleCustody.sol:93-101 | closes a request without paying |
| Decimal.RoundTrip | internal/store/adapter.go:66-97 | every amount written as decimal text is read back unchanged |
| Decimal.Canonical | internal/store/adapter.go:66-66 | the text has no leading zero and a minus sign exactly before negatives |
| Decimal.ParseIff | internal/store/adapter.go:93-96 | text reads as a number iff it is digits after an optional sign |
| Store.QueryIsSum | internal/store/adapter.go:74-100 | filtering rows and adding their text gives the sum of the saved amounts in scope since the given time |
| Store.TokenTotal | internal/store/adapter.go:74-80 | a query by token adds up exactly the amounts of the rows with that token from that time on |
| Store.UserTotal | internal/store/adapter.go:82-88 | a query by user and token adds up exactly the amounts of the rows with both from that time on |
| Store.SumFailsIff | internal/store/adapter.go:90-100 | adding up fails iff some text is no number, and names the first such row |
| Store.SaveRaisesTotals | internal/store/adapter.go:61-88 | saving raises the totals of the row's token and user by its amount, for starting times up to its own, and no others |
| Store.SumStoredAmounts | internal/store/adapter.go:90-100 | the loop returns the sum, or the first row whose text is no number |
| Store.Adapter.Save | internal/store/adapter.go:61-72 | adds exactly the row, field by field, unless its id is taken or the database refuses; then nothing changes |
| Store.Adapter.GetTotalWithdrawn | internal/store/adapter.go:74-80 | the sum over exactly the rows with that token and from that time on, or the database error |
| Store.Adapter.GetTotalWithdrawnByUser | internal/store/adapter.go:82-88 | the sum over exactly the rows with that user and token and from that time on, or the database error |
| Store.Adapter.GetCursor | internal/store/adapter.go:102-112 | the stored position with the log index cut to 32 bits; zero when missing or unreadable |
| Store.Adapter.RecordWithdrawEvent | internal/store/adapter.go:114-140 | inserts unless known and overwrites the cursor, or changes nothing |
| Store.Adapter.HasWithdrawEvent | internal/store/adapter.go:124-128 | known iff a row exists and the count works |
| Windows.InCell | internal/checker/checker.go:77-89 | a time lies in the k-th aligned window iff it is of the k-th clock hour, or day |
| Windows.SinceCell | internal/checker/checker.go:77-89 | truncation: a time is not before the start of the window around now iff its clock hour, or day, is not before that of now |
| Windows.SlidingBound | internal/checker/checker.go:77-89 | a bound on aligned windows bounds any interval by ceil(L/H) + 1 times it |
| Windows.AnyHour | internal/checker/checker.go:77-86 | any 60 minutes hold at most twice the bound of an aligned hour |
| Checker.CheckExact | internal/checker/checker.go:49-147 | at any clock readings and whatever queries fail, the check accepts iff amount, user and token are proper and each configured query works and its rows from the present clock hour or day on leave room |
| Checker.CheckInWindows | internal/checker/checker.go:77-147 | with no record ahead of the clock that is: the rows of this clock hour and this day leave room |
| Checker.ObjectionExact | internal/checker/checker.go:49-147 | an objection names the first thing wrong: amount, user, token, hour and day of the token, hour and day of the user |
| Checker.CheckDownwardClosed | internal/checker/checker.go:49-66 | any smaller positive amount passes too, and store failures only ever reject |
| Checker.PolicyChecker.Check | internal/checker/checker.go:49-66 | sanity, then global, then per-user limits; the first objection wins |
| Checker.PolicyChecker.CheckGlobalLimits | internal/checker/checker.go:68-101 | the verdict of the token's hourly and daily windows |
| Checker.PolicyChecker.CheckUserLimits | internal/checker/checker.go:112-147 | the verdict of the user's override, none without one |
| Checker.PolicyChecker.Record | internal/checker/checker.go:149-151 | adds exactly the row to the limit log, or fails and changes nothing |
| PipelineLimits.RecordKeepsBound | internal/checker/checker.go:77-86 | room found at one time is still enough for a record stamped later, in the same window or a later one |
| PipelineLimits.RateLimitSafety | service/service.go:225-290 | in every run, the rows of any token with limits, and of any user with an override for a token, stay within the hourly and daily limit in any clock hour and on any day |
| PipelineLimits.SlidingLimitSafety | internal/checker/checker.go:68-147 | in every run, the rows of any interval stay within ceil(L/H) + 1 times the limit, by token and by user |
| PipelineLimits.CheckStepsAreVerdict | internal/checker/checker.go:49-66 | the two check steps at their two clock readings clear an event iff the check has no objection |
| PipelineLimits.CheckStepsExact | internal/checker/checker.go:49-147 | in every reachable state, at one reading and with a working store, they clear exactly the events that fit next to what is recorded of this clock hour and this day |
| PipelineOnce.ReceiptMeansPaid | service/service.go:267-276 | a successful receipt means the chain paid the very event being handled |
| PipelineOnce.ExactlyOnce | service/service.go:199-300 | in every run each id is paid at most once and has at most one decision row; limit rows stand for equal payouts; approved implies paid |
| PipelineOnce.NothingIsRevised | internal/store/adapter.go:114-122 | decision rows, limit rows and payouts are only appended |
| PipelineOnce.RejectionIsFinal | service/service.go:228-250 | an id whose rejection succeeded on chain is never paid |
| PipelineRecord.DecisionRowsTrue | service/service.go:215-223 | in every run each decision row has the user, token and amount announced under its id, and block, hash and index of an event received with that id |
| PipelineRecord.LogRowsTrue | service/service.go:279-287 | in every run each limit-log row has the user, token and amount announced under its id, and hash and block of a finalization of it that succeeded |
| PipelineRecord.ApprovedIsCounted | service/service.go:288-293 | in a run in which no limit-log row is refused, every row "approved" has its limit-log row, as announced |
| PipelineRecord.ReceiptExact | service/service.go:267-276 | a receipt says exactly whether the transaction took effect: paid, or closed |
| PipelineRecord.StampExact | service/service.go:279-287 | a record is stamped with the clock and repeats event and receipt |
| PipelinePay.PaidIsCleared | contracts/evm/src/SimpleCustody.sol:66-91 | a started id was paid iff its stored amount is zero |
| PipelinePay.PayableIff | contracts/evm/src/SimpleCustody.sol:66-101 | at any moment of any run a started withdrawal has been paid or can still be paid iff its amount is cleared, or it is neither finished nor a native transfer to the contract |
| PipelinePay.RowPayableIff | service/service.go:205-300 | the same of the withdrawal of any decision row, "failed" in particular; only "approved" means paid by itself |
| PipelineReject.RejectionClosesIff | contracts/evm/src/SimpleCustody.sol:93-101 | a mined rejection closes its withdrawal iff the account holds the role and the request is unfinished |
| PipelineReject.RejectedRowMined | service/service.go:239-250 | behind every row "rejected" of a run there is a step that mined a rejection of that id |
| PipelineReject.MinedRejectionIff | contracts/evm/src/SimpleCustody.sol:93-101 | after a mined rejection the withdrawal has been paid or can still be paid iff its amount was cleared before, or it was unfinished, payable, and the account lacked the role |
| PipelineReject.RejectionDecides | service/service.go:228-250 | the same for a rejection mined anywhere in a run, which being paid at the end implies; under the role an id is paid at the end iff it was paid before |
| PipelineReject.RejectedUnpaidIff | service/service.go:228-250 | behind a row "rejected" a rejection was mined, after which its withdrawal was unpaid for good iff its amount was not cleared and the account had the role, or the request was finished, or it was a native transfer to the contract |
| PaidUnapproved.PaidThenRejected | service/service.go:225-250 | a run that ends with one row, "rejected", of an id paid while the daemon was down |
| PaidUnapproved.RejectedThenPaid | service/service.go:239-250 | a run that ends with one row, "rejected", of an id paid after the account lost its role |
| PaidUnapproved.PaidThenFailed | service/service.go:253-299 | a run that ends with one row, "failed", of an id paid while the daemon was down |
| Service.Daemon.ProcessWithdrawal | service/service.go:199-300 | handling one event is a path of the protocol from its receipt to its decision, without any other event |
| TurnOutcome.TurnDecides | service/service.go:199-300 | a whole turn records "approved" iff it got a successful receipt of its finalization, "rejected" iff it got a receipt of its rejection, else "failed"; it rejects only what the check objected to and approves only what it did not |
| Service.Daemon.RunCheck | internal/checker/checker.go:49-66 | the two parts of the check, at two clock readings |
| Service.Daemon.RejectByPolicy | service/service.go:225-251 | send a rejection, wait, record, whatever the receipt |
| Service.Daemon.FinalizeAllowed | service/service.go:253-299 | send a finalization, wait, and record success or error |
| Service.Daemon.SaveApproved | service/service.go:276-293 | stamp, save if possible, record the approval in any case |
| Service.Daemon.RecordEvent | service/service.go:302-306 | record the decision, or go on without |
| Service.Daemon.ReadStart | service/service.go:165-168 | the start position: the stored cursor, or zero when it cannot be read |
| Service.Daemon.TakeUp | service/service.go:172-174 | one event is awaited while others act, and handled once the contract has emitted it |
| Service.Daemon.RunWorker | service/service.go:172-174 | one event after the other, each taken up once emitted, also while the loop runs; every event emitted before the start gets its turn; limit and exactly-once invariants are kept and nothing is revised |
| Listener.ReconcileBlockRange | custody/listener.go:268-344 | the loop with clamping, halving, advised ranges and paging, for any provider, computes `Iterate` |
| Listener.SendUnseen | custody/listener.go:332-339 | sends the logs after the resume point, in order |
| Listener.FirstRequest | custody/listener.go:281-295 | the first request is a page from the resume point, cut off at the head |
| Listener.NextRequest | custody/listener.go:293-342 | after an answer the next request is the next page, the smaller half, the advised range, or the same range, cut off at the head |
| Listener.Coverage | custody/listener.go:281-343 | fetched ranges are contiguous, disjoint and within the head; what is sent is exactly the logs of the covered blocks after the resume point; the end is the head or one past it |
| Listener.HeadFetchedIff | custody/listener.go:285-285 | the head block is fetched iff the loop ends one past it |
| Listener.Halving | custody/listener.go:313-317 | halving shrinks every range wider than two blocks and keeps at least two |
| Listener.Terminates | custody/listener.go:285-343 | the loop ends, by blocks to go, request width and failures left |
| Listener.ReconciliationCompletes | custody/listener.go:285-343 | with a provider that serves two blocks and fails finitely often, everything below the end is delivered |
| Listener.StuckAtTwoBlocks | custody/listener.go:281-317 | from its start the loop fetches nothing if every range of two blocks is too large |
| Listener.EndsIff | custody/listener.go:285-343 | with a provider that serves exactly the ranges up to a width the loop ends iff that is two blocks or more, or nothing is to be fetched |
| Listener.HeadMissedIff | custody/listener.go:282-342 | with a provider that always serves, exactly which distances to the head leave the head block out |
| Replay.Delivered | custody/listener.go:281-343 | a session is sent, in order, exactly the events after its cursor in the blocks it covered |
| Replay.SessionKeepsSafe | internal/store/adapter.go:102-140 | wherever a session is cut off, no event after the cursor has a row, and every event up to it has its one row iff it was so before and no recording succeeded after one that failed |
| Replay.CursorSafe | internal/store/adapter.go:130-140 | through any number of crashes and restarts the cursor is a safe resume point iff in no session a recording succeeded after one that failed |
| Replay.RestartCompletes | service/service.go:164-174 | from a safe resume point with a nonzero cursor, a completed and recorded session leaves each event of the covered blocks with exactly one decision row |
| Resume.TurnInHand | service/service.go:199-306 | wherever the handling of an event is cut off, decisions and cursor are either untouched or exactly those of one handled event, whatever lookups and recordings do |
| Resume.ServingReplays | service/service.go:172-174 | serving events one after the other, cut off anywhere, does to decisions and cursor what handling the completed ones in order does, lookups and recordings failing or not |
| Resume.LivesKeepSafe | internal/store/adapter.go:114-140 | through any number of lives of the daemon as it runs, each cut off at any effect, the cursor is a safe resume point iff in none of them a recording succeeded after one that failed |
| Resume.LifeCompletes | custody/listener.go:281-343 | a life that serves and records all that reconciliation sends leaves each event of the covered blocks with exactly one decision row |
| Resume.Live | service/service.go:164-176 | reading the cursor, reconciling and serving in order is such a life, under the given answers, with limits and exactly-once kept |
| AnyOrder.ServesCourse | service/service.go:172-174 | whatever a life serves is a course of turns |
| AnyOrder.TurnSafeIff | internal/store/adapter.go:114-140 | one turn leaves nothing undecided behind the cursor iff it does not record an event ahead of an undecided one |
| AnyOrder.CourseSafeIff | internal/store/adapter.go:114-140 | served in any order, through crashes and restarts, lookups and recordings failing or not, the cursor is safe after every turn iff no turn records an event ahead of an undecided one |
| CursorGap.GapLosesEvent | service/service.go:302-306 | a run to a safe resume point and a life from there, with a failed and then a successful recording, after which the cursor is past an undecided event |
| CursorGap.LiveFirstLosesEvent | custody/listener.go:251-254 | from the same point a live event served before one of the history does that too |

## Left out

- ThresholdCustody.sol: its signer management is in a library contract that is not part of this model; its withdrawals repeat `QuorumCustody`.
- Events of `QuorumCustody` are not modelled; those of `SimpleCustody` are, because the daemon lives on them.
- Tokens that call for less or more than the amount in `QuorumCustody.deposit`, value forced into the contract, and gas.
- The contract as a sender of its own entry points: it has no code for that, and runs exclude it.
- Block timestamps are positive and 64 bits wide, as in the block header, so the cut in `startWithdraw` has no effect.
- Functions guarded against re-entry are not offered to the callee of an external call: they revert there.
- AccessControl is two role sets that may change at any time; who may change them is not modelled.
- Addresses and ids are stored as checksummed or hexadecimal text; the model keeps the values themselves.
- Time is a count of nanoseconds since the zero time, without zones; how the database compares time text is not modelled.
- The reason text of a decision row and the row's own creation time.
- The live subscription loop of `listenEvents`, back-off waits, repeated tries inside one request and the parsing of provider messages: their outcomes are the provider's answers.
- Listener.Coverage: assumes head heights at least 10002 blocks below the 64-bit limit, so that block numbers do not wrap.
- Replay.RestartCompletes: covers events that come from ordered reconciliation; when live events arrive between them is not modelled, only what any order of serving does to the cursor.
- Limits on chain: totals paid can exceed the limits after a crash or a refused save between payment and record; the limits are proved for the recorded log.
- Configuration parsing, the HTTP server, signal handling, deployment scripts and generated bindings.
