# fwd: the signing daemon's state machine, audit chain and policy, verified

fwd is a daemon that holds Ethereum keys. Clients ask it to sign transactions and Flare Systems Protocol
messages and report back what became of them; it never broadcasts anything itself. This project models what
the daemon keeps (nonces, transactions with their hashes and attempts, rate windows, the audit log), the
policy that decides who may sign what, and the generator that writes that policy.

How it is laid out:

- `Store`, `NonceRepo`, `RateRepo`, `TransactionRepo`, `AuditRepo`: the database as one value, the session
  that commits or rolls it back, and the repositories as classes over a session. Each method states the whole
  database it leaves.
- `SignTransaction`, `Transactions`, `NonceAdmin`, `SignFspMessage`, `PolicyEngine`: every request as the
  imperative handler the source has, proved equal to a step function from database to database and reply
  (`SignStep`, `BroadcastStep`, `ReceiptStep`, `ReplaceStep`, `InitStep`, `SyncStep`, `FspStep`), on every
  path, with early commits before refusals and the rollback after them.
- `GateMeaning`, `SignOutcomes`, `ReportOutcomes`, `AdminOutcomes`, `FspOutcomes`, `AuditRows`: what each request is
  answered, which columns it writes and what it logs, said of the tables, the policy and the request alone and not of
  the step functions' own helpers: when a request must be refused, and when it must not be.
- `Service`: all requests as one state machine. A run is any finite sequence of requests; each acts on the
  ledger tables by one of a few moves.
- `NonceSafety`, `Ladder`, `Idempotency`, `RateEffects`, `RateAccounting`, `DailyCap`, `Refusals`, `PruneSafety`,
  `AuditTrail`: what every run keeps. `ReplacementFee` is the binary64 arithmetic of the fee bump. `WriterLock`
  and `Handlers` carry the run statements over to concurrent sessions.
- `CanonicalJson`, `AuditLog`: the JSON printer with a reader that inverts it, and the hash chain.
- `FspMessage`: the bytes that are hashed for each protocol message.
- `PolicyLoader`, `CheckMeaning`, `CarveOut`, `PolicyNames`, `PolicyInit`, `GeneratedPolicies`, `GeneratedRules`, `GrownGate`,
  `NetworkIsolation`: the consistency check of a policy, what a clean check guarantees about the gate, why generated
  policies are clean, what they say entry by entry, and what the gate then lets through.
- `Witnesses`: concrete inputs at which a property fails.

Hashing, signing, ABI decoding, address checksumming and integer parsing are function-valued fields of
`Environment.Env`; every statement holds for all of them, and where a hash must not collide the statement
names the inputs it needs that for. Clocks, fresh transaction ids and the signer's success or failure are
parameters of a request. The call path below is the gate's path through a `permissions` block, as opposed to
its path for native transfers. The policy, the caps and the reservation lease are fixed for a whole run.

Five places where the code and its own comments disagree; the model follows the code:

- A denial at steps 1 to 9 leaves no rate increment behind, although the comment at
  `src/fwd/app/sign_transaction.py:271-276` expects one (`Refusals.SignRefusalCounters`). A denial at step 0,
  an error caught after step 8 has counted, keeps the increment (`RateEffects.StepZeroIff` says when).
- A denial of an FSP request counts nothing, although the comment at `src/fwd/app/sign_fsp_message.py:158` says that
  it keeps the rate increment (`RateAccounting.RunFspCounter`, `Refusals.FspRefusal`).
- In a windowed walk of the audit log the separate verdict on a tampered anchor is never given, since the
  first row's link fails first (`AuditRepo.Repo.Verify`).
- The recipient of a claim is said to be pinned (`src/fwd/cli/policy.py:158-161`). It is, unless it is given as
  "any", the word that leaves an argument open (`src/fwd/app/policy_engine.py:210`); nothing refuses that word.
  `GrownGate.RecipientPinnedIff` says so for every value.
- The merge of policies promises that distinct networks never collide
  (`src/fwd/app/policy_init.py:82-92`). Wallet constraint paths can: the constraint of `fsp-signing-submit-x`
  is that of `fsp-submit-x`, and with `--fsp-sender shared` every network is paid under `wc/fsp-sender`, which each
  such run writes again. `PolicyNames.ConstraintPathClash` says exactly which paths coincide,
  `NetworkIsolation.UnnamedNetworkIsolated` exactly when a run leaves every constraint of another network alone, the
  shared sender's included, and `Witnesses.MergeRewritesUnnamedRate` and `Witnesses.MergeRewritesSharedRate` exhibit
  runs that do not.

## Model

| member | source | states |
|---|---|---|
| Store.Session.Leave | src/fwd/infra/db.py:97-118 | leaving a session commits its view unless an exception is propagating, which restores the last commit |
| NonceRepo.ReserveThenRelease | src/fwd/infra/nonce_repo.py:103-162 | a release right after a reservation always succeeds and restores the table exactly |
| NonceRepo.Repo.InitForWallet | src/fwd/infra/nonce_repo.py:54-101 | creates a missing row, overwrites an existing one only when forced, fails on an unknown wallet |
| NonceRepo.Repo.ReserveNext | src/fwd/infra/nonce_repo.py:103-139 | hands out the row's next nonce and advances it by one; fails without a row |
| NonceRepo.Repo.ReleaseIfUnused | src/fwd/infra/nonce_repo.py:141-162 | gives a nonce back only if it is the last one handed out |
| NonceRepo.Repo.MarkConfirmedAt | src/fwd/infra/nonce_repo.py:164-182 | raises the last confirmed nonce, never lowers it |
| NonceRepo.Repo.SetNextNonce | src/fwd/infra/nonce_repo.py:203-214 | jumps to a value and records the one before it as confirmed |
| RateWindows.BumpCounter | src/fwd/infra/rate_repo.py:140-184 | counting an admission adds one to exactly the buckets the request hits, whichever windows are configured |
| RateWindows.DropCounter | src/fwd/infra/rate_repo.py:186-227 | a release takes one from exactly those buckets and never goes below zero |
| RateWindows.AdmittedWithinCap | src/fwd/infra/rate_repo.py:118-140 | an admitted request found every bucket it hits below its cap |
| RateWindows.WalletBumpEffect | src/fwd/infra/rate_repo.py:334-425 | the wallet counters move the same way and the committed value is untouched |
| RateWindows.WalletDropEffect | src/fwd/infra/rate_repo.py:427-461 | the same for a wallet release |
| RateWindows.WindowIsExact | src/fwd/infra/rate_repo.py:69-81 | a window starts at the one whole hour or day of the epoch at most that long before the instant |
| RateRepo.Repo.CheckAndIncrementCaller | src/fwd/infra/rate_repo.py:108-184 | all configured windows have room and all are counted, or none is; without a rate nothing is admitted |
| RateRepo.Repo.ReleaseCaller | src/fwd/infra/rate_repo.py:186-227 | uncounts the configured windows |
| RateRepo.Repo.CheckAndIncrementFspCaller | src/fwd/infra/rate_repo.py:229-294 | the same check-then-count over the FSP table |
| RateRepo.Repo.ReleaseFspCaller | src/fwd/infra/rate_repo.py:296-332 | the same release over the FSP table |
| RateRepo.Repo.CheckAndIncrementWalletRow | src/fwd/infra/rate_repo.py:334-425 | daily value cap, then rate windows; an unreadable cap is an error that counts nothing |
| RateRepo.Repo.ReleaseWalletRow | src/fwd/infra/rate_repo.py:427-461 | uncounts the wallet's windows |
| RateRepo.Repo.AddCommittedValue | src/fwd/infra/rate_repo.py:463-504 | adds a value to the wallet's day and to nothing else |
| RateRepo.Repo.DeleteStaleRows | src/fwd/infra/rate_repo.py:506-521 | a bucket of any of the three tables is kept, with its row unchanged, exactly when its window began at or after the cutoff; the number deleted is returned |
| TransactionRepo.Repo.Create | src/fwd/infra/transaction_repo.py:120-183 | appends one row, or fails on an id in use and changes nothing |
| TransactionRepo.Repo.FindByIdempotencyKey | src/fwd/infra/transaction_repo.py:185-223 | the row found has this caller and this key; when none is found, no row has both |
| TransactionRepo.Repo.HasStaleReservation | src/fwd/infra/transaction_repo.py:332-352 | true exactly when a pending row of the wallet and chain was reserved before the cutoff |
| TransactionRepo.Repo.UpdateStatus | src/fwd/infra/transaction_repo.py:408-431 | the row gets the status and the dates and receipt that are given; its other columns, every other row and every other table are unchanged |
| TransactionRepo.CountInFlightCounts | src/fwd/infra/transaction_repo.py:391-406 | the count is the number of pending or submitted rows of the wallet and chain |
| PolicyEngine.FindContractRule | src/fwd/app/policy_engine.py:138-154 | the first contract whose address matches in lower case |
| PolicyEngine.CheckPredicates | src/fwd/app/policy_engine.py:207-238 | the first argument predicate that refuses, if any |
| PolicyEngine.Evaluate | src/fwd/app/policy_engine.py:54-292 | the ten-step gate as it runs: its decision, and every counter it leaves, in each of its outcomes |
| PolicyEngine.CountAdmitted | src/fwd/app/policy_engine.py:244-292 | steps 8 and 9: what is counted and what a refusal at step 9 undoes |
| PolicyEngine.ReleaseRateAfterFailure | src/fwd/app/policy_gate.py:60-98 | derives the released keys again from decision and policy; nothing without a permissions block |
| GateMeaning.MismatchIsExact | src/fwd/app/policy_engine.py:207-238 | an argument predicate lets a call through exactly when it is "any", or the argument was decoded and agrees: booleans as booleans, integers as parsed, addresses in lower case, other text as it is |
| GateMeaning.DecodeIsExact | src/fwd/app/policy_engine.py:156-184 | calldata decodes to a call exactly when it spells whole bytes, prefix or not, whose selector the ABI has and whose arguments decode |
| GateMeaning.CallIsExact | src/fwd/app/policy_engine.py:84-242 | steps 1 to 7 admit a call exactly when its caller is bound to a block, the first contract at that address lists its chain, its calldata decodes to a listed method, the value fits, every argument agrees and the wallet is listed; and what is admitted is that call |
| GateMeaning.EarlyStepsAreExact | src/fwd/app/policy_engine.py:97-154 | steps 1 and 2 answer exactly when binding or block, contract or chain is missing; empty calldata is step 3 |
| GateMeaning.NamedStepsAreExact | src/fwd/app/policy_engine.py:156-192 | for a named contract step 3 answers exactly when the calldata decodes to nothing; an unlisted method is step 4 |
| GateMeaning.NativeIsExact | src/fwd/app/policy_engine.py:295-324 | a native transfer is admitted exactly with no calldata, on a listed chain, to a listed recipient, for a positive value within the limit, from a listed wallet; and which of steps 2, 5 and 7 answers otherwise |
| GateMeaning.GateIsExact | src/fwd/app/policy_engine.py:244-292 | the gate allows exactly what steps 1 to 7 admit when every configured window of the caller has room and the wallet is bound, under its daily cap and its rate; step 8 answers exactly when the caller has no room |
| GateMeaning.AllowedCallPasses | src/fwd/app/policy_engine.py:207-242 | every call the gate allows satisfies every argument predicate of the rule it matched, and the rest of the conditions |
| GateMeaning.StepSixIsExact | src/fwd/app/policy_engine.py:207-238 | step 6 refuses a call exactly when its method and value are open and some predicate is neither "any" nor satisfied |
| SignTransaction.PostSignTransaction | src/fwd/app/sign_transaction.py:134-474 | the whole request, with each refusal committing its row before the rollback, leaves committed what the step function says |
| SignTransaction.RunReplay | src/fwd/app/sign_transaction.py:152-217 | a known key: the stored result for the stored body, a committed conflict row for another |
| SignTransaction.RunReserved | src/fwd/app/sign_transaction.py:337-474 | from the reserved nonce on: a failure gives nonce and rates back and commits one row, success adds one row to each table |
| SignOutcomes.SignReplyIsExact | src/fwd/app/sign_transaction.py:134-474 | which reply every signing request gets: a wedge refusal exactly for an allowed request whose wallet and chain have a transaction pending since before the lease, and a signature for an allowed one with none, a nonce row, a working signer and a new id |
| SignOutcomes.ReplayIsExact | src/fwd/app/sign_transaction.py:152-217 | a key some row holds gets what that row recorded for the recorded body, a conflict for another, and neither changes a table or a counter |
| SignOutcomes.SignWritesAreExact | src/fwd/app/sign_transaction.py:310-453 | a new signing advances the one nonce row by one and appends one transaction, hash and attempt, column by column the request's own, signed at that nonce; any other reply leaves all four tables |
| Transactions.CheckReport | src/fwd/api/transactions.py:110-188 | ownership, recorded hash, legal source status, in that order; the last two refusals commit a row |
| Transactions.PostBroadcastResult | src/fwd/api/transactions.py:234-312 | accepted marks submitted; both rejections mark failed, and only the releaseable one gives the nonce back |
| Transactions.PostReceipt | src/fwd/api/transactions.py:318-385 | marks mined or reverted, confirms the nonce, debits the day only on success |
| Transactions.PostSignReplacement | src/fwd/api/transactions.py:388-669 | every refusal in order with its row, a failed signing that keeps the nonce, and the next attempt and hash on success |
| ReportOutcomes.GuardIsExact | src/fwd/api/transactions.py:110-188 | which of the three report refusals is given, and that a report passes exactly on an own transaction, a recorded hash and the one source status |
| ReportOutcomes.BroadcastIsExact | src/fwd/api/transactions.py:252-312 | an accepted report and a nonce-too-low rejection leave every nonce row; a releaseable one takes the row back by one exactly when its nonce was the last handed out; status and submission time per outcome, and no other row |
| ReportOutcomes.BroadcastRefusalIsExact | src/fwd/api/transactions.py:110-188 | every other broadcast report is refused for the reason it deserves and leaves tables and counters |
| ReportOutcomes.ReceiptIsExact | src/fwd/api/transactions.py:336-385 | a receipt marks its transaction, raises the confirmed nonce and never lowers it, and debits the wallet's day exactly on success |
| ReportOutcomes.RefusedIsExact | src/fwd/api/transactions.py:407-585 | when a replacement is refused and for which reason, in order; five attempts are the limit |
| ReportOutcomes.RecordedDataIsExact | src/fwd/api/transactions.py:564-585 | the calldata of a replacement is the recorded one, and there is none exactly when the record cannot be read or its calldata is missing, no text or empty |
| ReportOutcomes.ReplacementIsExact | src/fwd/api/transactions.py:388-669 | what a replacement of an own transaction is answered, and that a signed one appends the next attempt and hash for the original intent at the original nonce and nothing else |
| ReplacementFee.MinPriorityIsNineEighths | src/fwd/api/transactions.py:437-438 | below 1000799917193444 wei the binary64 computation yields (9p+7)/8 in integer division, and q meets it exactly when 8q is at least 9p |
| ReplacementFee.MinPriorityBeyond | src/fwd/api/transactions.py:437 | in the next binade the rounded product asks for too little exactly when p leaves 1 modulo 8 |
| ReplacementFee.BumpLawIff | src/fwd/api/transactions.py:437-438 | every bump accepted under a cap on fees is at least an eighth exactly when the cap is below 2^50 + 6 |
| NonceAdmin.PostNonceInit | src/fwd/api/nonce.py:78-178 | guarded initialisation: already there, in flight, unknown wallet, or the row as asked |
| NonceAdmin.PostNonceSync | src/fwd/api/nonce.py:199-308 | a forward jump within the bound, and an audited refusal otherwise |
| AdminOutcomes.InitIsExact | src/fwd/api/nonce.py:78-196 | initialisation is refused over a row unless forced, over transactions holding a nonce unless overridden, and over an unknown wallet, exactly then; else the row starts at the given nonce with nothing confirmed |
| AdminOutcomes.SyncIsExact | src/fwd/api/nonce.py:199-308 | synchronisation moves the row exactly when the chain is ahead by at most the configured advance, and never back |
| AdminOutcomes.PruneIsExact | src/fwd/main.py:245-251 | pruning keeps a counter exactly when its window began at most two days before, and everything else |
| SignFspMessage.PostSignFspMessage | src/fwd/app/sign_fsp_message.py:124-261 | the whole request with its three refusal arms |
| SignFspMessage.EvaluateFsp | src/fwd/app/fsp_policy.py:40-105 | the FSP gate: six checks that count nothing, then the rate |
| FspOutcomes.FspGateIsExact | src/fwd/app/fsp_policy.py:40-104 | an FSP request is allowed exactly when its caller is bound without drift to an FSP path that is no EVM path, the block covers its chain, type and wallet, and the rate has room; an uptime vote needs a chain list |
| FspOutcomes.FspReplyIsExact | src/fwd/app/sign_fsp_message.py:124-240 | which reply every FSP request gets, and that a signature is over the message built from it with the wallet it names |
| FspOutcomes.ValidateIsExact | src/fwd/domain/fsp_message.py:93-319 | a message of each type is accepted exactly with the fields of its type and no others, each in its range |
| FspOutcomes.ChainReachesTwoKinds | src/fwd/app/sign_fsp_message.py:161-179 | the chain reaches the message only in reward distributions and registrations that are not legacy |
| FspOutcomes.PreimageIsLaidOut | src/fwd/domain/fsp_message.py:121-311 | at which byte of the hashed message each field of each type lies |
| FspOutcomes.BuiltIsExact | src/fwd/domain/fsp_message.py:93-319 | what is signed: the chained policy hash, SHA-256 of a fast update, Keccak-256 of the rest, over bytes laid out so |
| FspOutcomes.HexRoundTrip | src/fwd/domain/fsp_message.py:66-73 | reading inverts writing bytes as hexadecimal text |
| Service.SignStepEffect | src/fwd/app/sign_transaction.py:152-474 | a signing reply that is not a replay consumed the next nonce, with no stale reservation and within the fee caps; every other reply leaves the ledger alone |
| Service.StepMoves | src/fwd/api/transactions.py:234-669 | every request changes the ledger by exactly the move its reply names, and only when that move is enabled |
| NonceSafety.RunKeepsNonceInv | src/fwd/infra/nonce_repo.py:103-214 | in every run, in-flight nonces of a wallet and chain are distinct, below the next one and never the confirmed one; the confirmed one is below the next |
| NonceSafety.NextNonceIsFree | src/fwd/api/transactions.py:261-312 | the nonce handed out next is neither live nor confirmed, also right after a conditional release |
| NonceSafety.RunKeepsNoReuse | src/fwd/api/nonce.py:104-132 | without overwriting initialisation, no two transactions that have not failed ever share a nonce, synchronisation included |
| NonceSafety.NoGapSinceInit | src/fwd/app/sign_transaction.py:310-434 | from an initialisation on, until synchronised or overwritten, every nonce below the next belongs to a recorded transaction |
| NonceSafety.RunBoundsOvertaking | src/fwd/app/sign_transaction.py:280-308 | with a clock that does not run back, nothing is reserved more than a lease after a transaction that is still pending |
| NonceSafety.ReachableNonces | src/fwd/infra/nonce_repo.py:103-214 | the three run invariants together, from an empty ledger |
| Ladder.RunKeepsLadder | src/fwd/api/transactions.py:434-646 | in every run ids are unique and every transaction has its ladder: attempts and hashes 1..n with n at most 5, matching, within caps, each signing the recorded chain, nonce, recipient, value and calldata |
| Ladder.FeesClimb | src/fwd/api/transactions.py:434-484 | k rungs never lower the maximum fee, and under a cap below 2^50 + 6 multiply the priority fee by at least (9/8)^k |
| Ladder.ShortBumpAccepted | src/fwd/api/transactions.py:434-540 | at or above that cap a replacement within all caps is accepted with less than an eighth more |
| Ladder.ReachableLadder | src/fwd/api/transactions.py:388-669 | both, for every transaction of every run from an empty ledger |
| Idempotency.BodyTextIsExact | src/fwd/app/sign_transaction.py:161-183 | the stored body text equals the incoming one exactly when all eight fields agree |
| Idempotency.CanonicalRecordsData | src/fwd/api/transactions.py:564-577 | calldata recorded with a request is read back unchanged |
| Idempotency.RunGrows | src/fwd/infra/transaction_repo.py:185-279 | in every run at most one transaction per caller and key, identifying columns never change, hashes and attempts are only appended |
| Idempotency.ReplayReturnsOriginal | src/fwd/app/sign_transaction.py:152-217 | after any later run a replay returns the original id, nonce, raw transaction and first hash if the body agrees and a conflict otherwise, touching no ledger table and no counter |
| RateEffects.AdmittedLabel | src/fwd/app/policy_engine.py:84-292 | whoever passes steps 1 to 7 is counted under the rate and method its path gives |
| RateEffects.EvaluationEffect | src/fwd/app/policy_engine.py:244-292 | the gate adds one to the buckets an allowed request hits, nothing on a denial at steps 1 to 9, and stays within caps |
| RateEffects.FailureEffect | src/fwd/app/policy_gate.py:60-98 | a failed signing leaves no trace in caller buckets of the call path, nor in wallet buckets where a permissions block exists |
| RateEffects.FailureExact | src/fwd/app/policy_gate.py:60-98 | a failed signing leaves an increment exactly in the windows it counted in that the permissions block of the path, if any, does not uncount; a wallet increment exactly when the path has no such block |
| RateEffects.StepZeroIff | src/fwd/app/policy_engine.py:54-81 | step 0 is reached exactly when steps 1 to 8 pass and the wallet has a daily cap that is not a decimal; the increment of step 8 then stays |
| RateEffects.SignEffectOnCounters | src/fwd/app/sign_transaction.py:243-453 | one signing request at any bucket: plus one if it signed, exactly so on the call path |
| RateAccounting.ReachableCounters | src/fwd/infra/rate_repo.py:108-227 | in every run and unpruned window: transactions signed are at most the counter, which is at most the cap; equality on the call path; the same per wallet; the day's aggregate is the value mined that day |
| RateAccounting.ReceiptKeepsUp | src/fwd/api/transactions.py:344-391 | a transaction is debited once, on its success, on the day of the report |
| RateAccounting.RunFspCounter | src/fwd/app/fsp_policy.py:40-139 | in every run and unpruned window the FSP counter is exactly the number of messages signed, and within its cap |
| DailyCap.AllowedFitsMined | src/fwd/infra/rate_repo.py:334-425 | every allowed request has a readable value and a constrained wallet, and found the value committed that day plus its own within the cap, if one is set |
| DailyCap.SignedUnderCap | src/fwd/infra/rate_repo.py:359-377 | a signing adds exactly its own value to what is mined or in flight for the day, and what was mined fits under the cap with it |
| DailyCap.CapBindsIff | src/fwd/infra/rate_repo.py:463-504 | once signing stops, no course of reports takes the mined total of a day over a limit exactly when mined plus in-flight value is within it |
| Witnesses.DailyCapOvershot | src/fwd/infra/rate_repo.py:351-353 | two signatures of five wei under a cap of five, then both receipts: the day ends at ten |
| Refusals.SignRefusalRow | src/fwd/app/sign_transaction.py:173-397 | a refused signing request commits exactly one denied or error row and leaves the ledger, or leaves the database as it was |
| Refusals.SignRefusalCounters | src/fwd/app/sign_transaction.py:236-397 | an audited refusal leaves every caller counter of the call path, every wallet counter and every FSP counter, except at step 0 |
| Refusals.SignRefusalExact | src/fwd/app/sign_transaction.py:173-397 | on any path, after any audited refusal: the exact change of every caller counter and every wallet counter, with the guards that decide it |
| Refusals.NativeRefusalKeepsIncrement | src/fwd/app/policy_gate.py:79-98 | for the wedge, nonce and pre-sign refusals: a caller counter is unchanged exactly when the request does not count in it or the path has a permissions block that uncounts that window; a wallet counter exactly when it is not counted or the path has a block |
| Witnesses.NativeIncrementStays | src/fwd/app/policy_gate.py:79-81 | a native transfer refused for a missing nonce row uses up the hour of caller and wallet |
| Witnesses.StepZeroKeepsIncrement | src/fwd/app/policy_engine.py:54-81 | an unreadable daily cap on the call path stops the gate at step 0 and uses up the hour |
| Refusals.FspRefusal | src/fwd/app/sign_fsp_message.py:149-222 | the three FSP arms commit exactly one row and leave every table and counter |
| Refusals.BroadcastRefusal | src/fwd/api/transactions.py:110-188 | a refused broadcast report commits one row and nothing else, or nothing |
| Refusals.ReceiptRefusal | src/fwd/api/transactions.py:110-188 | the same for a receipt |
| Refusals.ReplaceRefusal | src/fwd/api/transactions.py:407-629 | the same for a replacement, including a failed signing |
| Refusals.AdminRefusal | src/fwd/api/nonce.py:86-270 | the same for the admin operations |
| Refusals.SignApprovalRow | src/fwd/app/sign_transaction.py:184-453 | a signing reply appends exactly one approved row, a replay one of its own action |
| Refusals.ApprovalRows | src/fwd/api/transactions.py:234-660 | so does every accepted report and replacement |
| Refusals.AdminApprovalRows | src/fwd/api/nonce.py:134-308 | so does every FSP signature and admin operation |
| AuditRows.SignRowIsExact | src/fwd/app/sign_transaction.py:218-453 | a signing request with a new key logs one row: the caller, the request as it came, decision and reason of its reply, and id, hash and nonce if it signed |
| AuditRows.ReplayRowIsExact | src/fwd/app/sign_transaction.py:152-217 | a repeated key logs one row that names the original transaction, and for a repetition the row that recorded it |
| AuditRows.FindSignSeqIsFirst | src/fwd/infra/audit_repo.py:297-370 | that row is the first approved signing row whose outcome holds the transaction id |
| AuditRows.BroadcastRowIsExact | src/fwd/api/transactions.py:252-312 | so does a broadcast report, with its reason per outcome and whether the nonce was given back |
| AuditRows.RefusedReportRow | src/fwd/api/transactions.py:129-188 | a refused report logs what did not match, unless the transaction is not the caller's |
| AuditRows.ReplaceRowIsExact | src/fwd/api/transactions.py:407-660 | a replacement logs one row: its new number and hash, the reason it was refused, or the signer's failure |
| AuditRows.InitRowIsExact | src/fwd/api/nonce.py:86-196 | an initialisation logs one row, refused or not, with where the row moved from and to |
| AuditRows.SyncRowIsExact | src/fwd/api/nonce.py:210-308 | so does a synchronisation |
| AuditRows.FspRowIsExact | src/fwd/app/sign_fsp_message.py:84-240 | so does an FSP request, with every field as it came |
| PruneSafety.SameStep | src/fwd/infra/rate_repo.py:69-81 | databases alike on recent buckets answer a request alike and stay alike |
| PruneSafety.PruningIsInvisible | src/fwd/main.py:245-251 | every request at or after a pruning is answered, in every run, as if it had not happened |
| AuditTrail.StepOneRow | src/fwd/infra/audit_repo.py:230-295 | no request appends more than one row or rewrites an old one |
| AuditTrail.ReachableTrail | src/fwd/infra/audit_repo.py:372-506 | every reachable log verifies on every window, and no other accepted log ends in the same hash unless the two contain a collision |
| WriterLock.EveryInterleavingIsSerial | src/fwd/infra/db.py:61-118 | whatever the interleaving, what is committed is the serial execution in ending order, and every session saw what it would have seen alone |
| WriterLock.ServiceIsSerial | src/fwd/infra/db.py:97-118 | interleaved sessions that each amount to one request leave a database that a run of those requests leaves |
| Handlers.SigningOutcome | src/fwd/app/sign_transaction.py:134-474 | the signing request, statement by statement with the nonce read in one and written back in the next, commits what its step says |
| Handlers.HandlersAreSerial | src/fwd/infra/db.py:61-118 | for the requests themselves: any interleaving leaves the run of those that ended, in ending order |
| WriterLock.ReservationsDistinct | src/fwd/infra/nonce_repo.py:103-139 | read-then-update reservations committed on one row get distinct nonces in ending order |
| WriterLock.LockIsNeeded | src/fwd/infra/db.py:61-77 | an interleaving the lock rules out hands one nonce to two sessions without it |
| CanonicalJson.RoundTrip | src/fwd/infra/audit_repo.py:58-60 | a printed record reads back as the same fields in the same order |
| CanonicalJson.CanonicalInjective | src/fwd/infra/audit_repo.py:58-60 | two records print alike exactly when they hold the same fields in whatever order |
| CanonicalJson.RecordInjective | src/fwd/infra/audit_repo.py:58-60 | records with the same keys print alike exactly when they agree on every value |
| CanonicalJson.LoadsGet | src/fwd/api/transactions.py:569-576 | any field can be read back from the canonical text |
| AuditLog.RowInputInjective | src/fwd/infra/audit_repo.py:73-101 | distinct rows have distinct hash inputs |
| AuditLog.HashedTextReadsBack | src/fwd/infra/audit_repo.py:73-101 | every column of a row can be read back, by name, from the text that is hashed |
| AuditLog.TextsSeparateRows | src/fwd/infra/audit_repo.py:73-101 | rows collide only where the text hash does |
| AuditLog.AppendChains | src/fwd/infra/audit_repo.py:230-295 | appending keeps numbering, links and hashes, although the stored timestamp has lost its offset |
| AuditLog.ChainedVerifies | src/fwd/infra/audit_repo.py:372-506 | a log built by appending passes the walk over every window |
| AuditLog.WindowsCompose | src/fwd/infra/audit_repo.py:394-460 | a full walk passes with no gap at m exactly when the walks up to m and from m+1 pass |
| AuditLog.EqualHashEqualPast | src/fwd/infra/audit_repo.py:462-506 | equal row hashes at two places of accepted chains force equal histories back to genesis, or a collision |
| AuditLog.LastHashPinsHistory | src/fwd/infra/audit_repo.py:372-506 | accepted full chains with the same last hash have the same length and hashed content, or a collision |
| AuditRepo.Repo.Append | src/fwd/infra/audit_repo.py:230-295 | one linked row, or an error and no change on an unknown action or decision |
| AuditRepo.Repo.Verify | src/fwd/infra/audit_repo.py:372-506 | ok exactly when every row of the window links and recomputes; otherwise the least bad row and the rows read so far; never the anchor verdict |
| FspMessage.SigningPolicyHash | src/fwd/domain/fsp_message.py:76-90 | the loop is the left fold over zero-padded 32-byte chunks; fewer than two chunks is an error |
| FspMessage.PolicyHashSeparates | src/fwd/domain/fsp_message.py:76-90 | at equal padded length the fold separates exactly what the padding separates, and equal-length policies outright, unless its own inputs collide |
| FspMessage.PolicyHashExact | src/fwd/domain/fsp_message.py:76-90 | for policies of any lengths: they hash alike exactly when both are too short, or the shorter one is the longer with its leading chunks replaced by their hash |
| FspMessage.LongerPolicyNotSeparated | src/fwd/domain/fsp_message.py:87-90 | such a pair hashes alike without a collision |
| FspMessage.TrailingZeroNotSeparated | src/fwd/domain/fsp_message.py:83-84 | equal length is needed: a partial last chunk hashes like itself with one more zero byte |
| FspMessage.PreimageInjective | src/fwd/domain/fsp_message.py:176-311 | within a message kind the preimage determines every hashed field, and conversely |
| FspMessage.UptimeIsNotLegacy | src/fwd/domain/fsp_message.py:121-229 | uptime and legacy registration preimages, both 64 bytes, never coincide |
| FspMessage.SameHashSameBody | src/fwd/domain/fsp_message.py:93-319 | two accepted requests of one type, signing policies at equal length included, hash alike exactly when they agree on every hashed field, unless their own inputs collide |
| PolicyLoader.CheckConsistency | src/fwd/infra/policy_loader.py:117-347 | the list holds exactly the violations, and is empty exactly when the policy is consistent |
| PolicyLoader.CheckCapabilities | src/fwd/infra/policy_loader.py:192-208 | reports an id exactly when two callers carry it |
| PolicyLoader.CheckSelfSubmitWallet | src/fwd/infra/policy_loader.py:288-341 | a self-submit wallet passes exactly when known, allowlisted in both domains, and listed only in exempt zero-value blocks |
| CheckMeaning.ConsistentIff | src/fwd/infra/policy_loader.py:117-347 | a policy passes the check exactly when active callers are declared with the path they present and the path exists, capability ids are unique, every ABI, method, wallet and constraint resolves, FSP blocks list only the six message types on paths of their own, opted-in wallets are used on both sides and for the six self-submitted calls only, and every address used on both sides is one of theirs |
| PolicyLoader.FspWalletsMoveNoValue | src/fwd/infra/policy_loader.py:271-345 | after a clean check, an FSP wallet that shares its address with no other exempt wallet gets nothing on the call path but an exempt method of the contract's ABI, for no value, which is zero for a request as the API validates it |
| PolicyLoader.DistinctAddressesNoTwin | src/fwd/infra/policy_loader.py:271-345 | distinct addresses meet that condition |
| Witnesses.TwinPaysOut | src/fwd/infra/policy_loader.py:336-345 | the condition is needed: a clean check after which the gate lets a caller pay five wei from an FSP wallet whose key a second wallet holds |
| CarveOut.CarveOutIff | src/fwd/app/policy_engine.py:131-242 | a wallet moves no value and calls only exempt methods, for every caller and request on the call path, exactly when every method that some calldata reaches in a block a caller is bound to is exempt with a limit of at most zero |
| CarveOut.CleanCheckBounds | src/fwd/infra/policy_loader.py:271-345 | a clean check gives that bound for every FSP wallet without an exempt twin |
| CarveOut.CleanCheckAdmits | src/fwd/infra/policy_loader.py:271-345 | so the gate admits for it, on the call path, only the six self-submitted protocol methods, each on its own contract's ABI, for no value |
| PolicyLoader.NativeTransfersUnchecked | src/fwd/infra/policy_loader.py:234-243 | the call path is all the check bounds: any native-transfer block over known wallets can be added to a clean policy |
| PolicyNames.PermPathInjective | src/fwd/app/policy_init.py:220-657 | a permissions path names one role and one network |
| PolicyNames.CallerNameInjective | src/fwd/app/policy_init.py:220-657 | so does a caller name |
| PolicyNames.WalletNameInjective | src/fwd/app/policy_init.py:220-657 | so does a wallet name |
| PolicyNames.ConstraintPathClash | src/fwd/app/policy_init.py:82-92 | two constraint paths coincide exactly when they are one wallet's, or one network is named like a dedicated wallet of the other |
| PolicyInit.ResolveSignature | src/fwd/app/policy_init.py:64-76 | the one signature of that name in the ABI, an error if there is none or more than one |
| PolicyInit.GeneratePolicy | src/fwd/app/policy_init.py:110-631 | the loops over networks and roles produce exactly the listed rules, and fail exactly when input, table or registry lacks something |
| PolicyInit.MergePolicies | src/fwd/app/policy_init.py:82-107 | additions win, everything else stays, self-submit wallets are appended once |
| GeneratedRules.ClaimRules | src/fwd/app/policy_init.py:224-253 | a claim rule: caller, one contract at the network's address and chain, the one claim method, no value, `_recipient` pinned to the run's recipient, the claimer wallet, the claim rate |
| GeneratedRules.FspRules | src/fwd/app/policy_init.py:255-328 | the two submit and two sign callers of `fsp`, the sender shared or not, and the constraints of both wallets |
| GeneratedRules.VoterSignRules | src/fwd/app/policy_init.py:380-394 | two of the four sign callers of `fsp-voter`, each for one message type, the signing wallet and the network's chain |
| GeneratedRules.RoundSignRules | src/fwd/app/policy_init.py:380-394 | the other two |
| GeneratedRules.SubmissionRules | src/fwd/app/policy_init.py:430-492 | its two submission callers with their own wallets and methods |
| GeneratedRules.SelfSubmitRules | src/fwd/app/policy_init.py:494-566 | its three callers that submit with the signing wallet |
| GeneratedRules.RegisterRules | src/fwd/app/policy_init.py:568-628 | the three registration confirms, `_voter` pinned to the run's identity and nothing left open |
| GeneratedRules.NothingElse | src/fwd/app/policy_init.py:220-645 | no caller, block or FSP block beyond the wanted roles of the named networks |
| GrownGate.ClaimPaysItsRecipient | src/fwd/app/policy_init.py:224-253 | under any policy grown by generation and merging, a call allowed under a claim path is for the last run's contract and chain, from the claimer wallet, without value, and its `_recipient` is that run's |
| GrownGate.RecipientPinnedIff | src/fwd/app/policy_engine.py:210 | the recipient is pinned exactly when it is not the word "any" |
| GrownGate.ConfirmIsForItsIdentity | src/fwd/app/policy_init.py:568-628 | likewise a registration confirm is for the last run's identity |
| GrownGate.SignerSignsItsOwn | src/fwd/app/policy_init.py:272-394 | under any grown policy a signing caller of a network signs its one message type, with the network's signing wallet, for its own chain |
| GeneratedPolicies.GoodIsConsistent | src/fwd/infra/policy_loader.py:117-347 | a policy of role blocks whose references resolve passes the check for any wallets, shared addresses included |
| GeneratedPolicies.MergeIsConsistent | src/fwd/app/policy_init.py:82-107 | merging a generation into such a policy is consistent exactly when the wallets of its registration confirms have constraints |
| GeneratedPolicies.GrownPoliciesAreConsistent | src/fwd/app/policy_init.py:110-657 | any finite sequence of generate-and-merge runs from nothing, registration only with or after the voter rules, passes the check |
| NetworkIsolation.UnnamedNetworkKeepsRules | src/fwd/app/policy_init.py:82-107 | callers, wallets, permissions, FSP permissions and the carve-out opt-in of an unnamed network stay exactly as they were, and so does the shared sender's binding unless the run writes it |
| NetworkIsolation.UnnamedNetworkKeepsConstraints | src/fwd/app/policy_init.py:82-107 | a constraint that pays for an unnamed network, its own wallets' or the shared sender's, stays as it was in every policy exactly when no path the run writes clashes with it |
| NetworkIsolation.UnnamedNetworkIsolated | src/fwd/app/policy_init.py:251-254 | a run leaves every constraint an unnamed network uses alone, in every policy, exactly when none clashes; in shared mode the network uses the shared sender's in place of its own |
| NetworkIsolation.SharedBindingIff | src/fwd/app/policy_init.py:325-328 | the shared sender's wallet binding stays as it was in every policy exactly when the run does not pay by it |
| NetworkIsolation.WrittenConstraints | src/fwd/app/policy_init.py:230-415 | exactly the constraint paths a successful run writes: per capability for each named network, and the shared sender's |
| NetworkIsolation.PlainNetworksDoNotClash | src/fwd/app/policy_init.py:82-92 | networks not named like a dedicated wallet, or as the sender, clash only through the shared sender, and there exactly when the run pays by it |
| NetworkIsolation.ShadowOverwrites | src/fwd/app/policy_init.py:82-107 | a clash, in either direction or through the shared sender, puts the run's own FSP rate on the unnamed network's constraint |
| Witnesses.MergeRewritesUnnamedRate | src/fwd/app/policy_init.py:82-107 | generating "sender-x" at one an hour and merging "x" at two raises the signing wallet of "sender-x" to two |
| Witnesses.MergeRewritesSharedRate | src/fwd/app/policy_init.py:251-254 | generating "flare" by the shared sender at one an hour and merging "songbird" by it at two raises what pays for "flare" to two |

## Left out

- Real cryptography (Keccak-256, SHA-256, secp256k1, envelope encryption): function parameters, with absence of collisions assumed only for named inputs.
- ABI decoding: a parameter that yields scalar arguments or fails; the registry gives signature and non-scalar flag per selector.
- The database engine: tables are maps and sequences; foreign keys, partial indexes and the primary key of transactions are modelled, the keys of the hash and attempt tables are not, since no reachable state meets them.
- `find_sign_transaction_seq` matches with SQL LIKE in the source; the model searches for the literal text, without LIKE wildcards.
- JSON is modelled for flat records of strings, integers, booleans and null, in the compact sorted form; nested values and foreign whitespace are not.
- ReplacementFee.MinPriorityBeyond: the residue is given for one binade; `ReplacementFee.BumpLawIff` covers every fee. A fee above 2^1023, which Python cannot convert to a float, would be an error; the column type refuses it long before.
- Integer widths: SQLite's 64-bit columns are unbounded integers here.
- Text of exceptions caught at step 0 of the gate, and some deny reasons that embed library messages, are fixed strings.
- `force_with_in_flight`, which overwrites nonces on purpose, is modelled in `NonceAdmin` but excluded from the run invariants; changes of policy, caps or lease during a run are not modelled.
- The policy-load audit row written at startup and the audit-verify command are not part of runs.
- RateAccounting.ReachableCounters: counts are compared per window that pruning has not reached, since a pruned counter is zero.
- PolicyLoader.FspWalletsMoveNoValue: the call path only, since nothing bounds native transfers (`PolicyLoader.NativeTransfersUnchecked`).
- Order of findings: the check iterates dictionaries, so the model fixes which errors are reported, not in which order.
- YAML parsing and emission, schema validation, stripping and lower-casing of command-line lists, `policy_path_exists`, which would add only an easy member.
- Wallet creation and import, caller and capability listing, HTTP routing, command-line tools, logging and its scrubber, health checks, memory locking.
