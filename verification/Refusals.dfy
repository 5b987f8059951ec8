/** Every request that does not succeed either leaves the database exactly as it was, or commits one
    denied or error row of its own action and nothing else: no nonce, transaction, hash or attempt, and
    no counter at any bucket of the call path. */
module Refusals {
  import opened Prelude
  import opened PolicySchema
  import opened Environment
  import opened Store
  import opened RateWindows
  import opened TransactionRepo
  import opened SignTransaction
  import opened Transactions
  import opened NonceAdmin
  import opened SignFspMessage
  import opened Service
  import opened RateEffects
  import PolicyEngine
  import RateAccounting
  import AuditLog

  /** One more row than before, refusing an `action`. */
  ghost predicate OneRefusalRow(before: seq<AuditLog.Row>, after: seq<AuditLog.Row>, action: string,
                                caller: Option<string>) {
    && |after| == |before| + 1 && after[..|before|] == before
    && var e := after[|before|].entry;
       e.action == action && e.caller == caller && (e.decision == "denied" || e.decision == "error")
  }

  // ---------- Signing ----------

  lemma ReservedRefusal(env: Env, d: Db, caller: Caller, req: SignRequest, clock: Clock, txId: string,
                        outcome: SignerOutcome, allow: PolicyEngine.Verdict)
    requires allow.Allow? && NonceKey(req.wallet, req.chain) in d.ledger.nonces
    ensures var r := SignReserved(env, d, caller, req, clock, txId, outcome, allow);
            && (r.1.Ok? || r.1.Crash? || r.1.PreSignFailure?)
            && (r.1.PreSignFailure? ==> OneRefusalRow(d.audit, r.0.audit, "sign-transaction", Some(caller.name)))
  {
    hide PolicyEngine.ReleasedAfterFailure, WithSigned, NewTx, FieldsOf, RequestJson, IndexOf;
  }

  lemma FreshRefusal(env: Env, d: Db, caller: Caller, req: SignRequest, clock: Clock, txId: string,
                     outcome: SignerOutcome)
    ensures var r := SignFresh(env, d, caller, req, clock, txId, outcome);
            && !r.1.WalletNotFound? && !r.1.CallerInvalid? && !r.1.IdempotencyConflict?
            && (r.1.Audited() ==> OneRefusalRow(d.audit, r.0.audit, "sign-transaction", Some(caller.name)))
  {
    hide PolicyEngine.Evaluation, PolicyEngine.ReleasedAfterFailure, SignReserved, RequestJson, HasStale, DenyText,
      CapReason;
    var ev := PolicyEngine.Evaluation(env, d.buckets, caller, req, clock.now);
    var d1 := d.(buckets := ev.1);
    if ev.0.Allow? && NonceKey(req.wallet, req.chain) in d.ledger.nonces {
      ReservedRefusal(env, d1, caller, req, clock, txId, outcome, ev.0);
    }
  }

  lemma SignRefusalRow(env: Env, d: Db, caller: Caller, req: SignRequest, clock: Clock, txId: string,
                       outcome: SignerOutcome)
    ensures var r := SignStep(env, d, caller, req, clock, txId, outcome);
            if r.1.Ok? then true
            else if r.1.Audited() then
              r.0.ledger == d.ledger && r.0.wallets == d.wallets
              && OneRefusalRow(d.audit, r.0.audit, "sign-transaction", Some(caller.name))
            else r.0 == d
  {
    hide SignFresh, RequestJson, ReplayEntry;
    SignFreshEffect(env, d, caller, req, clock, txId, outcome);
    FreshRefusal(env, d, caller, req, clock, txId, outcome);
  }

  /** The audited refusals of a signing request, at any caller bucket of the call path, any wallet bucket and any FSP
      bucket: no counter keeps a trace, unless the gate itself stopped on an error (step 0). */
  lemma SignRefusalCounters(env: Env, d: Db, caller: Caller, req: SignRequest, clock: Clock, txId: string,
                            outcome: SignerOutcome,
                            k: BucketKey<CallerSubject>, w: BucketKey<string>)
    requires Capped(env, d.buckets, k)
    ensures var r := SignStep(env, d, caller, req, clock, txId, outcome);
            var b, b' := d.buckets, r.0.buckets;
            r.1.Audited() ==>
              && b'.fsp == b.fsp && Aggregate(b'.wallets, w) == Aggregate(b.wallets, w)
              && (!OnNativePath(env, k.subject.caller) && !(r.1.PolicyDenied? && r.1.step == 0) ==>
                   Counter(b'.callers, k) == Counter(b.callers, k))
              && (!OnNativePath(env, caller.name) || NativeReleases(env) ==>
                   WalletCounter(b'.wallets, w) == WalletCounter(b.wallets, w))
  {
    SignStepBuckets(env, d, caller, req, clock, txId, outcome);
    EvaluationEffect(env, d.buckets, caller, req, clock.now, k, w);
    hide SignStep, Counter, RequestCounts, WalletCounts, WalletCounter, Aggregate, PolicyEngine.ReleasedAfterFailure,
      NativeReleases, AllowFacts, Capped, WalletCapped, IndexOf;
    var ev := PolicyEngine.Evaluation(env, d.buckets, caller, req, clock.now);
    hide PolicyEngine.Evaluation, SignsNow;
    if ev.0.Allow? {
      FailureEffect(env, d.buckets, caller, req, clock.now, k, w);
    }
  }

  /** The request gets as far as the policy gate: its key is new and its fees are within the caps. */
  predicate Gated(env: Env, d: Db, caller: Caller, req: SignRequest) {
    && (req.idempotencyKey.Some? ==> IndexOfKey(d.ledger.txs, caller.name, req.idempotencyKey.value).None?)
    && CapReason(env.settings, req).None?
  }

  lemma GatedByReply(env: Env, d: Db, caller: Caller, req: SignRequest, clock: Clock, txId: string,
                     outcome: SignerOutcome)
    ensures var r := SignStep(env, d, caller, req, clock, txId, outcome).1;
            r.Audited() ==> (Gated(env, d, caller, req) <==> !r.IdempotencyConflict? && !r.TxParamsRejected?)
  {
    hide PolicyEngine.Evaluation, SignAllowed, SignEntry, DenyText, RequestJson, ReplayEntry, CapReason;
    if Gated(env, d, caller, req) {
      var ev := PolicyEngine.Evaluation(env, d.buckets, caller, req, clock.now);
      if ev.0.Allow? {
        AllowedReply(env, d.(buckets := ev.1), caller, req, clock, txId, outcome, ev.0);
      }
    }
  }

  lemma AllowedReply(env: Env, d: Db, caller: Caller, req: SignRequest, clock: Clock, txId: string,
                     outcome: SignerOutcome, allow: PolicyEngine.Verdict)
    requires allow.Allow?
    ensures var r := SignAllowed(env, d, caller, req, clock, txId, outcome, allow).1;
            r.Ok? || r.Crash? || r.NonceWedged? || r.NonceNotInitialized? || r.PreSignFailure?
  {
    hide PolicyEngine.ReleasedAfterFailure, SignEntry, ApprovedEntry, HasStale, WithSigned, NewTx, FieldsOf, IndexOf;
  }

  /** An increment that an audited refusal does not undo: the gate stopped on an unreadable cap after
      counting, or allowed the request and the release does not reach windows of this kind. */
  predicate KeepsIncrement(env: Env, d: Db, caller: Caller, req: SignRequest, now: int, kind: WindowKind) {
    Gated(env, d, caller, req)
    && (StopsAfterCounting(env, d.buckets, caller, req, now)
        || (PolicyEngine.Evaluation(env, d.buckets, caller, req, now).0.Allow? && !Uncounts(env, caller.name, kind)))
  }

  predicate KeepsWalletIncrement(env: Env, d: Db, caller: Caller, req: SignRequest, now: int) {
    Gated(env, d, caller, req) && PolicyEngine.Evaluation(env, d.buckets, caller, req, now).0.Allow? &&
      !HasBlock(env, caller.name)
  }

  /** What every audited refusal leaves at any caller bucket and any wallet bucket, on any path: a counter
      is unchanged exactly when the request does not count in it or the increment is not kept. */
  lemma SignRefusalExact(env: Env, d: Db, caller: Caller, req: SignRequest, clock: Clock, txId: string,
                         outcome: SignerOutcome,
                         k: BucketKey<CallerSubject>, w: BucketKey<string>)
    requires Capped(env, d.buckets, k)
    ensures var r := SignStep(env, d, caller, req, clock, txId, outcome);
            var b, b' := d.buckets, r.0.buckets;
            r.1.Audited() ==>
              && Counter(b'.callers, k) == Counter(b.callers, k)
                   + One(RequestCounts(env, caller.name, req, clock.now, k) &&
                     KeepsIncrement(env, d, caller, req, clock.now, k.kind))
              && WalletCounter(b'.wallets, w) == WalletCounter(b.wallets, w)
                   + One(WalletCounts(env, req.wallet, clock.now, w) &&
                     KeepsWalletIncrement(env, d, caller, req, clock.now))
  {
    SignStepBuckets(env, d, caller, req, clock, txId, outcome);
    GatedByReply(env, d, caller, req, clock, txId, outcome);
    hide SignStep, Counter, RequestCounts, WalletCounts, WalletCounter, PolicyEngine.ReleasedAfterFailure, Uncounts,
      HasBlock, Capped, IndexOf, Gated, StopsAfterCounting;
    StepZeroIff(env, d.buckets, caller, req, clock.now, k);
    hide PolicyEngine.Evaluation;
    if PolicyEngine.Evaluation(env, d.buckets, caller, req, clock.now).0.Allow? {
      FailureExact(env, d.buckets, caller, req, clock.now, k, w);
    }
  }

  /** For the three refusals after the gate: a counter survives exactly when the request does not count in it
      or the caller's path has a permissions block that uncounts that window; a wallet counter exactly when
      the wallet is not counted there or the path has a permissions block at all. */
  lemma NativeRefusalKeepsIncrement(env: Env, d: Db, caller: Caller, req: SignRequest, clock: Clock, txId: string,
                                    outcome: SignerOutcome,
                                    k: BucketKey<CallerSubject>, w: BucketKey<string>)
    requires Capped(env, d.buckets, k)
    requires var r := SignStep(env, d, caller, req, clock, txId, outcome).1;
             r.NonceWedged? || r.NonceNotInitialized? || r.PreSignFailure?
    ensures var b, b' := d.buckets, SignStep(env, d, caller, req, clock, txId, outcome).0.buckets;
            && (Counter(b'.callers, k) == Counter(b.callers, k) <==>
                  (RequestCounts(env, caller.name, req, clock.now, k) ==> Uncounts(env, caller.name, k.kind)))
            && (WalletCounter(b'.wallets, w) == WalletCounter(b.wallets, w) <==>
                  (WalletCounts(env, req.wallet, clock.now, w) ==> HasBlock(env, caller.name)))
  {
    SignStepBuckets(env, d, caller, req, clock, txId, outcome);
    hide SignStep, Counter, RequestCounts, WalletCounts, WalletCounter, PolicyEngine.ReleasedAfterFailure,
      PolicyEngine.Evaluation, Uncounts, HasBlock, Capped, IndexOf;
    FailureExact(env, d.buckets, caller, req, clock.now, k, w);
  }

  // ---------- The other requests ----------

  lemma FspRefusal(env: Env, d: Db, caller: Caller, req: FspRequest, clock: Clock, outcome: SignerOutcome,
                   k: BucketKey<FspSubject>)
    ensures var r := FspStep(env, d, caller, req, clock, outcome);
            if r.1.FspOk? then true
            else if r.1.Audited() then
              && r.0.ledger == d.ledger && r.0.wallets == d.wallets
              && r.0.buckets.callers == d.buckets.callers && r.0.buckets.wallets == d.buckets.wallets
              && Counter(r.0.buckets.fsp, k) == Counter(d.buckets.fsp, k)
              && OneRefusalRow(d.audit, r.0.audit, "fsp-sign-message", Some(caller.name))
            else r.0 == d
  {
    RateAccounting.FspLeavesOthers(env, d, caller, req, clock, outcome);
    RateAccounting.FspStepCounter(env, d, caller, req, clock, outcome, k);
    FspKeepsTables(env, d, caller, req, clock, outcome);
    FspRefusalRow(env, d, caller, req, clock, outcome);
    hide FspStep, Counter, OneRefusalRow;
  }

  lemma FspRefusalRow(env: Env, d: Db, caller: Caller, req: FspRequest, clock: Clock, outcome: SignerOutcome)
    ensures var r := FspStep(env, d, caller, req, clock, outcome);
            && (r.1.Audited() ==> OneRefusalRow(d.audit, r.0.audit, "fsp-sign-message", Some(caller.name)))
            && (!r.1.FspOk? && !r.1.Audited() ==> r.0 == d)
  {
    hide Built, FspEvaluation, SignatureText, DenyText, ReleaseCounters;
  }

  /** `d'` is `d` with one refusal row more. */
  ghost predicate OnlyARow(d: Db, d': Db, action: string, caller: Option<string>) {
    d' == d.(audit := d'.audit) && OneRefusalRow(d.audit, d'.audit, action, caller)
  }

  lemma BroadcastRefusal(env: Env, d: Db, caller: Caller, clock: Clock, txId: string, txHash: string,
                         result: BroadcastOutcome, errorClass: Option<string>)
    ensures var r := BroadcastStep(env, d, caller, clock, txId, txHash, result, errorClass);
            if r.1.Reported? then true
            else if r.1.Audited() then OnlyARow(d, r.0, "tx-broadcast-result", Some(caller.name))
            else r.0 == d
  {
    hide BroadcastEntry, Sent, Dropped, IndexOf, ReportJson;
  }

  lemma ReceiptRefusal(env: Env, d: Db, caller: Caller, clock: Clock, txId: string, txHash: string, success: bool,
                       n: int)
    ensures var r := ReceiptStep(env, d, caller, clock, txId, txHash, success, n);
            if r.1.Reported? then true
            else if r.1.Audited() then OnlyARow(d, r.0, "tx-receipt", Some(caller.name))
            else r.0 == d
  {
    hide ReceiptEntry, ReceiptText, Confirmed, IndexOf, ReportJson;
  }

  lemma ReplaceRefusal(env: Env, d: Db, caller: Caller, clock: Clock, txId: string, body: ReplacementBody,
                       failure: Option<string>)
    ensures var r := ReplaceStep(env, d, caller, clock, txId, body, failure);
            if r.1.Replaced? then true
            else if r.1.Refused? || r.1.VaultUnavailable? then OnlyARow(d, r.0, "tx-replacement", Some(caller.name))
            else r.0 == d
  {
    hide WhyRefused, RecordedData, IndexOf, WithAttempt, ReplacementFields;
  }

  lemma AdminRefusal(env: Env, d: Db, body: InitBody, k: NonceKey, count: int, clock: Clock)
    ensures var r := InitStep(env, d, body, clock);
            !r.1.Initialized? ==> OnlyARow(d, r.0, "nonce-init", None)
    ensures var r := SyncStep(env, d, k, count, clock);
            r.1.SyncNotInitialized? || r.1.OutOfBounds? ==> OnlyARow(d, r.0, "nonce-sync", None)
  {
    hide CountInFlight, FromTo;
  }

  // ---------- And what succeeds ----------

  /** One more row than before, approving an `action`. */
  ghost predicate OneApprovedRow(before: seq<AuditLog.Row>, after: seq<AuditLog.Row>, action: string,
                                 caller: Option<string>) {
    && |after| == |before| + 1 && after[..|before|] == before
    && var e := after[|before|].entry;
       e.action == action && e.caller == caller && e.decision == "approved"
  }

  lemma FreshApproval(env: Env, d: Db, caller: Caller, req: SignRequest, clock: Clock, txId: string,
                      outcome: SignerOutcome)
    ensures var r := SignFresh(env, d, caller, req, clock, txId, outcome);
            r.1.Ok? ==>
              OneApprovedRow(d.audit, r.0.audit, "sign-transaction", Some(caller.name))
              && IndexOf(d.ledger.txs, r.1.result.txId).None?
  {
    hide PolicyEngine.Evaluation, PolicyEngine.ReleasedAfterFailure, RequestJson, HasStale, DenyText, CapReason,
      WithSigned, NewTx, FieldsOf;
  }

  /** A signing reply appends one approved row, and a replay one of its own action. */
  lemma SignApprovalRow(env: Env, d: Db, caller: Caller, req: SignRequest, clock: Clock, txId: string,
                        outcome: SignerOutcome)
    ensures var r := SignStep(env, d, caller, req, clock, txId, outcome);
            r.1.Ok? ==>
              var replayed := IndexOf(d.ledger.txs, r.1.result.txId).Some?;
              OneApprovedRow(d.audit, r.0.audit, if replayed then "sign-transaction-duplicate"
                else "sign-transaction", Some(caller.name))
  {
    hide SignFresh, RequestJson, BodyFields;
    FreshApproval(env, d, caller, req, clock, txId, outcome);
    if req.idempotencyKey.Some? {
      var found := IndexOfKey(d.ledger.txs, caller.name, req.idempotencyKey.value);
      if found.Some? {
        assert IndexOf(d.ledger.txs, d.ledger.txs[found.value].txId).Some?;
      }
    }
  }

  /** Every other request that succeeds appends exactly one approved row of its action. */
  lemma ApprovalRows(env: Env, d: Db, caller: Caller, clock: Clock, txId: string, txHash: string,
                     result: BroadcastOutcome,
                     errorClass: Option<string>, success: bool, n: int, body: ReplacementBody, failure: Option<string>)
    ensures var r := BroadcastStep(env, d, caller, clock, txId, txHash, result, errorClass);
            r.1.Reported? ==> OneApprovedRow(d.audit, r.0.audit, "tx-broadcast-result", Some(caller.name))
    ensures var r := ReceiptStep(env, d, caller, clock, txId, txHash, success, n);
            r.1.Reported? ==> OneApprovedRow(d.audit, r.0.audit, "tx-receipt", Some(caller.name))
    ensures var r := ReplaceStep(env, d, caller, clock, txId, body, failure);
            r.1.Replaced? ==> OneApprovedRow(d.audit, r.0.audit, "tx-replacement", Some(caller.name))
  {
    hide ReportGuard, ReportJson, ReceiptText, Sent, Dropped, Confirmed, WhyRefused, RecordedData, RefusalEntry,
      WithAttempt, ReplacementFields, IndexOf;
  }

  lemma AdminApprovalRows(env: Env, d: Db, caller: Caller, req: FspRequest, outcome: SignerOutcome, body: InitBody,
                          k: NonceKey, count: int, clock: Clock)
    ensures var r := FspStep(env, d, caller, req, clock, outcome);
            r.1.FspOk? ==> OneApprovedRow(d.audit, r.0.audit, "fsp-sign-message", Some(caller.name))
    ensures var r := InitStep(env, d, body, clock);
            r.1.Initialized? ==> OneApprovedRow(d.audit, r.0.audit, "nonce-init", None)
    ensures var r := SyncStep(env, d, k, count, clock);
            r.1.InSync? || r.1.Advanced? ==> OneApprovedRow(d.audit, r.0.audit, "nonce-sync", None)
  {
    hide Built, FspEvaluation, SignatureText, DenyText, ReleaseCounters, CountInFlight, FromTo;
  }
}
