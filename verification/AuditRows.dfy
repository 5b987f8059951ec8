/** What the audit log says of each request: one row that names the caller, records the request as it came, and gives
    the decision and its reason, read off the reply. */
module AuditRows {
  import opened Prelude
  import opened PolicySchema
  import opened Environment
  import opened Store
  import opened CanonicalJson
  import opened TransactionRepo
  import opened SignTransaction
  import opened Transactions
  import opened SignFspMessage
  import opened FspMessage
  import opened NonceAdmin
  import PolicyEngine
  import AuditLog
  import NonceRepo
  import RateWindows
  import Refusals
  import ReportOutcomes

  /** The log gains exactly one row, for this entry. */
  ghost predicate Adds(env: Env, d: Db, d': Db, e: AuditLog.Entry, clock: Clock) {
    && |d'.audit| == |d.audit| + 1 && d'.audit[..|d.audit|] == d.audit
    && d'.audit[|d.audit|].entry == e
    && d'.audit[|d.audit|].ts.text == clock.ts.text
  }

  lemma LoggedAdds(env: Env, before: Db, d: Db, e: AuditLog.Entry, clock: Clock)
    requires before.audit == d.audit
    ensures Adds(env, before, Logged(env, d, e, clock), e, clock)
  {
  }

  // ---------- Signing ----------

  /** The request as the log records it. */
  function Body(env: Env, req: SignRequest): string {
    env.dumps([Field("wallet", Str(req.wallet)), Field("chain", Int(req.chain)), Field("to", Str(req.to)),
               Field("value_wei", Str(req.valueWei)), Field("data", Str(req.data)), Field("gas", Int(req.gas)),
               Field("max_fee_per_gas", Int(req.maxFeePerGas)),
               Field("max_priority_fee_per_gas", Int(req.maxPriorityFeePerGas))])
  }

  /** Decision and reason of each reply that is logged. */
  function Ruling(reply: Reply): (string, Option<string>) {
    match reply
    case Ok(_) => ("approved", None)
    case IdempotencyConflict(_) => ("denied", Some("idempotency_key_body_mismatch"))
    case TxParamsRejected(reason) => ("denied", Some(reason))
    case PolicyDenied(step, reason) => ("denied", Some("policy_denied step=" + PrintInt(step) + ": " + reason))
    case NonceWedged => ("denied", Some("wallet_has_stale_nonce_hole"))
    case NonceNotInitialized => ("error", Some("nonce_not_initialized"))
    case PreSignFailure => ("error", Some("pre_sign_failure"))
    case _ => ("", None)
  }

  /** The row of a request whose key is new. */
  function SignRow(env: Env, caller: Caller, req: SignRequest, reply: Reply): AuditLog.Entry {
    AuditLog.Entry(caller := Some(caller.name), action := "sign-transaction", requestJson := Some(Body(env, req)),
                   decision := Ruling(reply).0, reason := Ruling(reply).1,
                   outcome := if reply.Ok? then
                       Some(env.dumps([Field("tx_id", Str(reply.result.txId)), Field("hash", Str(reply.result.hash)),
                                       Field("nonce", Int(reply.result.nonce))]))
                     else None)
  }

  lemma ReservedRow(env: Env, d: Db, caller: Caller, req: SignRequest, clock: Clock, txId: string,
                    outcome: SignerOutcome, allow: PolicyEngine.Verdict)
    requires allow.Allow? && NonceKey(req.wallet, req.chain) in d.ledger.nonces
    ensures var r := SignReserved(env, d, caller, req, clock, txId, outcome, allow);
            (r.1.Ok? || r.1.PreSignFailure? || r.1.Crash?)
            && (!r.1.Crash? ==> Adds(env, d, r.0, SignRow(env, caller, req, r.1), clock))
  {
    hide PolicyEngine.ReleasedAfterFailure, WithSigned, NewTx, FieldsOf, IndexOf;
  }

  lemma FreshRow(env: Env, d: Db, caller: Caller, req: SignRequest, clock: Clock, txId: string,
                 outcome: SignerOutcome)
    ensures var r := SignFresh(env, d, caller, req, clock, txId, outcome);
            r.1.Ok? || r.1.Audited() ==> Adds(env, d, r.0, SignRow(env, caller, req, r.1), clock)
  {
    hide PolicyEngine.Evaluation, PolicyEngine.ReleasedAfterFailure, SignReserved, HasStale, CapReason, Adds;
    var ev := PolicyEngine.Evaluation(env, d.buckets, caller, req, clock.now);
    var d1 := d.(buckets := ev.1);
    if CapReason(env.settings, req).Some? {
      LoggedAdds(env, d, d, SignEntry(env, caller, req, "denied", CapReason(env.settings, req), None), clock);
    } else if ev.0.Deny? {
      LoggedAdds(env, d, d1, SignEntry(env, caller, req, "denied", Some(DenyText(ev.0.step, ev.0.reason)), None),
                 clock);
    } else {
      var b := PolicyEngine.ReleasedAfterFailure(env, d1.buckets, ev.0, caller.name, req, clock.now);
      LoggedAdds(env, d, d1.(buckets := b),
                 SignEntry(env, caller, req, "denied", Some("wallet_has_stale_nonce_hole"), None), clock);
      LoggedAdds(env, d, d1.(buckets := b),
                 SignEntry(env, caller, req, "error", Some("nonce_not_initialized"), None), clock);
      if NonceKey(req.wallet, req.chain) in d.ledger.nonces {
        ReservedRow(env, d1, caller, req, clock, txId, outcome, ev.0);
        SameLog(env, d, d1, SignReserved(env, d1, caller, req, clock, txId, outcome, ev.0).0,
                SignRow(env, caller, req, SignReserved(env, d1, caller, req, clock, txId, outcome, ev.0).1), clock);
      }
    }
    hide Logged;
  }

  lemma SameLog(env: Env, d: Db, d1: Db, d': Db, e: AuditLog.Entry, clock: Clock)
    requires d.audit == d1.audit
    ensures Adds(env, d, d', e, clock) <==> Adds(env, d1, d', e, clock)
  {
  }

  /** A signing request whose key is new leaves one row of its own: who asked for what, and what was answered. */
  lemma SignRowIsExact(env: Env, d: Db, caller: Caller, req: SignRequest, clock: Clock, txId: string,
                       outcome: SignerOutcome)
    requires req.idempotencyKey.Some? ==> IndexOfKey(d.ledger.txs, caller.name, req.idempotencyKey.value).None?
    ensures var r := SignStep(env, d, caller, req, clock, txId, outcome);
            if r.1.Ok? || r.1.Audited() then Adds(env, d, r.0, SignRow(env, caller, req, r.1), clock) else r.0 == d
  {
    FreshRow(env, d, caller, req, clock, txId, outcome);
    Refusals.SignRefusalRow(env, d, caller, req, clock, txId, outcome);
    hide SignFresh, SignRow, Adds;
  }

  /** The row records the signing of the transaction. */
  ghost predicate RecordsSigning(row: AuditLog.Row, txId: string) {
    && row.entry.action == "sign-transaction" && row.entry.decision == "approved" && row.entry.outcome.Some?
    && Within("\"tx_id\":\"" + txId + "\"", row.entry.outcome.value)
  }

  /** The part occurs somewhere in the text. */
  ghost predicate Within(part: string, text: string) {
    exists k :: 0 <= k <= |text| && part <= text[k..]
  }

  lemma {:induction false} ContainsIsWithin(s: string, part: string)
    ensures Contains(s, part) <==> Within(part, s)
    decreases |s|
  {
    if s != "" {
      ContainsIsWithin(s[1..], part);
      if k :| 0 <= k <= |s| && part <= s[k..] {
        assert k > 0 ==> s[k..] == s[1..][k - 1..];
        assert k == 0 ==> s[k..] == s;
      }
      if k :| 0 <= k <= |s[1..]| && part <= s[1..][k..] {
        assert s[1..][k..] == s[k + 1..];
      }
    }
    assert s[0..] == s;
  }

  /** The number of the first row that records the signing, if there is one. */
  lemma {:induction false} FindSignSeqIsFirst(rows: seq<AuditLog.Row>, txId: string) returns (k: nat)
    ensures FindSignSeq(rows, txId).None? ==> forall row :: row in rows ==> !RecordsSigning(row, txId)
    ensures FindSignSeq(rows, txId).Some? ==>
              && k < |rows| && RecordsSigning(rows[k], txId) && FindSignSeq(rows, txId) == Some(rows[k].seqNo)
              && forall j :: 0 <= j < k ==> !RecordsSigning(rows[j], txId)
    decreases |rows|
  {
    k := 0;
    if rows != [] {
      if rows[0].entry.outcome.Some? {
        ContainsIsWithin(rows[0].entry.outcome.value, "\"tx_id\":\"" + txId + "\"");
      }
      hide Contains, Within;
      var l := FindSignSeqIsFirst(rows[1..], txId);
      assert RecordsSigning(rows[0], txId) ==> FindSignSeq(rows, txId) == Some(rows[0].seqNo);
      if !RecordsSigning(rows[0], txId) {
        k := l + 1;
      }
    }
  }

  /** A key that row `i` holds leaves one row too: a repetition of its own kind that names the original and the row that
      recorded it, or a denial that names the original. */
  lemma ReplayRowIsExact(env: Env, d: Db, caller: Caller, req: SignRequest, clock: Clock, i: nat)
    requires i < |d.ledger.txs| && req.idempotencyKey.Some?
    ensures var r, tx := Replay(env, d, caller, req, clock, i), d.ledger.txs[i];
            var original := Field("original_tx_id", Str(tx.txId));
            && (r.1.IdempotencyConflict? ==>
                  Adds(env, d, r.0, AuditLog.Entry(
                    Some(caller.name), "sign-transaction", Some(Body(env, req)), "denied",
                    Some("idempotency_key_body_mismatch"), Some(env.dumps([original]))), clock))
            && (r.1.Ok? ==>
                  var seqNo := FindSignSeq(d.audit, tx.txId);
                  Adds(env, d, r.0, AuditLog.Entry(
                    Some(caller.name), "sign-transaction-duplicate",
                    Some(env.dumps(BodyFields(req) + [Field("idempotency_key", Str(req.idempotencyKey.value))])),
                    "approved", Some("idempotency_replay"),
                    Some(env.dumps([original, Field("original_audit_seq", if seqNo.Some? then Int(seqNo.value)
                                                                          else Null)]))), clock))
  {
    hide FindSignSeq;
  }

  // ---------- Reports ----------

  /** What the log says of a report that was accepted. */
  function ReportRow(env: Env, caller: Caller, action: string, txId: string, txHash: string, reason: string,
                     outcome: Option<string>): AuditLog.Entry {
    AuditLog.Entry(caller := Some(caller.name), action := action,
                   requestJson := Some(env.dumps([Field("tx_id", Str(txId)), Field("tx_hash", Str(txHash))])),
                   decision := "approved", reason := Some(reason), outcome := outcome)
  }

  /** A broadcast report that passes leaves one row, with a reason per outcome; that of a releaseable rejection also
      says whether the nonce was given back. */
  lemma BroadcastRowIsExact(env: Env, d: Db, caller: Caller, clock: Clock, txId: string, txHash: string,
                            outcome: BroadcastOutcome, errorClass: Option<string>, i: nat)
    requires ReportOutcomes.ReportPasses(d, caller, txId, txHash, Pending, i)
    ensures var r, tx := BroadcastStep(env, d, caller, clock, txId, txHash, outcome, errorClass), d.ledger.txs[i];
            var e := if errorClass.Some? then Str(errorClass.value) else Null;
            var released := r.0.ledger.nonces != d.ledger.nonces;
            var said := match outcome
              case Accepted => ("broadcast_accepted", [Field("tx_hash", Str(txHash))])
              case RejectedReleaseable =>
                ("broadcast_rejected_releaseable",
                 [Field("tx_hash", Str(txHash)), Field("error_class", e), Field("released", Bool(released))])
              case RejectedNonceTooLow =>
                ("broadcast_rejected_nonce_too_low",
                 [Field("tx_hash", Str(txHash)), Field("error_class", e),
                  Field("hint", Str("chain ahead of fwd; admin nonce-sync required (ship a11+)"))]);
            Adds(env, d, r.0, ReportRow(env, caller, "tx-broadcast-result", txId, txHash, said.0,
                                        Some(env.dumps(said.1))), clock)
  {
    ReportOutcomes.GuardIsExact(env, d, caller, txId, txHash, Pending, OutcomeText(outcome), "tx-broadcast-result");
    var tx := d.ledger.txs[i];
    ReleasedMoves(d.ledger, i);
    hide ReportGuard, Adds, ReportOutcomes.ReportPasses;
    var released := NonceRepo.Releasable(d.ledger.nonces, KeyOf(tx), tx.nonce);
    var l := if outcome == Accepted then Sent(d.ledger, i, clock.now)
             else Dropped(d.ledger, i, outcome == RejectedReleaseable);
    LoggedAdds(env, d, d.(ledger := l), BroadcastEntry(env, caller, txId, txHash, outcome, errorClass, released),
               clock);
    hide Logged;
  }

  /** A release changes the nonce table exactly when it applies. */
  lemma ReleasedMoves(l: Ledger, i: nat)
    requires i < |l.txs|
    ensures Dropped(l, i, true).nonces != l.nonces <==>
              NonceRepo.Releasable(l.nonces, KeyOf(l.txs[i]), l.txs[i].nonce)
  {
    var k := KeyOf(l.txs[i]);
    if NonceRepo.Releasable(l.nonces, k, l.txs[i].nonce) {
      assert Dropped(l, i, true).nonces[k].nextNonce != l.nonces[k].nextNonce;
    }
  }

  /** So does a receipt. */
  lemma ReceiptRowIsExact(env: Env, d: Db, caller: Caller, clock: Clock, txId: string, txHash: string, success: bool,
                          blockNumber: int)
    ensures var r := ReceiptStep(env, d, caller, clock, txId, txHash, success, blockNumber);
            r.1.Reported? ==>
              Adds(env, d, r.0, ReportRow(env, caller, "tx-receipt", txId, txHash,
                                          if success then "receipt_mined_success" else "receipt_mined_reverted", None),
                   clock)
  {
    hide ReportGuard, Confirmed, ReceiptText, RateWindows.AddCommitted;
  }

  /** A refused report leaves one row that says what did not match: the hash, or the status; one about a transaction
      that is not the caller's leaves none. */
  lemma RefusedReportRow(env: Env, d: Db, caller: Caller, clock: Clock, txId: string, txHash: string, from: Status,
                         intent: string, action: string, i: nat)
    requires ReportOutcomes.Owns(d, caller, txId, i)
    ensures var g := ReportGuard(env, d, caller, txId, txHash, from, intent, action);
            var id, hash := Field("tx_id", Str(txId)), Field("tx_hash", Str(txHash));
            && (g.Stop? ==> g.reply.HashMismatch? || g.reply.IllegalTransition?)
            && (g.Stop? && g.reply.HashMismatch? ==>
                  Adds(env, d, Stopped(env, d, g, clock).0, AuditLog.Entry(
                    Some(caller.name), action, Some(env.dumps([id, hash])), "denied", Some("tx_hash_mismatch"), None),
                    clock))
            && (g.Stop? && g.reply.IllegalTransition? ==>
                  Adds(env, d, Stopped(env, d, g, clock).0, AuditLog.Entry(
                    Some(caller.name), action, Some(env.dumps([id])), "denied",
                    Some("illegal_transition:" + StatusText(d.ledger.txs[i].status) + "->" + intent), None), clock))
  {
    hide StatusText;
  }

  lemma StatusTexts()
    ensures StatusText(Pending) == "pending" && StatusText(Submitted) == "submitted" && StatusText(Mined) == "mined"
    ensures StatusText(Failed) == "failed" && StatusText(Reverted) == "reverted"
  {
  }

  // ---------- Replacements ----------

  /** What the log says was asked for, and why it was refused. */
  function RefusalOf(env: Env, txId: string, body: ReplacementBody, why: Refusal): (seq<Field>, string) {
    var id := Field("tx_id", Str(txId));
    match why
    case NotSubmitted(status) => ([id], "illegal_transition:" + StatusText(status) + "->replacement")
    case PriorityTooLow(required) =>
      ([id, Field("max_priority_fee_per_gas", Int(body.maxPriorityFeePerGas)), Field("min_required", Int(required))],
       "replacement_bump_too_low")
    case MaxFeeTooLow(previous) =>
      ([id, Field("max_fee_per_gas", Int(body.maxFeePerGas)), Field("prev_max_fee_per_gas", Int(previous))],
       "replacement_bump_too_low")
    case PriorityExceedsMaxFee => ([id], "tx_params_rejected:priority_exceeds_maxfee")
    case GasExceedsCap =>
      ([id], "tx_params_rejected:gas_exceeds_cap:" + PrintInt(body.gas) + ">" + PrintInt(env.settings.maxGas))
    case MaxFeeExceedsCap =>
      ([id], "tx_params_rejected:max_fee_exceeds_cap:" + PrintInt(body.maxFeePerGas) + ">"
             + PrintInt(env.settings.maxFeePerGas))
    case CapExhausted => ([id], "replacement_cap_exhausted")
    case IntentUnrecoverable => ([id], "replacement_intent_unrecoverable")
  }

  /** The row of a replacement that is answered with a signature or an audited refusal. */
  function ReplaceRow(env: Env, caller: Caller, txId: string, body: ReplacementBody, failure: Option<string>,
                      reply: ReplaceReply): AuditLog.Entry {
    var said := match reply
      case Replaced(_, hash, nonce, n) =>
        ([Field("tx_id", Str(txId))], "approved", None,
         Some(env.dumps([Field("prev_seq", Int(n - 1)), Field("new_seq", Int(n)), Field("new_hash", Str(hash)),
                         Field("nonce", Int(nonce))])))
      case Refused(why) => (RefusalOf(env, txId, body, why).0, "denied", Some(RefusalOf(env, txId, body, why).1), None)
      case _ => ([Field("tx_id", Str(txId))], "error", Some("sign_failure:" + failure.GetOr("")), None);
    AuditLog.Entry(caller := Some(caller.name), action := "tx-replacement", requestJson := Some(env.dumps(said.0)),
                   decision := said.1, reason := said.2, outcome := said.3)
  }

  lemma RefusalEntryIs(env: Env, caller: Caller, txId: string, body: ReplacementBody, why: Refusal,
                       failure: Option<string>)
    ensures RefusalEntry(env, caller, txId, body, why) == ReplaceRow(env, caller, txId, body, failure, Refused(why))
  {
    hide StatusText, PrintInt;
  }

  /** A replacement leaves one row when it is signed, refused or fails to be signed, and nothing otherwise. */
  lemma ReplaceRowIsExact(env: Env, d: Db, caller: Caller, clock: Clock, txId: string, body: ReplacementBody,
                          failure: Option<string>)
    ensures var r := ReplaceStep(env, d, caller, clock, txId, body, failure);
            if r.1.ReplaceNotFound? || r.1.ReplaceCrash? then r.0 == d
            else Adds(env, d, r.0, ReplaceRow(env, caller, txId, body, failure, r.1), clock)
  {
    var r := ReplaceStep(env, d, caller, clock, txId, body, failure);
    if r.1.Refused? {
      RefusalEntryIs(env, caller, txId, body, r.1.why, failure);
    }
    hide WhyRefused, RecordedData, RefusalEntry, RefusalOf, WithAttempt, PrintInt, AttemptsOf;
  }

  // ---------- Admin operations ----------

  function InitRow(env: Env, d: Db, body: InitBody, reply: InitReply): AuditLog.Entry {
    var k := NonceKey(body.wallet, body.chain);
    var said := match reply
      case AlreadyInitialized =>
        ("denied", Some("already_initialized"), [Field("next_nonce", Int(if k in d.ledger.nonces
                                                                          then d.ledger.nonces[k].nextNonce else 0))])
      case InFlightNonces(count) => ("denied", Some("in_flight_nonces:" + PrintInt(count)), [])
      case InitWalletNotFound => ("denied", Some("wallet_not_found"), [])
      case Initialized(n) =>
        if k in d.ledger.nonces then
          ("approved", Some("force_overwrite"), [Field("from", Int(d.ledger.nonces[k].nextNonce)), Field("to", Int(n))])
        else ("approved", None, [Field("next_nonce", Int(n))]);
    AuditLog.Entry(
      caller := None, action := "nonce-init",
      requestJson := Some(env.dumps(
        [Field("wallet", Str(body.wallet)), Field("chain", Int(body.chain)),
         Field("starting_nonce", Int(body.startingNonce)), Field("force", Bool(body.force)),
         Field("force_with_in_flight", Bool(body.forceWithInFlight))])),
      decision := said.0, reason := said.1, outcome := if said.2 == [] then None else Some(env.dumps(said.2)))
  }

  /** An initialisation leaves one row, refused or not: what was asked, and from where to where the row moved. */
  lemma InitRowIsExact(env: Env, d: Db, body: InitBody, clock: Clock)
    ensures var r := InitStep(env, d, body, clock); Adds(env, d, r.0, InitRow(env, d, body, r.1), clock)
  {
    hide CountInFlight, PrintInt;
  }

  function SyncRow(env: Env, d: Db, k: NonceKey, count: int, reply: SyncReply): AuditLog.Entry {
    var next := if k in d.ledger.nonces then d.ledger.nonces[k].nextNonce else 0;
    var said := match reply
      case SyncNotInitialized => ("denied", Some("nonce_not_initialized"), [])
      case OutOfBounds =>
        ("denied", Some("nonce_sync_out_of_bounds:cur=" + PrintInt(next) + ",requested=" + PrintInt(count)
                        + ",max_advance=" + PrintInt(env.settings.nonceSyncMaxAdvance)), [])
      case InSync(at) => ("approved", Some("in_sync"), [Field("from", Int(at)), Field("to", Int(at))])
      case Advanced(a, b) => ("approved", None, [Field("from", Int(a)), Field("to", Int(b))]);
    AuditLog.Entry(
      caller := None, action := "nonce-sync",
      requestJson := Some(env.dumps([Field("wallet", Str(k.wallet)), Field("chain", Int(k.chain)),
                                     Field("on_chain_count", Int(count))])),
      decision := said.0, reason := said.1, outcome := if said.2 == [] then None else Some(env.dumps(said.2)))
  }

  /** So does a synchronisation. */
  lemma SyncRowIsExact(env: Env, d: Db, k: NonceKey, count: int, clock: Clock)
    ensures var r := SyncStep(env, d, k, count, clock); Adds(env, d, r.0, SyncRow(env, d, k, count, r.1), clock)
  {
    hide PrintInt;
  }

  // ---------- FSP messages ----------

  /** Decision and reason of an FSP reply that is logged. */
  function FspRuling(reply: FspReply): (string, Option<string>) {
    match reply
    case FspOk(_) => ("approved", None)
    case FspDenied(step, reason) => ("denied", Some("policy_denied step=" + PrintInt(step) + ": " + reason))
    case FspMalformed => ("error", Some("fsp_message_malformed"))
    case FspVaultUnavailable => ("error", Some("sign_failure"))
    case _ => ("", None)
  }

  function IntOrNull(o: Option<int>): Value {
    if o.Some? then Int(o.value) else Null
  }

  function StrOrNull(o: Option<string>): Value {
    if o.Some? then Str(o.value) else Null
  }

  /** The row of an FSP request: every field as it came, set or not. */
  function FspRow(env: Env, caller: Caller, req: FspRequest, reply: FspReply): AuditLog.Entry {
    var f := req.fields;
    AuditLog.Entry(
      caller := Some(caller.name), action := "fsp-sign-message",
      requestJson := Some(env.dumps(
        [Field("wallet", Str(req.wallet)), Field("message_type", Str(req.messageType)),
         Field("reward_epoch_id", Int(req.rewardEpochId)), Field("chain_id", IntOrNull(f.chainId)),
         Field("no_of_weight_based_claims", IntOrNull(f.noOfWeightBasedClaims)),
         Field("rewards_hash", StrOrNull(f.rewardsHash)), Field("address", StrOrNull(f.address)),
         Field("signing_policy", StrOrNull(f.signingPolicy)), Field("payload", StrOrNull(f.payload)),
         Field("protocol_id", IntOrNull(f.protocolId)),
         Field("registration_variant", StrOrNull(f.registrationVariant)),
         Field("block_number", IntOrNull(f.blockNumber)), Field("replicate", IntOrNull(f.replicate)),
         Field("gamma_x", IntOrNull(f.gammaX)), Field("gamma_y", IntOrNull(f.gammaY)), Field("c", IntOrNull(f.c)),
         Field("s", IntOrNull(f.s)), Field("deltas", StrOrNull(f.deltas))])),
      decision := FspRuling(reply).0, reason := FspRuling(reply).1,
      outcome := if reply.FspOk? then Some(SignatureText(env, reply.signature)) else None)
  }

  lemma FspEntryIs(env: Env, caller: Caller, req: FspRequest, reply: FspReply)
    ensures FspRow(env, caller, req, reply) ==
            FspEntry(env, caller, req, FspRuling(reply).0, FspRuling(reply).1,
                     if reply.FspOk? then Some(SignatureText(env, reply.signature)) else None)
  {
    hide SignatureText;
  }

  lemma FspAllowedRow(env: Env, d: Db, caller: Caller, req: FspRequest, clock: Clock, outcome: SignerOutcome,
                      allow: FspVerdict)
    requires allow.FspAllow?
    ensures var r := FspAllowed(env, d, caller, req, clock, outcome, allow);
            !r.1.FspCrash? ==> Adds(env, d, r.0, FspRow(env, caller, req, r.1), clock)
  {
    hide Built, SignatureText, RateWindows.ReleaseCounters, FspEntry, FspRow;
    FspEntryIs(env, caller, req, FspAllowed(env, d, caller, req, clock, outcome, allow).1);
  }

  /** An FSP request leaves one row when it is signed or refused by an arm: who asked for what, and what was
      answered. */
  lemma FspRowIsExact(env: Env, d: Db, caller: Caller, req: FspRequest, clock: Clock, outcome: SignerOutcome)
    ensures var r := FspStep(env, d, caller, req, clock, outcome);
            if r.1.FspOk? || r.1.Audited() then Adds(env, d, r.0, FspRow(env, caller, req, r.1), clock) else r.0 == d
  {
    hide FspEvaluation, FspAllowed, FspEntry, FspRow, Adds, DenyText;
    var ev := FspEvaluation(env, d.buckets, caller, req, clock.now);
    var d1 := d.(buckets := ev.1);
    match ev.0 {
      case FspDeny(step, reason) =>
        FspEntryIs(env, caller, req, FspDenied(step, reason));
        DenyTextIs(step, reason);
        LoggedAdds(env, d, d1, FspEntry(env, caller, req, "denied", Some(DenyText(step, reason)), None), clock);
      case FspAllow(_, _) =>
        FspAllowedRow(env, d1, caller, req, clock, outcome, ev.0);
        var r := FspAllowed(env, d1, caller, req, clock, outcome, ev.0);
        SameLog(env, d, d1, r.0, FspRow(env, caller, req, r.1), clock);
        FspAllowedReplies(env, d1, caller, req, clock, outcome, ev.0);
    }
    hide Logged;
  }

  lemma DenyTextIs(step: int, reason: string)
    ensures DenyText(step, reason) == "policy_denied step=" + PrintInt(step) + ": " + reason
  {
  }

  lemma FspAllowedReplies(env: Env, d: Db, caller: Caller, req: FspRequest, clock: Clock, outcome: SignerOutcome,
                          allow: FspVerdict)
    requires allow.FspAllow?
    ensures var r := FspAllowed(env, d, caller, req, clock, outcome, allow).1;
            r.FspOk? || r.FspMalformed? || r.FspVaultUnavailable? || r.FspCrash?
  {
    hide Built, SignatureText, RateWindows.ReleaseCounters, FspEntry;
  }
}
