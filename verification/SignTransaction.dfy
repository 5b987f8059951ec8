/** POST /v1/sign-transaction: idempotency replay, fee caps, policy gate, wedge guard, nonce reservation,
    signing, persistence, with one audited refusal arm for each way it can stop. */
module SignTransaction {
  import opened Prelude
  import opened PolicySchema
  import opened Environment
  import opened Store
  import opened CanonicalJson
  import opened TransactionRepo
  import opened PolicyEngine
  import AuditLog
  import AuditRepo
  import NonceRepo
  import RateRepo
  import TxRepo = TransactionRepo

  datatype SignResult = SignResult(txId: string, hash: string, signedRawTx: string, nonce: int)

  /** What the signer does with the transaction it is given. */
  datatype SignerOutcome = SignerOk | SealFailure | FieldError | UnexpectedError

  datatype Reply =
    | Ok(result: SignResult)
    | WalletNotFound
    | CallerInvalid
    | IdempotencyConflict(key: string)
    | TxParamsRejected(reason: string)
    | PolicyDenied(step: int, reason: string)
    | NonceWedged
    | NonceNotInitialized
    | PreSignFailure
    | Crash
  {
    /** The refusals that leave an audit row. */
    predicate Audited() {
      IdempotencyConflict? || TxParamsRejected? || PolicyDenied? || NonceWedged? || NonceNotInitialized? ||
        PreSignFailure?
    }
  }

  // ---------- What the step does ----------

  function BodyFields(req: SignRequest): seq<Field> {
    [Field("wallet", Str(req.wallet)), Field("chain", Int(req.chain)), Field("to", Str(req.to)),
     Field("value_wei", Str(req.valueWei)), Field("data", Str(req.data)), Field("gas", Int(req.gas)),
     Field("max_fee_per_gas", Int(req.maxFeePerGas)),
     Field("max_priority_fee_per_gas", Int(req.maxPriorityFeePerGas))]
  }

  function RequestJson(env: Env, req: SignRequest): string {
    env.dumps(BodyFields(req))
  }

  function SignEntry(env: Env, caller: Caller, req: SignRequest, decision: string, reason: Option<string>,
                     outcome: Option<string>): AuditLog.Entry
  {
    AuditLog.Entry(Some(caller.name), "sign-transaction", Some(RequestJson(env, req)), decision, reason, outcome)
  }

  function Logged(env: Env, d: Db, e: AuditLog.Entry, clock: Clock): Db {
    d.(audit := AuditLog.AppendRow(env.rowHash, d.audit, e, clock.ts))
  }

  predicate Contains(s: string, part: string) {
    part <= s || (s != "" && Contains(s[1..], part))
  }

  /** The audit row that recorded the original signing. */
  function FindSignSeq(rows: seq<AuditLog.Row>, txId: string): Option<int> {
    if rows == [] then None
    else if rows[0].entry.action == "sign-transaction" && rows[0].entry.decision == "approved"
            && rows[0].entry.outcome.Some? && Contains(rows[0].entry.outcome.value, "\"tx_id\":\"" + txId + "\"")
    then Some(rows[0].seqNo)
    else FindSignSeq(rows[1..], txId)
  }

  function ReplayEntry(env: Env, d: Db, caller: Caller, req: SignRequest, txId: string): AuditLog.Entry
    requires req.idempotencyKey.Some?
  {
    var seqNo := FindSignSeq(d.audit, txId);
    AuditLog.Entry(
      Some(caller.name), "sign-transaction-duplicate",
      Some(env.dumps(BodyFields(req) + [Field("idempotency_key", Str(req.idempotencyKey.value))])),
      "approved", Some("idempotency_replay"),
      Some(env.dumps([Field("original_tx_id", Str(txId)),
                      Field("original_audit_seq", if seqNo.Some? then Int(seqNo.value) else Null)])))
  }

  /** A key seen before: the cached result if the body is the same, a conflict otherwise. */
  function Replay(env: Env, d: Db, caller: Caller, req: SignRequest, clock: Clock, i: nat): (Db, Reply)
    requires i < |d.ledger.txs| && req.idempotencyKey.Some?
  {
    var tx := d.ledger.txs[i];
    if RequestJson(env, req) != tx.requestJson then
      var e := SignEntry(env, caller, req, "denied", Some("idempotency_key_body_mismatch"),
                         Some(env.dumps([Field("original_tx_id", Str(tx.txId))])));
      (Logged(env, d, e, clock), IdempotencyConflict(req.idempotencyKey.value))
    else
      var hs := HashesOf(d.ledger, tx.txId);
      var result := SignResult(tx.txId, if hs == [] then "" else hs[0].hashHex, tx.signedRaw.GetOr(""), tx.nonce);
      (Logged(env, d, ReplayEntry(env, d, caller, req, tx.txId), clock), Ok(result))
  }

  function CapReason(s: Settings, req: SignRequest): Option<string> {
    if req.maxPriorityFeePerGas > req.maxFeePerGas then Some("max_priority_fee_per_gas exceeds max_fee_per_gas")
    else if req.gas > s.maxGas then
      Some("gas " + PrintInt(req.gas) + " exceeds FWD_MAX_GAS " + PrintInt(s.maxGas))
    else if req.maxFeePerGas > s.maxFeePerGas then
      Some("max_fee_per_gas " + PrintInt(req.maxFeePerGas) + " exceeds FWD_MAX_FEE_PER_GAS " + PrintInt(s.maxFeePerGas))
    else None
  }

  function DenyText(step: int, reason: string): string {
    "policy_denied step=" + PrintInt(step) + ": " + reason
  }

  function FieldsOf(env: Env, req: SignRequest, nonce: int, value: int): TxFields {
    TxFields(req.chain, nonce, env.checksum(req.to), value, req.data, req.gas, req.maxFeePerGas,
      req.maxPriorityFeePerGas)
  }

  function NewTx(env: Env, caller: Caller, req: SignRequest, now: int, txId: string, nonce: int, signed: Signed): Tx {
    Tx(txId, req.wallet, req.chain, caller.name, nonce, req.to,
       if |req.data| >= 10 then req.data[..10] else req.data,
       req.valueWei, req.idempotencyKey, RequestJson(env, req), Some(signed.raw), Pending, None, None, None, Some(now))
  }

  function FirstAttempt(req: SignRequest, signed: Signed): Attempt {
    Attempt(1, req.gas, req.maxFeePerGas, req.maxPriorityFeePerGas, signed.raw, signed.hash)
  }

  /** The ledger after a signing: one nonce consumed, one row in each of the three tables. */
  function WithSigned(l: Ledger, tx: Tx, attempt: Attempt): Ledger
    requires NonceKey(tx.wallet, tx.chain) in l.nonces
  {
    var l1 := l.(nonces := NonceRepo.Reserve(l.nonces, NonceKey(tx.wallet, tx.chain)), txs := l.txs + [tx]);
    AddAttemptRow(AddHashRow(l1, tx.txId, TxHash(1, attempt.hash)), tx.txId, attempt)
  }

  function ApprovedEntry(env: Env, caller: Caller, req: SignRequest, txId: string, hash: string,
                         nonce: int): AuditLog.Entry {
    SignEntry(env, caller, req, "approved", None,
              Some(env.dumps([Field("tx_id", Str(txId)), Field("hash", Str(hash)), Field("nonce", Int(nonce))])))
  }

  /** From the reserved nonce on. `Crash` is an error no arm handles; the scope rolls back. */
  function SignReserved(env: Env, d: Db, caller: Caller, req: SignRequest, clock: Clock, txId: string,
                        outcome: SignerOutcome, allow: Verdict): (Db, Reply)
    requires allow.Allow? && NonceKey(req.wallet, req.chain) in d.ledger.nonces
  {
    var nonce := d.ledger.nonces[NonceKey(req.wallet, req.chain)].nextNonce;
    var value := env.parseInt(req.valueWei);
    if value.None? || outcome.SealFailure? || outcome.FieldError? then
      var released := d.(buckets := ReleasedAfterFailure(env, d.buckets, allow, caller.name, req, clock.now));
      (Logged(env, released, SignEntry(env, caller, req, "error", Some("pre_sign_failure"), None), clock),
        PreSignFailure)
    else if outcome.UnexpectedError? || IndexOf(d.ledger.txs, txId).Some? then (d, Crash)
    else
      var signed := env.signTx(req.wallet, FieldsOf(env, req, nonce, value.value));
      var tx := NewTx(env, caller, req, clock.now, txId, nonce, signed);
      var d' := d.(ledger := WithSigned(d.ledger, tx, FirstAttempt(req, signed)));
      (Logged(env, d', ApprovedEntry(env, caller, req, txId, signed.hash, nonce), clock),
       Ok(SignResult(txId, signed.hash, signed.raw, nonce)))
  }

  function SignAllowed(env: Env, d: Db, caller: Caller, req: SignRequest, clock: Clock, txId: string,
                       outcome: SignerOutcome, allow: Verdict): (Db, Reply)
    requires allow.Allow?
  {
    var k := NonceKey(req.wallet, req.chain);
    var released := d.(buckets := ReleasedAfterFailure(env, d.buckets, allow, caller.name, req, clock.now));
    if HasStale(d.ledger.txs, k, clock.now - env.settings.reservationLease) then
      (Logged(env, released, SignEntry(env, caller, req, "denied", Some("wallet_has_stale_nonce_hole"), None), clock),
        NonceWedged)
    else if k !in d.ledger.nonces then
      (Logged(env, released, SignEntry(env, caller, req, "error", Some("nonce_not_initialized"), None), clock),
        NonceNotInitialized)
    else SignReserved(env, d, caller, req, clock, txId, outcome, allow)
  }

  function SignFresh(env: Env, d: Db, caller: Caller, req: SignRequest, clock: Clock, txId: string,
                     outcome: SignerOutcome): (Db, Reply)
  {
    match CapReason(env.settings, req)
    case Some(reason) =>
      (Logged(env, d, SignEntry(env, caller, req, "denied", Some(reason), None), clock), TxParamsRejected(reason))
    case None =>
      var ev := Evaluation(env, d.buckets, caller, req, clock.now);
      var d1 := d.(buckets := ev.1);
      match ev.0
      case Deny(step, reason) =>
        (Logged(env, d1, SignEntry(env, caller, req, "denied", Some(DenyText(step, reason)), None), clock),
         PolicyDenied(step, reason))
      case Allow(_, _) => SignAllowed(env, d1, caller, req, clock, txId, outcome, ev.0)
  }

  /** The whole request: the database it leaves committed, and the reply. */
  function SignStep(env: Env, d: Db, caller: Caller, req: SignRequest, clock: Clock, txId: string,
                    outcome: SignerOutcome): (Db, Reply)
  {
    if req.wallet !in d.wallets then (d, WalletNotFound)
    else if caller.name == "" || |caller.name| > 64 then (d, CallerInvalid)
    else
      var existing := if req.idempotencyKey.Some? then IndexOfKey(d.ledger.txs, caller.name, req.idempotencyKey.value)
        else None;
      match existing
      case Some(i) => Replay(env, d, caller, req, clock, i)
      case None =>
        var r := SignFresh(env, d, caller, req, clock, txId, outcome);
        if r.1.Crash? then (d, Crash) else r
  }

  // ---------- How it runs ----------

  /** Append one row on the shared session. */
  method Audit(env: Env, s: Session, e: AuditLog.Entry, clock: Clock)
    requires AuditRepo.ValidEntry(e)
    modifies s`db
    ensures s.db == Logged(env, old(s.db), e, clock)
  {
    var audit := new AuditRepo.Repo(s, env.rowHash);
    var _ := audit.Append(e, clock.ts);
  }

  /** Append one row and commit, so that it survives the rollback the coming exception causes. */
  method AuditAndCommit(env: Env, s: Session, e: AuditLog.Entry, clock: Clock)
    requires AuditRepo.ValidEntry(e)
    modifies s
    ensures s.db == s.committed == Logged(env, old(s.db), e, clock)
  {
    var audit := new AuditRepo.Repo(s, env.rowHash);
    var _ := audit.Append(e, clock.ts);
    audit.Commit();
  }

  method RunReplay(env: Env, s: Session, caller: Caller, req: SignRequest, clock: Clock, i: nat) returns (reply: Reply)
    requires i < |s.db.ledger.txs| && req.idempotencyKey.Some?
    modifies s
    ensures reply == Replay(env, old(s.db), caller, req, clock, i).1
    ensures s.db == Replay(env, old(s.db), caller, req, clock, i).0
    ensures !reply.Ok? ==> s.committed == s.db
  {
    var existing := s.db.ledger.txs[i];
    if RequestJson(env, req) != existing.requestJson {
      AuditAndCommit(env, s, SignEntry(env, caller, req, "denied", Some("idempotency_key_body_mismatch"),
                                       Some(env.dumps([Field("original_tx_id", Str(existing.txId))]))), clock);
      return IdempotencyConflict(req.idempotencyKey.value);
    }
    var hashes := HashesOf(s.db.ledger, existing.txId);
    var cachedHash := if hashes == [] then "" else hashes[0].hashHex;
    Audit(env, s, ReplayEntry(env, s.db, caller, req, existing.txId), clock);
    reply := Ok(SignResult(existing.txId, cachedHash, existing.signedRaw.GetOr(""), existing.nonce));
  }

  /** Runs with the nonce already reserved; `d` is the database before the reservation. */
  method RunReserved(env: Env, s: Session, caller: Caller, req: SignRequest, clock: Clock, txId: string,
                     outcome: SignerOutcome, allow: Verdict, nonce: int, ghost d: Db) returns (reply: Reply)
    requires allow.Allow? && NonceKey(req.wallet, req.chain) in d.ledger.nonces
    requires nonce == d.ledger.nonces[NonceKey(req.wallet, req.chain)].nextNonce
    requires s.db == d.(ledger := d.ledger.(nonces :=
      NonceRepo.Reserve(d.ledger.nonces, NonceKey(req.wallet, req.chain))))
    modifies s
    ensures reply == SignReserved(env, d, caller, req, clock, txId, outcome, allow).1
    ensures !reply.Crash? ==> s.db == SignReserved(env, d, caller, req, clock, txId, outcome, allow).0
    ensures if reply.Ok? || reply.Crash? then s.committed == old(s.committed) else s.committed == s.db
  {
    hide ReleasedAfterFailure, AuditLog.AppendRow;
    var value := env.parseInt(req.valueWei);
    if value == None || outcome == SealFailure || outcome == FieldError {
      NonceRepo.ReserveThenRelease(d.ledger.nonces, NonceKey(req.wallet, req.chain));
      var nonces := new NonceRepo.Repo(s);
      var _ := nonces.ReleaseIfUnused(req.wallet, req.chain, nonce);
      var rates := new RateRepo.Repo(s);
      ReleaseRateAfterFailure(env, rates, allow, caller.name, req, clock.now);
      AuditAndCommit(env, s, SignEntry(env, caller, req, "error", Some("pre_sign_failure"), None), clock);
      return PreSignFailure;
    }
    if outcome == UnexpectedError {
      return Crash;
    }
    var signed := env.signTx(req.wallet, FieldsOf(env, req, nonce, value.value));
    var txs := new TxRepo.Repo(s);
    var created := txs.Create(NewTx(env, caller, req, clock.now, txId, nonce, signed));
    if !created {
      return Crash;
    }
    txs.AddHash(txId, signed.hash, 1);
    txs.AddAttempt(txId, FirstAttempt(req, signed));
    Audit(env, s, ApprovedEntry(env, caller, req, txId, signed.hash, nonce), clock);
    reply := Ok(SignResult(txId, signed.hash, signed.raw, nonce));
  }

  method RunAllowed(env: Env, s: Session, caller: Caller, req: SignRequest, clock: Clock, txId: string,
                    outcome: SignerOutcome, allow: Verdict) returns (reply: Reply)
    requires allow.Allow?
    modifies s
    ensures reply == SignAllowed(env, old(s.db), caller, req, clock, txId, outcome, allow).1
    ensures !reply.Crash? ==> s.db == SignAllowed(env, old(s.db), caller, req, clock, txId, outcome, allow).0
    ensures if reply.Ok? || reply.Crash? then s.committed == old(s.committed) else s.committed == s.db
  {
    hide ReleasedAfterFailure, SignReserved, AuditLog.AppendRow;
    var txs := new TxRepo.Repo(s);
    var rates := new RateRepo.Repo(s);
    var cutoff := clock.now - env.settings.reservationLease;
    var stale := txs.HasStaleReservation(req.wallet, req.chain, cutoff);
    if stale {
      ReleaseRateAfterFailure(env, rates, allow, caller.name, req, clock.now);
      AuditAndCommit(env, s, SignEntry(env, caller, req, "denied", Some("wallet_has_stale_nonce_hole"), None), clock);
      return NonceWedged;
    }
    ghost var d := s.db;
    var nonces := new NonceRepo.Repo(s);
    var reserved := nonces.ReserveNext(req.wallet, req.chain);
    if reserved == None {
      ReleaseRateAfterFailure(env, rates, allow, caller.name, req, clock.now);
      AuditAndCommit(env, s, SignEntry(env, caller, req, "error", Some("nonce_not_initialized"), None), clock);
      return NonceNotInitialized;
    }
    reply := RunReserved(env, s, caller, req, clock, txId, outcome, allow, reserved.value, d);
  }

  method RunFresh(env: Env, s: Session, caller: Caller, req: SignRequest, clock: Clock, txId: string,
                  outcome: SignerOutcome) returns (reply: Reply)
    modifies s
    ensures reply == SignFresh(env, old(s.db), caller, req, clock, txId, outcome).1
    ensures !reply.Crash? ==> s.db == SignFresh(env, old(s.db), caller, req, clock, txId, outcome).0
    ensures if reply.Ok? || reply.Crash? then s.committed == old(s.committed) else s.committed == s.db
  {
    hide Evaluation, SignAllowed, AuditLog.AppendRow, CapReason, DenyText;
    var reason := CapReason(env.settings, req);
    if reason != None {
      AuditAndCommit(env, s, SignEntry(env, caller, req, "denied", reason, None), clock);
      return TxParamsRejected(reason.value);
    }
    var rates := new RateRepo.Repo(s);
    var verdict := Evaluate(env, rates, caller, req, clock.now);
    if verdict.Deny? {
      AuditAndCommit(env, s, SignEntry(env, caller, req, "denied", Some(DenyText(verdict.step, verdict.reason)), None),
                     clock);
      return PolicyDenied(verdict.step, verdict.reason);
    }
    reply := RunAllowed(env, s, caller, req, clock, txId, outcome, verdict);
  }

  /** One request in its own session. What is committed at the end is `SignStep`, on every path. */
  method PostSignTransaction(env: Env, s: Session, caller: Caller, req: SignRequest, clock: Clock, txId: string,
                             outcome: SignerOutcome) returns (reply: Reply)
    requires s.db == s.committed
    modifies s
    ensures (s.committed, reply) == SignStep(env, old(s.committed), caller, req, clock, txId, outcome)
    ensures s.db == s.committed
  {
    hide SignFresh, Replay;
    if req.wallet !in s.db.wallets {
      s.Leave(true);
      return WalletNotFound;
    }
    if caller.name == "" || |caller.name| > 64 {
      s.Leave(true);
      return CallerInvalid;
    }
    var existing := None;
    if req.idempotencyKey != None {
      var txs := new TxRepo.Repo(s);
      existing := txs.FindByIdempotencyKey(caller.name, req.idempotencyKey.value);
    }
    if existing != None {
      reply := RunReplay(env, s, caller, req, clock, existing.value);
    } else {
      reply := RunFresh(env, s, caller, req, clock, txId, outcome);
    }
    s.Leave(!reply.Ok?);
  }
}
