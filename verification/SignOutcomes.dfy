/** What a signing request is answered and what it leaves, said of the tables, the policy and the request: when it
    must be refused, when it must not be, and every column a signing writes. */
module SignOutcomes {
  import opened Prelude
  import opened PolicySchema
  import opened Environment
  import opened Store
  import opened TransactionRepo
  import opened PolicyEngine
  import opened SignTransaction
  import AuditLog
  import GateMeaning

  // ---------- The guards ----------

  /** The wallet exists and the caller's name has a legal length. */
  predicate Heard(d: Db, caller: Caller, req: SignRequest) {
    req.wallet in d.wallets && 1 <= |caller.name| <= 64
  }

  /** Row `i` answers for the caller's idempotency key. */
  predicate HoldsKey(d: Db, caller: Caller, req: SignRequest, i: nat) {
    && i < |d.ledger.txs| && req.idempotencyKey.Some?
    && d.ledger.txs[i].caller == caller.name && d.ledger.txs[i].idempotencyKey == req.idempotencyKey
  }

  predicate WithinLimits(s: Settings, req: SignRequest) {
    && req.maxPriorityFeePerGas <= req.maxFeePerGas <= s.maxFeePerGas && req.gas <= s.maxGas
  }

  /** Some transaction of the wallet and chain is pending since longer than the lease. */
  ghost predicate Wedged(env: Env, d: Db, req: SignRequest, now: int) {
    exists tx :: tx in d.ledger.txs && PendingSince(tx, req, now - env.settings.reservationLease)
  }

  predicate PendingSince(tx: Tx, req: SignRequest, cutoff: int) {
    && tx.wallet == req.wallet && tx.chain == req.chain && tx.status == Pending
    && tx.reservedAt.Some? && tx.reservedAt.value < cutoff
  }

  /** The request is heard, its key is new, its fees are within the limits and the gate allows it. */
  ghost predicate Allowed(env: Env, d: Db, caller: Caller, req: SignRequest, now: int) {
    && Heard(d, caller, req) && (forall i: nat :: !HoldsKey(d, caller, req, i)) && WithinLimits(env.settings, req)
    && Evaluation(env, d.buckets, caller, req, now).0.Allow?
  }

  lemma StaleIsWedged(env: Env, d: Db, req: SignRequest, now: int)
    ensures HasStale(d.ledger.txs, NonceKey(req.wallet, req.chain), now - env.settings.reservationLease)
       <==> Wedged(env, d, req, now)
  {
    var cutoff := now - env.settings.reservationLease;
    if Wedged(env, d, req, now) {
      var tx :| tx in d.ledger.txs && PendingSince(tx, req, cutoff);
      var i :| 0 <= i < |d.ledger.txs| && d.ledger.txs[i] == tx;
      assert StaleReservation(d.ledger.txs[i], NonceKey(req.wallet, req.chain), cutoff);
    }
    if i :| 0 <= i < |d.ledger.txs| && StaleReservation(d.ledger.txs[i], NonceKey(req.wallet, req.chain), cutoff) {
      assert d.ledger.txs[i] in d.ledger.txs;
      assert PendingSince(d.ledger.txs[i], req, cutoff);
    }
  }

  /** What the gate allows has a value that can be read. */
  lemma AllowedValueReads(env: Env, b: Buckets, caller: Caller, req: SignRequest, now: int)
    requires Evaluation(env, b, caller, req, now).0.Allow?
    ensures env.parseInt(req.valueWei).Some?
  {
    GateMeaning.AdmittedValue(env, caller, req);
    hide Admitted1To7, CountRequest;
  }

  // ---------- The reply ----------

  lemma ReservedReply(env: Env, d: Db, caller: Caller, req: SignRequest, clock: Clock, txId: string,
                      outcome: SignerOutcome, allow: Verdict)
    requires allow.Allow? && NonceKey(req.wallet, req.chain) in d.ledger.nonces && env.parseInt(req.valueWei).Some?
    ensures var r := SignReserved(env, d, caller, req, clock, txId, outcome, allow).1;
            && (r.PreSignFailure? <==> outcome == SealFailure || outcome == FieldError)
            && (r.Crash? <==>
                  outcome == UnexpectedError
                  || (outcome == SignerOk && exists tx :: tx in d.ledger.txs && tx.txId == txId))
            && (r.Ok? <==> outcome == SignerOk && forall tx :: tx in d.ledger.txs ==> tx.txId != txId)
  {
    hide ReleasedAfterFailure, SignEntry, ApprovedEntry, WithSigned, NewTx, FieldsOf, AuditLog.AppendRow;
  }

  /** After the gate has allowed the request: it is refused over a wedge exactly when there is one, over the nonce row
      exactly when there is none, over the signer exactly when the signer fails; and otherwise it is signed. */
  lemma AllowedReply(env: Env, d: Db, caller: Caller, req: SignRequest, clock: Clock, txId: string,
                     outcome: SignerOutcome, allow: Verdict)
    requires allow.Allow? && env.parseInt(req.valueWei).Some?
    ensures var r := SignAllowed(env, d, caller, req, clock, txId, outcome, allow).1;
            var wedged := Wedged(env, d, req, clock.now);
            var ready := !wedged && NonceKey(req.wallet, req.chain) in d.ledger.nonces;
            var used := exists tx :: tx in d.ledger.txs && tx.txId == txId;
            && (r.NonceWedged? <==> wedged)
            && (r.NonceNotInitialized? <==> !wedged && !ready)
            && (r.PreSignFailure? <==> ready && (outcome == SealFailure || outcome == FieldError))
            && (r.Crash? <==> ready && (outcome == UnexpectedError || (outcome == SignerOk && used)))
            && (r.Ok? <==> ready && outcome == SignerOk && !used)
  {
    hide ReleasedAfterFailure, SignEntry, SignReserved, AuditLog.AppendRow, HasStale, Wedged;
    StaleIsWedged(env, d, req, clock.now);
    if NonceKey(req.wallet, req.chain) in d.ledger.nonces {
      ReservedReply(env, d, caller, req, clock, txId, outcome, allow);
    }
  }

  lemma LimitsAreExact(s: Settings, req: SignRequest)
    ensures CapReason(s, req).None? <==> WithinLimits(s, req)
  {
  }

  lemma FreshReply(env: Env, d: Db, caller: Caller, req: SignRequest, clock: Clock, txId: string,
                   outcome: SignerOutcome)
    ensures var r := SignFresh(env, d, caller, req, clock, txId, outcome).1;
            var v := Evaluation(env, d.buckets, caller, req, clock.now).0;
            var wedged := Wedged(env, d, req, clock.now);
            var ready := !wedged && NonceKey(req.wallet, req.chain) in d.ledger.nonces;
            var used := exists tx :: tx in d.ledger.txs && tx.txId == txId;
            if !WithinLimits(env.settings, req) then r.TxParamsRejected?
            else if v.Deny? then r == PolicyDenied(v.step, v.reason)
            else
              && (r.NonceWedged? <==> wedged)
              && (r.NonceNotInitialized? <==> !wedged && !ready)
              && (r.PreSignFailure? <==> ready && (outcome == SealFailure || outcome == FieldError))
              && (r.Crash? <==> ready && (outcome == UnexpectedError || (outcome == SignerOk && used)))
              && (r.Ok? <==> ready && outcome == SignerOk && !used)
  {
    hide Evaluation, SignAllowed, SignEntry, CapReason, DenyText, AuditLog.AppendRow, WithinLimits, Wedged;
    LimitsAreExact(env.settings, req);
    var ev := Evaluation(env, d.buckets, caller, req, clock.now);
    if ev.0.Allow? {
      AllowedValueReads(env, d.buckets, caller, req, clock.now);
      AllowedReply(env, d.(buckets := ev.1), caller, req, clock, txId, outcome, ev.0);
      SameWedge(env, d, ev.1, req, clock.now);
    }
  }

  lemma SameWedge(env: Env, d: Db, b: Buckets, req: SignRequest, now: int)
    ensures Wedged(env, d.(buckets := b), req, now) <==> Wedged(env, d, req, now)
  {
  }

  /** The reply to every signing request. A refusal over a wedge is given exactly to an allowed request whose wallet and
      chain have a transaction pending since longer than the lease; with none, a nonce row, a signer that signs and a
      new id, an allowed request is signed. */
  lemma SignReplyIsExact(env: Env, d: Db, caller: Caller, req: SignRequest, clock: Clock, txId: string,
                         outcome: SignerOutcome)
    ensures var r := SignStep(env, d, caller, req, clock, txId, outcome).1;
            && (r.WalletNotFound? <==> req.wallet !in d.wallets)
            && (r.CallerInvalid? <==> req.wallet in d.wallets && !Heard(d, caller, req))
            && (r.IdempotencyConflict? ==> Heard(d, caller, req) && exists i: nat :: HoldsKey(d, caller, req, i))
    ensures var r := SignStep(env, d, caller, req, clock, txId, outcome).1;
            var v := Evaluation(env, d.buckets, caller, req, clock.now).0;
            Heard(d, caller, req) && (forall i: nat :: !HoldsKey(d, caller, req, i)) ==>
              && (r.TxParamsRejected? <==> !WithinLimits(env.settings, req))
              && (r.PolicyDenied? <==> WithinLimits(env.settings, req) && v.Deny?)
              && (r.PolicyDenied? ==> r.step == v.step && r.reason == v.reason)
    ensures var r := SignStep(env, d, caller, req, clock, txId, outcome).1;
            var wedged := Wedged(env, d, req, clock.now);
            var ready := !wedged && NonceKey(req.wallet, req.chain) in d.ledger.nonces;
            var used := exists tx :: tx in d.ledger.txs && tx.txId == txId;
            var allowed := Allowed(env, d, caller, req, clock.now);
            && (r.NonceWedged? <==> allowed && wedged)
            && (r.NonceNotInitialized? <==> allowed && !wedged && !ready)
            && (r.PreSignFailure? <==> allowed && ready && (outcome == SealFailure || outcome == FieldError))
            && (r.Crash? <==> allowed && ready && (outcome == UnexpectedError || (outcome == SignerOk && used)))
            && (allowed ==> (r.Ok? <==> ready && outcome == SignerOk && !used))
  {
    FreshReply(env, d, caller, req, clock, txId, outcome);
    hide SignFresh, Evaluation, RequestJson, ReplayEntry, SignEntry, WithinLimits, Wedged, AuditLog.AppendRow;
    if req.idempotencyKey.Some? {
      var found := IndexOfKey(d.ledger.txs, caller.name, req.idempotencyKey.value);
      if found.Some? {
        assert HoldsKey(d, caller, req, found.value);
      }
    }
  }

  /** A key that a row holds is answered from that row, the last one if there were several: what it recorded for the
      recorded body, a conflict for any other body. Neither changes a table or a counter. */
  lemma ReplayIsExact(env: Env, d: Db, caller: Caller, req: SignRequest, clock: Clock, txId: string,
                      outcome: SignerOutcome, i: nat)
    requires Heard(d, caller, req) && HoldsKey(d, caller, req, i)
    requires forall j :: i < j < |d.ledger.txs| ==> !HoldsKey(d, caller, req, j)
    ensures var r, tx := SignStep(env, d, caller, req, clock, txId, outcome), d.ledger.txs[i];
            && r.0.ledger == d.ledger && r.0.buckets == d.buckets && r.0.wallets == d.wallets
            && (tx.requestJson != RequestJson(env, req) ==> r.1 == IdempotencyConflict(req.idempotencyKey.value))
            && (tx.requestJson == RequestJson(env, req) ==>
                  && r.1.Ok? && r.1.result.txId == tx.txId && r.1.result.nonce == tx.nonce
                  && (tx.signedRaw.Some? ==> r.1.result.signedRawTx == tx.signedRaw.value)
                  && (HashesOf(d.ledger, tx.txId) != [] ==>
                        r.1.result.hash == HashesOf(d.ledger, tx.txId)[0].hashHex))
  {
    forall j | i < j < |d.ledger.txs|
      ensures d.ledger.txs[j].caller != caller.name || d.ledger.txs[j].idempotencyKey != req.idempotencyKey
    {
      assert !HoldsKey(d, caller, req, j);
    }
    LastIsFound(d.ledger.txs, caller.name, req.idempotencyKey.value, i);
    hide SignFresh, RequestJson, ReplayEntry, SignEntry, AuditLog.AppendRow, IndexOfKey;
  }

  lemma {:induction false} LastIsFound(txs: seq<Tx>, caller: string, key: string, i: nat)
    requires i < |txs| && txs[i].caller == caller && txs[i].idempotencyKey == Some(key)
    requires forall j :: i < j < |txs| ==> txs[j].caller != caller || txs[j].idempotencyKey != Some(key)
    ensures IndexOfKey(txs, caller, key) == Some(i)
    decreases |txs|
  {
    if i < |txs| - 1 {
      LastIsFound(txs[..|txs| - 1], caller, key, i);
    }
  }

  // ---------- What a signing writes ----------

  /** The transaction that is signed: the request's own fields at nonce `n`. */
  function Asked(env: Env, req: SignRequest, n: int): TxFields {
    TxFields(chainId := req.chain, nonce := n, to := env.checksum(req.to),
             value := env.parseInt(req.valueWei).GetOr(0), data := req.data, gas := req.gas,
             maxFeePerGas := req.maxFeePerGas, maxPriorityFeePerGas := req.maxPriorityFeePerGas)
  }

  /** The row recorded for it. */
  function Recorded(env: Env, caller: Caller, req: SignRequest, now: int, txId: string, n: int, signed: Signed): Tx {
    Tx(txId := txId, wallet := req.wallet, chain := req.chain, caller := caller.name, nonce := n,
       contractAddress := req.to, methodName := if |req.data| >= 10 then req.data[..10] else req.data,
       valueWei := req.valueWei, idempotencyKey := req.idempotencyKey, requestJson := RequestJson(env, req),
       signedRaw := Some(signed.raw), status := Pending, submittedAt := None, confirmedAt := None,
       receiptJson := None, reservedAt := Some(now))
  }

  /** The tables after a signing: the nonce row advanced by one, and one row in each of the other three. */
  predicate Signing(env: Env, l: Ledger, caller: Caller, req: SignRequest, now: int, txId: string, l': Ledger,
                    r: SignResult) {
    var k := NonceKey(req.wallet, req.chain);
    && k in l.nonces
    && var n := l.nonces[k].nextNonce;
       var signed := env.signTx(req.wallet, Asked(env, req, n));
       && r == SignResult(txId, signed.hash, signed.raw, n)
       && l'.nonces == l.nonces[k := NonceRow(n + 1, l.nonces[k].lastConfirmed)]
       && l'.txs == l.txs + [Recorded(env, caller, req, now, txId, n, signed)]
       && l'.hashes == l.hashes[txId := HashesOf(l, txId) + [TxHash(1, signed.hash)]]
       && l'.attempts == l.attempts[txId := AttemptsOf(l, txId) +
           [Attempt(1, req.gas, req.maxFeePerGas, req.maxPriorityFeePerGas, signed.raw, signed.hash)]]
  }

  lemma ReservedWrites(env: Env, d: Db, caller: Caller, req: SignRequest, clock: Clock, txId: string,
                       outcome: SignerOutcome, allow: Verdict)
    requires allow.Allow? && NonceKey(req.wallet, req.chain) in d.ledger.nonces
    ensures var r := SignReserved(env, d, caller, req, clock, txId, outcome, allow);
            if r.1.Ok? then
              && Signing(env, d.ledger, caller, req, clock.now, txId, r.0.ledger, r.1.result)
              && r.0.buckets == d.buckets && r.0.wallets == d.wallets
            else r.0.ledger == d.ledger
  {
    hide ReleasedAfterFailure, SignEntry, ApprovedEntry, AuditLog.AppendRow;
  }

  lemma FreshWrites(env: Env, d: Db, caller: Caller, req: SignRequest, clock: Clock, txId: string,
                    outcome: SignerOutcome)
    ensures var r := SignFresh(env, d, caller, req, clock, txId, outcome);
            if r.1.Ok? then
              && Signing(env, d.ledger, caller, req, clock.now, txId, r.0.ledger, r.1.result)
              && r.0.buckets == Evaluation(env, d.buckets, caller, req, clock.now).1 && r.0.wallets == d.wallets
            else r.0.ledger == d.ledger
  {
    hide Evaluation, SignReserved, ReleasedAfterFailure, SignEntry, CapReason, DenyText, AuditLog.AppendRow, HasStale,
      Signing;
    var ev := Evaluation(env, d.buckets, caller, req, clock.now);
    if ev.0.Allow? && NonceKey(req.wallet, req.chain) in d.ledger.nonces {
      ReservedWrites(env, d.(buckets := ev.1), caller, req, clock, txId, outcome, ev.0);
    }
  }

  /** An allowed request that is answered with a signature leaves exactly these rows and the counters as the gate left
      them. No other reply changes a nonce, a transaction, a hash or an attempt. */
  lemma SignWritesAreExact(env: Env, d: Db, caller: Caller, req: SignRequest, clock: Clock, txId: string,
                           outcome: SignerOutcome)
    ensures var r := SignStep(env, d, caller, req, clock, txId, outcome);
            if r.1.Ok? && forall i: nat :: !HoldsKey(d, caller, req, i) then
              && Signing(env, d.ledger, caller, req, clock.now, txId, r.0.ledger, r.1.result)
              && r.0.buckets == Evaluation(env, d.buckets, caller, req, clock.now).1 && r.0.wallets == d.wallets
            else r.0.ledger == d.ledger
  {
    FreshWrites(env, d, caller, req, clock, txId, outcome);
    hide SignFresh, Evaluation, RequestJson, ReplayEntry, SignEntry, Signing, AuditLog.AppendRow;
    if req.idempotencyKey.Some? {
      var found := IndexOfKey(d.ledger.txs, caller.name, req.idempotencyKey.value);
      if found.Some? {
        assert HoldsKey(d, caller, req, found.value);
      }
    }
  }
}
