/** The daemon as a state machine: every request is one event, a run is any sequence of events, and each
    event acts on the ledger tables by at most one of a few moves. */
module Service {
  import opened Prelude
  import opened PolicySchema
  import opened Environment
  import opened Store
  import opened TransactionRepo
  import opened SignTransaction
  import opened Transactions
  import opened ReplacementFee
  import opened NonceAdmin
  import opened SignFspMessage
  import PolicyEngine
  import RateWindows

  datatype Event =
    | Sign(caller: Caller, req: SignRequest, clock: Clock, txId: string, outcome: SignerOutcome)
    | SignFsp(caller: Caller, fspReq: FspRequest, clock: Clock, outcome: SignerOutcome)
    | Broadcast(caller: Caller, clock: Clock, txId: string, txHash: string, result: BroadcastOutcome,
      errorClass: Option<string>)
    | Receipt(caller: Caller, clock: Clock, txId: string, txHash: string, success: bool, blockNumber: int)
    | Replace(caller: Caller, clock: Clock, txId: string, body: ReplacementBody, failure: Option<string>)
    | Init(initBody: InitBody, clock: Clock)
    | Sync(key: NonceKey, count: int, clock: Clock)
    | Prune(clock: Clock)

  datatype Answer =
    | SignAnswer(sign: Reply)
    | FspAnswer(fsp: FspReply)
    | ReportAnswer(report: ReportReply)
    | ReplaceAnswer(replace: ReplaceReply)
    | InitAnswer(init: InitReply)
    | SyncAnswer(sync: SyncReply)
    | Pruned

  /** Startup deletes the buckets of windows that began more than two days ago. */
  function PruneCutoff(now: int): int {
    now - 2 * RateWindows.DAY
  }

  function Step(env: Env, d: Db, ev: Event): (Db, Answer) {
    match ev
    case Sign(caller, req, clock, txId, outcome) =>
      var r := SignStep(env, d, caller, req, clock, txId, outcome); (r.0, SignAnswer(r.1))
    case SignFsp(caller, req, clock, outcome) =>
      var r := FspStep(env, d, caller, req, clock, outcome); (r.0, FspAnswer(r.1))
    case Broadcast(caller, clock, txId, txHash, result, errorClass) =>
      var r := BroadcastStep(env, d, caller, clock, txId, txHash, result, errorClass); (r.0, ReportAnswer(r.1))
    case Receipt(caller, clock, txId, txHash, success, blockNumber) =>
      var r := ReceiptStep(env, d, caller, clock, txId, txHash, success, blockNumber); (r.0, ReportAnswer(r.1))
    case Replace(caller, clock, txId, body, failure) =>
      var r := ReplaceStep(env, d, caller, clock, txId, body, failure); (r.0, ReplaceAnswer(r.1))
    case Init(body, clock) =>
      var r := InitStep(env, d, body, clock); (r.0, InitAnswer(r.1))
    case Sync(k, count, clock) =>
      var r := SyncStep(env, d, k, count, clock); (r.0, SyncAnswer(r.1))
    case Prune(clock) =>
      (d.(buckets := RateWindows.DeleteStale(d.buckets, PruneCutoff(clock.now))), Pruned)
  }

  function Run(env: Env, d: Db, evs: seq<Event>): Db
    decreases |evs|
  {
    if evs == [] then d else Run(env, Step(env, d, evs[0]).0, evs[1..])
  }

  // ---------- Moves on the ledger tables ----------

  datatype Move =
    | Stay
    | AddTx(tx: Tx, attempt: Attempt)
    | MarkSent(i: nat, now: int)
    | MarkFailed(i: nat, release: bool)
    | MarkMined(i: nat, success: bool, now: int, receipt: string)
    | AddReplacement(i: nat, attempt: Attempt)
    | SetRow(k: NonceKey, start: int)
    | Jump(k: NonceKey, value: int)

  predicate InRange(l: Ledger, m: Move) {
    match m
    case AddTx(tx, _) => KeyOf(tx) in l.nonces
    case MarkSent(i, _) => i < |l.txs|
    case MarkFailed(i, _) => i < |l.txs|
    case MarkMined(i, _, _, _) => i < |l.txs|
    case AddReplacement(i, _) => i < |l.txs|
    case Jump(k, _) => k in l.nonces
    case _ => true
  }

  function Apply(l: Ledger, m: Move): Ledger
    requires InRange(l, m)
  {
    match m
    case Stay => l
    case AddTx(tx, attempt) => WithSigned(l, tx, attempt)
    case MarkSent(i, now) => Sent(l, i, now)
    case MarkFailed(i, release) => Dropped(l, i, release)
    case MarkMined(i, success, now, receipt) => Confirmed(l, i, success, now, receipt)
    case AddReplacement(i, a) => WithAttempt(l, l.txs[i].txId, a)
    case SetRow(k, start) => l.(nonces := l.nonces[k := NonceRow(start, None)])
    case Jump(k, value) => l.(nonces := l.nonces[k := NonceRow(value, Some(value - 1))])
  }

  /** The transaction an attempt signs: the recorded intent with the attempt's own gas and fees. */
  function IntentFields(env: Env, tx: Tx, a: Attempt): Option<TxFields> {
    match (env.parseInt(tx.valueWei), RecordedData(env, tx.requestJson))
    case (Some(value), Some(data)) =>
      Some(ReplacementFields(env, tx, data, value, ReplacementBody(a.gas, a.maxFeePerGas, a.maxPriorityFeePerGas)))
    case _ => None
  }

  predicate SignsIntent(env: Env, tx: Tx, a: Attempt) {
    IntentFields(env, tx, a).Some? && env.signTx(tx.wallet, IntentFields(env, tx, a).value) ==
      Signed(a.hash, a.signedRaw)
  }

  predicate WithinCaps(env: Env, a: Attempt) {
    0 <= a.maxPriorityFeePerGas <= a.maxFeePerGas <= env.settings.maxFeePerGas && a.gas <= env.settings.maxGas
  }

  /** When each move can happen. */
  predicate Enabled(env: Env, l: Ledger, m: Move) {
    InRange(l, m) &&
    match m
    case AddTx(tx, a) =>
      && tx.status == Pending && tx.nonce == l.nonces[KeyOf(tx)].nextNonce
      && IndexOf(l.txs, tx.txId).None?
      && (tx.idempotencyKey.Some? ==> IndexOfKey(l.txs, tx.caller, tx.idempotencyKey.value).None?)
      && tx.reservedAt.Some? && !HasStale(l.txs, KeyOf(tx), tx.reservedAt.value - env.settings.reservationLease)
      && a.sequenceNum == 1 && WithinCaps(env, a) && SignsIntent(env, tx, a) && tx.signedRaw == Some(a.signedRaw)
    case MarkSent(i, _) => l.txs[i].status == Pending
    case MarkFailed(i, _) => l.txs[i].status == Pending
    case MarkMined(i, _, _, _) => l.txs[i].status == Submitted
    case AddReplacement(i, a) =>
      var attempts := AttemptsOf(l, l.txs[i].txId);
      && l.txs[i].status == Submitted && |attempts| < MAX_ATTEMPTS && a.sequenceNum == |attempts| + 1
      && WithinCaps(env, a) && SignsIntent(env, l.txs[i], a)
      && (LatestAttempt(attempts).Some? ==>
            && a.maxPriorityFeePerGas >= MinPriority(LatestAttempt(attempts).value.maxPriorityFeePerGas)
            && a.maxFeePerGas >= LatestAttempt(attempts).value.maxFeePerGas)
    case SetRow(k, _) => k !in l.nonces || CountInFlight(l.txs, k) == 0
    case Jump(k, value) => l.nonces[k].nextNonce < value
    case Stay => true
  }

  /** What the validation at the API boundary ensures and the statements below need. */
  predicate Validated(req: SignRequest) {
    req.data != "" && req.maxPriorityFeePerGas >= 0
  }

  /** Requests as the API boundary lets them in, and no override of the in-flight guard. */
  predicate Proper(ev: Event) {
    match ev
    case Sign(_, req, _, _, _) => Validated(req)
    case Replace(_, _, _, body, _) => body.maxPriorityFeePerGas >= 0
    case Init(body, _) => !(body.force && body.forceWithInFlight)
    case _ => true
  }

  /** `json.loads` reads back the calldata that `json.dumps` recorded. */
  ghost predicate RecordsData(env: Env) {
    forall req: SignRequest :: req.data != "" ==> RecordedData(env, RequestJson(env, req)) == Some(req.data)
  }

  /** A request that signs consumes the next nonce, which no stale reservation blocks; any other leaves the
      ledger tables alone. */
  ghost predicate SignEffect(env: Env, d: Db, caller: Caller, req: SignRequest, now: int, txId: string, d': Db,
                             reply: Reply) {
    && d'.wallets == d.wallets
    && (!reply.Ok? ==> d'.ledger == d.ledger)
    && (reply.Ok? ==> SignedNow(env, d, caller, req, now, txId, d', reply.result))
  }

  ghost predicate SignedNow(env: Env, d: Db, caller: Caller, req: SignRequest, now: int, txId: string, d': Db,
                            r: SignResult) {
    var k := NonceKey(req.wallet, req.chain);
    var signed := Signed(r.hash, r.signedRawTx);
    && r.txId == txId && IndexOf(d.ledger.txs, txId).None?
    && k in d.ledger.nonces && r.nonce == d.ledger.nonces[k].nextNonce
    && !HasStale(d.ledger.txs, k, now - env.settings.reservationLease)
    && env.parseInt(req.valueWei).Some?
    && signed == env.signTx(req.wallet, FieldsOf(env, req, r.nonce, env.parseInt(req.valueWei).value))
    && d'.ledger == WithSigned(d.ledger, NewTx(env, caller, req, now, txId, r.nonce, signed), FirstAttempt(req, signed))
  }

  lemma ReservedEffect(env: Env, d: Db, caller: Caller, req: SignRequest, clock: Clock, txId: string,
                       outcome: SignerOutcome, allow: PolicyEngine.Verdict)
    requires allow.Allow? && NonceKey(req.wallet, req.chain) in d.ledger.nonces
    requires !HasStale(d.ledger.txs, NonceKey(req.wallet, req.chain), clock.now - env.settings.reservationLease)
    ensures var r := SignReserved(env, d, caller, req, clock, txId, outcome, allow);
            SignEffect(env, d, caller, req, clock.now, txId, r.0, r.1)
  {
  }

  lemma AllowedEffect(env: Env, d: Db, caller: Caller, req: SignRequest, clock: Clock, txId: string,
                      outcome: SignerOutcome, allow: PolicyEngine.Verdict)
    requires allow.Allow?
    ensures var r := SignAllowed(env, d, caller, req, clock, txId, outcome, allow);
            SignEffect(env, d, caller, req, clock.now, txId, r.0, r.1)
  {
    var k := NonceKey(req.wallet, req.chain);
    if !HasStale(d.ledger.txs, k, clock.now - env.settings.reservationLease) && k in d.ledger.nonces {
      ReservedEffect(env, d, caller, req, clock, txId, outcome, allow);
    }
  }

  lemma SignFreshEffect(env: Env, d: Db, caller: Caller, req: SignRequest, clock: Clock, txId: string,
                        outcome: SignerOutcome)
    ensures var r := SignFresh(env, d, caller, req, clock, txId, outcome);
            && SignEffect(env, d, caller, req, clock.now, txId, r.0, r.1)
            && (r.1.Ok? ==> CapReason(env.settings, req).None?)
  {
    hide PolicyEngine.Evaluation, SignAllowed, SignEntry;
    if CapReason(env.settings, req).None? {
      var ev := PolicyEngine.Evaluation(env, d.buckets, caller, req, clock.now);
      if ev.0.Allow? {
        AllowedEffect(env, d.(buckets := ev.1), caller, req, clock, txId, outcome, ev.0);
      }
    }
  }

  /** A successful reply either signed just now or repeats a transaction the table already holds. */
  lemma SignStepEffect(env: Env, d: Db, caller: Caller, req: SignRequest, clock: Clock, txId: string,
                       outcome: SignerOutcome)
    ensures var r := SignStep(env, d, caller, req, clock, txId, outcome);
            && r.0.wallets == d.wallets
            && (r.1.Ok? && IndexOf(d.ledger.txs, r.1.result.txId).None? ==>
                  && SignedNow(env, d, caller, req, clock.now, txId, r.0, r.1.result)
                  && CapReason(env.settings, req).None?
                  && (req.idempotencyKey.Some? ==>
                       IndexOfKey(d.ledger.txs, caller.name, req.idempotencyKey.value).None?))
            && (!r.1.Ok? || IndexOf(d.ledger.txs, r.1.result.txId).Some? ==> r.0.ledger == d.ledger)
  {
    hide SignFresh;
    SignFreshEffect(env, d, caller, req, clock, txId, outcome);
    if req.idempotencyKey.Some? {
      var found := IndexOfKey(d.ledger.txs, caller.name, req.idempotencyKey.value);
      if found.Some? {
        assert IndexOf(d.ledger.txs, d.ledger.txs[found.value].txId).Some?;
      }
    }
  }

  /** The first attempt of a freshly signed transaction signs the recorded intent. */
  lemma FirstSignsIntent(env: Env, caller: Caller, req: SignRequest, now: int, txId: string, nonce: int, signed: Signed)
    requires RecordsData(env) && req.data != "" && env.parseInt(req.valueWei).Some?
    requires signed == env.signTx(req.wallet, FieldsOf(env, req, nonce, env.parseInt(req.valueWei).value))
    ensures SignsIntent(env, NewTx(env, caller, req, now, txId, nonce, signed), FirstAttempt(req, signed))
  {
    assert RecordedData(env, RequestJson(env, req)) == Some(req.data);
  }

  /** The move of a signing reply. */
  function SignMove(env: Env, l: Ledger, caller: Caller, req: SignRequest, now: int, reply: Reply): Move {
    if !reply.Ok? || IndexOf(l.txs, reply.result.txId).Some? then Stay
    else
      var r := reply.result;
      AddTx(NewTx(env, caller, req, now, r.txId, r.nonce, Signed(r.hash, r.signedRawTx)),
            Attempt(1, req.gas, req.maxFeePerGas, req.maxPriorityFeePerGas, r.signedRawTx, r.hash))
  }

  lemma SignMoves(env: Env, d: Db, caller: Caller, req: SignRequest, clock: Clock, txId: string, outcome: SignerOutcome)
    requires Validated(req) && RecordsData(env)
    ensures var r := SignStep(env, d, caller, req, clock, txId, outcome);
            var m := SignMove(env, d.ledger, caller, req, clock.now, r.1);
            Enabled(env, d.ledger, m) && r.0.ledger == Apply(d.ledger, m) && r.0.wallets == d.wallets
  {
    hide SignStep;
    SignStepEffect(env, d, caller, req, clock, txId, outcome);
    var r := SignStep(env, d, caller, req, clock, txId, outcome).1;
    if r.Ok? && IndexOf(d.ledger.txs, r.result.txId).None? {
      FirstSignsIntent(env, caller, req, clock.now, txId, r.result.nonce, Signed(r.result.hash, r.result.signedRawTx));
    }
  }

  lemma BroadcastMoves(env: Env, d: Db, caller: Caller, clock: Clock, txId: string, txHash: string,
                       result: BroadcastOutcome, errorClass: Option<string>)
    ensures var r := BroadcastStep(env, d, caller, clock, txId, txHash, result, errorClass);
            var i := IndexOf(d.ledger.txs, txId).GetOr(0);
            var m := if !r.1.Reported? then Stay
                     else if result == Accepted then MarkSent(i, clock.now)
                       else MarkFailed(i, result == RejectedReleaseable);
            Enabled(env, d.ledger, m) && r.0.ledger == Apply(d.ledger, m) && r.0.wallets == d.wallets
  {
  }

  lemma ReceiptMoves(env: Env, d: Db, caller: Caller, clock: Clock, txId: string, txHash: string, success: bool, n: int)
    ensures var r := ReceiptStep(env, d, caller, clock, txId, txHash, success, n);
            var i := IndexOf(d.ledger.txs, txId).GetOr(0);
            var m := if r.1.Reported? then MarkMined(i, success, clock.now, ReceiptText(env, success, n, txHash))
              else Stay;
            Enabled(env, d.ledger, m) && r.0.ledger == Apply(d.ledger, m) && r.0.wallets == d.wallets
  {
  }

  /** The move of a replacement reply. */
  function ReplaceMove(l: Ledger, txId: string, body: ReplacementBody, reply: ReplaceReply): Move {
    if !reply.Replaced? then Stay
    else AddReplacement(IndexOf(l.txs, txId).GetOr(0),
                        Attempt(reply.attempt, body.gas, body.maxFeePerGas, body.maxPriorityFeePerGas,
                          reply.signedRawTx, reply.hash))
  }

  lemma ReplaceMoves(env: Env, d: Db, caller: Caller, clock: Clock, txId: string, body: ReplacementBody,
                     failure: Option<string>)
    requires body.maxPriorityFeePerGas >= 0
    ensures var r := ReplaceStep(env, d, caller, clock, txId, body, failure);
            var m := ReplaceMove(d.ledger, txId, body, r.1);
            Enabled(env, d.ledger, m) && r.0.ledger == Apply(d.ledger, m) && r.0.wallets == d.wallets
  {
    hide MinPriority;
  }

  lemma InitMoves(env: Env, d: Db, body: InitBody, clock: Clock)
    requires !(body.force && body.forceWithInFlight)
    ensures var r, k := InitStep(env, d, body, clock), NonceKey(body.wallet, body.chain);
            var m := if r.1.Initialized? then SetRow(k, body.startingNonce) else Stay;
            && Enabled(env, d.ledger, m)
            && r.0.ledger == Apply(d.ledger, m) && r.0.wallets == d.wallets
  {
  }

  lemma SyncMoves(env: Env, d: Db, k: NonceKey, count: int, clock: Clock)
    ensures var r := SyncStep(env, d, k, count, clock);
            var m := if r.1.Advanced? then Jump(k, r.1.to) else Stay;
            && Enabled(env, d.ledger, m)
            && r.0.ledger == Apply(d.ledger, m) && r.0.wallets == d.wallets
  {
  }

  lemma FspKeepsTables(env: Env, d: Db, caller: Caller, req: FspRequest, clock: Clock, outcome: SignerOutcome)
    ensures var r := FspStep(env, d, caller, req, clock, outcome);
            r.0.ledger == d.ledger && r.0.wallets == d.wallets
  {
    hide Built, FspEntry, FspEvaluation;
  }

  /** Which move an event makes, read off what it answers. */
  function MoveOf(env: Env, l: Ledger, ev: Event, answer: Answer): Move {
    match (ev, answer)
    case (Sign(caller, req, clock, _, _), SignAnswer(reply)) => SignMove(env, l, caller, req, clock.now, reply)
    case (Broadcast(_, clock, txId, _, result, _), ReportAnswer(Reported(_))) =>
      var i := IndexOf(l.txs, txId).GetOr(0);
      if result == Accepted then MarkSent(i, clock.now) else MarkFailed(i, result == RejectedReleaseable)
    case (Receipt(_, clock, txId, txHash, success, n), ReportAnswer(Reported(_))) =>
      MarkMined(IndexOf(l.txs, txId).GetOr(0), success, clock.now, ReceiptText(env, success, n, txHash))
    case (Replace(_, _, txId, body, _), ReplaceAnswer(reply)) => ReplaceMove(l, txId, body, reply)
    case (Init(body, _), InitAnswer(Initialized(_))) => SetRow(NonceKey(body.wallet, body.chain), body.startingNonce)
    case (Sync(k, _, _), SyncAnswer(Advanced(_, to))) => Jump(k, to)
    case _ => Stay
  }

  /** Every request changes the ledger tables by exactly the move its answer names, and only when that
      move is enabled. */
  lemma StepMoves(env: Env, d: Db, ev: Event)
    requires Proper(ev) && RecordsData(env)
    ensures var r := Step(env, d, ev); var m := MoveOf(env, d.ledger, ev, r.1);
            Enabled(env, d.ledger, m) && r.0.ledger == Apply(d.ledger, m) && r.0.wallets == d.wallets
  {
    hide SignStep, FspStep, BroadcastStep, ReceiptStep, ReplaceStep, InitStep, SyncStep, SignMove, ReplaceMove;
    match ev {
      case Sign(caller, req, clock, txId, outcome) => SignMoves(env, d, caller, req, clock, txId, outcome);
      case SignFsp(caller, req, clock, outcome) => FspKeepsTables(env, d, caller, req, clock, outcome);
      case Broadcast(caller, clock, txId, h, result, e) => BroadcastMoves(env, d, caller, clock, txId, h, result, e);
      case Receipt(caller, clock, txId, h, success, n) => ReceiptMoves(env, d, caller, clock, txId, h, success, n);
      case Replace(caller, clock, txId, body, failure) => ReplaceMoves(env, d, caller, clock, txId, body, failure);
      case Init(body, clock) => InitMoves(env, d, body, clock);
      case Sync(k, count, clock) => SyncMoves(env, d, k, count, clock);
      case Prune(_) =>
    }
  }
}
