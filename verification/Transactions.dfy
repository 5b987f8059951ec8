/** What the client reports back about a signed transaction, and the replacement of a stuck one at the
    same nonce. A denied report commits its audit row before the refusal. */
module Transactions {
  import opened Prelude
  import opened PolicySchema
  import opened Environment
  import opened Store
  import opened CanonicalJson
  import opened TransactionRepo
  import AuditLog
  import AuditRepo
  import NonceRepo
  import RateRepo
  import RateWindows
  import opened SignTransaction
  import opened ReplacementFee
  import TxRepo = TransactionRepo

  datatype BroadcastOutcome = Accepted | RejectedReleaseable | RejectedNonceTooLow

  datatype ReportReply = Reported(status: Status) | TxNotFound | HashMismatch | IllegalTransition | ReportCrash {
    predicate Audited() {
      HashMismatch? || IllegalTransition?
    }
  }

  function StatusText(s: Status): string {
    match s
    case Pending => "pending"
    case Submitted => "submitted"
    case Mined => "mined"
    case Failed => "failed"
    case Reverted => "reverted"
  }

  function OutcomeText(o: BroadcastOutcome): string {
    match o
    case Accepted => "accepted"
    case RejectedReleaseable => "rejected_releaseable"
    case RejectedNonceTooLow => "rejected_nonce_too_low"
  }

  function KeyOf(tx: Tx): NonceKey {
    NonceKey(tx.wallet, tx.chain)
  }

  function ReportJson(env: Env, txId: string, txHash: string): string {
    env.dumps([Field("tx_id", Str(txId)), Field("tx_hash", Str(txHash))])
  }

  function ReportEntry(caller: Caller, action: string, decision: string, json: string, reason: Option<string>,
                 outcome: Option<string>): AuditLog.Entry
  {
    AuditLog.Entry(Some(caller.name), action, Some(json), decision, reason, outcome)
  }

  // ---------- The three guards ----------

  /** Ownership, then a hash this service recorded, then the one legal source status. */
  datatype Guard = Pass(i: nat) | Stop(reply: ReportReply, logged: Option<AuditLog.Entry>)

  function ReportGuard(env: Env, d: Db, caller: Caller, txId: string, txHash: string, required: Status,
                       intent: string, action: string): (g: Guard)
    ensures g.Pass? ==> g.i < |d.ledger.txs| && d.ledger.txs[g.i].txId == txId
    ensures g.Pass? ==> d.ledger.txs[g.i].caller == caller.name && d.ledger.txs[g.i].status == required
    ensures g.Stop? ==> !g.reply.Reported? && !g.reply.ReportCrash?
    ensures g.Stop? ==> (g.logged.Some? <==> g.reply.Audited())
    ensures g.Stop? && g.logged.Some? ==> g.logged.value.action == action && g.logged.value.decision == "denied"
  {
    match IndexOf(d.ledger.txs, txId)
    case None => Stop(TxNotFound, None)
    case Some(i) =>
      var tx := d.ledger.txs[i];
      if tx.caller != caller.name then Stop(TxNotFound, None)
      else if forall j :: 0 <= j < |HashesOf(d.ledger, txId)| ==> HashesOf(d.ledger, txId)[j].hashHex != txHash then
        Stop(HashMismatch, Some(ReportEntry(caller, action, "denied", ReportJson(env, txId, txHash),
          Some("tx_hash_mismatch"), None)))
      else if tx.status != required then
        Stop(IllegalTransition, Some(ReportEntry(
          caller, action, "denied", env.dumps([Field("tx_id", Str(txId))]),
          Some("illegal_transition:" + StatusText(tx.status) + "->" + intent), None)))
      else Pass(i)
  }

  function Stopped(env: Env, d: Db, g: Guard, clock: Clock): (Db, ReportReply)
    requires g.Stop?
  {
    (if g.logged.Some? then Logged(env, d, g.logged.value, clock) else d, g.reply)
  }

  // ---------- Broadcast result ----------

  function OptStr(o: Option<string>): Value {
    AuditLog.Nullable(o)
  }

  function BroadcastEntry(env: Env, caller: Caller, txId: string, txHash: string, outcome: BroadcastOutcome,
                          errorClass: Option<string>, released: bool): AuditLog.Entry
  {
    var json := ReportJson(env, txId, txHash);
    match outcome
    case Accepted =>
      ReportEntry(caller, "tx-broadcast-result", "approved", json, Some("broadcast_accepted"),
            Some(env.dumps([Field("tx_hash", Str(txHash))])))
    case RejectedReleaseable =>
      ReportEntry(caller, "tx-broadcast-result", "approved", json, Some("broadcast_rejected_releaseable"),
            Some(env.dumps([Field("tx_hash", Str(txHash)), Field("error_class", OptStr(errorClass)),
                            Field("released", Bool(released))])))
    case RejectedNonceTooLow =>
      ReportEntry(caller, "tx-broadcast-result", "approved", json, Some("broadcast_rejected_nonce_too_low"),
            Some(env.dumps([Field("tx_hash", Str(txHash)), Field("error_class", OptStr(errorClass)),
                            Field("hint", Str("chain ahead of fwd; admin nonce-sync required (ship a11+)"))])))
  }

  function Sent(l: Ledger, i: nat, now: int): Ledger
    requires i < |l.txs|
  {
    UpdateAt(l, i, StatusUpdate(Submitted, Some(now), None, None))
  }

  function Dropped(l: Ledger, i: nat, release: bool): Ledger
    requires i < |l.txs|
  {
    var tx := l.txs[i];
    var l1 := if release then l.(nonces := NonceRepo.Release(l.nonces, KeyOf(tx), tx.nonce)) else l;
    UpdateAt(l1, i, StatusUpdate(Failed, None, None, None))
  }

  function BroadcastStep(env: Env, d: Db, caller: Caller, clock: Clock, txId: string, txHash: string,
                         outcome: BroadcastOutcome, errorClass: Option<string>): (Db, ReportReply)
  {
    var g := ReportGuard(env, d, caller, txId, txHash, Pending, OutcomeText(outcome), "tx-broadcast-result");
    if g.Stop? then Stopped(env, d, g, clock)
    else
      var tx := d.ledger.txs[g.i];
      var released := NonceRepo.Releasable(d.ledger.nonces, KeyOf(tx), tx.nonce);
      var l := if outcome == Accepted then Sent(d.ledger, g.i, clock.now)
               else Dropped(d.ledger, g.i, outcome == RejectedReleaseable);
      (Logged(env, d.(ledger := l), BroadcastEntry(env, caller, txId, txHash, outcome, errorClass, released), clock),
       Reported(if outcome == Accepted then Submitted else Failed))
  }

  // ---------- Receipt ----------

  function ReceiptText(env: Env, success: bool, blockNumber: int, txHash: string): string {
    env.dumps([Field("block_number", Int(blockNumber)), Field("tx_hash", Str(txHash)),
               Field("status", Int(if success then 1 else 0))])
  }

  function Confirmed(l: Ledger, i: nat, success: bool, now: int, receipt: string): Ledger
    requires i < |l.txs|
  {
    var tx := l.txs[i];
    var l1 := UpdateAt(l, i, StatusUpdate(if success then Mined else Reverted, None, Some(now), Some(receipt)));
    l1.(nonces := NonceRepo.MarkConfirmed(l1.nonces, KeyOf(tx), tx.nonce))
  }

  function ReceiptEntry(env: Env, caller: Caller, txId: string, txHash: string, success: bool): AuditLog.Entry {
    ReportEntry(caller, "tx-receipt", "approved", ReportJson(env, txId, txHash),
          Some(if success then "receipt_mined_success" else "receipt_mined_reverted"), None)
  }

  /** Only a successful receipt counts the value against the wallet's day. */
  function ReceiptStep(env: Env, d: Db, caller: Caller, clock: Clock, txId: string, txHash: string,
                       success: bool, blockNumber: int): (Db, ReportReply)
  {
    var intent := if success then "mined_success" else "mined_reverted";
    var g := ReportGuard(env, d, caller, txId, txHash, Submitted, intent, "tx-receipt");
    if g.Stop? then Stopped(env, d, g, clock)
    else
      var tx := d.ledger.txs[g.i];
      var value := env.parseInt(tx.valueWei);
      if success && value.None? then (d, ReportCrash)
      else
        var l := Confirmed(d.ledger, g.i, success, clock.now, ReceiptText(env, success, blockNumber, txHash));
        var b :=
          if success then
            d.buckets.(wallets := RateWindows.AddCommitted(d.buckets.wallets, tx.wallet, value.value, clock.now))
          else d.buckets;
        (Logged(env, d.(ledger := l, buckets := b), ReceiptEntry(env, caller, txId, txHash, success), clock),
         Reported(if success then Mined else Reverted))
  }

  // ---------- Replacement ----------

  datatype ReplacementBody = ReplacementBody(gas: int, maxFeePerGas: int, maxPriorityFeePerGas: int)

  datatype ReplaceReply =
    | Replaced(signedRawTx: string, hash: string, nonce: int, attempt: int)
    | ReplaceNotFound
    | Refused(why: Refusal)
    | VaultUnavailable
    | ReplaceCrash

  datatype Refusal = NotSubmitted(status: Status) | PriorityTooLow(required: int) | MaxFeeTooLow(previous: int)
                   | PriorityExceedsMaxFee | GasExceedsCap | MaxFeeExceedsCap | CapExhausted | IntentUnrecoverable

  /** The attempt with the highest sequence number. */
  function LatestAttempt(attempts: seq<Attempt>): Option<Attempt> {
    if attempts == [] then None
    else
      var last := attempts[|attempts| - 1];
      match LatestAttempt(attempts[..|attempts| - 1])
      case None => Some(last)
      case Some(a) => if last.sequenceNum > a.sequenceNum then Some(last) else Some(a)
  }

  /** The calldata recorded with the original request; a missing or empty one is not a calldata. */
  function RecordedData(env: Env, requestJson: string): Option<string> {
    match env.loads(requestJson)
    case None => None
    case Some(fs) =>
      match Get(fs, "data")
      case Some(Str(data)) => if data == "" then None else Some(data)
      case _ => None
  }

  const MAX_ATTEMPTS := 5

  /** Everything that can refuse a replacement of `tx`, in the order it is checked. */
  function WhyRefused(env: Env, tx: Tx, attempts: seq<Attempt>, body: ReplacementBody): Option<Refusal> {
    var prev := LatestAttempt(attempts);
    if tx.status != Submitted then Some(NotSubmitted(tx.status))
    else if prev.Some? && body.maxPriorityFeePerGas < MinPriority(prev.value.maxPriorityFeePerGas) then
      Some(PriorityTooLow(MinPriority(prev.value.maxPriorityFeePerGas)))
    else if prev.Some? && body.maxFeePerGas < prev.value.maxFeePerGas then Some(MaxFeeTooLow(prev.value.maxFeePerGas))
    else if body.maxPriorityFeePerGas > body.maxFeePerGas then Some(PriorityExceedsMaxFee)
    else if body.gas > env.settings.maxGas then Some(GasExceedsCap)
    else if body.maxFeePerGas > env.settings.maxFeePerGas then Some(MaxFeeExceedsCap)
    else if |attempts| >= MAX_ATTEMPTS then Some(CapExhausted)
    else if RecordedData(env, tx.requestJson).None? then Some(IntentUnrecoverable)
    else None
  }

  function RefusalEntry(env: Env, caller: Caller, txId: string, body: ReplacementBody, why: Refusal): AuditLog.Entry {
    var plain := env.dumps([Field("tx_id", Str(txId))]);
    var json := match why
      case PriorityTooLow(r) =>
        env.dumps([Field("tx_id", Str(txId)), Field("max_priority_fee_per_gas", Int(body.maxPriorityFeePerGas)),
                   Field("min_required", Int(r))])
      case MaxFeeTooLow(p) =>
        env.dumps([Field("tx_id", Str(txId)), Field("max_fee_per_gas", Int(body.maxFeePerGas)),
                   Field("prev_max_fee_per_gas", Int(p))])
      case _ => plain;
    var reason := match why
      case NotSubmitted(st) => "illegal_transition:" + StatusText(st) + "->replacement"
      case PriorityTooLow(_) => "replacement_bump_too_low"
      case MaxFeeTooLow(_) => "replacement_bump_too_low"
      case PriorityExceedsMaxFee => "tx_params_rejected:priority_exceeds_maxfee"
      case GasExceedsCap =>
        "tx_params_rejected:gas_exceeds_cap:" + PrintInt(body.gas) + ">" + PrintInt(env.settings.maxGas)
      case MaxFeeExceedsCap =>
        "tx_params_rejected:max_fee_exceeds_cap:" + PrintInt(body.maxFeePerGas) + ">" +
          PrintInt(env.settings.maxFeePerGas)
      case CapExhausted => "replacement_cap_exhausted"
      case IntentUnrecoverable => "replacement_intent_unrecoverable";
    ReportEntry(caller, "tx-replacement", "denied", json, Some(reason), None)
  }

  /** The same intent at the same nonce; only gas and fees are the client's. */
  function ReplacementFields(env: Env, tx: Tx, data: string, value: int, body: ReplacementBody): TxFields {
    TxFields(tx.chain, tx.nonce, env.checksum(tx.contractAddress), value, data, body.gas, body.maxFeePerGas,
             body.maxPriorityFeePerGas)
  }

  function WithAttempt(l: Ledger, txId: string, a: Attempt): Ledger {
    AddHashRow(AddAttemptRow(l, txId, a), txId, TxHash(a.sequenceNum, a.hash))
  }

  function ReplacementEntry(env: Env, caller: Caller, tx: Tx, seqNo: int, hash: string): AuditLog.Entry {
    ReportEntry(caller, "tx-replacement", "approved", env.dumps([Field("tx_id", Str(tx.txId))]), None,
          Some(env.dumps([Field("prev_seq", Int(seqNo - 1)), Field("new_seq", Int(seqNo)), Field("new_hash", Str(hash)),
                          Field("nonce", Int(tx.nonce))])))
  }

  /** `failure` names the error the signer raises, if it raises one. */
  function ReplaceStep(env: Env, d: Db, caller: Caller, clock: Clock, txId: string, body: ReplacementBody,
                       failure: Option<string>): (Db, ReplaceReply)
  {
    match IndexOf(d.ledger.txs, txId)
    case None => (d, ReplaceNotFound)
    case Some(i) =>
      var tx := d.ledger.txs[i];
      var attempts := AttemptsOf(d.ledger, txId);
      if tx.caller != caller.name then (d, ReplaceNotFound)
      else match WhyRefused(env, tx, attempts, body)
        case Some(why) => (Logged(env, d, RefusalEntry(env, caller, txId, body, why), clock), Refused(why))
        case None =>
          var value := env.parseInt(tx.valueWei);
          if value.None? then (d, ReplaceCrash)
          else if failure.Some? then
            var e := ReportEntry(caller, "tx-replacement", "error", env.dumps([Field("tx_id", Str(txId))]),
                           Some("sign_failure:" + failure.value), None);
            (Logged(env, d, e, clock), VaultUnavailable)
          else
            var data := RecordedData(env, tx.requestJson).value;
            var signed := env.signTx(tx.wallet, ReplacementFields(env, tx, data, value.value, body));
            var seqNo := |attempts| + 1;
            var a := Attempt(seqNo, body.gas, body.maxFeePerGas, body.maxPriorityFeePerGas, signed.raw, signed.hash);
            (Logged(env, d.(ledger := WithAttempt(d.ledger, txId, a)),
              ReplacementEntry(env, caller, tx, seqNo, signed.hash), clock),
             Replaced(signed.raw, signed.hash, tx.nonce, seqNo))
  }

  // ---------- How they run ----------

  method CheckReport(env: Env, s: Session, caller: Caller, txId: string, txHash: string, required: Status,
                     intent: string, action: string, clock: Clock) returns (g: Guard)
    requires action in AuditRepo.VALID_ACTIONS
    modifies s
    ensures g == ReportGuard(env, old(s.db), caller, txId, txHash, required, intent, action)
    ensures g.Pass? ==> s.db == old(s.db) && s.committed == old(s.committed)
    ensures g.Stop? ==> s.db == Stopped(env, old(s.db), g, clock).0
    ensures g.Stop? ==> s.committed == if g.reply.Audited() then s.db else old(s.committed)
  {
    var txs := new TxRepo.Repo(s);
    var found := txs.Find(txId);
    if found == None {
      return Stop(TxNotFound, None);
    }
    var tx := s.db.ledger.txs[found.value];
    if tx.caller != caller.name {
      return Stop(TxNotFound, None);
    }
    var hashes := HashesOf(s.db.ledger, txId);
    var known := false;
    for j := 0 to |hashes|
      invariant known <==> exists m :: 0 <= m < j && hashes[m].hashHex == txHash
    {
      known := known || hashes[j].hashHex == txHash;
    }
    if !known {
      var e := ReportEntry(caller, action, "denied", ReportJson(env, txId, txHash), Some("tx_hash_mismatch"), None);
      AuditAndCommit(env, s, e, clock);
      return Stop(HashMismatch, Some(e));
    }
    if tx.status != required {
      var e := ReportEntry(caller, action, "denied", env.dumps([Field("tx_id", Str(txId))]),
                     Some("illegal_transition:" + StatusText(tx.status) + "->" + intent), None);
      AuditAndCommit(env, s, e, clock);
      return Stop(IllegalTransition, Some(e));
    }
    g := Pass(found.value);
  }

  method PostBroadcastResult(env: Env, s: Session, caller: Caller, clock: Clock, txId: string, txHash: string,
                             outcome: BroadcastOutcome, errorClass: Option<string>) returns (reply: ReportReply)
    requires s.db == s.committed
    modifies s
    ensures (s.committed, reply) == BroadcastStep(env, old(s.committed), caller, clock, txId, txHash, outcome,
      errorClass)
    ensures s.db == s.committed
  {
    var g := CheckReport(env, s, caller, txId, txHash, Pending, OutcomeText(outcome), "tx-broadcast-result", clock);
    if g.Stop? {
      s.Leave(true);
      return g.reply;
    }
    var tx := s.db.ledger.txs[g.i];
    var txs := new TxRepo.Repo(s);
    var released := NonceRepo.Releasable(s.db.ledger.nonces, KeyOf(tx), tx.nonce);
    match outcome {
      case Accepted =>
        txs.UpdateStatus(g.i, StatusUpdate(Submitted, Some(clock.now), None, None));
        reply := Reported(Submitted);
      case RejectedReleaseable =>
        var nonces := new NonceRepo.Repo(s);
        released := nonces.ReleaseIfUnused(tx.wallet, tx.chain, tx.nonce);
        txs.UpdateStatus(g.i, StatusUpdate(Failed, None, None, None));
        reply := Reported(Failed);
      case RejectedNonceTooLow =>
        txs.UpdateStatus(g.i, StatusUpdate(Failed, None, None, None));
        reply := Reported(Failed);
    }
    Audit(env, s, BroadcastEntry(env, caller, txId, txHash, outcome, errorClass, released), clock);
    s.Leave(false);
  }

  method PostReceipt(env: Env, s: Session, caller: Caller, clock: Clock, txId: string, txHash: string,
                     success: bool, blockNumber: int) returns (reply: ReportReply)
    requires s.db == s.committed
    modifies s
    ensures (s.committed, reply) == ReceiptStep(env, old(s.committed), caller, clock, txId, txHash, success,
      blockNumber)
    ensures s.db == s.committed
  {
    var intent := if success then "mined_success" else "mined_reverted";
    var g := CheckReport(env, s, caller, txId, txHash, Submitted, intent, "tx-receipt", clock);
    if g.Stop? {
      s.Leave(true);
      return g.reply;
    }
    var tx := s.db.ledger.txs[g.i];
    var txs := new TxRepo.Repo(s);
    var nonces := new NonceRepo.Repo(s);
    var receipt := ReceiptText(env, success, blockNumber, txHash);
    txs.UpdateStatus(g.i, StatusUpdate(if success then Mined else Reverted, None, Some(clock.now), Some(receipt)));
    nonces.MarkConfirmedAt(tx.wallet, tx.chain, tx.nonce);
    if success {
      var value := env.parseInt(tx.valueWei);
      if value == None {
        s.Leave(true);
        return ReportCrash;
      }
      var rates := new RateRepo.Repo(s);
      rates.AddCommittedValue(tx.wallet, value.value, clock.now);
    }
    Audit(env, s, ReceiptEntry(env, caller, txId, txHash, success), clock);
    s.Leave(false);
    reply := Reported(if success then Mined else Reverted);
  }

  method PostSignReplacement(env: Env, s: Session, caller: Caller, clock: Clock, txId: string, body: ReplacementBody,
                             failure: Option<string>) returns (reply: ReplaceReply)
    requires s.db == s.committed
    modifies s
    ensures (s.committed, reply) == ReplaceStep(env, old(s.committed), caller, clock, txId, body, failure)
    ensures s.db == s.committed
  {
    var txs := new TxRepo.Repo(s);
    var found := txs.Find(txId);
    if found == None || s.db.ledger.txs[found.value].caller != caller.name {
      s.Leave(true);
      return ReplaceNotFound;
    }
    var tx := s.db.ledger.txs[found.value];
    var attempts := AttemptsOf(s.db.ledger, txId);
    var why := WhyRefused(env, tx, attempts, body);
    if why != None {
      AuditAndCommit(env, s, RefusalEntry(env, caller, txId, body, why.value), clock);
      s.Leave(true);
      return Refused(why.value);
    }
    var newSeq := |attempts| + 1;
    var data := RecordedData(env, tx.requestJson).value;
    var value := env.parseInt(tx.valueWei);
    if value == None {
      s.Leave(true);
      return ReplaceCrash;
    }
    if failure != None {
      var e := ReportEntry(caller, "tx-replacement", "error", env.dumps([Field("tx_id", Str(txId))]),
                     Some("sign_failure:" + failure.value), None);
      AuditAndCommit(env, s, e, clock);
      s.Leave(true);
      return VaultUnavailable;
    }
    var signed := env.signTx(tx.wallet, ReplacementFields(env, tx, data, value.value, body));
    txs.AddAttempt(txId,
                   Attempt(newSeq, body.gas, body.maxFeePerGas, body.maxPriorityFeePerGas, signed.raw, signed.hash));
    txs.AddHash(txId, signed.hash, newSeq);
    Audit(env, s, ReplacementEntry(env, caller, tx, newSeq, signed.hash), clock);
    s.Leave(false);
    reply := Replaced(signed.raw, signed.hash, tx.nonce, newSeq);
  }
}
