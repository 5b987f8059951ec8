/** What a report or a replacement is answered and what it leaves, said of the tables and the request: who is refused
    and why, which columns change for each outcome, and what happens to the nonce. */
module ReportOutcomes {
  import opened Prelude
  import opened PolicySchema
  import opened Environment
  import opened Store
  import opened RateWindows
  import opened TransactionRepo
  import opened SignTransaction
  import opened ReplacementFee
  import opened Transactions
  import AuditLog
  import CanonicalJson

  // ---------- The three guards ----------

  /** The client reports on its own transaction. */
  predicate Owns(d: Db, caller: Caller, txId: string, i: nat) {
    && i < |d.ledger.txs| && IndexOf(d.ledger.txs, txId) == Some(i)
    && d.ledger.txs[i].txId == txId && d.ledger.txs[i].caller == caller.name
  }

  predicate KnowsHash(d: Db, txId: string, txHash: string) {
    exists j :: 0 <= j < |HashesOf(d.ledger, txId)| && HashesOf(d.ledger, txId)[j].hashHex == txHash
  }

  /** The report passes: own transaction, a hash recorded for it, and the one status it may start from. */
  predicate ReportPasses(d: Db, caller: Caller, txId: string, txHash: string, from: Status, i: nat) {
    Owns(d, caller, txId, i) && KnowsHash(d, txId, txHash) && d.ledger.txs[i].status == from
  }

  /** Why a report is refused, if it is. */
  lemma GuardIsExact(env: Env, d: Db, caller: Caller, txId: string, txHash: string, from: Status, intent: string,
                     action: string)
    ensures var g := ReportGuard(env, d, caller, txId, txHash, from, intent, action);
            && (g.Stop? && g.reply == TxNotFound <==> forall i: nat :: !Owns(d, caller, txId, i))
            && (forall i: nat :: Owns(d, caller, txId, i) ==>
                  && (g.Stop? && g.reply == HashMismatch <==> !KnowsHash(d, txId, txHash))
                  && (g.Stop? && g.reply == IllegalTransition <==>
                        KnowsHash(d, txId, txHash) && d.ledger.txs[i].status != from)
                  && (g == Pass(i) <==> ReportPasses(d, caller, txId, txHash, from, i)))
            && (g.Pass? ==> ReportPasses(d, caller, txId, txHash, from, g.i))
  {
    hide ReportJson, StatusText;
    var found := IndexOf(d.ledger.txs, txId);
    if found.Some? && d.ledger.txs[found.value].caller == caller.name {
      assert Owns(d, caller, txId, found.value);
    }
  }

  // ---------- Rows that change ----------

  /** Only the transaction at `i` changes, and no hash or attempt. */
  predicate OnlyAt(l: Ledger, l': Ledger, i: nat)
    requires i < |l.txs|
  {
    && |l'.txs| == |l.txs| && (forall j :: 0 <= j < |l.txs| && j != i ==> l'.txs[j] == l.txs[j])
    && l'.hashes == l.hashes && l'.attempts == l.attempts
  }

  /** The nonce row of `tx` goes back to the transaction's own nonce if that was the last one handed out. */
  predicate GivesBack(l: Ledger, l': Ledger, tx: Tx) {
    var k := NonceKey(tx.wallet, tx.chain);
    if k in l.nonces && l.nonces[k].nextNonce == tx.nonce + 1
    then l'.nonces == l.nonces[k := NonceRow(tx.nonce, l.nonces[k].lastConfirmed)]
    else l'.nonces == l.nonces
  }

  // ---------- Broadcast result ----------

  lemma AcceptedRow(l: Ledger, i: nat, now: int)
    requires i < |l.txs|
    ensures var l' := Sent(l, i, now);
            && OnlyAt(l, l', i) && l'.nonces == l.nonces
            && l'.txs[i] == l.txs[i].(status := Submitted, submittedAt := Some(now))
  {
  }

  lemma DroppedRow(l: Ledger, i: nat, release: bool)
    requires i < |l.txs|
    ensures var l' := Dropped(l, i, release);
            && OnlyAt(l, l', i) && l'.txs[i] == l.txs[i].(status := Failed)
            && (if release then GivesBack(l, l', l.txs[i]) else l'.nonces == l.nonces)
  {
  }

  /** What the report says of the transaction. */
  function AfterReport(tx: Tx, outcome: BroadcastOutcome, now: int): Tx {
    match outcome
    case Accepted => tx.(status := Submitted, submittedAt := Some(now))
    case RejectedReleaseable => tx.(status := Failed)
    case RejectedNonceTooLow => tx.(status := Failed)
  }

  /** A report that passes marks its transaction and nothing else in the tables; the nonce moves only on a releaseable
      rejection, and then only if it was the last one handed out. An accepted transaction and one the chain has already
      overtaken leave every nonce row as it is. */
  lemma BroadcastIsExact(env: Env, d: Db, caller: Caller, clock: Clock, txId: string, txHash: string,
                         outcome: BroadcastOutcome, errorClass: Option<string>, i: nat)
    requires ReportPasses(d, caller, txId, txHash, Pending, i)
    ensures var r := BroadcastStep(env, d, caller, clock, txId, txHash, outcome, errorClass);
            var l, l' := d.ledger, r.0.ledger;
            && r.1 == Reported(l'.txs[i].status) && r.0.buckets == d.buckets && r.0.wallets == d.wallets
            && OnlyAt(l, l', i) && l'.txs[i] == AfterReport(l.txs[i], outcome, clock.now)
            && (outcome.Accepted? || outcome.RejectedNonceTooLow? ==> l'.nonces == l.nonces)
            && (outcome.RejectedReleaseable? ==> GivesBack(l, l', l.txs[i]))
  {
    GuardIsExact(env, d, caller, txId, txHash, Pending, OutcomeText(outcome), "tx-broadcast-result");
    AcceptedRow(d.ledger, i, clock.now);
    DroppedRow(d.ledger, i, outcome == RejectedReleaseable);
    hide ReportGuard, Sent, Dropped, OnlyAt, GivesBack, BroadcastEntry, AuditLog.AppendRow, ReportPasses;
  }

  /** Any other report is refused, with the reason it deserves, and leaves tables and counters alone. */
  lemma BroadcastRefusalIsExact(env: Env, d: Db, caller: Caller, clock: Clock, txId: string, txHash: string,
                                outcome: BroadcastOutcome, errorClass: Option<string>)
    requires forall i: nat :: !ReportPasses(d, caller, txId, txHash, Pending, i)
    ensures var r := BroadcastStep(env, d, caller, clock, txId, txHash, outcome, errorClass);
            && r.0.ledger == d.ledger && r.0.buckets == d.buckets && r.0.wallets == d.wallets
            && (r.1 == TxNotFound <==> forall i: nat :: !Owns(d, caller, txId, i))
            && (r.1 == HashMismatch <==>
                  (exists i: nat :: Owns(d, caller, txId, i)) && !KnowsHash(d, txId, txHash))
            && (r.1 == IllegalTransition <==>
                  exists i: nat :: Owns(d, caller, txId, i) && KnowsHash(d, txId, txHash)
                      && d.ledger.txs[i].status != Pending)
  {
    GuardIsExact(env, d, caller, txId, txHash, Pending, OutcomeText(outcome), "tx-broadcast-result");
    var g := ReportGuard(env, d, caller, txId, txHash, Pending, OutcomeText(outcome), "tx-broadcast-result");
    assert g.Stop?;
    hide ReportGuard, BroadcastEntry, AuditLog.AppendRow, ReportPasses, KnowsHash;
    OneOwned(d, caller, txId);
  }

  lemma OneOwned(d: Db, caller: Caller, txId: string)
    ensures forall i: nat, j: nat :: Owns(d, caller, txId, i) && Owns(d, caller, txId, j) ==> i == j
  {
  }

  // ---------- Receipt ----------

  /** The nonce of a mined transaction becomes the last confirmed one unless a later one already is. */
  predicate Confirms(l: Ledger, l': Ledger, tx: Tx) {
    var k := NonceKey(tx.wallet, tx.chain);
    if k in l.nonces then
      var last := l.nonces[k].lastConfirmed;
      l'.nonces == l.nonces[k := NonceRow(l.nonces[k].nextNonce,
                                          if last.Some? && last.value >= tx.nonce then last else Some(tx.nonce))]
    else l'.nonces == l.nonces
  }

  /** The value is added to what the wallet has mined on the day of the report, and no counter moves. */
  ghost predicate Debits(b: Buckets, b': Buckets, wallet: string, value: int, now: int) {
    && b'.callers == b.callers && b'.fsp == b.fsp
    && forall k: BucketKey<string> ::
        && WalletCounter(b'.wallets, k) == WalletCounter(b.wallets, k)
        && Aggregate(b'.wallets, k) ==
           Aggregate(b.wallets, k) + if k == BucketKey(wallet, Day, WindowStart(Day, now)) then value else 0
  }

  lemma ConfirmedRow(l: Ledger, i: nat, success: bool, now: int, receipt: string)
    requires i < |l.txs|
    ensures var l' := Confirmed(l, i, success, now, receipt);
            && OnlyAt(l, l', i) && Confirms(l, l', l.txs[i])
            && l'.txs[i] == l.txs[i].(status := if success then Mined else Reverted, confirmedAt := Some(now),
                                      receiptJson := Some(receipt))
  {
    var k := NonceKey(l.txs[i].wallet, l.txs[i].chain);
    var l' := Confirmed(l, i, success, now, receipt);
    if k in l.nonces {
      var row := l.nonces[k];
      assert l.nonces[k := row] == l.nonces;
    }
  }

  lemma CommittedDebits(b: Buckets, wallet: string, value: int, now: int)
    ensures Debits(b, b.(wallets := AddCommitted(b.wallets, wallet, value, now)), wallet, value, now)
  {
  }

  /** A receipt that passes marks its transaction mined or reverted and confirms its nonce; the day is debited on
      success only. A success whose recorded value cannot be read is an error that leaves everything alone. */
  lemma ReceiptIsExact(env: Env, d: Db, caller: Caller, clock: Clock, txId: string, txHash: string, success: bool,
                       blockNumber: int, i: nat)
    requires ReportPasses(d, caller, txId, txHash, Submitted, i)
    ensures var r := ReceiptStep(env, d, caller, clock, txId, txHash, success, blockNumber);
            var l, l', value := d.ledger, r.0.ledger, env.parseInt(d.ledger.txs[i].valueWei);
            if success && value.None? then r == (d, ReportCrash)
            else
              && r.1 == Reported(if success then Mined else Reverted) && r.0.wallets == d.wallets
              && OnlyAt(l, l', i) && Confirms(l, l', l.txs[i])
              && l'.txs[i].status == (if success then Mined else Reverted)
              && l'.txs[i].confirmedAt == Some(clock.now) && l'.txs[i].receiptJson.Some?
              && SameButReported(l.txs[i], l'.txs[i]) && l'.txs[i].submittedAt == l.txs[i].submittedAt
              && (if success then Debits(d.buckets, r.0.buckets, l.txs[i].wallet, value.value, clock.now)
                  else r.0.buckets == d.buckets)
  {
    GuardIsExact(env, d, caller, txId, txHash, Submitted, if success then "mined_success" else "mined_reverted",
                 "tx-receipt");
    ConfirmedRow(d.ledger, i, success, clock.now, ReceiptText(env, success, blockNumber, txHash));
    if env.parseInt(d.ledger.txs[i].valueWei).Some? {
      CommittedDebits(d.buckets, d.ledger.txs[i].wallet, env.parseInt(d.ledger.txs[i].valueWei).value, clock.now);
    }
    hide ReportGuard, Confirmed, OnlyAt, Confirms, ReceiptEntry, ReceiptText, AuditLog.AppendRow, ReportPasses, Debits,
      AddCommitted;
  }

  // ---------- Replacement ----------

  /** An attempt that no other has a higher number than. */
  predicate Latest(attempts: seq<Attempt>, a: Attempt) {
    a in attempts && forall b :: b in attempts ==> b.sequenceNum <= a.sequenceNum
  }

  lemma {:induction false} LatestIsHighest(attempts: seq<Attempt>)
    ensures LatestAttempt(attempts).None? <==> attempts == []
    ensures LatestAttempt(attempts).Some? ==> Latest(attempts, LatestAttempt(attempts).value)
    decreases |attempts|
  {
    if attempts != [] {
      var shorter, last := attempts[..|attempts| - 1], attempts[|attempts| - 1];
      LatestIsHighest(shorter);
      assert forall b :: b in attempts <==> b in shorter || b == last;
    }
  }

  /** The recorded request can be read, and its calldata is a text and not empty. */
  lemma RecordedDataIsExact(env: Env, json: string, data: string)
    ensures RecordedData(env, json) == Some(data) <==>
              && env.loads(json).Some? && data != ""
              && CanonicalJson.Get(env.loads(json).value, "data") == Some(CanonicalJson.Str(data))
  {
  }

  /** The new fees reach the latest attempt's: the priority fee by an eighth, the maximum fee by itself. */
  predicate Outbids(body: ReplacementBody, prev: Option<Attempt>) {
    prev.Some? ==>
      && body.maxPriorityFeePerGas >= MinPriority(prev.value.maxPriorityFeePerGas)
      && body.maxFeePerGas >= prev.value.maxFeePerGas
  }

  /** A replacement that nothing refuses: submitted, outbidding, within the limits, fewer than five attempts so far, and
      the recorded calldata can be read back. */
  predicate MayReplace(env: Env, tx: Tx, attempts: seq<Attempt>, body: ReplacementBody) {
    && tx.status == Submitted && Outbids(body, LatestAttempt(attempts))
    && body.maxPriorityFeePerGas <= body.maxFeePerGas <= env.settings.maxFeePerGas && body.gas <= env.settings.maxGas
    && |attempts| < 5 && RecordedData(env, tx.requestJson).Some?
  }

  lemma RefusedIsExact(env: Env, tx: Tx, attempts: seq<Attempt>, body: ReplacementBody)
    ensures var why, prev := WhyRefused(env, tx, attempts, body), LatestAttempt(attempts);
            && (why.None? <==> MayReplace(env, tx, attempts, body))
            && (why.Some? && why.value.NotSubmitted? <==> tx.status != Submitted)
            && (why.Some? && (why.value.PriorityTooLow? || why.value.MaxFeeTooLow?) <==>
                  tx.status == Submitted && !Outbids(body, prev))
            && (tx.status == Submitted && Outbids(body, prev) ==>
                  && (why == Some(PriorityExceedsMaxFee) <==> body.maxPriorityFeePerGas > body.maxFeePerGas)
                  && (why == Some(GasExceedsCap) <==>
                        body.maxPriorityFeePerGas <= body.maxFeePerGas && body.gas > env.settings.maxGas)
                  && (body.maxPriorityFeePerGas <= body.maxFeePerGas && body.gas <= env.settings.maxGas ==>
                        && (why == Some(MaxFeeExceedsCap) <==> body.maxFeePerGas > env.settings.maxFeePerGas)
                        && (body.maxFeePerGas <= env.settings.maxFeePerGas ==>
                              && (why == Some(CapExhausted) <==> |attempts| >= 5)
                              && (why == Some(IntentUnrecoverable) <==>
                                    |attempts| < 5 && RecordedData(env, tx.requestJson).None?))))
  {
    hide MinPriority, LatestAttempt, RecordedData;
  }

  /** The transaction a replacement signs: the original's chain, nonce, recipient, value and calldata with the new gas
      and fees. */
  function Repriced(env: Env, tx: Tx, data: string, value: int, body: ReplacementBody): TxFields {
    TxFields(chainId := tx.chain, nonce := tx.nonce, to := env.checksum(tx.contractAddress), value := value,
             data := data, gas := body.gas, maxFeePerGas := body.maxFeePerGas,
             maxPriorityFeePerGas := body.maxPriorityFeePerGas)
  }

  lemma AttemptRows(l: Ledger, txId: string, a: Attempt)
    ensures var l' := WithAttempt(l, txId, a);
            && l'.nonces == l.nonces && l'.txs == l.txs
            && l'.attempts == l.attempts[txId := AttemptsOf(l, txId) + [a]]
            && l'.hashes == l.hashes[txId := HashesOf(l, txId) + [TxHash(a.sequenceNum, a.hash)]]
  {
  }

  /** The tables after a replacement: the next attempt and its hash, signed for the original intent at the original
      nonce, and every other row as it was. */
  predicate Replacing(env: Env, d: Db, tx: Tx, body: ReplacementBody, value: int, l': Ledger, reply: ReplaceReply)
    requires RecordedData(env, tx.requestJson).Some?
  {
    var attempts, hashes := AttemptsOf(d.ledger, tx.txId), HashesOf(d.ledger, tx.txId);
    var n := |attempts| + 1;
    var signed := env.signTx(tx.wallet, Repriced(env, tx, RecordedData(env, tx.requestJson).value, value, body));
    var a := Attempt(n, body.gas, body.maxFeePerGas, body.maxPriorityFeePerGas, signed.raw, signed.hash);
    && reply == Replaced(signed.raw, signed.hash, tx.nonce, n)
    && l'.nonces == d.ledger.nonces && l'.txs == d.ledger.txs
    && l'.attempts == d.ledger.attempts[tx.txId := attempts + [a]]
    && l'.hashes == d.ledger.hashes[tx.txId := hashes + [TxHash(n, signed.hash)]]
  }

  lemma ReplacementWrites(env: Env, d: Db, caller: Caller, clock: Clock, txId: string, body: ReplacementBody, i: nat)
    requires Owns(d, caller, txId, i)
    requires var tx := d.ledger.txs[i];
             && WhyRefused(env, tx, AttemptsOf(d.ledger, txId), body).None?
             && RecordedData(env, tx.requestJson).Some? && env.parseInt(tx.valueWei).Some?
    ensures var r, tx := ReplaceStep(env, d, caller, clock, txId, body, None), d.ledger.txs[i];
            Replacing(env, d, tx, body, env.parseInt(tx.valueWei).value, r.0.ledger, r.1)
  {
    var tx, attempts := d.ledger.txs[i], AttemptsOf(d.ledger, txId);
    hide WhyRefused, RecordedData, ReplacementEntry, AuditLog.AppendRow, WithAttempt, IndexOf, AttemptsOf, HashesOf;
    var signed := env.signTx(tx.wallet, Repriced(env, tx, RecordedData(env, tx.requestJson).value,
                                                 env.parseInt(tx.valueWei).value, body));
    AttemptRows(d.ledger, txId, Attempt(|attempts| + 1, body.gas, body.maxFeePerGas, body.maxPriorityFeePerGas,
                                        signed.raw, signed.hash));
  }

  /** A replacement of one's own transaction: refused exactly when something refuses it, and then nothing changes in the
      tables; otherwise the signer decides, and a signed one appends the next attempt and its hash. */
  lemma ReplacementIsExact(env: Env, d: Db, caller: Caller, clock: Clock, txId: string, body: ReplacementBody,
                           failure: Option<string>, i: nat)
    requires Owns(d, caller, txId, i)
    ensures var r, tx := ReplaceStep(env, d, caller, clock, txId, body, failure), d.ledger.txs[i];
            var attempts := AttemptsOf(d.ledger, txId);
            var may, value := MayReplace(env, tx, attempts, body), env.parseInt(tx.valueWei);
            && r.0.buckets == d.buckets && r.0.wallets == d.wallets
            && (r.1.Refused? <==> !may) && !r.1.ReplaceNotFound?
            && (r.1.Refused? ==> WhyRefused(env, tx, attempts, body) == Some(r.1.why))
            && (r.1.ReplaceCrash? <==> may && value.None?)
            && (r.1.VaultUnavailable? <==> may && value.Some? && failure.Some?)
            && (r.1.Replaced? <==> may && value.Some? && failure.None?)
            && (!r.1.Replaced? ==> r.0.ledger == d.ledger)
            && (r.1.Replaced? ==>
                  RecordedData(env, tx.requestJson).Some?
                  && Replacing(env, d, tx, body, value.value, r.0.ledger, r.1))
  {
    var tx, attempts := d.ledger.txs[i], AttemptsOf(d.ledger, txId);
    RefusedIsExact(env, tx, attempts, body);
    MayReads(env, tx, attempts, body);
    hide MayReplace, Replacing;
    if MayReplace(env, tx, attempts, body) && env.parseInt(tx.valueWei).Some? && failure.None? {
      ReplacementWrites(env, d, caller, clock, txId, body, i);
    }
    hide WhyRefused, RecordedData, RefusalEntry, ReplacementEntry, AuditLog.AppendRow, WithAttempt, IndexOf,
      Outbids, LatestAttempt, AttemptsOf, HashesOf;
  }

  lemma MayReads(env: Env, tx: Tx, attempts: seq<Attempt>, body: ReplacementBody)
    ensures MayReplace(env, tx, attempts, body) ==> RecordedData(env, tx.requestJson).Some?
  {
  }

  /** Somebody else's transaction, or none, is not found, and nothing changes. */
  lemma ReplacementNotFoundIff(env: Env, d: Db, caller: Caller, clock: Clock, txId: string, body: ReplacementBody,
                               failure: Option<string>)
    ensures var r := ReplaceStep(env, d, caller, clock, txId, body, failure);
            && (r.1.ReplaceNotFound? <==> forall i: nat :: !Owns(d, caller, txId, i))
            && (r.1.ReplaceNotFound? ==> r.0 == d)
  {
    hide WhyRefused, RecordedData, RefusalEntry, ReplacementEntry, AuditLog.AppendRow, WithAttempt;
    var found := IndexOf(d.ledger.txs, txId);
    if found.Some? && d.ledger.txs[found.value].caller == caller.name {
      assert Owns(d, caller, txId, found.value);
    }
  }
}
