/** Rate accounting over whole runs, one bucket at a time: the counters agree with the transactions on
    record and never pass their caps, and the daily aggregate is the value mined that day. */
module RateAccounting {
  import opened Prelude
  import opened PolicySchema
  import opened Environment
  import opened Store
  import opened RateWindows
  import opened TransactionRepo
  import opened SignTransaction
  import opened Transactions
  import opened NonceAdmin
  import opened SignFspMessage
  import opened Service
  import opened RateEffects
  import opened Ladder
  import NonceSafety
  import PolicyEngine

  // ---------- Totals over the transactions on record ----------

  function Total(txs: seq<Tx>, f: Tx -> int): int {
    if txs == [] then 0 else Total(txs[..|txs| - 1], f) + f(txs[|txs| - 1])
  }

  lemma {:induction false} TotalSame(txs: seq<Tx>, txs': seq<Tx>, f: Tx -> int)
    requires |txs| == |txs'| && forall i :: 0 <= i < |txs| ==> f(txs[i]) == f(txs'[i])
    ensures Total(txs, f) == Total(txs', f)
    decreases |txs|
  {
    if txs != [] {
      TotalSame(txs[..|txs| - 1], txs'[..|txs| - 1], f);
    }
  }

  lemma TotalAppend(txs: seq<Tx>, tx: Tx, f: Tx -> int)
    ensures Total(txs + [tx], f) == Total(txs, f) + f(tx)
  {
    assert (txs + [tx])[..|txs|] == txs;
  }

  lemma {:induction false} TotalUpdate(txs: seq<Tx>, i: nat, tx: Tx, f: Tx -> int)
    requires i < |txs|
    ensures Total(txs[i := tx], f) == Total(txs, f) - f(txs[i]) + f(tx)
    decreases |txs|
  {
    var last := |txs| - 1;
    if i == last {
      assert txs[i := tx][..last] == txs[..last];
    } else {
      assert txs[i := tx][..last] == txs[..last][i := tx];
      TotalUpdate(txs[..last], i, tx, f);
    }
  }

  // ---------- What a transaction on record counts as ----------

  predicate TxCounts(env: Env, tx: Tx, k: BucketKey<CallerSubject>) {
    tx.reservedAt.Some?
    && Counts(env, tx.caller, tx.wallet, tx.contractAddress, RecordedData(env, tx.requestJson).GetOr(""),
       tx.reservedAt.value, k)
  }

  predicate TxCountsInWallet(env: Env, tx: Tx, w: BucketKey<string>) {
    tx.reservedAt.Some? && WalletCounts(env, tx.wallet, tx.reservedAt.value, w)
  }

  function MinedOn(env: Env, tx: Tx, w: BucketKey<string>): int {
    if tx.status == Mined && tx.wallet == w.subject && tx.confirmedAt.Some? &&
      w == Key(tx.wallet, Day, tx.confirmedAt.value)
    then env.parseInt(tx.valueWei).GetOr(0) else 0
  }

  function SignedIn(env: Env, txs: seq<Tx>, k: BucketKey<CallerSubject>): int {
    Total(txs, tx => One(TxCounts(env, tx, k)))
  }

  function SignedByWallet(env: Env, txs: seq<Tx>, w: BucketKey<string>): int {
    Total(txs, tx => One(TxCountsInWallet(env, tx, w)))
  }

  function MinedValue(env: Env, txs: seq<Tx>, w: BucketKey<string>): int {
    Total(txs, tx => MinedOn(env, tx, w))
  }

  lemma SameIntentSameCounts(env: Env, txs: seq<Tx>, txs': seq<Tx>, k: BucketKey<CallerSubject>, w: BucketKey<string>)
    requires |txs| == |txs'| && forall i :: 0 <= i < |txs| ==> SameIntent(txs[i], txs'[i])
    ensures SignedIn(env, txs', k) == SignedIn(env, txs, k)
    ensures SignedByWallet(env, txs', w) == SignedByWallet(env, txs, w)
  {
    hide Counts, WalletCounts, RecordedData;
    TotalSame(txs, txs', tx => One(TxCounts(env, tx, k)));
    TotalSame(txs, txs', tx => One(TxCountsInWallet(env, tx, w)));
  }

  /** A fresh transaction counts where its request did, and has no mined value yet. */
  lemma NewTxCounts(env: Env, caller: Caller, req: SignRequest, now: int, txId: string, nonce: int, signed: Signed,
                    k: BucketKey<CallerSubject>, w: BucketKey<string>)
    requires RecordsData(env) && req.data != ""
    ensures var tx := NewTx(env, caller, req, now, txId, nonce, signed);
            && TxCounts(env, tx, k) == RequestCounts(env, caller.name, req, now, k)
            && TxCountsInWallet(env, tx, w) == WalletCounts(env, req.wallet, now, w)
            && MinedOn(env, tx, w) == 0
  {
    hide Counts, WalletCounts, RecordedData, RequestJson;
    assert RecordedData(env, RequestJson(env, req)) == Some(req.data);
  }

  // ---------- One event at a time ----------

  /** Broadcast reports, replacements and the admin operations leave every bucket alone. */
  lemma QuietEvents(env: Env, d: Db, ev: Event)
    requires ev.Broadcast? || ev.Replace? || ev.Init? || ev.Sync?
    ensures Step(env, d, ev).0.buckets == d.buckets
  {
    hide SignStep, FspStep, ReceiptStep, RefusalEntry, BroadcastEntry, WhyRefused, RecordedData, ReplacementEntry,
      InitEntry, SyncEntry;
  }

  lemma FspLeavesOthers(env: Env, d: Db, caller: Caller, req: FspRequest, clock: Clock, outcome: SignerOutcome)
    ensures var b' := FspStep(env, d, caller, req, clock, outcome).0.buckets;
            b'.callers == d.buckets.callers && b'.wallets == d.buckets.wallets
  {
    hide Built, FspEntry, FspDenial, CheckAndIncrement, ReleaseCounters, SignatureText, DenyText;
  }

  /** How far each total is from its counter. */
  function CallerSlack(env: Env, d: Db, k: BucketKey<CallerSubject>): int {
    Counter(d.buckets.callers, k) - SignedIn(env, d.ledger.txs, k)
  }

  function WalletSlack(env: Env, d: Db, w: BucketKey<string>): int {
    WalletCounter(d.buckets.wallets, w) - SignedByWallet(env, d.ledger.txs, w)
  }

  function AggregateSlack(env: Env, d: Db, w: BucketKey<string>): int {
    Aggregate(d.buckets.wallets, w) - MinedValue(env, d.ledger.txs, w)
  }

  /** Counters keep up with the transactions, exactly where every failure is undone, and the aggregate
      keeps up with the mined value. */
  ghost predicate KeepsUp(env: Env, d: Db, d': Db, k: BucketKey<CallerSubject>, w: BucketKey<string>) {
    && (Capped(env, d.buckets, k) ==> Capped(env, d'.buckets, k))
    && (WalletCapped(env, d.buckets, w) ==> WalletCapped(env, d'.buckets, w))
    && CallerSlack(env, d', k) >= CallerSlack(env, d, k)
    && (!OnNativePath(env, k.subject.caller) && DecimalCaps(env) ==> CallerSlack(env, d', k) == CallerSlack(env, d, k))
    && WalletSlack(env, d', w) >= WalletSlack(env, d, w)
    && (NativeReleases(env) ==> WalletSlack(env, d', w) == WalletSlack(env, d, w))
    && AggregateSlack(env, d', w) == AggregateSlack(env, d, w)
  }

  lemma UpdatedTotals(env: Env, txs: seq<Tx>, i: nat, tx: Tx, k: BucketKey<CallerSubject>, w: BucketKey<string>)
    requires i < |txs| && SameIntent(txs[i], tx)
    ensures var txs' := txs[i := tx];
            && SignedIn(env, txs', k) == SignedIn(env, txs, k) &&
               SignedByWallet(env, txs', w) == SignedByWallet(env, txs, w)
            && MinedValue(env, txs', w) == MinedValue(env, txs, w) - MinedOn(env, txs[i], w) + MinedOn(env, tx, w)
  {
    SameIntentSameCounts(env, txs, txs[i := tx], k, w);
    TotalUpdate(txs, i, tx, t => MinedOn(env, t, w));
  }

  /** What one more transaction adds to the totals. */
  lemma SignedTotals(env: Env, txs: seq<Tx>, caller: Caller, req: SignRequest, now: int, txId: string, nonce: int,
                     signed: Signed,
                     k: BucketKey<CallerSubject>, w: BucketKey<string>)
    requires RecordsData(env) && req.data != ""
    ensures var txs' := txs + [NewTx(env, caller, req, now, txId, nonce, signed)];
            && SignedIn(env, txs', k) == SignedIn(env, txs, k) + One(RequestCounts(env, caller.name, req, now, k))
            && SignedByWallet(env, txs', w) == SignedByWallet(env, txs, w) + One(WalletCounts(env, req.wallet, now, w))
            && MinedValue(env, txs', w) == MinedValue(env, txs, w)
  {
    NewTxCounts(env, caller, req, now, txId, nonce, signed, k, w);
    hide RequestCounts, WalletCounts, TxCounts, TxCountsInWallet, MinedOn, RecordsData, Total, NewTx;
    var tx := NewTx(env, caller, req, now, txId, nonce, signed);
    TotalAppend(txs, tx, t => One(TxCounts(env, t, k)));
    TotalAppend(txs, tx, t => One(TxCountsInWallet(env, t, w)));
    TotalAppend(txs, tx, t => MinedOn(env, t, w));
  }

  lemma SignKeepsUp(env: Env, d: Db, caller: Caller, req: SignRequest, clock: Clock, txId: string,
                    outcome: SignerOutcome,
                    k: BucketKey<CallerSubject>, w: BucketKey<string>)
    requires RecordsData(env) && req.data != "" && Capped(env, d.buckets, k)
    ensures KeepsUp(env, d, SignStep(env, d, caller, req, clock, txId, outcome).0, k, w)
  {
    hide SignStep, Counter, RequestCounts, WalletCounts, WalletCounter, Aggregate, NativeReleases, OnNativePath, Capped,
      WalletCapped, IndexOf, DecimalCaps, HasStale, RecordsData, NewTx, SignedIn, SignedByWallet, MinedValue;
    SignEffectOnCounters(env, d, caller, req, clock, txId, outcome, k, w);
    SignStepEffect(env, d, caller, req, clock, txId, outcome);
    var r := SignStep(env, d, caller, req, clock, txId, outcome);
    if SignsNow(d.ledger, r.1) {
      var res := r.1.result;
      SignedTotals(env, d.ledger.txs, caller, req, clock.now, res.txId, res.nonce, Signed(res.hash, res.signedRawTx), k,
                   w);
    }
  }

  lemma BroadcastKeepsUp(env: Env, d: Db, caller: Caller, clock: Clock, txId: string, txHash: string,
                         result: BroadcastOutcome,
                         errorClass: Option<string>, k: BucketKey<CallerSubject>, w: BucketKey<string>)
    ensures KeepsUp(env, d, BroadcastStep(env, d, caller, clock, txId, txHash, result, errorClass).0, k, w)
  {
    hide SignedIn, SignedByWallet, MinedValue, Counter, WalletCounter, Aggregate, Capped, WalletCapped, NativeReleases,
      DecimalCaps, OnNativePath, BroadcastEntry;
    var r := BroadcastStep(env, d, caller, clock, txId, txHash, result, errorClass);
    if r.1.Reported? {
      var i := IndexOf(d.ledger.txs, txId).value;
      UpdatedTotals(env, d.ledger.txs, i, r.0.ledger.txs[i], k, w);
    }
  }

  lemma AddCommittedEffect(m: WalletBuckets, wallet: string, value: int, now: int, w: BucketKey<string>)
    ensures var m' := AddCommitted(m, wallet, value, now);
            && WalletCounter(m', w) == WalletCounter(m, w)
            && Aggregate(m', w) == Aggregate(m, w) + if w == Key(wallet, Day, now) then value else 0
  {
  }

  /** What a receipt does to the row it confirms and to the wallet's buckets. */
  lemma ReceiptEffect(env: Env, d: Db, caller: Caller, clock: Clock, txId: string, txHash: string, success: bool,
                      n: int)
    ensures var r := ReceiptStep(env, d, caller, clock, txId, txHash, success, n);
            if !r.1.Reported? then r.0.ledger == d.ledger && r.0.buckets == d.buckets
            else
              var i := IndexOf(d.ledger.txs, txId).GetOr(0);
              && i < |d.ledger.txs| && d.ledger.txs[i].status == Submitted
              && var tx := d.ledger.txs[i]; var value := env.parseInt(tx.valueWei);
              && r.0.ledger.txs == d.ledger.txs[i := r.0.ledger.txs[i]] && |r.0.ledger.txs| == |d.ledger.txs|
              && SameIntent(tx, r.0.ledger.txs[i])
              && r.0.ledger.txs[i].status == (if success then Mined else Reverted)
              && r.0.ledger.txs[i].confirmedAt == Some(clock.now)
              && r.0.buckets.callers == d.buckets.callers
              && (!success ==> r.0.buckets.wallets == d.buckets.wallets)
              && (success ==>
                    value.Some?
                    && r.0.buckets.wallets == AddCommitted(d.buckets.wallets, tx.wallet, value.value, clock.now))
  {
    hide ReceiptEntry, ReceiptText;
  }

  /** A transaction is debited once, when its success is reported, on the day of the report. */
  lemma ReceiptKeepsUp(env: Env, d: Db, caller: Caller, clock: Clock, txId: string, txHash: string, success: bool,
                       n: int,
                       k: BucketKey<CallerSubject>, w: BucketKey<string>)
    ensures KeepsUp(env, d, ReceiptStep(env, d, caller, clock, txId, txHash, success, n).0, k, w)
  {
    ReceiptEffect(env, d, caller, clock, txId, txHash, success, n);
    var r := ReceiptStep(env, d, caller, clock, txId, txHash, success, n);
    hide ReceiptStep, SignedIn, SignedByWallet, MinedValue, Counter, WalletCounter, Aggregate, AddCommitted,
      NativeReleases, DecimalCaps, OnNativePath, IndexOf, WithinCap;
    if r.1.Reported? {
      var i := IndexOf(d.ledger.txs, txId).GetOr(0);
      UpdatedTotals(env, d.ledger.txs, i, r.0.ledger.txs[i], k, w);
      if success {
        AddCommittedEffect(d.buckets.wallets, d.ledger.txs[i].wallet, env.parseInt(d.ledger.txs[i].valueWei).value,
                           clock.now, w);
      }
    }
  }

  lemma SameTotals(env: Env, d: Db, d': Db, k: BucketKey<CallerSubject>, w: BucketKey<string>)
    requires d'.ledger.txs == d.ledger.txs && d'.buckets == d.buckets
    ensures KeepsUp(env, d, d', k, w)
  {
  }

  lemma QuietKeepsUp(env: Env, d: Db, ev: Event, k: BucketKey<CallerSubject>, w: BucketKey<string>)
    requires Proper(ev) && RecordsData(env) && (ev.Replace? || ev.Init? || ev.Sync?)
    ensures KeepsUp(env, d, Step(env, d, ev).0, k, w)
  {
    QuietEvents(env, d, ev);
    QuietMoves(env, d, ev);
    hide Step;
    SameTotals(env, d, Step(env, d, ev).0, k, w);
  }

  lemma QuietMoves(env: Env, d: Db, ev: Event)
    requires ev.Replace? || ev.Init? || ev.Sync?
    ensures Step(env, d, ev).0.ledger.txs == d.ledger.txs
  {
    hide SignStep, FspStep, ReceiptStep, BroadcastStep, RefusalEntry, WhyRefused, RecordedData, ReplacementEntry,
      InitEntry, SyncEntry;
  }

  /** Pruning drops no bucket that starts at or after the cutoff. */
  lemma PruneKeepsUp(env: Env, d: Db, ev: Event, k: BucketKey<CallerSubject>, w: BucketKey<string>)
    requires ev.Prune? && PruneCutoff(ev.clock.now) <= k.start && PruneCutoff(ev.clock.now) <= w.start
    ensures KeepsUp(env, d, Step(env, d, ev).0, k, w)
  {
    hide SignStep, FspStep, ReceiptStep, BroadcastStep, ReplaceStep, InitStep, SyncStep, SignedIn, SignedByWallet,
      MinedValue, NativeReleases, DecimalCaps, OnNativePath, WithinCap;
  }

  lemma StepKeepsUp(env: Env, d: Db, ev: Event, k: BucketKey<CallerSubject>, w: BucketKey<string>)
    requires Proper(ev) && RecordsData(env) && Capped(env, d.buckets, k) && Spares(ev, k.start) && Spares(ev, w.start)
    ensures KeepsUp(env, d, Step(env, d, ev).0, k, w)
  {
    hide SignStep, FspStep, ReceiptStep, BroadcastStep, ReplaceStep, InitStep, SyncStep, SignedIn, SignedByWallet,
      MinedValue, Counter, WalletCounter, Aggregate, Capped, WalletCapped, NativeReleases, DecimalCaps, OnNativePath;
    match ev {
      case Sign(caller, req, clock, txId, outcome) => SignKeepsUp(env, d, caller, req, clock, txId, outcome, k, w);
      case SignFsp(caller, req, clock, outcome) =>
        FspLeavesOthers(env, d, caller, req, clock, outcome);
        FspKeepsTables(env, d, caller, req, clock, outcome);
        FspCountersElsewhere(env, d, FspStep(env, d, caller, req, clock, outcome).0, k, w);
      case Broadcast(caller, clock, txId, h, result, e) =>
        BroadcastKeepsUp(env, d, caller, clock, txId, h, result, e, k, w);
      case Receipt(caller, clock, txId, h, success, n) =>
        ReceiptKeepsUp(env, d, caller, clock, txId, h, success, n, k, w);
      case Prune(_) => PruneKeepsUp(env, d, ev, k, w);
      case _ => QuietKeepsUp(env, d, ev, k, w);
    }
  }

  lemma FspCountersElsewhere(env: Env, d: Db, d': Db, k: BucketKey<CallerSubject>, w: BucketKey<string>)
    requires d'.ledger == d.ledger && d'.buckets.callers == d.buckets.callers && d'.buckets.wallets == d.buckets.wallets
    ensures KeepsUp(env, d, d', k, w)
  {
  }

  // ---------- Runs ----------

  /** Pruning does not reach back to `start`. */
  predicate Spares(ev: Event, start: int) {
    ev.Prune? ==> PruneCutoff(ev.clock.now) <= start
  }

  lemma {:induction false} RunKeepsUp(env: Env, d: Db, evs: seq<Event>, k: BucketKey<CallerSubject>,
                                      w: BucketKey<string>)
    requires RecordsData(env) && Capped(env, d.buckets, k) && NonceSafety.AllProper(evs)
    requires forall i :: 0 <= i < |evs| ==> Spares(evs[i], k.start) && Spares(evs[i], w.start)
    ensures KeepsUp(env, d, Run(env, d, evs), k, w)
    decreases |evs|
  {
    hide Step, Capped, WalletCapped, CallerSlack, WalletSlack, AggregateSlack, OnNativePath, DecimalCaps,
      NativeReleases;
    if evs != [] {
      StepKeepsUp(env, d, evs[0], k, w);
      RunKeepsUp(env, Step(env, d, evs[0]).0, evs[1..], k, w);
    }
  }

  /** From an empty database, under a fixed policy: in every window not yet pruned, the transactions
      signed under a key number at most its counter, and exactly its counter unless the caller is on a
      native-transfer path; the counter is within the configured cap; the same holds per wallet; and the
      daily aggregate is the value mined that day. */
  lemma ReachableCounters(env: Env, d: Db, evs: seq<Event>, k: BucketKey<CallerSubject>, w: BucketKey<string>)
    requires d.ledger == EMPTY_LEDGER && d.buckets == EMPTY_BUCKETS
    requires RecordsData(env) && NonceSafety.AllProper(evs)
    requires forall i :: 0 <= i < |evs| ==> Spares(evs[i], k.start) && Spares(evs[i], w.start)
    ensures var r := Run(env, d, evs);
            var n := Counter(r.buckets.callers, k);
            && SignedIn(env, r.ledger.txs, k) <= n
            && WithinCap(RateOf(env, k.subject.caller), k.kind, n)
            && (!OnNativePath(env, k.subject.caller) && DecimalCaps(env) ==> SignedIn(env, r.ledger.txs, k) == n)
    ensures var r := Run(env, d, evs);
            var n := WalletCounter(r.buckets.wallets, w);
            && SignedByWallet(env, r.ledger.txs, w) <= n
            && WithinCap(WalletRate(env, w.subject), w.kind, n)
            && (NativeReleases(env) ==> SignedByWallet(env, r.ledger.txs, w) == n)
            && Aggregate(r.buckets.wallets, w) == MinedValue(env, r.ledger.txs, w)
  {
    hide Run, WithinCap, OnNativePath, DecimalCaps, NativeReleases;
    assert WithinCap(RateOf(env, k.subject.caller), k.kind, 0) && WithinCap(WalletRate(env, w.subject), w.kind, 0) by {
      UnusedIsCapped(RateOf(env, k.subject.caller), k.kind);
      UnusedIsCapped(WalletRate(env, w.subject), w.kind);
    }
    RunKeepsUp(env, d, evs, k, w);
  }

  lemma UnusedIsCapped(rate: Option<RateLimit>, kind: WindowKind)
    ensures WithinCap(rate, kind, 0)
  {
  }

  // ---------- FSP counters ----------

  predicate FspCounts(env: Env, caller: string, req: FspRequest, now: int, k: BucketKey<FspSubject>) {
    caller in env.policy.callers && env.policy.callers[caller].policyPath in env.policy.fspPermissions
    && var rate := env.policy.fspPermissions[env.policy.callers[caller].policyPath].rate;
       rate.Some? && Hits(k, FspSubject(caller, req.wallet, req.messageType), rate.value, now)
  }

  function FspRate(env: Env, caller: string): Option<RateLimit> {
    if caller in env.policy.callers && env.policy.callers[caller].policyPath in env.policy.fspPermissions
    then env.policy.fspPermissions[env.policy.callers[caller].policyPath].rate else None
  }

  /** The FSP gate at one bucket, and its increment undone. */
  lemma FspGateCounter(env: Env, b: Buckets, caller: Caller, req: FspRequest, now: int, k: BucketKey<FspSubject>)
    ensures var r := FspEvaluation(env, b, caller, req, now);
            if r.0.FspDeny? then r.1 == b
            else
              && Counter(r.1.fsp, k) == Counter(b.fsp, k) + One(FspCounts(env, caller.name, req, now, k))
              && Counter(ReleaseCounters(r.1.fsp, r.0.subject, r.0.rate, now), k) == Counter(b.fsp, k)
              && (WithinCap(FspRate(env, k.subject.caller), k.kind, Counter(b.fsp, k)) ==>
                    WithinCap(FspRate(env, k.subject.caller), k.kind, Counter(r.1.fsp, k)))
  {
    hide Windows, Bump, Drop, FspDenial;
    if FspDenial(env.policy, caller, req).None? {
      FspDenialFacts(env.policy, caller, req);
      var rate := env.policy.fspPermissions[env.policy.callers[caller.name].policyPath].rate;
      var subject := FspSubject(caller.name, req.wallet, req.messageType);
      if rate.Some? {
        BumpCounter(b.fsp, subject, rate.value, now, k);
        DropCounter(Bump(b.fsp, subject, Windows(rate.value), now), subject, rate.value, now, k);
        if Room(b.fsp, subject, Windows(rate.value), now) && Hits(k, subject, rate.value, now) {
          AdmittedWithinCap(b.fsp, subject, rate.value, now, k);
        }
      }
    }
  }

  /** A message that is signed adds one to the windows it counts in; every other outcome adds nothing. */
  lemma FspStepCounter(env: Env, d: Db, caller: Caller, req: FspRequest, clock: Clock, outcome: SignerOutcome,
                       k: BucketKey<FspSubject>)
    ensures var r := FspStep(env, d, caller, req, clock, outcome);
            && Counter(r.0.buckets.fsp, k) ==
               Counter(d.buckets.fsp, k) + One(r.1.FspOk? && FspCounts(env, caller.name, req, clock.now, k))
            && (WithinCap(FspRate(env, k.subject.caller), k.kind, Counter(d.buckets.fsp, k)) ==>
                  WithinCap(FspRate(env, k.subject.caller), k.kind, Counter(r.0.buckets.fsp, k)))
  {
    hide Built, FspEntry, SignatureText, DenyText, FspEvaluation, FspCounts, FspRate, WithinCap, Counter,
      ReleaseCounters;
    FspGateCounter(env, d.buckets, caller, req, clock.now, k);
  }

  lemma FspDenialFacts(p: Policy, caller: Caller, req: FspRequest)
    requires FspDenial(p, caller, req).None?
    ensures caller.name in p.callers && p.callers[caller.name].policyPath in p.fspPermissions
  {
  }

  lemma SignLeavesFsp(env: Env, d: Db, caller: Caller, req: SignRequest, clock: Clock, txId: string,
                      outcome: SignerOutcome)
    ensures SignStep(env, d, caller, req, clock, txId, outcome).0.buckets.fsp == d.buckets.fsp
  {
    SignStepBuckets(env, d, caller, req, clock, txId, outcome);
    hide SignStep, PolicyEngine.Admitted1To7, CheckAndIncrement, CheckAndIncrementWallet, ReleaseCounters,
      ReleaseWalletBuckets;
  }

  /** How many messages the run signed in the window of `k`. */
  function FspSigned(env: Env, d: Db, evs: seq<Event>, k: BucketKey<FspSubject>): nat
    decreases |evs|
  {
    if evs == [] then 0
    else
      var r := Step(env, d, evs[0]);
      One(r.1.FspAnswer? && r.1.fsp.FspOk? && evs[0].SignFsp? &&
        FspCounts(env, evs[0].caller.name, evs[0].fspReq, evs[0].clock.now, k))
      + FspSigned(env, r.0, evs[1..], k)
  }

  lemma StepFspCounter(env: Env, d: Db, ev: Event, k: BucketKey<FspSubject>)
    requires Spares(ev, k.start)
    ensures var r := Step(env, d, ev);
            && Counter(r.0.buckets.fsp, k) == Counter(d.buckets.fsp, k)
                 + One(r.1.FspAnswer? && r.1.fsp.FspOk? && ev.SignFsp? &&
                   FspCounts(env, ev.caller.name, ev.fspReq, ev.clock.now, k))
            && (WithinCap(FspRate(env, k.subject.caller), k.kind, Counter(d.buckets.fsp, k)) ==>
                  WithinCap(FspRate(env, k.subject.caller), k.kind, Counter(r.0.buckets.fsp, k)))
  {
    hide SignStep, FspStep, ReceiptStep, BroadcastStep, ReplaceStep, InitStep, SyncStep, WithinCap, FspCounts;
    match ev {
      case Sign(caller, req, clock, txId, outcome) => SignLeavesFsp(env, d, caller, req, clock, txId, outcome);
      case SignFsp(caller, req, clock, outcome) => FspStepCounter(env, d, caller, req, clock, outcome, k);
      case Receipt(caller, clock, txId, h, success, n) => ReceiptLeavesFsp(env, d, caller, clock, txId, h, success, n);
      case Prune(_) =>
      case _ => QuietEvents(env, d, ev);
    }
  }

  lemma ReceiptLeavesFsp(env: Env, d: Db, caller: Caller, clock: Clock, txId: string, txHash: string, success: bool,
                         n: int)
    ensures ReceiptStep(env, d, caller, clock, txId, txHash, success, n).0.buckets.fsp == d.buckets.fsp
  {
    hide ReceiptEntry, ReceiptText;
  }

  /** In every window not yet pruned the counter is exactly the number of messages signed, and within its cap. */
  lemma {:induction false} RunFspCounter(env: Env, d: Db, evs: seq<Event>, k: BucketKey<FspSubject>)
    requires forall i :: 0 <= i < |evs| ==> Spares(evs[i], k.start)
    ensures Counter(Run(env, d, evs).buckets.fsp, k) == Counter(d.buckets.fsp, k) + FspSigned(env, d, evs, k)
    ensures WithinCap(FspRate(env, k.subject.caller), k.kind, Counter(d.buckets.fsp, k)) ==>
              WithinCap(FspRate(env, k.subject.caller), k.kind, Counter(Run(env, d, evs).buckets.fsp, k))
    decreases |evs|
  {
    hide Step, WithinCap, FspCounts, FspRate, Counter;
    if evs != [] {
      StepFspCounter(env, d, evs[0], k);
      RunFspCounter(env, Step(env, d, evs[0]).0, evs[1..], k);
    }
  }
}
