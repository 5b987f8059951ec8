/** What the daily value cap buys. The gate compares a request with the value already mined that day; what
    is signed but not yet reported does not count. So the mined total can pass the cap, and stays within it
    exactly as long as the value mined and the value in flight together do. */
module DailyCap {
  import opened Prelude
  import opened PolicySchema
  import opened Environment
  import opened Store
  import opened RateWindows
  import opened TransactionRepo
  import opened PolicyEngine
  import opened SignTransaction
  import opened Transactions
  import opened NonceAdmin
  import opened SignFspMessage
  import opened Service
  import opened Ladder
  import opened RateEffects
  import opened RateAccounting
  import GateMeaning

  // ---------- What the gate promises ----------

  /** The daily cap of the wallet, where it has one that can be read. */
  function CapOf(env: Env, wallet: string): Option<int> {
    var c := ConstraintOf(env.policy, wallet);
    if c.Some? && c.value.maxAggregateValueWeiPerDay.Some? then env.parseInt(c.value.maxAggregateValueWeiPerDay.value)
      else None
  }

  /** Every request that is allowed fits, on top of what was mined that day, under the wallet's cap. */
  lemma AllowedFitsMined(env: Env, b: Buckets, caller: Caller, req: SignRequest, now: int)
    requires Evaluation(env, b, caller, req, now).0.Allow?
    ensures env.parseInt(req.valueWei).Some? && ConstraintOf(env.policy, req.wallet).Some?
    ensures ConstraintOf(env.policy, req.wallet).value.maxAggregateValueWeiPerDay.Some? ==> CapOf(env, req.wallet).Some?
    ensures CapOf(env, req.wallet).Some? ==>
              Aggregate(b.wallets, Key(req.wallet, Day, now)) +
                env.parseInt(req.valueWei).value <= CapOf(env, req.wallet).value
  {
    GateMeaning.AdmittedValue(env, caller, req);
    hide Admitted1To7, CheckAndIncrement, ReleaseCounters, Windows, WalletRoom, WalletBump, Aggregate;
  }

  // ---------- Value in flight ----------

  function FlightValue(env: Env, tx: Tx, wallet: string): int {
    if InFlight(tx) && tx.wallet == wallet then env.parseInt(tx.valueWei).GetOr(0) else 0
  }

  function InFlightValue(env: Env, txs: seq<Tx>, wallet: string): int {
    Total(txs, tx => FlightValue(env, tx, wallet))
  }

  /** What the wallet's day may come to: mined plus in flight. */
  function Exposure(env: Env, d: Db, w: BucketKey<string>): int {
    Aggregate(d.buckets.wallets, w) + InFlightValue(env, d.ledger.txs, w.subject)
  }

  /** Recorded values are non-negative decimals. */
  predicate ValidValue(env: Env, tx: Tx) {
    env.parseInt(tx.valueWei).Some? && env.parseInt(tx.valueWei).value >= 0
  }

  ghost predicate ValidValues(env: Env, txs: seq<Tx>) {
    forall i :: 0 <= i < |txs| ==> ValidValue(env, txs[i])
  }

  lemma {:induction false} FlightIsNotNegative(env: Env, txs: seq<Tx>, wallet: string)
    requires ValidValues(env, txs)
    ensures InFlightValue(env, txs, wallet) >= 0
    decreases |txs|
  {
    if txs != [] {
      assert ValidValue(env, txs[|txs| - 1]);
      FlightIsNotNegative(env, txs[..|txs| - 1], wallet);
      hide ValidValue;
    }
  }

  // ---------- One event ----------

  /** What a status change of one row does to the two totals. */
  lemma UpdatedPotential(env: Env, txs: seq<Tx>, i: nat, tx: Tx, w: BucketKey<string>)
    requires i < |txs|
    ensures InFlightValue(env, txs[i := tx], w.subject)
         == InFlightValue(env, txs, w.subject) - FlightValue(env, txs[i], w.subject) + FlightValue(env, tx, w.subject)
  {
    TotalUpdate(txs, i, tx, t => FlightValue(env, t, w.subject));
  }

  lemma BroadcastExposure(env: Env, d: Db, caller: Caller, clock: Clock, txId: string, txHash: string,
                          result: BroadcastOutcome,
                          errorClass: Option<string>, w: BucketKey<string>)
    requires ValidValues(env, d.ledger.txs)
    ensures var d' := BroadcastStep(env, d, caller, clock, txId, txHash, result, errorClass).0;
            Exposure(env, d', w) <= Exposure(env, d, w) && ValidValues(env, d'.ledger.txs)
  {
    hide InFlightValue, Aggregate, BroadcastEntry;
    var r := BroadcastStep(env, d, caller, clock, txId, txHash, result, errorClass);
    if r.1.Reported? {
      var i := IndexOf(d.ledger.txs, txId).value;
      assert ValidValue(env, d.ledger.txs[i]);
      UpdatedPotential(env, d.ledger.txs, i, r.0.ledger.txs[i], w);
    }
  }

  /** A receipt moves value from in flight to mined, or out of both. */
  lemma ReceiptExposure(env: Env, d: Db, caller: Caller, clock: Clock, txId: string, txHash: string, success: bool,
                        n: int,
                        w: BucketKey<string>)
    requires ValidValues(env, d.ledger.txs)
    ensures var d' := ReceiptStep(env, d, caller, clock, txId, txHash, success, n).0;
            Exposure(env, d', w) <= Exposure(env, d, w) && ValidValues(env, d'.ledger.txs)
  {
    ReceiptEffect(env, d, caller, clock, txId, txHash, success, n);
    var r := ReceiptStep(env, d, caller, clock, txId, txHash, success, n);
    hide ReceiptStep, InFlightValue, Aggregate, AddCommitted, IndexOf;
    if r.1.Reported? {
      var i := IndexOf(d.ledger.txs, txId).GetOr(0);
      assert ValidValue(env, d.ledger.txs[i]);
      UpdatedPotential(env, d.ledger.txs, i, r.0.ledger.txs[i], w);
      if success {
        AddCommittedEffect(d.buckets.wallets, d.ledger.txs[i].wallet, env.parseInt(d.ledger.txs[i].valueWei).value,
                           clock.now, w);
      }
    }
  }

  /** Nothing but a signature raises the exposure. */
  lemma StepExposure(env: Env, d: Db, ev: Event, w: BucketKey<string>)
    requires ValidValues(env, d.ledger.txs) && !ev.Sign? && Spares(ev, w.start)
    ensures var d' := Step(env, d, ev).0; Exposure(env, d', w) <= Exposure(env, d, w) && ValidValues(env, d'.ledger.txs)
  {
    hide SignStep, FspStep, ReceiptStep, BroadcastStep, ReplaceStep, InitStep, SyncStep, InFlightValue, ValidValues;
    match ev {
      case SignFsp(caller, req, clock, outcome) =>
        FspLeavesOthers(env, d, caller, req, clock, outcome);
        FspKeepsTables(env, d, caller, req, clock, outcome);
      case Broadcast(caller, clock, txId, h, result, e) =>
        BroadcastExposure(env, d, caller, clock, txId, h, result, e, w);
      case Receipt(caller, clock, txId, h, success, n) =>
        ReceiptExposure(env, d, caller, clock, txId, h, success, n, w);
      case Prune(_) =>
      case _ =>
        QuietEvents(env, d, ev);
        QuietMoves(env, d, ev);
    }
  }

  /** A signature adds its value to the exposure of its wallet; any other reply to a signing request adds
      nothing. */
  lemma SignedExposure(env: Env, d: Db, caller: Caller, req: SignRequest, clock: Clock, txId: string,
                       outcome: SignerOutcome,
                       k: BucketKey<CallerSubject>, w: BucketKey<string>)
    requires Capped(env, d.buckets, k)
    ensures var r := SignStep(env, d, caller, req, clock, txId, outcome);
            Exposure(env, r.0, w) == Exposure(env, d, w)
              + if SignsNow(d.ledger, r.1) && req.wallet == w.subject then env.parseInt(req.valueWei).GetOr(0) else 0
  {
    SignEffectOnCounters(env, d, caller, req, clock, txId, outcome, k, w);
    SignStepEffect(env, d, caller, req, clock, txId, outcome);
    hide SignStep, Counter, RequestCounts, WalletCounts, WalletCounter, Aggregate, NativeReleases, OnNativePath, Capped,
      WalletCapped, IndexOf, DecimalCaps, HasStale, RequestJson, Total;
    var r := SignStep(env, d, caller, req, clock, txId, outcome);
    if SignsNow(d.ledger, r.1) {
      var res := r.1.result;
      var tx := NewTx(env, caller, req, clock.now, res.txId, res.nonce, Signed(res.hash, res.signedRawTx));
      TotalAppend(d.ledger.txs, tx, t => FlightValue(env, t, w.subject));
    }
  }

  /** What a signature leaves of the cap. The gate saw to it that the value fits on top of what was mined; the
      exposure comes to that and what was in flight, so with nothing in flight the cap still binds. */
  lemma SignedUnderCap(env: Env, d: Db, caller: Caller, req: SignRequest, clock: Clock, txId: string,
                       outcome: SignerOutcome,
                       k: BucketKey<CallerSubject>, cap: int)
    requires Capped(env, d.buckets, k) && CapOf(env, req.wallet) == Some(cap)
    requires SignsNow(d.ledger, SignStep(env, d, caller, req, clock, txId, outcome).1)
    ensures var d' := SignStep(env, d, caller, req, clock, txId, outcome).0;
            var w := Key(req.wallet, Day, clock.now);
            var value := env.parseInt(req.valueWei).GetOr(0);
            && Aggregate(d.buckets.wallets, w) + value <= cap
            && Exposure(env, d', w) == Aggregate(d.buckets.wallets, w) + value +
               InFlightValue(env, d.ledger.txs, req.wallet)
  {
    var w := Key(req.wallet, Day, clock.now);
    SignStepBuckets(env, d, caller, req, clock, txId, outcome);
    AllowedFitsMined(env, d.buckets, caller, req, clock.now);
    SignedExposure(env, d, caller, req, clock, txId, outcome, k, w);
    hide SignStep, Evaluation, Aggregate, InFlightValue, Capped, IndexOf, CapOf, ConstraintOf, SignsNow;
  }

  // ---------- Runs without a further signature ----------

  ghost predicate NoSigning(evs: seq<Event>, start: int) {
    forall i :: 0 <= i < |evs| ==> !evs[i].Sign? && Spares(evs[i], start)
  }

  lemma {:induction false} RunExposure(env: Env, d: Db, evs: seq<Event>, w: BucketKey<string>)
    requires ValidValues(env, d.ledger.txs) && NoSigning(evs, w.start)
    ensures Aggregate(Run(env, d, evs).buckets.wallets, w) <= Exposure(env, d, w)
    decreases |evs|
  {
    hide Step, InFlightValue, ValidValues, Aggregate;
    if evs == [] {
      FlightIsNotNegative(env, d.ledger.txs, w.subject);
    } else {
      StepExposure(env, d, evs[0], w);
      RunExposure(env, Step(env, d, evs[0]).0, evs[1..], w);
    }
  }

  // ---------- Everything in flight can still be mined ----------

  /** Every row can be reported on: its id is its own, a hash is on record and its value can be read. */
  ghost predicate Reportable(env: Env, l: Ledger) {
    UniqueIds(l.txs) && ValidValues(env, l.txs) && forall i :: 0 <= i < |l.txs| ==> HashesOf(l, l.txs[i].txId) != []
  }

  /** Where transactions have their ladders, only the sign of the values is left to ask for. */
  lemma LadderIsReportable(env: Env, l: Ledger)
    requires LadderInv(env, l)
    requires forall i :: 0 <= i < |l.txs| ==> env.parseInt(l.txs[i].valueWei).GetOr(0) >= 0
    ensures Reportable(env, l)
  {
    hide RecordedData, WithinCaps, Climbs;
    forall i | 0 <= i < |l.txs| ensures ValidValue(env, l.txs[i]) && HashesOf(l, l.txs[i].txId) != [] {
      var attempts := AttemptsOf(l, l.txs[i].txId);
      assert Rungs(env, l.txs[i], attempts, HashesOf(l, l.txs[i].txId));
      assert SignsIntent(env, l.txs[i], attempts[0]);
    }
  }

  lemma {:induction false} IndexOfUnique(txs: seq<Tx>, i: nat)
    requires UniqueIds(txs) && i < |txs|
    ensures IndexOf(txs, txs[i].txId) == Some(i)
  {
    hide IndexOf;
    assert IndexOf(txs, txs[i].txId).Some?;
  }

  function Owner(tx: Tx): Caller {
    Caller(tx.caller, "", false)
  }

  function AcceptEvent(l: Ledger, i: nat, clock: Clock): Event
    requires i < |l.txs| && HashesOf(l, l.txs[i].txId) != []
  {
    Broadcast(Owner(l.txs[i]), clock, l.txs[i].txId, HashesOf(l, l.txs[i].txId)[0].hashHex, Accepted, None)
  }

  function MineEvent(l: Ledger, i: nat, clock: Clock): Event
    requires i < |l.txs| && HashesOf(l, l.txs[i].txId) != []
  {
    Receipt(Owner(l.txs[i]), clock, l.txs[i].txId, HashesOf(l, l.txs[i].txId)[0].hashHex, true, 0)
  }

  /** `d'` differs from `d` in row `i` alone, which has the same intent. */
  ghost predicate OnlyRow(d: Db, d': Db, i: nat) {
    && i < |d.ledger.txs| && |d'.ledger.txs| == |d.ledger.txs| && d'.ledger.hashes == d.ledger.hashes
    && SameIntent(d.ledger.txs[i], d'.ledger.txs[i])
    && (forall j :: 0 <= j < |d.ledger.txs| && j != i ==> d'.ledger.txs[j] == d.ledger.txs[j])
  }

  lemma OnlyRowReportable(env: Env, d: Db, d': Db, i: nat)
    requires Reportable(env, d.ledger) && OnlyRow(d, d', i)
    ensures Reportable(env, d'.ledger)
  {
    forall j | 0 <= j < |d.ledger.txs|
      ensures ValidValue(env, d'.ledger.txs[j]) && d'.ledger.txs[j].txId == d.ledger.txs[j].txId {
      assert ValidValue(env, d.ledger.txs[j]);
    }
  }

  /** The guard lets the owner of a row report on it with its first hash. */
  lemma GuardPasses(env: Env, d: Db, i: nat, intent: string, action: string)
    requires Reportable(env, d.ledger) && i < |d.ledger.txs|
    ensures var tx := d.ledger.txs[i];
            var h := HashesOf(d.ledger, tx.txId);
            h != [] && ReportGuard(env, d, Owner(tx), tx.txId, h[0].hashHex, tx.status, intent, action) == Pass(i)
  {
    IndexOfUnique(d.ledger.txs, i);
    HashOnRecord(env, d.ledger, i);
    hide IndexOf, ValidValues, UniqueIds, ReportJson, Reportable;
    var h := HashesOf(d.ledger, d.ledger.txs[i].txId);
    assert exists j :: 0 <= j < |h| && h[j].hashHex == h[0].hashHex by {
      assert h[0].hashHex == h[0].hashHex;
    }
  }

  lemma AcceptedSends(env: Env, d: Db, i: nat, clock: Clock, txHash: string)
    requires i < |d.ledger.txs| && d.ledger.txs[i].status == Pending
    requires var tx := d.ledger.txs[i];
             ReportGuard(env, d, Owner(tx), tx.txId, txHash, Pending, OutcomeText(Accepted), "tx-broadcast-result") ==
               Pass(i)
    ensures var tx := d.ledger.txs[i];
            var d' := BroadcastStep(env, d, Owner(tx), clock, tx.txId, txHash, Accepted, None).0;
            OnlyRow(d, d', i) && d'.buckets == d.buckets && d'.ledger.txs[i].status == Submitted
  {
    hide ReportGuard, BroadcastEntry;
  }

  lemma AcceptSends(env: Env, d: Db, i: nat, clock: Clock)
    requires Reportable(env, d.ledger) && i < |d.ledger.txs| && d.ledger.txs[i].status == Pending
    ensures HashesOf(d.ledger, d.ledger.txs[i].txId) != []
    ensures var d' := Step(env, d, AcceptEvent(d.ledger, i, clock)).0;
            OnlyRow(d, d', i) && d'.buckets == d.buckets && d'.ledger.txs[i].status == Submitted
  {
    hide Reportable, SignStep, FspStep, ReceiptStep, BroadcastStep, ReplaceStep, OnlyRow, ReportGuard, OutcomeText;
    GuardPasses(env, d, i, OutcomeText(Accepted), "tx-broadcast-result");
    AcceptedSends(env, d, i, clock, HashesOf(d.ledger, d.ledger.txs[i].txId)[0].hashHex);
  }

  lemma ReceiptDebits(env: Env, d: Db, i: nat, clock: Clock, txHash: string)
    requires i < |d.ledger.txs| && d.ledger.txs[i].status == Submitted && ValidValue(env, d.ledger.txs[i])
    requires var tx := d.ledger.txs[i];
             ReportGuard(env, d, Owner(tx), tx.txId, txHash, Submitted, "mined_success", "tx-receipt") == Pass(i)
    ensures var tx := d.ledger.txs[i];
            var d' := ReceiptStep(env, d, Owner(tx), clock, tx.txId, txHash, true, 0).0;
            && OnlyRow(d, d', i) && d'.ledger.txs[i].status == Mined
            && d'.buckets.wallets == AddCommitted(d.buckets.wallets, tx.wallet, env.parseInt(tx.valueWei).value,
               clock.now)
  {
    hide ReportGuard, ReceiptEntry, ReceiptText, AddCommitted;
  }

  lemma MineDebits(env: Env, d: Db, i: nat, clock: Clock)
    requires Reportable(env, d.ledger) && i < |d.ledger.txs| && d.ledger.txs[i].status == Submitted
    ensures HashesOf(d.ledger, d.ledger.txs[i].txId) != []
    ensures var d', tx := Step(env, d, MineEvent(d.ledger, i, clock)).0, d.ledger.txs[i];
            && env.parseInt(tx.valueWei).Some? && OnlyRow(d, d', i) && d'.ledger.txs[i].status == Mined
            && d'.buckets.wallets == AddCommitted(d.buckets.wallets, tx.wallet, env.parseInt(tx.valueWei).value,
               clock.now)
  {
    HashOnRecord(env, d.ledger, i);
    hide Reportable, SignStep, FspStep, ReceiptStep, BroadcastStep, ReplaceStep, OnlyRow, ReportGuard, AddCommitted;
    GuardPasses(env, d, i, "mined_success", "tx-receipt");
    ReceiptDebits(env, d, i, clock, HashesOf(d.ledger, d.ledger.txs[i].txId)[0].hashHex);
  }

  /** The reports that mine row `i`, and what they leave. */
  lemma MineRow(env: Env, d: Db, i: nat, clock: Clock, w: BucketKey<string>) returns (evs: seq<Event>)
    requires Reportable(env, d.ledger) && i < |d.ledger.txs| && InFlight(d.ledger.txs[i])
    requires d.ledger.txs[i].wallet == w.subject && w == Key(w.subject, Day, clock.now)
    ensures NoSigning(evs, w.start) && 1 <= |evs| <= 2
    ensures var d' := Run(env, d, evs);
            OnlyRow(d, d', i) && d'.ledger.txs[i].status == Mined && Reportable(env, d'.ledger) &&
              Exposure(env, d', w) == Exposure(env, d, w)
  {
    hide Step, Reportable, InFlightValue, Aggregate, AddCommitted;
    HashOnRecord(env, d.ledger, i);
    if d.ledger.txs[i].status == Pending {
      AcceptSends(env, d, i, clock);
      var d1 := Step(env, d, AcceptEvent(d.ledger, i, clock)).0;
      OnlyRowReportable(env, d, d1, i);
      HashOnRecord(env, d1.ledger, i);
      evs := [AcceptEvent(d.ledger, i, clock), MineEvent(d1.ledger, i, clock)];
      MineDebits(env, d1, i, clock);
      var d2 := Step(env, d1, evs[1]).0;
      RunTwo(env, d, evs[0], evs[1]);
      OnlyRowReportable(env, d1, d2, i);
      MinedExposure(env, d, d2, i, clock, w);
    } else {
      evs := [MineEvent(d.ledger, i, clock)];
      MineDebits(env, d, i, clock);
      var d1 := Step(env, d, evs[0]).0;
      RunOne(env, d, evs[0]);
      OnlyRowReportable(env, d, d1, i);
      MinedExposure(env, d, d1, i, clock, w);
    }
  }

  lemma HashOnRecord(env: Env, l: Ledger, i: nat)
    requires Reportable(env, l) && i < |l.txs|
    ensures HashesOf(l, l.txs[i].txId) != [] && ValidValue(env, l.txs[i])
  {
  }

  lemma RunOne(env: Env, d: Db, e: Event)
    ensures Run(env, d, [e]) == Step(env, d, e).0
  {
    hide Step;
    assert [e][1..] == [];
  }

  lemma RunTwo(env: Env, d: Db, e: Event, f: Event)
    ensures Run(env, d, [e, f]) == Step(env, Step(env, d, e).0, f).0
  {
    hide Step;
    assert [e, f][1..] == [f];
    RunOne(env, Step(env, d, e).0, f);
  }

  /** Mining a transaction of the wallet on its day moves its value and no more. */
  lemma MinedExposure(env: Env, d: Db, d': Db, i: nat, clock: Clock, w: BucketKey<string>)
    requires OnlyRow(d, d', i) && InFlight(d.ledger.txs[i]) && d'.ledger.txs[i].status == Mined
    requires ValidValue(env, d.ledger.txs[i])
    requires d.ledger.txs[i].wallet == w.subject && w == Key(w.subject, Day, clock.now)
    requires d'.buckets.wallets == AddCommitted(d.buckets.wallets, w.subject,
      env.parseInt(d.ledger.txs[i].valueWei).value, clock.now)
    ensures Exposure(env, d', w) == Exposure(env, d, w)
  {
    hide InFlightValue, Aggregate, AddCommitted;
    assert d'.ledger.txs == d.ledger.txs[i := d'.ledger.txs[i]];
    UpdatedPotential(env, d.ledger.txs, i, d'.ledger.txs[i], w);
    AddCommittedEffect(d.buckets.wallets, w.subject, env.parseInt(d.ledger.txs[i].valueWei).value, clock.now, w);
  }

  predicate Landed(tx: Tx, wallet: string) {
    !(InFlight(tx) && tx.wallet == wallet)
  }

  lemma {:induction false} NothingInFlight(env: Env, txs: seq<Tx>, wallet: string)
    requires forall i :: 0 <= i < |txs| ==> Landed(txs[i], wallet)
    ensures InFlightValue(env, txs, wallet) == 0
    decreases |txs|
  {
    if txs != [] {
      NothingInFlight(env, txs[..|txs| - 1], wallet);
      assert Landed(txs[|txs| - 1], wallet);
    }
  }

  lemma {:induction false} RunJoin(env: Env, d: Db, a: seq<Event>, b: seq<Event>)
    ensures Run(env, d, a + b) == Run(env, Run(env, d, a), b)
    decreases |a|
  {
    hide Step;
    if a == [] {
      assert a + b == b;
    } else {
      assert (a + b)[1..] == a[1..] + b;
      RunJoin(env, Step(env, d, a[0]).0, a[1..], b);
    }
  }

  /** Reports alone can bring the day to the whole exposure. */
  lemma {:induction false} MineFrom(env: Env, d: Db, i: nat, clock: Clock,
                                    w: BucketKey<string>) returns (evs: seq<Event>)
    requires Reportable(env, d.ledger) && i <= |d.ledger.txs| && w == Key(w.subject, Day, clock.now)
    requires forall j :: 0 <= j < i ==> Landed(d.ledger.txs[j], w.subject)
    ensures NoSigning(evs, w.start) && Aggregate(Run(env, d, evs).buckets.wallets, w) == Exposure(env, d, w)
    decreases |d.ledger.txs| - i
  {
    hide Step, Reportable, InFlightValue, Aggregate, Run;
    if i == |d.ledger.txs| {
      evs := [];
      RunNothing(env, d);
      NothingInFlight(env, d.ledger.txs, w.subject);
    } else if Landed(d.ledger.txs[i], w.subject) {
      evs := MineFrom(env, d, i + 1, clock, w);
    } else {
      var first := MineRow(env, d, i, clock, w);
      var d' := Run(env, d, first);
      var rest := MineFrom(env, d', i + 1, clock, w);
      evs := first + rest;
      RunJoin(env, d, first, rest);
    }
  }

  lemma RunNothing(env: Env, d: Db)
    ensures Run(env, d, []) == d
  {
  }

  // ---------- When the cap binds ----------

  /** Whatever is reported, requested or administered without a further signature, the mined total of the
      day stays within `cap`. */
  ghost predicate Binds(env: Env, d: Db, w: BucketKey<string>, cap: int) {
    forall evs :: NoSigning(evs, w.start) ==> Aggregate(Run(env, d, evs).buckets.wallets, w) <= cap
  }

  /** The cap binds a day's mined total exactly when the value mined that day and the value in flight are
      together within it. */
  lemma CapBindsIff(env: Env, d: Db, wallet: string, clock: Clock, cap: int)
    requires Reportable(env, d.ledger)
    ensures var w := Key(wallet, Day, clock.now); Binds(env, d, w, cap) <==> Exposure(env, d, w) <= cap
  {
    hide Run, Aggregate, Exposure;
    var w := Key(wallet, Day, clock.now);
    if Exposure(env, d, w) <= cap {
      forall evs | NoSigning(evs, w.start) ensures Aggregate(Run(env, d, evs).buckets.wallets, w) <= cap {
        RunExposure(env, d, evs, w);
      }
    } else {
      var evs := MineFrom(env, d, 0, clock, w);
      assert NoSigning(evs, w.start);
    }
  }
}
