/** Pruning buckets of windows that began more than two days ago changes no later answer: two databases
    that agree on every recent bucket answer every request alike and keep agreeing. */
module PruneSafety {
  import opened Prelude
  import opened PolicySchema
  import opened Environment
  import opened Store
  import opened CanonicalJson
  import opened RateWindows
  import opened TransactionRepo
  import opened PolicyEngine
  import opened SignTransaction
  import opened Transactions
  import opened NonceAdmin
  import opened SignFspMessage
  import opened Service
  import RateAccounting
  import AuditLog

  ghost predicate SameCounters<S(!new)>(m: Counters<S>, m': Counters<S>, since: int) {
    forall k: BucketKey<S> :: k.start >= since ==> Counter(m, k) == Counter(m', k)
  }

  ghost predicate SameWallets(m: WalletBuckets, m': WalletBuckets, since: int) {
    forall w: BucketKey<string> :: w.start >= since ==>
      WalletCounter(m, w) == WalletCounter(m', w) && Aggregate(m, w) == Aggregate(m', w)
  }

  ghost predicate SameBuckets(b: Buckets, b': Buckets, since: int) {
    SameCounters(b.callers, b'.callers, since) && SameWallets(b.wallets, b'.wallets, since) &&
      SameCounters(b.fsp, b'.fsp, since)
  }

  /** A window that is open now began less than a day ago. */
  lemma OpenWindowIsRecent(kind: WindowKind, now: int, since: int)
    requires since <= now - DAY
    ensures WindowStart(kind, now) >= since
  {
  }

  // ---------- The bucket operations ----------

  lemma SameCheck<S(!new)>(m: Counters<S>, m': Counters<S>, subject: S, rate: Option<RateLimit>, now: int, since: int)
    requires SameCounters(m, m', since) && since <= now - DAY
    ensures var r, r' := CheckAndIncrement(m, subject, rate, now), CheckAndIncrement(m', subject, rate, now);
            r.Some? == r'.Some? && (r.Some? ==> SameCounters(r.value, r'.value, since))
  {
    if rate.Some? {
      var ws := Windows(rate.value);
      forall i | 0 <= i < |ws|
        ensures Counter(m, Key(subject, ws[i].0, now)) == Counter(m', Key(subject, ws[i].0, now)) {
        OpenWindowIsRecent(ws[i].0, now, since);
      }
      hide Windows, Bump;
      forall k: BucketKey<S> | k.start >= since
        ensures Counter(Bump(m, subject, Windows(rate.value), now), k) ==
          Counter(Bump(m', subject, Windows(rate.value), now), k) {
        BumpCounter(m, subject, rate.value, now, k);
        BumpCounter(m', subject, rate.value, now, k);
      }
    }
  }

  lemma SameRelease<S(!new)>(m: Counters<S>, m': Counters<S>, subject: S, rate: Option<RateLimit>, now: int, since: int)
    requires SameCounters(m, m', since)
    ensures SameCounters(ReleaseCounters(m, subject, rate, now), ReleaseCounters(m', subject, rate, now), since)
  {
    if rate.Some? {
      hide Windows, Drop;
      forall k: BucketKey<S> | k.start >= since
        ensures Counter(Drop(m, subject, Windows(rate.value), now), k) ==
          Counter(Drop(m', subject, Windows(rate.value), now), k) {
        DropCounter(m, subject, rate.value, now, k);
        DropCounter(m', subject, rate.value, now, k);
      }
    }
  }

  ghost predicate SameOutcome(r: WalletCheck, r': WalletCheck, since: int) {
    if r.Admitted? && r'.Admitted? then SameWallets(r.buckets, r'.buckets, since) else r == r'
  }

  lemma SameWalletBump(m: WalletBuckets, m': WalletBuckets, wallet: string, rate: RateLimit, now: int, since: int)
    requires SameWallets(m, m', since) && since <= now - DAY
    ensures WalletRoom(m, wallet, Windows(rate), now) == WalletRoom(m', wallet, Windows(rate), now)
    ensures SameWallets(WalletBump(m, wallet, Windows(rate), now), WalletBump(m', wallet, Windows(rate), now), since)
  {
    var ws := Windows(rate);
    forall i | 0 <= i < |ws|
      ensures WalletCounter(m, Key(wallet, ws[i].0, now)) == WalletCounter(m', Key(wallet, ws[i].0, now)) {
      OpenWindowIsRecent(ws[i].0, now, since);
    }
    hide Windows, WalletBump;
    forall w: BucketKey<string> | w.start >= since
      ensures WalletCounter(WalletBump(m, wallet, Windows(rate), now), w) ==
        WalletCounter(WalletBump(m', wallet, Windows(rate), now), w)
      ensures Aggregate(WalletBump(m, wallet, Windows(rate), now), w) ==
        Aggregate(WalletBump(m', wallet, Windows(rate), now), w)
    {
      WalletBumpEffect(m, wallet, rate, now, w);
      WalletBumpEffect(m', wallet, rate, now, w);
    }
  }

  lemma SameWalletCheck(m: WalletBuckets, m': WalletBuckets, wallet: string, c: Option<WalletConstraint>, value: int,
                        now: int,
                        parseInt: string -> Option<int>, since: int)
    requires SameWallets(m, m', since) && since <= now - DAY
    ensures SameOutcome(CheckAndIncrementWallet(m, wallet, c, value, now, parseInt),
                        CheckAndIncrementWallet(m', wallet, c, value, now, parseInt), since)
  {
    assert Aggregate(m, Key(wallet, Day, now)) == Aggregate(m', Key(wallet, Day, now)) by {
      OpenWindowIsRecent(Day, now, since);
    }
    hide SameWallets, WalletRoom, WalletBump, Windows, Aggregate, Key;
    if c.Some? && c.value.rate.Some? {
      SameWalletBump(m, m', wallet, c.value.rate.value, now, since);
    }
  }

  lemma SameWalletRelease(m: WalletBuckets, m': WalletBuckets, wallet: string, c: Option<WalletConstraint>, now: int,
                          since: int)
    requires SameWallets(m, m', since)
    ensures SameWallets(ReleaseWalletBuckets(m, wallet, c, now), ReleaseWalletBuckets(m', wallet, c, now), since)
  {
    if c.Some? && c.value.rate.Some? {
      var rate := c.value.rate.value;
      hide Windows, WalletDrop;
      forall w: BucketKey<string> | w.start >= since
        ensures WalletCounter(WalletDrop(m, wallet, Windows(rate), now), w) ==
          WalletCounter(WalletDrop(m', wallet, Windows(rate), now), w)
        ensures Aggregate(WalletDrop(m, wallet, Windows(rate), now), w) ==
          Aggregate(WalletDrop(m', wallet, Windows(rate), now), w)
      {
        WalletDropEffect(m, wallet, rate, now, w);
        WalletDropEffect(m', wallet, rate, now, w);
      }
    }
  }

  lemma SameCommitted(m: WalletBuckets, m': WalletBuckets, wallet: string, value: int, now: int, since: int)
    requires SameWallets(m, m', since)
    ensures SameWallets(AddCommitted(m, wallet, value, now), AddCommitted(m', wallet, value, now), since)
  {
    forall w: BucketKey<string> | w.start >= since
      ensures WalletCounter(AddCommitted(m, wallet, value, now), w) ==
        WalletCounter(AddCommitted(m', wallet, value, now), w)
      ensures Aggregate(AddCommitted(m, wallet, value, now), w) == Aggregate(AddCommitted(m', wallet, value, now), w)
    {
      RateAccounting.AddCommittedEffect(m, wallet, value, now, w);
      RateAccounting.AddCommittedEffect(m', wallet, value, now, w);
    }
  }

  lemma SamePruned(b: Buckets, b': Buckets, cutoff: int, since: int)
    requires SameBuckets(b, b', since)
    ensures SameBuckets(DeleteStale(b, cutoff), DeleteStale(b', cutoff), since)
  {
  }

  // ---------- The gate ----------

  lemma SameCountWallet(env: Env, b: Buckets, undone: Buckets, b': Buckets, undone': Buckets, req: SignRequest,
                        a: Admission,
                        now: int, since: int)
    requires a.Admit? && since <= now - DAY && SameBuckets(b, b', since) && SameBuckets(undone, undone', since)
    ensures var r, r' := CountWallet(env, b, undone, req, a, now), CountWallet(env, b', undone', req, a, now);
            r.0 == r'.0 && SameBuckets(r.1, r'.1, since)
  {
    hide SameCounters, SameWallets, CheckAndIncrementWallet, ConstraintOf;
    SameWalletCheck(b.wallets, b'.wallets, req.wallet, ConstraintOf(env.policy, req.wallet), a.value, now, env.parseInt,
                    since);
  }

  lemma SameCount(env: Env, b: Buckets, b': Buckets, name: string, req: SignRequest, a: Admission, now: int, since: int)
    requires a.Admit? && SameBuckets(b, b', since) && since <= now - DAY
    ensures var r, r' := CountRequest(env, b, name, req, a, now), CountRequest(env, b', name, req, a, now);
            r.0 == r'.0 && SameBuckets(r.1, r'.1, since)
  {
    hide SameCounters, SameWallets, CheckAndIncrement, CountWallet, ReleaseCounters, SubjectOf, RateReason;
    var subject := SubjectOf(name, req, a.decoded.methodSignature);
    SameCheck(b.callers, b'.callers, subject, a.rate, now, since);
    var m, m' := CheckAndIncrement(b.callers, subject, a.rate, now),
      CheckAndIncrement(b'.callers, subject, a.rate, now);
    if Uncounted(a) {
      SameCountWallet(env, b, b, b', b', req, a, now, since);
    } else if m.Some? {
      SameRelease(m.value, m'.value, subject, a.rate, now, since);
      SameCountWallet(env, b.(callers := m.value), b.(callers := ReleaseCounters(m.value, subject, a.rate, now)),
                      b'.(callers := m'.value), b'.(callers := ReleaseCounters(m'.value, subject, a.rate, now)),
                      req, a, now, since);
    }
  }

  lemma SameEvaluation(env: Env, b: Buckets, b': Buckets, caller: Caller, req: SignRequest, now: int, since: int)
    requires SameBuckets(b, b', since) && since <= now - DAY
    ensures var r, r' := Evaluation(env, b, caller, req, now), Evaluation(env, b', caller, req, now);
            r.0 == r'.0 && SameBuckets(r.1, r'.1, since)
  {
    hide Admitted1To7, CountRequest, SameBuckets;
    var a := Admitted1To7(env, caller, req);
    if a.Admit? {
      SameCount(env, b, b', caller.name, req, a, now, since);
    }
  }

  lemma SameReleased(env: Env, b: Buckets, b': Buckets, allow: Verdict, name: string, req: SignRequest, now: int,
                     since: int)
    requires allow.Allow? && SameBuckets(b, b', since)
    ensures SameBuckets(ReleasedAfterFailure(env, b, allow, name, req, now),
      ReleasedAfterFailure(env, b', allow, name, req, now), since)
  {
    hide SameCounters, SameWallets, ReleaseCounters, ReleaseWalletBuckets;
    if allow.matchedPolicyPath in env.policy.permissions {
      var perm := env.policy.permissions[allow.matchedPolicyPath];
      SameRelease(b.callers, b'.callers, SubjectOf(name, req, allow.decoded.methodSignature), perm.rate, now, since);
      SameWalletRelease(b.wallets, b'.wallets, req.wallet, ConstraintOf(env.policy, req.wallet), now, since);
    }
  }

  // ---------- The requests ----------

  /** Alike in everything but buckets of windows that began before `since`. */
  ghost predicate Alike(d: Db, d': Db, since: int) {
    d'.wallets == d.wallets && d'.ledger == d.ledger && d'.audit == d.audit && SameBuckets(d.buckets, d'.buckets, since)
  }

  lemma SameReserved(env: Env, d: Db, d': Db, caller: Caller, req: SignRequest, clock: Clock, txId: string,
                     outcome: SignerOutcome,
                     allow: Verdict, since: int)
    requires Alike(d, d', since) && allow.Allow? && NonceKey(req.wallet, req.chain) in d.ledger.nonces
    ensures var r, r' := SignReserved(env, d, caller, req, clock, txId, outcome, allow),
      SignReserved(env, d', caller, req, clock, txId, outcome, allow);
            r.1 == r'.1 && Alike(r.0, r'.0, since)
  {
    SameReleased(env, d.buckets, d'.buckets, allow, caller.name, req, clock.now, since);
    hide SameBuckets, ReleasedAfterFailure, WithSigned, NewTx, SignEntry, ApprovedEntry, FieldsOf, IndexOf,
      AuditLog.AppendRow;
  }

  lemma SameAllowed(env: Env, d: Db, d': Db, caller: Caller, req: SignRequest, clock: Clock, txId: string,
                    outcome: SignerOutcome,
                    allow: Verdict, since: int)
    requires Alike(d, d', since) && allow.Allow?
    ensures var r, r' := SignAllowed(env, d, caller, req, clock, txId, outcome, allow),
      SignAllowed(env, d', caller, req, clock, txId, outcome, allow);
            r.1 == r'.1 && Alike(r.0, r'.0, since)
  {
    SameReleased(env, d.buckets, d'.buckets, allow, caller.name, req, clock.now, since);
    hide SameBuckets, ReleasedAfterFailure, SignReserved, SignEntry, HasStale, AuditLog.AppendRow;
    if NonceKey(req.wallet, req.chain) in d.ledger.nonces {
      SameReserved(env, d, d', caller, req, clock, txId, outcome, allow, since);
    }
  }

  lemma SameFresh(env: Env, d: Db, d': Db, caller: Caller, req: SignRequest, clock: Clock, txId: string,
                  outcome: SignerOutcome, since: int)
    requires Alike(d, d', since) && since <= clock.now - DAY
    ensures var r, r' := SignFresh(env, d, caller, req, clock, txId, outcome),
      SignFresh(env, d', caller, req, clock, txId, outcome);
            r.1 == r'.1 && Alike(r.0, r'.0, since)
  {
    SameEvaluation(env, d.buckets, d'.buckets, caller, req, clock.now, since);
    hide SameBuckets, Evaluation, SignAllowed, SignEntry, DenyText, CapReason, AuditLog.AppendRow, AuditLog.NewRow;
    var ev, ev' := Evaluation(env, d.buckets, caller, req, clock.now),
      Evaluation(env, d'.buckets, caller, req, clock.now);
    if CapReason(env.settings, req).Some? {
      return;
    }
    if ev.0.Allow? {
      SameAllowed(env, d.(buckets := ev.1), d'.(buckets := ev'.1), caller, req, clock, txId, outcome, ev.0, since);
    }
  }

  lemma SameReplay(env: Env, d: Db, d': Db, caller: Caller, req: SignRequest, clock: Clock, i: nat, since: int)
    requires Alike(d, d', since) && i < |d.ledger.txs| && req.idempotencyKey.Some?
    ensures var r, r' := Replay(env, d, caller, req, clock, i), Replay(env, d', caller, req, clock, i);
            r.1 == r'.1 && Alike(r.0, r'.0, since)
  {
    hide SameBuckets, SignEntry, AuditLog.AppendRow, RequestJson, FindSignSeq, BodyFields;
  }

  lemma SameSign(env: Env, d: Db, d': Db, caller: Caller, req: SignRequest, clock: Clock, txId: string,
                 outcome: SignerOutcome, since: int)
    requires Alike(d, d', since) && since <= clock.now - DAY
    ensures var r, r' := SignStep(env, d, caller, req, clock, txId, outcome),
      SignStep(env, d', caller, req, clock, txId, outcome);
            r.1 == r'.1 && Alike(r.0, r'.0, since)
  {
    hide SameBuckets, SignFresh, Replay, IndexOfKey;
    SameFresh(env, d, d', caller, req, clock, txId, outcome, since);
    if req.idempotencyKey.Some? && IndexOfKey(d.ledger.txs, caller.name, req.idempotencyKey.value).Some? {
      SameReplay(env, d, d', caller, req, clock, IndexOfKey(d.ledger.txs, caller.name, req.idempotencyKey.value).value,
                 since);
    }
  }

  lemma SameFspEvaluation(env: Env, b: Buckets, b': Buckets, caller: Caller, req: FspRequest, now: int, since: int)
    requires SameBuckets(b, b', since) && since <= now - DAY
    ensures var r, r' := FspEvaluation(env, b, caller, req, now), FspEvaluation(env, b', caller, req, now);
            r.0 == r'.0 && SameBuckets(r.1, r'.1, since)
  {
    if FspDenial(env.policy, caller, req).None? {
      RateAccounting.FspDenialFacts(env.policy, caller, req);
      hide FspDenial, SameCounters, SameWallets, CheckAndIncrement;
      var rate := env.policy.fspPermissions[env.policy.callers[caller.name].policyPath].rate;
      SameCheck(b.fsp, b'.fsp, FspSubject(caller.name, req.wallet, req.messageType), rate, now, since);
    }
  }

  lemma SameFspAllowed(env: Env, d: Db, d': Db, caller: Caller, req: FspRequest, clock: Clock, outcome: SignerOutcome,
                       allow: FspVerdict, since: int)
    requires Alike(d, d', since) && allow.FspAllow?
    ensures var r, r' := FspAllowed(env, d, caller, req, clock, outcome, allow),
      FspAllowed(env, d', caller, req, clock, outcome, allow);
            r.1 == r'.1 && Alike(r.0, r'.0, since)
  {
    SameRelease(d.buckets.fsp, d'.buckets.fsp, allow.subject, allow.rate, clock.now, since);
    hide SameCounters, SameWallets, ReleaseCounters, FspEntry, Built, SignatureText, AuditLog.AppendRow;
  }

  lemma SameFsp(env: Env, d: Db, d': Db, caller: Caller, req: FspRequest, clock: Clock, outcome: SignerOutcome,
                since: int)
    requires Alike(d, d', since) && since <= clock.now - DAY
    ensures var r, r' := FspStep(env, d, caller, req, clock, outcome), FspStep(env, d', caller, req, clock, outcome);
            r.1 == r'.1 && Alike(r.0, r'.0, since)
  {
    hide SameBuckets, FspEvaluation, FspAllowed, FspEntry, DenyText, AuditLog.AppendRow;
    SameFspEvaluation(env, d.buckets, d'.buckets, caller, req, clock.now, since);
    var ev, ev' := FspEvaluation(env, d.buckets, caller, req, clock.now),
      FspEvaluation(env, d'.buckets, caller, req, clock.now);
    if ev.0.FspAllow? {
      SameFspAllowed(env, d.(buckets := ev.1), d'.(buckets := ev'.1), caller, req, clock, outcome, ev.0, since);
    }
  }

  lemma SameGuard(env: Env, d: Db, d': Db, caller: Caller, txId: string, txHash: string, required: Status,
                  intent: string, action: string, since: int)
    requires Alike(d, d', since)
    ensures ReportGuard(env, d, caller, txId, txHash, required, intent, action) ==
      ReportGuard(env, d', caller, txId, txHash, required, intent, action)
  {
  }

  lemma SameReceipt(env: Env, d: Db, d': Db, caller: Caller, clock: Clock, txId: string, txHash: string, success: bool,
                    n: int, since: int)
    requires Alike(d, d', since)
    ensures var r, r' := ReceiptStep(env, d, caller, clock, txId, txHash, success, n),
      ReceiptStep(env, d', caller, clock, txId, txHash, success, n);
            r.1 == r'.1 && Alike(r.0, r'.0, since)
  {
    var intent := if success then "mined_success" else "mined_reverted";
    SameGuard(env, d, d', caller, txId, txHash, Submitted, intent, "tx-receipt", since);
    var g := ReportGuard(env, d, caller, txId, txHash, Submitted, intent, "tx-receipt");
    if g.Pass? {
      var tx := d.ledger.txs[g.i];
      SameCommitted(d.buckets.wallets, d'.buckets.wallets, tx.wallet, env.parseInt(tx.valueWei).GetOr(0), clock.now,
                    since);
    }
    hide ReportGuard, SameCounters, SameWallets, ReceiptEntry, ReceiptText, Confirmed, AddCommitted, AuditLog.AppendRow;
  }

  lemma SameBroadcast(env: Env, d: Db, d': Db, caller: Caller, clock: Clock, txId: string, txHash: string,
                      outcome: BroadcastOutcome,
                      errorClass: Option<string>, since: int)
    requires Alike(d, d', since)
    ensures var r, r' := BroadcastStep(env, d, caller, clock, txId, txHash, outcome, errorClass),
      BroadcastStep(env, d', caller, clock, txId, txHash, outcome, errorClass);
            r.1 == r'.1 && Alike(r.0, r'.0, since)
  {
    hide SameBuckets, ReportGuard, BroadcastEntry, Sent, Dropped, OutcomeText, AuditLog.AppendRow;
    SameGuard(env, d, d', caller, txId, txHash, Pending, OutcomeText(outcome), "tx-broadcast-result", since);
  }

  lemma SameReplace(env: Env, d: Db, d': Db, caller: Caller, clock: Clock, txId: string, body: ReplacementBody,
                    failure: Option<string>, since: int)
    requires Alike(d, d', since)
    ensures var r, r' := ReplaceStep(env, d, caller, clock, txId, body, failure),
      ReplaceStep(env, d', caller, clock, txId, body, failure);
            r.1 == r'.1 && Alike(r.0, r'.0, since)
  {
    hide SameBuckets, IndexOf, WhyRefused, RecordedData, RefusalEntry, ReplacementEntry, WithAttempt, ReplacementFields,
      AuditLog.AppendRow;
  }

  lemma SameAdmin(env: Env, d: Db, d': Db, body: InitBody, k: NonceKey, count: int, clock: Clock, since: int)
    requires Alike(d, d', since)
    ensures var r, r' := InitStep(env, d, body, clock), InitStep(env, d', body, clock);
            r.1 == r'.1 && Alike(r.0, r'.0, since)
    ensures var r, r' := SyncStep(env, d, k, count, clock), SyncStep(env, d', k, count, clock);
            r.1 == r'.1 && Alike(r.0, r'.0, since)
  {
    hide SameBuckets, CountInFlight, InitEntry, SyncEntry, FromTo, PrintInt, AuditLog.AppendRow;
  }

  lemma SameStep(env: Env, d: Db, d': Db, ev: Event, since: int)
    requires Alike(d, d', since) && since <= ev.clock.now - DAY
    ensures var r, r' := Step(env, d, ev), Step(env, d', ev);
            r.1 == r'.1 && Alike(r.0, r'.0, since)
  {
    hide SignStep, FspStep, ReceiptStep, BroadcastStep, ReplaceStep, InitStep, SyncStep, SameBuckets;
    match ev {
      case Sign(caller, req, clock, txId, outcome) => SameSign(env, d, d', caller, req, clock, txId, outcome, since);
      case SignFsp(caller, req, clock, outcome) => SameFsp(env, d, d', caller, req, clock, outcome, since);
      case Receipt(caller, clock, txId, h, success, n) =>
        SameReceipt(env, d, d', caller, clock, txId, h, success, n, since);
      case Prune(clock) => SamePruned(d.buckets, d'.buckets, PruneCutoff(clock.now), since);
      case Broadcast(caller, clock, txId, h, result, e) =>
        SameBroadcast(env, d, d', caller, clock, txId, h, result, e, since);
      case Replace(caller, clock, txId, body, failure) =>
        SameReplace(env, d, d', caller, clock, txId, body, failure, since);
      case Init(body, clock) => SameAdmin(env, d, d', body, NonceKey("", 0), 0, clock, since);
      case Sync(k, count, clock) => SameAdmin(env, d, d', InitBody("", 0, 0, false, false), k, count, clock, since);
    }
  }

  // ---------- Runs ----------

  function Answers(env: Env, d: Db, evs: seq<Event>): seq<Answer>
    decreases |evs|
  {
    if evs == [] then [] else [Step(env, d, evs[0]).1] + Answers(env, Step(env, d, evs[0]).0, evs[1..])
  }

  lemma {:induction false} SameRun(env: Env, d: Db, d': Db, evs: seq<Event>, since: int)
    requires Alike(d, d', since) && forall i :: 0 <= i < |evs| ==> since <= evs[i].clock.now - DAY
    ensures Answers(env, d, evs) == Answers(env, d', evs) && Alike(Run(env, d, evs), Run(env, d', evs), since)
    decreases |evs|
  {
    hide Step, Alike;
    if evs != [] {
      SameStep(env, d, d', evs[0], since);
      SameRun(env, Step(env, d, evs[0]).0, Step(env, d', evs[0]).0, evs[1..], since);
    }
  }

  lemma PrunedAlike(d: Db, cutoff: int)
    ensures Alike(d, d.(buckets := DeleteStale(d.buckets, cutoff)), cutoff)
  {
  }

  /** Whatever comes after a pruning, at its instant or later, is answered as if it had not happened. */
  lemma PruningIsInvisible(env: Env, d: Db, clock: Clock, evs: seq<Event>)
    requires forall i :: 0 <= i < |evs| ==> clock.now <= evs[i].clock.now
    ensures var pruned := d.(buckets := DeleteStale(d.buckets, PruneCutoff(clock.now)));
            && Answers(env, pruned, evs) == Answers(env, d, evs)
            && Run(env, pruned, evs).ledger == Run(env, d, evs).ledger &&
               Run(env, pruned, evs).audit == Run(env, d, evs).audit
            && SameBuckets(Run(env, d, evs).buckets, Run(env, pruned, evs).buckets, PruneCutoff(clock.now))
  {
    hide Answers, Run, SameBuckets;
    PrunedAlike(d, PruneCutoff(clock.now));
    SameRun(env, d, d.(buckets := DeleteStale(d.buckets, PruneCutoff(clock.now))), evs, PruneCutoff(clock.now));
  }
}
