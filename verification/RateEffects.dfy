/** What one signing request does to the rate counters, read at a single bucket. */
module RateEffects {
  import opened Prelude
  import CanonicalJson
  import opened PolicySchema
  import opened Environment
  import opened Store
  import opened RateWindows
  import opened TransactionRepo
  import opened PolicyEngine
  import opened SignTransaction

  // ---------- What a request counts against ----------

  predicate OnNativePath(env: Env, name: string) {
    name in env.policy.callers && env.policy.callers[name].policyPath in env.policy.nativeTransfers
  }

  /** The rate the caller's requests are counted under. */
  function RateOf(env: Env, name: string): Option<RateLimit> {
    if name !in env.policy.callers then None
    else
      var path := env.policy.callers[name].policyPath;
      if path in env.policy.nativeTransfers then env.policy.nativeTransfers[path].rate
      else if path in env.policy.permissions then env.policy.permissions[path].rate
      else None
  }

  /** The method signature a call to `to` with calldata `data` is counted under. */
  function MethodLabel(env: Env, name: string, to: string, data: string): string {
    if name !in env.policy.callers then ""
    else
      var path := env.policy.callers[name].policyPath;
      if path in env.policy.nativeTransfers then NATIVE_METHOD
      else if path !in env.policy.permissions then ""
      else match FindContract(env.policy.permissions[path].contracts, to)
        case None => ""
        case Some(crule) =>
          (match DecodeIntent(env, crule.abi, to, data)
           case Undecodable(_) => ""
           case Intent(d, _) => d.methodSignature)
  }

  predicate Counts(env: Env, name: string, wallet: string, to: string, data: string, now: int,
                   k: BucketKey<CallerSubject>) {
    RateOf(env, name).Some?
    && Hits(k, CallerSubject(name, wallet, Lower(to), MethodLabel(env, name, to, data)), RateOf(env, name).value, now)
  }

  predicate RequestCounts(env: Env, name: string, req: SignRequest, now: int, k: BucketKey<CallerSubject>) {
    Counts(env, name, req.wallet, req.to, req.data, now, k)
  }

  predicate WalletCounts(env: Env, wallet: string, now: int, k: BucketKey<string>) {
    var c := ConstraintOf(env.policy, wallet);
    c.Some? && c.value.rate.Some? && Hits(k, wallet, c.value.rate.value, now)
  }

  /** A counter that is in use belongs to a configured window and is within its cap. */
  predicate WithinCap(rate: Option<RateLimit>, kind: WindowKind, n: nat) {
    n > 0 ==> rate.Some? && Cap(rate.value, kind).Some? && n <= Cap(rate.value, kind).value
  }

  function WalletRate(env: Env, wallet: string): Option<RateLimit> {
    var c := ConstraintOf(env.policy, wallet);
    if c.None? then None else c.value.rate
  }

  ghost predicate Capped(env: Env, b: Buckets, k: BucketKey<CallerSubject>) {
    WithinCap(RateOf(env, k.subject.caller), k.kind, Counter(b.callers, k))
  }

  ghost predicate WalletCapped(env: Env, b: Buckets, k: BucketKey<string>) {
    WithinCap(WalletRate(env, k.subject), k.kind, WalletCounter(b.wallets, k))
  }

  /** Daily value caps are decimal integers, so the gate never stops on one it cannot read. */
  ghost predicate DecimalCaps(env: Env) {
    forall wallet: string ::
      ConstraintOf(env.policy, wallet).Some?
      && ConstraintOf(env.policy, wallet).value.maxAggregateValueWeiPerDay.Some? ==>
      env.parseInt(ConstraintOf(env.policy, wallet).value.maxAggregateValueWeiPerDay.value).Some?
  }

  /** Every path with a native_transfers block also has a permissions block, so that a failed signing is
      always uncounted. */
  predicate NativeReleases(env: Env) {
    forall path :: path in env.policy.nativeTransfers ==> path in env.policy.permissions
  }

  function One(p: bool): nat {
    if p then 1 else 0
  }

  // ---------- The gate ----------

  lemma NativeAdmission(env: Env, req: SignRequest, path: string, rule: NativeTransferBlock)
    ensures var a := AdmitNative(env, req, path, rule);
            if a.Denied? then 1 <= a.step <= 7
            else a.path == path && a.rate == rule.rate && a.native && a.decoded.methodSignature == NATIVE_METHOD
  {
    hide HexPart, CanonicalJson.PrintInt;
  }

  lemma MethodAdmission(env: Env, req: SignRequest, path: string, perm: PermissionBlock, crule: ContractRule,
                        intent: DecodeResult)
    requires intent.Intent?
    ensures var a := CheckMethod(env, req, path, perm, crule, intent);
            if a.Denied? then 4 <= a.step <= 7 else a == Admit(intent.decoded, path, perm.rate, false, a.value)
  {
    hide FirstMismatch;
  }

  lemma CallAdmission(env: Env, req: SignRequest, path: string)
    ensures var a := AdmitCall(env, req, path);
            if a.Denied? then 1 <= a.step <= 7
            else
              && path in env.policy.permissions && a.path == path && a.rate == env.policy.permissions[path].rate &&
                 !a.native
              && FindContract(env.policy.permissions[path].contracts, req.to).Some?
              && var crule := FindContract(env.policy.permissions[path].contracts, req.to).value;
              && DecodeIntent(env, crule.abi, req.to, req.data).Intent?
              && a.decoded == DecodeIntent(env, crule.abi, req.to, req.data).decoded
  {
    hide FirstMismatch, HexPart, FindContract, DecodeIntent, CheckMethod, CanonicalJson.PrintInt;
    if path in env.policy.permissions && FindContract(env.policy.permissions[path].contracts, req.to).Some? {
      var perm := env.policy.permissions[path];
      var crule := FindContract(perm.contracts, req.to).value;
      if DecodeIntent(env, crule.abi, req.to, req.data).Intent? {
        MethodAdmission(env, req, path, perm, crule, DecodeIntent(env, crule.abi, req.to, req.data));
      }
    }
  }

  /** Whoever passes steps 1 to 7 is counted under the rate and the method its path gives. */
  lemma AdmittedLabel(env: Env, caller: Caller, req: SignRequest)
    ensures var a := Admitted1To7(env, caller, req);
            if a.Denied? then 1 <= a.step <= 7
            else
              && caller.name in env.policy.callers && a.path == env.policy.callers[caller.name].policyPath
              && a.rate == RateOf(env, caller.name) && a.native == OnNativePath(env, caller.name)
              && (!a.native ==> a.path in env.policy.permissions)
              && a.decoded.methodSignature == MethodLabel(env, caller.name, req.to, req.data)
  {
    hide AdmitNative, AdmitCall, FindContract, DecodeIntent;
    if caller.name in env.policy.callers {
      var path := env.policy.callers[caller.name].policyPath;
      if path in env.policy.nativeTransfers {
        NativeAdmission(env, req, path, env.policy.nativeTransfers[path]);
      } else {
        CallAdmission(env, req, path);
      }
    }
  }

  /** One increment that is admitted, and the same increment undone. */
  lemma CheckedCounter(env: Env, m: Counters<CallerSubject>, name: string, req: SignRequest, now: int,
                       k: BucketKey<CallerSubject>)
    requires RateOf(env, name).Some?
    requires WithinCap(RateOf(env, k.subject.caller), k.kind, Counter(m, k))
    ensures var subject := SubjectOf(name, req, MethodLabel(env, name, req.to, req.data));
            var counted := CheckAndIncrement(m, subject, RateOf(env, name), now);
            counted.Some? ==>
              && Counter(counted.value, k) == Counter(m, k) + One(RequestCounts(env, name, req, now, k))
              && WithinCap(RateOf(env, k.subject.caller), k.kind, Counter(counted.value, k))
              && Counter(ReleaseCounters(counted.value, subject, RateOf(env, name), now), k) == Counter(m, k)
  {
    hide MethodLabel, Windows, Bump, Drop;
    var rate := RateOf(env, name).value;
    var subject := SubjectOf(name, req, MethodLabel(env, name, req.to, req.data));
    BumpCounter(m, subject, rate, now, k);
    DropCounter(Bump(m, subject, Windows(rate), now), subject, rate, now, k);
    if Room(m, subject, Windows(rate), now) && RequestCounts(env, name, req, now, k) {
      AdmittedWithinCap(m, subject, rate, now, k);
    }
  }

  /** What the gate leaves in a caller bucket: one more if it admits, and nothing if it refuses, unless it
      stopped on an unreadable cap after counting. */
  lemma CountedCaller(env: Env, b: Buckets, caller: Caller, req: SignRequest, a: Admission, now: int,
                      k: BucketKey<CallerSubject>)
    requires a.Admit? && a.rate == RateOf(env, caller.name)
    requires a.decoded.methodSignature == MethodLabel(env, caller.name, req.to, req.data)
    requires Capped(env, b, k)
    ensures var r := CountRequest(env, b, caller.name, req, a, now);
            var hit := One(RequestCounts(env, caller.name, req, now, k));
            && r.1.fsp == b.fsp
            && Counter(r.1.callers, k) == Counter(b.callers, k) + (if r.0.Allow? || r.0.step == 0 then hit else 0)
            && Capped(env, r.1, k)
  {
    hide CheckAndIncrementWallet, MethodLabel, RateOf, CheckAndIncrement, ReleaseCounters, Counter;
    if a.rate.Some? {
      CheckedCounter(env, b.callers, caller.name, req, now, k);
    } else {
      assert CheckAndIncrement(b.callers, SubjectOf(caller.name, req, a.decoded.methodSignature), None, now).None? by {
        NoRateNoCount(b.callers, SubjectOf(caller.name, req, a.decoded.methodSignature), now);
      }
    }
  }

  lemma NoRateNoCount<S>(m: Counters<S>, subject: S, now: int)
    ensures CheckAndIncrement(m, subject, None, now).None?
  {
  }

  lemma CountedWallet(env: Env, b: Buckets, caller: Caller, req: SignRequest, a: Admission, now: int,
                      k: BucketKey<string>)
    requires a.Admit?
    ensures var r := CountRequest(env, b, caller.name, req, a, now);
            && Aggregate(r.1.wallets, k) == Aggregate(b.wallets, k)
            && WalletCounter(r.1.wallets, k) ==
               WalletCounter(b.wallets, k) + One(r.0.Allow? && WalletCounts(env, req.wallet, now, k))
            && (WalletCapped(env, b, k) ==> WalletCapped(env, r.1, k))
  {
    hide CheckAndIncrement, ReleaseCounters, Windows, WalletBump;
    var c := ConstraintOf(env.policy, req.wallet);
    if c.Some? && c.value.rate.Some? {
      WalletBumpEffect(b.wallets, req.wallet, c.value.rate.value, now, k);
      if WalletRoom(b.wallets, req.wallet, Windows(c.value.rate.value), now) && WalletCounts(env, req.wallet, now, k) {
        WalletAdmittedWithinCap(b.wallets, req.wallet, c.value.rate.value, now, k);
      }
    }
  }

  lemma DecimalCapsNeverStop(env: Env, b: Buckets, caller: Caller, req: SignRequest, now: int)
    requires DecimalCaps(env) && Evaluation(env, b, caller, req, now).0.Deny?
    ensures Evaluation(env, b, caller, req, now).0.step != 0
  {
    hide CheckAndIncrement, ReleaseCounters, Admitted1To7;
    AdmittedLabel(env, caller, req);
  }

  /** The gate as a whole, at one caller bucket and one wallet bucket. */
  lemma EvaluationEffect(env: Env, b: Buckets, caller: Caller, req: SignRequest, now: int,
                         k: BucketKey<CallerSubject>, w: BucketKey<string>)
    requires Capped(env, b, k)
    ensures var r := Evaluation(env, b, caller, req, now);
            && r.1.fsp == b.fsp
            && Counter(r.1.callers, k) >= Counter(b.callers, k)
            && (r.0.Deny? && r.0.step != 0 ==> Counter(r.1.callers, k) == Counter(b.callers, k))
            && (r.0.Allow? ==>
                  Counter(r.1.callers, k) == Counter(b.callers, k) + One(RequestCounts(env, caller.name, req, now, k)))
            && Capped(env, r.1, k)
            && Aggregate(r.1.wallets, w) == Aggregate(b.wallets, w)
            && WalletCounter(r.1.wallets, w) ==
               WalletCounter(b.wallets, w) + One(r.0.Allow? && WalletCounts(env, req.wallet, now, w))
            && (WalletCapped(env, b, w) ==> WalletCapped(env, r.1, w))
            && (r.0.Allow? ==> AllowFacts(env, caller.name, req, r.0))
  {
    hide Counter, RequestCounts, WalletCounts, Capped, WalletCapped, MethodLabel, RateOf, WalletCounter, Aggregate;
    AdmittedLabel(env, caller, req);
    var a := Admitted1To7(env, caller, req);
    hide Admitted1To7;
    if a.Admit? {
      CountedCaller(env, b, caller, req, a, now, k);
      CountedWallet(env, b, caller, req, a, now, w);
    }
    hide CountRequest;
  }

  /** What a positive decision carries: all that the release later derives its keys from. */
  predicate AllowFacts(env: Env, name: string, req: SignRequest, v: Verdict) {
    && v.Allow? && name in env.policy.callers && v.matchedPolicyPath == env.policy.callers[name].policyPath
    && v.decoded.methodSignature == MethodLabel(env, name, req.to, req.data)
    && (OnNativePath(env, name) || v.matchedPolicyPath in env.policy.permissions)
  }

  // ---------- Undoing ----------

  /** A release under the rate of the permissions block takes back at most the one increment, and on the
      call path exactly it. */
  lemma ReleasedCaller(env: Env, m: Counters<CallerSubject>, before: nat, allow: Verdict, name: string,
                       req: SignRequest, now: int,
                       k: BucketKey<CallerSubject>)
    requires AllowFacts(env, name, req, allow) && allow.matchedPolicyPath in env.policy.permissions
    requires Counter(m, k) == before + One(RequestCounts(env, name, req, now, k))
    requires WithinCap(RateOf(env, k.subject.caller), k.kind, Counter(m, k))
    ensures var perm := env.policy.permissions[allow.matchedPolicyPath];
            var m' := ReleaseCounters(m, SubjectOf(name, req, allow.decoded.methodSignature), perm.rate, now);
            && before <= Counter(m', k) <= Counter(m, k)
            && (!OnNativePath(env, k.subject.caller) ==> Counter(m', k) == before)
  {
    hide MethodLabel, Windows, Drop;
    var perm := env.policy.permissions[allow.matchedPolicyPath];
    if perm.rate.Some? {
      DropCounter(m, SubjectOf(name, req, allow.decoded.methodSignature), perm.rate.value, now, k);
    }
  }

  lemma ReleasedWallet(env: Env, m: WalletBuckets, before: nat, wallet: string, now: int, w: BucketKey<string>)
    requires WalletCounter(m, w) == before + One(WalletCounts(env, wallet, now, w))
    ensures var m' := ReleaseWalletBuckets(m, wallet, ConstraintOf(env.policy, wallet), now);
            WalletCounter(m', w) == before && Aggregate(m', w) == Aggregate(m, w)
  {
    hide Windows, WalletDrop;
    var c := ConstraintOf(env.policy, wallet);
    if c.Some? && c.value.rate.Some? {
      WalletDropEffect(m, wallet, c.value.rate.value, now, w);
    }
  }

  /** What a failed signing leaves behind at two buckets: nothing, except that a native path without a
      permissions block keeps the increments. */
  lemma FailureEffect(env: Env, b: Buckets, caller: Caller, req: SignRequest, now: int,
                      k: BucketKey<CallerSubject>, w: BucketKey<string>)
    requires Capped(env, b, k) && Evaluation(env, b, caller, req, now).0.Allow?
    ensures var r := Evaluation(env, b, caller, req, now);
            var b' := ReleasedAfterFailure(env, r.1, r.0, caller.name, req, now);
            && b'.fsp == b.fsp
            && Counter(b'.callers, k) >= Counter(b.callers, k) && Capped(env, b', k)
            && (!OnNativePath(env, k.subject.caller) ==> Counter(b'.callers, k) == Counter(b.callers, k))
            && Aggregate(b'.wallets, w) == Aggregate(b.wallets, w)
            && WalletCounter(b'.wallets, w) >= WalletCounter(b.wallets, w)
            && (WalletCapped(env, b, w) ==> WalletCapped(env, b', w))
            && (!OnNativePath(env, caller.name) || NativeReleases(env) ==>
                  WalletCounter(b'.wallets, w) == WalletCounter(b.wallets, w))
  {
    EvaluationEffect(env, b, caller, req, now, k, w);
    var r := Evaluation(env, b, caller, req, now);
    hide Evaluation, Counter, RequestCounts, WalletCounts, MethodLabel, RateOf, WalletCounter, Aggregate,
      ReleaseCounters, ReleaseWalletBuckets, ConstraintOf;
    if r.0.matchedPolicyPath in env.policy.permissions {
      ReleasedCaller(env, r.1.callers, Counter(b.callers, k), r.0, caller.name, req, now, k);
      ReleasedWallet(env, r.1.wallets, WalletCounter(b.wallets, w), req.wallet, now, w);
    }
  }

  /** The permissions block of the caller's path uncounts windows of this kind. */
  predicate Uncounts(env: Env, name: string, kind: WindowKind) {
    name in env.policy.callers
    && var path := env.policy.callers[name].policyPath;
       path in env.policy.permissions && env.policy.permissions[path].rate.Some?
       && Cap(env.policy.permissions[path].rate.value, kind).Some?
  }

  /** The caller's path has a permissions block. */
  predicate HasBlock(env: Env, name: string) {
    name in env.policy.callers && env.policy.callers[name].policyPath in env.policy.permissions
  }

  /** Exactly what a failed signing leaves behind: the increments its release does not reach. */
  lemma FailureExact(env: Env, b: Buckets, caller: Caller, req: SignRequest, now: int,
                     k: BucketKey<CallerSubject>, w: BucketKey<string>)
    requires Capped(env, b, k) && Evaluation(env, b, caller, req, now).0.Allow?
    ensures var r := Evaluation(env, b, caller, req, now);
            var b' := ReleasedAfterFailure(env, r.1, r.0, caller.name, req, now);
            && Counter(b'.callers, k)
                 == Counter(b.callers, k) + One(RequestCounts(env, caller.name, req, now, k) &&
                   !Uncounts(env, caller.name, k.kind))
            && WalletCounter(b'.wallets, w)
                 == WalletCounter(b.wallets, w) +
                   One(WalletCounts(env, req.wallet, now, w) && !HasBlock(env, caller.name))
  {
    EvaluationEffect(env, b, caller, req, now, k, w);
    var r := Evaluation(env, b, caller, req, now);
    hide Evaluation, Counter, RequestCounts, WalletCounts, MethodLabel, RateOf, WalletCounter, Aggregate,
      ReleaseCounters, ReleaseWalletBuckets, ConstraintOf, Uncounts, Capped, WalletCapped, OnNativePath;
    if r.0.matchedPolicyPath in env.policy.permissions {
      UncountedExactly(env, b, r.1, r.0, caller.name, req, now, k);
      ReleasedWallet(env, r.1.wallets, WalletCounter(b.wallets, w), req.wallet, now, w);
    } else {
      assert !Uncounts(env, caller.name, k.kind) by { NoBlockNoUncount(env, caller.name, k.kind); }
    }
  }

  lemma NoBlockNoUncount(env: Env, name: string, kind: WindowKind)
    requires !HasBlock(env, name)
    ensures !Uncounts(env, name, kind)
  {
  }

  lemma UncountedExactly(env: Env, b: Buckets, counted: Buckets, allow: Verdict, name: string, req: SignRequest,
                         now: int,
                         k: BucketKey<CallerSubject>)
    requires AllowFacts(env, name, req, allow) && allow.matchedPolicyPath in env.policy.permissions
    requires Counter(counted.callers, k) == Counter(b.callers, k) + One(RequestCounts(env, name, req, now, k))
    requires Capped(env, counted, k)
    ensures var perm := env.policy.permissions[allow.matchedPolicyPath];
            var m := ReleaseCounters(counted.callers, SubjectOf(name, req, allow.decoded.methodSignature), perm.rate,
              now);
            Counter(m, k) == Counter(b.callers, k) +
              One(RequestCounts(env, name, req, now, k) && !Uncounts(env, name, k.kind))
  {
    hide MethodLabel, Windows, Drop, Counter;
    var perm := env.policy.permissions[allow.matchedPolicyPath];
    if perm.rate.Some? {
      DropCounter(counted.callers, SubjectOf(name, req, allow.decoded.methodSignature), perm.rate.value, now, k);
    }
  }

  /** The guards that lead to an error inside the wallet check, after the caller has been counted: the
      request passes steps 1 to 8 and the wallet's daily cap is there but not a decimal integer. */
  predicate StopsAfterCounting(env: Env, b: Buckets, caller: Caller, req: SignRequest, now: int) {
    var a := Admitted1To7(env, caller, req);
    && a.Admit?
    && (Uncounted(a) || CheckAndIncrement(b.callers, SubjectOf(caller.name, req, a.decoded.methodSignature), a.rate,
         now).Some?)
    && req.wallet in env.policy.wallets && ConstraintOf(env.policy, req.wallet).Some?
    && var cap := ConstraintOf(env.policy, req.wallet).value.maxAggregateValueWeiPerDay;
       cap.Some? && env.parseInt(cap.value).None?
  }

  /** Step 0 is exactly that error, and it keeps the increment of step 8. */
  lemma StepZeroIff(env: Env, b: Buckets, caller: Caller, req: SignRequest, now: int, k: BucketKey<CallerSubject>)
    requires Capped(env, b, k)
    ensures var r := Evaluation(env, b, caller, req, now);
            && (r.0.Deny? && r.0.step == 0 <==> StopsAfterCounting(env, b, caller, req, now))
            && (r.0.Deny? ==> r.1.wallets == b.wallets)
            && (r.0.Deny? ==>
                  Counter(r.1.callers, k) == Counter(b.callers, k)
                    + One(StopsAfterCounting(env, b, caller, req, now) && RequestCounts(env, caller.name, req, now, k)))
  {
    hide Counter, RequestCounts, MethodLabel, RateOf, Capped, CheckAndIncrement, ReleaseCounters, WalletRoom,
      WalletBump;
    AdmittedLabel(env, caller, req);
    var a := Admitted1To7(env, caller, req);
    hide Admitted1To7;
    if a.Admit? {
      CountedCaller(env, b, caller, req, a, now, k);
    }
  }

  // ---------- The whole request ----------

  predicate SignsNow(l: Ledger, reply: Reply) {
    reply.Ok? && IndexOf(l.txs, reply.result.txId).None?
  }

  /** The four ways a signing request can leave the counters. */
  ghost predicate SignBuckets(env: Env, d: Db, caller: Caller, req: SignRequest, now: int, b': Buckets, reply: Reply) {
    var r := Evaluation(env, d.buckets, caller, req, now);
    if SignsNow(d.ledger, reply) then r.0.Allow? && b' == r.1
    else if reply.PolicyDenied? then r.0.Deny? && r.0.step == reply.step && b' == r.1
    else if reply.NonceWedged? || reply.NonceNotInitialized? || reply.PreSignFailure? then
      r.0.Allow? && b' == ReleasedAfterFailure(env, r.1, r.0, caller.name, req, now)
    else b' == d.buckets
  }

  lemma FreshBuckets(env: Env, d: Db, caller: Caller, req: SignRequest, clock: Clock, txId: string,
                     outcome: SignerOutcome)
    ensures var r := SignFresh(env, d, caller, req, clock, txId, outcome);
            !r.1.Crash? ==> SignBuckets(env, d, caller, req, clock.now, r.0.buckets, r.1)
  {
    hide Evaluation, ReleasedAfterFailure, SignEntry, ApprovedEntry, HasStale, NewTx, WithSigned, DenyText;
  }

  lemma SignStepBuckets(env: Env, d: Db, caller: Caller, req: SignRequest, clock: Clock, txId: string,
                        outcome: SignerOutcome)
    ensures var r := SignStep(env, d, caller, req, clock, txId, outcome);
            SignBuckets(env, d, caller, req, clock.now, r.0.buckets, r.1)
  {
    hide Evaluation, ReleasedAfterFailure, SignFresh;
    FreshBuckets(env, d, caller, req, clock, txId, outcome);
    if req.idempotencyKey.Some? {
      var found := IndexOfKey(d.ledger.txs, caller.name, req.idempotencyKey.value);
      if found.Some? {
        assert IndexOf(d.ledger.txs, d.ledger.txs[found.value].txId).Some?;
      }
    }
  }

  /** A request that signs adds one to the buckets it counts in; any other adds nothing on the call path. */
  lemma SignEffectOnCounters(env: Env, d: Db, caller: Caller, req: SignRequest, clock: Clock, txId: string,
                             outcome: SignerOutcome,
                             k: BucketKey<CallerSubject>, w: BucketKey<string>)
    requires Capped(env, d.buckets, k)
    ensures var r := SignStep(env, d, caller, req, clock, txId, outcome);
            var b, b' := d.buckets, r.0.buckets;
            var signed := SignsNow(d.ledger, r.1);
            && b'.fsp == b.fsp
            && Capped(env, b', k) && (WalletCapped(env, b, w) ==> WalletCapped(env, b', w))
            && Aggregate(b'.wallets, w) == Aggregate(b.wallets, w)
            && Counter(b'.callers, k) >= Counter(b.callers, k) +
               One(signed && RequestCounts(env, caller.name, req, clock.now, k))
            && (!OnNativePath(env, k.subject.caller) && DecimalCaps(env) ==>
                  Counter(b'.callers, k) == Counter(b.callers, k) +
                    One(signed && RequestCounts(env, caller.name, req, clock.now, k)))
            && WalletCounter(b'.wallets, w) >=
               WalletCounter(b.wallets, w) + One(signed && WalletCounts(env, req.wallet, clock.now, w))
            && (!OnNativePath(env, caller.name) || NativeReleases(env) ==>
                  WalletCounter(b'.wallets, w) ==
                    WalletCounter(b.wallets, w) + One(signed && WalletCounts(env, req.wallet, clock.now, w)))
  {
    SignStepBuckets(env, d, caller, req, clock, txId, outcome);
    hide SignStep, Evaluation, Counter, RequestCounts, WalletCounts, WalletCounter, Aggregate, ReleasedAfterFailure,
      NativeReleases, OnNativePath, AllowFacts, Capped, WalletCapped, IndexOf, DecimalCaps;
    EvaluationEffect(env, d.buckets, caller, req, clock.now, k, w);
    if Evaluation(env, d.buckets, caller, req, clock.now).0.Allow? {
      FailureEffect(env, d.buckets, caller, req, clock.now, k, w);
    } else if DecimalCaps(env) {
      DecimalCapsNeverStop(env, d.buckets, caller, req, clock.now);
    }
  }
}
