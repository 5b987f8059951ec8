/** Concrete inputs at which a property of the gate, its counters or the policy generator fails. */
module Witnesses {
  import opened Prelude
  import opened PolicySchema
  import opened Environment
  import opened Store
  import opened RateWindows
  import opened PolicyEngine
  import opened SignTransaction
  import opened RateEffects
  import AuditLog
  import PolicyLoader
  import CarveOut
  import DailyCap
  import TransactionRepo
  import Service
  import Ladder
  import RateAccounting
  import opened PolicyNames
  import opened PolicyInit
  import opened NetworkIsolation
  import GeneratedPolicies

  /** An environment that reads the decimals "0" and "5" and decodes every call to no scalar arguments. */
  function ToyEnv(p: Policy, registry: Registry): Env {
    Env(p, registry, Settings(15_000_000, 500_000_000_000, 64, 900_000_000),
        s => if s == "0" then Some(0) else if s == "5" then Some(5) else None,
        (_, _) => Some(map[]), s => s, (_, _) => Signed("hash", "raw"), (_, _) => FspSignature("", 0, "", "", ""),
        bs => bs, bs => bs, _ => "", _ => None, (_, _, _) => "")
  }

  const PAYER := "0xdddddddddddddddddddddddddddddddddddddddd"
  const PAYEE := "0xeeeeeeeeeeeeeeeeeeeeeeeeeeeeeeeeeeeeeeee"
  const CALLDATA := "0x11111111"
  const ONE_PER_HOUR := RateLimit(Some(1), None)
  const CLOCK := Clock(0, AuditLog.Timestamp("1970-01-01T00:00:00", true))

  /** Five wei from wallet `wallet` to `to`. */
  function PayFive(wallet: string, to: string, data: string): SignRequest {
    SignRequest(wallet, 1, to, "5", data, 21_000, 1_000_000_000, 1_000_000, None)
  }

  lemma HexOfCalldata()
    ensures HexPart(CALLDATA) == "11111111" && Lower("11111111") == "11111111"
    ensures "0x" + Lower(HexPart(CALLDATA)[..8]) == CALLDATA
  {
  }

  lemma CalldataDecodes(env: Env, abi: string, sig: string, to: string)
    requires abi in env.registry && CALLDATA in env.registry[abi]
    requires env.registry[abi][CALLDATA] == AbiMethod(sig, false)
    requires env.decodeArgs(AbiMethod(sig, false), "11111111") == Some(map[])
    ensures DecodeIntent(env, abi, to, CALLDATA) == Intent(Decoded(Lower(to), sig, CALLDATA, map[]), false)
  {
    HexOfCalldata();
    hide HexPart, Lower;
    var hex := "11111111";
    assert HexPart(CALLDATA) == hex && |hex| == 8 && hex[..8] == hex;
    assert forall i :: 0 <= i < |hex| ==> IsHexChar(hex[i]);
  }

  /** A call to the one contract of a block, with a method that has no predicates, is admitted. */
  lemma CallIsAdmitted(env: Env, req: SignRequest, path: string, abi: string, sig: string, max: string)
    requires path in env.policy.permissions && req.wallet in env.policy.permissions[path].walletAllowlist
    requires env.policy.permissions[path].contracts ==
      [(req.to, ContractRule(abi, [req.chain], map[sig := MethodRule(max, [], false)]))]
    requires req.data == CALLDATA && abi in env.registry && CALLDATA in env.registry[abi]
    requires env.registry[abi][CALLDATA] == AbiMethod(sig, false)
    requires env.decodeArgs(AbiMethod(sig, false), "11111111") == Some(map[])
    requires env.parseInt(max).Some? && env.parseInt(req.valueWei).Some?
    requires env.parseInt(req.valueWei).value <= env.parseInt(max).value
    ensures AdmitCall(env, req, path)
         == Admit(Decoded(Lower(req.to), sig, CALLDATA, map[]), path, env.policy.permissions[path].rate, false,
           env.parseInt(req.valueWei).value)
  {
    CalldataDecodes(env, abi, sig, req.to);
    HexOfCalldata();
    hide DecodeIntent, HexPart, Lower;
  }

  lemma EmptyHasRoom<S>(subject: S, now: int)
    ensures var m: Counters<S> := map[];
            CheckAndIncrement(m, subject, Some(ONE_PER_HOUR), now).Some?
  {
    assert Windows(ONE_PER_HOUR) == [(Hour, 1)];
  }

  // ---------- The carve-out exempts an address ----------

  const TWIN_CALLER := Caller("c", "perm/a", false)

  lemma TwinIsAdmitted()
    ensures var env, req := ToyEnv(PolicyLoader.TWINS, PolicyLoader.TWIN_REGISTRY),
      PayFive("a", PolicyLoader.BANK_ADDRESS, CALLDATA);
            var a := Admitted1To7(env, TWIN_CALLER, req);
            a.Admit? && !a.native && a.value == 5 && a.rate == Some(ONE_PER_HOUR) &&
              a.decoded.methodSignature == "pay()"
  {
    var env, req := ToyEnv(PolicyLoader.TWINS, PolicyLoader.TWIN_REGISTRY),
      PayFive("a", PolicyLoader.BANK_ADDRESS, CALLDATA);
    CallIsAdmitted(env, req, "perm/a", "bank", "pay()", "5");
    hide AdmitCall;
    assert Admitted1To7(env, TWIN_CALLER, req) == AdmitCall(env, req, "perm/a");
  }

  lemma TwinIsAllowed()
    ensures var env, req := ToyEnv(PolicyLoader.TWINS, PolicyLoader.TWIN_REGISTRY),
      PayFive("a", PolicyLoader.BANK_ADDRESS, CALLDATA);
            Evaluation(env, EMPTY_BUCKETS, TWIN_CALLER, req, 0).0.Allow? && env.parseInt(req.valueWei) == Some(5)
  {
    TwinIsAdmitted();
    EmptyHasRoom(SubjectOf("c", PayFive("a", PolicyLoader.BANK_ADDRESS, CALLDATA), "pay()"), 0);
    hide Admitted1To7, CheckAndIncrement;
  }

  /** The policy of two wallets with one key passes the check, and the gate lets the caller pay five wei
      from a wallet that signs FSP messages. */
  lemma TwinPaysOut()
    ensures PolicyLoader.Consistent(PolicyLoader.TWINS, [TWIN_CALLER], PolicyLoader.TWIN_WALLETS,
      PolicyLoader.TWIN_REGISTRY)
    ensures var env, req := ToyEnv(PolicyLoader.TWINS, PolicyLoader.TWIN_REGISTRY),
      PayFive("a", PolicyLoader.BANK_ADDRESS, CALLDATA);
            && PolicyLoader.FspAllowlisted(PolicyLoader.TWINS, req.wallet)
            && Evaluation(env, EMPTY_BUCKETS, TWIN_CALLER, req, 0).0.Allow?
            && env.parseInt(req.valueWei) == Some(5)
            && !CarveOut.WalletMovesNothing(env, req.wallet)
  {
    PolicyLoader.TwinEscapes();
    TwinIsAllowed();
    TwinIsAdmitted();
    var env, req := ToyEnv(PolicyLoader.TWINS, PolicyLoader.TWIN_REGISTRY),
      PayFive("a", PolicyLoader.BANK_ADDRESS, CALLDATA);
    hide Evaluation, Admitted1To7, PolicyLoader.Consistent, PolicyLoader.FspAllowlisted;
    PolicyLoader.CallersOnlyAdd(PolicyLoader.TWINS, TWIN_CALLER, PolicyLoader.TWIN_WALLETS, PolicyLoader.TWIN_REGISTRY);
    assert CarveOut.PassesCallPath(env, TWIN_CALLER, req) && !CarveOut.MovesNothing(env, TWIN_CALLER, req);
  }

  // ---------- A refusal that keeps its increments ----------

  /** One native-transfer path without a permissions block. */
  const NATIVE: Policy := Policy.Policy(
    map["c" := CallerBinding("n", None)], map["w" := "wc"], map[],
      map["wc" := WalletConstraint(None, Some(ONE_PER_HOUR))], map[],
    map["n" := NativeTransferBlock([1], [PAYEE], "5", ["w"], Some(ONE_PER_HOUR))], [])

  /** A wallet whose nonce row was never initialised. */
  const FRESH_DB := Db(map["w" := Wallet("w", PAYER)], EMPTY_LEDGER, EMPTY_BUCKETS, [])

  lemma NativeIsAllowed()
    ensures var env, req, caller := ToyEnv(NATIVE, map[]), PayFive("w", PAYEE, "0x"), Caller("c", "n", false);
            Evaluation(env, EMPTY_BUCKETS, caller, req, 0).0.Allow?
  {
    var env, req, caller := ToyEnv(NATIVE, map[]), PayFive("w", PAYEE, "0x"), Caller("c", "n", false);
    var rule := NATIVE.nativeTransfers["n"];
    assert HexPart("0x") == "";
    assert rule.recipientAllowlist[0] == req.to;
    assert AdmitNative(env, req, "n", rule).Admit?;
    EmptyHasRoom(SubjectOf("c", req, NATIVE_METHOD), 0);
    EmptyWalletHasRoom("w", 0);
    hide CheckAndIncrement, AdmitNative, Windows;
    assert Admitted1To7(env, caller, req) == AdmitNative(env, req, "n", rule);
    NativeAdmission(env, req, "n", rule);
  }

  lemma EmptyWalletHasRoom(wallet: string, now: int)
    ensures WalletRoom(map[], wallet, Windows(ONE_PER_HOUR), now)
  {
    assert Windows(ONE_PER_HOUR) == [(Hour, 1)];
  }

  /** A native transfer refused for its missing nonce row leaves one used up in the caller's hour and in the
      wallet's, so that the hour is spent although nothing was signed. */
  lemma NativeIncrementStays(txId: string, outcome: SignerOutcome)
    ensures var env, req, caller := ToyEnv(NATIVE, map[]), PayFive("w", PAYEE, "0x"), Caller("c", "n", false);
            var r := SignStep(env, FRESH_DB, caller, req, CLOCK, txId, outcome);
            && r.1.NonceNotInitialized?
            && Counter(r.0.buckets.callers, Key(SubjectOf("c", req, NATIVE_METHOD), Hour, 0)) == 1
            && WalletCounter(r.0.buckets.wallets, Key("w", Hour, 0)) == 1
            && r.0.ledger == EMPTY_LEDGER
  {
    var env, req, caller := ToyEnv(NATIVE, map[]), PayFive("w", PAYEE, "0x"), Caller("c", "n", false);
    var k, w := Key(SubjectOf("c", req, NATIVE_METHOD), Hour, 0), Key("w", Hour, 0);
    NativeIsAllowed();
    hide Evaluation, SignEntry, ReleasedAfterFailure;
    assert SignStep(env, FRESH_DB, caller, req, CLOCK, txId, outcome).1.NonceNotInitialized?;
    SignStepBuckets(env, FRESH_DB, caller, req, CLOCK, txId, outcome);
    FailureExact(env, EMPTY_BUCKETS, caller, req, 0, k, w);
    assert RequestCounts(env, "c", req, 0, k) && WalletCounts(env, "w", 0, w);
  }

  // ---------- The error after counting ----------

  /** A call path whose wallet has a daily cap that is not a number. */
  const BAD_CAP: Policy := Policy.Policy(
    map["c" := CallerBinding("p", None)], map["w" := "wc"],
    map["p" := PermissionBlock([(PAYEE, ContractRule("bank", [1], map["pay()" := MethodRule("5", [], false)]))], ["w"],
      Some(ONE_PER_HOUR))],
    map["wc" := WalletConstraint(Some("x"), None)], map[], map[], [])

  const BANK: Registry := map["bank" := map["0x11111111" := AbiMethod("pay()", false)]]

  lemma BadCapIsAdmitted()
    ensures var env, req, caller := ToyEnv(BAD_CAP, BANK), PayFive("w", PAYEE, CALLDATA), Caller("c", "p", false);
            var a := Admitted1To7(env, caller, req);
            a.Admit? && !a.native && a.rate == Some(ONE_PER_HOUR) && a.decoded.methodSignature == "pay()"
  {
    var env, req, caller := ToyEnv(BAD_CAP, BANK), PayFive("w", PAYEE, CALLDATA), Caller("c", "p", false);
    CallIsAdmitted(env, req, "p", "bank", "pay()", "5");
    hide AdmitCall;
    assert Admitted1To7(env, caller, req) == AdmitCall(env, req, "p");
  }

  lemma BadCapStops()
    ensures var env, req, caller := ToyEnv(BAD_CAP, BANK), PayFive("w", PAYEE, CALLDATA), Caller("c", "p", false);
            && StopsAfterCounting(env, EMPTY_BUCKETS, caller, req, 0)
            && MethodLabel(env, "c", PAYEE, CALLDATA) == "pay()"
  {
    var env, req, caller := ToyEnv(BAD_CAP, BANK), PayFive("w", PAYEE, CALLDATA), Caller("c", "p", false);
    BadCapIsAdmitted();
    hide Admitted1To7, CheckAndIncrement, MethodLabel;
    EmptyHasRoom(SubjectOf("c", req, "pay()"), 0);
    AdmittedLabel(env, caller, req);
  }

  /** The gate stops at step 0 and the caller's hour is spent. */
  lemma StepZeroKeepsIncrement()
    ensures var env, req, caller := ToyEnv(BAD_CAP, BANK), PayFive("w", PAYEE, CALLDATA), Caller("c", "p", false);
            var r := Evaluation(env, EMPTY_BUCKETS, caller, req, 0);
            && r.0.Deny? && r.0.step == 0
            && Counter(r.1.callers, Key(SubjectOf("c", req, "pay()"), Hour, 0)) == 1
  {
    var env, req, caller := ToyEnv(BAD_CAP, BANK), PayFive("w", PAYEE, CALLDATA), Caller("c", "p", false);
    var k := Key(SubjectOf("c", req, "pay()"), Hour, 0);
    BadCapStops();
    StepZeroIff(env, EMPTY_BUCKETS, caller, req, 0, k);
    hide Evaluation, StopsAfterCounting, MethodLabel;
    assert RequestCounts(env, "c", req, 0, k);
  }

  // ---------- Two networks, one constraint path ----------

  const MANAGER: Registry := map["flare_systems_manager" :=
    map["0x11111111" := AbiMethod("signUptimeVote()", true), "0x22222222" := AbiMethod("signRewards()", true)]]

  const SPEC := NetworkSpec(1, map["flare_systems_manager" := "0xffffffffffffffffffffffffffffffffffffffff"])

  /** The fsp rules of one network, at most `perHour` signatures an hour. */
  function FspRun(net: string, perHour: int, shared: bool): Gen {
    var rate := RateLimit(Some(perHour), None);
    Gen(MANAGER, map[net := SPEC], Request([net], {FspCap}, None, None, shared, rate, rate))
  }

  lemma {:induction false} BaseNameOf(name: string)
    requires '(' !in name
    ensures BaseName(name + "()") == name
  {
    if name != "" {
      assert (name + "()")[1..] == name[1..] + "()";
      BaseNameOf(name[1..]);
      assert [name[0]] + name[1..] == name;
    } else {
      assert name + "()" == "()";
    }
  }

  /** Two methods of different names resolve each to its own signature. */
  lemma BothResolve(registry: Registry, abi: string, a: string, b: string)
    requires '(' !in a && '(' !in b && a != b && SignaturesFor(registry, abi) == {a + "()", b + "()"}
    ensures SigFor(registry, abi, a).Some? && SigFor(registry, abi, b).Some?
  {
    BaseNameOf(a);
    BaseNameOf(b);
    hide BaseName, SignaturesFor;
    assert Matches(registry, abi, a) == {a + "()"};
    assert Matches(registry, abi, b) == {b + "()"};
  }

  lemma ManagerResolves()
    ensures SigFor(MANAGER, "flare_systems_manager", "signUptimeVote").Some?
    ensures SigFor(MANAGER, "flare_systems_manager", "signRewards").Some?
  {
    assert "signUptimeVote" + "()" == "signUptimeVote()" && "signRewards" + "()" == "signRewards()";
    var methods := MANAGER["flare_systems_manager"];
    assert methods["0x11111111"].signature == "signUptimeVote()" && methods["0x22222222"].signature == "signRewards()";
    assert "signUptimeVote"[4] != "signRewards"[4];
    hide SigFor;
    BothResolve(MANAGER, "flare_systems_manager", "signUptimeVote", "signRewards");
  }

  lemma ManagerSupports(g: Gen, r: Role, net: string)
    requires g.registry == MANAGER && r in FSP_SUBMITS && net in g.table && g.table[net] == SPEC
    ensures Supported(g, r, net)
  {
    ManagerResolves();
    hide SigFor, MANAGER;
  }

  lemma FspRunSucceeds(net: string, perHour: int, shared: bool)
    ensures Generated(FspRun(net, perHour, shared)).Some?
  {
    var g := FspRun(net, perHour, shared);
    hide Supported, MANAGER, SPEC;
    forall r: Role | Wanted(g.req.capabilities, r) ensures Supported(g, r, net) {
      assert r in FSP_SUBMITS by { OnlyFspWanted(r); }
      ManagerSupports(g, r, net);
    }
    hide Wanted;
    assert SupportsAll(g, net);
  }

  lemma OnlyFspWanted(r: Role)
    requires Wanted({FspCap}, r)
    ensures r in FSP_SUBMITS
  {
  }

  lemma GrowTwo(g1: Gen, g2: Gen)
    requires Generated(g1).Some? && Generated(g2).Some?
    ensures GeneratedPolicies.Grow([g1]) == Merge(EMPTY_POLICY, Generated(g1).value)
    ensures GeneratedPolicies.Grow([g1, g2]) == Merge(GeneratedPolicies.Grow([g1]), Generated(g2).value)
  {
    hide Generated, Merge;
    assert [g1][..0] == [] && [g1, g2][..1] == [g1];
  }

  /** Generating "sender-x" with one signature an hour and then merging "x" with two leaves the signing
      wallet of "sender-x", which the second run does not name, with two. */
  lemma MergeRewritesUnnamedRate()
    ensures var g1, g2 := FspRun("sender-x", 1, false), FspRun("x", 2, false);
            var p, q := GeneratedPolicies.Grow([g1]), GeneratedPolicies.Grow([g1, g2]);
            var c := ConstraintPath(Signing, "sender-x");
            && Generated(g1).Some? && Generated(g2).Some?
            && c in p.walletConstraints && p.walletConstraints[c] ==
               WalletConstraint(Some("0"), Some(RateLimit(Some(1), None)))
            && c in q.walletConstraints && q.walletConstraints[c] ==
               WalletConstraint(Some("0"), Some(RateLimit(Some(2), None)))
  {
    hide Generated, ConstraintPath, Shadows, GeneratedPolicies.Grow, OwnKeys;
    var g1, g2 := FspRun("sender-x", 1, false), FspRun("x", 2, false);
    FspRunSucceeds("sender-x", 1, false);
    FspRunSucceeds("x", 2, false);
    GrowTwo(g1, g2);
    SenderIsShadowed();
    SigningRateOf(g1, "sender-x");
    assert "x" in g2.req.networks && Writes(g2.req, Sender);
    ShadowClashes(g2.req, "sender-x", Sender, "x");
    hide Clashes, MANAGER, SPEC;
    ShadowOverwrites(g2, GeneratedPolicies.Grow([g1]), "sender-x", Own(Signing));
  }

  /** With a shared sender, generating "flare" with one signature an hour and then merging "songbird" with
      two leaves the wallet that pays for "flare" with two. */
  lemma MergeRewritesSharedRate()
    ensures var g1, g2 := FspRun("flare", 1, true), FspRun("songbird", 2, true);
            var p, q := GeneratedPolicies.Grow([g1]), GeneratedPolicies.Grow([g1, g2]);
            var c := SenderConstraint(g1.req, "flare");
            && Generated(g1).Some? && Generated(g2).Some?
            && c in p.walletConstraints && p.walletConstraints[c] ==
               WalletConstraint(Some("0"), Some(RateLimit(Some(1), None)))
            && c in q.walletConstraints && q.walletConstraints[c] ==
               WalletConstraint(Some("0"), Some(RateLimit(Some(2), None)))
  {
    hide Generated, PathOf, GeneratedPolicies.Grow, MANAGER, SPEC;
    var g1, g2 := FspRun("flare", 1, true), FspRun("songbird", 2, true);
    FspRunSucceeds("flare", 1, true);
    FspRunSucceeds("songbird", 2, true);
    GrowTwo(g1, g2);
    assert PathOf(SharedSender, "") == PathOf(SharedSender, "flare") == SHARED_SENDER_CONSTRAINT by { SharedPath(); }
    assert |"flare"| != |"songbird"| && |""| != |"flare"|;
    hide SHARED_SENDER_CONSTRAINT;
    ShadowOverwrites(g1, EMPTY_POLICY, "", SharedSender);
    ShadowOverwrites(g2, GeneratedPolicies.Grow([g1]), "flare", SharedSender);
  }

  lemma SharedPath()
    ensures PathOf(SharedSender, "") == PathOf(SharedSender, "flare") == SHARED_SENDER_CONSTRAINT
  {
  }

  lemma SenderIsShadowed()
    ensures Shadows("sender-x", Sender, "x") && "sender-x" != "x"
  {
    assert "sender-x" == "sender-" + "x";
    assert |"sender-x"| != |"x"|;
  }

  lemma ShadowClashes(req: Request, n: string, v: WalletRole, m: string)
    requires m in req.networks && Writes(req, v) && Shadows(n, v, m)
    ensures Clashes(req, Own(Signing), n)
  {
  }

  lemma SigningRateOf(g: Gen, n: string)
    requires Generated(g).Some? && n in g.req.networks && FspCap in g.req.capabilities
    ensures var q := Merge(EMPTY_POLICY, Generated(g).value); var c := ConstraintPath(Signing, n);
            c in q.walletConstraints && q.walletConstraints[c] == WalletConstraint(Some("0"), Some(g.req.fspRate))
  {
    hide SupportsAll, RunPuts, ApplyAll, OwnKeys, ConstraintPath;
    RunOwn(g, g.req.networks, g.req.networks);
    NamedIsWritten(g, n, Signing);
    SigningConstraintValue(g.req, g.req.networks, Generated(g).value, n);
  }

  // ---------- Two signatures before either receipt ----------

  /** A call path whose wallet may move five wei a day. */
  const FIVE_A_DAY: Policy := Policy.Policy(
    map["c" := CallerBinding("p", None)], map["w" := "wc"],
    map["p" := PermissionBlock([(PAYEE, ContractRule("bank", [1], map["pay()" := MethodRule("5", [], false)]))], ["w"],
                               Some(RateLimit(Some(2), None)))],
    map["wc" := WalletConstraint(Some("5"), None)], map[], map[], [])

  const READY_DB := Db(map["w" := Wallet("w", PAYER)],
    EMPTY_LEDGER.(nonces := map[NonceKey("w", 1) := NonceRow(0, None)]),
                       EMPTY_BUCKETS, [])

  function FiveEnv(): Env {
    ToyEnv(FIVE_A_DAY, BANK)
  }

  function FiveReq(): SignRequest {
    PayFive("w", PAYEE, CALLDATA)
  }

  const FIVE_CALLER := Caller("c", "p", false)

  lemma FiveIsAdmitted()
    ensures var a := Admitted1To7(FiveEnv(), FIVE_CALLER, FiveReq());
            a.Admit? && !a.native && a.value == 5 && a.rate == Some(RateLimit(Some(2), None)) &&
              a.decoded.methodSignature == "pay()"
  {
    CallIsAdmitted(FiveEnv(), FiveReq(), "p", "bank", "pay()", "5");
    hide AdmitCall;
    assert Admitted1To7(FiveEnv(), FIVE_CALLER, FiveReq()) == AdmitCall(FiveEnv(), FiveReq(), "p");
  }

  lemma TwoAnHour(m: Counters<CallerSubject>, subject: CallerSubject)
    requires Counter(m, Key(subject, Hour, 0)) <= 1
    ensures var m' := CheckAndIncrement(m, subject, Some(RateLimit(Some(2), None)), 0);
            m'.Some? && Counter(m'.value, Key(subject, Hour, 0)) == Counter(m, Key(subject, Hour, 0)) + 1
  {
    var rate := RateLimit(Some(2), None);
    assert Windows(rate) == [(Hour, 2)];
    BumpCounter(m, subject, rate, 0, Key(subject, Hour, 0));
    hide Windows, Bump;
  }

  lemma FiveFits()
    ensures var env := FiveEnv(); var c := ConstraintOf(env.policy, "w");
            CheckAndIncrementWallet(map[], "w", c, 5, 0, env.parseInt) == Admitted(map[])
  {
  }

  /** While at most one signature was counted this hour and nothing was mined today, five wei are allowed. */
  lemma FiveIsAllowed(b: Buckets)
    requires Counter(b.callers, Key(SubjectOf("c", FiveReq(), "pay()"), Hour, 0)) <= 1 && b.wallets == map[]
    ensures var r := Evaluation(FiveEnv(), b, FIVE_CALLER, FiveReq(), 0); r.0.Allow? && r.1.wallets == map[]
    ensures var k := Key(SubjectOf("c", FiveReq(), "pay()"), Hour, 0);
            Counter(Evaluation(FiveEnv(), b, FIVE_CALLER, FiveReq(), 0).1.callers, k) == Counter(b.callers, k) + 1
  {
    FiveIsAdmitted();
    TwoAnHour(b.callers, SubjectOf("c", FiveReq(), "pay()"));
    FiveFits();
    assert FIVE_CALLER.name == "c" && FiveReq().wallet == "w" && "w" in FiveEnv().policy.wallets;
    hide Admitted1To7, CheckAndIncrement, CheckAndIncrementWallet, ConstraintOf, SubjectOf, Counter, FiveReq, FiveEnv,
      FIVE_CALLER, Key;
  }

  lemma FiveReplies(d: Db, txId: string, allow: Verdict)
    requires allow.Allow? && NonceKey("w", 1) in d.ledger.nonces && TransactionRepo.IndexOf(d.ledger.txs, txId).None?
    requires !TransactionRepo.HasStale(d.ledger.txs, NonceKey("w", 1), -900_000_000)
    ensures var r := SignAllowed(FiveEnv(), d, FIVE_CALLER, FiveReq(), CLOCK, txId, SignerOk, allow);
            r.1.Ok? && r.1.result.txId == txId && r.0.buckets == d.buckets
  {
    hide TransactionRepo.HasStale, TransactionRepo.IndexOf, SignEntry, ApprovedEntry, WithSigned, FieldsOf, NewTx,
      ReleasedAfterFailure, AuditLog.AppendRow;
  }

  lemma FiveWithinCaps()
    ensures CapReason(FiveEnv().settings, FiveReq()) == None
  {
  }

  /** A request without a key, within caps and allowed, is what is left after the gate. */
  lemma StepIsAllowed(env: Env, d: Db, caller: Caller, req: SignRequest, clock: Clock, txId: string,
                      outcome: SignerOutcome)
    requires req.wallet in d.wallets && 0 < |caller.name| <= 64 && req.idempotencyKey == None
    requires CapReason(env.settings, req) == None
    requires Evaluation(env, d.buckets, caller, req, clock.now).0.Allow?
    ensures var ev := Evaluation(env, d.buckets, caller, req, clock.now);
            var r := SignAllowed(env, d.(buckets := ev.1), caller, req, clock, txId, outcome, ev.0);
            SignStep(env, d, caller, req, clock, txId, outcome) == if r.1.Crash? then (d, Crash) else r
  {
    hide Evaluation, SignAllowed, SignEntry, CapReason, Replay, DenyText, RequestJson;
  }

  /** Then a signing request for five wei is signed. */
  lemma FiveIsSigned(d: Db, txId: string)
    requires d.wallets == READY_DB.wallets && NonceKey("w", 1) in d.ledger.nonces
    requires TransactionRepo.IndexOf(d.ledger.txs, txId).None?
    requires !TransactionRepo.HasStale(d.ledger.txs, NonceKey("w", 1), -900_000_000)
    requires Counter(d.buckets.callers, Key(SubjectOf("c", FiveReq(), "pay()"), Hour, 0)) <= 1
    requires d.buckets.wallets == map[]
    ensures var r := SignStep(FiveEnv(), d, FIVE_CALLER, FiveReq(), CLOCK, txId, SignerOk);
            && r.1.Ok? && r.1.result.txId == txId && r.0.wallets == d.wallets
            && r.0.buckets == Evaluation(FiveEnv(), d.buckets, FIVE_CALLER, FiveReq(), 0).1
  {
    FiveIsAllowed(d.buckets);
    FiveWithinCaps();
    assert FiveReq().idempotencyKey == None && FiveReq().wallet in READY_DB.wallets && CLOCK.now == 0;
    assert 0 < |FIVE_CALLER.name| <= 64;
    hide Evaluation, SignAllowed, SignStep, FiveReq, FiveEnv, FIVE_CALLER, READY_DB, CLOCK, Counter, CapReason,
      SubjectOf, Key, TransactionRepo.HasStale, TransactionRepo.IndexOf;
    var ev := Evaluation(FiveEnv(), d.buckets, FIVE_CALLER, FiveReq(), 0);
    FiveReplies(d.(buckets := ev.1), txId, ev.0);
    StepIsAllowed(FiveEnv(), d, FIVE_CALLER, FiveReq(), CLOCK, txId, SignerOk);
    SignFreshWallets(d, txId);
  }

  lemma SignFreshWallets(d: Db, txId: string)
    ensures SignStep(FiveEnv(), d, FIVE_CALLER, FiveReq(), CLOCK, txId, SignerOk).0.wallets == d.wallets
  {
    hide SignStep;
    Service.SignStepEffect(FiveEnv(), d, FIVE_CALLER, FiveReq(), CLOCK, txId, SignerOk);
  }

  /** The row a signed request leaves, as far as it matters here. */
  ghost predicate FiveRow(tx: Tx, txId: string) {
    tx.txId == txId && tx.wallet == "w" && tx.chain == 1 && tx.valueWei == "5" && tx.status == Pending &&
      tx.reservedAt == Some(0)
  }

  /** One such row more, with its hash. */
  ghost predicate OneMore(l: Ledger, l': Ledger, txId: string) {
    && |l'.txs| == |l.txs| + 1 && l'.txs[..|l.txs|] == l.txs && FiveRow(l'.txs[|l.txs|], txId)
    && l'.nonces.Keys == l.nonces.Keys
    && TransactionRepo.HashesOf(l', txId) != []
    && (forall id :: TransactionRepo.HashesOf(l, id) != [] ==> TransactionRepo.HashesOf(l', id) != [])
  }

  lemma SignedIsOneMore(l: Ledger, tx: Tx, a: Attempt)
    requires NonceKey("w", 1) in l.nonces && FiveRow(tx, tx.txId)
    ensures OneMore(l, WithSigned(l, tx, a), tx.txId)
  {
    assert NonceKey(tx.wallet, tx.chain) == NonceKey("w", 1);
    var l' := WithSigned(l, tx, a);
    forall id ensures TransactionRepo.HashesOf(l', id) != [] <== TransactionRepo.HashesOf(l, id) != [] ||
      id == tx.txId {
      Ladder.SignedTables(l, tx, a, id);
    }
    Ladder.SignedTables(l, tx, a, "");
    assert l'.nonces.Keys == l.nonces.Keys;
    hide WithSigned;
  }

  lemma FiveNewTx(txId: string, nonce: int, signed: Signed)
    ensures FiveRow(NewTx(FiveEnv(), FIVE_CALLER, FiveReq(), 0, txId, nonce, signed), txId)
  {
    hide RequestJson;
  }

  lemma FiveAddsRow(d: Db, txId: string)
    requires NonceKey("w", 1) in d.ledger.nonces && TransactionRepo.IndexOf(d.ledger.txs, txId).None?
    requires var r := SignStep(FiveEnv(), d, FIVE_CALLER, FiveReq(), CLOCK, txId, SignerOk);
      r.1.Ok? && r.1.result.txId == txId
    ensures OneMore(d.ledger, SignStep(FiveEnv(), d, FIVE_CALLER, FiveReq(), CLOCK, txId, SignerOk).0.ledger, txId)
  {
    assert CLOCK.now == 0;
    hide SignStep, NewTx, WithSigned, FirstAttempt, TransactionRepo.HasStale, TransactionRepo.IndexOf, FieldsOf,
      FiveEnv, FiveReq, FIVE_CALLER, CLOCK, FiveRow, OneMore, CapReason;
    Service.SignStepEffect(FiveEnv(), d, FIVE_CALLER, FiveReq(), CLOCK, txId, SignerOk);
    var r := SignStep(FiveEnv(), d, FIVE_CALLER, FiveReq(), CLOCK, txId, SignerOk).1.result;
    FiveNewTx(txId, r.nonce, Signed(r.hash, r.signedRawTx));
    var tx := NewTx(FiveEnv(), FIVE_CALLER, FiveReq(), 0, txId, r.nonce, Signed(r.hash, r.signedRawTx));
    assert tx.txId == txId by { FiveRowId(tx, txId); }
    SignedIsOneMore(d.ledger, tx, FirstAttempt(FiveReq(), Signed(r.hash, r.signedRawTx)));
  }

  lemma FiveRowId(tx: Tx, txId: string)
    requires FiveRow(tx, txId)
    ensures tx.txId == txId
  {
  }

  function SignFive(d: Db, txId: string): (Db, Reply) {
    SignStep(FiveEnv(), d, FIVE_CALLER, FiveReq(), CLOCK, txId, SignerOk)
  }

  /** The database after the first signature, and what the second one needs. */
  lemma FirstFive()
    ensures var r := SignFive(READY_DB, "1");
            && r.1.Ok? && r.0.wallets == READY_DB.wallets && OneMore(READY_DB.ledger, r.0.ledger, "1")
            && r.0.buckets.wallets == map[]
            && Counter(r.0.buckets.callers, Key(SubjectOf("c", FiveReq(), "pay()"), Hour, 0)) == 1
  {
    FiveIsSigned(READY_DB, "1");
    FiveAddsRow(READY_DB, "1");
    FiveIsAllowed(READY_DB.buckets);
    hide SignStep, Evaluation, FiveReq, FiveEnv, FIVE_CALLER, CLOCK, OneMore, SubjectOf;
  }

  lemma AfterOneRow(l: Ledger)
    requires OneMore(EMPTY_LEDGER.(nonces := map[NonceKey("w", 1) := NonceRow(0, None)]), l, "1")
    ensures NonceKey("w", 1) in l.nonces && TransactionRepo.IndexOf(l.txs, "2").None?
    ensures !TransactionRepo.HasStale(l.txs, NonceKey("w", 1), -900_000_000)
  {
    assert |l.txs| == 1 && l.txs[0].txId == "1" && l.txs[0].reservedAt == Some(0);
  }

  /** A second signature a moment later, before any report. */
  lemma SecondFive()
    ensures var d1 := SignFive(READY_DB, "1").0; var r := SignFive(d1, "2");
            r.1.Ok? && OneMore(d1.ledger, r.0.ledger, "2") && r.0.buckets.wallets == map[]
  {
    FirstFive();
    var d1 := SignFive(READY_DB, "1").0;
    AfterOneRow(d1.ledger);
    hide SignStep, FiveReq, FiveEnv, FIVE_CALLER, CLOCK, OneMore, SubjectOf, Counter, Evaluation,
      TransactionRepo.HasStale, TransactionRepo.IndexOf;
    FiveIsSigned(d1, "2");
    FiveAddsRow(d1, "2");
    FiveIsAllowed(d1.buckets);
  }

  /** Two pending rows of five wei each: ten in flight. */
  lemma TwoRowsInFlight(l0: Ledger, l1: Ledger, l2: Ledger)
    requires l0.txs == [] && OneMore(l0, l1, "1") && OneMore(l1, l2, "2")
    ensures DailyCap.Reportable(FiveEnv(), l2) && DailyCap.InFlightValue(FiveEnv(), l2.txs, "w") == 10
  {
    var t1, t2 := l2.txs[0], l2.txs[1];
    assert l2.txs[..1] == l1.txs && l1.txs[..0] == [];
    assert t1 == l1.txs[0] && l2.txs == [t1, t2] && l1.txs == [t1];
    assert FiveRow(t1, "1") && FiveRow(t2, "2");
    assert FiveEnv().parseInt("5") == Some(5);
    assert "1"[0] != "2"[0];
    hide FiveEnv;
    var f := (tx: Tx) => DailyCap.FlightValue(FiveEnv(), tx, "w");
    assert f(t1) == 5 && f(t2) == 5;
    TwoTotal(t1, t2, f);
    assert DailyCap.ValidValue(FiveEnv(), t1) && DailyCap.ValidValue(FiveEnv(), t2);
    assert forall i :: 0 <= i < |l2.txs| ==> l2.txs[i] == t1 || l2.txs[i] == t2;
    assert TransactionRepo.HashesOf(l2, "1") != [] && TransactionRepo.HashesOf(l2, "2") != [];
  }

  lemma TwoTotal(a: Tx, b: Tx, f: Tx -> int)
    ensures RateAccounting.Total([a, b], f) == f(a) + f(b)
  {
    RateAccounting.TotalAppend([a], b, f);
    RateAccounting.TotalAppend([], a, f);
    assert [a] + [b] == [a, b] && [] + [a] == [a];
  }

  lemma TenExposed()
    ensures var d2 := SignFive(SignFive(READY_DB, "1").0, "2").0;
            DailyCap.Reportable(FiveEnv(), d2.ledger) && DailyCap.Exposure(FiveEnv(), d2, Key("w", Day, 0)) == 10
  {
    FirstFive();
    SecondFive();
    hide SignFive, OneMore, DailyCap.Reportable, DailyCap.InFlightValue, FiveEnv;
    var d1 := SignFive(READY_DB, "1").0;
    var d2 := SignFive(d1, "2").0;
    TwoRowsInFlight(READY_DB.ledger, d1.ledger, d2.ledger);
  }

  lemma FiveCap()
    ensures DailyCap.CapOf(FiveEnv(), "w") == Some(5)
  {
  }

  /** Reports from here on mine all that is in flight. */
  lemma MineAllToday(env: Env, d: Db, wallet: string) returns (evs: seq<Service.Event>)
    requires DailyCap.Reportable(env, d.ledger)
    ensures var w := Key(wallet, Day, 0);
            DailyCap.NoSigning(evs, w.start) &&
              Aggregate(Service.Run(env, d, evs).buckets.wallets, w) == DailyCap.Exposure(env, d, w)
  {
    assert CLOCK.now == 0;
    hide Service.Run, DailyCap.Reportable, DailyCap.Exposure, DailyCap.NoSigning, Aggregate, CLOCK;
    evs := DailyCap.MineFrom(env, d, 0, CLOCK, Key(wallet, Day, 0));
  }

  /** Under a cap of five wei a day, two requests of five are signed, and reports then mine ten that day. */
  lemma DailyCapOvershot()
    ensures DailyCap.CapOf(FiveEnv(), "w") == Some(5)
    ensures SignFive(READY_DB, "1").1.Ok? && SignFive(SignFive(READY_DB, "1").0, "2").1.Ok?
    ensures var d2 := SignFive(SignFive(READY_DB, "1").0, "2").0; var w := Key("w", Day, 0);
            exists evs :: DailyCap.NoSigning(evs, w.start) &&
              Aggregate(Service.Run(FiveEnv(), d2, evs).buckets.wallets, w) == 10
  {
    hide SignFive, OneMore, Service.Run, DailyCap.Reportable, DailyCap.Exposure, DailyCap.NoSigning, DailyCap.CapOf,
      Aggregate, CLOCK, Key, FiveEnv, READY_DB;
    FiveCap();
    FirstFive();
    SecondFive();
    TenExposed();
    var evs := MineAllToday(FiveEnv(), SignFive(SignFive(READY_DB, "1").0, "2").0, "w");
  }
}
