/** The default-deny gate: steps 1 to 7 read the policy and the calldata, steps 8 and 9 count against the
    caller's and the wallet's rate windows. */
module PolicyEngine {
  import opened Prelude
  import opened PolicySchema
  import opened Environment
  import opened Store
  import opened RateWindows
  import CanonicalJson
  import RateRepo

  const NATIVE_METHOD := "nativeTransfer(address,uint256)"

  datatype Decoded = Decoded(contract: string, methodSignature: string, selector: string, args: map<string, Scalar>)

  datatype Verdict = Deny(step: int, reason: string) | Allow(decoded: Decoded, matchedPolicyPath: string)

  /** A request that passed steps 1 to 7: what was decoded, under which path, and the rate to count it against. */
  datatype Admission = Denied(step: int, reason: string) | Admit(
    decoded: Decoded, path: string, rate: Option<RateLimit>, native: bool, value: int)

  // ---------- Steps 1 to 7 ----------

  function HexPart(data: string): string {
    if |data| >= 2 && data[0] == '0' && (data[1] == 'x' || data[1] == 'X') then data[2..] else data
  }

  predicate IsHexChar(c: char) {
    '0' <= c <= '9' || 'a' <= c <= 'f' || 'A' <= c <= 'F'
  }

  function FindContract(contracts: seq<(string, ContractRule)>, to: string): (r: Option<ContractRule>)
    ensures r.Some? ==> exists i ::
              0 <= i < |contracts| && contracts[i].1 == r.value && Lower(contracts[i].0) == Lower(to)
  {
    if contracts == [] then None
    else if Lower(contracts[0].0) == Lower(to) then
      assert contracts[0].1 == contracts[0].1; Some(contracts[0].1)
    else
      var r := FindContract(contracts[1..], to);
      assert r.Some? ==> exists i :: 0 <= i < |contracts[1..]| && contracts[1..][i].1 == r.value
                                   && Lower(contracts[1..][i].0) == Lower(to);
      assert forall i :: 0 <= i < |contracts[1..]| ==> contracts[1..][i] == contracts[i + 1];
      r
  }

  /** `str(value)`. */
  function Str(v: Scalar): string {
    match v
    case BoolScalar(b) => if b then "True" else "False"
    case IntScalar(n) => CanonicalJson.PrintInt(n)
    case TextScalar(s) => s
  }

  predicate IsAddressText(s: string) {
    |s| == 42 && s[0] == '0' && s[1] == 'x'
  }

  /** Why one argument predicate refuses, or None. The expected value is coerced to the argument's type. */
  function Mismatch(env: Env, name: string, expected: Scalar, args: map<string, Scalar>): Option<string> {
    if expected == TextScalar("any") then None
    else if name !in args then Some("arg '" + name + "' not in decoded scalars")
    else
      var differs := Some("arg '" + name + "' predicate mismatch");
      match args[name]
      case BoolScalar(b) =>
        var e := if expected.BoolScalar? then expected.b
          else Lower(Str(expected)) == "true" || Lower(Str(expected)) == "1";
        if e != b then differs else None
      case IntScalar(n) =>
        (match env.parseInt(Str(expected))
         case None => Some("arg '" + name + "' predicate not an int")
         case Some(e) => if e != n then differs else None)
      case TextScalar(s) =>
        if IsAddressText(s) then (if Lower(Str(expected)) != Lower(s) then differs else None)
        else if Str(expected) != s then differs else None
  }

  function FirstMismatch(env: Env, preds: seq<(string, Scalar)>, args: map<string, Scalar>): Option<string> {
    if preds == [] then None
    else
      var r := FirstMismatch(env, preds[..|preds| - 1], args);
      if r.Some? then r else Mismatch(env, preds[|preds| - 1].0, preds[|preds| - 1].1, args)
  }

  datatype DecodeResult = Undecodable(reason: string) | Intent(decoded: Decoded, hasNonscalarArgs: bool)

  /** Step 3: calldata to intent, through the ABI the contract rule names. */
  function DecodeIntent(env: Env, abi: string, to: string, data: string): DecodeResult {
    var hex := HexPart(data);
    if |hex| % 2 != 0 then Undecodable("calldata not hex: odd length")
    else if exists i :: 0 <= i < |hex| && !IsHexChar(hex[i]) then Undecodable("calldata not hex: invalid characters")
    else if |hex| < 8 then Undecodable("calldata too short")
    else
      var selector := "0x" + Lower(hex[..8]);
      if abi !in env.registry || selector !in env.registry[abi] then Undecodable("unknown selector for abi")
      else
        var m := env.registry[abi][selector];
        match env.decodeArgs(m, Lower(hex))
        case None => Undecodable("intent decode failed")
        case Some(args) => Intent(Decoded(Lower(to), m.signature, selector, args), m.hasNonscalarArgs)
  }

  /** Steps 4 to 7 for a decoded call under its contract rule. */
  function CheckMethod(env: Env, req: SignRequest, path: string, perm: PermissionBlock, crule: ContractRule,
                       intent: DecodeResult): Admission
    requires intent.Intent?
  {
    var d := intent.decoded;
    if d.methodSignature !in crule.methods then Denied(4, "method signature not permitted")
    else
      var mrule := crule.methods[d.methodSignature];
      if intent.hasNonscalarArgs && !mrule.allowUnconstrainedArgs then
        Denied(4, "method has unconstrainable non-scalar args; set allow_unconstrained_args: true to permit")
      else match env.parseInt(mrule.maxValueWei)
        case None => Denied(5, "bad value_wei: max_value_wei is not decimal")
        case Some(maxValue) =>
          match env.parseInt(req.valueWei)
          case None => Denied(5, "bad value_wei: request value_wei is not decimal")
          case Some(value) =>
            if value > maxValue then Denied(5, "max_value_wei exceeded")
            else
              var mismatch := FirstMismatch(env, mrule.argPredicates, d.args);
              if mismatch.Some? then Denied(6, mismatch.value)
              else if req.wallet !in perm.walletAllowlist then Denied(7, "wallet not in caller allowlist")
              else Admit(d, path, perm.rate, false, value)
  }

  function AdmitCall(env: Env, req: SignRequest, path: string): Admission {
    if HexPart(req.data) == "" then Denied(3, "calldata too short")
    else if path !in env.policy.permissions then
      Denied(1, "caller policy_path '" + path + "' has no permissions block")
    else
      var perm := env.policy.permissions[path];
      match FindContract(perm.contracts, req.to)
      case None => Denied(2, "contract not permitted for caller")
      case Some(crule) =>
        if req.chain !in crule.chains then
          Denied(2, "contract not permitted on chain " + CanonicalJson.PrintInt(req.chain))
        else
          var intent := DecodeIntent(env, crule.abi, req.to, req.data);
          match intent
          case Undecodable(reason) => Denied(3, reason)
          case Intent(_, _) => CheckMethod(env, req, path, perm, crule, intent)
  }

  function AdmitNative(env: Env, req: SignRequest, path: string, rule: NativeTransferBlock): Admission {
    if HexPart(req.data) != "" then Denied(2, "native_transfers caller may sign value-only transfers only")
    else if req.chain !in rule.chains then
      Denied(2, "native transfer not permitted on chain " + CanonicalJson.PrintInt(req.chain))
    else if !exists i :: 0 <= i < |rule.recipientAllowlist| && Lower(rule.recipientAllowlist[i]) == Lower(req.to) then
      Denied(2, "recipient not in native_transfers allowlist")
    else match (env.parseInt(rule.maxValueWei), env.parseInt(req.valueWei))
      case (Some(maxValue), Some(value)) =>
        if value <= 0 then Denied(5, "native transfer value must be > 0")
        else if value > maxValue then Denied(5, "max_value_wei exceeded")
        else if req.wallet !in rule.walletAllowlist then Denied(7, "wallet not in native_transfers allowlist")
        else
          var args := map["to" := TextScalar(Lower(req.to)), "value" := IntScalar(value)];
          Admit(Decoded(Lower(req.to), NATIVE_METHOD, "0x", args), path, rule.rate, true, value)
      case _ => Denied(5, "bad value_wei")
  }

  /** Steps 1 to 7. A native_transfers block of the caller's path takes the request off the ABI path. */
  function Admitted1To7(env: Env, caller: Caller, req: SignRequest): Admission {
    if caller.name !in env.policy.callers then Denied(1, "caller not in policy")
    else
      var path := env.policy.callers[caller.name].policyPath;
      if caller.policyPath != path then Denied(1, "caller policy_path drift")
      else if path in env.policy.nativeTransfers then AdmitNative(env, req, path, env.policy.nativeTransfers[path])
      else AdmitCall(env, req, path)
  }

  // ---------- Steps 8 and 9 ----------

  function SubjectOf(callerName: string, req: SignRequest, methodSig: string): CallerSubject {
    CallerSubject(callerName, req.wallet, Lower(req.to), methodSig)
  }

  /** Only the native path may go without a configured caller rate. */
  predicate Uncounted(a: Admission)
    requires a.Admit?
  {
    a.native && a.rate.None?
  }

  function ConstraintOf(p: Policy, wallet: string): Option<WalletConstraint> {
    if wallet in p.wallets && p.wallets[wallet] in p.walletConstraints
    then Some(p.walletConstraints[p.wallets[wallet]]) else None
  }

  function CountRequest(env: Env, b: Buckets, callerName: string, req: SignRequest, a: Admission,
                        now: int): (Verdict, Buckets)
    requires a.Admit?
  {
    var subject := SubjectOf(callerName, req, a.decoded.methodSignature);
    var counted := if Uncounted(a) then Some(b.callers) else CheckAndIncrement(b.callers, subject, a.rate, now);
    match counted
    case None => (Deny(8, RateReason(a.native)), b)
    case Some(callers) =>
      var undone := if Uncounted(a) then callers else ReleaseCounters(callers, subject, a.rate, now);
      CountWallet(env, b.(callers := callers), b.(callers := undone), req, a, now)
  }

  function RateReason(native: bool): string {
    if native then "native transfer caller rate limit exceeded" else "caller rate limit exceeded"
  }

  /** Step 9, with the buckets as step 8 left them and as they are when it is undone. */
  function CountWallet(env: Env, counted: Buckets, undone: Buckets, req: SignRequest, a: Admission,
                       now: int): (Verdict, Buckets)
    requires a.Admit?
  {
    if req.wallet !in env.policy.wallets then (Deny(9, "wallet has no constraint binding"), undone)
    else
      var c := ConstraintOf(env.policy, req.wallet);
      match CheckAndIncrementWallet(counted.wallets, req.wallet, c, a.value, now, env.parseInt)
      case Refused => (Deny(9, "wallet constraint exceeded"), undone)
      case BadCap => (Deny(0, "evaluation error"), counted)
      case Admitted(m) => (Allow(a.decoded, a.path), counted.(wallets := m))
  }

  function Evaluation(env: Env, b: Buckets, caller: Caller, req: SignRequest, now: int): (Verdict, Buckets) {
    match Admitted1To7(env, caller, req)
    case Denied(step, reason) => (Deny(step, reason), b)
    case Admit(_, _, _, _, _) => CountRequest(env, b, caller.name, req, Admitted1To7(env, caller, req), now)
  }

  /** What `release_rate_after_failure` undoes: the keys are derived again from the decision and the
      policy, and nothing is released when the path has no permissions block. */
  function ReleasedAfterFailure(env: Env, b: Buckets, allow: Verdict, callerName: string, req: SignRequest,
                                now: int): Buckets
    requires allow.Allow?
  {
    if allow.matchedPolicyPath !in env.policy.permissions then b
    else
      var perm := env.policy.permissions[allow.matchedPolicyPath];
      var subject := SubjectOf(callerName, req, allow.decoded.methodSignature);
      b.(callers := ReleaseCounters(b.callers, subject, perm.rate, now),
         wallets := ReleaseWalletBuckets(b.wallets, req.wallet, ConstraintOf(env.policy, req.wallet), now))
  }

  // ---------- The gate as it runs ----------

  method FindContractRule(contracts: seq<(string, ContractRule)>, to: string) returns (r: Option<ContractRule>)
    ensures r == FindContract(contracts, to)
  {
    var toLower := Lower(to);
    for i := 0 to |contracts|
      invariant FindContract(contracts, to) == FindContract(contracts[i..], to)
    {
      if Lower(contracts[i].0) == toLower {
        return Some(contracts[i].1);
      }
      assert contracts[i..][1..] == contracts[i + 1..];
    }
    r := None;
  }

  method CheckPredicates(env: Env, preds: seq<(string, Scalar)>, args: map<string, Scalar>) returns (r: Option<string>)
    ensures r == FirstMismatch(env, preds, args)
  {
    for i := 0 to |preds|
      invariant FirstMismatch(env, preds[..i], args) == None
      invariant forall j :: i < j <= |preds| ==> preds[..j] != []
    {
      assert preds[..i + 1][..i] == preds[..i];
      r := Mismatch(env, preds[i].0, preds[i].1, args);
      if r != None {
        MismatchStays(env, preds, i + 1, args);
        return;
      }
    }
    assert preds[..|preds|] == preds;
    r := None;
  }

  lemma {:induction false} MismatchStays(env: Env, preds: seq<(string, Scalar)>, i: nat, args: map<string, Scalar>)
    requires i <= |preds| && FirstMismatch(env, preds[..i], args).Some?
    ensures FirstMismatch(env, preds, args) == FirstMismatch(env, preds[..i], args)
    decreases |preds|
  {
    if i == |preds| {
      assert preds[..i] == preds;
    } else {
      var shorter := preds[..|preds| - 1];
      assert shorter[..i] == preds[..i];
      MismatchStays(env, shorter, i, args);
    }
  }

  method CheckCall(env: Env, req: SignRequest, path: string) returns (a: Admission)
    ensures a == AdmitCall(env, req, path)
  {
    if HexPart(req.data) == "" {
      return Denied(3, "calldata too short");
    }
    if path !in env.policy.permissions {
      return Denied(1, "caller policy_path '" + path + "' has no permissions block");
    }
    var perm := env.policy.permissions[path];
    var crule := FindContractRule(perm.contracts, req.to);
    if crule == None {
      return Denied(2, "contract not permitted for caller");
    }
    if req.chain !in crule.value.chains {
      return Denied(2, "contract not permitted on chain " + CanonicalJson.PrintInt(req.chain));
    }
    var intent := DecodeIntent(env, crule.value.abi, req.to, req.data);
    if intent.Undecodable? {
      return Denied(3, intent.reason);
    }
    a := CheckDecoded(env, req, path, perm, crule.value, intent);
  }

  method CheckDecoded(env: Env, req: SignRequest, path: string, perm: PermissionBlock, crule: ContractRule,
                      intent: DecodeResult)
    returns (a: Admission)
    requires intent.Intent?
    ensures a == CheckMethod(env, req, path, perm, crule, intent)
  {
    var d := intent.decoded;
    if d.methodSignature !in crule.methods {
      return Denied(4, "method signature not permitted");
    }
    var mrule := crule.methods[d.methodSignature];
    if intent.hasNonscalarArgs && !mrule.allowUnconstrainedArgs {
      return Denied(4, "method has unconstrainable non-scalar args; set allow_unconstrained_args: true to permit");
    }
    var maxValue := env.parseInt(mrule.maxValueWei);
    if maxValue == None {
      return Denied(5, "bad value_wei: max_value_wei is not decimal");
    }
    var value := env.parseInt(req.valueWei);
    if value == None {
      return Denied(5, "bad value_wei: request value_wei is not decimal");
    }
    if value.value > maxValue.value {
      return Denied(5, "max_value_wei exceeded");
    }
    var mismatch := CheckPredicates(env, mrule.argPredicates, d.args);
    if mismatch != None {
      return Denied(6, mismatch.value);
    }
    if req.wallet !in perm.walletAllowlist {
      return Denied(7, "wallet not in caller allowlist");
    }
    a := Admit(d, path, perm.rate, false, value.value);
  }

  /** Evaluate a request, counting it when it is allowed. A refusal at steps 1 to 9 leaves what
      `Evaluation` says; step 0 is the caught exception. */
  method Evaluate(env: Env, rates: RateRepo.Repo, caller: Caller, req: SignRequest, now: int) returns (v: Verdict)
    modifies rates.session`db
    ensures v == Evaluation(env, old(rates.session.db).buckets, caller, req, now).0
    ensures rates.session.db == old(rates.session.db).(
              buckets := Evaluation(env, old(rates.session.db).buckets, caller, req, now).1)
  {
    if caller.name !in env.policy.callers {
      return Deny(1, "caller not in policy");
    }
    var path := env.policy.callers[caller.name].policyPath;
    if caller.policyPath != path {
      return Deny(1, "caller policy_path drift");
    }
    var a;
    if path in env.policy.nativeTransfers {
      a := AdmitNative(env, req, path, env.policy.nativeTransfers[path]);
    } else {
      a := CheckCall(env, req, path);
    }
    if a.Denied? {
      return Deny(a.step, a.reason);
    }
    v := CountAdmitted(env, rates, caller.name, req, a, now);
  }

  method CountAdmitted(env: Env, rates: RateRepo.Repo, callerName: string, req: SignRequest, a: Admission, now: int)
    returns (v: Verdict)
    requires a.Admit?
    modifies rates.session`db
    ensures v == CountRequest(env, old(rates.session.db).buckets, callerName, req, a, now).0
    ensures rates.session.db == old(rates.session.db).(
              buckets := CountRequest(env, old(rates.session.db).buckets, callerName, req, a, now).1)
  {
    var subject := SubjectOf(callerName, req, a.decoded.methodSignature);
    if !Uncounted(a) {
      var ok := rates.CheckAndIncrementCaller(subject, a.rate, now);
      if !ok {
        return Deny(8, RateReason(a.native));
      }
    }
    if req.wallet !in env.policy.wallets {
      if !Uncounted(a) {
        rates.ReleaseCaller(subject, a.rate, now);
      }
      return Deny(9, "wallet has no constraint binding");
    }
    var walletOk := rates.CheckAndIncrementWalletRow(
      req.wallet, ConstraintOf(env.policy, req.wallet), a.value, now, env.parseInt);
    if walletOk == None {
      return Deny(0, "evaluation error");
    }
    if !walletOk.value {
      if !Uncounted(a) {
        rates.ReleaseCaller(subject, a.rate, now);
      }
      return Deny(9, "wallet constraint exceeded");
    }
    v := Allow(a.decoded, a.path);
  }

  method ReleaseRateAfterFailure(env: Env, rates: RateRepo.Repo, allow: Verdict, callerName: string, req: SignRequest,
                                 now: int)
    requires allow.Allow?
    modifies rates.session`db
    ensures rates.session.db == old(rates.session.db).(
              buckets := ReleasedAfterFailure(env, old(rates.session.db).buckets, allow, callerName, req, now))
  {
    if allow.matchedPolicyPath !in env.policy.permissions {
      return;
    }
    var perm := env.policy.permissions[allow.matchedPolicyPath];
    rates.ReleaseCaller(SubjectOf(callerName, req, allow.decoded.methodSignature), perm.rate, now);
    rates.ReleaseWalletRow(req.wallet, ConstraintOf(env.policy, req.wallet), now);
  }
}
