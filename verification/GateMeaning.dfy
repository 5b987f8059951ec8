/** What the gate lets through, said of the request and the policy alone: which calls pass, which arguments a rule
    accepts, which native transfers pass, and when the counters and the wallet's cap have room. */
module GateMeaning {
  import opened Prelude
  import opened PolicySchema
  import opened Environment
  import opened Store
  import opened RateWindows
  import opened PolicyEngine
  import CanonicalJson

  // ---------- Lower case ----------

  lemma LowerAt(s: string, i: nat)
    requires i < |s|
    ensures Lower(s)[i] == if 'A' <= s[i] <= 'Z' then (s[i] as int + 32) as char else s[i]
  {
  }

  lemma LowerIsOne(s: string)
    ensures Lower(s) == "1" <==> s == "1"
  {
    if |s| == 1 {
      LowerAt(s, 0);
      assert s == [s[0]];
    }
  }

  // ---------- Arguments ----------

  /** Texts agree when they are equal, and addresses when they are equal in lower case. */
  predicate SameText(s: string, t: string) {
    t == s || (|s| == 42 && "0x" <= s && Lower(t) == Lower(s))
  }

  /** A decoded argument agrees with the value a rule expects of it: booleans as booleans, integers as parsed,
      text as text. */
  predicate Agrees(env: Env, expected: Scalar, actual: Scalar) {
    match (actual, expected)
    case (BoolScalar(b), BoolScalar(e)) => b == e
    case (BoolScalar(b), IntScalar(n)) => b == (n == 1)
    case (BoolScalar(b), TextScalar(t)) => b == (Lower(t) == "true" || t == "1")
    case (IntScalar(n), IntScalar(m)) => env.parseInt(CanonicalJson.PrintInt(m)) == Some(n)
    case (IntScalar(n), TextScalar(t)) => env.parseInt(t) == Some(n)
    case (IntScalar(n), BoolScalar(e)) => env.parseInt(if e then "True" else "False") == Some(n)
    case (TextScalar(s), TextScalar(t)) => SameText(s, t)
    case (TextScalar(s), IntScalar(m)) => SameText(s, CanonicalJson.PrintInt(m))
    case (TextScalar(s), BoolScalar(e)) => s == if e then "True" else "False"
  }

  /** The rule leaves the argument open, or it was decoded and agrees. */
  predicate Satisfies(env: Env, name: string, expected: Scalar, args: map<string, Scalar>) {
    expected == TextScalar("any") || (name in args && Agrees(env, expected, args[name]))
  }

  predicate AllSatisfied(env: Env, preds: seq<(string, Scalar)>, args: map<string, Scalar>) {
    forall j :: 0 <= j < |preds| ==> Satisfies(env, preds[j].0, preds[j].1, args)
  }

  /** Only the integer one is printed as the text that stands for true. */
  lemma PrintedTruth(n: int)
    ensures Lower(CanonicalJson.PrintInt(n)) != "true"
    ensures CanonicalJson.PrintInt(n) == "1" <==> n == 1
  {
    var t := CanonicalJson.PrintInt(n);
    CanonicalJson.DigitsStart(if n < 0 then -n else n);
    LowerAt(t, 0);
    CanonicalJson.ReadPrintedInt(n, "");
    CanonicalJson.ReadPrintedInt(1, "");
    assert t + "" == t;
    assert CanonicalJson.PrintInt(1) == "1" && "1" + "" == "1";
  }

  lemma BoolTexts()
    ensures Lower("True") != Lower("False")
    ensures |Lower("True")| == 4 && |Lower("False")| == 5
  {
  }

  lemma MismatchIsExact(env: Env, name: string, expected: Scalar, args: map<string, Scalar>)
    ensures Mismatch(env, name, expected, args).None? <==> Satisfies(env, name, expected, args)
  {
    hide CanonicalJson.PrintInt, Lower;
    BoolTexts();
    if expected.IntScalar? {
      PrintedTruth(expected.n);
      LowerIsOne(CanonicalJson.PrintInt(expected.n));
    } else if expected.TextScalar? {
      LowerIsOne(expected.s);
    }
  }

  lemma {:induction false} FirstMismatchIsExact(env: Env, preds: seq<(string, Scalar)>, args: map<string, Scalar>)
    ensures FirstMismatch(env, preds, args).None? <==> AllSatisfied(env, preds, args)
    decreases |preds|
  {
    hide Mismatch, Satisfies;
    if preds != [] {
      var shorter := preds[..|preds| - 1];
      FirstMismatchIsExact(env, shorter, args);
      MismatchIsExact(env, preds[|preds| - 1].0, preds[|preds| - 1].1, args);
      assert forall j :: 0 <= j < |shorter| ==> shorter[j] == preds[j];
    }
  }

  // ---------- Contract and calldata ----------

  /** The first contract of the block whose address is the request's. */
  predicate FirstAt(contracts: seq<(string, ContractRule)>, to: string, i: nat) {
    && i < |contracts| && Lower(contracts[i].0) == Lower(to)
    && forall j :: 0 <= j < i ==> Lower(contracts[j].0) != Lower(to)
  }

  lemma {:induction false} FindContractIsFirst(contracts: seq<(string, ContractRule)>, to: string)
    returns (i: nat)
    ensures FindContract(contracts, to).Some? ==>
              FirstAt(contracts, to, i) && FindContract(contracts, to) == Some(contracts[i].1)
    ensures FindContract(contracts, to).None? ==> forall j :: 0 <= j < |contracts| ==>
              Lower(contracts[j].0) != Lower(to)
  {
    hide Lower;
    i := 0;
    if contracts != [] && Lower(contracts[0].0) != Lower(to) {
      var rest := contracts[1..];
      var k := FindContractIsFirst(rest, to);
      assert forall j :: 0 < j < |contracts| ==> contracts[j] == rest[j - 1];
      i := k + 1;
    }
  }

  lemma FirstAtIsOne(contracts: seq<(string, ContractRule)>, to: string, i: nat, j: nat)
    requires FirstAt(contracts, to, i) && FirstAt(contracts, to, j)
    ensures i == j
  {
  }

  predicate HexDigit(c: char) {
    c in "0123456789abcdefABCDEF"
  }

  /** The calldata spells these digits: whole bytes, at least a selector, with or without a prefix. */
  predicate Spells(data: string, hex: string) {
    && |hex| % 2 == 0 && |hex| >= 8 && (forall i :: 0 <= i < |hex| ==> HexDigit(hex[i]))
    && (data == hex || data == "0x" + hex || data == "0X" + hex)
  }

  /** The decoded call: the function of the contract's ABI whose selector the calldata starts with, and the
      arguments decoded for it. */
  ghost predicate DecodesTo(env: Env, abi: string, to: string, data: string, d: Decoded, nonscalar: bool) {
    exists hex :: Spells(data, hex) && DecodesAs(env, abi, to, hex, d, nonscalar)
  }

  predicate DecodesAs(env: Env, abi: string, to: string, hex: string, d: Decoded, nonscalar: bool)
    requires |hex| >= 8
  {
    var selector := "0x" + Lower(hex[..8]);
    && abi in env.registry && selector in env.registry[abi]
    && env.decodeArgs(env.registry[abi][selector], Lower(hex)) == Some(d.args)
    && d == Decoded(Lower(to), env.registry[abi][selector].signature, selector, d.args)
    && nonscalar == env.registry[abi][selector].hasNonscalarArgs
  }

  lemma HexPartSpelled(data: string, hex: string)
    requires Spells(data, hex)
    ensures HexPart(data) == hex
  {
    assert data == "0x" + hex ==> data[2..] == hex;
    assert data == "0X" + hex ==> data[2..] == hex;
    assert !HexDigit('x') && !HexDigit('X');
    assert data == hex ==> HexDigit(data[1]);
  }

  lemma HexDigitIs(c: char)
    ensures HexDigit(c) <==> IsHexChar(c)
  {
    var digits := "0123456789abcdefABCDEF";
    if IsHexChar(c) {
      var k := if c <= '9' then c as int - '0' as int else if c <= 'F' then c as int - 'A' as int + 16
               else c as int - 'a' as int + 10;
      assert digits[k] == c;
    }
  }

  lemma HexPartSpells(data: string)
    requires var hex := HexPart(data); |hex| % 2 == 0 && |hex| >= 8 && forall i :: 0 <= i < |hex| ==> IsHexChar(hex[i])
    ensures Spells(data, HexPart(data))
  {
    var hex := HexPart(data);
    forall i | 0 <= i < |hex| ensures HexDigit(hex[i]) {
      HexDigitIs(hex[i]);
    }
    hide HexDigit, IsHexChar;
    if hex != data {
      assert data == data[..2] + hex;
      assert data[..2] == [data[0], data[1]];
    }
  }

  lemma DecodeIsExact(env: Env, abi: string, to: string, data: string, d: Decoded, nonscalar: bool)
    ensures DecodeIntent(env, abi, to, data) == Intent(d, nonscalar) <==> DecodesTo(env, abi, to, data, d, nonscalar)
  {
    hide HexPart, Lower;
    if DecodesTo(env, abi, to, data, d, nonscalar) {
      var hex :| Spells(data, hex) && DecodesAs(env, abi, to, hex, d, nonscalar);
      HexPartSpelled(data, hex);
      forall i | 0 <= i < |hex| ensures IsHexChar(hex[i]) {
        HexDigitIs(hex[i]);
      }
    }
    if DecodeIntent(env, abi, to, data) == Intent(d, nonscalar) {
      HexPartSpells(data);
      assert DecodesAs(env, abi, to, HexPart(data), d, nonscalar);
    }
  }

  // ---------- Calls ----------

  /** The caller is in the policy, bound to the path it presents. */
  predicate BoundAsPresented(p: Policy, caller: Caller) {
    caller.name in p.callers && p.callers[caller.name].policyPath == caller.policyPath
  }

  /** The caller's path has a permissions block and is not one for native transfers. */
  predicate OnCallPath(p: Policy, caller: Caller) {
    && BoundAsPresented(p, caller)
    && caller.policyPath in p.permissions && caller.policyPath !in p.nativeTransfers
  }

  predicate ValueFits(env: Env, limit: string, value: string) {
    && env.parseInt(limit).Some? && env.parseInt(value).Some?
    && env.parseInt(value).value <= env.parseInt(limit).value
  }

  /** The request names a contract of the block, on one of its chains, with calldata that decodes to a method the
      contract's rule lists. */
  ghost predicate Reaches(env: Env, req: SignRequest, perm: PermissionBlock, i: nat, d: Decoded, nonscalar: bool) {
    && FirstAt(perm.contracts, req.to, i)
    && req.chain in perm.contracts[i].1.chains
    && DecodesTo(env, perm.contracts[i].1.abi, req.to, req.data, d, nonscalar)
    && d.methodSignature in perm.contracts[i].1.methods
  }

  /** Method and value are open to the request. */
  predicate MethodOpen(env: Env, req: SignRequest, rule: MethodRule, nonscalar: bool) {
    (nonscalar ==> rule.allowUnconstrainedArgs) && ValueFits(env, rule.maxValueWei, req.valueWei)
  }

  /** The call passes: the request reaches a method, which is open to it, with arguments the rule accepts, from a
      wallet the block lists. */
  ghost predicate Passes(env: Env, req: SignRequest, perm: PermissionBlock, i: nat, d: Decoded, nonscalar: bool) {
    && Reaches(env, req, perm, i, d, nonscalar)
    && var rule := perm.contracts[i].1.methods[d.methodSignature];
       && MethodOpen(env, req, rule, nonscalar)
       && AllSatisfied(env, rule.argPredicates, d.args)
       && req.wallet in perm.walletAllowlist
  }

  /** What the method check answers, for any decoded call of a listed method. */
  lemma MethodIsExact(env: Env, req: SignRequest, path: string, perm: PermissionBlock, crule: ContractRule,
                      intent: DecodeResult)
    requires intent.Intent? && intent.decoded.methodSignature in crule.methods
    ensures var a := CheckMethod(env, req, path, perm, crule, intent);
            var rule := crule.methods[intent.decoded.methodSignature];
            var open := MethodOpen(env, req, rule, intent.hasNonscalarArgs);
            var agree := AllSatisfied(env, rule.argPredicates, intent.decoded.args);
            && (a.Admit? <==> open && agree && req.wallet in perm.walletAllowlist)
            && (a.Admit? ==> a == Admit(intent.decoded, path, perm.rate, false, env.parseInt(req.valueWei).value))
            && (a.Denied? && a.step == 4 <==> intent.hasNonscalarArgs && !rule.allowUnconstrainedArgs)
            && (a.Denied? && a.step in {4, 5} <==> !open)
            && (a.Denied? && a.step == 6 <==> open && !agree)
            && (a.Denied? && a.step == 7 <==> open && agree && req.wallet !in perm.walletAllowlist)
  {
    hide FirstMismatch, AllSatisfied;
    FirstMismatchIsExact(env, crule.methods[intent.decoded.methodSignature].argPredicates, intent.decoded.args);
  }

  /** A request that reaches a method: which of steps 4 to 7 answers, and what is admitted. */
  lemma ReachedIsExact(env: Env, caller: Caller, req: SignRequest, i: nat, d: Decoded, nonscalar: bool)
    requires OnCallPath(env.policy, caller)
    requires Reaches(env, req, env.policy.permissions[caller.policyPath], i, d, nonscalar)
    ensures var perm := env.policy.permissions[caller.policyPath];
            var rule := perm.contracts[i].1.methods[d.methodSignature];
            var a := Admitted1To7(env, caller, req);
            && (a.Admit? <==> Passes(env, req, perm, i, d, nonscalar))
            && (a.Admit? ==>
                  a == Admit(d, caller.policyPath, perm.rate, false, env.parseInt(req.valueWei).value))
            && (a.Denied? && a.step == 6 <==>
                  MethodOpen(env, req, rule, nonscalar) && !AllSatisfied(env, rule.argPredicates, d.args))
            && (a.Denied? && a.step == 7 <==>
                  MethodOpen(env, req, rule, nonscalar) && AllSatisfied(env, rule.argPredicates, d.args)
                  && req.wallet !in perm.walletAllowlist)
            && (a.Denied? ==> a.step in {4, 5, 6, 7})
  {
    var perm := env.policy.permissions[caller.policyPath];
    var j := FindContractIsFirst(perm.contracts, req.to);
    FirstAtFound(perm.contracts, req.to, i);
    FirstAtIsOne(perm.contracts, req.to, i, j);
    var crule := perm.contracts[i].1;
    DecodeIsExact(env, crule.abi, req.to, req.data, d, nonscalar);
    DecodedIsNotEmpty(env, crule.abi, req.to, req.data);
    MethodIsExact(env, req, caller.policyPath, perm, crule, Intent(d, nonscalar));
    hide FindContract, DecodeIntent, CheckMethod, DecodesTo, AllSatisfied, MethodOpen, HexPart, Lower, FirstAt;
  }

  lemma FirstAtFound(contracts: seq<(string, ContractRule)>, to: string, i: nat)
    requires FirstAt(contracts, to, i)
    ensures FindContract(contracts, to).Some?
  {
    hide Lower;
    var j := FindContractIsFirst(contracts, to);
  }

  lemma DecodedIsNotEmpty(env: Env, abi: string, to: string, data: string)
    requires DecodeIntent(env, abi, to, data).Intent?
    ensures HexPart(data) != ""
  {
    hide HexPart, Lower;
  }

  /** Whoever is admitted on the call path reaches a method. */
  lemma AdmittedReaches(env: Env, caller: Caller, req: SignRequest)
    returns (i: nat, d: Decoded, nonscalar: bool)
    requires var a := Admitted1To7(env, caller, req); a.Admit? && !a.native
    ensures OnCallPath(env.policy, caller)
    ensures Reaches(env, req, env.policy.permissions[caller.policyPath], i, d, nonscalar)
  {
    hide HexPart, DecodeIntent, FindContract, FirstMismatch, Lower, AdmitNative, DecodesTo;
    var path := caller.policyPath;
    if path in env.policy.nativeTransfers {
      NativeStays(env, req, path);
    }
    var perm := env.policy.permissions[path];
    i := FindContractIsFirst(perm.contracts, req.to);
    var crule := perm.contracts[i].1;
    var intent := DecodeIntent(env, crule.abi, req.to, req.data);
    d, nonscalar := intent.decoded, intent.hasNonscalarArgs;
    DecodeIsExact(env, crule.abi, req.to, req.data, d, nonscalar);
  }

  lemma NativeStays(env: Env, req: SignRequest, path: string)
    requires path in env.policy.nativeTransfers
    ensures var a := AdmitNative(env, req, path, env.policy.nativeTransfers[path]);
            a.Admit? ==> a.native
  {
    hide HexPart, Lower;
  }

  /** Steps 1 to 7 of a call: admitted exactly when it passes, and then as what it decodes to. */
  lemma CallIsExact(env: Env, caller: Caller, req: SignRequest)
    requires caller.policyPath !in env.policy.nativeTransfers
    ensures var a := Admitted1To7(env, caller, req);
            && (a.Admit? <==>
                  OnCallPath(env.policy, caller)
                  && exists i, d, nonscalar ::
                      Passes(env, req, env.policy.permissions[caller.policyPath], i, d, nonscalar))
            && (a.Admit? ==>
                  exists i, nonscalar ::
                    Passes(env, req, env.policy.permissions[caller.policyPath], i, a.decoded, nonscalar)
                    && a == Admit(a.decoded, caller.policyPath, env.policy.permissions[caller.policyPath].rate, false,
                                  env.parseInt(req.valueWei).value))
  {
    var a := Admitted1To7(env, caller, req);
    if a.Admit? {
      NotNative(env, caller, req);
      var i, d, nonscalar := AdmittedReaches(env, caller, req);
      ReachedIsExact(env, caller, req, i, d, nonscalar);
    }
    hide Admitted1To7;
    if OnCallPath(env.policy, caller) {
      var perm := env.policy.permissions[caller.policyPath];
      forall i, d, nonscalar | Passes(env, req, perm, i, d, nonscalar) ensures a.Admit? {
        ReachedIsExact(env, caller, req, i, d, nonscalar);
      }
    }
  }

  lemma NotNative(env: Env, caller: Caller, req: SignRequest)
    requires caller.policyPath !in env.policy.nativeTransfers && Admitted1To7(env, caller, req).Admit?
    ensures !Admitted1To7(env, caller, req).native
  {
    hide HexPart, DecodeIntent, FindContract, FirstMismatch, Lower, AdmitNative;
  }

  /** No calldata beyond a prefix. */
  predicate NoCalldata(data: string) {
    data == "" || data == "0x" || data == "0X"
  }

  lemma EmptyHexPart(data: string)
    ensures HexPart(data) == "" <==> NoCalldata(data)
  {
    assert |data| == 2 ==> data == [data[0], data[1]];
  }

  /** The request names a contract of the block on one of its chains. */
  predicate Names(req: SignRequest, perm: PermissionBlock, i: nat) {
    FirstAt(perm.contracts, req.to, i) && req.chain in perm.contracts[i].1.chains
  }

  /** What stops a call before its calldata is looked at: the caller's binding or block at step 1, contract and chain
      at step 2; empty calldata stops it at step 3 before either. */
  lemma EarlyStepsAreExact(env: Env, caller: Caller, req: SignRequest)
    requires caller.policyPath !in env.policy.nativeTransfers
    ensures var a := Admitted1To7(env, caller, req);
            var bound, empty := BoundAsPresented(env.policy, caller), NoCalldata(req.data);
            && (a.Denied? && a.step == 1 <==> !bound || (!empty && caller.policyPath !in env.policy.permissions))
            && (bound && empty ==> a.Denied? && a.step == 3)
            && (OnCallPath(env.policy, caller) && !empty ==>
                  (a.Denied? && a.step == 2 <==>
                     forall i :: !Names(req, env.policy.permissions[caller.policyPath], i)))
  {
    hide HexPart, DecodeIntent, FindContract, Lower, CanonicalJson.PrintInt, AdmitNative, CheckMethod, FirstAt;
    EmptyHexPart(req.data);
    if OnCallPath(env.policy, caller) && !NoCalldata(req.data) {
      var perm := env.policy.permissions[caller.policyPath];
      var k := FindContractIsFirst(perm.contracts, req.to);
      forall i | FirstAt(perm.contracts, req.to, i) ensures i == k && FindContract(perm.contracts, req.to).Some? {
        FirstAtFound(perm.contracts, req.to, i);
        FirstAtIsOne(perm.contracts, req.to, i, k);
      }
      if FindContract(perm.contracts, req.to).Some? {
        FirstInRange(perm.contracts, req.to, k);
        assert Names(req, perm, k) <==> req.chain in perm.contracts[k].1.chains;
        CallStepRange(env, req, caller.policyPath, perm, perm.contracts[k].1);
      }
    }
  }

  lemma FirstInRange(contracts: seq<(string, ContractRule)>, to: string, i: nat)
    requires FirstAt(contracts, to, i)
    ensures i < |contracts|
  {
  }

  lemma CallStepRange(env: Env, req: SignRequest, path: string, perm: PermissionBlock, crule: ContractRule)
    ensures var intent := DecodeIntent(env, crule.abi, req.to, req.data);
            intent.Intent? ==>
              var a := CheckMethod(env, req, path, perm, crule, intent);
              a.Denied? ==> 4 <= a.step <= 7
  {
    hide FirstMismatch, DecodeIntent;
  }

  /** For a named contract: step 3 answers exactly when the calldata decodes to nothing, and step 4 when it decodes to
      a method the rule does not list. */
  lemma NamedStepsAreExact(env: Env, caller: Caller, req: SignRequest, i: nat)
    requires OnCallPath(env.policy, caller) && !NoCalldata(req.data)
    requires Names(req, env.policy.permissions[caller.policyPath], i)
    ensures var a := Admitted1To7(env, caller, req);
            var crule := env.policy.permissions[caller.policyPath].contracts[i].1;
            && (a.Denied? && a.step == 3 <==>
                  forall d, nonscalar :: !DecodesTo(env, crule.abi, req.to, req.data, d, nonscalar))
            && (forall d, nonscalar ::
                  DecodesTo(env, crule.abi, req.to, req.data, d, nonscalar) && d.methodSignature !in crule.methods ==>
                    a.Denied? && a.step == 4)
  {
    var perm := env.policy.permissions[caller.policyPath];
    EmptyHexPart(req.data);
    FirstAtFound(perm.contracts, req.to, i);
    var k := FindContractIsFirst(perm.contracts, req.to);
    FirstAtIsOne(perm.contracts, req.to, i, k);
    var crule := perm.contracts[i].1;
    CallStepRange(env, req, caller.policyPath, perm, crule);
    hide HexPart, DecodeIntent, FindContract, Lower, CanonicalJson.PrintInt, AdmitNative, DecodesTo, FirstAt,
      FirstMismatch, MethodOpen;
    var intent := DecodeIntent(env, crule.abi, req.to, req.data);
    forall d, nonscalar ensures intent == Intent(d, nonscalar) <==>
                                  DecodesTo(env, crule.abi, req.to, req.data, d, nonscalar) {
      DecodeIsExact(env, crule.abi, req.to, req.data, d, nonscalar);
    }
    if intent.Intent? {
      assert DecodesTo(env, crule.abi, req.to, req.data, intent.decoded, intent.hasNonscalarArgs);
    }
  }

  // ---------- Native transfers ----------

  /** No calldata, on a listed chain, to a listed recipient. */
  ghost predicate NamesRecipient(req: SignRequest, rule: NativeTransferBlock) {
    && NoCalldata(req.data) && req.chain in rule.chains
    && exists r :: r in rule.recipientAllowlist && Lower(r) == Lower(req.to)
  }

  /** A positive value within the block's limit. */
  predicate PaysWithin(env: Env, req: SignRequest, rule: NativeTransferBlock) {
    ValueFits(env, rule.maxValueWei, req.valueWei) && env.parseInt(req.valueWei).value > 0
  }

  ghost predicate PassesNative(env: Env, req: SignRequest, rule: NativeTransferBlock) {
    NamesRecipient(req, rule) && PaysWithin(env, req, rule) && req.wallet in rule.walletAllowlist
  }

  lemma ListedRecipient(rs: seq<string>, to: string)
    ensures (exists i :: 0 <= i < |rs| && Lower(rs[i]) == Lower(to)) <==> exists r :: r in rs && Lower(r) == Lower(to)
  {
    hide Lower;
    if r :| r in rs && Lower(r) == Lower(to) {
      var i :| 0 <= i < |rs| && rs[i] == r;
      assert Lower(rs[i]) == Lower(to);
    }
  }

  /** Steps 1 to 7 on a native path: admitted exactly when the transfer passes, for its value. */
  lemma NativeIsExact(env: Env, caller: Caller, req: SignRequest)
    requires BoundAsPresented(env.policy, caller) && caller.policyPath in env.policy.nativeTransfers
    ensures var a, rule := Admitted1To7(env, caller, req), env.policy.nativeTransfers[caller.policyPath];
            && (a.Admit? <==> PassesNative(env, req, rule))
            && (a.Admit? ==>
                  && a.path == caller.policyPath && a.rate == rule.rate && a.native
                  && a.value == env.parseInt(req.valueWei).value
                  && a.decoded.contract == Lower(req.to)
                  && a.decoded.methodSignature == "nativeTransfer(address,uint256)")
            && (a.Denied? && a.step == 2 <==> !NamesRecipient(req, rule))
            && (a.Denied? && a.step == 7 <==>
                  NamesRecipient(req, rule) && PaysWithin(env, req, rule) && req.wallet !in rule.walletAllowlist)
            && (a.Denied? && a.step == 5 <==> NamesRecipient(req, rule) && !PaysWithin(env, req, rule))
  {
    hide HexPart, Lower, CanonicalJson.PrintInt;
    EmptyHexPart(req.data);
    ListedRecipient(env.policy.nativeTransfers[caller.policyPath].recipientAllowlist, req.to);
  }

  /** Whatever is admitted carries the value the request names. */
  lemma AdmittedValue(env: Env, caller: Caller, req: SignRequest)
    ensures var a := Admitted1To7(env, caller, req); a.Admit? ==> env.parseInt(req.valueWei) == Some(a.value)
  {
    if Admitted1To7(env, caller, req).Admit? {
      AdmittedIsBound(env, caller, req);
      if caller.policyPath in env.policy.nativeTransfers {
        NativeIsExact(env, caller, req);
      } else {
        CallIsExact(env, caller, req);
      }
    }
    hide Admitted1To7;
  }

  lemma AdmittedIsBound(env: Env, caller: Caller, req: SignRequest)
    requires Admitted1To7(env, caller, req).Admit?
    ensures BoundAsPresented(env.policy, caller)
  {
    hide AdmitCall, AdmitNative;
  }

  // ---------- Room ----------

  /** Every configured window that `now` lies in is below its cap. */
  predicate HasRoom<S(==)>(m: Counters<S>, subject: S, rate: RateLimit, now: int) {
    && (rate.perHour.Some? ==> Counter(m, Key(subject, Hour, now)) < rate.perHour.value)
    && (rate.perDay.Some? ==> Counter(m, Key(subject, Day, now)) < rate.perDay.value)
  }

  lemma RoomIsExact<S>(m: Counters<S>, subject: S, rate: RateLimit, now: int)
    ensures Room(m, subject, Windows(rate), now) <==> HasRoom(m, subject, rate, now)
  {
    var ws := Windows(rate);
    if HasRoom(m, subject, rate, now) {
      assert forall i :: 0 <= i < |ws| ==>
          ws[i] == (Hour, rate.perHour.GetOr(0)) || ws[i] == (Day, rate.perDay.GetOr(0));
    } else if rate.perHour.Some? && Counter(m, Key(subject, Hour, now)) >= rate.perHour.value {
      assert ws[0].0 == Hour;
    } else {
      assert ws[|ws| - 1].0 == Day;
    }
  }

  predicate WalletHasRoom(m: WalletBuckets, wallet: string, rate: RateLimit, now: int) {
    && (rate.perHour.Some? ==> WalletCounter(m, Key(wallet, Hour, now)) < rate.perHour.value)
    && (rate.perDay.Some? ==> WalletCounter(m, Key(wallet, Day, now)) < rate.perDay.value)
  }

  lemma WalletRoomIsExact(m: WalletBuckets, wallet: string, rate: RateLimit, now: int)
    ensures WalletRoom(m, wallet, Windows(rate), now) <==> WalletHasRoom(m, wallet, rate, now)
  {
    var ws := Windows(rate);
    if WalletHasRoom(m, wallet, rate, now) {
      assert forall i :: 0 <= i < |ws| ==>
          ws[i] == (Hour, rate.perHour.GetOr(0)) || ws[i] == (Day, rate.perDay.GetOr(0));
    } else if rate.perHour.Some? && WalletCounter(m, Key(wallet, Hour, now)) >= rate.perHour.value {
      assert ws[0].0 == Hour;
    } else {
      assert ws[|ws| - 1].0 == Day;
    }
  }

  /** The wallet is bound to a constraint, whose daily cap has room for the value on top of what was mined that day,
      and whose windows have room for one more signing. */
  predicate WalletAccepts(env: Env, m: WalletBuckets, wallet: string, value: int, now: int) {
    && wallet in env.policy.wallets && env.policy.wallets[wallet] in env.policy.walletConstraints
    && var c := env.policy.walletConstraints[env.policy.wallets[wallet]];
       && (c.maxAggregateValueWeiPerDay.Some? ==>
             && env.parseInt(c.maxAggregateValueWeiPerDay.value).Some?
             && Aggregate(m, Key(wallet, Day, now)) + value
                  <= env.parseInt(c.maxAggregateValueWeiPerDay.value).value)
       && (c.rate.Some? ==> WalletHasRoom(m, wallet, c.rate.value, now))
  }

  lemma WalletIsExact(env: Env, counted: Buckets, undone: Buckets, req: SignRequest, a: Admission, now: int)
    requires a.Admit?
    ensures var r := CountWallet(env, counted, undone, req, a, now);
            && (r.0.Allow? <==> WalletAccepts(env, counted.wallets, req.wallet, a.value, now))
            && (r.0.Allow? ==> r.0 == Allow(a.decoded, a.path))
            && (r.0.Deny? ==> r.0.step in {0, 9})
  {
    hide WalletBump, Windows, WalletHasRoom, Key, Aggregate;
    var c := ConstraintOf(env.policy, req.wallet);
    if c.Some? && c.value.rate.Some? {
      WalletRoomIsExact(counted.wallets, req.wallet, c.value.rate.value, now);
    }
  }

  /** The caller has a rate with room for one more, or sends native transfers with no rate configured. */
  predicate CallerAccepts(b: Buckets, callerName: string, req: SignRequest, a: Admission, now: int)
    requires a.Admit?
  {
    if a.rate.None? then a.native
    else
      HasRoom(b.callers, CallerSubject(callerName, req.wallet, Lower(req.to), a.decoded.methodSignature),
              a.rate.value, now)
  }

  lemma CountIsExact(env: Env, b: Buckets, callerName: string, req: SignRequest, a: Admission, now: int)
    requires a.Admit?
    ensures var r := CountRequest(env, b, callerName, req, a, now);
            && (r.0.Allow? <==>
                  CallerAccepts(b, callerName, req, a, now) && WalletAccepts(env, b.wallets, req.wallet, a.value, now))
            && (r.0.Allow? ==> r.0 == Allow(a.decoded, a.path))
            && (r.0.Deny? && r.0.step == 8 <==> !CallerAccepts(b, callerName, req, a, now))
            && (r.0.Deny? ==> r.0.step in {0, 8, 9})
  {
    hide ReleaseCounters, WalletAccepts, HasRoom, Bump, Lower, RateReason;
    var subject := SubjectOf(callerName, req, a.decoded.methodSignature);
    if a.rate.Some? {
      RoomIsExact(b.callers, subject, a.rate.value, now);
    }
    var counted := if Uncounted(a) then Some(b.callers) else CheckAndIncrement(b.callers, subject, a.rate, now);
    if counted.Some? {
      var undone := if Uncounted(a) then counted.value else ReleaseCounters(counted.value, subject, a.rate, now);
      WalletIsExact(env, b.(callers := counted.value), b.(callers := undone), req, a, now);
    }
    hide CountWallet;
  }

  // ---------- The gate ----------

  /** The gate allows a request exactly when steps 1 to 7 admit it, its caller has room for one more and its wallet
      accepts the value; step 8 answers exactly when the caller has no room. `CallIsExact` and `NativeIsExact` say what
      steps 1 to 7 admit. */
  lemma GateIsExact(env: Env, b: Buckets, caller: Caller, req: SignRequest, now: int)
    ensures var v, a := Evaluation(env, b, caller, req, now).0, Admitted1To7(env, caller, req);
            && (v.Allow? <==>
                  && a.Admit? && CallerAccepts(b, caller.name, req, a, now)
                  && WalletAccepts(env, b.wallets, req.wallet, a.value, now))
            && (v.Allow? ==> v == Allow(a.decoded, a.path))
            && (a.Denied? ==> v == Deny(a.step, a.reason))
            && (a.Admit? && v.Deny? ==> v.step in {0, 8, 9})
            && (a.Admit? ==> (v.Deny? && v.step == 8 <==> !CallerAccepts(b, caller.name, req, a, now)))
  {
    hide Admitted1To7, WalletAccepts, CallerAccepts, CountRequest;
    var a := Admitted1To7(env, caller, req);
    if a.Admit? {
      CountIsExact(env, b, caller.name, req, a, now);
    }
  }

  /** Every call the gate allows satisfies every argument predicate of the rule it matched: the predicate is open, or
      the argument was decoded and agrees. */
  lemma AllowedCallPasses(env: Env, b: Buckets, caller: Caller, req: SignRequest, now: int)
    requires caller.policyPath !in env.policy.nativeTransfers && Evaluation(env, b, caller, req, now).0.Allow?
    ensures var v := Evaluation(env, b, caller, req, now).0;
            && OnCallPath(env.policy, caller) && v.matchedPolicyPath == caller.policyPath
            && exists i, nonscalar ::
                Passes(env, req, env.policy.permissions[caller.policyPath], i, v.decoded, nonscalar)
  {
    hide Evaluation, Admitted1To7, Passes, WalletAccepts, CallerAccepts;
    GateIsExact(env, b, caller, req, now);
    CallIsExact(env, caller, req);
  }

  /** And step 6 refuses a call only over a predicate that is not open and not satisfied. */
  lemma StepSixIsExact(env: Env, b: Buckets, caller: Caller, req: SignRequest, now: int, i: nat, d: Decoded,
                       nonscalar: bool)
    requires OnCallPath(env.policy, caller)
    requires Reaches(env, req, env.policy.permissions[caller.policyPath], i, d, nonscalar)
    ensures var v := Evaluation(env, b, caller, req, now).0;
            var rule := env.policy.permissions[caller.policyPath].contracts[i].1.methods[d.methodSignature];
            v.Deny? && v.step == 6 <==>
              MethodOpen(env, req, rule, nonscalar)
              && exists j :: 0 <= j < |rule.argPredicates|
                  && !Satisfies(env, rule.argPredicates[j].0, rule.argPredicates[j].1, d.args)
  {
    GateIsExact(env, b, caller, req, now);
    ReachedIsExact(env, caller, req, i, d, nonscalar);
    hide Evaluation, Admitted1To7, Passes, WalletAccepts, CallerAccepts, Satisfies, MethodOpen, Reaches;
  }
}
