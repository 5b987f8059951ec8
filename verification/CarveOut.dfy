/** Exactly when the gate can be made to move value, or call a method that is not exempt, from a wallet. */
module CarveOut {
  import opened Prelude
  import opened PolicySchema
  import opened Environment
  import opened PolicyEngine
  import opened PolicyLoader
  import CanonicalJson
  import GateMeaning

  // ---------- The policy side ----------

  /** The rule the caller bound as `name` meets at contract `to` when it signs for `wallet` on the call path. */
  ghost predicate Meets(env: Env, wallet: string, name: string, to: string, crule: ContractRule) {
    && name in env.policy.callers
    && var path := env.policy.callers[name].policyPath;
       && path !in env.policy.nativeTransfers && path in env.policy.permissions
       && wallet in env.policy.permissions[path].walletAllowlist
       && FindContract(env.policy.permissions[path].contracts, to) == Some(crule) && crule.chains != []
  }

  /** Calldata that decodes to a method the rule lists, with arguments it accepts and a readable limit. */
  predicate Callable(env: Env, crule: ContractRule, to: string, data: string) {
    && HexPart(data) != ""
    && var intent := DecodeIntent(env, crule.abi, to, data);
       && intent.Intent? && intent.decoded.methodSignature in crule.methods
       && var rule := crule.methods[intent.decoded.methodSignature];
          && (intent.hasNonscalarArgs ==> rule.allowUnconstrainedArgs)
          && FirstMismatch(env, rule.argPredicates, intent.decoded.args).None?
          && env.parseInt(rule.maxValueWei).Some?
  }

  /** The method is exempt for its ABI and its limit lets no value through. */
  predicate HarmlessMethod(env: Env, crule: ContractRule, sig: string) {
    && ExemptMethods(crule.abi).Some? && sig in ExemptMethods(crule.abi).value
    && sig in crule.methods && env.parseInt(crule.methods[sig].maxValueWei).GetOr(0) <= 0
  }

  /** Every method some calldata reaches, in a block a caller is bound to and the wallet is listed in, is
      harmless. */
  ghost predicate ReachIsHarmless(env: Env, wallet: string) {
    forall name, to, crule, data :: Meets(env, wallet, name, to, crule) && Callable(env, crule, to, data) ==>
      HarmlessMethod(env, crule, DecodeIntent(env, crule.abi, to, data).decoded.methodSignature)
  }

  // ---------- The gate side ----------

  /** The request passes steps 1 to 7 on the call path. */
  predicate PassesCallPath(env: Env, caller: Caller, req: SignRequest) {
    && Admitted1To7(env, caller, req).Admit? && !Admitted1To7(env, caller, req).native
  }

  /** It moves no value and calls an exempt method of the contract's ABI. */
  ghost predicate MovesNothing(env: Env, caller: Caller, req: SignRequest)
    requires PassesCallPath(env, caller, req)
  {
    var a := Admitted1To7(env, caller, req);
    && a.value <= 0 && a.path in env.policy.permissions
    && var found := FindContract(env.policy.permissions[a.path].contracts, req.to);
       found.Some? && ExemptMethods(found.value.abi).Some? &&
         a.decoded.methodSignature in ExemptMethods(found.value.abi).value
  }

  ghost predicate WalletMovesNothing(env: Env, wallet: string) {
    forall caller: Caller, req: SignRequest :: req.wallet == wallet && PassesCallPath(env, caller, req) ==>
      MovesNothing(env, caller, req)
  }

  /** What a passing request met, and what it decoded to. */
  lemma PassingMeets(env: Env, caller: Caller, req: SignRequest) returns (crule: ContractRule)
    requires PassesCallPath(env, caller, req)
    ensures Meets(env, req.wallet, caller.name, req.to, crule) && Callable(env, crule, req.to, req.data)
    ensures var a := Admitted1To7(env, caller, req);
            && a.path == env.policy.callers[caller.name].policyPath
            && a.decoded == DecodeIntent(env, crule.abi, req.to, req.data).decoded
            && a.value <= env.parseInt(crule.methods[a.decoded.methodSignature].maxValueWei).value
  {
    hide HexPart, FindContract, DecodeIntent, FirstMismatch, AdmitNative, CanonicalJson.PrintInt;
    var path := env.policy.callers[caller.name].policyPath;
    crule := (if path in env.policy.nativeTransfers then None
              else FindContract(env.policy.permissions[path].contracts, req.to)).GetOr(ContractRule("", [], map[]));
    if path in env.policy.nativeTransfers {
      GateMeaning.NativeStays(env, req, path);
    }
  }

  /** The request that asks a rule for all it allows. */
  function Utmost(wallet: string, crule: ContractRule, to: string, data: string, sig: string): SignRequest
    requires crule.chains != [] && sig in crule.methods
  {
    SignRequest(wallet, crule.chains[0], to, crule.methods[sig].maxValueWei, data, 0, 0, 0, None)
  }

  lemma UtmostPasses(env: Env, wallet: string, name: string, to: string, crule: ContractRule, data: string)
    requires Meets(env, wallet, name, to, crule) && Callable(env, crule, to, data)
    ensures var sig := DecodeIntent(env, crule.abi, to, data).decoded.methodSignature;
            var caller, req := Caller(name, env.policy.callers[name].policyPath, false),
              Utmost(wallet, crule, to, data, sig);
            && PassesCallPath(env, caller, req)
            && Admitted1To7(env, caller, req).value == env.parseInt(crule.methods[sig].maxValueWei).value
            && Admitted1To7(env, caller, req).decoded.methodSignature == sig
            && Admitted1To7(env, caller, req).path == env.policy.callers[name].policyPath
  {
    hide HexPart, FindContract, DecodeIntent, FirstMismatch, AdmitNative, CanonicalJson.PrintInt;
  }

  lemma ReachedIsHarmless(env: Env, wallet: string, name: string, to: string, crule: ContractRule, data: string)
    requires WalletMovesNothing(env, wallet) && Meets(env, wallet, name, to, crule) && Callable(env, crule, to, data)
    ensures HarmlessMethod(env, crule, DecodeIntent(env, crule.abi, to, data).decoded.methodSignature)
  {
    var sig := DecodeIntent(env, crule.abi, to, data).decoded.methodSignature;
    var caller, req := Caller(name, env.policy.callers[name].policyPath, false), Utmost(wallet, crule, to, data, sig);
    UtmostPasses(env, wallet, name, to, crule, data);
    hide Admitted1To7, FindContract, DecodeIntent, ExemptMethods, PassesCallPath;
    assert MovesNothing(env, caller, req);
  }

  lemma PassingMovesNothing(env: Env, caller: Caller, req: SignRequest)
    requires ReachIsHarmless(env, req.wallet) && PassesCallPath(env, caller, req)
    ensures MovesNothing(env, caller, req)
  {
    var crule := PassingMeets(env, caller, req);
    hide Admitted1To7, FindContract, DecodeIntent, ExemptMethods, FirstMismatch, HexPart;
    assert HarmlessMethod(env, crule, DecodeIntent(env, crule.abi, req.to, req.data).decoded.methodSignature);
  }

  /** The carve-out holds for a wallet, for every caller and every request on the call path, exactly when
      every method in its reach is harmless. */
  lemma CarveOutIff(env: Env, wallet: string)
    ensures WalletMovesNothing(env, wallet) <==> ReachIsHarmless(env, wallet)
  {
    hide Admitted1To7, FindContract, DecodeIntent, ExemptMethods, PassesCallPath, FirstMismatch, HexPart;
    if WalletMovesNothing(env, wallet) {
      forall name, to, crule, data | Meets(env, wallet, name, to, crule) && Callable(env, crule, to, data)
        ensures HarmlessMethod(env, crule, DecodeIntent(env, crule.abi, to, data).decoded.methodSignature)
      {
        ReachedIsHarmless(env, wallet, name, to, crule, data);
      }
    }
    if ReachIsHarmless(env, wallet) {
      forall caller: Caller, req: SignRequest | req.wallet == wallet && PassesCallPath(env, caller, req)
        ensures MovesNothing(env, caller, req)
      {
        PassingMovesNothing(env, caller, req);
      }
    }
  }

  // ---------- What the check contributes ----------

  /** The block the caller is bound to is exempt, if it lists the wallet. */
  predicate BoundBlockExempt(p: Policy, name: string, wallet: string)
    requires name in p.callers
  {
    var path := p.callers[name].policyPath;
    path in p.permissions && wallet in p.permissions[path].walletAllowlist ==> ExemptBlock(p.permissions[path])
  }

  /** Only exempt blocks in the reach of a wallet, and a readable zero, are enough. */
  lemma ExemptBlocksAreHarmless(env: Env, wallet: string)
    requires env.parseInt("0") == Some(0)
    requires forall name :: name in env.policy.callers ==> BoundBlockExempt(env.policy, name, wallet)
    ensures ReachIsHarmless(env, wallet)
  {
    hide HexPart, DecodeIntent, FirstMismatch, ExemptMethods, FindContract;
    forall name, to, crule, data | Meets(env, wallet, name, to, crule) && Callable(env, crule, to, data)
      ensures HarmlessMethod(env, crule, DecodeIntent(env, crule.abi, to, data).decoded.methodSignature)
    {
      var contracts := env.policy.permissions[env.policy.callers[name].policyPath].contracts;
      var i :| 0 <= i < |contracts| && contracts[i].1 == crule;
      assert ExemptShape(contracts[i].1);
    }
  }

  /** So a clean check bounds every FSP wallet that shares its address with no other exempt wallet. */
  lemma CleanCheckBounds(env: Env, callers: seq<Caller>, wallets: seq<Wallet>, wallet: string)
    requires Consistent(env.policy, callers, wallets, env.registry) && env.parseInt("0") == Some(0)
    requires FspAllowlisted(env.policy, wallet) && AddressOf(wallets, wallet).Some?
    requires NoExemptTwin(env.policy, wallets, wallet)
    ensures WalletMovesNothing(env, wallet)
  {
    hide FspAllowlisted, Consistent, AddressOf, WalletMovesNothing, ReachIsHarmless, ExemptBlock, NoExemptTwin;
    forall name | name in env.policy.callers ensures BoundBlockExempt(env.policy, name, wallet) {
      var path := env.policy.callers[name].policyPath;
      if path in env.policy.permissions && wallet in env.policy.permissions[path].walletAllowlist {
        ListedBlockIsExempt(env.policy, callers, wallets, env.registry, wallet, path);
      }
    }
    ExemptBlocksAreHarmless(env, wallet);
    CarveOutIff(env, wallet);
  }

  /** The state changes of the Flare Systems Protocol that a signing wallet submits itself. */
  predicate SelfSubmits(abi: string, signature: string) {
    || (abi == "flare_systems_manager"
        && signature in {"signUptimeVote(uint24,bytes32,(uint8,bytes32,bytes32))",
                         "signRewards(uint24,(uint256,uint256)[],bytes32,(uint8,bytes32,bytes32))",
                         "signNewSigningPolicy(uint24,bytes32,(uint8,bytes32,bytes32))"})
    || (abi == "relay" && signature == "relay()")
    || (abi == "voter_registry" && signature == "registerVoter(address,(uint8,bytes32,bytes32))")
    || (abi == "entity_manager" && signature == "confirmSigningPolicyAddressRegistration(address)")
  }

  lemma ExemptIsSelfSubmitted(abi: string, signature: string)
    ensures ExemptMethods(abi).Some? && signature in ExemptMethods(abi).value <==> SelfSubmits(abi, signature)
  {
  }

  /** What is admitted is such a change, at the first contract of its block that the request names, for no value. */
  ghost predicate OnlySelfSubmits(p: Policy, req: SignRequest, a: Admission) {
    && a.Admit? && a.value <= 0 && a.path in p.permissions
    && exists i: nat :: GateMeaning.FirstAt(p.permissions[a.path].contracts, req.to, i)
         && SelfSubmits(p.permissions[a.path].contracts[i].1.abi, a.decoded.methodSignature)
  }

  /** After a clean check the gate admits nothing else on the call path for such a wallet. */
  lemma CleanCheckAdmits(env: Env, callers: seq<Caller>, wallets: seq<Wallet>, caller: Caller, req: SignRequest)
    requires Consistent(env.policy, callers, wallets, env.registry) && env.parseInt("0") == Some(0)
    requires FspAllowlisted(env.policy, req.wallet) && AddressOf(wallets, req.wallet).Some?
    requires NoExemptTwin(env.policy, wallets, req.wallet) && PassesCallPath(env, caller, req)
    ensures OnlySelfSubmits(env.policy, req, Admitted1To7(env, caller, req))
  {
    CleanCheckBounds(env, callers, wallets, req.wallet);
    hide Admitted1To7, FspAllowlisted, Consistent, AddressOf, NoExemptTwin, ExemptMethods, SelfSubmits, FindContract,
      GateMeaning.FirstAt;
    assert MovesNothing(env, caller, req);
    var a := Admitted1To7(env, caller, req);
    var contracts := env.policy.permissions[a.path].contracts;
    var i := GateMeaning.FindContractIsFirst(contracts, req.to);
    GateMeaning.FirstInRange(contracts, req.to, i);
    ExemptIsSelfSubmitted(contracts[i].1.abi, a.decoded.methodSignature);
  }
}
