/** The gate under a policy grown by generation and merging: each rule is the one of the last run that wrote it, so a
    claim pays that run's recipient, a registration is for its identity, and a signing caller signs its one message
    type with its network's wallet for its network's chain. */
module GrownGate {
  import opened Prelude
  import opened PolicySchema
  import opened Environment
  import opened Store
  import opened PolicyNames
  import opened PolicyInit
  import opened GateMeaning
  import opened GeneratedRules
  import PolicyEngine
  import SignFspMessage
  import FspOutcomes
  import GeneratedPolicies

  // ---------- The run that wrote a rule ----------

  /** Run `i` is the last to write the rules of role `r` for network `n`. */
  ghost predicate Wrote(gens: seq<Gen>, r: Role, n: string, i: nat) {
    && i < |gens| && Generated(gens[i]).Some? && n in gens[i].req.networks && Wanted(gens[i].req.capabilities, r)
    && forall j :: i < j < |gens| && Generated(gens[j]).Some? ==>
        !(n in gens[j].req.networks && Wanted(gens[j].req.capabilities, r))
  }

  ghost predicate WroteSign(gens: seq<Gen>, m: SignRole, n: string, i: nat) {
    && i < |gens| && Generated(gens[i]).Some? && n in gens[i].req.networks && WantedSign(gens[i].req.capabilities, m)
    && forall j :: i < j < |gens| && Generated(gens[j]).Some? ==>
        !(n in gens[j].req.networks && WantedSign(gens[j].req.capabilities, m))
  }

  lemma GrowStep(gens: seq<Gen>, path: string)
    requires gens != []
    ensures var p, base, add := GeneratedPolicies.Grow(gens), GeneratedPolicies.Grow(gens[..|gens| - 1]),
              Generated(gens[|gens| - 1]);
            && (path in p.permissions ==>
                  if add.Some? && path in add.value.permissions
                  then p.permissions[path] == add.value.permissions[path]
                  else path in base.permissions && p.permissions[path] == base.permissions[path])
            && (path in p.fspPermissions ==>
                  if add.Some? && path in add.value.fspPermissions
                  then p.fspPermissions[path] == add.value.fspPermissions[path]
                  else path in base.fspPermissions && p.fspPermissions[path] == base.fspPermissions[path])
  {
    hide Generated;
  }

  lemma WroteEarlier(gens: seq<Gen>, r: Role, n: string, i: nat)
    requires gens != [] && Wrote(gens[..|gens| - 1], r, n, i)
    requires var last := gens[|gens| - 1];
             Generated(last).Some? ==> !(n in last.req.networks && Wanted(last.req.capabilities, r))
    ensures Wrote(gens, r, n, i)
  {
    hide Generated, Wanted;
  }

  lemma WroteSignEarlier(gens: seq<Gen>, m: SignRole, n: string, i: nat)
    requires gens != [] && WroteSign(gens[..|gens| - 1], m, n, i)
    requires var last := gens[|gens| - 1];
             Generated(last).Some? ==> !(n in last.req.networks && WantedSign(last.req.capabilities, m))
    ensures WroteSign(gens, m, n, i)
  {
    hide Generated, WantedSign;
  }

  /** The block at a role's path is the one of the last run that wrote it. */
  lemma {:induction false} LastPermission(gens: seq<Gen>, r: Role, n: string) returns (i: nat)
    requires PermPath(r, n) in GeneratedPolicies.Grow(gens).permissions
    ensures Wrote(gens, r, n, i) && PermPath(r, n) in Generated(gens[i]).value.permissions
    ensures GeneratedPolicies.Grow(gens).permissions[PermPath(r, n)] ==
            Generated(gens[i]).value.permissions[PermPath(r, n)]
    decreases |gens|
  {
    assert gens != [];
    hide Generated, Wanted, PermPath, GeneratedPolicies.Grow;
    var shorter, last := gens[..|gens| - 1], gens[|gens| - 1];
    GrowStep(gens, PermPath(r, n));
    if Generated(last).Some? {
      BlockOfRole(last, r, n);
    }
    if Generated(last).Some? && PermPath(r, n) in Generated(last).value.permissions {
      i := |gens| - 1;
    } else {
      i := LastPermission(shorter, r, n);
      WroteEarlier(gens, r, n, i);
    }
  }

  lemma {:induction false} LastFsp(gens: seq<Gen>, m: SignRole, n: string) returns (i: nat)
    requires FspPath(m, n) in GeneratedPolicies.Grow(gens).fspPermissions
    ensures WroteSign(gens, m, n, i) && FspPath(m, n) in Generated(gens[i]).value.fspPermissions
    ensures GeneratedPolicies.Grow(gens).fspPermissions[FspPath(m, n)] ==
            Generated(gens[i]).value.fspPermissions[FspPath(m, n)]
    decreases |gens|
  {
    assert gens != [];
    hide Generated, WantedSign, FspPath, GeneratedPolicies.Grow;
    var shorter, last := gens[..|gens| - 1], gens[|gens| - 1];
    GrowStep(gens, FspPath(m, n));
    if Generated(last).Some? {
      FspOfRole(last, m, n);
    }
    if Generated(last).Some? && FspPath(m, n) in Generated(last).value.fspPermissions {
      i := |gens| - 1;
    } else {
      i := LastFsp(shorter, m, n);
      WroteSignEarlier(gens, m, n, i);
    }
  }

  /** A caller of a grown policy is bound to the path of its role. */
  lemma {:induction false} GrownCaller(gens: seq<Gen>, c: CallerRole, n: string)
    ensures var p := GeneratedPolicies.Grow(gens);
            CallerName(c, n) in p.callers ==> p.callers[CallerName(c, n)].policyPath == CallerPath(c, n)
    decreases |gens|
  {
    hide Generated, CallerName, CallerPath;
    if gens != [] {
      GrownCaller(gens[..|gens| - 1], c, n);
      if Generated(gens[|gens| - 1]).Some? {
        CallerOfRole(gens[|gens| - 1], c, n);
      }
    }
  }

  lemma {:induction false} GrownHasNoNative(gens: seq<Gen>)
    ensures GeneratedPolicies.Grow(gens).nativeTransfers == map[]
    decreases |gens|
  {
    hide Generated;
    if gens != [] {
      GrownHasNoNative(gens[..|gens| - 1]);
    }
  }

  // ---------- What the gate then allows ----------

  /** The request is for the network's contract of this ABI on the network's chain, moves no value, uses one of these
      wallets, and decodes to a registered function of one of these names with these arguments. */
  ghost predicate Conforms(env: Env, g: Gen, n: string, wallets: seq<string>, abi: string, names: seq<string>,
                           pinned: seq<(string, Scalar)>, req: SignRequest, d: PolicyEngine.Decoded) {
    && n in g.table && abi in g.table[n].addresses && Lower(req.to) == Lower(g.table[n].addresses[abi])
    && req.chain == g.table[n].chainId && ValueFits(env, "0", req.valueWei) && req.wallet in wallets
    && (exists name :: name in names && Registered(g.registry, abi, d.methodSignature, name))
    && AllSatisfied(env, pinned, d.args)
  }

  /** Whatever passes a block that says so conforms to it. */
  lemma BlockAllows(env: Env, g: Gen, n: string, perm: PermissionBlock, wallets: seq<string>, abi: string,
                    names: seq<string>, pinned: seq<(string, Scalar)>, open: bool, rate: RateLimit, req: SignRequest,
                    i: nat, d: PolicyEngine.Decoded, nonscalar: bool)
    requires BlockSays(g, n, perm, wallets, abi, names, pinned, open, rate)
    requires GateMeaning.Passes(env, req, perm, i, d, nonscalar)
    ensures Conforms(env, g, n, wallets, abi, names, pinned, req, d)
  {
    hide Lower, Registered, DecodesTo, AllSatisfied;
  }

  /** Every call a grown policy allows under a role's path conforms to what the last run that wrote the role was asked
      for. */
  lemma RoleAllows(env: Env, gens: seq<Gen>, b: Buckets, caller: Caller, req: SignRequest, now: int, r: Role, n: string,
                   wallets: seq<string>, abi: string, names: seq<string>, pinned: seq<(string, Scalar)>, open: bool,
                   rate: RateLimit, i: nat)
    requires env.policy == GeneratedPolicies.Grow(gens) && caller.policyPath == PermPath(r, n)
    requires PolicyEngine.Evaluation(env, b, caller, req, now).0.Allow?
    requires i < |gens| && PermPath(r, n) in env.policy.permissions
    requires BlockSays(gens[i], n, env.policy.permissions[PermPath(r, n)], wallets, abi, names, pinned, open, rate)
    ensures Conforms(env, gens[i], n, wallets, abi, names, pinned, req,
                     PolicyEngine.Evaluation(env, b, caller, req, now).0.decoded)
  {
    GrownHasNoNative(gens);
    hide PolicyEngine.Evaluation, GeneratedPolicies.Grow, GateMeaning.Passes, BlockSays, Conforms, PermPath;
    AllowedCallPasses(env, b, caller, req, now);
    var v := PolicyEngine.Evaluation(env, b, caller, req, now).0;
    var perm := env.policy.permissions[caller.policyPath];
    var k, nonscalar :| GateMeaning.Passes(env, req, perm, k, v.decoded, nonscalar);
    BlockAllows(env, gens[i], n, perm, wallets, abi, names, pinned, open, rate, req, k, v.decoded, nonscalar);
  }

  /** An allowed call is under the path its caller presents, and that path has a block. */
  lemma AllowedPath(env: Env, gens: seq<Gen>, b: Buckets, caller: Caller, req: SignRequest, now: int)
    requires env.policy == GeneratedPolicies.Grow(gens)
    requires PolicyEngine.Evaluation(env, b, caller, req, now).0.Allow?
    ensures PolicyEngine.Evaluation(env, b, caller, req, now).0.matchedPolicyPath == caller.policyPath
    ensures OnCallPath(env.policy, caller)
  {
    GrownHasNoNative(gens);
    hide PolicyEngine.Evaluation, GeneratedPolicies.Grow, GateMeaning.Passes;
    AllowedCallPasses(env, b, caller, req, now);
  }

  /** A pinned argument: present, and equal to the value the run was given, unless that value is the word that leaves
      arguments open. */
  predicate IsPinned(env: Env, args: map<string, Scalar>, name: string, value: string) {
    value == "any"
    || (name in args && Agrees(env, TextScalar(value), args[name])
        && (args[name].TextScalar? ==> SameText(args[name].s, value)))
  }

  lemma OnePin(env: Env, args: map<string, Scalar>, name: string, value: string)
    requires AllSatisfied(env, [(name, TextScalar(value))], args)
    ensures IsPinned(env, args, name, value)
  {
    var preds := [(name, TextScalar(value))];
    assert Satisfies(env, preds[0].0, preds[0].1, args);
    hide Lower;
  }

  /** Under a grown policy a claim is for the last run's network contract and chain, from the network's claimer wallet,
      without value, and pays the recipient that run was given. */
  lemma ClaimPaysItsRecipient(env: Env, gens: seq<Gen>, b: Buckets, caller: Caller, req: SignRequest, now: int,
                              n: string) returns (i: nat)
    requires env.policy == GeneratedPolicies.Grow(gens)
    requires PolicyEngine.Evaluation(env, b, caller, req, now).0.Allow?
    requires PolicyEngine.Evaluation(env, b, caller, req, now).0.matchedPolicyPath == "perm/claim-" + n
    ensures Wrote(gens, Claim, n, i) && gens[i].req.recipient.Some?
    ensures var v, recipient := PolicyEngine.Evaluation(env, b, caller, req, now).0, gens[i].req.recipient.value;
            && Conforms(env, gens[i], n, ["claimer-" + n], "reward_manager", ["claim"],
                        [("_recipient", TextScalar(recipient))], req, v.decoded)
            && IsPinned(env, v.decoded.args, "_recipient", recipient)
  {
    hide PolicyEngine.Evaluation, GeneratedPolicies.Grow, Conforms, BlockSays, Generated, Wrote;
    AllowedPath(env, gens, b, caller, req, now);
    assert "perm/claim-" + n == PermPath(Claim, n);
    i := LastPermission(gens, Claim, n);
    WroteFacts(gens, Claim, n, i);
    ClaimRules(gens[i], n);
    var recipient := gens[i].req.recipient.value;
    RoleAllows(env, gens, b, caller, req, now, Claim, n, ["claimer-" + n], "reward_manager", ["claim"],
               [("_recipient", TextScalar(recipient))], true, gens[i].req.claimRate, i);
    var d := PolicyEngine.Evaluation(env, b, caller, req, now).0.decoded;
    ConformsPins(env, gens[i], n, ["claimer-" + n], "reward_manager", ["claim"], "_recipient", recipient, req, d);
  }

  lemma WroteFacts(gens: seq<Gen>, r: Role, n: string, i: nat)
    requires Wrote(gens, r, n, i)
    ensures i < |gens| && Generated(gens[i]).Some? && n in gens[i].req.networks && Wanted(gens[i].req.capabilities, r)
    ensures r == Claim ==> ClaimCap in gens[i].req.capabilities
    ensures r in CONFIRMS ==> RegisterCap in gens[i].req.capabilities
  {
    hide Generated;
  }

  lemma ConformsPins(env: Env, g: Gen, n: string, wallets: seq<string>, abi: string, names: seq<string>, name: string,
                     value: string, req: SignRequest, d: PolicyEngine.Decoded)
    requires Conforms(env, g, n, wallets, abi, names, [(name, TextScalar(value))], req, d)
    ensures IsPinned(env, d.args, name, value)
  {
    OnePin(env, d.args, name, value);
  }

  /** The pin holds for every value but one: a recipient given as "any" leaves the argument open to every call. */
  lemma RecipientPinnedIff(env: Env, recipient: string)
    ensures (forall args :: AllSatisfied(env, [("_recipient", TextScalar(recipient))], args) ==> "_recipient" in args)
       <==> recipient != "any"
  {
    var preds := [("_recipient", TextScalar(recipient))];
    if recipient == "any" {
      assert AllSatisfied(env, preds, map[]);
    } else {
      forall args | AllSatisfied(env, preds, args) ensures "_recipient" in args {
        assert Satisfies(env, preds[0].0, preds[0].1, args);
      }
    }
  }

  /** Under a grown policy a registration confirm is for the last run's network contract and chain, without value, from
      the one wallet being registered, and for the identity that run was given. */
  lemma ConfirmIsForItsIdentity(env: Env, gens: seq<Gen>, b: Buckets, caller: Caller, req: SignRequest, now: int,
                                r: Role, n: string) returns (i: nat)
    requires env.policy == GeneratedPolicies.Grow(gens) && r in CONFIRMS
    requires PolicyEngine.Evaluation(env, b, caller, req, now).0.Allow?
    requires PolicyEngine.Evaluation(env, b, caller, req, now).0.matchedPolicyPath == PermPath(r, n)
    ensures Wrote(gens, r, n, i) && gens[i].req.identity.Some?
    ensures var v, identity := PolicyEngine.Evaluation(env, b, caller, req, now).0, gens[i].req.identity.value;
            && Conforms(env, gens[i], n, [WalletName(MainWallet(r), n)], "entity_manager", MethodNames(r),
                        [("_voter", TextScalar(identity))], req, v.decoded)
            && IsPinned(env, v.decoded.args, "_voter", identity)
  {
    hide PolicyEngine.Evaluation, GeneratedPolicies.Grow, Conforms, BlockSays, Generated, Wrote, MethodNames,
      MainWallet;
    AllowedPath(env, gens, b, caller, req, now);
    i := LastPermission(gens, r, n);
    WroteFacts(gens, r, n, i);
    ConfirmRule(gens[i], r, n);
    var identity := gens[i].req.identity.value;
    var wallets := [WalletName(MainWallet(r), n)];
    RoleAllows(env, gens, b, caller, req, now, r, n, wallets, "entity_manager", MethodNames(r),
               [("_voter", TextScalar(identity))], false, gens[i].req.fspRate, i);
    var d := PolicyEngine.Evaluation(env, b, caller, req, now).0.decoded;
    ConformsPins(env, gens[i], n, wallets, "entity_manager", MethodNames(r), "_voter", identity, req, d);
  }

  // ---------- FSP messages ----------

  /** The message type a signing caller is generated for. */
  function TypeOf(m: SignRole): string {
    match m
    case UptimeSign => "UPTIME"
    case RewardSign => "REWARD_DISTRIBUTION"
    case PolicySign => "SIGNING_POLICY"
    case VoterSign => "VOTER_REGISTRATION"
    case ProtocolSign => "PROTOCOL_PAYLOAD"
    case FastUpdateSign => "FAST_UPDATE"
  }

  lemma TypesAgree(m: SignRole)
    ensures TypeOf(m) == MessageType(m)
  {
  }

  lemma SignBlockSays(g: Gen, m: SignRole, n: string)
    requires Generated(g).Some? && n in g.req.networks && WantedSign(g.req.capabilities, m)
    ensures FspPath(m, n) in Generated(g).value.fspPermissions && n in g.table
    ensures Generated(g).value.fspPermissions[FspPath(m, n)] ==
            FspPermissionBlock([TypeOf(m)], ["fsp-signing-" + n], [g.table[n].chainId], Some(g.req.fspRate))
  {
    hide Generated, WantedSign, TypeOf, MessageType, CallerPrefix, FspPrefix;
    TypesAgree(m);
    SignRoleRule(g, m, n);
  }

  /** Under a grown policy a signing caller of a network gets a signature on its own message type only, with the
      network's signing wallet only, and for the chain of the last run's network only. */
  lemma SignerSignsItsOwn(env: Env, gens: seq<Gen>, b: Buckets, caller: Caller, req: SignFspMessage.FspRequest,
                          now: int, m: SignRole, n: string) returns (i: nat)
    requires env.policy == GeneratedPolicies.Grow(gens) && caller.name == CallerName(Signs(m), n)
    requires SignFspMessage.FspEvaluation(env, b, caller, req, now).0.FspAllow?
    ensures WroteSign(gens, m, n, i) && n in gens[i].table
    ensures req.messageType == TypeOf(m) && req.wallet == "fsp-signing-" + n
    ensures req.fields.chainId == Some(gens[i].table[n].chainId)
  {
    FspOutcomes.FspGateIsExact(env, b, caller, req, now);
    hide SignFspMessage.FspEvaluation, GeneratedPolicies.Grow, Generated, WantedSign, CallerName, FspPath;
    GrownCaller(gens, Signs(m), n);
    i := LastFsp(gens, m, n);
    SignBlockSays(gens[i], m, n);
  }
}
