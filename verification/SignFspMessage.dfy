/** POST /v1/sign-fsp-message: its own policy gate and rate table, no nonce, three audited refusal arms. */
module SignFspMessage {
  import opened Prelude
  import opened PolicySchema
  import opened Environment
  import opened Store
  import opened CanonicalJson
  import opened RateWindows
  import opened SignTransaction
  import opened FspMessage
  import AuditLog
  import RateRepo

  datatype FspRequest = FspRequest(wallet: string, messageType: string, rewardEpochId: int, fields: MessageFields)

  datatype FspVerdict = FspDeny(step: int, reason: string) | FspAllow(subject: FspSubject, rate: Option<RateLimit>)

  datatype FspReply = FspOk(signature: FspSignature) | FspWalletNotFound | FspCallerInvalid
                    | FspDenied(step: int, reason: string) | FspMalformed | FspVaultUnavailable | FspCrash
  {
    predicate Audited() {
      FspDenied? || FspMalformed? || FspVaultUnavailable?
    }
  }

  // ---------- The gate ----------

  /** Checks 1 to 6, none of which counts anything. */
  function FspDenial(p: Policy, caller: Caller, req: FspRequest): Option<(int, string)> {
    if caller.name !in p.callers then Some((1, "caller not in policy"))
    else
      var path := p.callers[caller.name].policyPath;
      if caller.policyPath != path then Some((1, "caller policy_path drift"))
      else if path !in p.fspPermissions then
        Some((2, "caller policy_path '" + path + "' has no fsp_permissions block"))
      else if path in p.permissions then
        Some((3, "policy_path is also an EVM permissions block (cross-domain forbidden)"))
      else
        var perm := p.fspPermissions[path];
        var chain := req.fields.chainId;
        if req.messageType == UPTIME && perm.chainIds == [] then Some((4, "UPTIME requires explicit chain_ids"))
        else if perm.chainIds != [] && (chain.None? || chain.value !in perm.chainIds) then
          Some((4, "chain_id " + (if chain.Some? then PrintInt(chain.value) else "None") +
            " not in permitted chain_ids"))
        else if req.messageType !in perm.messageTypes then Some((5, "message_type not permitted"))
        else if req.wallet !in perm.walletAllowlist then Some((6, "wallet not in fsp allowlist"))
        else None
  }

  function FspEvaluation(env: Env, b: Buckets, caller: Caller, req: FspRequest, now: int): (FspVerdict, Buckets) {
    match FspDenial(env.policy, caller, req)
    case Some((step, reason)) => (FspDeny(step, reason), b)
    case None =>
      var rate := env.policy.fspPermissions[env.policy.callers[caller.name].policyPath].rate;
      var subject := FspSubject(caller.name, req.wallet, req.messageType);
      match CheckAndIncrement(b.fsp, subject, rate, now)
      case None => (FspDeny(7, "fsp caller rate limit exceeded"), b)
      case Some(m) => (FspAllow(subject, rate), b.(fsp := m))
  }

  // ---------- The request ----------

  function OptInt(o: Option<int>): Value {
    match o
    case None => Null
    case Some(n) => Int(n)
  }

  function FspEntry(env: Env, caller: Caller, req: FspRequest, decision: string, reason: Option<string>,
                    outcome: Option<string>): AuditLog.Entry
  {
    var f := req.fields;
    AuditLog.Entry(Some(caller.name), "fsp-sign-message",
      Some(env.dumps([Field("wallet", Str(req.wallet)), Field("message_type", Str(req.messageType)),
                      Field("reward_epoch_id", Int(req.rewardEpochId)), Field("chain_id", OptInt(f.chainId)),
                      Field("no_of_weight_based_claims", OptInt(f.noOfWeightBasedClaims)),
                      Field("rewards_hash", AuditLog.Nullable(f.rewardsHash)),
                        Field("address", AuditLog.Nullable(f.address)),
                      Field("signing_policy", AuditLog.Nullable(f.signingPolicy)),
                      Field("payload", AuditLog.Nullable(f.payload)), Field("protocol_id", OptInt(f.protocolId)),
                      Field("registration_variant", AuditLog.Nullable(f.registrationVariant)),
                      Field("block_number", OptInt(f.blockNumber)), Field("replicate", OptInt(f.replicate)),
                      Field("gamma_x", OptInt(f.gammaX)), Field("gamma_y", OptInt(f.gammaY)), Field("c", OptInt(f.c)),
                      Field("s", OptInt(f.s)), Field("deltas", AuditLog.Nullable(f.deltas))])),
      decision, reason, outcome)
  }

  /** The chain id scopes every request at the gate but reaches the hash of only two message kinds. */
  function BuildFields(req: FspRequest): MessageFields {
    if req.messageType == UPTIME || (req.messageType == VOTER_REGISTRATION &&
      req.fields.registrationVariant == Some("legacy"))
       || req.messageType == SIGNING_POLICY || req.messageType == PROTOCOL_PAYLOAD || req.messageType == FAST_UPDATE
    then req.fields.(chainId := None)
    else req.fields
  }

  function Built(env: Env, req: FspRequest): Option<Bytes> {
    BuildMessage(env.keccak, env.sha256, req.messageType, req.rewardEpochId, BuildFields(req))
  }

  function SignatureText(env: Env, g: FspSignature): string {
    env.dumps([Field("message_hash", Str(g.messageHash)), Field("v", Int(g.v)), Field("r", Str(g.r)),
      Field("s", Str(g.s)),
               Field("signature", Str(g.signature))])
  }

  function FspAllowed(env: Env, d: Db, caller: Caller, req: FspRequest, clock: Clock, outcome: SignerOutcome,
                      allow: FspVerdict): (Db, FspReply)
    requires allow.FspAllow?
  {
    var b := d.buckets;
    var released := d.(buckets := b.(fsp := ReleaseCounters(b.fsp, allow.subject, allow.rate, clock.now)));
    match Built(env, req)
    case None => (Logged(env, released, FspEntry(env, caller, req, "error", Some("fsp_message_malformed"), None),
      clock), FspMalformed)
    case Some(hash) =>
      if outcome.SealFailure? then
        (Logged(env, released, FspEntry(env, caller, req, "error", Some("sign_failure"), None), clock),
          FspVaultUnavailable)
      else if !outcome.SignerOk? then (d, FspCrash)
      else
        var g := env.signFsp(req.wallet, hash);
        (Logged(env, d, FspEntry(env, caller, req, "approved", None, Some(SignatureText(env, g))), clock), FspOk(g))
  }

  function FspStep(env: Env, d: Db, caller: Caller, req: FspRequest, clock: Clock,
                   outcome: SignerOutcome): (Db, FspReply) {
    if caller.name == "" || |caller.name| > 64 then (d, FspCallerInvalid)
    else if req.wallet !in d.wallets then (d, FspWalletNotFound)
    else
      var ev := FspEvaluation(env, d.buckets, caller, req, clock.now);
      var d1 := d.(buckets := ev.1);
      match ev.0
      case FspDeny(step, reason) =>
        (Logged(env, d1, FspEntry(env, caller, req, "denied", Some(DenyText(step, reason)), None), clock),
          FspDenied(step, reason))
      case FspAllow(_, _) =>
        var r := FspAllowed(env, d1, caller, req, clock, outcome, ev.0);
        if r.1.FspCrash? then (d, FspCrash) else r
  }

  method EvaluateFsp(env: Env, rates: RateRepo.Repo, caller: Caller, req: FspRequest, now: int) returns (v: FspVerdict)
    modifies rates.session`db
    ensures v == FspEvaluation(env, old(rates.session.db).buckets, caller, req, now).0
    ensures rates.session.db == old(rates.session.db).(
              buckets := FspEvaluation(env, old(rates.session.db).buckets, caller, req, now).1)
  {
    var denial := FspDenial(env.policy, caller, req);
    if denial != None {
      return FspDeny(denial.value.0, denial.value.1);
    }
    var perm := env.policy.fspPermissions[env.policy.callers[caller.name].policyPath];
    var subject := FspSubject(caller.name, req.wallet, req.messageType);
    var ok := rates.CheckAndIncrementFspCaller(subject, perm.rate, now);
    if !ok {
      return FspDeny(7, "fsp caller rate limit exceeded");
    }
    v := FspAllow(subject, perm.rate);
  }

  method PostSignFspMessage(env: Env, s: Session, caller: Caller, req: FspRequest, clock: Clock, outcome: SignerOutcome)
    returns (reply: FspReply)
    requires s.db == s.committed
    modifies s
    ensures (s.committed, reply) == FspStep(env, old(s.committed), caller, req, clock, outcome)
    ensures s.db == s.committed
  {
    hide FspEvaluation, FspAllowed, AuditLog.AppendRow, DenyText;
    if caller.name == "" || |caller.name| > 64 {
      s.Leave(true);
      return FspCallerInvalid;
    }
    if req.wallet !in s.db.wallets {
      s.Leave(true);
      return FspWalletNotFound;
    }
    var rates := new RateRepo.Repo(s);
    var verdict := EvaluateFsp(env, rates, caller, req, clock.now);
    if verdict.FspDeny? {
      AuditAndCommit(env, s, FspEntry(env, caller, req, "denied", Some(DenyText(verdict.step, verdict.reason)), None),
                     clock);
      s.Leave(true);
      return FspDenied(verdict.step, verdict.reason);
    }
    reply := RunFspAllowed(env, s, caller, req, clock, outcome, verdict);
    s.Leave(!reply.FspOk?);
  }

  method RunFspAllowed(env: Env, s: Session, caller: Caller, req: FspRequest, clock: Clock, outcome: SignerOutcome,
                       allow: FspVerdict) returns (reply: FspReply)
    requires allow.FspAllow?
    modifies s
    ensures reply == FspAllowed(env, old(s.db), caller, req, clock, outcome, allow).1
    ensures s.db == FspAllowed(env, old(s.db), caller, req, clock, outcome, allow).0
    ensures if reply.FspOk? || reply.FspCrash? then s.committed == old(s.committed) else s.committed == s.db
  {
    hide Built, AuditLog.AppendRow, CheckAndIncrement;
    var rates := new RateRepo.Repo(s);
    var built := Built(env, req);
    if built == None {
      rates.ReleaseFspCaller(allow.subject, allow.rate, clock.now);
      AuditAndCommit(env, s, FspEntry(env, caller, req, "error", Some("fsp_message_malformed"), None), clock);
      return FspMalformed;
    }
    if outcome == SealFailure {
      rates.ReleaseFspCaller(allow.subject, allow.rate, clock.now);
      AuditAndCommit(env, s, FspEntry(env, caller, req, "error", Some("sign_failure"), None), clock);
      return FspVaultUnavailable;
    }
    if outcome != SignerOk {
      return FspCrash;
    }
    var g := env.signFsp(req.wallet, built.value);
    Audit(env, s, FspEntry(env, caller, req, "approved", None, Some(SignatureText(env, g))), clock);
    reply := FspOk(g);
  }
}
