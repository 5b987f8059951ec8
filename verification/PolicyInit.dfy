/** The policy generator: the rules it emits for a network, and the merge into an existing policy. Why what it
    builds passes the consistency check is in `GeneratedPolicies`. */
module PolicyInit {
  import opened Prelude
  import opened PolicySchema
  import opened FspMessage
  import opened PolicyNames

  datatype Capability = ClaimCap | FspCap | VoterCap | RegisterCap

  datatype NetworkSpec = NetworkSpec(chainId: int, addresses: map<string, string>)

  datatype Request = Request(
    networks: seq<string>, capabilities: set<Capability>, recipient: Option<string>, identity: Option<string>,
    sharedSender: bool, claimRate: RateLimit, fspRate: RateLimit)

  /** What one generation reads: the registry, the networks table and the request. */
  datatype Gen = Gen(registry: Registry, table: map<string, NetworkSpec>, req: Request)

  const EMPTY_POLICY: Policy := Policy.Policy(map[], map[], map[], map[], map[], map[], [])

  // ---------- Method signatures ----------

  function BaseName(signature: string): string {
    if signature == "" || signature[0] == '(' then "" else [signature[0]] + BaseName(signature[1..])
  }

  function Matches(registry: Registry, abi: string, name: string): set<string> {
    set s | s in SignaturesFor(registry, abi) && BaseName(s) == name
  }

  /** The one signature of that name, if there is exactly one. */
  ghost function SigFor(registry: Registry, abi: string, name: string): (r: Option<string>)
    ensures r.Some? ==> Matches(registry, abi, name) == {r.value}
    ensures r.None? ==> forall s :: Matches(registry, abi, name) != {s}
  {
    if s :| Matches(registry, abi, name) == {s} then Some(s) else None
  }

  // ---------- The tables the rules are built from ----------

  function Abi(r: Role): string {
    match r
    case Claim => "reward_manager"
    case UptimeSubmit => "flare_systems_manager"
    case RewardSubmit => "flare_systems_manager"
    case PolicySubmit => "flare_systems_manager"
    case FastUpdate1 => "fast_updater"
    case FastUpdate2 => "fast_updater"
    case FastUpdate3 => "fast_updater"
    case PriceSubmit => "submission"
    case SignatureSubmit => "submission"
    case RelaySubmit => "relay"
    case VoterSubmit => "voter_registry"
    case ConfirmSubmit => "entity_manager"
    case ConfirmSignatureSubmit => "entity_manager"
    case ConfirmSigning => "entity_manager"
  }

  function MethodNames(r: Role): seq<string> {
    match r
    case Claim => ["claim"]
    case UptimeSubmit => ["signUptimeVote"]
    case RewardSubmit => ["signRewards"]
    case PolicySubmit => ["signNewSigningPolicy"]
    case PriceSubmit => ["submit1", "submit2", "submit3"]
    case SignatureSubmit => ["submitSignatures"]
    case RelaySubmit => ["relay"]
    case VoterSubmit => ["registerVoter"]
    case ConfirmSubmit => ["confirmSubmitAddressRegistration"]
    case ConfirmSignatureSubmit => ["confirmSubmitSignaturesAddressRegistration"]
    case ConfirmSigning => ["confirmSigningPolicyAddressRegistration"]
    case _ => ["submitUpdates"]
  }

  function MessageType(m: SignRole): string {
    match m
    case UptimeSign => UPTIME
    case RewardSign => REWARD_DISTRIBUTION
    case PolicySign => SIGNING_POLICY
    case VoterSign => VOTER_REGISTRATION
    case ProtocolSign => PROTOCOL_PAYLOAD
    case FastUpdateSign => FAST_UPDATE
  }

  /** The wallet that signs the role's transactions. */
  function MainWallet(r: Role): WalletRole {
    match r
    case Claim => Claimer
    case FastUpdate1 => Seat1
    case FastUpdate2 => Seat2
    case FastUpdate3 => Seat3
    case PriceSubmit => PriceWallet
    case SignatureSubmit => SignatureWallet
    case ConfirmSubmit => PriceWallet
    case ConfirmSignatureSubmit => SignatureWallet
    case _ => Signing
  }

  predicate PaidBySender(r: Role) {
    r == UptimeSubmit || r == RewardSubmit
  }

  predicate IsConfirm(r: Role) {
    r == ConfirmSubmit || r == ConfirmSignatureSubmit || r == ConfirmSigning
  }

  function SenderName(req: Request, net: string): string {
    if req.sharedSender then SHARED_SENDER else WalletName(Sender, net)
  }

  function SenderConstraint(req: Request, net: string): string {
    if req.sharedSender then SHARED_SENDER_CONSTRAINT else ConstraintPath(Sender, net)
  }

  function Allowlist(req: Request, r: Role, net: string): seq<string> {
    [WalletName(MainWallet(r), net)] + if PaidBySender(r) then [SenderName(req, net)] else []
  }

  function RoleRate(req: Request, r: Role): RateLimit {
    if r == Claim then req.claimRate else req.fspRate
  }

  function RuleOf(req: Request, r: Role): MethodRule {
    MethodRule("0",
               if r == Claim then [("_recipient", TextScalar(req.recipient.GetOr("")))]
               else if PaidBySender(r) then [("_rewardEpochId", TextScalar("any"))]
               else if IsConfirm(r) then [("_voter", TextScalar(req.identity.GetOr("")))]
               else [],
               !IsConfirm(r))
  }

  function RoleBlock(g: Gen, r: Role, net: string, sigs: seq<string>): PermissionBlock
    requires net in g.table && Abi(r) in g.table[net].addresses
  {
    var spec := g.table[net];
    PermissionBlock(
      [(spec.addresses[Abi(r)], ContractRule(Abi(r), [spec.chainId], map s | s in sigs :: RuleOf(g.req, r)))],
      Allowlist(g.req, r, net), Some(RoleRate(g.req, r)))
  }

  function SignBlock(g: Gen, m: SignRole, net: string): FspPermissionBlock
    requires net in g.table
  {
    FspPermissionBlock([MessageType(m)], [WalletName(Signing, net)], [g.table[net].chainId], Some(g.req.fspRate))
  }

  // ---------- One assignment at a time ----------

  datatype Put =
    | PutCaller(caller: string, callerPath: string)
    | PutWallet(wallet: string, constraint: string, keepOld: bool)
    | PutPermission(path: string, block: PermissionBlock)
    | PutConstraint(constraintPath: string, rate: RateLimit)
    | PutFsp(fspPath: string, fspBlock: FspPermissionBlock)
    | PutSelfSubmit(selfWallet: string)

  function ApplyPut(p: Policy, put: Put): Policy {
    match put
    case PutCaller(n, path) => p.(callers := p.callers[n := CallerBinding(path, None)])
    case PutWallet(w, c, keepOld) => if keepOld && w in p.wallets then p else p.(wallets := p.wallets[w := c])
    case PutPermission(path, b) => p.(permissions := p.permissions[path := b])
    case PutConstraint(c, rate) => p.(walletConstraints :=
      p.walletConstraints[c := WalletConstraint(Some("0"), Some(rate))])
    case PutFsp(path, b) => p.(fspPermissions := p.fspPermissions[path := b])
    case PutSelfSubmit(w) => if w in p.fspSelfSubmit then p else p.(fspSelfSubmit := p.fspSelfSubmit + [w])
  }

  function ApplyAll(p: Policy, puts: seq<Put>): Policy {
    if puts == [] then p else ApplyPut(ApplyAll(p, puts[..|puts| - 1]), puts[|puts| - 1])
  }

  lemma {:induction false} ApplyConcat(p: Policy, a: seq<Put>, b: seq<Put>)
    ensures ApplyAll(p, a + b) == ApplyAll(ApplyAll(p, a), b)
    decreases |b|
  {
    if b == [] {
      assert a + b == a;
    } else {
      assert (a + b)[..|a + b| - 1] == a + b[..|b| - 1];
      ApplyConcat(p, a, b[..|b| - 1]);
    }
  }

  ghost predicate Resolves(g: Gen, r: Role) {
    forall name :: name in MethodNames(r) ==> SigFor(g.registry, Abi(r), name).Some?
  }

  ghost function SigsFrom(g: Gen, abi: string, names: seq<string>): seq<string> {
    if names == [] then []
    else SigsFrom(g, abi, names[..|names| - 1]) + [SigFor(g.registry, abi, names[|names| - 1]).GetOr("")]
  }

  ghost function Sigs(g: Gen, r: Role): seq<string> {
    SigsFrom(g, Abi(r), MethodNames(r))
  }

  /** The network is in the table with the role's contract, and the role's methods are in the registry. */
  ghost predicate Supported(g: Gen, r: Role, net: string) {
    net in g.table && Abi(r) in g.table[net].addresses && Resolves(g, r)
  }

  function WalletPuts(w: WalletRole, net: string, rate: RateLimit): seq<Put> {
    [PutWallet(WalletName(w, net), ConstraintPath(w, net), false), PutConstraint(ConstraintPath(w, net), rate)]
  }

  function SenderPuts(req: Request, net: string): seq<Put> {
    [PutWallet(SenderName(req, net), SenderConstraint(req, net), false),
      PutConstraint(SenderConstraint(req, net), req.fspRate)]
  }

  ghost function SubmitPuts(g: Gen, r: Role, net: string): seq<Put>
    requires Supported(g, r, net)
  {
    [PutCaller(CallerName(Submits(r), net), PermPath(r, net)),
      PutPermission(PermPath(r, net), RoleBlock(g, r, net, Sigs(g, r)))]
  }

  function SignPuts(g: Gen, m: SignRole, net: string): seq<Put>
    requires net in g.table
  {
    [PutCaller(CallerName(Signs(m), net), FspPath(m, net)), PutFsp(FspPath(m, net), SignBlock(g, m, net))]
  }

  ghost function SubmitPutsOf(g: Gen, rs: seq<Role>, net: string): seq<Put>
    requires forall r :: r in rs ==> Supported(g, r, net)
  {
    if rs == [] then [] else SubmitPutsOf(g, rs[..|rs| - 1], net) + SubmitPuts(g, rs[|rs| - 1], net)
  }

  function SignPutsOf(g: Gen, ms: seq<SignRole>, net: string): seq<Put>
    requires net in g.table
  {
    if ms == [] then [] else SignPutsOf(g, ms[..|ms| - 1], net) + SignPuts(g, ms[|ms| - 1], net)
  }

  /** A role with a wallet of its own. */
  ghost function DedicatedPuts(g: Gen, r: Role, net: string): seq<Put>
    requires Supported(g, r, net)
  {
    WalletPuts(MainWallet(r), net, RoleRate(g.req, r)) + SubmitPuts(g, r, net)
  }

  ghost function DedicatedPutsOf(g: Gen, rs: seq<Role>, net: string): seq<Put>
    requires forall r :: r in rs ==> Supported(g, r, net)
  {
    if rs == [] then [] else DedicatedPutsOf(g, rs[..|rs| - 1], net) + DedicatedPuts(g, rs[|rs| - 1], net)
  }

  /** A registration confirm reuses a wallet of the voter rules. */
  ghost function ConfirmPuts(g: Gen, r: Role, net: string): seq<Put>
    requires Supported(g, r, net)
  {
    [PutWallet(WalletName(MainWallet(r), net), ConstraintPath(MainWallet(r), net), true)] + SubmitPuts(g, r, net)
  }

  ghost function ConfirmPutsOf(g: Gen, rs: seq<Role>, net: string): seq<Put>
    requires forall r :: r in rs ==> Supported(g, r, net)
  {
    if rs == [] then [] else ConfirmPutsOf(g, rs[..|rs| - 1], net) + ConfirmPuts(g, rs[|rs| - 1], net)
  }

  const FSP_SIGNS := [UptimeSign, RewardSign]
  const FSP_SUBMITS := [UptimeSubmit, RewardSubmit]
  const VOTER_SIGNS := [PolicySign, VoterSign, ProtocolSign, FastUpdateSign]
  const VOTER_DEDICATED := [FastUpdate1, FastUpdate2, FastUpdate3, PriceSubmit, SignatureSubmit]
  const VOTER_SUBMITS := [RelaySubmit, PolicySubmit, VoterSubmit]
  const CONFIRMS := [ConfirmSubmit, ConfirmSignatureSubmit, ConfirmSigning]

  predicate Wanted(caps: set<Capability>, r: Role) {
    || (r == Claim && ClaimCap in caps)
    || (r in FSP_SUBMITS && FspCap in caps)
    || ((r in VOTER_DEDICATED || r in VOTER_SUBMITS) && VoterCap in caps)
    || (r in CONFIRMS && RegisterCap in caps)
  }

  ghost predicate SupportsAll(g: Gen, net: string) {
    net in g.table && forall r: Role :: Wanted(g.req.capabilities, r) ==> Supported(g, r, net)
  }

  ghost function ClaimPuts(g: Gen, net: string): seq<Put>
    requires Supported(g, Claim, net)
  {
    DedicatedPutsOf(g, [Claim], net)
  }

  ghost function FspPuts(g: Gen, net: string): seq<Put>
    requires net in g.table && forall r :: r in FSP_SUBMITS ==> Supported(g, r, net)
  {
    WalletPuts(Signing, net, g.req.fspRate) + SenderPuts(g.req, net) + SignPutsOf(g, FSP_SIGNS, net)
    + SubmitPutsOf(g, FSP_SUBMITS, net) + [PutSelfSubmit(WalletName(Signing, net))]
  }

  ghost function VoterPuts(g: Gen, net: string): seq<Put>
    requires net in g.table && forall r :: r in VOTER_DEDICATED || r in VOTER_SUBMITS ==> Supported(g, r, net)
  {
    WalletPuts(Signing, net, g.req.fspRate) + [PutSelfSubmit(WalletName(Signing, net))] +
      SignPutsOf(g, VOTER_SIGNS, net)
    + DedicatedPutsOf(g, VOTER_DEDICATED, net) + SubmitPutsOf(g, VOTER_SUBMITS, net)
  }

  ghost function NetPuts(g: Gen, net: string): seq<Put>
    requires SupportsAll(g, net)
  {
    (if ClaimCap in g.req.capabilities then ClaimPuts(g, net) else [])
    + (if FspCap in g.req.capabilities then FspPuts(g, net) else [])
    + (if VoterCap in g.req.capabilities then VoterPuts(g, net) else [])
    + (if RegisterCap in g.req.capabilities then ConfirmPutsOf(g, CONFIRMS, net) else [])
  }

  ghost function RunPuts(g: Gen, nets: seq<string>): seq<Put>
    requires forall n :: n in nets ==> SupportsAll(g, n)
  {
    if nets == [] then [] else RunPuts(g, nets[..|nets| - 1]) + NetPuts(g, nets[|nets| - 1])
  }

  /** The conditions under which a generation succeeds. */
  ghost predicate Accepted(g: Gen) {
    && g.req.networks != [] && g.req.capabilities != {}
    && (ClaimCap in g.req.capabilities ==> g.req.recipient.GetOr("") != "")
    && (RegisterCap in g.req.capabilities ==> g.req.identity.GetOr("") != "")
    && forall n :: n in g.req.networks ==> SupportsAll(g, n)
  }

  /** The generated policy; None stands for the error of a refused request. */
  ghost function Generated(g: Gen): Option<Policy> {
    if Accepted(g) then Some(ApplyAll(EMPTY_POLICY, RunPuts(g, g.req.networks))) else None
  }

  // ---------- The generator as it runs ----------

  method ResolveSignature(registry: Registry, abi: string, name: string) returns (r: Option<string>)
    ensures r == SigFor(registry, abi, name)
  {
    hide BaseName, SignaturesFor, SigFor;
    var matches: set<string> := {};
    var todo := SignaturesFor(registry, abi);
    while todo != {}
      invariant todo <= SignaturesFor(registry, abi)
      invariant matches == set s | s in SignaturesFor(registry, abi) && s !in todo && BaseName(s) == name
      decreases |todo|
    {
      var s :| s in todo;
      todo := todo - {s};
      if BaseName(s) == name {
        matches := matches + {s};
      }
    }
    assert matches == Matches(registry, abi, name);
    SigForCounts(registry, abi, name);
    if |matches| != 1 {
      return None;
    }
    var only :| only in matches;
    r := Some(only);
  }

  lemma SigForCounts(registry: Registry, abi: string, name: string)
    ensures |Matches(registry, abi, name)| != 1 ==> SigFor(registry, abi, name).None?
    ensures |Matches(registry, abi, name)| == 1 ==> forall s :: s in Matches(registry, abi, name) ==>
      SigFor(registry, abi, name) == Some(s)
  {
    var m := Matches(registry, abi, name);
    hide Matches;
    if |m| == 1 {
      var s :| s in m;
      assert |m - {s}| == 0;
      assert m == {s};
    }
  }

  method ResolveNames(g: Gen, abi: string, names: seq<string>) returns (ok: bool, sigs: seq<string>)
    ensures ok == forall name :: name in names ==> SigFor(g.registry, abi, name).Some?
    ensures ok ==> sigs == SigsFrom(g, abi, names)
  {
    hide SigFor;
    sigs := [];
    for i := 0 to |names|
      invariant sigs == SigsFrom(g, abi, names[..i])
      invariant forall name :: name in names[..i] ==> SigFor(g.registry, abi, name).Some?
    {
      var sig := ResolveSignature(g.registry, abi, names[i]);
      if sig == None {
        assert names[i] in names;
        return false, [];
      }
      assert names[..i + 1][..i] == names[..i];
      sigs := sigs + [sig.value];
    }
    assert names[..|names|] == names;
    ok := true;
  }

  method ResolveRole(g: Gen, r: Role) returns (ok: bool, sigs: seq<string>)
    ensures ok == Resolves(g, r)
    ensures ok ==> sigs == Sigs(g, r)
  {
    hide SigFor, SigsFrom, MethodNames, Abi;
    ok, sigs := ResolveNames(g, Abi(r), MethodNames(r));
  }

  method AddSubmit(g: Gen, p: Policy, r: Role, net: string) returns (ok: bool, p': Policy)
    ensures ok == Supported(g, r, net)
    ensures ok ==> p' == ApplyAll(p, SubmitPuts(g, r, net))
  {
    hide RoleBlock, Sigs, Resolves, Abi, PermPath, CallerName;
    p' := p;
    var resolved, sigs := ResolveRole(g, r);
    ok := resolved && net in g.table && Abi(r) in g.table[net].addresses;
    if ok {
      p' := p'.(callers := p'.callers[CallerName(Submits(r), net) := CallerBinding(PermPath(r, net), None)]);
      p' := p'.(permissions := p'.permissions[PermPath(r, net) := RoleBlock(g, r, net, sigs)]);
      ApplyTwo(p, SubmitPuts(g, r, net)[0], SubmitPuts(g, r, net)[1]);
    }
  }

  lemma ApplyTwo(p: Policy, a: Put, b: Put)
    ensures ApplyAll(p, [a]) == ApplyPut(p, a)
    ensures ApplyAll(p, [a, b]) == ApplyPut(ApplyPut(p, a), b)
  {
    assert [a][..0] == [];
    assert [a, b][..1] == [a];
  }

  method AddSubmits(g: Gen, p: Policy, rs: seq<Role>, net: string) returns (ok: bool, p': Policy)
    ensures ok == forall r :: r in rs ==> Supported(g, r, net)
    ensures ok ==> p' == ApplyAll(p, SubmitPutsOf(g, rs, net))
  {
    hide Supported, SubmitPuts;
    ok, p' := true, p;
    for i := 0 to |rs|
      invariant forall r :: r in rs[..i] ==> Supported(g, r, net)
      invariant p' == ApplyAll(p, SubmitPutsOf(g, rs[..i], net))
    {
      var before := p';
      ok, p' := AddSubmit(g, before, rs[i], net);
      if !ok {
        assert rs[i] in rs;
        return;
      }
      assert rs[..i + 1][..i] == rs[..i];
      ApplyConcat(p, SubmitPutsOf(g, rs[..i], net), SubmitPuts(g, rs[i], net));
    }
    assert rs[..|rs|] == rs;
    ok := true;
  }

  method AddSign(g: Gen, p: Policy, m: SignRole, net: string) returns (p': Policy)
    requires net in g.table
    ensures p' == ApplyAll(p, SignPuts(g, m, net))
  {
    p' := p.(callers := p.callers[CallerName(Signs(m), net) := CallerBinding(FspPath(m, net), None)]);
    p' := p'.(fspPermissions := p'.fspPermissions[FspPath(m, net) := SignBlock(g, m, net)]);
    ApplyTwo(p, SignPuts(g, m, net)[0], SignPuts(g, m, net)[1]);
  }

  method AddSigns(g: Gen, p: Policy, ms: seq<SignRole>, net: string) returns (p': Policy)
    requires net in g.table
    ensures p' == ApplyAll(p, SignPutsOf(g, ms, net))
  {
    hide SignPuts;
    p' := p;
    for i := 0 to |ms|
      invariant p' == ApplyAll(p, SignPutsOf(g, ms[..i], net))
    {
      p' := AddSign(g, p', ms[i], net);
      assert ms[..i + 1][..i] == ms[..i];
      ApplyConcat(p, SignPutsOf(g, ms[..i], net), SignPuts(g, ms[i], net));
    }
    assert ms[..|ms|] == ms;
  }

  method AddWallet(p: Policy, w: WalletRole, net: string, rate: RateLimit) returns (p': Policy)
    ensures p' == ApplyAll(p, WalletPuts(w, net, rate))
  {
    p' := p.(wallets := p.wallets[WalletName(w, net) := ConstraintPath(w, net)]);
    p' := p'.(walletConstraints := p'.walletConstraints[ConstraintPath(w, net) :=
      WalletConstraint(Some("0"), Some(rate))]);
    ApplyTwo(p, WalletPuts(w, net, rate)[0], WalletPuts(w, net, rate)[1]);
  }

  method AddSender(req: Request, p: Policy, net: string) returns (p': Policy)
    ensures p' == ApplyAll(p, SenderPuts(req, net))
  {
    p' := p.(wallets := p.wallets[SenderName(req, net) := SenderConstraint(req, net)]);
    p' := p'.(walletConstraints := p'.walletConstraints[SenderConstraint(req, net) :=
      WalletConstraint(Some("0"), Some(req.fspRate))]);
    ApplyTwo(p, SenderPuts(req, net)[0], SenderPuts(req, net)[1]);
  }

  method AddSelfSubmit(p: Policy, w: string) returns (p': Policy)
    ensures p' == ApplyAll(p, [PutSelfSubmit(w)])
  {
    p' := p;
    if w !in p.fspSelfSubmit {
      p' := p.(fspSelfSubmit := p.fspSelfSubmit + [w]);
    }
    ApplyTwo(p, PutSelfSubmit(w), PutSelfSubmit(w));
  }

  method AddDedicatedRole(g: Gen, p: Policy, r: Role, net: string) returns (ok: bool, p': Policy)
    ensures ok == Supported(g, r, net)
    ensures ok ==> p' == ApplyAll(p, DedicatedPuts(g, r, net))
  {
    hide Supported, SubmitPuts, WalletPuts, ApplyAll;
    var withWallet := AddWallet(p, MainWallet(r), net, RoleRate(g.req, r));
    ok, p' := AddSubmit(g, withWallet, r, net);
    if ok {
      ApplyConcat(p, WalletPuts(MainWallet(r), net, RoleRate(g.req, r)), SubmitPuts(g, r, net));
    }
  }

  method AddDedicated(g: Gen, p: Policy, rs: seq<Role>, net: string) returns (ok: bool, p': Policy)
    ensures ok == forall r :: r in rs ==> Supported(g, r, net)
    ensures ok ==> p' == ApplyAll(p, DedicatedPutsOf(g, rs, net))
  {
    hide Supported, DedicatedPuts, ApplyPut;
    ok, p' := true, p;
    for i := 0 to |rs|
      invariant forall r :: r in rs[..i] ==> Supported(g, r, net)
      invariant p' == ApplyAll(p, DedicatedPutsOf(g, rs[..i], net))
    {
      ok, p' := AddDedicatedRole(g, p', rs[i], net);
      if !ok {
        assert rs[i] in rs;
        return;
      }
      assert rs[..i + 1][..i] == rs[..i];
      ApplyConcat(p, DedicatedPutsOf(g, rs[..i], net), DedicatedPuts(g, rs[i], net));
    }
    assert rs[..|rs|] == rs;
    ok := true;
  }

  /** The wallet is bound only if it is not bound yet. */
  method AddConfirm(g: Gen, p: Policy, r: Role, net: string) returns (ok: bool, p': Policy)
    ensures ok == Supported(g, r, net)
    ensures ok ==> p' == ApplyAll(p, ConfirmPuts(g, r, net))
  {
    hide Supported, SubmitPuts, WalletName, ConstraintPath;
    var w, c := WalletName(MainWallet(r), net), ConstraintPath(MainWallet(r), net);
    var withWallet := if w in p.wallets then p else p.(wallets := p.wallets[w := c]);
    ghost var walletPut := PutWallet(w, c, true);
    ApplyTwo(p, walletPut, walletPut);
    hide ApplyAll;
    ok, p' := AddSubmit(g, withWallet, r, net);
    if ok {
      ApplyConcat(p, [walletPut], SubmitPuts(g, r, net));
    }
  }

  method AddConfirms(g: Gen, p: Policy, rs: seq<Role>, net: string) returns (ok: bool, p': Policy)
    ensures ok == forall r :: r in rs ==> Supported(g, r, net)
    ensures ok ==> p' == ApplyAll(p, ConfirmPutsOf(g, rs, net))
  {
    hide Supported, ConfirmPuts, ApplyPut;
    ok, p' := true, p;
    for i := 0 to |rs|
      invariant forall r :: r in rs[..i] ==> Supported(g, r, net)
      invariant p' == ApplyAll(p, ConfirmPutsOf(g, rs[..i], net))
    {
      ok, p' := AddConfirm(g, p', rs[i], net);
      if !ok {
        assert rs[i] in rs;
        return;
      }
      assert rs[..i + 1][..i] == rs[..i];
      ApplyConcat(p, ConfirmPutsOf(g, rs[..i], net), ConfirmPuts(g, rs[i], net));
    }
    assert rs[..|rs|] == rs;
    ok := true;
  }

  method AddFsp(g: Gen, p: Policy, net: string) returns (ok: bool, p': Policy)
    requires net in g.table
    ensures ok == forall r :: r in FSP_SUBMITS ==> Supported(g, r, net)
    ensures ok ==> p' == ApplyAll(p, FspPuts(g, net))
  {
    hide Supported, SubmitPutsOf, SignPutsOf, WalletPuts, SenderPuts, ApplyAll;
    var p1 := AddWallet(p, Signing, net, g.req.fspRate);
    var p2 := AddSender(g.req, p1, net);
    var p3 := AddSigns(g, p2, FSP_SIGNS, net);
    var p4;
    ok, p4 := AddSubmits(g, p3, FSP_SUBMITS, net);
    p' := AddSelfSubmit(p4, WalletName(Signing, net));
    if ok {
      var a, b := WalletPuts(Signing, net, g.req.fspRate), SenderPuts(g.req, net);
      var c := SignPutsOf(g, FSP_SIGNS, net);
      ghost var e := SubmitPutsOf(g, FSP_SUBMITS, net);
      ApplyConcat(p, a, b);
      ApplyConcat(p, a + b, c);
      ApplyConcat(p, a + b + c, e);
      ApplyConcat(p, a + b + c + e, [PutSelfSubmit(WalletName(Signing, net))]);
    }
  }

  method AddVoter(g: Gen, p: Policy, net: string) returns (ok: bool, p': Policy)
    requires net in g.table
    ensures ok == forall r :: r in VOTER_DEDICATED || r in VOTER_SUBMITS ==> Supported(g, r, net)
    ensures ok ==> p' == ApplyAll(p, VoterPuts(g, net))
  {
    hide Supported, SubmitPutsOf, DedicatedPutsOf, SignPutsOf, WalletPuts, ApplyAll;
    var p1 := AddWallet(p, Signing, net, g.req.fspRate);
    var p2 := AddSelfSubmit(p1, WalletName(Signing, net));
    var p3 := AddSigns(g, p2, VOTER_SIGNS, net);
    var ok1, p4 := AddDedicated(g, p3, VOTER_DEDICATED, net);
    var ok2;
    ok2, p' := AddSubmits(g, p4, VOTER_SUBMITS, net);
    ok := ok1 && ok2;
    if ok {
      var a, b := WalletPuts(Signing, net, g.req.fspRate), [PutSelfSubmit(WalletName(Signing, net))];
      var c := SignPutsOf(g, VOTER_SIGNS, net);
      ghost var e := DedicatedPutsOf(g, VOTER_DEDICATED, net);
      ApplyConcat(p, a, b);
      ApplyConcat(p, a + b, c);
      ApplyConcat(p, a + b + c, e);
      ApplyConcat(p, a + b + c + e, SubmitPutsOf(g, VOTER_SUBMITS, net));
    }
  }

  method AddNetwork(g: Gen, p: Policy, net: string) returns (ok: bool, p': Policy)
    ensures ok == SupportsAll(g, net)
    ensures ok ==> p' == ApplyAll(p, NetPuts(g, net))
  {
    hide Supported, DedicatedPutsOf, FspPuts, VoterPuts, ConfirmPutsOf, ApplyAll;
    var caps := g.req.capabilities;
    p' := p;
    if net !in g.table {
      return false, p;
    }
    var ok1, p1 := true, p;
    if ClaimCap in caps {
      ok1, p1 := AddDedicated(g, p, [Claim], net);
    }
    var ok2, p2 := true, p1;
    if FspCap in caps {
      ok2, p2 := AddFsp(g, p1, net);
    }
    var ok3, p3 := true, p2;
    if VoterCap in caps {
      ok3, p3 := AddVoter(g, p2, net);
    }
    var ok4, p4 := true, p3;
    if RegisterCap in caps {
      ok4, p4 := AddConfirms(g, p3, CONFIRMS, net);
    }
    ok, p' := ok1 && ok2 && ok3 && ok4, p4;
    WantedByGroup(g, net);
    if ok {
      NetApplies(g, p, p1, p2, p3, p4, net);
    }
  }

  lemma WantedByGroup(g: Gen, net: string)
    ensures (forall r: Role :: Wanted(g.req.capabilities, r) ==> Supported(g, r, net)) <==>
              && (ClaimCap in g.req.capabilities ==> forall r :: r in [Claim] ==> Supported(g, r, net))
              && (FspCap in g.req.capabilities ==> forall r :: r in FSP_SUBMITS ==> Supported(g, r, net))
              && (VoterCap in g.req.capabilities ==> forall r :: r in VOTER_DEDICATED || r in VOTER_SUBMITS ==>
                   Supported(g, r, net))
              && (RegisterCap in g.req.capabilities ==> forall r :: r in CONFIRMS ==> Supported(g, r, net))
  {
    hide Supported;
  }

  lemma NetApplies(g: Gen, p: Policy, p1: Policy, p2: Policy, p3: Policy, p4: Policy, net: string)
    requires SupportsAll(g, net)
    requires p1 == if ClaimCap in g.req.capabilities then ApplyAll(p, ClaimPuts(g, net)) else p
    requires p2 == if FspCap in g.req.capabilities then ApplyAll(p1, FspPuts(g, net)) else p1
    requires p3 == if VoterCap in g.req.capabilities then ApplyAll(p2, VoterPuts(g, net)) else p2
    requires p4 == if RegisterCap in g.req.capabilities then ApplyAll(p3, ConfirmPutsOf(g, CONFIRMS, net)) else p3
    ensures p4 == ApplyAll(p, NetPuts(g, net))
  {
    var a := if ClaimCap in g.req.capabilities then ClaimPuts(g, net) else [];
    var b := if FspCap in g.req.capabilities then FspPuts(g, net) else [];
    var c := if VoterCap in g.req.capabilities then VoterPuts(g, net) else [];
    var e := if RegisterCap in g.req.capabilities then ConfirmPutsOf(g, CONFIRMS, net) else [];
    hide ClaimPuts, FspPuts, VoterPuts, ConfirmPutsOf, Supported;
    ApplyConcat(p, a, b);
    ApplyConcat(p, a + b, c);
    ApplyConcat(p, a + b + c, e);
  }

  method GeneratePolicy(g: Gen) returns (r: Option<Policy>)
    ensures r == Generated(g)
  {
    hide SupportsAll, NetPuts;
    var caps := g.req.capabilities;
    var nets := g.req.networks;
    if nets == [] || caps == {} {
      return None;
    }
    if ClaimCap in caps && g.req.recipient.GetOr("") == "" {
      return None;
    }
    if RegisterCap in caps && g.req.identity.GetOr("") == "" {
      return None;
    }
    var p := EMPTY_POLICY;
    for i := 0 to |nets|
      invariant forall n :: n in nets[..i] ==> SupportsAll(g, n)
      invariant p == ApplyAll(EMPTY_POLICY, RunPuts(g, nets[..i]))
    {
      var ok, q := AddNetwork(g, p, nets[i]);
      if !ok {
        assert nets[i] in nets;
        return None;
      }
      assert nets[..i + 1][..i] == nets[..i];
      ApplyConcat(EMPTY_POLICY, RunPuts(g, nets[..i]), NetPuts(g, nets[i]));
      p := q;
    }
    assert nets[..|nets|] == nets;
    r := Some(p);
  }

  // ---------- The merge ----------

  function AppendMissing(ws: seq<string>, add: seq<string>): seq<string> {
    if add == [] then ws
    else
      var r := AppendMissing(ws, add[..|add| - 1]);
      if add[|add| - 1] in r then r else r + [add[|add| - 1]]
  }

  /** What `add` sets wins; everything else of `base` stays. */
  function Merge(base: Policy, add: Policy): Policy {
    Policy.Policy(base.callers + add.callers, base.wallets + add.wallets, base.permissions + add.permissions,
                  base.walletConstraints + add.walletConstraints, base.fspPermissions + add.fspPermissions,
                  base.nativeTransfers, AppendMissing(base.fspSelfSubmit, add.fspSelfSubmit))
  }

  method MergePolicies(base: Policy, add: Policy) returns (merged: Policy)
    ensures merged == Merge(base, add)
  {
    merged := base;
    merged := merged.(callers := merged.callers + add.callers);
    merged := merged.(wallets := merged.wallets + add.wallets);
    merged := merged.(permissions := merged.permissions + add.permissions);
    merged := merged.(walletConstraints := merged.walletConstraints + add.walletConstraints);
    merged := merged.(fspPermissions := merged.fspPermissions + add.fspPermissions);
    var ss := base.fspSelfSubmit;
    for i := 0 to |add.fspSelfSubmit|
      invariant ss == AppendMissing(base.fspSelfSubmit, add.fspSelfSubmit[..i])
    {
      assert add.fspSelfSubmit[..i + 1][..i] == add.fspSelfSubmit[..i];
      if add.fspSelfSubmit[i] !in ss {
        ss := ss + [add.fspSelfSubmit[i]];
      }
    }
    assert add.fspSelfSubmit[..|add.fspSelfSubmit|] == add.fspSelfSubmit;
    merged := merged.(fspSelfSubmit := ss);
  }
}
