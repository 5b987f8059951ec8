/** A generation changes no rule of a network it does not name, except a wallet constraint whose path is
    also that of a wallet the run writes: exactly when that happens, shared sender included, and what is then
    there. */
module NetworkIsolation {
  import opened Prelude
  import opened PolicySchema
  import opened PolicyNames
  import opened PolicyInit
  import GeneratedPolicies

  // ---------- Which network an assignment belongs to ----------

  function ConstraintRate(req: Request, w: WalletRole): RateLimit {
    if w == Claimer then req.claimRate else req.fspRate
  }

  /** The wallets whose constraint the run writes for each network it names. */
  predicate Writes(req: Request, w: WalletRole) {
    match w
    case Claimer => ClaimCap in req.capabilities
    case Signing => FspCap in req.capabilities || VoterCap in req.capabilities
    case Sender => FspCap in req.capabilities && !req.sharedSender
    case _ => VoterCap in req.capabilities
  }

  predicate WritesShared(req: Request) {
    FspCap in req.capabilities && req.sharedSender
  }

  ghost predicate Mine(req: Request, n: string, put: Put) {
    match put
    case PutCaller(c, _) => exists role :: c == CallerName(role, n)
    case PutWallet(w, c, _) =>
      || (WritesShared(req) && w == SHARED_SENDER && c == SHARED_SENDER_CONSTRAINT)
      || exists role :: w == WalletName(role, n)
    case PutPermission(path, _) => exists role :: path == PermPath(role, n)
    case PutConstraint(c, rate) =>
      || (WritesShared(req) && c == SHARED_SENDER_CONSTRAINT && rate == req.fspRate)
      || exists role :: Writes(req, role) && c == ConstraintPath(role, n) && rate == ConstraintRate(req, role)
    case PutFsp(path, _) => exists role :: path == FspPath(role, n)
    case PutSelfSubmit(w) => w == WalletName(Signing, n)
  }

  ghost predicate AllMine(req: Request, n: string, puts: seq<Put>) {
    forall i :: 0 <= i < |puts| ==> Mine(req, n, puts[i])
  }

  lemma MineConcat(req: Request, n: string, a: seq<Put>, b: seq<Put>)
    requires AllMine(req, n, a) && AllMine(req, n, b)
    ensures AllMine(req, n, a + b)
  {
    hide Mine;
  }

  lemma NoneMine(req: Request, n: string)
    ensures AllMine(req, n, [])
  {
  }

  lemma SubmitMine(g: Gen, r: Role, n: string)
    requires Supported(g, r, n)
    ensures AllMine(g.req, n, SubmitPuts(g, r, n))
  {
    hide Supported, RoleBlock, CallerName, PermPath, Sigs;
  }

  lemma WalletMine(req: Request, w: WalletRole, n: string)
    requires Writes(req, w)
    ensures AllMine(req, n, WalletPuts(w, n, ConstraintRate(req, w)))
  {
    hide WalletName, ConstraintPath;
  }

  lemma {:induction false} SubmitsMine(g: Gen, rs: seq<Role>, n: string)
    requires forall r :: r in rs ==> Supported(g, r, n)
    ensures AllMine(g.req, n, SubmitPutsOf(g, rs, n))
    decreases |rs|
  {
    hide Supported, SubmitPuts, AllMine;
    if rs != [] {
      SubmitsMine(g, rs[..|rs| - 1], n);
      SubmitMine(g, rs[|rs| - 1], n);
      MineConcat(g.req, n, SubmitPutsOf(g, rs[..|rs| - 1], n), SubmitPuts(g, rs[|rs| - 1], n));
    } else {
      NoneMine(g.req, n);
    }
  }

  lemma {:induction false} SignsMine(g: Gen, ms: seq<SignRole>, n: string)
    requires n in g.table
    ensures AllMine(g.req, n, SignPutsOf(g, ms, n))
    decreases |ms|
  {
    hide FspPath, CallerName, SignBlock;
    if ms != [] {
      var m := ms[|ms| - 1];
      SignsMine(g, ms[..|ms| - 1], n);
      assert AllMine(g.req, n, SignPuts(g, m, n));
      MineConcat(g.req, n, SignPutsOf(g, ms[..|ms| - 1], n), SignPuts(g, m, n));
    }
  }

  lemma {:induction false} DedicatedMine(g: Gen, rs: seq<Role>, n: string)
    requires forall r :: r in rs ==> Supported(g, r, n) && Writes(g.req, MainWallet(r))
    ensures AllMine(g.req, n, DedicatedPutsOf(g, rs, n))
    decreases |rs|
  {
    hide Supported, SubmitPuts, WalletPuts, AllMine;
    if rs != [] {
      var r, shorter := rs[|rs| - 1], rs[..|rs| - 1];
      var a, b := WalletPuts(MainWallet(r), n, RoleRate(g.req, r)), SubmitPuts(g, r, n);
      DedicatedMine(g, shorter, n);
      RoleRateIsWalletRate(g.req, r);
      WalletMine(g.req, MainWallet(r), n);
      SubmitMine(g, r, n);
      MineConcat(g.req, n, a, b);
      MineConcat(g.req, n, DedicatedPutsOf(g, shorter, n), a + b);
    } else {
      NoneMine(g.req, n);
    }
  }

  lemma RoleRateIsWalletRate(req: Request, r: Role)
    ensures RoleRate(req, r) == ConstraintRate(req, MainWallet(r))
  {
  }

  lemma {:induction false} ConfirmsMine(g: Gen, rs: seq<Role>, n: string)
    requires forall r :: r in rs ==> Supported(g, r, n)
    ensures AllMine(g.req, n, ConfirmPutsOf(g, rs, n))
    decreases |rs|
  {
    hide Supported, SubmitPuts, WalletName, ConstraintPath;
    if rs != [] {
      var r, shorter := rs[|rs| - 1], rs[..|rs| - 1];
      var a, b := [PutWallet(WalletName(MainWallet(r), n), ConstraintPath(MainWallet(r), n), true)],
        SubmitPuts(g, r, n);
      ConfirmsMine(g, shorter, n);
      SubmitMine(g, r, n);
      MineConcat(g.req, n, a, b);
      MineConcat(g.req, n, ConfirmPutsOf(g, shorter, n), a + b);
    }
  }

  lemma SelfSubmitMine(req: Request, n: string)
    ensures AllMine(req, n, [PutSelfSubmit(WalletName(Signing, n))])
  {
  }

  lemma SenderMine(req: Request, n: string)
    requires FspCap in req.capabilities
    ensures AllMine(req, n, SenderPuts(req, n))
  {
    hide WalletName, ConstraintPath;
    assert !req.sharedSender ==>
      SenderName(req, n) == WalletName(Sender, n) && SenderConstraint(req, n) == ConstraintPath(Sender, n);
  }

  lemma FspMine(g: Gen, n: string)
    requires n in g.table && forall r :: r in FSP_SUBMITS ==> Supported(g, r, n)
    requires FspCap in g.req.capabilities
    ensures AllMine(g.req, n, FspPuts(g, n))
  {
    hide Supported, AllMine, WalletPuts, SenderPuts, SignPutsOf, SubmitPutsOf;
    var a, b, c := WalletPuts(Signing, n, g.req.fspRate), SenderPuts(g.req, n), SignPutsOf(g, FSP_SIGNS, n);
    WalletMine(g.req, Signing, n);
    SenderMine(g.req, n);
    SelfSubmitMine(g.req, n);
    SignsMine(g, FSP_SIGNS, n);
    SubmitsMine(g, FSP_SUBMITS, n);
    MineConcat(g.req, n, a, b);
    MineConcat(g.req, n, a + b, c);
    MineConcat(g.req, n, a + b + c, SubmitPutsOf(g, FSP_SUBMITS, n));
    MineConcat(g.req, n, a + b + c + SubmitPutsOf(g, FSP_SUBMITS, n), [PutSelfSubmit(WalletName(Signing, n))]);
  }

  lemma VoterMine(g: Gen, n: string)
    requires n in g.table && forall r :: r in VOTER_DEDICATED || r in VOTER_SUBMITS ==> Supported(g, r, n)
    requires VoterCap in g.req.capabilities
    ensures AllMine(g.req, n, VoterPuts(g, n))
  {
    hide Supported, AllMine, WalletPuts, SignPutsOf, SubmitPutsOf, DedicatedPutsOf;
    var a, b, c := WalletPuts(Signing, n, g.req.fspRate), [PutSelfSubmit(WalletName(Signing, n))],
      SignPutsOf(g, VOTER_SIGNS, n);
    var e := DedicatedPutsOf(g, VOTER_DEDICATED, n);
    WalletMine(g.req, Signing, n);
    SelfSubmitMine(g.req, n);
    SignsMine(g, VOTER_SIGNS, n);
    DedicatedMine(g, VOTER_DEDICATED, n);
    SubmitsMine(g, VOTER_SUBMITS, n);
    MineConcat(g.req, n, a, b);
    MineConcat(g.req, n, a + b, c);
    MineConcat(g.req, n, a + b + c, e);
    MineConcat(g.req, n, a + b + c + e, SubmitPutsOf(g, VOTER_SUBMITS, n));
  }

  lemma NetMine(g: Gen, n: string)
    requires SupportsAll(g, n)
    ensures AllMine(g.req, n, NetPuts(g, n))
  {
    hide Supported, AllMine, FspPuts, VoterPuts, ConfirmPutsOf, DedicatedPutsOf;
    var caps := g.req.capabilities;
    var a := if ClaimCap in caps then ClaimPuts(g, n) else [];
    var b := if FspCap in caps then FspPuts(g, n) else [];
    var c := if VoterCap in caps then VoterPuts(g, n) else [];
    var e := if RegisterCap in caps then ConfirmPutsOf(g, CONFIRMS, n) else [];
    NoneMine(g.req, n);
    if ClaimCap in caps { DedicatedMine(g, [Claim], n); }
    if FspCap in caps { FspMine(g, n); }
    if VoterCap in caps { VoterMine(g, n); }
    if RegisterCap in caps { ConfirmsMine(g, CONFIRMS, n); }
    MineConcat(g.req, n, a, b);
    MineConcat(g.req, n, a + b, c);
    MineConcat(g.req, n, a + b + c, e);
  }

  // ---------- Every key of a generated policy belongs to a named network ----------

  ghost predicate OwnKeys(req: Request, nets: seq<string>, p: Policy) {
    && (forall c :: c in p.callers ==> exists n, role :: n in nets && c == CallerName(role, n))
    && (forall w :: w in p.wallets ==>
          || (WritesShared(req) && w == SHARED_SENDER && p.wallets[w] == SHARED_SENDER_CONSTRAINT)
          || exists n, role :: n in nets && w == WalletName(role, n))
    && (forall path :: path in p.permissions ==> exists n, role :: n in nets && path == PermPath(role, n))
    && (forall c :: c in p.walletConstraints ==>
          || (WritesShared(req) && c == SHARED_SENDER_CONSTRAINT &&
               p.walletConstraints[c] == WalletConstraint(Some("0"), Some(req.fspRate)))
          || exists n, role :: n in nets && Writes(req, role) && c == ConstraintPath(role, n)
                               && p.walletConstraints[c] ==
                                  WalletConstraint(Some("0"), Some(ConstraintRate(req, role))))
    && (forall path :: path in p.fspPermissions ==> exists n, role :: n in nets && path == FspPath(role, n))
    && (forall w :: w in p.fspSelfSubmit ==> exists n :: n in nets && w == WalletName(Signing, n))
  }

  lemma ApplyOwn(req: Request, nets: seq<string>, p: Policy, put: Put, n: string)
    requires OwnKeys(req, nets, p) && n in nets && Mine(req, n, put)
    ensures OwnKeys(req, nets, ApplyPut(p, put))
  {
    hide CallerName, WalletName, PermPath, ConstraintPath, FspPath;
  }

  lemma {:induction false} ApplyAllOwn(req: Request, nets: seq<string>, p: Policy, puts: seq<Put>, n: string)
    requires OwnKeys(req, nets, p) && n in nets && AllMine(req, n, puts)
    ensures OwnKeys(req, nets, ApplyAll(p, puts))
    decreases |puts|
  {
    hide OwnKeys, Mine, ApplyPut;
    if puts != [] {
      ApplyAllOwn(req, nets, p, puts[..|puts| - 1], n);
      ApplyOwn(req, nets, ApplyAll(p, puts[..|puts| - 1]), puts[|puts| - 1], n);
    }
  }

  lemma {:induction false} RunOwn(g: Gen, nets: seq<string>, all: seq<string>)
    requires (forall n :: n in nets ==> SupportsAll(g, n)) && forall n :: n in nets ==> n in all
    ensures OwnKeys(g.req, all, ApplyAll(EMPTY_POLICY, RunPuts(g, nets)))
    decreases |nets|
  {
    hide SupportsAll, NetPuts, AllMine;
    if nets != [] {
      var n, shorter := nets[|nets| - 1], nets[..|nets| - 1];
      RunOwn(g, shorter, all);
      NetMine(g, n);
      ApplyConcat(EMPTY_POLICY, RunPuts(g, shorter), NetPuts(g, n));
      hide OwnKeys, ApplyAll;
      ApplyAllOwn(g.req, all, ApplyAll(EMPTY_POLICY, RunPuts(g, shorter)), NetPuts(g, n), n);
    }
  }

  // ---------- Isolation ----------

  predicate Same<V(==)>(m: map<string, V>, m': map<string, V>, k: string) {
    (k in m <==> k in m') && (k in m ==> m[k] == m'[k])
  }

  lemma SharedSenderBound(req: Request, nets: seq<string>, p: Policy)
    requires OwnKeys(req, nets, p) && SHARED_SENDER in p.wallets
    ensures WritesShared(req) && p.wallets[SHARED_SENDER] == SHARED_SENDER_CONSTRAINT
  {
    hide WalletName, CallerName, PermPath, ConstraintPath, FspPath;
    forall n, role ensures WalletName(role, n) != SHARED_SENDER {
      SharedSenderDistinct(role, n);
    }
  }

  /** Callers, wallets, permissions and FSP permissions of a network the run does not name stay exactly as
      they were, and so does its opt-in to the carve-out. A shared sender that is bound to its own constraint
      stays bound to it. */
  lemma UnnamedNetworkKeepsRules(g: Gen, base: Policy, n: string, caller: CallerRole, role: Role, sign: SignRole,
                                 w: WalletRole)
    requires Generated(g).Some? && n !in g.req.networks
    ensures var q := Merge(base, Generated(g).value);
            && Same(base.callers, q.callers, CallerName(caller, n))
            && Same(base.permissions, q.permissions, PermPath(role, n))
            && Same(base.fspPermissions, q.fspPermissions, FspPath(sign, n))
            && Same(base.wallets, q.wallets, WalletName(w, n))
            && (WalletName(Signing, n) in q.fspSelfSubmit <==> WalletName(Signing, n) in base.fspSelfSubmit)
            && (SHARED_SENDER in base.wallets && base.wallets[SHARED_SENDER] == SHARED_SENDER_CONSTRAINT ==>
                  Same(base.wallets, q.wallets, SHARED_SENDER))
  {
    hide SupportsAll, RunPuts, ApplyAll, CallerName, WalletName, PermPath, FspPath, ConstraintPath;
    var add := Generated(g).value;
    RunOwn(g, g.req.networks, g.req.networks);
    hide Generated;
    if CallerName(caller, n) in add.callers {
      var n', role' :| n' in g.req.networks && CallerName(caller, n) == CallerName(role', n');
      CallerNameInjective(caller, n, role', n');
    }
    if PermPath(role, n) in add.permissions {
      var n', role' :| n' in g.req.networks && PermPath(role, n) == PermPath(role', n');
      PermPathInjective(role, n, role', n');
    }
    if FspPath(sign, n) in add.fspPermissions {
      var n', role' :| n' in g.req.networks && FspPath(sign, n) == FspPath(role', n');
      FspPathInjective(sign, n, role', n');
    }
    SharedSenderDistinct(w, n);
    if SHARED_SENDER in add.wallets {
      SharedSenderBound(g.req, g.req.networks, add);
    }
    if WalletName(w, n) in add.wallets {
      var n', role' :| n' in g.req.networks && WalletName(w, n) == WalletName(role', n');
      WalletNameInjective(w, n, role', n');
    }
    if WalletName(Signing, n) in add.fspSelfSubmit {
      var n' :| n' in g.req.networks && WalletName(Signing, n) == WalletName(Signing, n');
      WalletNameInjective(Signing, n, Signing, n');
    }
    GeneratedPolicies.AppendMissingHas(base.fspSelfSubmit, add.fspSelfSubmit);
  }

  // ---------- Wallet constraints ----------

  /** The constraint paths the run writes. */
  ghost predicate WrittenPath(req: Request, c: string) {
    || (WritesShared(req) && c == SHARED_SENDER_CONSTRAINT)
    || exists m, w :: m in req.networks && Writes(req, w) && c == ConstraintPath(w, m)
  }

  lemma FspWrites(g: Gen, n: string, p: Policy)
    requires SupportsAll(g, n) && GeneratedPolicies.HasAll(p, NetPuts(g, n)) && FspCap in g.req.capabilities
    ensures ConstraintPath(Signing, n) in p.walletConstraints
    ensures SenderConstraint(g.req, n) in p.walletConstraints && SenderName(g.req, n) in p.wallets
  {
    hide Supported, GeneratedPolicies.HasAll, WalletPuts, SenderPuts, SubmitPutsOf, SignPutsOf, VoterPuts, ClaimPuts,
      ConfirmPutsOf, ConstraintPath;
    var caps := g.req.capabilities;
    var a := if ClaimCap in caps then ClaimPuts(g, n) else [];
    var c := if VoterCap in caps then VoterPuts(g, n) else [];
    var e := if RegisterCap in caps then ConfirmPutsOf(g, CONFIRMS, n) else [];
    GeneratedPolicies.Split(g.registry, p, a + FspPuts(g, n) + c, e);
    GeneratedPolicies.Split(g.registry, p, a + FspPuts(g, n), c);
    GeneratedPolicies.Split(g.registry, p, a, FspPuts(g, n));
    var x, y, z := WalletPuts(Signing, n, g.req.fspRate), SenderPuts(g.req, n), SignPutsOf(g, FSP_SIGNS, n);
    var u, v := SubmitPutsOf(g, FSP_SUBMITS, n), [PutSelfSubmit(WalletName(Signing, n))];
    GeneratedPolicies.Split(g.registry, p, x + y + z + u, v);
    GeneratedPolicies.Split(g.registry, p, x + y + z, u);
    GeneratedPolicies.Split(g.registry, p, x + y, z);
    GeneratedPolicies.Split(g.registry, p, x, y);
    GeneratedPolicies.WalletHas(Signing, n, g.req.fspRate, p);
    SenderWrites(g.req, n, p);
  }

  lemma SenderWrites(req: Request, n: string, p: Policy)
    requires GeneratedPolicies.HasAll(p, SenderPuts(req, n))
    ensures SenderConstraint(req, n) in p.walletConstraints && SenderName(req, n) in p.wallets
  {
    assert GeneratedPolicies.Has(p, SenderPuts(req, n)[0]) && GeneratedPolicies.Has(p, SenderPuts(req, n)[1]);
  }

  lemma ClaimWrites(g: Gen, n: string, p: Policy)
    requires SupportsAll(g, n) && GeneratedPolicies.HasAll(p, NetPuts(g, n)) && ClaimCap in g.req.capabilities
    ensures ConstraintPath(Claimer, n) in p.walletConstraints
  {
    hide Supported, GeneratedPolicies.HasAll, FspPuts, VoterPuts, ConfirmPutsOf, DedicatedPutsOf, ConstraintPath;
    var caps := g.req.capabilities;
    var b := if FspCap in caps then FspPuts(g, n) else [];
    var c := if VoterCap in caps then VoterPuts(g, n) else [];
    var e := if RegisterCap in caps then ConfirmPutsOf(g, CONFIRMS, n) else [];
    GeneratedPolicies.Split(g.registry, p, ClaimPuts(g, n) + b + c, e);
    GeneratedPolicies.Split(g.registry, p, ClaimPuts(g, n) + b, c);
    GeneratedPolicies.Split(g.registry, p, ClaimPuts(g, n), b);
    GeneratedPolicies.DedicatedHave(g, [Claim], n, p);
    assert Claim in [Claim];
  }

  lemma VoterWrites(g: Gen, n: string, p: Policy)
    requires SupportsAll(g, n) && GeneratedPolicies.HasAll(p, NetPuts(g, n)) && VoterCap in g.req.capabilities
    ensures forall w :: w in [Signing, Seat1, Seat2, Seat3, PriceWallet, SignatureWallet] ==>
      ConstraintPath(w, n) in p.walletConstraints
  {
    hide Supported, GeneratedPolicies.HasAll, WalletPuts, SubmitPutsOf, SignPutsOf, DedicatedPutsOf, ConstraintPath,
      NetPuts;
    GeneratedPolicies.NetHasVoter(g, n, p);
    var a, b, c := WalletPuts(Signing, n, g.req.fspRate), [PutSelfSubmit(WalletName(Signing, n))],
      SignPutsOf(g, VOTER_SIGNS, n);
    var e, f := DedicatedPutsOf(g, VOTER_DEDICATED, n), SubmitPutsOf(g, VOTER_SUBMITS, n);
    GeneratedPolicies.Split(g.registry, p, a, b);
    GeneratedPolicies.Split(g.registry, p, a + b, c);
    GeneratedPolicies.Split(g.registry, p, a + b + c, e);
    GeneratedPolicies.Split(g.registry, p, a + b + c + e, f);
    GeneratedPolicies.WalletHas(Signing, n, g.req.fspRate, p);
    GeneratedPolicies.DedicatedHave(g, VOTER_DEDICATED, n, p);
    forall w | w in [Seat1, Seat2, Seat3, PriceWallet, SignatureWallet]
      ensures ConstraintPath(w, n) in p.walletConstraints {
      var r := DedicatedRole(w);
      assert r in VOTER_DEDICATED && MainWallet(r) == w;
    }
  }

  function DedicatedRole(w: WalletRole): Role {
    match w
    case Seat1 => FastUpdate1
    case Seat2 => FastUpdate2
    case Seat3 => FastUpdate3
    case PriceWallet => PriceSubmit
    case _ => SignatureSubmit
  }

  lemma NamedIsWritten(g: Gen, m: string, w: WalletRole)
    requires Generated(g).Some? && m in g.req.networks && Writes(g.req, w)
    ensures ConstraintPath(w, m) in Generated(g).value.walletConstraints
  {
    hide RunPuts, ApplyAll, ConstraintPath, NetPuts, GeneratedPolicies.HasAll, SupportsAll;
    var add := Generated(g).value;
    GeneratedPolicies.ApplyAllHas(EMPTY_POLICY, RunPuts(g, g.req.networks));
    GeneratedPolicies.RunHasNet(g, g.req.networks, m, add);
    if ClaimCap in g.req.capabilities { ClaimWrites(g, m, add); }
    if FspCap in g.req.capabilities { FspWrites(g, m, add); }
    if VoterCap in g.req.capabilities { VoterWrites(g, m, add); }
  }

  lemma SharedIsWritten(g: Gen)
    requires Generated(g).Some? && WritesShared(g.req)
    ensures SHARED_SENDER_CONSTRAINT in Generated(g).value.walletConstraints
    ensures SHARED_SENDER in Generated(g).value.wallets
  {
    hide RunPuts, ApplyAll, ConstraintPath, NetPuts, GeneratedPolicies.HasAll, SupportsAll;
    var add, m := Generated(g).value, g.req.networks[0];
    GeneratedPolicies.ApplyAllHas(EMPTY_POLICY, RunPuts(g, g.req.networks));
    GeneratedPolicies.RunHasNet(g, g.req.networks, m, add);
    FspWrites(g, m, add);
  }

  /** Exactly the constraints a successful run writes. */
  lemma WrittenConstraints(g: Gen, c: string)
    requires Generated(g).Some?
    ensures c in Generated(g).value.walletConstraints <==> WrittenPath(g.req, c)
  {
    RunOwn(g, g.req.networks, g.req.networks);
    hide SupportsAll, RunPuts, ApplyAll, CallerName, WalletName, PermPath, FspPath, ConstraintPath, Writes;
    if WritesShared(g.req) {
      SharedIsWritten(g);
    }
    forall m, w | m in g.req.networks && Writes(g.req, w)
      ensures ConstraintPath(w, m) in Generated(g).value.walletConstraints {
      NamedIsWritten(g, m, w);
    }
  }

  /** The wallets whose constraints the rules of a network use: one of its own, or the sender all networks
      share. */
  datatype Constrained = Own(w: WalletRole) | SharedSender

  function PathOf(x: Constrained, n: string): string {
    match x
    case Own(w) => ConstraintPath(w, n)
    case SharedSender => SHARED_SENDER_CONSTRAINT
  }

  /** Some constraint the run writes lies on the path of wallet `w` of the unnamed network `n`: the shared
      sender's on the signing wallet of a network called "sender"; or one of the two networks is called like
      a dedicated wallet of the other. */
  ghost predicate OwnClashes(req: Request, w: WalletRole, n: string) {
    || (WritesShared(req) && w == Signing && n == "sender")
    || (exists m, v :: m in req.networks && Writes(req, v) && w == Signing && Shadows(n, v, m))
    || (Writes(req, Signing) && exists m :: m in req.networks && Shadows(m, w, n))
  }

  /** The shared sender's constraint is written by every run that shares it, and by a run for a network
      called "sender". */
  ghost predicate Clashes(req: Request, x: Constrained, n: string) {
    match x
    case Own(w) => OwnClashes(req, w, n)
    case SharedSender => WritesShared(req) || (Writes(req, Signing) && "sender" in req.networks)
  }

  lemma SharedPathIs(w: WalletRole, n: string)
    ensures ConstraintPath(w, n) == SHARED_SENDER_CONSTRAINT <==> w == Signing && n == "sender"
  {
    assert SHARED_SENDER_CONSTRAINT == ConstraintPath(Signing, "sender") by {
      assert "wc/fsp-sender" == "wc/fsp-" + "sender";
    }
    ConstraintPathClash(w, n, Signing, "sender");
    if Shadows("sender", w, n) {
      TailIsNotSender(w, n);
    }
  }

  lemma TailIsNotSender(w: WalletRole, n: string)
    requires Tail(w).Some?
    ensures Tail(w).value + n != "sender"
  {
    var t := Tail(w).value + n;
    assert w == Sender ==> |t| >= 7;
    assert w == PriceWallet ==> t[1] == 'u';
    assert w == SignatureWallet ==> t[1] == 'i';
    assert "sender"[1] == 'e';
  }

  /** Wallet constraints of an unnamed network: a path is written exactly when it clashes. */
  lemma OwnWrittenIff(req: Request, w: WalletRole, n: string)
    requires n !in req.networks
    ensures WrittenPath(req, ConstraintPath(w, n)) <==> OwnClashes(req, w, n)
  {
    hide ConstraintPath, Writes, Shadows;
    SharedPathIs(w, n);
    forall m, v ensures m in req.networks ==>
      (ConstraintPath(w, n) == ConstraintPath(v, m) <==>
        (w == Signing && Shadows(n, v, m)) || (v == Signing && Shadows(m, w, n)))
    {
      ConstraintPathClash(w, n, v, m);
    }
  }

  lemma SharedWrittenIff(req: Request)
    ensures WrittenPath(req, SHARED_SENDER_CONSTRAINT) <==>
      WritesShared(req) || (Writes(req, Signing) && "sender" in req.networks)
  {
    hide ConstraintPath, Writes;
    forall m, v ensures ConstraintPath(v, m) == SHARED_SENDER_CONSTRAINT <==> v == Signing && m == "sender" {
      SharedPathIs(v, m);
    }
    if Writes(req, Signing) && "sender" in req.networks {
      assert ConstraintPath(Signing, "sender") == SHARED_SENDER_CONSTRAINT;
    }
  }

  lemma UnnamedWrittenIff(req: Request, x: Constrained, n: string)
    requires n !in req.networks
    ensures WrittenPath(req, PathOf(x, n)) <==> Clashes(req, x, n)
  {
    hide WrittenPath, OwnClashes, WritesShared, Writes;
    match x {
      case Own(w) => OwnWrittenIff(req, w, n);
      case SharedSender => SharedWrittenIff(req);
    }
  }

  /** A run leaves a constraint that an unnamed network uses as it was, in every policy it is merged into,
      exactly when there is no clash. */
  lemma UnnamedNetworkKeepsConstraints(g: Gen, n: string, x: Constrained)
    requires Generated(g).Some? && n !in g.req.networks
    ensures (forall base: Policy :: Same(base.walletConstraints, Merge(base, Generated(g).value).walletConstraints,
      PathOf(x, n)))
       <==> !Clashes(g.req, x, n)
  {
    hide Generated, PathOf, Clashes;
    WrittenConstraints(g, PathOf(x, n));
    UnnamedWrittenIff(g.req, x, n);
    hide WrittenPath;
    if Clashes(g.req, x, n) {
      assert !Same(EMPTY_POLICY.walletConstraints, Merge(EMPTY_POLICY, Generated(g).value).walletConstraints,
        PathOf(x, n));
    }
  }

  /** The binding of the shared sender itself survives in every policy exactly when the run does not share its
      sender; where it is bound to its own constraint it always does (`UnnamedNetworkKeepsRules`). */
  lemma SharedBindingIff(g: Gen)
    requires Generated(g).Some?
    ensures (forall base: Policy :: Same(base.wallets, Merge(base, Generated(g).value).wallets, SHARED_SENDER)) <==>
      !WritesShared(g.req)
  {
    var add := Generated(g).value;
    RunOwn(g, g.req.networks, g.req.networks);
    hide SupportsAll, RunPuts, ApplyAll, OwnKeys, Generated;
    if WritesShared(g.req) {
      SharedIsWritten(g);
      assert !Same(EMPTY_POLICY.wallets, Merge(EMPTY_POLICY, add).wallets, SHARED_SENDER);
    } else if SHARED_SENDER in add.wallets {
      SharedSenderBound(g.req, g.req.networks, add);
    }
  }

  /** What the rules of a network use when it was generated with or without a shared sender. */
  predicate UsedBy(x: Constrained, shared: bool) {
    match x
    case Own(w) => w == Sender ==> !shared
    case SharedSender => shared
  }

  /** A run leaves everything an unnamed network is constrained by as it was exactly when nothing of it
      clashes; in particular never when both share their sender. */
  lemma UnnamedNetworkIsolated(g: Gen, n: string, shared: bool)
    requires Generated(g).Some? && n !in g.req.networks
    ensures (forall base: Policy, x :: UsedBy(x, shared) ==>
               Same(base.walletConstraints, Merge(base, Generated(g).value).walletConstraints, PathOf(x, n)))
       <==> forall x :: UsedBy(x, shared) ==> !Clashes(g.req, x, n)
    ensures shared && WritesShared(g.req) ==> Clashes(g.req, SharedSender, n) && UsedBy(SharedSender, shared)
  {
    hide Generated, PathOf, OwnClashes, Merge, Writes;
    forall x ensures (forall base: Policy ::
        Same(base.walletConstraints, Merge(base, Generated(g).value).walletConstraints, PathOf(x, n))) <==>
          !Clashes(g.req, x, n)
    {
      UnnamedNetworkKeepsConstraints(g, n, x);
    }
    hide Clashes, Same;
  }

  /** The constraint of a signing wallet carries the FSP rate of the run that wrote it. */
  lemma SigningConstraintValue(req: Request, nets: seq<string>, p: Policy, m: string)
    requires OwnKeys(req, nets, p) && ConstraintPath(Signing, m) in p.walletConstraints
    ensures p.walletConstraints[ConstraintPath(Signing, m)] == WalletConstraint(Some("0"), Some(req.fspRate))
  {
    hide CallerName, WalletName, PermPath, FspPath, ConstraintPath, Writes;
    var c := ConstraintPath(Signing, m);
    forall n, role | n in nets && c == ConstraintPath(role, n) ensures ConstraintRate(req, role) == req.fspRate {
      ConstraintPathClash(Signing, m, role, n);
    }
  }

  lemma ClashIsNotClaimer(x: Constrained, n: string, v: WalletRole, m: string)
    requires PathOf(x, n) == ConstraintPath(v, m) && (x.Own? ==> n != m)
    ensures v != Claimer
  {
    hide ConstraintPath;
    match x {
      case Own(w) => ConstraintPathClash(w, n, v, m);
      case SharedSender => SharedPathIs(v, m);
    }
  }

  /** And a clash puts the run's own FSP rate there. */
  lemma ShadowOverwrites(g: Gen, base: Policy, n: string, x: Constrained)
    requires Generated(g).Some? && n !in g.req.networks && Clashes(g.req, x, n)
    ensures var q := Merge(base, Generated(g).value);
            && PathOf(x, n) in q.walletConstraints
            && q.walletConstraints[PathOf(x, n)] == WalletConstraint(Some("0"), Some(g.req.fspRate))
  {
    WrittenConstraints(g, PathOf(x, n));
    UnnamedWrittenIff(g.req, x, n);
    RunOwn(g, g.req.networks, g.req.networks);
    hide SupportsAll, RunPuts, ApplyAll, CallerName, WalletName, PermPath, FspPath, ConstraintPath, PathOf, Writes,
      WrittenPath, Clashes;
    forall m, v | m in g.req.networks && PathOf(x, n) == ConstraintPath(v, m)
      ensures ConstraintRate(g.req, v) == g.req.fspRate {
      ClashIsNotClaimer(x, n, v, m);
    }
  }

  /** Names that begin like no dedicated FSP wallet never clash, except through a shared sender. */
  lemma PlainNetworksDoNotClash(req: Request, x: Constrained, n: string)
    requires Plain(n) && forall m :: m in req.networks ==> Plain(m)
    ensures Clashes(req, x, n) <==> x == SharedSender && WritesShared(req)
  {
    assert forall v: WalletRole, m: string :: Tail(v).Some? ==> Tail(v).value <= Tail(v).value + m;
    assert "sender" !in req.networks by { assert !Plain("sender"); }
    hide Writes;
  }
}
