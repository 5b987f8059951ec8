/** What every policy built by generation and merging satisfies: its rules are well formed, refer only to
    what is there, and so pass the consistency check. `NetworkIsolation` says what a run leaves alone. */
module GeneratedPolicies {
  import opened Prelude
  import opened PolicySchema
  import opened FspMessage
  import opened PolicyNames
  import opened PolicyInit
  import opened PolicyLoader

  // ---------- One entry at a time ----------

  /** A block of role `r` for `net`: one contract, only the role's own registered methods, all without
      value, and the role's wallets. */
  ghost predicate IsRoleBlock(registry: Registry, r: Role, net: string, path: string, b: PermissionBlock) {
    && path == PermPath(r, net) && |b.contracts| == 1
    && b.contracts[0].1.abi == Abi(r) && Abi(r) in registry
    && (forall s :: s in b.contracts[0].1.methods ==>
          && b.contracts[0].1.methods[s].maxValueWei == "0"
          && exists name :: name in MethodNames(r) && Matches(registry, Abi(r), name) == {s})
    && WalletName(MainWallet(r), net) in b.walletAllowlist
    && (forall w :: w in b.walletAllowlist ==>
          || w == WalletName(MainWallet(r), net)
          || (PaidBySender(r) && (w == SHARED_SENDER || w == WalletName(Sender, net))))
  }

  ghost predicate SomeRoleBlock(registry: Registry, path: string, b: PermissionBlock) {
    exists r, net :: IsRoleBlock(registry, r, net, path, b)
  }

  predicate IsSignBlock(m: SignRole, net: string, path: string, b: FspPermissionBlock) {
    path == FspPath(m, net) && b.walletAllowlist == [WalletName(Signing, net)] && b.messageTypes == [MessageType(m)]
  }

  ghost predicate SomeSignBlock(path: string, b: FspPermissionBlock) {
    exists m, net :: IsSignBlock(m, net, path, b)
  }

  /** A self-submitting wallet is bound, submits somewhere and signs somewhere. */
  ghost predicate Backed(q: Policy, w: string, net: string) {
    && w == WalletName(Signing, net) && w in q.wallets
    && (PermPath(UptimeSubmit, net) in q.permissions || PermPath(RelaySubmit, net) in q.permissions)
    && (FspPath(UptimeSign, net) in q.fspPermissions || FspPath(PolicySign, net) in q.fspPermissions)
  }

  predicate GoodCaller(q: Policy, c: CallerBinding) {
    c.capabilityId.None? && (c.policyPath in q.permissions || c.policyPath in q.fspPermissions)
  }

  /** A wallet is bound to the constraint of its own role and network. */
  ghost predicate Bound(w: string, c: string) {
    || (exists role, net :: w == WalletName(role, net) && c == ConstraintPath(role, net))
    || (w == SHARED_SENDER && c == SHARED_SENDER_CONSTRAINT)
  }

  ghost predicate GoodWallet(q: Policy, w: string, c: string) {
    Bound(w, c) && c in q.walletConstraints
  }

  ghost predicate GoodPermission(registry: Registry, q: Policy, path: string, b: PermissionBlock) {
    SomeRoleBlock(registry, path, b) && forall w :: w in b.walletAllowlist ==> w in q.wallets
  }

  ghost predicate GoodFsp(q: Policy, path: string, b: FspPermissionBlock) {
    SomeSignBlock(path, b) && forall w :: w in b.walletAllowlist ==> w in q.wallets && w in q.fspSelfSubmit
  }

  ghost predicate GoodSelfSubmit(q: Policy, w: string) {
    exists net :: Backed(q, w, net)
  }

  /** Every entry of `p` is well formed and refers only to what `q` has. */
  ghost predicate Good(registry: Registry, p: Policy, q: Policy) {
    && (forall n :: n in p.callers ==> GoodCaller(q, p.callers[n]))
    && (forall w :: w in p.wallets ==> GoodWallet(q, w, p.wallets[w]))
    && (forall path :: path in p.permissions ==> GoodPermission(registry, q, path, p.permissions[path]))
    && (forall path :: path in p.fspPermissions ==> GoodFsp(q, path, p.fspPermissions[path]))
    && (forall w :: w in p.fspSelfSubmit ==> GoodSelfSubmit(q, w))
    && p.nativeTransfers == map[]
  }

  ghost predicate GoodPut(registry: Registry, put: Put, q: Policy) {
    match put
    case PutCaller(_, path) => GoodCaller(q, CallerBinding(path, None))
    case PutWallet(w, c, _) => GoodWallet(q, w, c)
    case PutPermission(path, b) => GoodPermission(registry, q, path, b)
    case PutConstraint(_, _) => true
    case PutFsp(path, b) => GoodFsp(q, path, b)
    case PutSelfSubmit(w) => GoodSelfSubmit(q, w)
  }

  ghost predicate AllGood(registry: Registry, puts: seq<Put>, q: Policy) {
    forall i :: 0 <= i < |puts| ==> GoodPut(registry, puts[i], q)
  }

  lemma ApplyGood(registry: Registry, p: Policy, put: Put, q: Policy)
    requires Good(registry, p, q) && GoodPut(registry, put, q)
    ensures Good(registry, ApplyPut(p, put), q)
  {
    hide GoodCaller, GoodWallet, GoodPermission, GoodFsp, GoodSelfSubmit;
  }

  lemma {:induction false} ApplyAllGood(registry: Registry, p: Policy, puts: seq<Put>, q: Policy)
    requires Good(registry, p, q) && AllGood(registry, puts, q)
    ensures Good(registry, ApplyAll(p, puts), q)
    decreases |puts|
  {
    hide Good, GoodPut;
    if puts != [] {
      ApplyAllGood(registry, p, puts[..|puts| - 1], q);
      ApplyGood(registry, ApplyAll(p, puts[..|puts| - 1]), puts[|puts| - 1], q);
    }
  }

  // ---------- What was put is there ----------

  predicate Has(q: Policy, put: Put) {
    match put
    case PutCaller(n, _) => n in q.callers
    case PutWallet(w, _, _) => w in q.wallets
    case PutPermission(path, _) => path in q.permissions
    case PutConstraint(c, _) => c in q.walletConstraints
    case PutFsp(path, _) => path in q.fspPermissions
    case PutSelfSubmit(w) => w in q.fspSelfSubmit
  }

  /** `q` has every key of `p`. */
  predicate HasKeysOf(q: Policy, p: Policy) {
    && p.callers.Keys <= q.callers.Keys && p.wallets.Keys <= q.wallets.Keys && p.permissions.Keys <= q.permissions.Keys
    && p.walletConstraints.Keys <= q.walletConstraints.Keys && p.fspPermissions.Keys <= q.fspPermissions.Keys
    && (forall w :: w in p.fspSelfSubmit ==> w in q.fspSelfSubmit)
  }

  ghost predicate HasAll(q: Policy, puts: seq<Put>) {
    forall i :: 0 <= i < |puts| ==> Has(q, puts[i])
  }

  lemma ApplyHas(p: Policy, put: Put)
    ensures Has(ApplyPut(p, put), put) && HasKeysOf(ApplyPut(p, put), p)
  {
  }

  lemma {:induction false} ApplyAllHas(p: Policy, puts: seq<Put>)
    ensures HasAll(ApplyAll(p, puts), puts)
    decreases |puts|
  {
    if puts != [] {
      var shorter := puts[..|puts| - 1];
      var before := ApplyAll(p, shorter);
      ApplyAllHas(p, shorter);
      ApplyHas(before, puts[|puts| - 1]);
      ContainsHas(ApplyPut(before, puts[|puts| - 1]), before, shorter);
      assert ApplyAll(p, puts) == ApplyPut(before, puts[|puts| - 1]);
      hide Has, ApplyPut, ApplyAll;
      forall i | 0 <= i < |puts| ensures Has(ApplyPut(before, puts[|puts| - 1]), puts[i]) {
        assert i < |shorter| ==> puts[i] == shorter[i];
      }
    }
  }

  lemma ContainsHas(q: Policy, p: Policy, puts: seq<Put>)
    requires HasKeysOf(q, p) && HasAll(p, puts)
    ensures HasAll(q, puts)
  {
    forall i | 0 <= i < |puts| ensures Has(q, puts[i]) {
      assert Has(p, puts[i]);
    }
  }

  lemma ContainsGood(registry: Registry, p: Policy, q: Policy, q': Policy)
    requires Good(registry, p, q) && HasKeysOf(q', q)
    ensures Good(registry, p, q')
  {
    hide SomeRoleBlock, SomeSignBlock, Bound;
    forall w | w in p.wallets ensures GoodWallet(q', w, p.wallets[w]) {
      assert GoodWallet(q, w, p.wallets[w]);
    }
    forall w | w in p.fspSelfSubmit ensures GoodSelfSubmit(q', w) {
      assert GoodSelfSubmit(q, w);
      var net :| Backed(q, w, net);
      assert Backed(q', w, net);
    }
    forall path | path in p.permissions ensures GoodPermission(registry, q', path, p.permissions[path]) {
      assert GoodPermission(registry, q, path, p.permissions[path]);
    }
    forall path | path in p.fspPermissions ensures GoodFsp(q', path, p.fspPermissions[path]) {
      assert GoodFsp(q, path, p.fspPermissions[path]);
    }
    forall n | n in p.callers ensures GoodCaller(q', p.callers[n]) {
      assert GoodCaller(q, p.callers[n]);
    }
  }

  // ---------- The merge ----------

  lemma {:induction false} AppendMissingHas(ws: seq<string>, add: seq<string>)
    ensures forall w :: w in AppendMissing(ws, add) <==> w in ws || w in add
    ensures ws <= AppendMissing(ws, add)
    decreases |add|
  {
    if add != [] {
      var shorter := add[..|add| - 1];
      AppendMissingHas(ws, shorter);
      assert forall w :: w in add <==> w in shorter || w == add[|add| - 1];
    }
  }

  lemma MergeContains(base: Policy, add: Policy)
    ensures HasKeysOf(Merge(base, add), base) && HasKeysOf(Merge(base, add), add)
  {
    AppendMissingHas(base.fspSelfSubmit, add.fspSelfSubmit);
  }

  lemma MergeGood(registry: Registry, base: Policy, add: Policy, q: Policy)
    requires Good(registry, base, q) && Good(registry, add, q)
    ensures Good(registry, Merge(base, add), q)
  {
    AppendMissingHas(base.fspSelfSubmit, add.fspSelfSubmit);
    hide GoodCaller, GoodWallet, GoodPermission, GoodFsp, GoodSelfSubmit, AppendMissing;
  }

  // ---------- The generated rules are good ----------

  lemma Split(registry: Registry, q: Policy, a: seq<Put>, b: seq<Put>)
    ensures HasAll(q, a + b) <==> HasAll(q, a) && HasAll(q, b)
    ensures AllGood(registry, a + b, q) <==> AllGood(registry, a, q) && AllGood(registry, b, q)
  {
    hide Has, GoodPut;
    var c := a + b;
    assert forall i :: 0 <= i < |a| ==> c[i] == a[i];
    assert forall i :: 0 <= i < |b| ==> c[|a| + i] == b[i];
    if HasAll(q, a) && HasAll(q, b) {
      forall i | 0 <= i < |c| ensures Has(q, c[i]) {
        if i >= |a| { assert Has(q, b[i - |a|]); }
      }
    }
    if AllGood(registry, a, q) && AllGood(registry, b, q) {
      forall i | 0 <= i < |c| ensures GoodPut(registry, c[i], q) {
        if i >= |a| { assert GoodPut(registry, b[i - |a|], q); }
      }
    }
    if HasAll(q, c) {
      forall i | 0 <= i < |b| ensures Has(q, b[i]) { assert Has(q, c[|a| + i]); }
    }
    if AllGood(registry, c, q) {
      forall i | 0 <= i < |b| ensures GoodPut(registry, b[i], q) { assert GoodPut(registry, c[|a| + i], q); }
    }
  }

  lemma {:induction false} SigsAreMatches(g: Gen, abi: string, names: seq<string>)
    requires forall name :: name in names ==> SigFor(g.registry, abi, name).Some?
    ensures forall s :: s in SigsFrom(g, abi, names) ==>
      exists name :: name in names && Matches(g.registry, abi, name) == {s}
    decreases |names|
  {
    hide SigFor, Matches;
    if names != [] {
      var shorter := names[..|names| - 1];
      SigsAreMatches(g, abi, shorter);
      forall s | s in SigsFrom(g, abi, names)
        ensures exists name :: name in names && Matches(g.registry, abi, name) == {s} {
        if s in SigsFrom(g, abi, shorter) {
          var name :| name in shorter && Matches(g.registry, abi, name) == {s};
          assert name in names;
        } else {
          assert names[|names| - 1] in names;
        }
      }
    }
  }

  lemma RegisteredAbi(registry: Registry, abi: string, name: string)
    requires SigFor(registry, abi, name).Some?
    ensures abi in registry
  {
    assert SigFor(registry, abi, name).value in Matches(registry, abi, name);
  }

  lemma RoleHasMethod(r: Role)
    ensures MethodNames(r) != []
  {
  }

  lemma RuleHasNoValue(req: Request, r: Role)
    ensures RuleOf(req, r).maxValueWei == "0"
  {
  }

  lemma RoleBlockIsGood(g: Gen, r: Role, net: string)
    requires Supported(g, r, net)
    ensures IsRoleBlock(g.registry, r, net, PermPath(r, net), RoleBlock(g, r, net, Sigs(g, r)))
  {
    hide SigFor, Matches, PermPath, WalletName, SigsFrom, Abi, MethodNames, MainWallet, RoleRate, PaidBySender, RuleOf;
    RoleHasMethod(r);
    SigsAreMatches(g, Abi(r), MethodNames(r));
    assert MethodNames(r)[0] in MethodNames(r);
    RegisteredAbi(g.registry, Abi(r), MethodNames(r)[0]);
    var b := RoleBlock(g, r, net, Sigs(g, r));
    assert RuleOf(g.req, r).maxValueWei == "0" by { RuleHasNoValue(g.req, r); }
  }

  /** The wallets of role `r` are bound. */
  predicate WalletsBound(q: Policy, req: Request, r: Role, net: string) {
    WalletName(MainWallet(r), net) in q.wallets && (PaidBySender(r) ==> SenderName(req, net) in q.wallets)
  }

  lemma SubmitGood(g: Gen, r: Role, net: string, q: Policy)
    requires Supported(g, r, net) && HasAll(q, SubmitPuts(g, r, net)) && WalletsBound(q, g.req, r, net)
    ensures AllGood(g.registry, SubmitPuts(g, r, net), q)
  {
    hide Supported, Sigs, IsRoleBlock;
    RoleBlockIsGood(g, r, net);
    var puts := SubmitPuts(g, r, net);
    assert Has(q, puts[1]);
    assert puts[1].block.walletAllowlist == Allowlist(g.req, r, net);
  }

  lemma {:induction false} SubmitsGood(g: Gen, rs: seq<Role>, net: string, q: Policy)
    requires forall r :: r in rs ==> Supported(g, r, net) && WalletsBound(q, g.req, r, net)
    requires HasAll(q, SubmitPutsOf(g, rs, net))
    ensures AllGood(g.registry, SubmitPutsOf(g, rs, net), q)
    ensures forall r :: r in rs ==> PermPath(r, net) in q.permissions
    decreases |rs|
  {
    hide Supported, WalletsBound, HasAll, AllGood;
    if rs != [] {
      var r, shorter := rs[|rs| - 1], rs[..|rs| - 1];
      Split(g.registry, q, SubmitPutsOf(g, shorter, net), SubmitPuts(g, r, net));
      SubmitsGood(g, shorter, net, q);
      SubmitGood(g, r, net, q);
      SubmitHas(g, r, net, q);
    } else {
      EmptyGood(g.registry, q);
    }
  }

  lemma EmptyGood(registry: Registry, q: Policy)
    ensures AllGood(registry, [], q)
  {
  }

  lemma SubmitHas(g: Gen, r: Role, net: string, q: Policy)
    requires Supported(g, r, net) && HasAll(q, SubmitPuts(g, r, net))
    ensures PermPath(r, net) in q.permissions
  {
    assert Has(q, SubmitPuts(g, r, net)[1]);
  }

  /** The signing wallet is bound and opted in. */
  predicate SignerBound(q: Policy, net: string) {
    WalletName(Signing, net) in q.wallets && WalletName(Signing, net) in q.fspSelfSubmit
  }

  lemma {:induction false} SignsGood(g: Gen, ms: seq<SignRole>, net: string, q: Policy)
    requires net in g.table && HasAll(q, SignPutsOf(g, ms, net)) && SignerBound(q, net)
    ensures AllGood(g.registry, SignPutsOf(g, ms, net), q)
    ensures forall m :: m in ms ==> FspPath(m, net) in q.fspPermissions
    decreases |ms|
  {
    hide HasAll, AllGood;
    if ms != [] {
      var m, shorter := ms[|ms| - 1], ms[..|ms| - 1];
      Split(g.registry, q, SignPutsOf(g, shorter, net), SignPuts(g, m, net));
      SignsGood(g, shorter, net, q);
      SignGood(g, m, net, q);
    } else {
      EmptyGood(g.registry, q);
    }
  }

  lemma SignGood(g: Gen, m: SignRole, net: string, q: Policy)
    requires net in g.table && HasAll(q, SignPuts(g, m, net)) && SignerBound(q, net)
    ensures AllGood(g.registry, SignPuts(g, m, net), q) && FspPath(m, net) in q.fspPermissions
  {
    var puts := SignPuts(g, m, net);
    assert Has(q, puts[1]);
    assert IsSignBlock(m, net, FspPath(m, net), SignBlock(g, m, net));
  }

  lemma WalletGood(registry: Registry, w: WalletRole, net: string, rate: RateLimit, q: Policy)
    requires HasAll(q, WalletPuts(w, net, rate))
    ensures AllGood(registry, WalletPuts(w, net, rate), q) && WalletName(w, net) in q.wallets
  {
    assert Has(q, WalletPuts(w, net, rate)[0]) && Has(q, WalletPuts(w, net, rate)[1]);
  }

  lemma SenderGood(registry: Registry, req: Request, net: string, q: Policy)
    requires HasAll(q, SenderPuts(req, net))
    ensures AllGood(registry, SenderPuts(req, net), q) && SenderName(req, net) in q.wallets
  {
    assert Has(q, SenderPuts(req, net)[0]) && Has(q, SenderPuts(req, net)[1]);
  }

  lemma {:induction false} DedicatedGood(g: Gen, rs: seq<Role>, net: string, q: Policy)
    requires forall r :: r in rs ==> Supported(g, r, net) && !PaidBySender(r)
    requires HasAll(q, DedicatedPutsOf(g, rs, net))
    ensures AllGood(g.registry, DedicatedPutsOf(g, rs, net), q)
    decreases |rs|
  {
    hide Supported, HasAll, AllGood, SubmitPuts, WalletPuts;
    if rs != [] {
      var r, shorter := rs[|rs| - 1], rs[..|rs| - 1];
      var a, b := WalletPuts(MainWallet(r), net, RoleRate(g.req, r)), SubmitPuts(g, r, net);
      Split(g.registry, q, DedicatedPutsOf(g, shorter, net), a + b);
      Split(g.registry, q, a, b);
      DedicatedGood(g, shorter, net, q);
      WalletGood(g.registry, MainWallet(r), net, RoleRate(g.req, r), q);
      SubmitGood(g, r, net, q);
    } else {
      EmptyGood(g.registry, q);
    }
  }

  /** The constraints of the wallets a registration confirm reuses. */
  ghost predicate RegisterReady(q: Policy, net: string) {
    forall r :: r in CONFIRMS ==> ConstraintPath(MainWallet(r), net) in q.walletConstraints
  }

  lemma {:induction false} ConfirmsGood(g: Gen, rs: seq<Role>, net: string, q: Policy)
    requires forall r :: r in rs ==>
               Supported(g, r, net) && !PaidBySender(r) && ConstraintPath(MainWallet(r), net) in q.walletConstraints
    requires HasAll(q, ConfirmPutsOf(g, rs, net))
    ensures AllGood(g.registry, ConfirmPutsOf(g, rs, net), q)
    decreases |rs|
  {
    hide Supported, SubmitPuts;
    if rs != [] {
      var r, shorter := rs[|rs| - 1], rs[..|rs| - 1];
      var a := [PutWallet(WalletName(MainWallet(r), net), ConstraintPath(MainWallet(r), net), true)];
      var b := SubmitPuts(g, r, net);
      Split(g.registry, q, ConfirmPutsOf(g, shorter, net), a + b);
      Split(g.registry, q, a, b);
      ConfirmsGood(g, shorter, net, q);
      assert Has(q, a[0]);
      SubmitGood(g, r, net, q);
    }
  }

  lemma FspGood(g: Gen, net: string, q: Policy)
    requires net in g.table && forall r :: r in FSP_SUBMITS ==> Supported(g, r, net)
    requires HasAll(q, FspPuts(g, net))
    ensures AllGood(g.registry, FspPuts(g, net), q)
  {
    hide Supported, HasAll, AllGood, WalletPuts, SenderPuts, SignPutsOf, SubmitPutsOf;
    var a, b, c := WalletPuts(Signing, net, g.req.fspRate), SenderPuts(g.req, net), SignPutsOf(g, FSP_SIGNS, net);
    var e, f := SubmitPutsOf(g, FSP_SUBMITS, net), [PutSelfSubmit(WalletName(Signing, net))];
    Split(g.registry, q, a, b);
    Split(g.registry, q, a + b, c);
    Split(g.registry, q, a + b + c, e);
    Split(g.registry, q, a + b + c + e, f);
    WalletGood(g.registry, Signing, net, g.req.fspRate, q);
    SenderGood(g.registry, g.req, net, q);
    OptedIn(q, net);
    SubmitsGood(g, FSP_SUBMITS, net, q);
    SignsGood(g, FSP_SIGNS, net, q);
    assert UptimeSubmit in FSP_SUBMITS && UptimeSign in FSP_SIGNS;
    SelfSubmitGood(g.registry, q, net);
  }

  lemma OptedIn(q: Policy, net: string)
    requires HasAll(q, [PutSelfSubmit(WalletName(Signing, net))])
    ensures WalletName(Signing, net) in q.fspSelfSubmit
  {
    assert Has(q, [PutSelfSubmit(WalletName(Signing, net))][0]);
  }

  lemma SelfSubmitGood(registry: Registry, q: Policy, net: string)
    requires Backed(q, WalletName(Signing, net), net)
    ensures AllGood(registry, [PutSelfSubmit(WalletName(Signing, net))], q)
  {
  }

  lemma VoterGood(g: Gen, net: string, q: Policy)
    requires net in g.table && forall r :: r in VOTER_DEDICATED || r in VOTER_SUBMITS ==> Supported(g, r, net)
    requires HasAll(q, VoterPuts(g, net))
    ensures AllGood(g.registry, VoterPuts(g, net), q)
  {
    hide Supported, HasAll, AllGood, WalletPuts, SignPutsOf, SubmitPutsOf, DedicatedPutsOf;
    var a, b, c := WalletPuts(Signing, net, g.req.fspRate), [PutSelfSubmit(WalletName(Signing, net))],
      SignPutsOf(g, VOTER_SIGNS, net);
    var e, f := DedicatedPutsOf(g, VOTER_DEDICATED, net), SubmitPutsOf(g, VOTER_SUBMITS, net);
    Split(g.registry, q, a, b);
    Split(g.registry, q, a + b, c);
    Split(g.registry, q, a + b + c, e);
    Split(g.registry, q, a + b + c + e, f);
    WalletGood(g.registry, Signing, net, g.req.fspRate, q);
    OptedIn(q, net);
    DedicatedGood(g, VOTER_DEDICATED, net, q);
    SubmitsGood(g, VOTER_SUBMITS, net, q);
    SignsGood(g, VOTER_SIGNS, net, q);
    assert RelaySubmit in VOTER_SUBMITS && PolicySign in VOTER_SIGNS;
    SelfSubmitGood(g.registry, q, net);
  }

  lemma NetGood(g: Gen, net: string, q: Policy)
    requires SupportsAll(g, net) && HasAll(q, NetPuts(g, net))
    requires RegisterCap in g.req.capabilities ==> RegisterReady(q, net)
    ensures AllGood(g.registry, NetPuts(g, net), q)
  {
    hide Supported, HasAll, AllGood, FspPuts, VoterPuts, ConfirmPutsOf, DedicatedPutsOf;
    var caps := g.req.capabilities;
    var a := if ClaimCap in caps then ClaimPuts(g, net) else [];
    var b := if FspCap in caps then FspPuts(g, net) else [];
    var c := if VoterCap in caps then VoterPuts(g, net) else [];
    var e := if RegisterCap in caps then ConfirmPutsOf(g, CONFIRMS, net) else [];
    Split(g.registry, q, a, b);
    Split(g.registry, q, a + b, c);
    Split(g.registry, q, a + b + c, e);
    EmptyGood(g.registry, q);
    if ClaimCap in caps { DedicatedGood(g, [Claim], net, q); }
    if FspCap in caps { FspGood(g, net, q); }
    if VoterCap in caps { VoterGood(g, net, q); }
    if RegisterCap in caps { ConfirmsGood(g, CONFIRMS, net, q); }
  }

  lemma {:induction false} RunGood(g: Gen, nets: seq<string>, q: Policy)
    requires forall n :: n in nets ==> SupportsAll(g, n) && (RegisterCap in g.req.capabilities ==> RegisterReady(q, n))
    requires HasAll(q, RunPuts(g, nets))
    ensures AllGood(g.registry, RunPuts(g, nets), q)
    decreases |nets|
  {
    hide SupportsAll, HasAll, AllGood, NetPuts, RegisterReady;
    if nets != [] {
      var n, shorter := nets[|nets| - 1], nets[..|nets| - 1];
      Split(g.registry, q, RunPuts(g, shorter), NetPuts(g, n));
      RunGood(g, shorter, q);
      NetGood(g, n, q);
    } else {
      EmptyGood(g.registry, q);
    }
  }

  // ---------- Good policies are consistent ----------

  /** The registry's method of each self-submitting role is the exempt one. */
  ghost predicate SignaturesMatch(registry: Registry) {
    forall r: Role, name: string, s: string ::
      MainWallet(r) == Signing && name in MethodNames(r) && Matches(registry, Abi(r), name) == {s} ==>
        ExemptMethods(Abi(r)).Some? && s in ExemptMethods(Abi(r)).value
  }

  predicate CallersDeclared(p: Policy, callers: seq<Caller>) {
    forall i :: 0 <= i < |callers| && !callers[i].revoked ==>
      callers[i].name in p.callers && callers[i].policyPath == p.callers[callers[i].name].policyPath
  }

  /** Only the role of the wallet itself can list a signing wallet. */
  lemma SignerOfBlock(registry: Registry, r: Role, net: string, path: string, b: PermissionBlock, n: string)
    requires IsRoleBlock(registry, r, net, path, b) && WalletName(Signing, n) in b.walletAllowlist
    ensures MainWallet(r) == Signing && net == n
  {
    var w := WalletName(Signing, n);
    SharedSenderDistinct(Signing, n);
    if w == WalletName(MainWallet(r), net) {
      WalletNameInjective(Signing, n, MainWallet(r), net);
    } else {
      WalletNameInjective(Signing, n, Sender, net);
    }
  }

  lemma SignerBlocksExempt(registry: Registry, p: Policy, n: string)
    requires Good(registry, p, p) && SignaturesMatch(registry)
    ensures OnlyExemptBlocks(p, WalletName(Signing, n))
  {
    hide WalletName, PermPath, Matches, Bound, ExemptMethods, MethodNames, Abi, MainWallet;
    forall path | path in p.permissions && WalletName(Signing, n) in p.permissions[path].walletAllowlist
      ensures ExemptBlock(p.permissions[path])
    {
      assert GoodPermission(registry, p, path, p.permissions[path]);
      var r, net :| IsRoleBlock(registry, r, net, path, p.permissions[path]);
      SignerOfBlock(registry, r, net, path, p.permissions[path], n);
      RoleBlockExempt(registry, r, net, path, p.permissions[path]);
    }
  }

  lemma SignerAbiExempt(r: Role)
    requires MainWallet(r) == Signing
    ensures ExemptMethods(Abi(r)).Some?
  {
  }

  lemma RoleBlockExempt(registry: Registry, r: Role, net: string, path: string, b: PermissionBlock)
    requires IsRoleBlock(registry, r, net, path, b) && MainWallet(r) == Signing && SignaturesMatch(registry)
    ensures ExemptBlock(b)
  {
    hide WalletName, PermPath, Matches, ExemptMethods, MethodNames, Abi, MainWallet, PaidBySender;
    SignerAbiExempt(r);
    var c := b.contracts[0].1;
    forall s | s in c.methods ensures s in ExemptMethods(c.abi).value && c.methods[s].maxValueWei == "0" {
      var name :| name in MethodNames(r) && Matches(registry, Abi(r), name) == {s};
    }
    hide IsRoleBlock, SignaturesMatch;
    assert ExemptShape(c);
  }

  /** A self-submitting wallet meets every condition of the carve-out. */
  lemma SelfSubmitExempt(registry: Registry, p: Policy, wallets: seq<Wallet>, n: string)
    requires Good(registry, p, p) && SignaturesMatch(registry) && Backed(p, WalletName(Signing, n), n)
    ensures Exempt(p, wallets, WalletName(Signing, n))
  {
    SignerBlocksExempt(registry, p, n);
    SignerSubmits(registry, p, n);
    SignerSigns(registry, p, n);
    hide EvmAllowlisted, FspAllowlisted, OnlyExemptBlocks, WalletName, Good;
  }

  /** The block at a role's path is that role's. */
  lemma BlockAtPath(registry: Registry, p: Policy, role: Role, n: string)
    requires Good(registry, p, p) && PermPath(role, n) in p.permissions
    ensures IsRoleBlock(registry, role, n, PermPath(role, n), p.permissions[PermPath(role, n)])
  {
    var path := PermPath(role, n);
    assert GoodPermission(registry, p, path, p.permissions[path]);
    hide IsRoleBlock, PermPath, GoodPermission, Bound;
    var r, net :| IsRoleBlock(registry, r, net, path, p.permissions[path]);
    assert path == PermPath(r, net) by { BlockPath(registry, r, net, path, p.permissions[path]); }
    PermPathInjective(role, n, r, net);
  }

  lemma BlockPath(registry: Registry, r: Role, net: string, path: string, b: PermissionBlock)
    requires IsRoleBlock(registry, r, net, path, b)
    ensures path == PermPath(r, net) && WalletName(MainWallet(r), net) in b.walletAllowlist
  {
  }

  lemma SignerSubmits(registry: Registry, p: Policy, n: string)
    requires Good(registry, p, p) && Backed(p, WalletName(Signing, n), n)
    ensures EvmAllowlisted(p, WalletName(Signing, n))
  {
    hide WalletName, PermPath, IsRoleBlock, Good;
    var role := if PermPath(UptimeSubmit, n) in p.permissions then UptimeSubmit else RelaySubmit;
    BlockAtPath(registry, p, role, n);
    BlockPath(registry, role, n, PermPath(role, n), p.permissions[PermPath(role, n)]);
  }

  lemma SignerSigns(registry: Registry, p: Policy, n: string)
    requires Good(registry, p, p) && Backed(p, WalletName(Signing, n), n)
    ensures FspAllowlisted(p, WalletName(Signing, n))
  {
    hide WalletName, FspPath, Matches, Bound, MethodNames, Abi;
    var role := if FspPath(UptimeSign, n) in p.fspPermissions then UptimeSign else PolicySign;
    var path := FspPath(role, n);
    assert GoodFsp(p, path, p.fspPermissions[path]);
    var m, net :| IsSignBlock(m, net, path, p.fspPermissions[path]);
    FspPathInjective(role, n, m, net);
  }

  lemma GoodPermissionsClean(registry: Registry, p: Policy, wallets: seq<Wallet>, path: string, e: Finding)
    requires Good(registry, p, p) && path in p.permissions
    ensures !PermissionViolates(p, wallets, registry, path, e)
  {
    hide WalletName, PermPath, Bound, PermissionViolates, BaseName;
    assert GoodPermission(registry, p, path, p.permissions[path]);
    var r, net :| IsRoleBlock(registry, r, net, path, p.permissions[path]);
    hide MethodNames, Abi;
    var c := p.permissions[path].contracts[0].1;
    forall s | s in c.methods ensures s in SignaturesFor(registry, c.abi) {
      var name :| name in MethodNames(r) && Matches(registry, Abi(r), name) == {s};
      assert s in Matches(registry, Abi(r), name);
    }
    OneContractBlockClean(p, wallets, registry, path, e);
  }

  lemma GoodFspClean(registry: Registry, p: Policy, wallets: seq<Wallet>, path: string, e: Finding)
    requires Good(registry, p, p) && path in p.fspPermissions
    ensures !FspViolates(p, wallets, path, e)
  {
    hide WalletName, Matches, Bound, BaseName, MethodNames, Abi, MessageType, FspPath, PermPath, MainWallet,
      MESSAGE_TYPES;
    assert GoodFsp(p, path, p.fspPermissions[path]);
    var m, net :| IsSignBlock(m, net, path, p.fspPermissions[path]);
    if path in p.permissions {
      assert GoodPermission(registry, p, path, p.permissions[path]);
      var r, n :| IsRoleBlock(registry, r, n, path, p.permissions[path]);
      SectionsApart(r, n, m, net);
    }
    KnownType(m);
  }

  /** No path of one section is a path of the other. */
  lemma SectionsApart(r: Role, n: string, m: SignRole, net: string)
    ensures PermPath(r, n) != FspPath(m, net)
  {
    assert PermPath(r, n)[0] == PermPrefix(r)[0] == 'p';
    assert FspPath(m, net)[0] == FspPrefix(m)[0] == 'f';
  }

  lemma KnownType(m: SignRole)
    ensures MessageType(m) in MESSAGE_TYPES
  {
  }

  lemma GoodSelfSubmitClean(registry: Registry, p: Policy, wallets: seq<Wallet>, w: string, e: Finding)
    requires Good(registry, p, p) && SignaturesMatch(registry) && w in p.fspSelfSubmit
    ensures Exempt(p, wallets, w) && !SelfSubmitViolates(p, wallets, w, e)
  {
    assert GoodSelfSubmit(p, w);
    var n :| Backed(p, w, n);
    SelfSubmitExempt(registry, p, wallets, n);
    hide Good, WalletName, FspAllowlisted, EvmAllowlisted, OnlyExemptBlocks;
  }

  lemma GoodAddressesClean(registry: Registry, p: Policy, wallets: seq<Wallet>, e: Finding)
    requires Good(registry, p, p) && SignaturesMatch(registry)
    ensures !AddressViolates(p, wallets, e)
  {
    if e.SharedAddress? && FspAddress(p, wallets, e.address) {
      var w :| FspAllowlisted(p, w) && AddressOf(wallets, w) == Some(e.address);
      var path :| path in p.fspPermissions && w in p.fspPermissions[path].walletAllowlist;
      assert GoodFsp(p, path, p.fspPermissions[path]);
      assert w in p.fspSelfSubmit;
      GoodSelfSubmitClean(registry, p, wallets, w, e);
      hide Good, Exempt, AddressOf, SignaturesMatch;
      assert ExemptAddress(p, wallets, e.address);
    }
  }

  lemma GoodCallersClean(registry: Registry, p: Policy, callers: seq<Caller>, e: Finding)
    requires Good(registry, p, p) && CallersDeclared(p, callers)
    ensures forall i :: 0 <= i < |callers| ==> !CallerViolates(p, callers[i], e)
    ensures !CapabilityViolates(p, e)
  {
    hide GoodWallet, GoodPermission, GoodFsp, GoodSelfSubmit;
    forall i | 0 <= i < |callers| ensures !CallerViolates(p, callers[i], e) {
      if !callers[i].revoked {
        assert GoodCaller(p, p.callers[callers[i].name]);
      }
    }
    assert forall n :: n in p.callers ==> GoodCaller(p, p.callers[n]);
  }

  /** A well-formed, closed policy passes the check for any wallets, whatever their addresses. */
  lemma GoodIsConsistent(registry: Registry, p: Policy, callers: seq<Caller>, wallets: seq<Wallet>)
    requires Good(registry, p, p) && SignaturesMatch(registry) && CallersDeclared(p, callers)
    ensures Consistent(p, callers, wallets, registry)
  {
    hide CallersDeclared;
    forall e ensures !Violates(p, callers, wallets, registry, e) {
      GoodCallersClean(registry, p, callers, e);
      assert e.UnknownConstraint? && e.wallet in p.wallets ==> GoodWallet(p, e.wallet, p.wallets[e.wallet]);
      hide CallerViolates, CapabilityViolates, PermissionViolates, NativeViolates, FspViolates, SelfSubmitViolates,
        AddressViolates, SignaturesMatch, Bound, GoodPermission, GoodFsp, GoodSelfSubmit, GoodCaller;
      forall path | path in p.permissions ensures !PermissionViolates(p, wallets, registry, path, e) {
        GoodPermissionsClean(registry, p, wallets, path, e);
      }
      forall path | path in p.fspPermissions ensures !FspViolates(p, wallets, path, e) {
        GoodFspClean(registry, p, wallets, path, e);
      }
      forall i | 0 <= i < |p.fspSelfSubmit| ensures !SelfSubmitViolates(p, wallets, p.fspSelfSubmit[i], e) {
        GoodSelfSubmitClean(registry, p, wallets, p.fspSelfSubmit[i], e);
      }
      GoodAddressesClean(registry, p, wallets, e);
    }
  }

  // ---------- Generating and merging ----------

  ghost predicate AllReady(q: Policy, nets: seq<string>) {
    forall n :: n in nets ==> RegisterReady(q, n)
  }

  /** What a generation adds is good with respect to anything that contains it and has the constraints its
      registration confirms need. */
  lemma GeneratedGood(g: Gen, q: Policy)
    requires Generated(g).Some? && HasKeysOf(q, Generated(g).value)
    requires RegisterCap in g.req.capabilities ==> AllReady(q, g.req.networks)
    ensures Good(g.registry, Generated(g).value, q)
  {
    hide SupportsAll, RunPuts, ApplyAll, Has, GoodPut, HasKeysOf, RegisterReady;
    var puts := RunPuts(g, g.req.networks);
    ApplyAllHas(EMPTY_POLICY, puts);
    ContainsHas(q, Generated(g).value, puts);
    RunGood(g, g.req.networks, q);
    ApplyAllGood(g.registry, EMPTY_POLICY, puts, q);
  }

  lemma RunKeepsGood(g: Gen, base: Policy)
    requires Good(g.registry, base, base) && Generated(g).Some?
    requires RegisterCap in g.req.capabilities ==> AllReady(Merge(base, Generated(g).value), g.req.networks)
    ensures Good(g.registry, Merge(base, Generated(g).value), Merge(base, Generated(g).value))
  {
    hide Good, Generated, HasKeysOf, AllReady, Merge;
    var add := Generated(g).value;
    var q := Merge(base, add);
    MergeContains(base, add);
    GeneratedGood(g, q);
    ContainsGood(g.registry, base, base, q);
    MergeGood(g.registry, base, add, q);
  }

  /** `q` with a constraint for every role of the named networks. */
  function Widened(q: Policy, nets: seq<string>): Policy {
    var paths := set n, w: WalletRole | n in nets :: ConstraintPath(w, n);
    q.(walletConstraints := q.walletConstraints + map c | c in paths :: WalletConstraint(None, None))
  }

  lemma WidenedReady(q: Policy, nets: seq<string>)
    ensures AllReady(Widened(q, nets), nets) && HasKeysOf(Widened(q, nets), q)
  {
    hide ConstraintPath;
  }

  /** A registration binds the wallets it uses to their own constraints. */
  lemma RegisterBinds(g: Gen, base: Policy, n: string, r: Role)
    requires Generated(g).Some? && n in g.req.networks && RegisterCap in g.req.capabilities && r in CONFIRMS
    ensures var q := Merge(base, Generated(g).value);
            WalletName(MainWallet(r), n) in q.wallets &&
              q.wallets[WalletName(MainWallet(r), n)] == ConstraintPath(MainWallet(r), n)
  {
    var add := Generated(g).value;
    var wide := Widened(add, g.req.networks);
    WidenedReady(add, g.req.networks);
    hide Widened, Merge, AllReady;
    GeneratedGood(g, wide);
    RunPutsHave(g, g.req.networks, n, r, add);
    var w := WalletName(MainWallet(r), n);
    assert GoodWallet(wide, w, add.wallets[w]);
    BoundIsOwn(MainWallet(r), n, add.wallets[w]);
    MergeTakesAdded(base, add, w);
  }

  lemma MergeTakesAdded(base: Policy, add: Policy, w: string)
    requires w in add.wallets
    ensures w in Merge(base, add).wallets && Merge(base, add).wallets[w] == add.wallets[w]
  {
  }

  lemma BoundIsOwn(role: WalletRole, n: string, c: string)
    requires Bound(WalletName(role, n), c)
    ensures c == ConstraintPath(role, n)
  {
    hide WalletName, ConstraintPath;
    SharedSenderDistinct(role, n);
    var role', n' :| WalletName(role, n) == WalletName(role', n') && c == ConstraintPath(role', n');
    WalletNameInjective(role, n, role', n');
  }

  /** The wallet of a confirm is bound by the run. */
  lemma RunPutsHave(g: Gen, nets: seq<string>, n: string, r: Role, p: Policy)
    requires Generated(g).Some? && n in g.req.networks && RegisterCap in g.req.capabilities && r in CONFIRMS
    requires nets == g.req.networks && p == Generated(g).value
    ensures WalletName(MainWallet(r), n) in p.wallets
  {
    hide SupportsAll, RunPuts, ApplyAll, Has;
    ApplyAllHas(EMPTY_POLICY, RunPuts(g, nets));
    RunHasNet(g, nets, n, p);
    hide HasAll, NetPuts;
    NetHasConfirms(g, n, p);
    ConfirmsHave(g, CONFIRMS, n, p);
  }

  lemma {:induction false} RunHasNet(g: Gen, nets: seq<string>, n: string, p: Policy)
    requires forall m :: m in nets ==> SupportsAll(g, m)
    requires HasAll(p, RunPuts(g, nets)) && n in nets
    ensures HasAll(p, NetPuts(g, n))
    decreases |nets|
  {
    hide SupportsAll, HasAll, NetPuts;
    var shorter := nets[..|nets| - 1];
    Split(g.registry, p, RunPuts(g, shorter), NetPuts(g, nets[|nets| - 1]));
    if n != nets[|nets| - 1] {
      RunHasNet(g, shorter, n, p);
    }
  }

  lemma NetHasConfirms(g: Gen, n: string, p: Policy)
    requires SupportsAll(g, n) && HasAll(p, NetPuts(g, n)) && RegisterCap in g.req.capabilities
    ensures forall r :: r in CONFIRMS ==> Supported(g, r, n)
    ensures HasAll(p, ConfirmPutsOf(g, CONFIRMS, n))
  {
    hide Supported, HasAll, FspPuts, VoterPuts, ClaimPuts, ConfirmPutsOf;
    var caps := g.req.capabilities;
    var a := if ClaimCap in caps then ClaimPuts(g, n) else [];
    var b := if FspCap in caps then FspPuts(g, n) else [];
    var c := if VoterCap in caps then VoterPuts(g, n) else [];
    Split(g.registry, p, a + b + c, ConfirmPutsOf(g, CONFIRMS, n));
  }

  lemma {:induction false} ConfirmsHave(g: Gen, rs: seq<Role>, n: string, p: Policy)
    requires forall r :: r in rs ==> Supported(g, r, n)
    requires HasAll(p, ConfirmPutsOf(g, rs, n))
    ensures forall r :: r in rs ==> WalletName(MainWallet(r), n) in p.wallets
    decreases |rs|
  {
    hide Supported, SubmitPuts, WalletName, ConstraintPath;
    if rs != [] {
      var r, shorter := rs[|rs| - 1], rs[..|rs| - 1];
      var a := [PutWallet(WalletName(MainWallet(r), n), ConstraintPath(MainWallet(r), n), true)];
      Split(g.registry, p, ConfirmPutsOf(g, shorter, n), a + SubmitPuts(g, r, n));
      Split(g.registry, p, a, SubmitPuts(g, r, n));
      ConfirmsHave(g, shorter, n, p);
      assert Has(p, a[0]);
    }
  }

  /** Merging a generation into a well-formed policy gives a consistent one exactly when the wallets of its
      registration confirms have their constraints. */
  lemma MergeIsConsistent(g: Gen, base: Policy, callers: seq<Caller>, wallets: seq<Wallet>)
    requires Good(g.registry, base, base) && SignaturesMatch(g.registry) && Generated(g).Some?
    requires CallersDeclared(Merge(base, Generated(g).value), callers)
    ensures var q := Merge(base, Generated(g).value);
            Consistent(q, callers, wallets, g.registry) <==>
              (RegisterCap in g.req.capabilities ==> AllReady(q, g.req.networks))
  {
    hide Good, Generated, CallersDeclared, SignaturesMatch, Merge, Violates;
    var q := Merge(base, Generated(g).value);
    if RegisterCap in g.req.capabilities ==> AllReady(q, g.req.networks) {
      RunKeepsGood(g, base);
      GoodIsConsistent(g.registry, q, callers, wallets);
    } else {
      var n :| n in g.req.networks && !RegisterReady(q, n);
      var r :| r in CONFIRMS && ConstraintPath(MainWallet(r), n) !in q.walletConstraints;
      RegisterBinds(g, base, n, r);
      UnboundViolates(q, callers, wallets, g.registry, WalletName(MainWallet(r), n));
    }
  }

  lemma UnboundViolates(q: Policy, callers: seq<Caller>, wallets: seq<Wallet>, registry: Registry, w: string)
    requires w in q.wallets && q.wallets[w] !in q.walletConstraints
    ensures Violates(q, callers, wallets, registry, UnknownConstraint(w))
  {
  }

  // ---------- Any number of runs ----------

  /** The policy after a sequence of generations, each merged into the policy so far; a refused one leaves
      it as it is. */
  ghost function Grow(gens: seq<Gen>): Policy {
    if gens == [] then EMPTY_POLICY
    else
      var p := Grow(gens[..|gens| - 1]);
      match Generated(gens[|gens| - 1])
      case None => p
      case Some(add) => Merge(p, add)
  }

  ghost predicate Votes(g: Gen, n: string) {
    Generated(g).Some? && VoterCap in g.req.capabilities && n in g.req.networks
  }

  /** Registration confirms are generated for a network only with or after its voter rules. */
  ghost predicate VoterFirst(gens: seq<Gen>) {
    forall i, n ::
      0 <= i < |gens| && Generated(gens[i]).Some?
      && RegisterCap in gens[i].req.capabilities && n in gens[i].req.networks ==>
      exists j :: 0 <= j <= i && Votes(gens[j], n)
  }

  lemma {:induction false} DedicatedHave(g: Gen, rs: seq<Role>, n: string, p: Policy)
    requires forall r :: r in rs ==> Supported(g, r, n)
    requires HasAll(p, DedicatedPutsOf(g, rs, n))
    ensures forall r :: r in rs ==> ConstraintPath(MainWallet(r), n) in p.walletConstraints
    decreases |rs|
  {
    hide Supported, SubmitPuts, WalletName, ConstraintPath, HasAll;
    if rs != [] {
      var r, shorter := rs[|rs| - 1], rs[..|rs| - 1];
      var a := WalletPuts(MainWallet(r), n, RoleRate(g.req, r));
      Split(g.registry, p, DedicatedPutsOf(g, shorter, n), a + SubmitPuts(g, r, n));
      Split(g.registry, p, a, SubmitPuts(g, r, n));
      DedicatedHave(g, shorter, n, p);
      WalletHas(MainWallet(r), n, RoleRate(g.req, r), p);
    }
  }

  lemma WalletHas(w: WalletRole, n: string, rate: RateLimit, p: Policy)
    requires HasAll(p, WalletPuts(w, n, rate))
    ensures ConstraintPath(w, n) in p.walletConstraints
  {
    assert Has(p, WalletPuts(w, n, rate)[1]);
  }

  lemma VoterHas(g: Gen, n: string, p: Policy)
    requires n in g.table && forall r :: r in VOTER_DEDICATED || r in VOTER_SUBMITS ==> Supported(g, r, n)
    requires HasAll(p, VoterPuts(g, n))
    ensures RegisterReady(p, n)
  {
    hide Supported, HasAll, WalletPuts, SignPutsOf, SubmitPutsOf, DedicatedPutsOf, ConstraintPath;
    var a, b, c := WalletPuts(Signing, n, g.req.fspRate), [PutSelfSubmit(WalletName(Signing, n))],
      SignPutsOf(g, VOTER_SIGNS, n);
    var e, f := DedicatedPutsOf(g, VOTER_DEDICATED, n), SubmitPutsOf(g, VOTER_SUBMITS, n);
    Split(g.registry, p, a, b);
    Split(g.registry, p, a + b, c);
    Split(g.registry, p, a + b + c, e);
    Split(g.registry, p, a + b + c + e, f);
    WalletHas(Signing, n, g.req.fspRate, p);
    DedicatedHave(g, VOTER_DEDICATED, n, p);
    assert PriceSubmit in VOTER_DEDICATED && SignatureSubmit in VOTER_DEDICATED;
  }

  /** The voter rules of a network bring the constraints its registration needs. */
  lemma VotesReady(g: Gen, n: string)
    requires Votes(g, n)
    ensures RegisterReady(Generated(g).value, n)
  {
    hide SupportsAll, RunPuts, ApplyAll, Has, RegisterReady, NetPuts;
    var add, nets := Generated(g).value, g.req.networks;
    ApplyAllHas(EMPTY_POLICY, RunPuts(g, nets));
    RunHasNet(g, nets, n, add);
    hide HasAll;
    NetHasVoter(g, n, add);
    VoterHas(g, n, add);
  }

  lemma NetHasVoter(g: Gen, n: string, p: Policy)
    requires SupportsAll(g, n) && HasAll(p, NetPuts(g, n)) && VoterCap in g.req.capabilities
    ensures n in g.table && forall r :: r in VOTER_DEDICATED || r in VOTER_SUBMITS ==> Supported(g, r, n)
    ensures HasAll(p, VoterPuts(g, n))
  {
    hide Supported, HasAll, FspPuts, VoterPuts, ClaimPuts, ConfirmPutsOf;
    var caps := g.req.capabilities;
    var a := if ClaimCap in caps then ClaimPuts(g, n) else [];
    var b := if FspCap in caps then FspPuts(g, n) else [];
    var e := if RegisterCap in caps then ConfirmPutsOf(g, CONFIRMS, n) else [];
    Split(g.registry, p, a + b + VoterPuts(g, n), e);
    Split(g.registry, p, a + b, VoterPuts(g, n));
  }

  lemma ReadyStays(p: Policy, q: Policy, n: string)
    requires RegisterReady(p, n) && HasKeysOf(q, p)
    ensures RegisterReady(q, n)
  {
    hide ConstraintPath, MainWallet;
  }

  lemma {:induction false} VotedStaysReady(gens: seq<Gen>, j: nat, n: string)
    requires j < |gens| && Votes(gens[j], n)
    ensures RegisterReady(Grow(gens), n)
    decreases |gens|
  {
    hide Generated, RegisterReady, HasKeysOf, Merge;
    var shorter, last := gens[..|gens| - 1], gens[|gens| - 1];
    if j < |gens| - 1 {
      VotedStaysReady(shorter, j, n);
      if Generated(last).Some? {
        MergeContains(Grow(shorter), Generated(last).value);
        ReadyStays(Grow(shorter), Grow(gens), n);
      }
    } else {
      VotesReady(last, n);
      MergeContains(Grow(shorter), Generated(last).value);
      ReadyStays(Generated(last).value, Grow(gens), n);
    }
  }

  lemma {:induction false} GrowIsGood(registry: Registry, gens: seq<Gen>)
    requires VoterFirst(gens) && forall i :: 0 <= i < |gens| ==> gens[i].registry == registry
    ensures Good(registry, Grow(gens), Grow(gens))
    decreases |gens|
  {
    hide Good, Generated, RegisterReady, Merge;
    if gens == [] {
      EmptyIsGood(registry);
    } else {
      var shorter, last := gens[..|gens| - 1], gens[|gens| - 1];
      forall i, n | 0 <= i < |shorter| && Generated(shorter[i]).Some? && RegisterCap in shorter[i].req.capabilities &&
        n in shorter[i].req.networks
        ensures exists j :: 0 <= j <= i && Votes(shorter[j], n)
      {
        assert shorter[i] == gens[i];
        var j :| 0 <= j <= i && Votes(gens[j], n);
        assert shorter[j] == gens[j];
      }
      GrowIsGood(registry, shorter);
      if Generated(last).Some? {
        if RegisterCap in last.req.capabilities {
          forall n | n in last.req.networks ensures RegisterReady(Grow(gens), n) {
            var j :| 0 <= j <= |gens| - 1 && Votes(gens[j], n);
            VotedStaysReady(gens, j, n);
          }
        }
        RunKeepsGood(last, Grow(shorter));
      }
    }
  }

  lemma EmptyIsGood(registry: Registry)
    ensures Good(registry, EMPTY_POLICY, EMPTY_POLICY)
  {
  }

  /** Starting from nothing, any finite sequence of generate-and-merge runs yields a policy the check
      accepts, for any wallets. */
  lemma GrownPoliciesAreConsistent(registry: Registry, gens: seq<Gen>, callers: seq<Caller>, wallets: seq<Wallet>)
    requires VoterFirst(gens) && SignaturesMatch(registry) && CallersDeclared(Grow(gens), callers)
    requires forall i :: 0 <= i < |gens| ==> gens[i].registry == registry
    ensures Consistent(Grow(gens), callers, wallets, registry)
  {
    hide Good, Grow, VoterFirst, SignaturesMatch, Consistent, CallersDeclared;
    GrowIsGood(registry, gens);
    GoodIsConsistent(registry, Grow(gens), callers, wallets);
  }
}
