/** What a generated policy says, entry by entry: for every capability and network the caller, the wallets that may be
    used, the one contract and chain, the methods and what they pin, and the rate; and nothing else. `GrownGate` says
    what then holds of the gate. */
module GeneratedRules {
  import opened Prelude
  import opened PolicySchema
  import opened PolicyNames
  import opened PolicyInit
  import GeneratedPolicies
  import NetworkIsolation

  // ---------- Where the entries of a run come from ----------

  ghost predicate AllSourced(p: Policy, puts: seq<Put>) {
    && (forall n :: n in p.callers ==> PutCaller(n, p.callers[n].policyPath) in puts && p.callers[n].capabilityId.None?)
    && (forall w :: w in p.wallets ==> exists keep :: PutWallet(w, p.wallets[w], keep) in puts)
    && (forall path :: path in p.permissions ==> PutPermission(path, p.permissions[path]) in puts)
    && (forall path :: path in p.fspPermissions ==> PutFsp(path, p.fspPermissions[path]) in puts)
    && p.nativeTransfers == map[]
  }

  lemma SourcedGrows(p: Policy, puts: seq<Put>, put: Put)
    requires AllSourced(p, puts)
    ensures AllSourced(p, puts + [put])
  {
    forall w | w in p.wallets ensures exists keep :: PutWallet(w, p.wallets[w], keep) in puts + [put] {
      var keep :| PutWallet(w, p.wallets[w], keep) in puts;
      assert PutWallet(w, p.wallets[w], keep) in puts + [put];
    }
  }

  lemma ApplySourced(p: Policy, puts: seq<Put>, put: Put)
    requires AllSourced(p, puts) && put in puts
    ensures AllSourced(ApplyPut(p, put), puts)
  {
    var q := ApplyPut(p, put);
    forall w | w in q.wallets ensures exists keep :: PutWallet(w, q.wallets[w], keep) in puts {
      if w !in p.wallets || q.wallets[w] != p.wallets[w] {
        assert PutWallet(w, q.wallets[w], put.keepOld) in puts;
      }
    }
  }

  /** Every entry was put there by the run. */
  lemma {:induction false} Sourced(puts: seq<Put>)
    ensures AllSourced(ApplyAll(EMPTY_POLICY, puts), puts)
    decreases |puts|
  {
    hide AllSourced, ApplyPut;
    if puts == [] {
      NothingSourced();
    } else {
      var shorter, last := puts[..|puts| - 1], puts[|puts| - 1];
      Sourced(shorter);
      SourcedGrows(ApplyAll(EMPTY_POLICY, shorter), shorter, last);
      assert shorter + [last] == puts;
      ApplySourced(ApplyAll(EMPTY_POLICY, shorter), puts, last);
    }
  }

  lemma NothingSourced()
    ensures AllSourced(EMPTY_POLICY, [])
  {
  }

  predicate WantedSign(caps: set<Capability>, m: SignRole) {
    (m in FSP_SIGNS && FspCap in caps) || (m in VOTER_SIGNS && VoterCap in caps)
  }

  ghost predicate RoleMade(g: Gen, r: Role, n: string, path: string, b: PermissionBlock) {
    && Wanted(g.req.capabilities, r) && Supported(g, r, n)
    && path == PermPath(r, n) && b == RoleBlock(g, r, n, Sigs(g, r))
  }

  predicate SignMade(g: Gen, m: SignRole, n: string, path: string, b: FspPermissionBlock) {
    WantedSign(g.req.capabilities, m) && n in g.table && path == FspPath(m, n) && b == SignBlock(g, m, n)
  }

  predicate CallerMade(g: Gen, c: CallerRole, n: string, name: string, path: string) {
    && name == CallerName(c, n)
    && match c
       case Submits(r) => Wanted(g.req.capabilities, r) && path == PermPath(r, n)
       case Signs(m) => WantedSign(g.req.capabilities, m) && path == FspPath(m, n)
  }

  predicate WalletMade(g: Gen, w: WalletRole, n: string, name: string, c: string) {
    name == WalletName(w, n) && c == ConstraintPath(w, n)
  }

  /** The assignment is one the run makes for network `n`. */
  ghost predicate Made(g: Gen, n: string, put: Put) {
    match put
    case PutCaller(name, path) => exists c :: CallerMade(g, c, n, name, path)
    case PutWallet(name, c, _) =>
      || (g.req.sharedSender && name == SHARED_SENDER && c == SHARED_SENDER_CONSTRAINT)
      || exists w :: WalletMade(g, w, n, name, c)
    case PutPermission(path, b) => exists r :: RoleMade(g, r, n, path, b)
    case PutFsp(path, b) => exists m :: SignMade(g, m, n, path, b)
    case _ => true
  }

  ghost predicate AllMade(g: Gen, n: string, puts: seq<Put>) {
    forall put :: put in puts ==> Made(g, n, put)
  }

  lemma SubmitMade(g: Gen, r: Role, n: string)
    requires Wanted(g.req.capabilities, r) && Supported(g, r, n)
    ensures AllMade(g, n, SubmitPuts(g, r, n))
  {
    hide Wanted, Resolves, RoleBlock, Sigs, PermPath, CallerName;
    assert CallerMade(g, Submits(r), n, CallerName(Submits(r), n), PermPath(r, n));
    assert RoleMade(g, r, n, PermPath(r, n), RoleBlock(g, r, n, Sigs(g, r)));
  }

  lemma SignMadeBoth(g: Gen, m: SignRole, n: string)
    requires WantedSign(g.req.capabilities, m) && n in g.table
    ensures AllMade(g, n, SignPuts(g, m, n))
  {
    hide WantedSign, SignBlock, FspPath, CallerName;
    assert CallerMade(g, Signs(m), n, CallerName(Signs(m), n), FspPath(m, n));
    assert SignMade(g, m, n, FspPath(m, n), SignBlock(g, m, n));
  }

  lemma WalletMadeBoth(g: Gen, w: WalletRole, n: string, rate: RateLimit, keep: bool)
    ensures AllMade(g, n, WalletPuts(w, n, rate))
    ensures Made(g, n, PutWallet(WalletName(w, n), ConstraintPath(w, n), keep))
  {
    hide WalletName, ConstraintPath;
    assert WalletMade(g, w, n, WalletName(w, n), ConstraintPath(w, n));
  }

  /** The assignments of each role of the list are in the sequence, and no others. */
  lemma {:induction false} SubmitsMade(g: Gen, rs: seq<Role>, n: string)
    requires forall r :: r in rs ==> Supported(g, r, n)
    ensures (forall r :: r in rs ==> Wanted(g.req.capabilities, r)) ==> AllMade(g, n, SubmitPutsOf(g, rs, n))
    ensures forall r :: r in rs ==> forall put :: put in SubmitPuts(g, r, n) ==> put in SubmitPutsOf(g, rs, n)
    decreases |rs|
  {
    hide Supported, SubmitPuts, Made, Wanted;
    if rs != [] {
      var r, shorter := rs[|rs| - 1], rs[..|rs| - 1];
      SubmitsMade(g, shorter, n);
      if Wanted(g.req.capabilities, r) {
        SubmitMade(g, r, n);
      }
      assert forall x :: x in rs <==> x in shorter || x == r;
    }
  }

  lemma {:induction false} SignsMade(g: Gen, ms: seq<SignRole>, n: string)
    requires n in g.table
    ensures (forall m :: m in ms ==> WantedSign(g.req.capabilities, m)) ==> AllMade(g, n, SignPutsOf(g, ms, n))
    ensures forall m :: m in ms ==> forall put :: put in SignPuts(g, m, n) ==> put in SignPutsOf(g, ms, n)
    decreases |ms|
  {
    hide SignPuts, Made, WantedSign;
    if ms != [] {
      var m, shorter := ms[|ms| - 1], ms[..|ms| - 1];
      SignsMade(g, shorter, n);
      if WantedSign(g.req.capabilities, m) {
        SignMadeBoth(g, m, n);
      }
      assert forall x :: x in ms <==> x in shorter || x == m;
    }
  }

  lemma {:induction false} DedicatedMade(g: Gen, rs: seq<Role>, n: string)
    requires forall r :: r in rs ==> Supported(g, r, n)
    ensures (forall r :: r in rs ==> Wanted(g.req.capabilities, r)) ==> AllMade(g, n, DedicatedPutsOf(g, rs, n))
    ensures forall r :: r in rs ==>
              && (forall put :: put in SubmitPuts(g, r, n) ==> put in DedicatedPutsOf(g, rs, n))
              && (forall put :: put in WalletPuts(MainWallet(r), n, RoleRate(g.req, r)) ==>
                    put in DedicatedPutsOf(g, rs, n))
    decreases |rs|
  {
    hide Supported, SubmitPuts, Made, Wanted, WalletPuts;
    if rs != [] {
      var r, shorter := rs[|rs| - 1], rs[..|rs| - 1];
      DedicatedMade(g, shorter, n);
      WalletMadeBoth(g, MainWallet(r), n, RoleRate(g.req, r), true);
      if Wanted(g.req.capabilities, r) {
        SubmitMade(g, r, n);
      }
      assert forall x :: x in rs <==> x in shorter || x == r;
    }
  }

  lemma {:induction false} ConfirmsMade(g: Gen, rs: seq<Role>, n: string)
    requires forall r :: r in rs ==> Supported(g, r, n)
    ensures (forall r :: r in rs ==> Wanted(g.req.capabilities, r)) ==> AllMade(g, n, ConfirmPutsOf(g, rs, n))
    ensures forall r :: r in rs ==> forall put :: put in SubmitPuts(g, r, n) ==> put in ConfirmPutsOf(g, rs, n)
    decreases |rs|
  {
    hide Supported, SubmitPuts, Made, Wanted, WalletName, ConstraintPath;
    if rs != [] {
      var r, shorter := rs[|rs| - 1], rs[..|rs| - 1];
      ConfirmsMade(g, shorter, n);
      WalletMadeBoth(g, MainWallet(r), n, g.req.fspRate, true);
      if Wanted(g.req.capabilities, r) {
        SubmitMade(g, r, n);
      }
      assert forall x :: x in rs <==> x in shorter || x == r;
    }
  }

  lemma SenderMade(g: Gen, n: string)
    ensures AllMade(g, n, SenderPuts(g.req, n))
  {
    hide WalletName, ConstraintPath;
    if !g.req.sharedSender {
      assert WalletMade(g, Sender, n, WalletName(Sender, n), ConstraintPath(Sender, n));
    }
  }

  lemma NetMade(g: Gen, n: string)
    requires SupportsAll(g, n)
    ensures AllMade(g, n, NetPuts(g, n))
  {
    hide Supported, Made, WalletPuts, SenderPuts, SignPutsOf, SubmitPutsOf, DedicatedPutsOf, ConfirmPutsOf;
    var caps := g.req.capabilities;
    if ClaimCap in caps {
      DedicatedMade(g, [Claim], n);
    }
    if FspCap in caps {
      SubmitsMade(g, FSP_SUBMITS, n);
      SignsMade(g, FSP_SIGNS, n);
    }
    if VoterCap in caps {
      DedicatedMade(g, VOTER_DEDICATED, n);
      SubmitsMade(g, VOTER_SUBMITS, n);
      SignsMade(g, VOTER_SIGNS, n);
    }
    if RegisterCap in caps {
      ConfirmsMade(g, CONFIRMS, n);
    }
    WalletMadeBoth(g, Signing, n, g.req.fspRate, true);
    SenderMade(g, n);
    SelfSubmitMade(g, n);
    hide SubmitPuts, SignPuts;
  }

  lemma SelfSubmitMade(g: Gen, n: string)
    ensures AllMade(g, n, [PutSelfSubmit(WalletName(Signing, n))])
  {
  }

  // ---------- Everything wanted is there ----------

  /** The assignments of each group of roles are among those for the network. */
  lemma GroupsIncluded(g: Gen, n: string)
    requires SupportsAll(g, n)
    ensures ClaimCap in g.req.capabilities ==>
              forall put :: put in DedicatedPutsOf(g, [Claim], n) ==> put in NetPuts(g, n)
    ensures FspCap in g.req.capabilities ==>
              && (forall put :: put in SubmitPutsOf(g, FSP_SUBMITS, n) ==> put in NetPuts(g, n))
              && (forall put :: put in SignPutsOf(g, FSP_SIGNS, n) ==> put in NetPuts(g, n))
    ensures VoterCap in g.req.capabilities ==>
              && (forall put :: put in DedicatedPutsOf(g, VOTER_DEDICATED, n) ==> put in NetPuts(g, n))
              && (forall put :: put in SubmitPutsOf(g, VOTER_SUBMITS, n) ==> put in NetPuts(g, n))
              && (forall put :: put in SignPutsOf(g, VOTER_SIGNS, n) ==> put in NetPuts(g, n))
    ensures RegisterCap in g.req.capabilities ==>
              forall put :: put in ConfirmPutsOf(g, CONFIRMS, n) ==> put in NetPuts(g, n)
  {
    hide Supported, WalletPuts, SenderPuts, SignPutsOf, SubmitPutsOf, DedicatedPutsOf, ConfirmPutsOf;
  }

  lemma RolePut(g: Gen, r: Role, n: string)
    requires SupportsAll(g, n) && Wanted(g.req.capabilities, r)
    ensures forall put :: put in SubmitPuts(g, r, n) ==> put in NetPuts(g, n)
  {
    hide Supported, SignPutsOf, SubmitPutsOf, DedicatedPutsOf, ConfirmPutsOf, SubmitPuts, NetPuts;
    GroupsIncluded(g, n);
    if r == Claim {
      DedicatedMade(g, [Claim], n);
      assert Claim in [Claim];
    } else if r in FSP_SUBMITS {
      SubmitsMade(g, FSP_SUBMITS, n);
    } else if r in VOTER_DEDICATED {
      DedicatedMade(g, VOTER_DEDICATED, n);
    } else if r in VOTER_SUBMITS {
      SubmitsMade(g, VOTER_SUBMITS, n);
    } else {
      ConfirmsMade(g, CONFIRMS, n);
    }
  }

  lemma SignPut(g: Gen, m: SignRole, n: string)
    requires SupportsAll(g, n) && WantedSign(g.req.capabilities, m)
    ensures forall put :: put in SignPuts(g, m, n) ==> put in NetPuts(g, n)
  {
    hide Supported, SignPutsOf, SubmitPutsOf, DedicatedPutsOf, ConfirmPutsOf, SignPuts, NetPuts;
    GroupsIncluded(g, n);
    if m in FSP_SIGNS {
      SignsMade(g, FSP_SIGNS, n);
    } else {
      SignsMade(g, VOTER_SIGNS, n);
    }
  }

  lemma {:induction false} RunMade(g: Gen, nets: seq<string>)
    requires forall n :: n in nets ==> SupportsAll(g, n)
    ensures forall put :: put in RunPuts(g, nets) ==> exists n :: n in nets && put in NetPuts(g, n)
    ensures forall n :: n in nets ==> forall put :: put in NetPuts(g, n) ==> put in RunPuts(g, nets)
    decreases |nets|
  {
    hide SupportsAll, NetPuts;
    if nets != [] {
      var n, shorter := nets[|nets| - 1], nets[..|nets| - 1];
      RunMade(g, shorter);
      assert forall x :: x in nets <==> x in shorter || x == n;
      forall put | put in RunPuts(g, nets) ensures exists m :: m in nets && put in NetPuts(g, m) {
        if put in RunPuts(g, shorter) {
          var m :| m in shorter && put in NetPuts(g, m);
          assert m in nets;
        } else {
          assert n in nets && put in NetPuts(g, n);
        }
      }
    }
  }

  lemma PutIsThere(puts: seq<Put>, put: Put)
    requires put in puts
    ensures GeneratedPolicies.Has(ApplyAll(EMPTY_POLICY, puts), put)
  {
    GeneratedPolicies.ApplyAllHas(EMPTY_POLICY, puts);
    var i :| 0 <= i < |puts| && puts[i] == put;
    hide GeneratedPolicies.Has, ApplyAll;
  }

  /** An assignment that a run makes, and the network it is for. */
  lemma MadeByRun(g: Gen, put: Put) returns (n: string)
    requires Generated(g).Some? && put in RunPuts(g, g.req.networks)
    ensures n in g.req.networks && Made(g, n, put)
  {
    hide SupportsAll, NetPuts, ApplyAll, Made;
    RunMade(g, g.req.networks);
    n :| n in g.req.networks && put in NetPuts(g, n);
    NetMade(g, n);
  }

  // ---------- Which entries there are ----------

  lemma RoleIsThere(g: Gen, r: Role, n: string)
    requires Generated(g).Some? && n in g.req.networks && Wanted(g.req.capabilities, r)
    ensures PermPath(r, n) in Generated(g).value.permissions
    ensures CallerName(Submits(r), n) in Generated(g).value.callers
  {
    hide NetPuts, ApplyAll, PermPath, Wanted, RunPuts, RoleBlock, CallerName, SupportsAll;
    SupportedOfAll(g, r, n);
    RunMade(g, g.req.networks);
    RolePut(g, r, n);
    hide Supported, Sigs;
    var puts := SubmitPuts(g, r, n);
    assert puts[0] in puts && puts[1] in puts;
    PutIsThere(RunPuts(g, g.req.networks), puts[0]);
    PutIsThere(RunPuts(g, g.req.networks), puts[1]);
  }

  lemma SupportedOfAll(g: Gen, r: Role, n: string)
    requires SupportsAll(g, n) && Wanted(g.req.capabilities, r)
    ensures Supported(g, r, n)
  {
    hide Supported, Wanted;
  }

  lemma SignIsThere(g: Gen, m: SignRole, n: string)
    requires Generated(g).Some? && n in g.req.networks && WantedSign(g.req.capabilities, m)
    ensures FspPath(m, n) in Generated(g).value.fspPermissions
    ensures CallerName(Signs(m), n) in Generated(g).value.callers
  {
    hide NetPuts, ApplyAll, FspPath, WantedSign, RunPuts, SignBlock, CallerName, SupportsAll;
    NamedIsInTable(g, n);
    RunMade(g, g.req.networks);
    SignPut(g, m, n);
    var puts := SignPuts(g, m, n);
    assert puts[0] in puts && puts[1] in puts;
    PutIsThere(RunPuts(g, g.req.networks), puts[0]);
    PutIsThere(RunPuts(g, g.req.networks), puts[1]);
  }

  lemma NamedIsInTable(g: Gen, n: string)
    requires SupportsAll(g, n)
    ensures n in g.table
  {
  }

  lemma SourcedEntries(p: Policy, puts: seq<Put>)
    requires AllSourced(p, puts)
    ensures forall path :: path in p.permissions ==> PutPermission(path, p.permissions[path]) in puts
    ensures forall path :: path in p.fspPermissions ==> PutFsp(path, p.fspPermissions[path]) in puts
    ensures forall n :: n in p.callers ==>
              PutCaller(n, p.callers[n].policyPath) in puts && p.callers[n].capabilityId.None?
  {
  }

  /** The block at a role's path is the role's block, and it is there exactly for the wanted roles of the named
      networks. */
  lemma BlockOfRole(g: Gen, r: Role, n: string)
    requires Generated(g).Some?
    ensures var p := Generated(g).value;
            && (PermPath(r, n) in p.permissions <==> n in g.req.networks && Wanted(g.req.capabilities, r))
            && (PermPath(r, n) in p.permissions ==> RoleMade(g, r, n, PermPath(r, n), p.permissions[PermPath(r, n)]))
  {
    hide SupportsAll, NetPuts, ApplyAll, PermPath, Wanted, Supported, RunPuts, RoleBlock, AllSourced, SubmitPuts,
      RoleMade;
    var puts, path := RunPuts(g, g.req.networks), PermPath(r, n);
    var p := Generated(g).value;
    Sourced(puts);
    SourcedEntries(p, puts);
    if path in p.permissions {
      var m := MadeByRun(g, PutPermission(path, p.permissions[path]));
      var role :| RoleMade(g, role, m, path, p.permissions[path]);
      RoleMadePath(g, role, m, path, p.permissions[path]);
      PermPathInjective(r, n, role, m);
    }
    if n in g.req.networks && Wanted(g.req.capabilities, r) {
      RoleIsThere(g, r, n);
    }
  }

  lemma RoleMadePath(g: Gen, r: Role, n: string, path: string, b: PermissionBlock)
    requires RoleMade(g, r, n, path, b)
    ensures path == PermPath(r, n) && Wanted(g.req.capabilities, r)
  {
  }

  lemma FspOfRole(g: Gen, m: SignRole, n: string)
    requires Generated(g).Some?
    ensures var p := Generated(g).value;
            && (FspPath(m, n) in p.fspPermissions <==> n in g.req.networks && WantedSign(g.req.capabilities, m))
            && (FspPath(m, n) in p.fspPermissions ==>
                  SignMade(g, m, n, FspPath(m, n), p.fspPermissions[FspPath(m, n)]))
  {
    hide SupportsAll, NetPuts, ApplyAll, FspPath, WantedSign, RunPuts, SignBlock, AllSourced, SignPuts;
    var puts, path := RunPuts(g, g.req.networks), FspPath(m, n);
    var p := Generated(g).value;
    Sourced(puts);
    SourcedEntries(p, puts);
    if path in p.fspPermissions {
      var k := MadeByRun(g, PutFsp(path, p.fspPermissions[path]));
      var role :| SignMade(g, role, k, path, p.fspPermissions[path]);
      FspPathInjective(m, n, role, k);
    }
    if n in g.req.networks && WantedSign(g.req.capabilities, m) {
      SignIsThere(g, m, n);
    }
  }

  predicate WantedCaller(caps: set<Capability>, c: CallerRole) {
    match c
    case Submits(r) => Wanted(caps, r)
    case Signs(m) => WantedSign(caps, m)
  }

  function CallerPath(c: CallerRole, n: string): string {
    match c
    case Submits(r) => PermPath(r, n)
    case Signs(m) => FspPath(m, n)
  }

  /** A caller is bound to the path of its role, and it is there exactly for the wanted roles of the named networks. */
  lemma CallerOfRole(g: Gen, c: CallerRole, n: string)
    requires Generated(g).Some?
    ensures var p := Generated(g).value;
            && (CallerName(c, n) in p.callers <==> n in g.req.networks && WantedCaller(g.req.capabilities, c))
            && (CallerName(c, n) in p.callers ==>
                  p.callers[CallerName(c, n)] == CallerBinding(CallerPath(c, n), None))
  {
    hide SupportsAll, NetPuts, ApplyAll, FspPath, PermPath, WantedSign, Wanted, RunPuts, AllSourced, CallerName;
    var puts, name := RunPuts(g, g.req.networks), CallerName(c, n);
    var p := Generated(g).value;
    Sourced(puts);
    SourcedEntries(p, puts);
    if name in p.callers {
      var k := MadeByRun(g, PutCaller(name, p.callers[name].policyPath));
      var role :| CallerMade(g, role, k, name, p.callers[name].policyPath);
      CallerNameInjective(c, n, role, k);
    }
    if n in g.req.networks && WantedCaller(g.req.capabilities, c) {
      match c {
        case Submits(r) => RoleIsThere(g, r, n);
        case Signs(m) => SignIsThere(g, m, n);
      }
    }
  }

  // ---------- What the entries say ----------

  /** `s` is a signature of the function called `name`. */
  predicate Named(s: string, name: string) {
    s == name || name + "(" <= s
  }

  lemma {:induction false} BaseNameIs(s: string, name: string)
    requires '(' !in name
    ensures BaseName(s) == name <==> Named(s, name)
    decreases |s|
  {
    if s != "" && s[0] != '(' && name != "" {
      assert s == [s[0]] + s[1..] && name == [name[0]] + name[1..];
      BaseNameIs(s[1..], name[1..]);
      assert name + "(" == [name[0]] + (name[1..] + "(");
      assert s[0] == name[0] ==> (name + "(" <= s <==> name[1..] + "(" <= s[1..]);
    } else if s != "" && s[0] == '(' {
      assert name != "" ==> (name + "(")[0] == name[0] != '(';
    }
  }

  lemma ConfirmNamesArePlain()
    ensures '(' !in "confirmSubmitAddressRegistration" && '(' !in "confirmSigningPolicyAddressRegistration"
  {
  }

  lemma LongNameIsPlain()
    ensures '(' !in "confirmSubmitSignaturesAddressRegistration"
  {
  }

  lemma SignNamesArePlain()
    ensures '(' !in "signUptimeVote" && '(' !in "signRewards" && '(' !in "signNewSigningPolicy"
    ensures '(' !in "registerVoter" && '(' !in "relay" && '(' !in "claim"
  {
  }

  lemma SubmitNamesArePlain()
    ensures '(' !in "submit1" && '(' !in "submit2" && '(' !in "submit3" && '(' !in "submitSignatures"
    ensures '(' !in "submitUpdates"
  {
  }

  lemma NamesArePlain(r: Role)
    ensures forall name :: name in MethodNames(r) ==> '(' !in name
  {
    ConfirmNamesArePlain();
    LongNameIsPlain();
    SignNamesArePlain();
    SubmitNamesArePlain();
  }

  lemma {:induction false} SigsHave(g: Gen, abi: string, names: seq<string>)
    requires forall name :: name in names ==> SigFor(g.registry, abi, name).Some?
    ensures forall name :: name in names ==> SigFor(g.registry, abi, name).value in SigsFrom(g, abi, names)
    decreases |names|
  {
    hide SigFor;
    if names != [] {
      var shorter := names[..|names| - 1];
      SigsHave(g, abi, shorter);
      assert forall x :: x in names <==> x in shorter || x == names[|names| - 1];
    }
  }

  /** `s` is a registered signature of a function of that name. */
  predicate Registered(registry: Registry, abi: string, s: string, name: string) {
    s in SignaturesFor(registry, abi) && Named(s, name)
  }

  lemma MatchesNamed(registry: Registry, abi: string, name: string)
    requires '(' !in name
    ensures forall s :: s in Matches(registry, abi, name) <==> Registered(registry, abi, s, name)
  {
    hide Named, SignaturesFor;
    forall s ensures BaseName(s) == name <==> Named(s, name) {
      BaseNameIs(s, name);
    }
    hide BaseName;
  }

  /** The methods of a role: for each of its names the one registered signature of that name. */
  lemma SigsAreRegistered(g: Gen, r: Role)
    requires Resolves(g, r)
    ensures forall s :: s in Sigs(g, r) <==>
              exists name :: name in MethodNames(r) && Registered(g.registry, Abi(r), s, name)
  {
    NamesArePlain(r);
    var names, abi := MethodNames(r), Abi(r);
    GeneratedPolicies.SigsAreMatches(g, abi, names);
    SigsHave(g, abi, names);
    forall name | name in names
      ensures forall s :: s in Matches(g.registry, abi, name) <==> Registered(g.registry, abi, s, name)
      ensures SigFor(g.registry, abi, name).Some?
           && Matches(g.registry, abi, name) == {SigFor(g.registry, abi, name).value}
    {
      MatchesNamed(g.registry, abi, name);
    }
    hide Matches, SigFor, Registered, MethodNames, Abi;
    forall s ensures s in SigsFrom(g, abi, names) <==>
                       exists name :: name in names && Registered(g.registry, abi, s, name) {
      if s in SigsFrom(g, abi, names) {
        var name :| name in names && Matches(g.registry, abi, name) == {s};
        assert s in Matches(g.registry, abi, name);
        assert Registered(g.registry, abi, s, name);
      }
      if name :| name in names && Registered(g.registry, abi, s, name) {
        assert s in Matches(g.registry, abi, name);
      }
    }
  }

  /** For network `n` the policy has this caller, bound to a block with one contract, of this ABI, at the network's
      address and on its chain, whose methods are the registered ones of these names, all without value, with these
      arguments pinned and the others open or not; these wallets may be used, at this rate. */
  ghost predicate SubmitRule(g: Gen, n: string, caller: string, path: string, wallets: seq<string>, abi: string,
                             names: seq<string>, pinned: seq<(string, Scalar)>, open: bool, rate: RateLimit)
    requires Generated(g).Some?
  {
    var p := Generated(g).value;
    && caller + n in p.callers && p.callers[caller + n] == CallerBinding(path + n, None)
    && path + n in p.permissions
    && BlockSays(g, n, p.permissions[path + n], wallets, abi, names, pinned, open, rate)
  }

  /** The methods are, for each of the names, the one registered function of that name, all under one rule. */
  ghost predicate MethodsSay(registry: Registry, abi: string, methods: map<string, MethodRule>, names: seq<string>,
                             rule: MethodRule) {
    && (forall s :: s in methods <==> exists name :: name in names && Registered(registry, abi, s, name))
    && (forall name :: name in names ==> exists s :: OnlyNamed(registry, abi, s, name))
    && (forall s :: s in methods ==> methods[s] == rule)
  }

  /** The one registered function of that name. */
  ghost predicate OnlyNamed(registry: Registry, abi: string, s: string, name: string) {
    Registered(registry, abi, s, name) && forall t :: Registered(registry, abi, t, name) ==> t == s
  }

  ghost predicate BlockSays(g: Gen, n: string, b: PermissionBlock, wallets: seq<string>, abi: string,
                            names: seq<string>, pinned: seq<(string, Scalar)>, open: bool, rate: RateLimit) {
    && b.walletAllowlist == wallets && b.rate == Some(rate) && |b.contracts| == 1
    && n in g.table && abi in g.table[n].addresses && b.contracts[0].0 == g.table[n].addresses[abi]
    && b.contracts[0].1.abi == abi && b.contracts[0].1.chains == [g.table[n].chainId]
    && MethodsSay(g.registry, abi, b.contracts[0].1.methods, names, MethodRule("0", pinned, open))
  }

  lemma OneIsNamed(g: Gen, abi: string, name: string) returns (s: string)
    requires '(' !in name && SigFor(g.registry, abi, name).Some?
    ensures OnlyNamed(g.registry, abi, s, name)
  {
    MatchesNamed(g.registry, abi, name);
    s := SigFor(g.registry, abi, name).value;
    hide Registered;
    assert s in Matches(g.registry, abi, name);
    hide Matches;
  }

  lemma RoleMethodsSay(g: Gen, r: Role, rule: MethodRule)
    requires Resolves(g, r)
    ensures MethodsSay(g.registry, Abi(r), map s | s in Sigs(g, r) :: rule, MethodNames(r), rule)
  {
    SigsAreRegistered(g, r);
    NamesArePlain(r);
    hide Registered, Matches, Sigs, Abi, MethodNames, OnlyNamed, SigFor;
    forall name | name in MethodNames(r) ensures exists s :: OnlyNamed(g.registry, Abi(r), s, name) {
      var s := OneIsNamed(g, Abi(r), name);
    }
  }

  lemma RoleBlockSays(g: Gen, r: Role, n: string)
    requires Supported(g, r, n)
    ensures var rule := RuleOf(g.req, r);
            BlockSays(g, n, RoleBlock(g, r, n, Sigs(g, r)), Allowlist(g.req, r, n), Abi(r), MethodNames(r),
                      rule.argPredicates, rule.allowUnconstrainedArgs, RoleRate(g.req, r))
  {
    GeneratedPolicies.RuleHasNoValue(g.req, r);
    var rule := RuleOf(g.req, r);
    RoleMethodsSay(g, r, rule);
    assert rule == MethodRule("0", rule.argPredicates, rule.allowUnconstrainedArgs);
    hide MethodsSay, Sigs, RuleOf, Allowlist, RoleRate, Abi, MethodNames, Resolves;
  }

  /** In terms of the generator's tables. */
  lemma RoleRule(g: Gen, r: Role, n: string)
    requires Generated(g).Some? && n in g.req.networks && Wanted(g.req.capabilities, r)
    ensures var rule := RuleOf(g.req, r);
            SubmitRule(g, n, CallerPrefix(Submits(r)), PermPrefix(r), Allowlist(g.req, r, n), Abi(r), MethodNames(r),
                       rule.argPredicates, rule.allowUnconstrainedArgs, RoleRate(g.req, r))
  {
    BlockOfRole(g, r, n);
    CallerOfRole(g, Submits(r), n);
    assert Supported(g, r, n);
    RoleBlockSays(g, r, n);
    hide Generated, BlockSays, Wanted, Supported, RuleOf, Allowlist, RoleRate, Abi, MethodNames;
  }

  /** For network `n` the policy has this caller, bound to a block that lets it have one message type signed, with the
      network's signing wallet, for the network's chain. */
  ghost predicate SignRule(g: Gen, n: string, caller: string, path: string, messageType: string)
    requires Generated(g).Some?
  {
    var p := Generated(g).value;
    && caller + n in p.callers && p.callers[caller + n] == CallerBinding(path + n, None)
    && path + n in p.fspPermissions && n in g.table
    && p.fspPermissions[path + n] ==
       FspPermissionBlock([messageType], ["fsp-signing-" + n], [g.table[n].chainId], Some(g.req.fspRate))
  }

  lemma SignRoleRule(g: Gen, m: SignRole, n: string)
    requires Generated(g).Some? && n in g.req.networks && WantedSign(g.req.capabilities, m)
    ensures SignRule(g, n, CallerPrefix(Signs(m)), FspPrefix(m), MessageType(m))
  {
    FspOfRole(g, m, n);
    CallerOfRole(g, Signs(m), n);
    hide Generated, WantedSign, MessageType;
  }

  // ---------- Wallets ----------

  lemma WalletPut(g: Gen, w: WalletRole, n: string)
    requires SupportsAll(g, n) && NetworkIsolation.Writes(g.req, w) && w != Sender
    ensures PutWallet(WalletName(w, n), ConstraintPath(w, n), false) in NetPuts(g, n)
  {
    hide Supported, SenderPuts, SignPutsOf, SubmitPutsOf, DedicatedPutsOf, ConfirmPutsOf, SubmitPuts, WalletName,
      ConstraintPath;
    var put := PutWallet(WalletName(w, n), ConstraintPath(w, n), false);
    if w == Claimer {
      DedicatedMade(g, [Claim], n);
      assert Claim in [Claim] && put in WalletPuts(Claimer, n, RoleRate(g.req, Claim));
    } else if w == Signing {
      assert put in WalletPuts(Signing, n, g.req.fspRate);
    } else {
      var r := NetworkIsolation.DedicatedRole(w);
      DedicatedMade(g, VOTER_DEDICATED, n);
      assert MainWallet(r) == w && r in VOTER_DEDICATED;
      assert put in WalletPuts(w, n, RoleRate(g.req, r));
    }
  }

  /** A wallet that is bound is bound to its own constraint. */
  lemma BoundToOwn(g: Gen, w: WalletRole, n: string)
    requires Generated(g).Some? && WalletName(w, n) in Generated(g).value.wallets
    ensures Generated(g).value.wallets[WalletName(w, n)] == ConstraintPath(w, n)
  {
    hide SupportsAll, NetPuts, ApplyAll, RunPuts, AllSourced, WalletName, ConstraintPath;
    var puts, name := RunPuts(g, g.req.networks), WalletName(w, n);
    var p := Generated(g).value;
    Sourced(puts);
    SourcedWallets(p, puts);
    var keep :| PutWallet(name, p.wallets[name], keep) in puts;
    var k := MadeByRun(g, PutWallet(name, p.wallets[name], keep));
    SharedSenderDistinct(w, n);
    var role :| WalletMade(g, role, k, name, p.wallets[name]);
    WalletNameInjective(w, n, role, k);
  }

  lemma SourcedWallets(p: Policy, puts: seq<Put>)
    requires AllSourced(p, puts)
    ensures forall w :: w in p.wallets ==> exists keep :: PutWallet(w, p.wallets[w], keep) in puts
  {
  }

  /** The wallet is bound to the constraint, which lets no value out and sets this rate. */
  ghost predicate PaysNothing(g: Gen, wallet: string, constraint: string, rate: RateLimit)
    requires Generated(g).Some?
  {
    var p := Generated(g).value;
    && wallet in p.wallets && p.wallets[wallet] == constraint
    && constraint in p.walletConstraints && p.walletConstraints[constraint] == WalletConstraint(Some("0"), Some(rate))
  }

  lemma WalletIsBound(g: Gen, w: WalletRole, n: string)
    requires Generated(g).Some? && n in g.req.networks && NetworkIsolation.Writes(g.req, w)
    ensures WalletName(w, n) in Generated(g).value.wallets
  {
    hide NetPuts, ApplyAll, RunPuts, WalletName, ConstraintPath, SupportsAll, GeneratedPolicies.HasAll,
      NetworkIsolation.Writes;
    if w == Sender {
      GeneratedPolicies.ApplyAllHas(EMPTY_POLICY, RunPuts(g, g.req.networks));
      GeneratedPolicies.RunHasNet(g, g.req.networks, n, Generated(g).value);
      SenderIsPerNetwork(g.req, n);
      NetworkIsolation.FspWrites(g, n, Generated(g).value);
    } else {
      RunMade(g, g.req.networks);
      WalletPut(g, w, n);
      PutIsThere(RunPuts(g, g.req.networks), PutWallet(WalletName(w, n), ConstraintPath(w, n), false));
    }
  }

  lemma SenderIsPerNetwork(req: Request, n: string)
    requires NetworkIsolation.Writes(req, Sender)
    ensures SenderName(req, n) == WalletName(Sender, n) && FspCap in req.capabilities
  {
  }

  /** What the constraint of a role's wallet says; paths that coincide carry the same rate. */
  lemma ConstraintSays(g: Gen, w: WalletRole, n: string)
    requires Generated(g).Some? && n in g.req.networks && NetworkIsolation.Writes(g.req, w)
    ensures var p, c := Generated(g).value, ConstraintPath(w, n);
            c in p.walletConstraints
            && p.walletConstraints[c] == WalletConstraint(Some("0"), Some(NetworkIsolation.ConstraintRate(g.req, w)))
  {
    hide SupportsAll, RunPuts, ApplyAll, ConstraintPath, NetworkIsolation.Writes, NetworkIsolation.OwnKeys;
    NetworkIsolation.WrittenConstraints(g, ConstraintPath(w, n));
    NetworkIsolation.RunOwn(g, g.req.networks, g.req.networks);
    OwnConstraint(g.req, g.req.networks, Generated(g).value, w, n);
  }

  lemma OwnConstraint(req: Request, nets: seq<string>, p: Policy, w: WalletRole, n: string)
    requires NetworkIsolation.OwnKeys(req, nets, p) && ConstraintPath(w, n) in p.walletConstraints
    ensures p.walletConstraints[ConstraintPath(w, n)] ==
            WalletConstraint(Some("0"), Some(NetworkIsolation.ConstraintRate(req, w)))
  {
    hide CallerName, WalletName, PermPath, FspPath, ConstraintPath, NetworkIsolation.Writes;
    var c := ConstraintPath(w, n);
    NetworkIsolation.SharedPathIs(w, n);
    forall m, v | c == ConstraintPath(v, m) ensures v == Claimer <==> w == Claimer {
      ConstraintPathClash(w, n, v, m);
    }
  }

  lemma WalletRule(g: Gen, w: WalletRole, n: string)
    requires Generated(g).Some? && n in g.req.networks && NetworkIsolation.Writes(g.req, w)
    ensures PaysNothing(g, WalletPrefix(w) + n, ConstraintPrefix(w) + n, NetworkIsolation.ConstraintRate(g.req, w))
  {
    WalletIsBound(g, w, n);
    BoundToOwn(g, w, n);
    ConstraintSays(g, w, n);
    hide Generated;
  }

  lemma SharedSenderRule(g: Gen)
    requires Generated(g).Some? && NetworkIsolation.WritesShared(g.req)
    ensures PaysNothing(g, "fsp-sender", "wc/fsp-sender", g.req.fspRate)
  {
    hide SupportsAll, RunPuts, ApplyAll, ConstraintPath, NetworkIsolation.OwnKeys;
    NetworkIsolation.SharedIsWritten(g);
    NetworkIsolation.RunOwn(g, g.req.networks, g.req.networks);
    NetworkIsolation.SharedSenderBound(g.req, g.req.networks, Generated(g).value);
    assert SHARED_SENDER_CONSTRAINT == ConstraintPath(Signing, "sender") by {
      NetworkIsolation.SharedPathIs(Signing, "sender");
    }
    OwnConstraint(g.req, g.req.networks, Generated(g).value, Signing, "sender");
  }

  // ---------- Capability by capability ----------

  /** What `claim` generates for a network: the claim is pinned to the recipient the run was given. */
  lemma ClaimRules(g: Gen, n: string)
    requires Generated(g).Some? && n in g.req.networks && ClaimCap in g.req.capabilities
    ensures g.req.recipient.Some? && g.req.recipient.value != ""
    ensures SubmitRule(g, n, "claim-", "perm/claim-", ["claimer-" + n], "reward_manager", ["claim"],
                       [("_recipient", TextScalar(g.req.recipient.value))], true, g.req.claimRate)
    ensures PaysNothing(g, "claimer-" + n, "wc/claimer-" + n, g.req.claimRate)
  {
    hide Generated, SubmitRule, PaysNothing;
    RoleRule(g, Claim, n);
    WalletRule(g, Claimer, n);
    assert Allowlist(g.req, Claim, n) == ["claimer-" + n];
    RecipientGiven(g);
  }

  lemma RecipientGiven(g: Gen)
    requires Generated(g).Some?
    ensures ClaimCap in g.req.capabilities ==> g.req.recipient.Some? && g.req.recipient.value != ""
    ensures RegisterCap in g.req.capabilities ==> g.req.identity.Some? && g.req.identity.value != ""
  {
    hide SupportsAll, RunPuts;
  }

  /** What `fsp` generates: one caller signs and one submits per message, the signing wallet submits its own votes and
      the sender pays. */
  lemma FspRules(g: Gen, n: string)
    requires Generated(g).Some? && n in g.req.networks && FspCap in g.req.capabilities
    ensures var sender := if g.req.sharedSender then "fsp-sender" else "fsp-sender-" + n;
            var payers, anyEpoch := ["fsp-signing-" + n, sender], [("_rewardEpochId", TextScalar("any"))];
            && SubmitRule(g, n, "uptime-vote-submit-", "perm/uptime-submit-", payers, "flare_systems_manager",
                          ["signUptimeVote"], anyEpoch, true, g.req.fspRate)
            && SubmitRule(g, n, "reward-distribution-submit-", "perm/reward-submit-", payers, "flare_systems_manager",
                          ["signRewards"], anyEpoch, true, g.req.fspRate)
            && PaysNothing(g, sender, if g.req.sharedSender then "wc/fsp-sender" else "wc/fsp-sender-" + n,
                           g.req.fspRate)
    ensures SignRule(g, n, "uptime-vote-sign-", "fsp/uptime-", "UPTIME")
    ensures SignRule(g, n, "reward-distribution-sign-", "fsp/reward-", "REWARD_DISTRIBUTION")
    ensures PaysNothing(g, "fsp-signing-" + n, "wc/fsp-" + n, g.req.fspRate)
  {
    hide Generated, SubmitRule, PaysNothing, SignRule;
    RoleRule(g, UptimeSubmit, n);
    RoleRule(g, RewardSubmit, n);
    SignRoleRule(g, UptimeSign, n);
    SignRoleRule(g, RewardSign, n);
    WalletRule(g, Signing, n);
    if g.req.sharedSender {
      SharedSenderRule(g);
    } else {
      WalletRule(g, Sender, n);
    }
    var sender := if g.req.sharedSender then "fsp-sender" else "fsp-sender-" + n;
    assert Allowlist(g.req, UptimeSubmit, n) == ["fsp-signing-" + n, sender];
    assert Allowlist(g.req, RewardSubmit, n) == ["fsp-signing-" + n, sender];
  }

  /** What `fsp-voter` generates to sign. */
  lemma VoterSignRules(g: Gen, n: string)
    requires Generated(g).Some? && n in g.req.networks && VoterCap in g.req.capabilities
    ensures SignRule(g, n, "signing-policy-sign-", "fsp/signing-policy-", "SIGNING_POLICY")
    ensures SignRule(g, n, "voter-registration-sign-", "fsp/voter-registration-", "VOTER_REGISTRATION")
  {
    hide Generated, SignRule;
    SignRoleRule(g, PolicySign, n);
    SignRoleRule(g, VoterSign, n);
  }

  lemma RoundSignRules(g: Gen, n: string)
    requires Generated(g).Some? && n in g.req.networks && VoterCap in g.req.capabilities
    ensures SignRule(g, n, "protocol-message-sign-", "fsp/protocol-message-", "PROTOCOL_PAYLOAD")
    ensures SignRule(g, n, "fastupdate-sign-", "fsp/fastupdate-sign-", "FAST_UPDATE")
  {
    hide Generated, SignRule;
    SignRoleRule(g, ProtocolSign, n);
    SignRoleRule(g, FastUpdateSign, n);
  }

  /** A role that leaves the arguments open and lists one wallet. */
  lemma OpenRoleRule(g: Gen, r: Role, n: string)
    requires Generated(g).Some? && n in g.req.networks && Wanted(g.req.capabilities, r)
    requires r != Claim && !PaidBySender(r) && !IsConfirm(r)
    ensures SubmitRule(g, n, CallerPrefix(Submits(r)), PermPrefix(r), [WalletName(MainWallet(r), n)], Abi(r),
                       MethodNames(r), [], true, g.req.fspRate)
  {
    hide Generated, SubmitRule, Abi, MethodNames, MainWallet, CallerPrefix, PermPrefix, WalletName;
    RoleRule(g, r, n);
    assert Allowlist(g.req, r, n) == [WalletName(MainWallet(r), n)];
  }

  /** What it generates to submit: three fast-update seats, */
  lemma FirstSeatRule(g: Gen, n: string)
    requires Generated(g).Some? && n in g.req.networks && VoterCap in g.req.capabilities
    ensures SubmitRule(g, n, "fastupdate-submit-1-", "perm/fastupdate-submit-1-", ["fastupdate-1-" + n],
                       "fast_updater", ["submitUpdates"], [], true, g.req.fspRate)
  {
    hide Generated, SubmitRule;
    OpenRoleRule(g, FastUpdate1, n);
  }

  lemma SecondSeatRule(g: Gen, n: string)
    requires Generated(g).Some? && n in g.req.networks && VoterCap in g.req.capabilities
    ensures SubmitRule(g, n, "fastupdate-submit-2-", "perm/fastupdate-submit-2-", ["fastupdate-2-" + n],
                       "fast_updater", ["submitUpdates"], [], true, g.req.fspRate)
  {
    hide Generated, SubmitRule;
    OpenRoleRule(g, FastUpdate2, n);
  }

  lemma ThirdSeatRule(g: Gen, n: string)
    requires Generated(g).Some? && n in g.req.networks && VoterCap in g.req.capabilities
    ensures SubmitRule(g, n, "fastupdate-submit-3-", "perm/fastupdate-submit-3-", ["fastupdate-3-" + n],
                       "fast_updater", ["submitUpdates"], [], true, g.req.fspRate)
  {
    hide Generated, SubmitRule;
    OpenRoleRule(g, FastUpdate3, n);
  }

  /** two submission wallets, */
  lemma SubmissionRules(g: Gen, n: string)
    requires Generated(g).Some? && n in g.req.networks && VoterCap in g.req.capabilities
    ensures SubmitRule(g, n, "ftso-price-submit-", "perm/ftso-price-submit-", ["fsp-submit-" + n], "submission",
                       ["submit1", "submit2", "submit3"], [], true, g.req.fspRate)
    ensures SubmitRule(g, n, "ftso-signature-submit-", "perm/ftso-signature-submit-", ["fsp-sig-submit-" + n],
                       "submission", ["submitSignatures"], [], true, g.req.fspRate)
  {
    hide Generated, SubmitRule;
    OpenRoleRule(g, PriceSubmit, n);
    OpenRoleRule(g, SignatureSubmit, n);
  }

  /** and three methods for the signing wallet itself. */
  lemma SelfSubmitRules(g: Gen, n: string)
    requires Generated(g).Some? && n in g.req.networks && VoterCap in g.req.capabilities
    ensures SubmitRule(g, n, "relay-submit-", "perm/relay-submit-", ["fsp-signing-" + n], "relay", ["relay"], [], true,
                       g.req.fspRate)
    ensures SubmitRule(g, n, "signing-policy-submit-", "perm/signing-policy-submit-", ["fsp-signing-" + n],
                       "flare_systems_manager", ["signNewSigningPolicy"], [], true, g.req.fspRate)
    ensures SubmitRule(g, n, "voter-registration-submit-", "perm/voter-registration-submit-", ["fsp-signing-" + n],
                       "voter_registry", ["registerVoter"], [], true, g.req.fspRate)
  {
    hide Generated, SubmitRule;
    OpenRoleRule(g, RelaySubmit, n);
    OpenRoleRule(g, PolicySubmit, n);
    OpenRoleRule(g, VoterSubmit, n);
  }

  lemma VoterWalletRules(g: Gen, n: string)
    requires Generated(g).Some? && n in g.req.networks && VoterCap in g.req.capabilities
    ensures PaysNothing(g, "fsp-signing-" + n, "wc/fsp-" + n, g.req.fspRate)
    ensures PaysNothing(g, "fastupdate-1-" + n, "wc/fastupdate-1-" + n, g.req.fspRate)
    ensures PaysNothing(g, "fastupdate-2-" + n, "wc/fastupdate-2-" + n, g.req.fspRate)
    ensures PaysNothing(g, "fastupdate-3-" + n, "wc/fastupdate-3-" + n, g.req.fspRate)
    ensures PaysNothing(g, "fsp-submit-" + n, "wc/fsp-submit-" + n, g.req.fspRate)
    ensures PaysNothing(g, "fsp-sig-submit-" + n, "wc/fsp-sig-submit-" + n, g.req.fspRate)
  {
    hide Generated, PaysNothing;
    WalletRule(g, Signing, n);
    WalletRule(g, Seat1, n);
    WalletRule(g, Seat2, n);
    WalletRule(g, Seat3, n);
    WalletRule(g, PriceWallet, n);
    WalletRule(g, SignatureWallet, n);
  }

  lemma ConfirmRule(g: Gen, r: Role, n: string)
    requires Generated(g).Some? && n in g.req.networks && RegisterCap in g.req.capabilities && r in CONFIRMS
    ensures g.req.identity.Some? && g.req.identity.value != ""
    ensures SubmitRule(g, n, CallerPrefix(Submits(r)), PermPrefix(r), [WalletName(MainWallet(r), n)], "entity_manager",
                       MethodNames(r), [("_voter", TextScalar(g.req.identity.value))], false, g.req.fspRate)
  {
    hide Generated, SubmitRule, MethodNames, MainWallet, CallerPrefix, PermPrefix, WalletName;
    RecipientGiven(g);
    RoleRule(g, r, n);
    assert Allowlist(g.req, r, n) == [WalletName(MainWallet(r), n)];
  }

  lemma SignatureConfirmRule(g: Gen, n: string)
    requires Generated(g).Some? && n in g.req.networks && RegisterCap in g.req.capabilities
    ensures g.req.identity.Some?
    ensures SubmitRule(g, n, "entity-confirm-sig-submit-", "perm/entity-confirm-sig-submit-", ["fsp-sig-submit-" + n],
                       "entity_manager", ["confirmSubmitSignaturesAddressRegistration"],
                       [("_voter", TextScalar(g.req.identity.value))], false, g.req.fspRate)
  {
    hide Generated, SubmitRule;
    ConfirmRule(g, ConfirmSignatureSubmit, n);
  }

  /** What `fsp-register` generates: each confirm is for the identity the run was given, with nothing left open. */
  lemma RegisterRules(g: Gen, n: string)
    requires Generated(g).Some? && n in g.req.networks && RegisterCap in g.req.capabilities
    ensures g.req.identity.Some? && g.req.identity.value != ""
    ensures var pinned := [("_voter", TextScalar(g.req.identity.value))];
            && SubmitRule(g, n, "entity-confirm-submit-", "perm/entity-confirm-submit-", ["fsp-submit-" + n],
                          "entity_manager", ["confirmSubmitAddressRegistration"], pinned, false, g.req.fspRate)
            && SubmitRule(g, n, "entity-confirm-sig-submit-", "perm/entity-confirm-sig-submit-",
                          ["fsp-sig-submit-" + n], "entity_manager", ["confirmSubmitSignaturesAddressRegistration"],
                          pinned, false, g.req.fspRate)
            && SubmitRule(g, n, "entity-confirm-signing-", "perm/entity-confirm-signing-", ["fsp-signing-" + n],
                          "entity_manager", ["confirmSigningPolicyAddressRegistration"], pinned, false, g.req.fspRate)
  {
    hide Generated, SubmitRule;
    ConfirmRule(g, ConfirmSubmit, n);
    SignatureConfirmRule(g, n);
    ConfirmRule(g, ConfirmSigning, n);
  }

  /** Nothing else is generated: every caller, block and FSP block is a wanted role's for a named network, and no path
      for native transfers exists. */
  lemma NothingElse(g: Gen)
    requires Generated(g).Some?
    ensures var p, caps := Generated(g).value, g.req.capabilities;
            && (forall name :: name in p.callers ==>
                  exists c, n :: n in g.req.networks && WantedCaller(caps, c) && name == CallerName(c, n))
            && (forall path :: path in p.permissions ==>
                  exists r, n :: n in g.req.networks && Wanted(caps, r) && path == PermPath(r, n))
            && (forall path :: path in p.fspPermissions ==>
                  exists m, n :: n in g.req.networks && WantedSign(caps, m) && path == FspPath(m, n))
            && p.nativeTransfers == map[]
  {
    hide SupportsAll, NetPuts, ApplyAll, FspPath, PermPath, WantedSign, Wanted, RunPuts, AllSourced, CallerName,
      RoleMade, SignBlock;
    var puts, p := RunPuts(g, g.req.networks), Generated(g).value;
    Sourced(puts);
    SourcedEntries(p, puts);
    SourcedNative(p, puts);
    forall name | name in p.callers
      ensures exists c, n ::
        n in g.req.networks && WantedCaller(g.req.capabilities, c) && name == CallerName(c, n)
    {
      var n := MadeByRun(g, PutCaller(name, p.callers[name].policyPath));
      var c :| CallerMade(g, c, n, name, p.callers[name].policyPath);
    }
    forall path | path in p.permissions
      ensures exists r, n :: n in g.req.networks && Wanted(g.req.capabilities, r) && path == PermPath(r, n)
    {
      var n := MadeByRun(g, PutPermission(path, p.permissions[path]));
      var r :| RoleMade(g, r, n, path, p.permissions[path]);
      RoleMadePath(g, r, n, path, p.permissions[path]);
    }
    forall path | path in p.fspPermissions
      ensures exists m, n :: n in g.req.networks && WantedSign(g.req.capabilities, m) && path == FspPath(m, n)
    {
      var n := MadeByRun(g, PutFsp(path, p.fspPermissions[path]));
      var m :| SignMade(g, m, n, path, p.fspPermissions[path]);
    }
  }

  lemma SourcedNative(p: Policy, puts: seq<Put>)
    requires AllSourced(p, puts)
    ensures p.nativeTransfers == map[]
  {
  }
}
