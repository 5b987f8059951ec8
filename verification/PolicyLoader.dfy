/** The static consistency check of a loaded policy against the callers, the wallets and the ABI registry,
    and what a clean check guarantees about the gate. */
module PolicyLoader {
  import opened Prelude
  import opened PolicySchema
  import opened FspMessage
  import opened Environment
  import opened Store
  import PolicyEngine

  /** One reported error. */
  datatype Finding =
    | CallerNotInPolicy(name: string)
    | CallerDrift(name: string)
    | CallerPathUnknown(name: string)
    | DuplicateCapability(capability: string)
    | UnknownAbi(path: string, contract: string)
    | UnknownMethod(path: string, contract: string, signature: string)
    | UnknownWallet(path: string, wallet: string)
    | UnboundWallet(path: string, wallet: string)
    | NativeUnknownWallet(path: string, wallet: string)
    | UnknownConstraint(wallet: string)
    | CrossDomainPath(path: string)
    | NoMessageTypes(path: string)
    | UnknownMessageType(path: string, messageType: string)
    | FspUnknownWallet(path: string, wallet: string)
    | SelfSubmitUnknown(wallet: string)
    | SelfSubmitNotFsp(wallet: string)
    | SelfSubmitUnused(wallet: string)
    | SelfSubmitRefused(wallet: string)
    | SharedAddress(address: string)

  // ---------- What each finding means ----------

  ghost predicate Known(p: Policy, wallets: seq<Wallet>, name: string) {
    name in p.wallets || exists i :: 0 <= i < |wallets| && wallets[i].name == name
  }

  /** The lower-cased address of the wallet named `name`; a later wallet of the same name wins. */
  function AddressOf(wallets: seq<Wallet>, name: string): Option<string> {
    if wallets == [] then None
    else if wallets[|wallets| - 1].name == name then Some(Lower(wallets[|wallets| - 1].address))
    else AddressOf(wallets[..|wallets| - 1], name)
  }

  predicate PathKnown(p: Policy, path: string) {
    path in p.permissions || path in p.fspPermissions || path in p.nativeTransfers
  }

  predicate CallerViolates(p: Policy, c: Caller, e: Finding) {
    !c.revoked &&
    match e
    case CallerNotInPolicy(name) => name == c.name && c.name !in p.callers
    case CallerDrift(name) => name == c.name && c.name in p.callers && c.policyPath != p.callers[c.name].policyPath
    case CallerPathUnknown(name) => name == c.name && c.name in p.callers && !PathKnown(p, p.callers[c.name].policyPath)
    case _ => false
  }

  /** The binding of caller `a` carries the capability id. */
  predicate Claims(p: Policy, a: string, id: string) {
    a in p.callers && p.callers[a].capabilityId == Some(id)
  }

  ghost predicate CapabilityViolates(p: Policy, e: Finding) {
    e.DuplicateCapability? && exists a, b :: a != b && Claims(p, a, e.capability) && Claims(p, b, e.capability)
  }

  predicate ContractViolates(registry: Registry, path: string, contract: (string, ContractRule), e: Finding) {
    match e
    case UnknownAbi(p, c) => p == path && c == contract.0 && contract.1.abi !in registry
    case UnknownMethod(p, c, sig) =>
      p == path && c == contract.0 && contract.1.abi in registry && sig in contract.1.methods
      && sig !in SignaturesFor(registry, contract.1.abi)
    case _ => false
  }

  ghost predicate PermissionViolates(p: Policy, wallets: seq<Wallet>, registry: Registry, path: string, e: Finding)
    requires path in p.permissions
  {
    var perm := p.permissions[path];
    match e
    case UnknownWallet(q, w) => q == path && w in perm.walletAllowlist && !Known(p, wallets, w)
    case UnboundWallet(q, w) => q == path && w in perm.walletAllowlist && w !in p.wallets
    case _ => exists i :: 0 <= i < |perm.contracts| && ContractViolates(registry, path, perm.contracts[i], e)
  }

  ghost predicate NativeViolates(p: Policy, wallets: seq<Wallet>, path: string, e: Finding)
    requires path in p.nativeTransfers
  {
    e.NativeUnknownWallet? && e.path == path && e.wallet in p.nativeTransfers[path].walletAllowlist &&
      !Known(p, wallets, e.wallet)
  }

  ghost predicate FspViolates(p: Policy, wallets: seq<Wallet>, path: string, e: Finding)
    requires path in p.fspPermissions
  {
    var perm := p.fspPermissions[path];
    match e
    case CrossDomainPath(q) => q == path && path in p.permissions
    case NoMessageTypes(q) => q == path && perm.messageTypes == []
    case UnknownMessageType(q, t) => q == path && t in perm.messageTypes && t !in MESSAGE_TYPES
    case FspUnknownWallet(q, w) => q == path && w in perm.walletAllowlist && !Known(p, wallets, w)
    case _ => false
  }

  ghost predicate EvmAllowlisted(p: Policy, w: string) {
    exists path :: path in p.permissions && w in p.permissions[path].walletAllowlist
  }

  ghost predicate FspAllowlisted(p: Policy, w: string) {
    exists path :: path in p.fspPermissions && w in p.fspPermissions[path].walletAllowlist
  }

  /** The methods a self-submitting FSP wallet may call, by ABI name. */
  function ExemptMethods(abi: string): Option<set<string>> {
    match abi
    case "flare_systems_manager" =>
      Some({"signUptimeVote(uint24,bytes32,(uint8,bytes32,bytes32))",
            "signRewards(uint24,(uint256,uint256)[],bytes32,(uint8,bytes32,bytes32))",
            "signNewSigningPolicy(uint24,bytes32,(uint8,bytes32,bytes32))"})
    case "relay" => Some({"relay()"})
    case "voter_registry" => Some({"registerVoter(address,(uint8,bytes32,bytes32))"})
    case "entity_manager" => Some({"confirmSigningPolicyAddressRegistration(address)"})
    case _ => None
  }

  predicate ExemptShape(c: ContractRule) {
    ExemptMethods(c.abi).Some?
    && forall sig :: sig in c.methods ==> sig in ExemptMethods(c.abi).value && c.methods[sig].maxValueWei == "0"
  }

  predicate ExemptBlock(perm: PermissionBlock) {
    forall i :: 0 <= i < |perm.contracts| ==> ExemptShape(perm.contracts[i].1)
  }

  ghost predicate OnlyExemptBlocks(p: Policy, w: string) {
    forall path :: path in p.permissions && w in p.permissions[path].walletAllowlist ==>
      ExemptBlock(p.permissions[path])
  }

  /** A wallet the carve-out admits to both domains. */
  ghost predicate Exempt(p: Policy, wallets: seq<Wallet>, w: string) {
    Known(p, wallets, w) && FspAllowlisted(p, w) && EvmAllowlisted(p, w) && OnlyExemptBlocks(p, w)
  }

  ghost predicate SelfSubmitViolates(p: Policy, wallets: seq<Wallet>, w: string, e: Finding) {
    match e
    case SelfSubmitUnknown(v) => v == w && !Known(p, wallets, w)
    case SelfSubmitNotFsp(v) => v == w && Known(p, wallets, w) && !FspAllowlisted(p, w)
    case SelfSubmitUnused(v) => v == w && Known(p, wallets, w) && FspAllowlisted(p, w) && !EvmAllowlisted(p, w)
    case SelfSubmitRefused(v) =>
      v == w && Known(p, wallets, w) && FspAllowlisted(p, w) && EvmAllowlisted(p, w) && !OnlyExemptBlocks(p, w)
    case _ => false
  }

  ghost predicate EvmAddress(p: Policy, wallets: seq<Wallet>, a: string) {
    exists w :: EvmAllowlisted(p, w) && AddressOf(wallets, w) == Some(a)
  }

  ghost predicate FspAddress(p: Policy, wallets: seq<Wallet>, a: string) {
    exists w :: FspAllowlisted(p, w) && AddressOf(wallets, w) == Some(a)
  }

  ghost predicate ExemptAddress(p: Policy, wallets: seq<Wallet>, a: string) {
    exists w :: w in p.fspSelfSubmit && Exempt(p, wallets, w) && AddressOf(wallets, w) == Some(a)
  }

  ghost predicate AddressViolates(p: Policy, wallets: seq<Wallet>, e: Finding) {
    e.SharedAddress? && EvmAddress(p, wallets, e.address) && FspAddress(p, wallets, e.address) &&
      !ExemptAddress(p, wallets, e.address)
  }

  ghost predicate Violates(p: Policy, callers: seq<Caller>, wallets: seq<Wallet>, registry: Registry, e: Finding) {
    || (exists i :: 0 <= i < |callers| && CallerViolates(p, callers[i], e))
    || CapabilityViolates(p, e)
    || (exists path :: path in p.permissions && PermissionViolates(p, wallets, registry, path, e))
    || (exists path :: path in p.nativeTransfers && NativeViolates(p, wallets, path, e))
    || (e.UnknownConstraint? && e.wallet in p.wallets && p.wallets[e.wallet] !in p.walletConstraints)
    || (exists path :: path in p.fspPermissions && FspViolates(p, wallets, path, e))
    || (exists i :: 0 <= i < |p.fspSelfSubmit| && SelfSubmitViolates(p, wallets, p.fspSelfSubmit[i], e))
    || AddressViolates(p, wallets, e)
  }

  ghost predicate Consistent(p: Policy, callers: seq<Caller>, wallets: seq<Wallet>, registry: Registry) {
    forall e :: !Violates(p, callers, wallets, registry, e)
  }

  // ---------- The check as it runs ----------

  method CheckCallers(p: Policy, callers: seq<Caller>) returns (errors: seq<Finding>)
    ensures forall e :: e in errors <==> exists i :: 0 <= i < |callers| && CallerViolates(p, callers[i], e)
  {
    errors := [];
    for i := 0 to |callers|
      invariant forall e :: e in errors <==> exists j :: 0 <= j < i && CallerViolates(p, callers[j], e)
    {
      var c := callers[i];
      var found: seq<Finding> := [];
      if !c.revoked {
        if c.name !in p.callers {
          found := [CallerNotInPolicy(c.name)];
        } else {
          var path := p.callers[c.name].policyPath;
          if c.policyPath != path {
            found := [CallerDrift(c.name)];
          }
          if path !in p.permissions && path !in p.fspPermissions && path !in p.nativeTransfers {
            found := found + [CallerPathUnknown(c.name)];
          }
        }
      }
      assert forall e :: e in found <==> CallerViolates(p, c, e);
      errors := errors + found;
    }
  }

  method CheckCapabilities(p: Policy) returns (errors: seq<Finding>)
    ensures forall e :: e in errors <==> CapabilityViolates(p, e)
  {
    errors := [];
    var seen: map<string, string> := map[];
    var todo := p.callers.Keys;
    while todo != {}
      invariant todo <= p.callers.Keys
      invariant forall id :: id in seen ==> seen[id] !in todo && Claims(p, seen[id], id)
      invariant forall a, id :: Claims(p, a, id) && a !in todo ==> id in seen
      invariant forall e :: e in errors ==> CapabilityViolates(p, e)
      invariant forall a, id :: Claims(p, a, id) && a !in todo ==> seen[id] == a || DuplicateCapability(id) in errors
      decreases |todo|
    {
      var name :| name in todo;
      todo := todo - {name};
      var id := p.callers[name].capabilityId;
      if id != None {
        if id.value in seen {
          assert Claims(p, seen[id.value], id.value) && Claims(p, name, id.value);
          errors := errors + [DuplicateCapability(id.value)];
        } else {
          seen := seen[id.value := name];
        }
      }
    }
  }

  method CheckContract(registry: Registry, path: string,
                       contract: (string, ContractRule)) returns (errors: seq<Finding>)
    ensures forall e :: e in errors <==> ContractViolates(registry, path, contract, e)
  {
    var crule := contract.1;
    if crule.abi !in registry {
      return [UnknownAbi(path, contract.0)];
    }
    errors := [];
    var known := SignaturesFor(registry, crule.abi);
    var todo := crule.methods.Keys;
    while todo != {}
      invariant todo <= crule.methods.Keys
      invariant forall e :: e in errors <==>
        e.UnknownMethod? && e.path == path && e.contract == contract.0 && e.signature in crule.methods &&
          e.signature !in todo
        && e.signature !in known
      decreases |todo|
    {
      var sig :| sig in todo;
      todo := todo - {sig};
      if sig !in known {
        errors := errors + [UnknownMethod(path, contract.0, sig)];
      }
    }
  }

  ghost predicate IsKnown(p: Policy, wallets: seq<Wallet>, known: set<string>) {
    forall n :: n in known <==> Known(p, wallets, n)
  }

  method KnownNames(p: Policy, wallets: seq<Wallet>) returns (known: set<string>)
    ensures IsKnown(p, wallets, known)
  {
    known := p.wallets.Keys;
    for i := 0 to |wallets|
      invariant forall n :: n in known <==> n in p.wallets || exists j :: 0 <= j < i && wallets[j].name == n
    {
      known := known + {wallets[i].name};
    }
  }

  method CheckContracts(registry: Registry, path: string,
                        contracts: seq<(string, ContractRule)>) returns (errors: seq<Finding>)
    ensures forall e :: e in errors <==> exists i ::
      0 <= i < |contracts| && ContractViolates(registry, path, contracts[i], e)
  {
    errors := [];
    for i := 0 to |contracts|
      invariant forall e :: e in errors <==> exists j :: 0 <= j < i && ContractViolates(registry, path, contracts[j], e)
    {
      var found := CheckContract(registry, path, contracts[i]);
      errors := errors + found;
    }
  }

  method CheckPermission(p: Policy, wallets: seq<Wallet>, known: set<string>, registry: Registry, path: string)
    returns (errors: seq<Finding>)
    requires path in p.permissions && IsKnown(p, wallets, known)
    ensures forall e :: e in errors <==> PermissionViolates(p, wallets, registry, path, e)
  {
    hide ContractViolates, Known;
    var perm := p.permissions[path];
    var found := CheckContracts(registry, path, perm.contracts);
    OnlyContractFindings(registry, path, perm.contracts);
    var names: seq<Finding> := [];
    for i := 0 to |perm.walletAllowlist|
      invariant forall e :: e in names <==>
        || (e.UnknownWallet? && e.path == path && e.wallet in perm.walletAllowlist[..i] && !Known(p, wallets, e.wallet))
        || (e.UnboundWallet? && e.path == path && e.wallet in perm.walletAllowlist[..i] && e.wallet !in p.wallets)
    {
      var w := perm.walletAllowlist[i];
      if w !in known {
        names := names + [UnknownWallet(path, w)];
      }
      if w !in p.wallets {
        names := names + [UnboundWallet(path, w)];
      }
    }
    assert perm.walletAllowlist[..|perm.walletAllowlist|] == perm.walletAllowlist;
    errors := found + names;
  }

  lemma OnlyContractFindings(registry: Registry, path: string, contracts: seq<(string, ContractRule)>)
    ensures forall e, i :: 0 <= i < |contracts| && ContractViolates(registry, path, contracts[i], e) ==>
      e.UnknownAbi? || e.UnknownMethod?
  {
  }

  method CheckPermissions(p: Policy, wallets: seq<Wallet>, known: set<string>,
                          registry: Registry) returns (errors: seq<Finding>)
    requires IsKnown(p, wallets, known)
    ensures forall e :: e in errors <==> exists path ::
      path in p.permissions && PermissionViolates(p, wallets, registry, path, e)
  {
    hide PermissionViolates, Known, IsKnown;
    errors := [];
    var todo := p.permissions.Keys;
    while todo != {}
      invariant todo <= p.permissions.Keys
      invariant forall e :: e in errors <==>
        exists path :: path in p.permissions && path !in todo && PermissionViolates(p, wallets, registry, path, e)
      decreases |todo|
    {
      var path :| path in todo;
      todo := todo - {path};
      var found := CheckPermission(p, wallets, known, registry, path);
      errors := errors + found;
    }
  }

  method CheckNativeTransfers(p: Policy, wallets: seq<Wallet>, known: set<string>) returns (errors: seq<Finding>)
    requires IsKnown(p, wallets, known)
    ensures forall e :: e in errors <==> exists path :: path in p.nativeTransfers && NativeViolates(p, wallets, path, e)
  {
    hide Known;
    errors := [];
    var todo := p.nativeTransfers.Keys;
    while todo != {}
      invariant todo <= p.nativeTransfers.Keys
      invariant forall e :: e in errors <==>
        exists path :: path in p.nativeTransfers && path !in todo && NativeViolates(p, wallets, path, e)
      decreases |todo|
    {
      var path :| path in todo;
      todo := todo - {path};
      var names := p.nativeTransfers[path].walletAllowlist;
      var found: seq<Finding> := [];
      for i := 0 to |names|
        invariant forall e :: e in found <==>
          e.NativeUnknownWallet? && e.path == path && e.wallet in names[..i] && !Known(p, wallets, e.wallet)
      {
        if names[i] !in known {
          found := found + [NativeUnknownWallet(path, names[i])];
        }
      }
      assert names[..|names|] == names;
      assert forall e :: e in found <==> NativeViolates(p, wallets, path, e);
      errors := errors + found;
    }
  }

  method CheckConstraints(p: Policy) returns (errors: seq<Finding>)
    ensures forall e :: e in errors <==>
              e.UnknownConstraint? && e.wallet in p.wallets && p.wallets[e.wallet] !in p.walletConstraints
  {
    errors := [];
    var todo := p.wallets.Keys;
    while todo != {}
      invariant todo <= p.wallets.Keys
      invariant forall e :: e in errors <==>
        e.UnknownConstraint? && e.wallet in p.wallets && e.wallet !in todo &&
          p.wallets[e.wallet] !in p.walletConstraints
      decreases |todo|
    {
      var w :| w in todo;
      todo := todo - {w};
      if p.wallets[w] !in p.walletConstraints {
        errors := errors + [UnknownConstraint(w)];
      }
    }
  }

  method CheckFspPermission(p: Policy, wallets: seq<Wallet>, known: set<string>,
                            path: string) returns (errors: seq<Finding>)
    requires path in p.fspPermissions && IsKnown(p, wallets, known)
    ensures forall e :: e in errors <==> FspViolates(p, wallets, path, e)
  {
    hide Known;
    var perm := p.fspPermissions[path];
    errors := [];
    if path in p.permissions {
      errors := [CrossDomainPath(path)];
    }
    if perm.messageTypes == [] {
      errors := errors + [NoMessageTypes(path)];
    }
    var types: seq<Finding> := [];
    for i := 0 to |perm.messageTypes|
      invariant forall e :: e in types <==>
        e.UnknownMessageType? && e.path == path && e.messageType in perm.messageTypes[..i] &&
          e.messageType !in MESSAGE_TYPES
    {
      if perm.messageTypes[i] !in MESSAGE_TYPES {
        types := types + [UnknownMessageType(path, perm.messageTypes[i])];
      }
    }
    assert perm.messageTypes[..|perm.messageTypes|] == perm.messageTypes;
    var names: seq<Finding> := [];
    for i := 0 to |perm.walletAllowlist|
      invariant forall e :: e in names <==>
        e.FspUnknownWallet? && e.path == path && e.wallet in perm.walletAllowlist[..i] && !Known(p, wallets, e.wallet)
    {
      if perm.walletAllowlist[i] !in known {
        names := names + [FspUnknownWallet(path, perm.walletAllowlist[i])];
      }
    }
    assert perm.walletAllowlist[..|perm.walletAllowlist|] == perm.walletAllowlist;
    errors := errors + types + names;
  }

  method CheckFspPermissions(p: Policy, wallets: seq<Wallet>, known: set<string>) returns (errors: seq<Finding>)
    requires IsKnown(p, wallets, known)
    ensures forall e :: e in errors <==> exists path :: path in p.fspPermissions && FspViolates(p, wallets, path, e)
  {
    hide FspViolates, Known, IsKnown;
    errors := [];
    var todo := p.fspPermissions.Keys;
    while todo != {}
      invariant todo <= p.fspPermissions.Keys
      invariant forall e :: e in errors <==>
        exists path :: path in p.fspPermissions && path !in todo && FspViolates(p, wallets, path, e)
      decreases |todo|
    {
      var path :| path in todo;
      todo := todo - {path};
      var found := CheckFspPermission(p, wallets, known, path);
      errors := errors + found;
    }
  }

  // ---------- Key-domain segmentation ----------

  method NameToAddress(wallets: seq<Wallet>) returns (m: map<string, string>)
    ensures forall n :: AddressOf(wallets, n) == if n in m then Some(m[n]) else None
  {
    m := map[];
    for i := 0 to |wallets|
      invariant forall n :: AddressOf(wallets[..i], n) == if n in m then Some(m[n]) else None
    {
      assert wallets[..i + 1][..i] == wallets[..i];
      m := m[wallets[i].name := Lower(wallets[i].address)];
    }
    assert wallets[..|wallets|] == wallets;
  }

  ghost predicate IsAddressMap(wallets: seq<Wallet>, m: map<string, string>) {
    forall n :: AddressOf(wallets, n) == if n in m then Some(m[n]) else None
  }

  /** The names an allowlist section mentions. */
  method EvmNames(p: Policy) returns (names: set<string>)
    ensures forall w :: w in names <==> EvmAllowlisted(p, w)
  {
    names := {};
    var todo := p.permissions.Keys;
    while todo != {}
      invariant todo <= p.permissions.Keys
      invariant forall w :: w in names <==> exists path ::
        path in p.permissions && path !in todo && w in p.permissions[path].walletAllowlist
      decreases |todo|
    {
      var path :| path in todo;
      todo := todo - {path};
      names := names + set w | w in p.permissions[path].walletAllowlist;
    }
  }

  method FspNames(p: Policy) returns (names: set<string>)
    ensures forall w :: w in names <==> FspAllowlisted(p, w)
  {
    names := {};
    var todo := p.fspPermissions.Keys;
    while todo != {}
      invariant todo <= p.fspPermissions.Keys
      invariant forall w :: w in names <==> exists path ::
        path in p.fspPermissions && path !in todo && w in p.fspPermissions[path].walletAllowlist
      decreases |todo|
    {
      var path :| path in todo;
      todo := todo - {path};
      names := names + set w | w in p.fspPermissions[path].walletAllowlist;
    }
  }

  method AddressesOf(wallets: seq<Wallet>, addressOf: map<string, string>,
                     names: set<string>) returns (addrs: set<string>)
    requires IsAddressMap(wallets, addressOf)
    ensures forall a :: a in addrs <==> exists w :: w in names && AddressOf(wallets, w) == Some(a)
  {
    addrs := set w | w in names && w in addressOf :: addressOf[w];
  }

  method BlockIsExempt(perm: PermissionBlock) returns (ok: bool)
    ensures ok == ExemptBlock(perm)
  {
    ok := true;
    for i := 0 to |perm.contracts|
      invariant ok == forall j :: 0 <= j < i ==> ExemptShape(perm.contracts[j].1)
    {
      var crule := perm.contracts[i].1;
      var allowed := ExemptMethods(crule.abi);
      var fits := allowed != None;
      if allowed != None {
        var todo := crule.methods.Keys;
        while todo != {}
          invariant todo <= crule.methods.Keys
          invariant fits == forall sig :: sig in crule.methods && sig !in todo ==>
            sig in allowed.value && crule.methods[sig].maxValueWei == "0"
          decreases |todo|
        {
          var sig :| sig in todo;
          todo := todo - {sig};
          if sig !in allowed.value {
            fits := false;
          }
          if crule.methods[sig].maxValueWei != "0" {
            fits := false;
          }
        }
      }
      assert fits == ExemptShape(crule);
      ok := ok && fits;
    }
  }

  /** Whether the wallet appears in an EVM block at all, and whether all its blocks are exempt. */
  method BlocksOf(p: Policy, w: string) returns (ok: bool, appeared: bool)
    ensures ok == OnlyExemptBlocks(p, w) && appeared == EvmAllowlisted(p, w)
  {
    hide ExemptBlock;
    ok, appeared := true, false;
    var todo := p.permissions.Keys;
    while todo != {}
      invariant todo <= p.permissions.Keys
      invariant appeared ==
        exists path :: path in p.permissions && path !in todo && w in p.permissions[path].walletAllowlist
      invariant ok ==
        forall path :: path in p.permissions && path !in todo && w in p.permissions[path].walletAllowlist ==>
          ExemptBlock(p.permissions[path])
      decreases |todo|
    {
      var path :| path in todo;
      todo := todo - {path};
      if w in p.permissions[path].walletAllowlist {
        appeared := true;
        var fits := BlockIsExempt(p.permissions[path]);
        ok := ok && fits;
      }
    }
  }

  method CheckSelfSubmitWallet(p: Policy, wallets: seq<Wallet>, known: set<string>, fspNames: set<string>, w: string)
    returns (found: seq<Finding>)
    requires IsKnown(p, wallets, known) && forall n :: n in fspNames <==> FspAllowlisted(p, n)
    ensures forall e :: e in found <==> SelfSubmitViolates(p, wallets, w, e)
    ensures found == [] <==> Exempt(p, wallets, w)
  {
    hide Known, FspAllowlisted, EvmAllowlisted, OnlyExemptBlocks;
    if w !in known {
      return [SelfSubmitUnknown(w)];
    }
    if w !in fspNames {
      return [SelfSubmitNotFsp(w)];
    }
    var ok, appeared := BlocksOf(p, w);
    if !appeared {
      return [SelfSubmitUnused(w)];
    }
    if !ok {
      return [SelfSubmitRefused(w)];
    }
    found := [];
  }

  method CheckSelfSubmit(p: Policy, wallets: seq<Wallet>, known: set<string>, fspNames: set<string>,
                         addressOf: map<string, string>)
    returns (errors: seq<Finding>, exempt: set<string>)
    requires IsKnown(p, wallets, known) && IsAddressMap(wallets, addressOf)
    requires forall n :: n in fspNames <==> FspAllowlisted(p, n)
    ensures forall e :: e in errors <==> exists i ::
      0 <= i < |p.fspSelfSubmit| && SelfSubmitViolates(p, wallets, p.fspSelfSubmit[i], e)
    ensures forall a :: a in exempt <==> ExemptAddress(p, wallets, a)
  {
    hide Known, FspAllowlisted, Exempt, SelfSubmitViolates;
    errors, exempt := [], {};
    for i := 0 to |p.fspSelfSubmit|
      invariant forall e :: e in errors <==> exists j ::
        0 <= j < i && SelfSubmitViolates(p, wallets, p.fspSelfSubmit[j], e)
      invariant forall a :: a in exempt <==>
        exists j :: 0 <= j < i && Exempt(p, wallets, p.fspSelfSubmit[j]) &&
          AddressOf(wallets, p.fspSelfSubmit[j]) == Some(a)
    {
      var w := p.fspSelfSubmit[i];
      var found := CheckSelfSubmitWallet(p, wallets, known, fspNames, w);
      if found == [] && w in addressOf {
        exempt := exempt + {addressOf[w]};
      }
      errors := errors + found;
    }
    forall a, j | 0 <= j < |p.fspSelfSubmit| && Exempt(p, wallets, p.fspSelfSubmit[j]) &&
      AddressOf(wallets, p.fspSelfSubmit[j]) == Some(a)
      ensures ExemptAddress(p, wallets, a)
    {
      assert p.fspSelfSubmit[j] in p.fspSelfSubmit;
    }
  }

  method ListShared(all: set<string>) returns (errors: seq<Finding>)
    ensures forall e :: e in errors <==> e.SharedAddress? && e.address in all
  {
    errors := [];
    var todo := all;
    while todo != {}
      invariant todo <= all
      invariant forall e :: e in errors <==> e.SharedAddress? && e.address in all && e.address !in todo
      decreases |todo|
    {
      var a :| a in todo;
      todo := todo - {a};
      errors := errors + [SharedAddress(a)];
    }
  }

  method CheckSegmentation(p: Policy, wallets: seq<Wallet>, known: set<string>) returns (errors: seq<Finding>)
    requires IsKnown(p, wallets, known)
    ensures forall e :: e in errors <==>
              (exists i :: 0 <= i < |p.fspSelfSubmit| && SelfSubmitViolates(p, wallets, p.fspSelfSubmit[i], e)) ||
                AddressViolates(p, wallets, e)
  {
    hide Known, FspAllowlisted, EvmAllowlisted, Exempt, SelfSubmitViolates, AddressOf;
    var addressOf := NameToAddress(wallets);
    var evmNames := EvmNames(p);
    var fspNames := FspNames(p);
    var evmAddrs := AddressesOf(wallets, addressOf, evmNames);
    var fspAddrs := AddressesOf(wallets, addressOf, fspNames);
    assert forall a :: a in evmAddrs <==> EvmAddress(p, wallets, a);
    assert forall a :: a in fspAddrs <==> FspAddress(p, wallets, a);
    hide EvmAddress, FspAddress, ExemptAddress;
    var refused, exempt := CheckSelfSubmit(p, wallets, known, fspNames, addressOf);
    var shared := ListShared((evmAddrs * fspAddrs) - exempt);
    errors := refused + shared;
  }

  /** The list holds exactly the violations; it is empty exactly when the policy is consistent. */
  method CheckConsistency(p: Policy, callers: seq<Caller>, wallets: seq<Wallet>,
                          registry: Registry) returns (errors: seq<Finding>)
    ensures forall e :: e in errors <==> Violates(p, callers, wallets, registry, e)
    ensures errors == [] <==> Consistent(p, callers, wallets, registry)
  {
    hide CallerViolates, CapabilityViolates, PermissionViolates, NativeViolates, FspViolates, SelfSubmitViolates,
      AddressViolates, IsKnown;
    var known := KnownNames(p, wallets);
    var e1 := CheckCallers(p, callers);
    var e2 := CheckCapabilities(p);
    var e3 := CheckPermissions(p, wallets, known, registry);
    var e4 := CheckNativeTransfers(p, wallets, known);
    var e5 := CheckConstraints(p);
    var e6 := CheckFspPermissions(p, wallets, known);
    var e7 := CheckSegmentation(p, wallets, known);
    errors := e1 + e2 + e3 + e4 + e5 + e6 + e7;
    assert errors != [] ==> errors[0] in errors;
  }

  // ---------- What a clean check guarantees ----------

  /** No wallet the carve-out admits, other than `w` itself, shares the address of `w`. */
  ghost predicate NoExemptTwin(p: Policy, wallets: seq<Wallet>, w: string) {
    forall v :: v in p.fspSelfSubmit && Exempt(p, wallets, v) && AddressOf(wallets, v) == AddressOf(wallets, w) ==>
      v == w
  }

  ghost predicate DistinctAddresses(wallets: seq<Wallet>) {
    forall i, j :: 0 <= i < j < |wallets| ==> Lower(wallets[i].address) != Lower(wallets[j].address)
  }

  lemma {:induction false} AddressIsHeld(wallets: seq<Wallet>, w: string)
    requires AddressOf(wallets, w).Some?
    ensures exists i ::
              0 <= i < |wallets| && wallets[i].name == w && Some(Lower(wallets[i].address)) == AddressOf(wallets, w)
  {
    var last := |wallets| - 1;
    if wallets[last].name == w {
      assert wallets[last].name == w && Some(Lower(wallets[last].address)) == AddressOf(wallets, w);
    } else {
      AddressIsHeld(wallets[..last], w);
      var i :| 0 <= i < last && wallets[..last][i].name == w &&
        Some(Lower(wallets[..last][i].address)) == AddressOf(wallets, w);
      assert wallets[i].name == w && Some(Lower(wallets[i].address)) == AddressOf(wallets, w);
    }
  }

  lemma DistinctAddressesNoTwin(p: Policy, wallets: seq<Wallet>, w: string)
    requires DistinctAddresses(wallets) && AddressOf(wallets, w).Some?
    ensures NoExemptTwin(p, wallets, w)
  {
    forall v | v in p.fspSelfSubmit && Exempt(p, wallets, v) && AddressOf(wallets, v) == AddressOf(wallets, w)
      ensures v == w {
      AddressIsHeld(wallets, v);
      AddressIsHeld(wallets, w);
    }
  }

  /** A wallet of both domains has an exempt holder of its address. */
  lemma BothDomainsAreExempt(p: Policy, callers: seq<Caller>, wallets: seq<Wallet>, registry: Registry, w: string)
    requires Consistent(p, callers, wallets, registry)
    requires FspAllowlisted(p, w) && EvmAllowlisted(p, w) && AddressOf(wallets, w).Some?
    ensures ExemptAddress(p, wallets, AddressOf(wallets, w).value)
  {
    hide FspAllowlisted, EvmAllowlisted, AddressOf;
    var a := AddressOf(wallets, w).value;
    assert EvmAddress(p, wallets, a) && FspAddress(p, wallets, a);
    assert !Violates(p, callers, wallets, registry, SharedAddress(a));
    assert !AddressViolates(p, wallets, SharedAddress(a));
  }

  /** What the gate can admit on the call path for such a wallet: an exempt method of its contract's ABI,
      for no value. */
  lemma AdmittedUnderBlock(env: Env, req: SignRequest, path: string)
    requires PolicyEngine.AdmitCall(env, req, path).Admit?
    requires path in env.policy.permissions && req.wallet in env.policy.permissions[path].walletAllowlist ==>
      ExemptBlock(env.policy.permissions[path])
    requires env.parseInt("0") == Some(0)
    ensures var a := PolicyEngine.AdmitCall(env, req, path);
            && env.parseInt(req.valueWei) == Some(a.value) && a.value <= 0
            && path in env.policy.permissions
            && PolicyEngine.FindContract(env.policy.permissions[path].contracts, req.to).Some?
            && var crule := PolicyEngine.FindContract(env.policy.permissions[path].contracts, req.to).value;
               ExemptMethods(crule.abi).Some? && a.decoded.methodSignature in ExemptMethods(crule.abi).value
  {
    hide PolicyEngine.FirstMismatch, PolicyEngine.HexPart, PolicyEngine.DecodeIntent, ExemptMethods;
    var perm := env.policy.permissions[path];
    var crule := PolicyEngine.FindContract(perm.contracts, req.to).value;
    var i :| 0 <= i < |perm.contracts| && perm.contracts[i].1 == crule;
    assert ExemptShape(perm.contracts[i].1);
  }

  /** The API boundary lets in decimal values that are not negative. */
  predicate NonNegativeValue(env: Env, req: SignRequest) {
    env.parseInt(req.valueWei).Some? && env.parseInt(req.valueWei).value >= 0
  }

  /** If the check is clean, an FSP wallet that shares its address with no other exempt wallet (in
      particular any, when addresses are distinct) can be given nothing on the call path but an exempt
      method of the contract's ABI, for no value: exactly zero, as requests are validated. */
  lemma FspWalletsMoveNoValue(env: Env, b: Buckets, caller: Caller, req: SignRequest, now: int, callers: seq<Caller>,
                              wallets: seq<Wallet>)
    requires Consistent(env.policy, callers, wallets, env.registry)
    requires AddressOf(wallets, req.wallet).Some? && NoExemptTwin(env.policy, wallets, req.wallet)
    requires FspAllowlisted(env.policy, req.wallet) && env.parseInt("0") == Some(0)
    requires PolicyEngine.Evaluation(env, b, caller, req, now).0.Allow?
    requires env.policy.callers[caller.name].policyPath !in env.policy.nativeTransfers
    ensures var v := PolicyEngine.Evaluation(env, b, caller, req, now).0;
            && env.parseInt(req.valueWei).Some? && env.parseInt(req.valueWei).value <= 0
            && (NonNegativeValue(env, req) ==> env.parseInt(req.valueWei) == Some(0))
            && v.matchedPolicyPath in env.policy.permissions
            && PolicyEngine.FindContract(env.policy.permissions[v.matchedPolicyPath].contracts, req.to).Some?
            && var crule := PolicyEngine.FindContract(env.policy.permissions[v.matchedPolicyPath].contracts,
               req.to).value;
               ExemptMethods(crule.abi).Some? && v.decoded.methodSignature in ExemptMethods(crule.abi).value
  {
    hide PolicyEngine.Evaluation, PolicyEngine.AdmitCall, PolicyEngine.FindContract, ExemptMethods, Consistent,
      ExemptBlock, AddressOf, FspAllowlisted, EvmAllowlisted, OnlyExemptBlocks, Exempt, NoExemptTwin;
    AllowedIsAdmitted(env, b, caller, req, now);
    var path := env.policy.callers[caller.name].policyPath;
    if req.wallet in env.policy.permissions[path].walletAllowlist {
      ListedBlockIsExempt(env.policy, callers, wallets, env.registry, req.wallet, path);
    }
    AdmittedUnderBlock(env, req, path);
  }

  /** After a clean check every block that lists such a wallet is exempt. */
  lemma ListedBlockIsExempt(p: Policy, callers: seq<Caller>, wallets: seq<Wallet>, registry: Registry, w: string,
                            path: string)
    requires Consistent(p, callers, wallets, registry) && FspAllowlisted(p, w)
    requires AddressOf(wallets, w).Some? && NoExemptTwin(p, wallets, w)
    requires path in p.permissions && w in p.permissions[path].walletAllowlist
    ensures ExemptBlock(p.permissions[path])
  {
    hide Consistent, ExemptBlock, AddressOf, FspAllowlisted, Known;
    assert EvmAllowlisted(p, w);
    BothDomainsAreExempt(p, callers, wallets, registry, w);
    assert Exempt(p, wallets, w);
  }

  lemma AllowedIsAdmitted(env: Env, b: Buckets, caller: Caller, req: SignRequest, now: int)
    requires PolicyEngine.Evaluation(env, b, caller, req, now).0.Allow?
    ensures caller.name in env.policy.callers
    ensures var path := env.policy.callers[caller.name].policyPath;
            var v, a := PolicyEngine.Evaluation(env, b, caller, req, now).0, PolicyEngine.AdmitCall(env, req, path);
            path !in env.policy.nativeTransfers ==>
              path in env.policy.permissions && a.Admit? && v == PolicyEngine.Allow(a.decoded, a.path) && a.path == path
  {
    hide PolicyEngine.FirstMismatch, PolicyEngine.HexPart, PolicyEngine.DecodeIntent, PolicyEngine.AdmitNative,
      PolicyEngine.FindContract;
  }

  /** A block over one contract whose methods the registry has and whose wallets are bound is clean. */
  lemma OneContractBlockClean(p: Policy, wallets: seq<Wallet>, registry: Registry, path: string, e: Finding)
    requires path in p.permissions && |p.permissions[path].contracts| == 1
    requires var crule := p.permissions[path].contracts[0].1;
             crule.abi in registry && crule.methods.Keys <= SignaturesFor(registry, crule.abi)
    requires forall w :: w in p.permissions[path].walletAllowlist ==> w in p.wallets
    ensures !PermissionViolates(p, wallets, registry, path, e)
  {
    hide SignaturesFor;
  }

  // ---------- Why the address condition is there ----------

  const TWIN_KEY := "0xaaaaaaaaaaaaaaaaaaaaaaaaaaaaaaaaaaaaaaaa"
  const BANK_ADDRESS := "0xbbbbbbbbbbbbbbbbbbbbbbbbbbbbbbbbbbbbbbbb"
  const RELAY_ADDRESS := "0xcccccccccccccccccccccccccccccccccccccccc"

  /** Wallets "a" and "b" hold one key. Only "b" opts in to the carve-out; a caller may pay out from "a". */
  const TWINS: Policy := Policy.Policy(
    map["c" := CallerBinding("perm/a", None)], map["a" := "wc", "b" := "wc"],
    map["perm/a" := PermissionBlock(
          [(BANK_ADDRESS, ContractRule("bank", [1], map["pay()" := MethodRule("5", [], false)]))],
          ["a"], Some(RateLimit(Some(1), None))),
        "perm/b" := PermissionBlock(
          [(RELAY_ADDRESS, ContractRule("relay", [1], map["relay()" := MethodRule("0", [], false)]))], ["b"], None)],
    map["wc" := WalletConstraint(None, None)],
    map["fsp" := FspPermissionBlock(["UPTIME"], ["a", "b"], [1], None)],
    map[], ["b"])

  const TWIN_WALLETS := [Wallet("a", TWIN_KEY), Wallet("b", TWIN_KEY)]

  const TWIN_REGISTRY: Registry :=
    map["bank" := map["0x11111111" := AbiMethod("pay()", false)],
        "relay" := map["0x22222222" := AbiMethod("relay()", false)]]

  lemma TwinFacts()
    ensures SignaturesFor(TWIN_REGISTRY, "bank") == {"pay()"} && SignaturesFor(TWIN_REGISTRY, "relay") == {"relay()"}
    ensures Known(TWINS, TWIN_WALLETS, "a") && Known(TWINS, TWIN_WALLETS, "b")
    ensures forall w :: FspAllowlisted(TWINS, w) <==> w == "a" || w == "b"
    ensures forall w :: EvmAllowlisted(TWINS, w) <==> w == "a" || w == "b"
    ensures OnlyExemptBlocks(TWINS, "b")
    ensures AddressOf(TWIN_WALLETS, "a") == AddressOf(TWIN_WALLETS, "b") == Some(Lower(TWIN_KEY))
  {
    assert TWIN_REGISTRY["bank"]["0x11111111"].signature == "pay()";
    assert TWIN_REGISTRY["relay"]["0x22222222"].signature == "relay()";
    assert "fsp" in TWINS.fspPermissions && "perm/a" in TWINS.permissions && "perm/b" in TWINS.permissions;
    assert TWINS.fspPermissions["fsp"].walletAllowlist == ["a", "b"];
    assert TWINS.permissions["perm/a"].walletAllowlist == ["a"] && TWINS.permissions["perm/b"].walletAllowlist == ["b"];
    assert TWINS.permissions["perm/b"].contracts[0].1.methods.Keys == {"relay()"};
    assert ExemptBlock(TWINS.permissions["perm/b"]);
    assert TWIN_WALLETS[..1] == [Wallet("a", TWIN_KEY)];
  }

  lemma TwinBlocksClean(e: Finding)
    ensures !PermissionViolates(TWINS, TWIN_WALLETS, TWIN_REGISTRY, "perm/a", e)
    ensures !PermissionViolates(TWINS, TWIN_WALLETS, TWIN_REGISTRY, "perm/b", e)
  {
    TwinFacts();
    hide PermissionViolates, SignaturesFor, FspAllowlisted, EvmAllowlisted, OnlyExemptBlocks, AddressOf;
    OneContractBlockClean(TWINS, TWIN_WALLETS, TWIN_REGISTRY, "perm/a", e);
    OneContractBlockClean(TWINS, TWIN_WALLETS, TWIN_REGISTRY, "perm/b", e);
  }

  lemma TwinFspClean(e: Finding)
    ensures !FspViolates(TWINS, TWIN_WALLETS, "fsp", e)
  {
    TwinFacts();
    hide Known, SignaturesFor, FspAllowlisted, EvmAllowlisted, OnlyExemptBlocks, AddressOf;
    assert "UPTIME" in MESSAGE_TYPES;
  }

  lemma TwinWalletsClean(e: Finding)
    ensures !CapabilityViolates(TWINS, e) && !SelfSubmitViolates(TWINS, TWIN_WALLETS, "b", e)
    ensures Exempt(TWINS, TWIN_WALLETS, "b") && !AddressViolates(TWINS, TWIN_WALLETS, e)
  {
    TwinFacts();
    hide Known, OnlyExemptBlocks, FspAllowlisted, EvmAllowlisted, AddressOf;
    assert "b" in TWINS.fspSelfSubmit;
  }

  /** A clean check that lets an FSP-allowlisted wallet pay out: the carve-out exempts an address, and the
      address has a second holder. */
  lemma TwinEscapes()
    ensures Consistent(TWINS, [], TWIN_WALLETS, TWIN_REGISTRY)
    ensures FspAllowlisted(TWINS, "a") && "a" in TWINS.permissions["perm/a"].walletAllowlist
    ensures TWINS.permissions["perm/a"].contracts[0].1.methods["pay()"].maxValueWei == "5"
    ensures !NoExemptTwin(TWINS, TWIN_WALLETS, "a")
  {
    TwinFacts();
    hide PermissionViolates, FspViolates, SelfSubmitViolates, CapabilityViolates, AddressViolates, Exempt,
      FspAllowlisted, AddressOf;
    forall e ensures !Violates(TWINS, [], TWIN_WALLETS, TWIN_REGISTRY, e) {
      TwinBlocksClean(e);
      TwinFspClean(e);
      TwinWalletsClean(e);
    }
    TwinWalletsClean(SharedAddress(""));
    assert "b" in TWINS.fspSelfSubmit;
  }

  /** A declared caller on a known path changes nothing. */
  lemma CallersOnlyAdd(p: Policy, c: Caller, wallets: seq<Wallet>, registry: Registry)
    requires Consistent(p, [], wallets, registry)
    requires c.name in p.callers && c.policyPath == p.callers[c.name].policyPath && PathKnown(p, c.policyPath)
    ensures Consistent(p, [c], wallets, registry)
  {
    hide CapabilityViolates, PermissionViolates, NativeViolates, FspViolates, SelfSubmitViolates, AddressViolates;
    forall e ensures !Violates(p, [c], wallets, registry, e) {
      assert !Violates(p, [], wallets, registry, e);
      assert !CallerViolates(p, c, e);
    }
  }

  // ---------- What the check does not look at ----------

  function WithNative(p: Policy, path: string, block: NativeTransferBlock): Policy {
    p.(nativeTransfers := p.nativeTransfers[path := block])
  }

  lemma NativeKeepsNames(p: Policy, wallets: seq<Wallet>, path: string, block: NativeTransferBlock)
    ensures forall w :: Known(WithNative(p, path, block), wallets, w) <==> Known(p, wallets, w)
    ensures forall w :: EvmAllowlisted(WithNative(p, path, block), w) <==> EvmAllowlisted(p, w)
    ensures forall w :: FspAllowlisted(WithNative(p, path, block), w) <==> FspAllowlisted(p, w)
    ensures forall w :: OnlyExemptBlocks(WithNative(p, path, block), w) <==> OnlyExemptBlocks(p, w)
  {
    hide ExemptBlock;
  }

  lemma NativeKeepsBlocks(p: Policy, wallets: seq<Wallet>, registry: Registry, path: string, block: NativeTransferBlock,
                          q: string, e: Finding)
    ensures q in p.permissions ==> (PermissionViolates(WithNative(p, path, block), wallets, registry, q, e) <==>
      PermissionViolates(p, wallets, registry, q, e))
    ensures q in p.fspPermissions ==> (FspViolates(WithNative(p, path, block), wallets, q, e) <==>
      FspViolates(p, wallets, q, e))
  {
    NativeKeepsNames(p, wallets, path, block);
    hide Known, ContractViolates;
  }

  lemma NativeKeepsWallets(p: Policy, wallets: seq<Wallet>, path: string, block: NativeTransferBlock, w: string,
                           e: Finding)
    ensures SelfSubmitViolates(WithNative(p, path, block), wallets, w, e) <==> SelfSubmitViolates(p, wallets, w, e)
    ensures AddressViolates(WithNative(p, path, block), wallets, e) <==> AddressViolates(p, wallets, e)
  {
    NativeKeepsNames(p, wallets, path, block);
    hide Known, EvmAllowlisted, FspAllowlisted, OnlyExemptBlocks, AddressOf;
    assert forall v :: Exempt(WithNative(p, path, block), wallets, v) <==> Exempt(p, wallets, v);
  }

  /** Of a native-transfer block the check sees only whether its wallets are known: any such block, also
      one that lets an FSP wallet pay out, can be added to a clean policy. */
  lemma NativeTransfersUnchecked(p: Policy, callers: seq<Caller>, wallets: seq<Wallet>, registry: Registry,
                                 path: string, block: NativeTransferBlock)
    requires Consistent(p, callers, wallets, registry) && forall w :: w in block.walletAllowlist ==>
      Known(p, wallets, w)
    ensures Consistent(WithNative(p, path, block), callers, wallets, registry)
  {
    var p' := WithNative(p, path, block);
    hide Known, CallerViolates, PermissionViolates, FspViolates, NativeViolates, SelfSubmitViolates, AddressViolates,
      CapabilityViolates;
    forall e ensures !Violates(p', callers, wallets, registry, e) {
      assert !Violates(p, callers, wallets, registry, e);
      NativeKeepsRest(p, callers, wallets, path, block, e);
      forall q ensures q in p.permissions ==> !PermissionViolates(p', wallets, registry, q, e)
               ensures q in p.fspPermissions ==> !FspViolates(p', wallets, q, e) {
        NativeKeepsBlocks(p, wallets, registry, path, block, q, e);
      }
      forall i | 0 <= i < |p.fspSelfSubmit| ensures !SelfSubmitViolates(p', wallets, p.fspSelfSubmit[i], e) {
        NativeKeepsWallets(p, wallets, path, block, p.fspSelfSubmit[i], e);
      }
      NativeKeepsWallets(p, wallets, path, block, "", e);
    }
  }

  lemma NativeKeepsRest(p: Policy, callers: seq<Caller>, wallets: seq<Wallet>, path: string, block: NativeTransferBlock,
                        e: Finding)
    requires forall w :: w in block.walletAllowlist ==> Known(p, wallets, w)
    requires forall q :: q in p.nativeTransfers ==> !NativeViolates(p, wallets, q, e)
    ensures var p' := WithNative(p, path, block);
            && (CapabilityViolates(p', e) <==> CapabilityViolates(p, e))
            && (forall i :: 0 <= i < |callers| && CallerViolates(p', callers[i], e) ==>
                 CallerViolates(p, callers[i], e))
            && (forall q :: q in p'.nativeTransfers ==> !NativeViolates(p', wallets, q, e))
  {
    NativeKeepsNames(p, wallets, path, block);
    hide Known;
    assert forall a, id :: Claims(WithNative(p, path, block), a, id) <==> Claims(p, a, id);
  }
}
