/** What a policy must satisfy to pass the consistency check, said without its findings: who must be declared, what must
    resolve, and which wallets may be used on both sides. */
module CheckMeaning {
  import opened Prelude
  import opened PolicySchema
  import opened PolicyLoader
  import CarveOut
  import FspMessage

  /** An active caller is declared under its name, with the path it presents, and the path exists. */
  predicate Declared(p: Policy, c: Caller) {
    && c.name in p.callers && p.callers[c.name].policyPath == c.policyPath
    && (c.policyPath in p.permissions || c.policyPath in p.fspPermissions || c.policyPath in p.nativeTransfers)
  }

  /** The wallet is in the policy or in the database. */
  ghost predicate Exists(p: Policy, wallets: seq<Wallet>, name: string) {
    name in p.wallets || exists w :: w in wallets && w.name == name
  }

  /** Every contract of the block has a registered ABI that has all the methods listed for it, and every wallet exists
      and is bound to a constraint. */
  ghost predicate BlockResolves(p: Policy, registry: Registry, b: PermissionBlock) {
    && (forall c :: c in b.contracts ==>
          c.1.abi in registry && forall s :: s in c.1.methods ==> s in SignaturesFor(registry, c.1.abi))
    && (forall w :: w in b.walletAllowlist ==> w in p.wallets)
  }

  /** The FSP block's path is no EVM path, it lists some of the six message types and no others, and its wallets
      exist. */
  ghost predicate FspBlockResolves(p: Policy, wallets: seq<Wallet>, path: string, b: FspPermissionBlock) {
    && path !in p.permissions && b.messageTypes != []
    && (forall t :: t in b.messageTypes ==>
          t in {"UPTIME", "REWARD_DISTRIBUTION", "SIGNING_POLICY", "VOTER_REGISTRATION", "PROTOCOL_PAYLOAD",
                "FAST_UPDATE"})
    && (forall w :: w in b.walletAllowlist ==> Exists(p, wallets, w))
  }

  ghost predicate ListedEvm(p: Policy, w: string) {
    exists path :: path in p.permissions && w in p.permissions[path].walletAllowlist
  }

  ghost predicate ListedFsp(p: Policy, w: string) {
    exists path :: path in p.fspPermissions && w in p.fspPermissions[path].walletAllowlist
  }

  /** A contract whose methods are self-submitted protocol calls for no value. */
  predicate OnlySelfSubmits(c: ContractRule) {
    && c.abi in {"flare_systems_manager", "relay", "voter_registry", "entity_manager"}
    && forall s :: s in c.methods ==> CarveOut.SelfSubmits(c.abi, s) && c.methods[s].maxValueWei == "0"
  }

  /** An opted-in wallet exists, is listed on both sides, and on the EVM side only in blocks of such contracts. */
  ghost predicate OptsIn(p: Policy, wallets: seq<Wallet>, w: string) {
    && Exists(p, wallets, w) && ListedFsp(p, w) && ListedEvm(p, w)
    && EvmCallsAreSelfSubmits(p, w)
  }

  ghost predicate EvmCallsAreSelfSubmits(p: Policy, w: string) {
    forall path, c ::
      path in p.permissions && w in p.permissions[path].walletAllowlist && c in p.permissions[path].contracts ==>
        OnlySelfSubmits(c.1)
  }

  /** Of the database's wallets of that name the last one has this address, in lower case. */
  predicate HasAddress(wallets: seq<Wallet>, name: string, a: string) {
    exists i :: 0 <= i < |wallets| && wallets[i].name == name && Lower(wallets[i].address) == a
      && forall j :: i < j < |wallets| ==> wallets[j].name != name
  }

  /** An address used on both sides belongs to an opted-in wallet. */
  ghost predicate Segmented(p: Policy, wallets: seq<Wallet>) {
    forall v, w, a :: ListedEvm(p, v) && ListedFsp(p, w) && HasAddress(wallets, v, a) && HasAddress(wallets, w, a) ==>
      exists u :: u in p.fspSelfSubmit && HasAddress(wallets, u, a)
  }

  /** No two callers carry one capability id. */
  ghost predicate UniqueCapabilities(p: Policy) {
    forall a, b ::
      a in p.callers && b in p.callers && p.callers[a].capabilityId.Some?
      && p.callers[a].capabilityId == p.callers[b].capabilityId ==>
        a == b
  }

  /** Everything the check asks for. */
  ghost predicate Sound(p: Policy, callers: seq<Caller>, wallets: seq<Wallet>, registry: Registry) {
    && (forall c :: c in callers && !c.revoked ==> Declared(p, c))
    && UniqueCapabilities(p)
    && (forall path :: path in p.permissions ==> BlockResolves(p, registry, p.permissions[path]))
    && (forall path, w :: path in p.nativeTransfers && w in p.nativeTransfers[path].walletAllowlist ==>
          Exists(p, wallets, w))
    && (forall w :: w in p.wallets ==> p.wallets[w] in p.walletConstraints)
    && (forall path :: path in p.fspPermissions ==> FspBlockResolves(p, wallets, path, p.fspPermissions[path]))
    && (forall w :: w in p.fspSelfSubmit ==> OptsIn(p, wallets, w))
    && Segmented(p, wallets)
  }

  // ---------- Section by section ----------

  lemma KnownIsExists(p: Policy, wallets: seq<Wallet>, name: string)
    ensures Known(p, wallets, name) <==> Exists(p, wallets, name)
  {
    if i :| 0 <= i < |wallets| && wallets[i].name == name {
      assert wallets[i] in wallets;
    }
    if w :| w in wallets && w.name == name {
      var i :| 0 <= i < |wallets| && wallets[i] == w;
      assert wallets[i].name == name;
    }
  }

  lemma CallersIff(p: Policy, callers: seq<Caller>)
    ensures (forall e, i :: 0 <= i < |callers| ==> !CallerViolates(p, callers[i], e)) <==>
            forall c :: c in callers && !c.revoked ==> Declared(p, c)
  {
    if forall e, i :: 0 <= i < |callers| ==> !CallerViolates(p, callers[i], e) {
      forall c | c in callers && !c.revoked ensures Declared(p, c) {
        var i :| 0 <= i < |callers| && callers[i] == c;
        assert !CallerViolates(p, callers[i], CallerNotInPolicy(c.name));
        assert !CallerViolates(p, callers[i], CallerDrift(c.name));
        assert !CallerViolates(p, callers[i], CallerPathUnknown(c.name));
      }
    }
    if forall c :: c in callers && !c.revoked ==> Declared(p, c) {
      forall e, i | 0 <= i < |callers| ensures !CallerViolates(p, callers[i], e) {
        assert callers[i] in callers;
      }
    }
  }

  lemma CapabilitiesIff(p: Policy)
    ensures (forall e :: !CapabilityViolates(p, e)) <==> UniqueCapabilities(p)
  {
    if forall e :: !CapabilityViolates(p, e) {
      forall a, b | a in p.callers && b in p.callers && p.callers[a].capabilityId.Some?
                    && p.callers[a].capabilityId == p.callers[b].capabilityId
        ensures a == b
      {
        var id := p.callers[a].capabilityId.value;
        assert !CapabilityViolates(p, DuplicateCapability(id));
        assert Claims(p, a, id) && Claims(p, b, id);
      }
    }
  }

  lemma ContractIff(registry: Registry, path: string, contract: (string, ContractRule))
    ensures (forall e :: !ContractViolates(registry, path, contract, e)) <==>
            contract.1.abi in registry
            && forall s :: s in contract.1.methods ==> s in SignaturesFor(registry, contract.1.abi)
  {
    hide SignaturesFor;
    if forall e :: !ContractViolates(registry, path, contract, e) {
      assert !ContractViolates(registry, path, contract, UnknownAbi(path, contract.0));
      forall s | s in contract.1.methods ensures s in SignaturesFor(registry, contract.1.abi) {
        assert !ContractViolates(registry, path, contract, UnknownMethod(path, contract.0, s));
      }
    }
  }

  lemma BlockIff(p: Policy, wallets: seq<Wallet>, registry: Registry, path: string)
    requires path in p.permissions
    ensures (forall e :: !PermissionViolates(p, wallets, registry, path, e)) <==>
            BlockResolves(p, registry, p.permissions[path])
  {
    var perm := p.permissions[path];
    forall i | 0 <= i < |perm.contracts|
      ensures (forall e :: !ContractViolates(registry, path, perm.contracts[i], e)) <==>
              perm.contracts[i].1.abi in registry
              && forall s :: s in perm.contracts[i].1.methods ==> s in SignaturesFor(registry, perm.contracts[i].1.abi)
    {
      ContractIff(registry, path, perm.contracts[i]);
    }
    hide SignaturesFor;
    if forall e :: !PermissionViolates(p, wallets, registry, path, e) {
      forall i, e | 0 <= i < |perm.contracts| ensures !ContractViolates(registry, path, perm.contracts[i], e) {
        assert !PermissionViolates(p, wallets, registry, path, e);
      }
      forall w | w in perm.walletAllowlist ensures w in p.wallets {
        assert !PermissionViolates(p, wallets, registry, path, UnboundWallet(path, w));
      }
    }
    if BlockResolves(p, registry, perm) {
      forall e ensures !PermissionViolates(p, wallets, registry, path, e) {
        forall i | 0 <= i < |perm.contracts| ensures !ContractViolates(registry, path, perm.contracts[i], e) {
          assert perm.contracts[i] in perm.contracts;
        }
      }
    }
  }

  lemma NativeIff(p: Policy, wallets: seq<Wallet>)
    ensures (forall e, path :: path in p.nativeTransfers ==> !NativeViolates(p, wallets, path, e)) <==>
            forall path, w :: path in p.nativeTransfers && w in p.nativeTransfers[path].walletAllowlist ==>
              Exists(p, wallets, w)
  {
    forall w ensures Known(p, wallets, w) <==> Exists(p, wallets, w) {
      KnownIsExists(p, wallets, w);
    }
    hide Known, Exists;
    if forall e, path :: path in p.nativeTransfers ==> !NativeViolates(p, wallets, path, e) {
      forall path, w | path in p.nativeTransfers && w in p.nativeTransfers[path].walletAllowlist
        ensures Exists(p, wallets, w)
      {
        assert !NativeViolates(p, wallets, path, NativeUnknownWallet(path, w));
      }
    }
  }

  lemma FspBlockIff(p: Policy, wallets: seq<Wallet>, path: string)
    requires path in p.fspPermissions
    ensures (forall e :: !FspViolates(p, wallets, path, e)) <==>
            FspBlockResolves(p, wallets, path, p.fspPermissions[path])
  {
    var b := p.fspPermissions[path];
    forall w ensures Known(p, wallets, w) <==> Exists(p, wallets, w) {
      KnownIsExists(p, wallets, w);
    }
    hide Known, Exists;
    if forall e :: !FspViolates(p, wallets, path, e) {
      assert !FspViolates(p, wallets, path, CrossDomainPath(path));
      assert !FspViolates(p, wallets, path, NoMessageTypes(path));
      forall t | t in b.messageTypes ensures t in FspMessage.MESSAGE_TYPES {
        assert !FspViolates(p, wallets, path, UnknownMessageType(path, t));
      }
      forall w | w in b.walletAllowlist ensures Exists(p, wallets, w) {
        assert !FspViolates(p, wallets, path, FspUnknownWallet(path, w));
      }
    }
  }

  lemma ShapeIff(c: ContractRule)
    ensures ExemptShape(c) <==> OnlySelfSubmits(c)
  {
    hide ExemptMethods, CarveOut.SelfSubmits;
    ExemptAbis(c.abi);
    forall s ensures ExemptMethods(c.abi).Some? && s in ExemptMethods(c.abi).value <==> CarveOut.SelfSubmits(c.abi, s) {
      CarveOut.ExemptIsSelfSubmitted(c.abi, s);
    }
  }

  lemma ExemptAbis(abi: string)
    ensures ExemptMethods(abi).Some? <==> abi in {"flare_systems_manager", "relay", "voter_registry", "entity_manager"}
  {
  }

  lemma OptsInIff(p: Policy, wallets: seq<Wallet>, w: string)
    ensures Exempt(p, wallets, w) <==> OptsIn(p, wallets, w)
    ensures (forall e :: !SelfSubmitViolates(p, wallets, w, e)) <==> OptsIn(p, wallets, w)
  {
    KnownIsExists(p, wallets, w);
    OnlyExemptIff(p, w);
    hide Known, Exists, OnlyExemptBlocks;
    if forall e :: !SelfSubmitViolates(p, wallets, w, e) {
      assert !SelfSubmitViolates(p, wallets, w, SelfSubmitUnknown(w));
      assert !SelfSubmitViolates(p, wallets, w, SelfSubmitNotFsp(w));
      assert !SelfSubmitViolates(p, wallets, w, SelfSubmitUnused(w));
      assert !SelfSubmitViolates(p, wallets, w, SelfSubmitRefused(w));
    }
  }

  lemma OnlyExemptIff(p: Policy, w: string)
    ensures OnlyExemptBlocks(p, w) <==> EvmCallsAreSelfSubmits(p, w)
  {
    forall c ensures ExemptShape(c) <==> OnlySelfSubmits(c) {
      ShapeIff(c);
    }
    hide ExemptShape, OnlySelfSubmits;
    if OnlyExemptBlocks(p, w) {
      forall path, c | path in p.permissions && w in p.permissions[path].walletAllowlist
                       && c in p.permissions[path].contracts
        ensures OnlySelfSubmits(c.1)
      {
        var i :| 0 <= i < |p.permissions[path].contracts| && p.permissions[path].contracts[i] == c;
        assert ExemptBlock(p.permissions[path]);
        assert ExemptShape(p.permissions[path].contracts[i].1);
      }
    }
  }

  lemma {:induction false} AddressIff(wallets: seq<Wallet>, name: string, a: string)
    ensures AddressOf(wallets, name) == Some(a) <==> HasAddress(wallets, name, a)
    decreases |wallets|
  {
    hide Lower;
    if wallets != [] {
      var n, shorter := |wallets| - 1, wallets[..|wallets| - 1];
      if wallets[n].name != name {
        AddressIff(shorter, name, a);
        if i :| 0 <= i < |wallets| && wallets[i].name == name && Lower(wallets[i].address) == a
                && forall j :: i < j < |wallets| ==> wallets[j].name != name {
          assert shorter[i] == wallets[i];
        }
        if i :| 0 <= i < |shorter| && shorter[i].name == name && Lower(shorter[i].address) == a
                && forall j :: i < j < |shorter| ==> shorter[j].name != name {
          assert forall j :: i < j < |wallets| ==> j == n || wallets[j] == shorter[j];
          assert wallets[i] == shorter[i];
        }
      } else {
        assert wallets[n].name == name;
      }
    }
  }

  lemma SegmentedIff(p: Policy, wallets: seq<Wallet>)
    requires forall w :: w in p.fspSelfSubmit ==> OptsIn(p, wallets, w)
    ensures (forall e :: !AddressViolates(p, wallets, e)) <==> Segmented(p, wallets)
  {
    forall name, a ensures AddressOf(wallets, name) == Some(a) <==> HasAddress(wallets, name, a) {
      AddressIff(wallets, name, a);
    }
    forall w ensures Exempt(p, wallets, w) <==> OptsIn(p, wallets, w) {
      OptsInIff(p, wallets, w);
    }
    hide AddressOf, HasAddress, Exempt, OptsIn;
    if forall e :: !AddressViolates(p, wallets, e) {
      forall v, w, a | ListedEvm(p, v) && ListedFsp(p, w) && HasAddress(wallets, v, a) && HasAddress(wallets, w, a)
        ensures exists u :: u in p.fspSelfSubmit && HasAddress(wallets, u, a)
      {
        assert EvmAllowlisted(p, v) && FspAllowlisted(p, w);
        assert !AddressViolates(p, wallets, SharedAddress(a));
      }
    }
    hide EvmAllowlisted, FspAllowlisted;
    if Segmented(p, wallets) {
      forall e ensures !AddressViolates(p, wallets, e) {
        if e.SharedAddress? && EvmAddress(p, wallets, e.address) && FspAddress(p, wallets, e.address) {
          var v :| EvmAllowlisted(p, v) && AddressOf(wallets, v) == Some(e.address);
          var w :| FspAllowlisted(p, w) && AddressOf(wallets, w) == Some(e.address);
          assert ListedEvm(p, v) by { ListedBothWays(p, v); }
          assert ListedFsp(p, w) by { ListedBothWays(p, w); }
          var u :| u in p.fspSelfSubmit && HasAddress(wallets, u, e.address);
        }
      }
    }
  }

  lemma ListedBothWays(p: Policy, w: string)
    ensures EvmAllowlisted(p, w) <==> ListedEvm(p, w)
    ensures FspAllowlisted(p, w) <==> ListedFsp(p, w)
  {
  }

  // ---------- The whole check ----------

  lemma ConsistentSections(p: Policy, callers: seq<Caller>, wallets: seq<Wallet>, registry: Registry)
    ensures Consistent(p, callers, wallets, registry) <==>
              && (forall e :: Clean(p, callers, wallets, registry, e))
              && (forall w :: w in p.wallets ==> p.wallets[w] in p.walletConstraints)
  {
    hide CallerViolates, CapabilityViolates, PermissionViolates, NativeViolates, FspViolates, SelfSubmitViolates,
      AddressViolates;
    if Consistent(p, callers, wallets, registry) {
      forall e ensures Clean(p, callers, wallets, registry, e) {
        assert !Violates(p, callers, wallets, registry, e);
      }
      forall w | w in p.wallets ensures p.wallets[w] in p.walletConstraints {
        assert !Violates(p, callers, wallets, registry, UnknownConstraint(w));
      }
    }
    if forall e :: Clean(p, callers, wallets, registry, e) {
      if forall w :: w in p.wallets ==> p.wallets[w] in p.walletConstraints {
        forall e ensures !Violates(p, callers, wallets, registry, e) {
          assert Clean(p, callers, wallets, registry, e);
        }
      }
    }
  }

  /** No section reports `e`. */
  ghost predicate Clean(p: Policy, callers: seq<Caller>, wallets: seq<Wallet>, registry: Registry, e: Finding) {
    && (forall i :: 0 <= i < |callers| ==> !CallerViolates(p, callers[i], e))
    && !CapabilityViolates(p, e)
    && (forall path :: path in p.permissions ==> !PermissionViolates(p, wallets, registry, path, e))
    && (forall path :: path in p.nativeTransfers ==> !NativeViolates(p, wallets, path, e))
    && (forall path :: path in p.fspPermissions ==> !FspViolates(p, wallets, path, e))
    && (forall i :: 0 <= i < |p.fspSelfSubmit| ==> !SelfSubmitViolates(p, wallets, p.fspSelfSubmit[i], e))
    && !AddressViolates(p, wallets, e)
  }

  /** A policy passes the check exactly when it is sound. */
  lemma ConsistentIff(p: Policy, callers: seq<Caller>, wallets: seq<Wallet>, registry: Registry)
    ensures Consistent(p, callers, wallets, registry) <==> Sound(p, callers, wallets, registry)
  {
    ConsistentSections(p, callers, wallets, registry);
    CallersIff(p, callers);
    CapabilitiesIff(p);
    NativeIff(p, wallets);
    hide Consistent, CallerViolates, CapabilityViolates, NativeViolates, Declared, Exists, UniqueCapabilities;
    forall path | path in p.permissions
      ensures (forall e :: !PermissionViolates(p, wallets, registry, path, e)) <==>
              BlockResolves(p, registry, p.permissions[path])
    {
      BlockIff(p, wallets, registry, path);
    }
    hide PermissionViolates, BlockResolves;
    forall path | path in p.fspPermissions
      ensures (forall e :: !FspViolates(p, wallets, path, e)) <==>
              FspBlockResolves(p, wallets, path, p.fspPermissions[path])
    {
      FspBlockIff(p, wallets, path);
    }
    hide FspViolates, FspBlockResolves;
    SelfSubmitsIff(p, wallets);
    hide SelfSubmitViolates, OptsIn;
    if forall w :: w in p.fspSelfSubmit ==> OptsIn(p, wallets, w) {
      SegmentedIff(p, wallets);
    }
    hide AddressViolates, Segmented;
    CleanSections(p, callers, wallets, registry);
    hide Clean;
  }

  /** Every finding is absent exactly when it is absent from every section. */
  lemma CleanSections(p: Policy, callers: seq<Caller>, wallets: seq<Wallet>, registry: Registry)
    ensures (forall e :: Clean(p, callers, wallets, registry, e)) <==>
              && (forall e, i :: 0 <= i < |callers| ==> !CallerViolates(p, callers[i], e))
              && (forall e :: !CapabilityViolates(p, e))
              && (forall path :: path in p.permissions ==>
                    forall e :: !PermissionViolates(p, wallets, registry, path, e))
              && (forall e, path :: path in p.nativeTransfers ==> !NativeViolates(p, wallets, path, e))
              && (forall path :: path in p.fspPermissions ==> forall e :: !FspViolates(p, wallets, path, e))
              && (forall e, i :: 0 <= i < |p.fspSelfSubmit| ==>
                    !SelfSubmitViolates(p, wallets, p.fspSelfSubmit[i], e))
              && (forall e :: !AddressViolates(p, wallets, e))
  {
    hide CallerViolates, CapabilityViolates, PermissionViolates, NativeViolates, FspViolates, SelfSubmitViolates,
      AddressViolates;
    if forall e :: Clean(p, callers, wallets, registry, e) {
      forall e, i | 0 <= i < |callers| ensures !CallerViolates(p, callers[i], e) {
        assert Clean(p, callers, wallets, registry, e);
      }
      forall e ensures !CapabilityViolates(p, e) && !AddressViolates(p, wallets, e) {
        assert Clean(p, callers, wallets, registry, e);
      }
      forall path, e | path in p.permissions ensures !PermissionViolates(p, wallets, registry, path, e) {
        assert Clean(p, callers, wallets, registry, e);
      }
      forall e, path | path in p.nativeTransfers ensures !NativeViolates(p, wallets, path, e) {
        assert Clean(p, callers, wallets, registry, e);
      }
      forall path, e | path in p.fspPermissions ensures !FspViolates(p, wallets, path, e) {
        assert Clean(p, callers, wallets, registry, e);
      }
      forall e, i | 0 <= i < |p.fspSelfSubmit| ensures !SelfSubmitViolates(p, wallets, p.fspSelfSubmit[i], e) {
        assert Clean(p, callers, wallets, registry, e);
      }
    }
  }

  lemma SelfSubmitsIff(p: Policy, wallets: seq<Wallet>)
    ensures (forall e, i :: 0 <= i < |p.fspSelfSubmit| ==> !SelfSubmitViolates(p, wallets, p.fspSelfSubmit[i], e)) <==>
            forall w :: w in p.fspSelfSubmit ==> OptsIn(p, wallets, w)
  {
    forall w ensures (forall e :: !SelfSubmitViolates(p, wallets, w, e)) <==> OptsIn(p, wallets, w) {
      OptsInIff(p, wallets, w);
    }
    hide SelfSubmitViolates, OptsIn;
    if forall e, i :: 0 <= i < |p.fspSelfSubmit| ==> !SelfSubmitViolates(p, wallets, p.fspSelfSubmit[i], e) {
      forall w | w in p.fspSelfSubmit ensures OptsIn(p, wallets, w) {
        var i :| 0 <= i < |p.fspSelfSubmit| && p.fspSelfSubmit[i] == w;
        assert forall e :: !SelfSubmitViolates(p, wallets, p.fspSelfSubmit[i], e);
      }
    }
    if forall w :: w in p.fspSelfSubmit ==> OptsIn(p, wallets, w) {
      forall e, i | 0 <= i < |p.fspSelfSubmit| ensures !SelfSubmitViolates(p, wallets, p.fspSelfSubmit[i], e) {
        assert OptsIn(p, wallets, p.fspSelfSubmit[i]);
      }
    }
  }
}
