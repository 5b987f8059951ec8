/** The shape of policy.yaml. Dictionaries whose order the code observes are sequences of pairs; the
    others are maps. */
module PolicySchema {
  import opened Prelude

  datatype RateLimit = RateLimit(perHour: Option<int>, perDay: Option<int>)

  /** A YAML scalar used as an argument predicate, or a decoded scalar argument. */
  datatype Scalar = BoolScalar(b: bool) | IntScalar(n: int) | TextScalar(s: string)

  datatype MethodRule = MethodRule(
    maxValueWei: string, argPredicates: seq<(string, Scalar)>, allowUnconstrainedArgs: bool)

  datatype ContractRule = ContractRule(abi: string, chains: seq<int>, methods: map<string, MethodRule>)

  datatype PermissionBlock = PermissionBlock(
    contracts: seq<(string, ContractRule)>, walletAllowlist: seq<string>, rate: Option<RateLimit>)

  datatype WalletConstraint = WalletConstraint(
    maxAggregateValueWeiPerDay: Option<string>, rate: Option<RateLimit>)

  datatype FspPermissionBlock = FspPermissionBlock(
    messageTypes: seq<string>, walletAllowlist: seq<string>, chainIds: seq<int>, rate: Option<RateLimit>)

  datatype NativeTransferBlock = NativeTransferBlock(
    chains: seq<int>, recipientAllowlist: seq<string>, maxValueWei: string, walletAllowlist: seq<string>,
    rate: Option<RateLimit>)

  datatype CallerBinding = CallerBinding(policyPath: string, capabilityId: Option<string>)

  /** `wallets` binds a wallet name to the path of its constraint. */
  datatype Policy = Policy(
    callers: map<string, CallerBinding>,
    wallets: map<string, string>,
    permissions: map<string, PermissionBlock>,
    walletConstraints: map<string, WalletConstraint>,
    fspPermissions: map<string, FspPermissionBlock>,
    nativeTransfers: map<string, NativeTransferBlock>,
    fspSelfSubmit: seq<string>)

  /** One state-changing function of a loaded ABI. */
  datatype AbiMethod = AbiMethod(signature: string, hasNonscalarArgs: bool)

  /** ABI name to selector to method. */
  type Registry = map<string, map<string, AbiMethod>>

  function SignaturesFor(registry: Registry, abi: string): set<string> {
    if abi !in registry then {} else set sel | sel in registry[abi] :: registry[abi][sel].signature
  }

  datatype Caller = Caller(name: string, policyPath: string, revoked: bool)

  datatype Wallet = Wallet(name: string, address: string)
}
