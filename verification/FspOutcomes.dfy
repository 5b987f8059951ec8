/** What an FSP request is answered, said of the policy and the request: who may sign which message with which wallet
    on which chain, which fields a message of each type may carry, and where each field lies in the hashed bytes. */
module FspOutcomes {
  import opened Prelude
  import opened PolicySchema
  import opened Environment
  import opened Store
  import opened RateWindows
  import opened SignTransaction
  import opened FspMessage
  import opened SignFspMessage
  import AuditLog
  import GateMeaning

  // ---------- The gate ----------

  /** The caller is bound as it presents itself, to a path with an FSP block and no permissions block. */
  predicate OnFspPath(p: Policy, caller: Caller) {
    && GateMeaning.BoundAsPresented(p, caller)
    && caller.policyPath in p.fspPermissions && caller.policyPath !in p.permissions
  }

  /** The block's chains cover the request: its chain is listed, or none is, except that an uptime vote needs a list. */
  predicate ChainCovered(perm: FspPermissionBlock, messageType: string, chain: Option<int>) {
    if perm.chainIds == [] then messageType != "UPTIME" else chain.Some? && chain.value in perm.chainIds
  }

  /** The caller may have this message signed with this wallet. */
  predicate MaySign(p: Policy, caller: Caller, req: FspRequest) {
    && OnFspPath(p, caller)
    && var perm := p.fspPermissions[caller.policyPath];
       && ChainCovered(perm, req.messageType, req.fields.chainId)
       && req.messageType in perm.messageTypes && req.wallet in perm.walletAllowlist
  }

  lemma DenialIsExact(p: Policy, caller: Caller, req: FspRequest)
    ensures FspDenial(p, caller, req).None? <==> MaySign(p, caller, req)
    ensures var n := FspDenial(p, caller, req);
            && (n.Some? ==> 1 <= n.value.0 <= 6)
            && (n.Some? && n.value.0 == 1 <==> !GateMeaning.BoundAsPresented(p, caller))
            && (n.Some? && n.value.0 in {1, 2, 3} <==> !OnFspPath(p, caller))
            && (OnFspPath(p, caller) ==>
                  var perm := p.fspPermissions[caller.policyPath];
                  var covered := ChainCovered(perm, req.messageType, req.fields.chainId);
                  && (n.Some? && n.value.0 == 4 <==> !covered)
                  && (n.Some? && n.value.0 == 5 <==> covered && req.messageType !in perm.messageTypes)
                  && (n.Some? && n.value.0 == 6 <==>
                        covered && req.messageType in perm.messageTypes && req.wallet !in perm.walletAllowlist))
  {
  }

  /** The FSP gate allows a request exactly when the caller may have it signed and its rate has room for one more;
      step 7 answers exactly when only the room is missing. */
  lemma FspGateIsExact(env: Env, b: Buckets, caller: Caller, req: FspRequest, now: int)
    ensures var r := FspEvaluation(env, b, caller, req, now);
            var subject := FspSubject(caller.name, req.wallet, req.messageType);
            var may := MaySign(env.policy, caller, req);
            var room := may && var rate := env.policy.fspPermissions[caller.policyPath].rate;
                               rate.Some? && GateMeaning.HasRoom(b.fsp, subject, rate.value, now);
            && (r.0.FspAllow? <==> room)
            && (r.0.FspAllow? ==>
                  r.0 == FspAllow(subject, env.policy.fspPermissions[caller.policyPath].rate))
            && (r.0.FspDeny? && r.0.step == 7 <==> may && !room)
            && (r.0.FspDeny? ==> r.1 == b) && r.1.callers == b.callers && r.1.wallets == b.wallets
  {
    DenialIsExact(env.policy, caller, req);
    hide FspDenial, MaySign, GateMeaning.HasRoom, Bump;
    if MaySign(env.policy, caller, req) {
      MayIsBound(env.policy, caller, req);
      var rate := env.policy.fspPermissions[caller.policyPath].rate;
      if rate.Some? {
        GateMeaning.RoomIsExact(b.fsp, FspSubject(caller.name, req.wallet, req.messageType), rate.value, now);
      }
    }
  }

  lemma MayIsBound(p: Policy, caller: Caller, req: FspRequest)
    requires MaySign(p, caller, req)
    ensures caller.name in p.callers && p.callers[caller.name].policyPath == caller.policyPath
    ensures caller.policyPath in p.fspPermissions
  {
  }

  // ---------- The reply ----------

  /** The request gets a signature exactly when it is heard, allowed, well formed and the signer signs; and the
      signature is over the message hash built from it, with the wallet it names. */
  lemma FspReplyIsExact(env: Env, d: Db, caller: Caller, req: FspRequest, clock: Clock, outcome: SignerOutcome)
    ensures var r := FspStep(env, d, caller, req, clock, outcome);
            var heard := 1 <= |caller.name| <= 64 && req.wallet in d.wallets;
            var v := FspEvaluation(env, d.buckets, caller, req, clock.now);
            var allowed, built := heard && v.0.FspAllow?, Built(env, req);
            && (r.1.FspCallerInvalid? <==> !(1 <= |caller.name| <= 64))
            && (r.1.FspWalletNotFound? <==> 1 <= |caller.name| <= 64 && req.wallet !in d.wallets)
            && (r.1.FspDenied? <==> heard && v.0.FspDeny?)
            && (r.1.FspDenied? ==> r.1.step == v.0.step)
            && (r.1.FspMalformed? <==> allowed && built.None?)
            && (r.1.FspVaultUnavailable? <==> allowed && built.Some? && outcome == SealFailure)
            && (r.1.FspOk? <==> allowed && built.Some? && outcome == SignerOk)
            && (r.1.FspOk? ==> r.1.signature == env.signFsp(req.wallet, built.value) && r.0.buckets == v.1)
  {
    hide FspEvaluation, Built, FspEntry, SignatureText, AuditLog.AppendRow, DenyText, ReleaseCounters;
  }

  // ---------- Fields ----------

  /** No field set. */
  const BLANK := MessageFields(None, None, None, None, None, None, None, None, None, None, None, None, None, None, None)

  /** `o` holds a number that fits a 32-byte word. */
  predicate IsWord(o: Option<int>) {
    o.Some? && 0 <= o.value < Pow256(32)
  }

  predicate IsChain(o: Option<int>) {
    IsWord(o) && o.value > 0
  }

  /** The text spells these bytes after its prefix. */
  predicate SpellsBytes(o: Option<string>, bs: Bytes) {
    o.Some? && "0x" <= o.value && FromHex(o.value[2..]) == Some(bs)
  }

  /** The message of type `t` that these fields make, or none: the fields of the type and no others, each in its
      range. */
  ghost predicate Makes(t: string, epoch: int, f: MessageFields, b: Body) {
    && 0 <= epoch < 16_777_216
    && match b
       case Uptime(e) => t == "UPTIME" && e == epoch && f == BLANK
       case Reward(e, chain, claims, h) =>
         && t == "REWARD_DISTRIBUTION" && e == epoch
         && f == BLANK.(chainId := Some(chain), noOfWeightBasedClaims := Some(claims), rewardsHash := f.rewardsHash)
         && IsChain(f.chainId) && IsWord(f.noOfWeightBasedClaims)
         && |h| == 32 && SpellsBytes(f.rewardsHash, h) && |f.rewardsHash.value| == 66
       case Legacy(e, a) =>
         && t == "VOTER_REGISTRATION" && e == epoch
         && f == BLANK.(address := f.address, registrationVariant := Some("legacy"))
         && |a| == 20 && SpellsBytes(f.address, a) && IsHexAddress(f.address.value)
       case ChainScoped(chain, e, a) =>
         && t == "VOTER_REGISTRATION" && e == epoch
         && f == BLANK.(chainId := Some(chain), address := f.address, registrationVariant := Some("chain_scoped"))
         && IsChain(f.chainId) && |a| == 20 && SpellsBytes(f.address, a) && IsHexAddress(f.address.value)
       case Policy(p) =>
         t == "SIGNING_POLICY" && f == BLANK.(signingPolicy := f.signingPolicy)
         && p != [] && SpellsBytes(f.signingPolicy, p)
       case Payload(p) =>
         && t == "PROTOCOL_PAYLOAD" && 0 < |p| <= 4096
         && f == BLANK.(chainId := f.chainId, payload := f.payload, protocolId := f.protocolId)
         && SpellsBytes(f.payload, p)
       case FastUpdate(n, r, gx, gy, c, s, deltas) =>
         && t == "FAST_UPDATE" && |deltas| <= 4096
         && f == BLANK.(chainId := f.chainId, blockNumber := Some(n), replicate := Some(r), gammaX := Some(gx),
                        gammaY := Some(gy), c := Some(c), s := Some(s), deltas := f.deltas)
         && IsWord(f.blockNumber) && IsWord(f.replicate) && IsWord(f.gammaX) && IsWord(f.gammaY)
         && IsWord(f.c) && IsWord(f.s) && SpellsBytes(f.deltas, deltas)
  }

  lemma RewardIsExact(epoch: nat, f: MessageFields, b: Body)
    requires epoch < 16_777_216
    ensures ValidateReward(epoch, f) == Some(b) <==> b.Reward? && Makes("REWARD_DISTRIBUTION", epoch, f, b)
  {
    hide FromHex, Pow256;
  }

  lemma RegistrationIsExact(epoch: nat, f: MessageFields, b: Body)
    requires epoch < 16_777_216
    ensures ValidateRegistration(epoch, f) == Some(b) <==>
              (b.Legacy? || b.ChainScoped?) && Makes("VOTER_REGISTRATION", epoch, f, b)
  {
    hide FromHex, Pow256, Nibble;
  }

  lemma PolicyIsExact(epoch: nat, f: MessageFields, b: Body)
    requires epoch < 16_777_216
    ensures ValidatePolicy(f) == Some(b) <==> b.Policy? && Makes("SIGNING_POLICY", epoch, f, b)
  {
    hide FromHex, Pow256;
  }

  lemma PayloadIsExact(epoch: nat, f: MessageFields, b: Body)
    requires epoch < 16_777_216
    ensures ValidatePayload(f) == Some(b) <==> b.Payload? && Makes("PROTOCOL_PAYLOAD", epoch, f, b)
  {
    hide FromHex, Pow256;
  }

  lemma FastUpdateIsExact(epoch: nat, f: MessageFields, b: Body)
    requires epoch < 16_777_216
    ensures ValidateFastUpdate(f) == Some(b) <==> b.FastUpdate? && Makes("FAST_UPDATE", epoch, f, b)
  {
    hide FromHex, Pow256;
  }

  lemma UptimeIsExact(epoch: nat, f: MessageFields, b: Body)
    requires epoch < 16_777_216
    ensures Validate("UPTIME", epoch, f) == Some(b) <==> b.Uptime? && Makes("UPTIME", epoch, f, b)
  {
    hide FromHex, Pow256;
  }

  /** A request is accepted exactly as the message its fields make. */
  lemma ValidateIsExact(t: string, epoch: int, f: MessageFields, b: Body)
    ensures Validate(t, epoch, f) == Some(b) <==> Makes(t, epoch, f, b)
  {
    if 0 <= epoch < 16_777_216 {
      RewardIsExact(epoch, f, b);
      RegistrationIsExact(epoch, f, b);
      PolicyIsExact(epoch, f, b);
      PayloadIsExact(epoch, f, b);
      FastUpdateIsExact(epoch, f, b);
      UptimeIsExact(epoch, f, b);
      TypeOfMakes(t, epoch, f, b);
      hide ValidateReward, ValidateRegistration, ValidatePolicy, ValidatePayload, ValidateFastUpdate, Makes;
    }
  }

  /** The type fixes the kind of message. */
  lemma TypeOfMakes(t: string, epoch: int, f: MessageFields, b: Body)
    ensures Makes(t, epoch, f, b) ==>
              t == match b
                   case Uptime(_) => "UPTIME"
                   case Reward(_, _, _, _) => "REWARD_DISTRIBUTION"
                   case Legacy(_, _) => "VOTER_REGISTRATION"
                   case ChainScoped(_, _, _) => "VOTER_REGISTRATION"
                   case Policy(_) => "SIGNING_POLICY"
                   case Payload(_) => "PROTOCOL_PAYLOAD"
                   case FastUpdate(_, _, _, _, _, _, _) => "FAST_UPDATE"
  {
    hide SpellsBytes, IsHexAddress, Pow256;
  }

  /** Outside reward distributions and chain-scoped registrations the request's chain is dropped before the message is
      built; every other field reaches it as it came. */
  lemma ChainReachesTwoKinds(req: FspRequest)
    ensures var scoped := req.messageType == "REWARD_DISTRIBUTION"
                          || (req.messageType == "VOTER_REGISTRATION"
                              && req.fields.registrationVariant != Some("legacy"))
                          || req.messageType !in MESSAGE_TYPES;
            BuildFields(req) == if scoped then req.fields else req.fields.(chainId := None)
  {
  }

  // ---------- Hexadecimal text ----------

  const HEX := "0123456789abcdef"

  function HexText(bs: Bytes): string {
    if bs == [] then "" else [HEX[bs[0] as int / 16], HEX[bs[0] as int % 16]] + HexText(bs[1..])
  }

  lemma NibbleOf(n: nat)
    requires n < 16
    ensures Nibble(HEX[n]) == Some(n) && !IsSpace(HEX[n])
  {
  }

  lemma PairReads(c: char, e: char, hi: nat, lo: nat, rest: string, bs: Bytes)
    requires hi < 16 && lo < 16 && Nibble(c) == Some(hi) && Nibble(e) == Some(lo) && !IsSpace(c)
    requires FromHex(rest) == Some(bs)
    ensures FromHex([c, e] + rest) == Some([(16 * hi + lo) as byte] + bs)
  {
    hide Nibble, IsSpace;
    assert ([c, e] + rest)[2..] == rest;
  }

  /** Reading inverts writing bytes as hexadecimal text. */
  lemma {:induction false} HexRoundTrip(bs: Bytes)
    ensures FromHex(HexText(bs)) == Some(bs)
    decreases |bs|
  {
    if bs != [] {
      var hi, lo := bs[0] as int / 16, bs[0] as int % 16;
      HexRoundTrip(bs[1..]);
      NibbleOf(hi);
      NibbleOf(lo);
      var s := HexText(bs);
      hide Nibble, IsSpace, FromHex;
      PairReads(HEX[hi], HEX[lo], hi, lo, HexText(bs[1..]), bs[1..]);
      assert s == [HEX[hi], HEX[lo]] + HexText(bs[1..]);
      assert bs == [(16 * hi + lo) as byte] + bs[1..];
    }
  }

  // ---------- The layout of the hashed bytes ----------

  /** The number in the `i`-th 32-byte word. */
  function NumberAt(bs: Bytes, i: nat): nat
    requires 32 * (i + 1) <= |bs|
  {
    FromBigEndian(bs[32 * i..32 * (i + 1)])
  }

  predicate ZeroBytes(bs: Bytes) {
    forall i :: 0 <= i < |bs| ==> bs[i] == 0
  }

  /** An address right-aligned in its word. */
  predicate AddressIn(bs: Bytes, i: nat, a: Bytes)
    requires 32 * (i + 1) <= |bs|
  {
    |a| == 20 && ZeroBytes(bs[32 * i..32 * i + 12]) && bs[32 * i + 12..32 * (i + 1)] == a
  }

  lemma WordReads(n: nat)
    requires FitsWord(n)
    ensures FromBigEndian(Word(n)) == n
  {
    BigEndianRoundTrip(n, 32);
  }

  /** Where each field of a message lies in the bytes that are hashed. */
  ghost predicate LaidOut(keccak: BytesHash, b: Body, bs: Bytes)
    requires !b.Policy?
  {
    match b
    case Uptime(e) => |bs| == 64 && NumberAt(bs, 0) == e && bs[32..] == keccak(seq(32, _ => 0))
    case Reward(e, chain, claims, h) =>
      && |bs| == 96 && NumberAt(bs, 0) == e && bs[64..] == h
      && exists pairs :: bs[32..64] == keccak(pairs) && OnePair(pairs, chain, claims)
    case Legacy(e, a) => |bs| == 64 && NumberAt(bs, 0) == e && AddressIn(bs, 1, a)
    case ChainScoped(chain, e, a) =>
      |bs| == 96 && NumberAt(bs, 0) == chain && NumberAt(bs, 1) == e && AddressIn(bs, 2, a)
    case Payload(p) => bs == p
    case FastUpdate(n, r, gx, gy, c, s, deltas) =>
      && |bs| % 32 == 0 && 256 + |deltas| <= |bs| < 256 + |deltas| + 32
      && NumberAt(bs, 0) == n && NumberAt(bs, 1) == r && NumberAt(bs, 2) == gx && NumberAt(bs, 3) == gy
      && NumberAt(bs, 4) == c && NumberAt(bs, 5) == s && NumberAt(bs, 6) == 7 * 32 && NumberAt(bs, 7) == |deltas|
      && bs[256..256 + |deltas|] == deltas && ZeroBytes(bs[256 + |deltas|..])
  }

  /** The ABI encoding of an array of one pair: offset, length, and the two numbers. */
  predicate OnePair(bs: Bytes, chain: nat, claims: nat) {
    && |bs| == 128 && NumberAt(bs, 0) == 32 && NumberAt(bs, 1) == 1
    && NumberAt(bs, 2) == chain && NumberAt(bs, 3) == claims
  }

  lemma PairEncoded(chain: nat, claims: nat)
    requires FitsWord(chain) && FitsWord(claims)
    ensures OnePair(ClaimsEncoding(chain, claims), chain, claims)
  {
    var bs := ClaimsEncoding(chain, claims);
    SmallFits(32);
    SmallFits(1);
    WordReads(32);
    WordReads(1);
    WordReads(chain);
    WordReads(claims);
    hide Word, FromBigEndian, FitsWord;
    assert bs[0..32] == Word(32) && bs[32..64] == Word(1) && bs[64..96] == Word(chain) && bs[96..128] == Word(claims);
  }

  lemma {:induction false} WordOfWords(ns: seq<nat>, i: nat)
    requires i < |ns|
    ensures Words(ns)[32 * i..32 * (i + 1)] == Word(ns[i])
    decreases i
  {
    if i > 0 {
      WordOfWords(ns[1..], i - 1);
      assert Words(ns)[32 * i..32 * (i + 1)] == Words(ns[1..])[32 * (i - 1)..32 * i];
    }
  }

  lemma SliceOfHead(head: Bytes, rest: Bytes, lo: nat, hi: nat)
    requires lo <= hi <= |head|
    ensures (head + rest)[lo..hi] == head[lo..hi]
  {
  }

  lemma NumberOfWords(ns: seq<nat>, rest: Bytes, i: nat)
    requires i < |ns| && FitsWord(ns[i])
    ensures NumberAt(Words(ns) + rest, i) == ns[i]
  {
    WordReads(ns[i]);
    hide Word, FromBigEndian, FitsWord;
    WordOfWords(ns, i);
    hide Words;
    SliceOfHead(Words(ns), rest, 32 * i, 32 * (i + 1));
  }

  lemma NumbersOfWords(ns: seq<nat>, rest: Bytes)
    requires forall i :: 0 <= i < |ns| ==> FitsWord(ns[i])
    ensures forall i :: 0 <= i < |ns| ==> NumberAt(Words(ns) + rest, i) == ns[i]
  {
    forall i | 0 <= i < |ns| ensures NumberAt(Words(ns) + rest, i) == ns[i] {
      NumberOfWords(ns, rest, i);
    }
  }

  /** The head of a fast update: its numbers, the offset of its bytes and their length. */
  function Head(b: Body): seq<nat>
    requires b.FastUpdate?
  {
    [b.blockNumber, b.replicate, b.gammaX, b.gammaY, b.c, b.s, 224, |b.deltas|]
  }

  lemma HeadFits(b: Body)
    requires b.FastUpdate? && Wellformed(b)
    ensures |Head(b)| == 8 && forall i :: 0 <= i < 8 ==> FitsWord(Head(b)[i])
  {
    SmallFits(224);
    SmallFits(|b.deltas|);
  }

  lemma FastUpdateLaidOut(keccak: BytesHash, b: Body)
    requires b.FastUpdate? && Wellformed(b)
    ensures LaidOut(keccak, b, FastUpdateEncoding(b))
  {
    hide Words, Padded, FitsWord, NumberAt, Wellformed, ZeroBytes, Word, Pow256;
    var ns, rest, bs := Head(b), Padded(b.deltas), FastUpdateEncoding(b);
    assert bs == Words(ns) + rest;
    PaddingIsZero(b.deltas);
    AfterHead(Words(ns), rest, |b.deltas|);
    HeadFits(b);
    NumbersOfWords(ns, rest);
    hide FastUpdateEncoding;
    assert NumberAt(bs, 0) == ns[0] && NumberAt(bs, 1) == ns[1] && NumberAt(bs, 2) == ns[2] && NumberAt(bs, 3) == ns[3];
    assert NumberAt(bs, 4) == ns[4] && NumberAt(bs, 5) == ns[5] && NumberAt(bs, 6) == ns[6] && NumberAt(bs, 7) == ns[7];
  }

  lemma AfterHead(head: Bytes, rest: Bytes, k: nat)
    requires |head| == 256 && k <= |rest|
    ensures (head + rest)[256..256 + k] == rest[..k] && (head + rest)[256 + k..] == rest[k..]
  {
  }

  lemma PaddingIsZero(bs: Bytes)
    ensures Padded(bs)[..|bs|] == bs && ZeroBytes(Padded(bs)[|bs|..])
  {
  }

  lemma AddressWordHolds(head: Bytes, i: nat, a: Bytes)
    requires |head| == 32 * i && |a| == 20
    ensures AddressIn(head + AddressWord(a), i, a)
  {
    var bs := head + AddressWord(a);
    assert bs[32 * i..32 * i + 12] == Zeros(12);
    assert bs[32 * i + 12..32 * (i + 1)] == a;
  }

  /** Every accepted message is laid out so. */
  lemma PreimageIsLaidOut(keccak: BytesHash, b: Body)
    requires Yields32(keccak) && Wellformed(b) && !b.Policy?
    ensures LaidOut(keccak, b, Preimage(keccak, b))
  {
    var bs := Preimage(keccak, b);
    match b {
      case Uptime(e) =>
        SmallFits(e);
        WordReads(e);
        assert bs[0..32] == Word(e) && bs[32..] == keccak(Zeros(32));
        assert Zeros(32) == seq(32, _ => 0);
      case Reward(e, chain, claims, h) =>
        SmallFits(e);
        WordReads(e);
        PairEncoded(chain, claims);
        var pairs := ClaimsEncoding(chain, claims);
        hide ClaimsEncoding;
        assert bs[0..32] == Word(e) && bs[32..64] == keccak(pairs) && bs[64..] == h;
      case Legacy(e, a) =>
        SmallFits(e);
        WordReads(e);
        assert bs[0..32] == Word(e);
        AddressWordHolds(Word(e), 1, a);
      case ChainScoped(chain, e, a) =>
        SmallFits(e);
        WordReads(e);
        WordReads(chain);
        assert bs[0..32] == Word(chain) && bs[32..64] == Word(e);
        AddressWordHolds(Word(chain) + Word(e), 2, a);
      case Payload(_) =>
      case FastUpdate(_, _, _, _, _, _, _) =>
        FastUpdateLaidOut(keccak, b);
    }
  }

  /** What is signed: the chained hash of a signing policy, SHA-256 of a fast update, Keccak-256 of every other message,
      over bytes laid out as above. */
  lemma BuiltIsExact(env: Env, req: FspRequest)
    requires Yields32(env.keccak)
    ensures var f := BuildFields(req);
            && (Built(env, req).None? <==>
                  forall b :: Makes(req.messageType, req.rewardEpochId, f, b) ==>
                    b.Policy? && PolicyHash(env.keccak, b.policy).None?)
            && (forall b :: Makes(req.messageType, req.rewardEpochId, f, b) ==>
                  if b.Policy? then Built(env, req) == PolicyHash(env.keccak, b.policy)
                  else exists bs :: LaidOut(env.keccak, b, bs)
                         && Built(env, req) == Some(if b.FastUpdate? then env.sha256(bs) else env.keccak(bs)))
  {
    var f := BuildFields(req);
    var v := Validate(req.messageType, req.rewardEpochId, f);
    hide Makes, BuildFields, LaidOut, PolicyHash, Preimage;
    forall b ensures v == Some(b) <==> Makes(req.messageType, req.rewardEpochId, f, b) {
      ValidateIsExact(req.messageType, req.rewardEpochId, f, b);
    }
    if v.Some? && !v.value.Policy? {
      PreimageIsLaidOut(env.keccak, v.value);
    }
    hide Validate;
  }
}
