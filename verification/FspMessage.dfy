/** Rebuilding the Flare Systems Protocol message a client asks to sign: typed fields in, a 32-byte
    message hash out, nothing on malformed input. Keccak-256 and SHA-256 are parameters. */
module FspMessage {
  import opened Prelude

  newtype byte = x: int | 0 <= x < 256

  type Bytes = seq<byte>

  type BytesHash = Bytes -> Bytes

  datatype MessageFields = MessageFields(
    chainId: Option<int>, noOfWeightBasedClaims: Option<int>, rewardsHash: Option<string>,
    address: Option<string>, signingPolicy: Option<string>, payload: Option<string>, protocolId: Option<int>,
    registrationVariant: Option<string>, blockNumber: Option<int>, replicate: Option<int>,
    gammaX: Option<int>, gammaY: Option<int>, c: Option<int>, s: Option<int>, deltas: Option<string>)

  const UPTIME := "UPTIME"
  const REWARD_DISTRIBUTION := "REWARD_DISTRIBUTION"
  const SIGNING_POLICY := "SIGNING_POLICY"
  const VOTER_REGISTRATION := "VOTER_REGISTRATION"
  const PROTOCOL_PAYLOAD := "PROTOCOL_PAYLOAD"
  const FAST_UPDATE := "FAST_UPDATE"

  const MESSAGE_TYPES: set<string> :=
    { UPTIME, REWARD_DISTRIBUTION, SIGNING_POLICY, VOTER_REGISTRATION, PROTOCOL_PAYLOAD, FAST_UPDATE }

  const MAX_UINT24 := 16_777_215
  const MAX_PAYLOAD_BYTES := 4096
  const MAX_DELTAS_BYTES := 4096

  // ---------- Bytes ----------

  function Pow256(k: nat): (r: nat)
    ensures r > 0
  {
    if k == 0 then 1 else 256 * Pow256(k - 1)
  }

  /** `n` as `k` big-endian bytes. */
  function BigEndian(n: nat, k: nat): (r: Bytes)
    ensures |r| == k
  {
    if k == 0 then [] else BigEndian(n / 256, k - 1) + [(n % 256) as byte]
  }

  function FromBigEndian(bs: Bytes): nat {
    if bs == [] then 0 else 256 * FromBigEndian(bs[..|bs| - 1]) + bs[|bs| - 1] as nat
  }

  lemma {:induction false} BigEndianRoundTrip(n: nat, k: nat)
    requires n < Pow256(k)
    ensures FromBigEndian(BigEndian(n, k)) == n
  {
    if k > 0 {
      BigEndianRoundTrip(n / 256, k - 1);
      var bs := BigEndian(n, k);
      assert bs[..|bs| - 1] == BigEndian(n / 256, k - 1);
    }
  }

  /** A 32-byte word, as the ABI encodes every static argument. */
  function Word(n: nat): (r: Bytes)
    ensures |r| == 32
  {
    BigEndian(n, 32)
  }

  predicate FitsWord(n: int) {
    0 <= n < Pow256(32)
  }

  lemma WordInjective(m: nat, n: nat)
    requires FitsWord(m) && FitsWord(n) && Word(m) == Word(n)
    ensures m == n
  {
    BigEndianRoundTrip(m, 32);
    BigEndianRoundTrip(n, 32);
  }

  function Zeros(k: nat): (r: Bytes)
    ensures |r| == k
  {
    seq(k, _ => 0)
  }

  function Nibble(c: char): Option<int> {
    if '0' <= c <= '9' then Some(c as int - '0' as int)
    else if 'a' <= c <= 'f' then Some(c as int - 'a' as int + 10)
    else if 'A' <= c <= 'F' then Some(c as int - 'A' as int + 10)
    else None
  }

  predicate IsSpace(c: char) {
    c == ' ' || 9 <= c as int <= 13
  }

  /** `bytes.fromhex`: pairs of digits, blanks allowed between pairs. */
  function FromHex(s: string): Option<Bytes> {
    if s == "" then Some([])
    else if IsSpace(s[0]) then FromHex(s[1..])
    else if |s| < 2 then None
    else match (Nibble(s[0]), Nibble(s[1]))
      case (Some(hi), Some(lo)) =>
        (match FromHex(s[2..])
         case None => None
         case Some(bs) => Some([(16 * hi + lo) as byte] + bs))
      case _ => None
  }

  function DecodeHex(s: Option<string>): Option<Bytes> {
    if s.None? || !("0x" <= s.value) then None else FromHex(s.value[2..])
  }

  predicate IsHexAddress(s: string) {
    |s| == 42 && "0x" <= s && forall i :: 2 <= i < 42 ==> Nibble(s[i]).Some?
  }

  // ---------- SigningPolicyHash ----------

  function Padded(policy: Bytes): (r: Bytes)
    ensures |r| % 32 == 0 && |policy| <= |r| < |policy| + 32
  {
    if |policy| % 32 == 0 then policy else policy + Zeros(32 - |policy| % 32)
  }

  function Chunk(bs: Bytes, i: nat): Bytes
    requires 32 * (i + 1) <= |bs|
  {
    bs[32 * i..32 * (i + 1)]
  }

  /** The first two chunks hashed together, then each further chunk folded in. */
  function Fold(keccak: BytesHash, bs: Bytes, n: nat): Bytes
    requires n >= 2 && 32 * n <= |bs|
  {
    if n == 2 then keccak(Chunk(bs, 0) + Chunk(bs, 1)) else keccak(Fold(keccak, bs, n - 1) + Chunk(bs, n - 1))
  }

  /** None stands for the error on fewer than two chunks. */
  function PolicyHash(keccak: BytesHash, policy: Bytes): Option<Bytes> {
    var bs := Padded(policy);
    if |bs| < 64 then None else Some(Fold(keccak, bs, |bs| / 32))
  }

  method SigningPolicyHash(keccak: BytesHash, policy: Bytes) returns (r: Option<Bytes>)
    ensures r == PolicyHash(keccak, policy)
  {
    var bs := policy;
    if |bs| % 32 != 0 {
      bs := bs + Zeros(32 - |bs| % 32);
    }
    if |bs| < 64 {
      return None;
    }
    assert bs[0..32] == Chunk(bs, 0) && bs[32..64] == Chunk(bs, 1);
    var h := keccak(bs[0..32] + bs[32..64]);
    for i := 2 to |bs| / 32
      invariant h == Fold(keccak, bs, i)
    {
      h := keccak(h + bs[32 * i..32 * (i + 1)]);
    }
    r := Some(h);
  }

  /** The hash has no collision among these inputs. No hash of fixed length is free of collisions
      altogether, so every statement below names the inputs it needs. */
  ghost predicate Separates(h: BytesHash, inputs: set<Bytes>) {
    forall x, y :: x in inputs && y in inputs && h(x) == h(y) ==> x == y
  }

  ghost predicate Yields32(h: BytesHash) {
    forall x :: |h(x)| == 32
  }

  lemma SplitConcat(a: Bytes, b: Bytes, a': Bytes, b': Bytes)
    requires |a| == |a'| && a + b == a' + b'
    ensures a == a' && b == b'
  {
    assert a == (a + b)[..|a|] && a' == (a' + b')[..|a|];
    assert b == (a + b)[|a|..] && b' == (a' + b')[|a|..];
  }

  lemma TakeChunk(a: Bytes, k: nat)
    requires 32 * (k + 1) <= |a|
    ensures a[..32 * (k + 1)] == a[..32 * k] + Chunk(a, k)
  {
  }

  /** What the fold over the first `n` chunks hashes on the way. */
  function FoldInputs(keccak: BytesHash, bs: Bytes, n: nat): set<Bytes>
    requires n >= 2 && 32 * n <= |bs|
  {
    if n == 2 then {Chunk(bs, 0) + Chunk(bs, 1)}
    else FoldInputs(keccak, bs, n - 1) + {Fold(keccak, bs, n - 1) + Chunk(bs, n - 1)}
  }

  function PolicyInputs(keccak: BytesHash, policy: Bytes): set<Bytes> {
    var bs := Padded(policy);
    if |bs| < 64 then {} else FoldInputs(keccak, bs, |bs| / 32)
  }

  /** One step of the fold determines the previous value and the chunk. */
  lemma FoldStep(keccak: BytesHash, a: Bytes, b: Bytes, n: nat)
    requires Yields32(keccak) && n > 2 && 32 * n <= |a| && 32 * n <= |b|
    requires Separates(keccak, FoldInputs(keccak, a, n) + FoldInputs(keccak, b, n))
    requires Fold(keccak, a, n) == Fold(keccak, b, n)
    ensures Fold(keccak, a, n - 1) == Fold(keccak, b, n - 1) && Chunk(a, n - 1) == Chunk(b, n - 1)
    ensures Separates(keccak, FoldInputs(keccak, a, n - 1) + FoldInputs(keccak, b, n - 1))
  {
    SplitConcat(Fold(keccak, a, n - 1), Chunk(a, n - 1), Fold(keccak, b, n - 1), Chunk(b, n - 1)) by {
      assert Fold(keccak, a, n - 1) + Chunk(a, n - 1) in FoldInputs(keccak, a, n);
      assert Fold(keccak, b, n - 1) + Chunk(b, n - 1) in FoldInputs(keccak, b, n);
    }
  }

  lemma FoldBase(keccak: BytesHash, a: Bytes, b: Bytes)
    requires 64 <= |a| && 64 <= |b| && Separates(keccak, FoldInputs(keccak, a, 2) + FoldInputs(keccak, b, 2))
    requires Fold(keccak, a, 2) == Fold(keccak, b, 2)
    ensures a[..64] == b[..64]
  {
    var x, y := Chunk(a, 0) + Chunk(a, 1), Chunk(b, 0) + Chunk(b, 1);
    assert x in FoldInputs(keccak, a, 2) && y in FoldInputs(keccak, b, 2);
    assert x == a[..64] && y == b[..64];
  }

  lemma {:induction false} FoldInjective(keccak: BytesHash, a: Bytes, b: Bytes, n: nat)
    requires Yields32(keccak) && n >= 2 && 32 * n <= |a| && 32 * n <= |b|
    requires Separates(keccak, FoldInputs(keccak, a, n) + FoldInputs(keccak, b, n))
    requires Fold(keccak, a, n) == Fold(keccak, b, n)
    ensures a[..32 * n] == b[..32 * n]
  {
    hide Fold, FoldInputs, Separates, Chunk;
    if n == 2 {
      FoldBase(keccak, a, b);
    } else {
      FoldStep(keccak, a, b, n);
      FoldInjective(keccak, a, b, n - 1);
      TakeChunk(a, n - 1);
      TakeChunk(b, n - 1);
    }
  }

  /** For policies that pad to the same length the hash separates exactly what the padding separates;
      policies of equal length are separated outright. */
  lemma PolicyHashSeparates(keccak: BytesHash, a: Bytes, b: Bytes)
    requires Yields32(keccak) && Separates(keccak, PolicyInputs(keccak, a) + PolicyInputs(keccak, b))
    requires |Padded(a)| == |Padded(b)| >= 64
    ensures PolicyHash(keccak, a) == PolicyHash(keccak, b) <==> Padded(a) == Padded(b)
    ensures |a| == |b| ==> (PolicyHash(keccak, a) == PolicyHash(keccak, b) <==> a == b)
  {
    var pa, pb := Padded(a), Padded(b);
    if PolicyHash(keccak, a) == PolicyHash(keccak, b) {
      FoldInjective(keccak, pa, pb, |pa| / 32);
      assert pa[..|pa|] == pa && pb[..|pb|] == pb;
    }
    if |a| == |b| && pa == pb {
      assert a == pa[..|a|] && b == pb[..|b|];
    }
  }

  /** Equal length is needed: a policy that does not fill its last chunk hashes like itself with one more
      zero byte. */
  lemma TrailingZeroNotSeparated(keccak: BytesHash, a: Bytes)
    requires |a| % 32 != 0
    ensures PolicyHash(keccak, a) == PolicyHash(keccak, a + [0])
  {
    assert Padded(a) == Padded(a + [0]);
  }

  /** The policy of `m` chunks that hashes like the longer padded policy `bs` of `n`: its first chunk is the hash of
      the chunks it stands for. */
  function Collapsed(keccak: BytesHash, bs: Bytes, n: nat, m: nat): Bytes
    requires |bs| == 32 * n && 2 <= m <= n
  {
    var k := n - m + 1;
    if k == 1 then bs else Fold(keccak, bs, k) + bs[32 * k..]
  }

  /** The last step of two folds of any lengths. */
  lemma LastStep(keccak: BytesHash, a: Bytes, n: nat, b: Bytes, m: nat)
    requires Yields32(keccak) && n > 2 && m > 2 && 32 * n <= |a| && 32 * m <= |b|
    requires Separates(keccak, FoldInputs(keccak, a, n) + FoldInputs(keccak, b, m))
    requires Fold(keccak, a, n) == Fold(keccak, b, m)
    ensures Fold(keccak, a, n - 1) == Fold(keccak, b, m - 1) && Chunk(a, n - 1) == Chunk(b, m - 1)
    ensures Separates(keccak, FoldInputs(keccak, a, n - 1) + FoldInputs(keccak, b, m - 1))
  {
    SplitConcat(Fold(keccak, a, n - 1), Chunk(a, n - 1), Fold(keccak, b, m - 1), Chunk(b, m - 1)) by {
      assert Fold(keccak, a, n - 1) + Chunk(a, n - 1) in FoldInputs(keccak, a, n);
      assert Fold(keccak, b, m - 1) + Chunk(b, m - 1) in FoldInputs(keccak, b, m);
    }
  }

  lemma LastStepOfTwo(keccak: BytesHash, a: Bytes, n: nat, b: Bytes)
    requires Yields32(keccak) && n > 2 && 32 * n <= |a| && 64 <= |b|
    requires Separates(keccak, FoldInputs(keccak, a, n) + FoldInputs(keccak, b, 2))
    requires Fold(keccak, a, n) == Fold(keccak, b, 2)
    ensures b[..64] == Fold(keccak, a, n - 1) + Chunk(a, n - 1)
  {
    var x, y := Fold(keccak, a, n - 1) + Chunk(a, n - 1), Chunk(b, 0) + Chunk(b, 1);
    assert x in FoldInputs(keccak, a, n) && y in FoldInputs(keccak, b, 2);
    assert y == b[..64];
  }

  /** A fold that equals a longer one starts from an intermediate value of it. */
  lemma {:induction false} FoldsAlign(keccak: BytesHash, a: Bytes, n: nat, b: Bytes, m: nat)
    requires Yields32(keccak) && n > m >= 2 && 32 * n <= |a| && 32 * m <= |b|
    requires Separates(keccak, FoldInputs(keccak, a, n) + FoldInputs(keccak, b, m))
    requires Fold(keccak, a, n) == Fold(keccak, b, m)
    ensures b[..32 * m] == Fold(keccak, a, n - m + 1) + a[32 * (n - m + 1)..32 * n]
    decreases m
  {
    hide Fold, FoldInputs, Separates;
    if m == 2 {
      LastStepOfTwo(keccak, a, n, b);
    } else {
      LastStep(keccak, a, n, b, m);
      FoldsAlign(keccak, a, n - 1, b, m - 1);
      TakeChunk(b, m - 1);
      assert a[32 * (n - m + 1)..32 * n] == a[32 * (n - m + 1)..32 * (n - 1)] + Chunk(a, n - 1);
    }
  }

  lemma PrefixOfConcat(h: Bytes, t: Bytes, k: nat)
    requires k <= |t|
    ensures (h + t)[..|h| + k] == h + t[..k]
  {
  }

  /** The last chunk of a policy that starts with `h`, and what stands before it. */
  lemma PastedChunks(h: Bytes, tail: Bytes, b: Bytes, m: nat)
    requires |h| == 32 && m >= 2 && |tail| == 32 * (m - 1) && 32 * m <= |b| && b[..32 * m] == h + tail
    ensures Chunk(b, m - 1) == tail[32 * (m - 2)..]
    ensures b[..32 * (m - 1)] == h + tail[..32 * (m - 2)]
    ensures m == 2 ==> Chunk(b, 0) == h
  {
    assert Chunk(b, m - 1) == b[..32 * m][32 * (m - 1)..];
    assert b[..32 * (m - 1)] == b[..32 * m][..32 * (m - 1)];
    PrefixOfConcat(h, tail, 32 * (m - 2));
    if m == 2 {
      assert Chunk(b, 0) == b[..64][..32];
    }
  }

  /** And starting from an intermediate value gives the same fold. */
  lemma {:induction false} AlignedFolds(keccak: BytesHash, a: Bytes, n: nat, b: Bytes, m: nat)
    requires Yields32(keccak) && n > m >= 2 && 32 * n <= |a| && 32 * m <= |b|
    requires b[..32 * m] == Fold(keccak, a, n - m + 1) + a[32 * (n - m + 1)..32 * n]
    ensures Fold(keccak, a, n) == Fold(keccak, b, m)
    decreases m
  {
    FoldYields32(keccak, a, n - m + 1);
    var h, tail := Fold(keccak, a, n - m + 1), a[32 * (n - m + 1)..32 * n];
    PastedChunks(h, tail, b, m);
    assert Chunk(b, m - 1) == Chunk(a, n - 1);
    if m > 2 {
      assert tail[..32 * (m - 2)] == a[32 * (n - m + 1)..32 * (n - 1)];
      AlignedFolds(keccak, a, n - 1, b, m - 1);
    }
  }

  lemma FoldYields32(keccak: BytesHash, a: Bytes, n: nat)
    requires Yields32(keccak) && n >= 2 && 32 * n <= |a|
    ensures |Fold(keccak, a, n)| == 32
  {
  }

  lemma {:induction false} LongerPolicyHash(keccak: BytesHash, pa: Bytes, n: nat, pb: Bytes, m: nat)
    requires Yields32(keccak) && |pa| == 32 * n && |pb| == 32 * m && n > m >= 2
    requires Separates(keccak, FoldInputs(keccak, pa, n) + FoldInputs(keccak, pb, m))
    ensures Fold(keccak, pa, n) == Fold(keccak, pb, m) <==> pb == Collapsed(keccak, pa, n, m)
  {
    hide Fold, FoldInputs, Separates;
    assert pb[..32 * m] == pb;
    assert pa[32 * (n - m + 1)..32 * n] == pa[32 * (n - m + 1)..];
    if Fold(keccak, pa, n) == Fold(keccak, pb, m) {
      FoldsAlign(keccak, pa, n, pb, m);
    }
    if pb == Collapsed(keccak, pa, n, m) {
      AlignedFolds(keccak, pa, n, pb, m);
    }
  }

  /** When two policies of any lengths hash alike: both are too short, or the one that is not longer is the
      other one collapsed. */
  lemma PolicyHashExact(keccak: BytesHash, a: Bytes, b: Bytes)
    requires Yields32(keccak) && Separates(keccak, PolicyInputs(keccak, a) + PolicyInputs(keccak, b))
    requires |Padded(a)| >= |Padded(b)|
    ensures PolicyHash(keccak, a) == PolicyHash(keccak, b) <==>
              if |Padded(b)| < 64 then |Padded(a)| < 64
              else Padded(b) == Collapsed(keccak, Padded(a), |Padded(a)| / 32, |Padded(b)| / 32)
  {
    hide Padded, Fold, FoldInputs, Separates;
    var pa, pb := Padded(a), Padded(b);
    if |pb| >= 64 {
      if |pa| == |pb| {
        PolicyHashSeparates(keccak, a, b);
      } else {
        LongerPolicyHash(keccak, pa, |pa| / 32, pb, |pb| / 32);
      }
    }
  }

  /** A policy of three chunks hashes like the two-chunk policy that starts with the hash of its first two,
      without any collision: equal length is needed. */
  lemma LongerPolicyNotSeparated(keccak: BytesHash, c0: Bytes, c1: Bytes, c2: Bytes)
    requires Yields32(keccak) && |c0| == 32 && |c1| == 32 && |c2| == 32
    ensures PolicyHash(keccak, c0 + c1 + c2) == PolicyHash(keccak, keccak(c0 + c1) + c2)
    ensures |c0 + c1 + c2| != |keccak(c0 + c1) + c2|
  {
    var a, h := c0 + c1 + c2, keccak(c0 + c1);
    var b := h + c2;
    assert Chunk(a, 0) == c0 && Chunk(a, 1) == c1 && Chunk(a, 2) == c2 && Chunk(b, 0) == h && Chunk(b, 1) == c2;
    assert Fold(keccak, a, 2) == h;
    assert Fold(keccak, a, 3) == keccak(h + c2) == Fold(keccak, b, 2);
  }

  // ---------- The other messages ----------

  /** The fields that reach the hash, after validation. */
  datatype Body =
    | Uptime(epoch: nat)
    | Reward(epoch: nat, chainId: nat, claims: nat, rewardsHash: Bytes)
    | Legacy(epoch: nat, address: Bytes)
    | ChainScoped(chainId: nat, epoch: nat, address: Bytes)
    | Policy(policy: Bytes)
    | Payload(payload: Bytes)
    | FastUpdate(blockNumber: nat, replicate: nat, gammaX: nat, gammaY: nat, c: nat, s: nat, deltas: Bytes)

  ghost predicate Wellformed(b: Body) {
    match b
    case Uptime(e) => e <= MAX_UINT24
    case Reward(e, chain, claims, h) => e <= MAX_UINT24 && FitsWord(chain) && FitsWord(claims) && |h| == 32
    case Legacy(e, a) => e <= MAX_UINT24 && |a| == 20
    case ChainScoped(chain, e, a) => FitsWord(chain) && e <= MAX_UINT24 && |a| == 20
    case Policy(p) => p != []
    case Payload(p) => 0 < |p| <= MAX_PAYLOAD_BYTES
    case FastUpdate(n, r, gx, gy, c, s, d) =>
      FitsWord(n) && FitsWord(r) && FitsWord(gx) && FitsWord(gy) && FitsWord(c) && FitsWord(s) &&
        |d| <= MAX_DELTAS_BYTES
  }

  predicate NoRewardFields(f: MessageFields) {
    f.noOfWeightBasedClaims.None? && f.rewardsHash.None?
  }

  predicate NoRegistrationFields(f: MessageFields) {
    f.address.None? && f.registrationVariant.None?
  }

  predicate NoPayloadFields(f: MessageFields) {
    f.payload.None? && f.protocolId.None?
  }

  predicate NoFastUpdateFields(f: MessageFields) {
    f.blockNumber.None? && f.replicate.None? && f.gammaX.None? && f.gammaY.None? && f.c.None? && f.s.None? &&
      f.deltas.None?
  }

  predicate WordField(o: Option<int>) {
    o.Some? && FitsWord(o.value)
  }

  function ValidateReward(epoch: nat, f: MessageFields): Option<Body> {
    if !(NoRegistrationFields(f) && f.signingPolicy.None? && NoPayloadFields(f) && NoFastUpdateFields(f)) then None
    else if !(WordField(f.chainId) && f.chainId.value > 0 && WordField(f.noOfWeightBasedClaims)) then None
    else if f.rewardsHash.None? || |f.rewardsHash.value| != 66 then None
    else match DecodeHex(f.rewardsHash)
      case None => None
      case Some(h) => if |h| != 32 then None else Some(Reward(epoch, f.chainId.value, f.noOfWeightBasedClaims.value, h))
  }

  function ValidateRegistration(epoch: nat, f: MessageFields): Option<Body> {
    if !(NoRewardFields(f) && f.signingPolicy.None? && NoPayloadFields(f) && NoFastUpdateFields(f)) then None
    else if f.address.None? || !IsHexAddress(f.address.value) then None
    else match FromHex(f.address.value[2..])
      case None => None
      case Some(a) =>
        if |a| != 20 then None
        else if f.registrationVariant == Some("legacy") then
          (if f.chainId.Some? then None else Some(Legacy(epoch, a)))
        else if f.registrationVariant == Some("chain_scoped") then
          (if WordField(f.chainId) && f.chainId.value > 0 then Some(ChainScoped(f.chainId.value, epoch, a)) else None)
        else None
  }

  function ValidatePolicy(f: MessageFields): Option<Body> {
    if !(f.chainId.None? && NoRewardFields(f) && NoRegistrationFields(f) && NoPayloadFields(f) &&
      NoFastUpdateFields(f)) then None
    else match DecodeHex(f.signingPolicy)
      case None => None
      case Some(p) => if p == [] then None else Some(Policy(p))
  }

  function ValidatePayload(f: MessageFields): Option<Body> {
    if !(NoRewardFields(f) && NoRegistrationFields(f) && f.signingPolicy.None? && NoFastUpdateFields(f)) then None
    else match DecodeHex(f.payload)
      case None => None
      case Some(p) => if p == [] || |p| > MAX_PAYLOAD_BYTES then None else Some(Payload(p))
  }

  function ValidateFastUpdate(f: MessageFields): Option<Body> {
    if !(NoRewardFields(f) && NoRegistrationFields(f) && f.signingPolicy.None? && NoPayloadFields(f)) then None
    else if !(WordField(f.blockNumber) && WordField(f.replicate) && WordField(f.gammaX) && WordField(f.gammaY)
              && WordField(f.c) && WordField(f.s)) then None
    else match DecodeHex(f.deltas)
      case None => None
      case Some(d) =>
        if |d| > MAX_DELTAS_BYTES then None
        else Some(FastUpdate(f.blockNumber.value, f.replicate.value, f.gammaX.value, f.gammaY.value, f.c.value,
          f.s.value, d))
  }

  /** Type by type: foreign fields refused, required fields checked and decoded. */
  function Validate(messageType: string, epoch: int, f: MessageFields): (r: Option<Body>)
    ensures r.Some? ==> Wellformed(r.value)
  {
    if epoch < 0 || epoch > MAX_UINT24 then None
    else if messageType == UPTIME then
      (if f.chainId.None? && NoRewardFields(f) && NoRegistrationFields(f) && f.signingPolicy.None? && NoPayloadFields(f)
          && NoFastUpdateFields(f) then Some(Uptime(epoch)) else None)
    else if messageType == REWARD_DISTRIBUTION then ValidateReward(epoch, f)
    else if messageType == VOTER_REGISTRATION then ValidateRegistration(epoch, f)
    else if messageType == SIGNING_POLICY then ValidatePolicy(f)
    else if messageType == PROTOCOL_PAYLOAD then ValidatePayload(f)
    else if messageType == FAST_UPDATE then ValidateFastUpdate(f)
    else None
  }

  /** `abi.encode('(uint256,uint256)[]', [[chain, claims]])`: offset, length, one pair. */
  function ClaimsEncoding(chainId: nat, claims: nat): Bytes {
    Word(32) + Word(1) + Word(chainId) + Word(claims)
  }

  function AddressWord(a: Bytes): Bytes {
    Zeros(12) + a
  }

  function Words(ns: seq<nat>): (r: Bytes)
    ensures |r| == 32 * |ns|
  {
    if ns == [] then [] else Word(ns[0]) + Words(ns[1..])
  }

  /** `abi.encode` of six words and one byte string: head, length, data padded to whole words. */
  function FastUpdateEncoding(b: Body): Bytes
    requires b.FastUpdate?
  {
    Words([b.blockNumber, b.replicate, b.gammaX, b.gammaY, b.c, b.s, 224, |b.deltas|]) + Padded(b.deltas)
  }

  /** The bytes that are hashed, for every message but the chained signing policy. */
  function Preimage(keccak: BytesHash, b: Body): Bytes
    requires !b.Policy?
  {
    match b
    case Uptime(e) => Word(e) + keccak(Zeros(32))
    case Reward(e, chain, claims, h) => Word(e) + keccak(ClaimsEncoding(chain, claims)) + h
    case Legacy(e, a) => Word(e) + AddressWord(a)
    case ChainScoped(chain, e, a) => Word(chain) + Word(e) + AddressWord(a)
    case Payload(p) => p
    case FastUpdate(_, _, _, _, _, _, _) => FastUpdateEncoding(b)
  }

  function HashOf(keccak: BytesHash, sha256: BytesHash, b: Body): Bytes
    requires !b.Policy?
  {
    if b.FastUpdate? then sha256(Preimage(keccak, b)) else keccak(Preimage(keccak, b))
  }

  function BuildMessage(keccak: BytesHash, sha256: BytesHash, messageType: string, epoch: int,
                        f: MessageFields): Option<Bytes> {
    match Validate(messageType, epoch, f)
    case None => None
    case Some(b) =>
      if b.Policy? then PolicyHash(keccak, b.policy) else Some(HashOf(keccak, sha256, b))
  }

  predicate SameKind(a: Body, b: Body) {
    (a.Uptime? && b.Uptime?) || (a.Reward? && b.Reward?) || (a.Legacy? && b.Legacy?) ||
      (a.ChainScoped? && b.ChainScoped?)
    || (a.Payload? && b.Payload?) || (a.FastUpdate? && b.FastUpdate?)
  }

  lemma SmallFits(e: nat)
    requires e <= MAX_UINT24
    ensures FitsWord(e)
  {
    assert Pow256(3) == 16_777_216;
    PowMonotone(3, 32);
  }

  lemma {:induction false} PowMonotone(j: nat, k: nat)
    requires j <= k
    ensures Pow256(j) <= Pow256(k)
    decreases k
  {
    if j < k {
      PowMonotone(j, k - 1);
    }
  }

  lemma ClaimsEncodingInjective(c: nat, n: nat, c': nat, n': nat)
    requires FitsWord(c) && FitsWord(n) && FitsWord(c') && FitsWord(n')
    requires ClaimsEncoding(c, n) == ClaimsEncoding(c', n')
    ensures c == c' && n == n'
  {
    SplitConcat(Word(32) + Word(1) + Word(c), Word(n), Word(32) + Word(1) + Word(c'), Word(n'));
    SplitConcat(Word(32) + Word(1), Word(c), Word(32) + Word(1), Word(c'));
    WordInjective(c, c');
    WordInjective(n, n');
  }

  lemma {:induction false} WordsInjective(ms: seq<nat>, ns: seq<nat>)
    requires |ms| == |ns| && Words(ms) == Words(ns)
    requires forall i :: 0 <= i < |ms| ==> FitsWord(ms[i]) && FitsWord(ns[i])
    ensures ms == ns
  {
    if ms != [] {
      SplitConcat(Word(ms[0]), Words(ms[1..]), Word(ns[0]), Words(ns[1..]));
      WordInjective(ms[0], ns[0]);
      WordsInjective(ms[1..], ns[1..]);
      assert ms == [ms[0]] + ms[1..] && ns == [ns[0]] + ns[1..];
    }
  }

  lemma FastUpdateInjective(a: Body, b: Body)
    requires a.FastUpdate? && b.FastUpdate? && Wellformed(a) && Wellformed(b)
    requires FastUpdateEncoding(a) == FastUpdateEncoding(b)
    ensures a == b
  {
    var ms: seq<nat> := [a.blockNumber, a.replicate, a.gammaX, a.gammaY, a.c, a.s, 224, |a.deltas|];
    var ns: seq<nat> := [b.blockNumber, b.replicate, b.gammaX, b.gammaY, b.c, b.s, 224, |b.deltas|];
    SmallFits(224);
    SmallFits(|a.deltas|);
    SmallFits(|b.deltas|);
    SplitConcat(Words(ms), Padded(a.deltas), Words(ns), Padded(b.deltas));
    WordsInjective(ms, ns);
    assert ms[0] == ns[0] && ms[1] == ns[1] && ms[2] == ns[2] && ms[3] == ns[3];
    assert ms[4] == ns[4] && ms[5] == ns[5] && ms[7] == ns[7];
    assert Padded(a.deltas)[..|a.deltas|] == a.deltas && Padded(b.deltas)[..|b.deltas|] == b.deltas;
  }

  /** The component a reward message hashes before its preimage. */
  function ClaimsInput(b: Body): set<Bytes> {
    if b.Reward? then {ClaimsEncoding(b.chainId, b.claims)} else {}
  }

  function KeccakInputs(keccak: BytesHash, b: Body): set<Bytes> {
    if b.Policy? then PolicyInputs(keccak, b.policy)
    else ClaimsInput(b) + if b.FastUpdate? then {} else {Preimage(keccak, b)}
  }

  function ShaInputs(keccak: BytesHash, b: Body): set<Bytes> {
    if b.FastUpdate? then {Preimage(keccak, b)} else {}
  }

  /** Within one kind of message, the preimage determines every field that is hashed, and conversely. */
  lemma PreimageInjective(keccak: BytesHash, a: Body, b: Body)
    requires Yields32(keccak) && Separates(keccak, ClaimsInput(a) + ClaimsInput(b))
    requires SameKind(a, b) && Wellformed(a) && Wellformed(b)
    ensures Preimage(keccak, a) == Preimage(keccak, b) <==> a == b
  {
    if Preimage(keccak, a) == Preimage(keccak, b) {
      match a {
        case Uptime(e) =>
          SplitConcat(Word(e), keccak(Zeros(32)), Word(b.epoch), keccak(Zeros(32)));
          SmallFits(e);
          SmallFits(b.epoch);
          WordInjective(e, b.epoch);
        case Reward(e, chain, claims, h) =>
          SplitConcat(Word(e) + keccak(ClaimsEncoding(chain, claims)), h,
                      Word(b.epoch) + keccak(ClaimsEncoding(b.chainId, b.claims)), b.rewardsHash);
          SplitConcat(Word(e), keccak(ClaimsEncoding(chain, claims)), Word(b.epoch),
                      keccak(ClaimsEncoding(b.chainId, b.claims)));
          SmallFits(e);
          SmallFits(b.epoch);
          WordInjective(e, b.epoch);
          ClaimsEncodingInjective(chain, claims, b.chainId, b.claims);
        case Legacy(e, addr) =>
          SplitConcat(Word(e), AddressWord(addr), Word(b.epoch), AddressWord(b.address));
          SplitConcat(Zeros(12), addr, Zeros(12), b.address);
          SmallFits(e);
          SmallFits(b.epoch);
          WordInjective(e, b.epoch);
        case ChainScoped(chain, e, addr) =>
          SplitConcat(Word(chain) + Word(e), AddressWord(addr), Word(b.chainId) + Word(b.epoch),
            AddressWord(b.address));
          SplitConcat(Word(chain), Word(e), Word(b.chainId), Word(b.epoch));
          SplitConcat(Zeros(12), addr, Zeros(12), b.address);
          SmallFits(e);
          SmallFits(b.epoch);
          WordInjective(chain, b.chainId);
          WordInjective(e, b.epoch);
        case Payload(_) =>
        case FastUpdate(_, _, _, _, _, _, _) =>
          FastUpdateInjective(a, b);
      }
    }
  }

  /** Both are 64 bytes, yet an uptime vote is never a legacy registration: the second half of the one is
      a hash, of the other a word that starts with twelve zero bytes. */
  lemma UptimeIsNotLegacy(keccak: BytesHash, a: Body, b: Body)
    requires Yields32(keccak) && keccak(Zeros(32))[..12] != Zeros(12)
    requires a.Uptime? && b.Legacy? && Wellformed(a) && Wellformed(b)
    ensures |Preimage(keccak, a)| == |Preimage(keccak, b)| == 64
    ensures Preimage(keccak, a) != Preimage(keccak, b)
  {
    assert AddressWord(b.address)[..12] == Zeros(12);
    if Preimage(keccak, a) == Preimage(keccak, b) {
      SplitConcat(Word(a.epoch), keccak(Zeros(32)), Word(b.epoch), AddressWord(b.address));
    }
  }

  predicate IsRegistration(b: Body) {
    b.Legacy? || b.ChainScoped?
  }

  /** The message type fixes the kind of body, up to the two registration variants. */
  lemma TypeFixesKind(t: string, e: int, f: MessageFields, e': int, f': MessageFields)
    requires t != SIGNING_POLICY && Validate(t, e, f).Some? && Validate(t, e', f').Some?
    ensures var a, b := Validate(t, e, f).value, Validate(t, e', f').value;
            !a.Policy? && !b.Policy? && (SameKind(a, b) || (IsRegistration(a) && IsRegistration(b)))
  {
  }

  /** Without a collision the hash determines the preimage. */
  lemma SameHashSamePreimage(keccak: BytesHash, sha256: BytesHash, a: Body, b: Body)
    requires !a.Policy? && !b.Policy? && a.FastUpdate? == b.FastUpdate?
    requires Separates(keccak, KeccakInputs(keccak, a) + KeccakInputs(keccak, b))
    requires Separates(sha256, ShaInputs(keccak, a) + ShaInputs(keccak, b))
    requires HashOf(keccak, sha256, a) == HashOf(keccak, sha256, b)
    ensures Preimage(keccak, a) == Preimage(keccak, b)
  {
    hide Preimage, ClaimsInput;
  }

  lemma PartSeparates(keccak: BytesHash, a: Body, b: Body)
    requires !a.Policy? && !b.Policy? && Separates(keccak, KeccakInputs(keccak, a) + KeccakInputs(keccak, b))
    ensures Separates(keccak, ClaimsInput(a) + ClaimsInput(b))
  {
    hide Preimage, ClaimsInput;
  }

  lemma SameHashSameFields(keccak: BytesHash, sha256: BytesHash, a: Body, b: Body)
    requires Wellformed(a) && Wellformed(b) && !a.Policy? && !b.Policy? && Yields32(keccak)
    requires Separates(keccak, KeccakInputs(keccak, a) + KeccakInputs(keccak, b))
    requires Separates(sha256, ShaInputs(keccak, a) + ShaInputs(keccak, b))
    requires SameKind(a, b) || (IsRegistration(a) && IsRegistration(b))
    ensures HashOf(keccak, sha256, a) == HashOf(keccak, sha256, b) <==> a == b
  {
    hide Separates, HashOf, KeccakInputs, ShaInputs;
    PartSeparates(keccak, a, b);
    if SameKind(a, b) {
      hide Preimage, Wellformed;
      PreimageInjective(keccak, a, b);
    } else {
      VariantsDiffer(keccak, a, b);
      hide Preimage;
    }
    if HashOf(keccak, sha256, a) == HashOf(keccak, sha256, b) {
      SameHashSamePreimage(keccak, sha256, a, b);
    }
  }

  /** The two registration variants differ in length: two words or three. */
  lemma VariantsDiffer(keccak: BytesHash, a: Body, b: Body)
    requires IsRegistration(a) && IsRegistration(b) && !SameKind(a, b) && Wellformed(a) && Wellformed(b)
    ensures Preimage(keccak, a) != Preimage(keccak, b)
  {
    assert |Preimage(keccak, a)| + |Preimage(keccak, b)| == 64 + 96;
  }

  lemma PolicyTypeIsPolicy(t: string, e: int, f: MessageFields)
    requires Validate(t, e, f).Some?
    ensures Validate(t, e, f).value.Policy? <==> t == SIGNING_POLICY
  {
  }

  /** Two accepted requests of one type get the same message hash exactly when they agree on every hashed
      field, unless the bytes hashed for the two are themselves a collision. Signing policies are compared
      at equal length; `PolicyHashExact` says what else hashes like one. */
  lemma SameHashSameBody(keccak: BytesHash, sha256: BytesHash, t: string, e: int, f: MessageFields, e': int,
                         f': MessageFields)
    requires BuildMessage(keccak, sha256, t, e, f).Some? && BuildMessage(keccak, sha256, t, e', f').Some?
    requires Yields32(keccak)
    requires var a, b := Validate(t, e, f).value, Validate(t, e', f').value;
             && Separates(keccak, KeccakInputs(keccak, a) + KeccakInputs(keccak, b))
             && Separates(sha256, ShaInputs(keccak, a) + ShaInputs(keccak, b))
             && (a.Policy? && b.Policy? ==> |a.policy| == |b.policy|)
    ensures BuildMessage(keccak, sha256, t, e, f) == BuildMessage(keccak, sha256, t, e', f')
       <==> Validate(t, e, f) == Validate(t, e', f')
  {
    PolicyTypeIsPolicy(t, e, f);
    PolicyTypeIsPolicy(t, e', f');
    var a, b := Validate(t, e, f).value, Validate(t, e', f').value;
    if t == SIGNING_POLICY {
      hide Validate, PolicyInputs, Separates, Padded;
      PolicyHashSeparates(keccak, a.policy, b.policy) by { SamePadding(a.policy, b.policy, keccak); }
    } else {
      TypeFixesKind(t, e, f, e', f');
      hide Validate, KeccakInputs, ShaInputs, HashOf, Separates;
      SameHashSameFields(keccak, sha256, a, b);
    }
  }

  lemma SamePadding(a: Bytes, b: Bytes, keccak: BytesHash)
    requires |a| == |b| && PolicyHash(keccak, a).Some?
    ensures |Padded(a)| == |Padded(b)| >= 64
  {
  }
}
