/** What a deployment fixes for the whole run: the loaded policy and registry, the settings, and the
    functions the handlers call but do not look into (integer parsing, ABI decoding, address checksumming,
    transaction signing, hashing, and `json.dumps`/`json.loads`, of which `CanonicalJson` is the concrete
    instance). Every statement holds for all of them. */
module Environment {
  import opened Prelude
  import opened PolicySchema
  import opened CanonicalJson
  import AuditLog
  import FspMessage

  datatype Settings = Settings(maxGas: int, maxFeePerGas: int, nonceSyncMaxAdvance: int, reservationLease: int)

  datatype SignRequest = SignRequest(
    wallet: string, chain: int, to: string, valueWei: string, data: string, gas: int,
    maxFeePerGas: int, maxPriorityFeePerGas: int, idempotencyKey: Option<string>)

  /** The fields of the EIP-1559 transaction that is signed. */
  datatype TxFields = TxFields(
    chainId: int, nonce: int, to: string, value: int, data: string, gas: int, maxFeePerGas: int,
    maxPriorityFeePerGas: int)

  datatype Signed = Signed(hash: string, raw: string)

  datatype FspSignature = FspSignature(messageHash: string, v: int, r: string, s: string, signature: string)

  datatype Env = Env(
    policy: Policy, registry: Registry, settings: Settings,
    parseInt: string -> Option<int>,
    decodeArgs: (AbiMethod, string) -> Option<map<string, Scalar>>,
    checksum: string -> string,
    signTx: (string, TxFields) -> Signed,
    signFsp: (string, FspMessage.Bytes) -> FspSignature,
    keccak: FspMessage.BytesHash,
    sha256: FspMessage.BytesHash,
    dumps: seq<Field> -> string,
    loads: string -> Option<seq<Field>>,
    rowHash: AuditLog.RowDigest)

  /** When a request runs: the instant, and the text of the timestamp its audit rows carry. */
  datatype Clock = Clock(now: int, ts: AuditLog.Timestamp)
}
