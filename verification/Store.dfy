/** The database as one value, and the session through which every request reads and writes it. */
module Store {
  import opened Prelude
  import opened PolicySchema
  import AuditLog

  datatype NonceKey = NonceKey(wallet: string, chain: int)

  datatype NonceRow = NonceRow(nextNonce: int, lastConfirmed: Option<int>)

  datatype Status = Pending | Submitted | Mined | Failed | Reverted

  /** Times are microseconds since the epoch. */
  datatype Tx = Tx(
    txId: string, wallet: string, chain: int, caller: string, nonce: int, contractAddress: string,
    methodName: string, valueWei: string, idempotencyKey: Option<string>, requestJson: string,
    signedRaw: Option<string>, status: Status, submittedAt: Option<int>, confirmedAt: Option<int>,
    receiptJson: Option<string>, reservedAt: Option<int>)

  datatype TxHash = TxHash(sequenceNum: int, hashHex: string)

  datatype Attempt = Attempt(
    sequenceNum: int, gas: int, maxFeePerGas: int, maxPriorityFeePerGas: int, signedRaw: string, hash: string)

  datatype WindowKind = Hour | Day

  datatype BucketKey<S> = BucketKey(subject: S, kind: WindowKind, start: int)

  datatype CallerSubject = CallerSubject(caller: string, wallet: string, contract: string, methodSig: string)

  datatype FspSubject = FspSubject(caller: string, wallet: string, messageType: string)

  datatype WalletBucket = WalletBucket(counter: nat, aggregateValueWei: int)

  type Counters<!S(==)> = map<BucketKey<S>, nat>

  type WalletBuckets = map<BucketKey<string>, WalletBucket>

  datatype Buckets = Buckets(
    callers: Counters<CallerSubject>, wallets: WalletBuckets, fsp: Counters<FspSubject>)

  /** Signed transactions in insertion order; their hashes and attempts grouped by transaction, in
      `sequence_num` order; and the nonce rows. */
  datatype Ledger = Ledger(
    nonces: map<NonceKey, NonceRow>, txs: seq<Tx>, hashes: map<string, seq<TxHash>>,
    attempts: map<string, seq<Attempt>>)

  const EMPTY_LEDGER := Ledger(map[], [], map[], map[])

  const EMPTY_BUCKETS := Buckets(map[], map[], map[])

  datatype Db = Db(
    wallets: map<string, Wallet>, ledger: Ledger, buckets: Buckets, audit: seq<AuditLog.Row>)

  /** One request's transaction. `committed` is the database other requests see, `db` is this request's
      view of it. The writer lock (see WriterLock) keeps `committed` fixed while a session is open. */
  class Session {
    var committed: Db
    var db: Db

    constructor (committed: Db)
      ensures this.committed == committed && this.db == committed
    {
      this.committed := committed;
      this.db := committed;
    }

    method Commit()
      modifies this
      ensures committed == db == old(db)
    {
      committed := db;
    }

    method Rollback()
      modifies this
      ensures committed == db == old(committed)
    {
      db := committed;
    }

    /** Leaving the scope: commit unless an exception is propagating, which rolls back. */
    method Leave(raised: bool)
      modifies this
      ensures committed == db == if raised then old(committed) else old(db)
    {
      if raised {
        Rollback();
      } else {
        Commit();
      }
    }
  }
}
