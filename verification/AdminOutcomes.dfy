/** What the admin operations on a nonce row are answered and what they leave, said of the row, the transactions and
    the request. */
module AdminOutcomes {
  import opened Prelude
  import opened Environment
  import opened Store
  import opened TransactionRepo
  import opened SignTransaction
  import opened NonceAdmin
  import AuditLog
  import Service

  /** Row `i` is a transaction of the wallet and chain that still holds its nonce. */
  predicate Holds(d: Db, k: NonceKey, i: nat) {
    && i < |d.ledger.txs| && d.ledger.txs[i].wallet == k.wallet && d.ledger.txs[i].chain == k.chain
    && (d.ledger.txs[i].status == Pending || d.ledger.txs[i].status == Submitted)
  }

  lemma InFlightIsExact(d: Db, k: NonceKey)
    ensures CountInFlight(d.ledger.txs, k) > 0 <==> exists i: nat :: Holds(d, k, i)
  {
    if i: nat :| Holds(d, k, i) {
      assert On(d.ledger.txs[i], k) && InFlight(d.ledger.txs[i]);
    }
    if CountInFlight(d.ledger.txs, k) > 0 {
      var i :| 0 <= i < |d.ledger.txs| && On(d.ledger.txs[i], k) && InFlight(d.ledger.txs[i]);
      assert Holds(d, k, i);
    }
  }

  /** Only the row of `k` is written, and only on success. */
  predicate WritesRow(d: Db, d': Db, k: NonceKey, row: NonceRow) {
    && d'.ledger == d.ledger.(nonces := d.ledger.nonces[k := row])
    && d'.buckets == d.buckets && d'.wallets == d.wallets
  }

  /** Initialisation: refused over an existing row unless forced, then over transactions that hold a nonce unless that
      too is overridden, then over an unknown wallet; otherwise the row starts at the given nonce with nothing
      confirmed. The count reported is that of the transactions that hold a nonce. */
  lemma InitIsExact(env: Env, d: Db, body: InitBody, clock: Clock)
    ensures var r, k := InitStep(env, d, body, clock), NonceKey(body.wallet, body.chain);
            var present := k in d.ledger.nonces;
            var guarded := present && !body.forceWithInFlight && exists i: nat :: Holds(d, k, i);
            && (r.1.AlreadyInitialized? <==> present && !body.force)
            && (r.1.InFlightNonces? <==> present && body.force && guarded)
            && (r.1.InFlightNonces? ==> r.1.count == |InFlightAt(d.ledger.txs, k)|)
            && (r.1.InitWalletNotFound? <==>
                  (!present || (body.force && !guarded)) && body.wallet !in d.wallets)
            && (r.1.Initialized? <==> (!present || (body.force && !guarded)) && body.wallet in d.wallets)
            && (if r.1.Initialized? then
                  r.1.nextNonce == body.startingNonce && WritesRow(d, r.0, k, NonceRow(body.startingNonce, None))
                else r.0.ledger == d.ledger && r.0.buckets == d.buckets && r.0.wallets == d.wallets)
  {
    var k := NonceKey(body.wallet, body.chain);
    InFlightIsExact(d, k);
    CountInFlightCounts(d.ledger.txs, k);
    hide CountInFlight, InFlightAt, Holds, InitEntry, AuditLog.AppendRow;
  }

  /** Synchronisation: the row moves exactly when the chain is ahead of it by at most the configured advance, and then
      to the chain's count with the nonce before it confirmed. It never moves back. */
  lemma SyncIsExact(env: Env, d: Db, k: NonceKey, count: int, clock: Clock)
    ensures var r := SyncStep(env, d, k, count, clock);
            if k !in d.ledger.nonces then
              r.1.SyncNotInitialized? && r.0.ledger == d.ledger && r.0.buckets == d.buckets && r.0.wallets == d.wallets
            else
              var next := d.ledger.nonces[k].nextNonce;
              && (r.1 == InSync(next) <==> count == next)
              && (r.1 == Advanced(next, count) <==> next < count <= next + env.settings.nonceSyncMaxAdvance)
              && (r.1.OutOfBounds? <==>
                    count < next || (count > next && count > next + env.settings.nonceSyncMaxAdvance))
              && (if r.1.Advanced? then WritesRow(d, r.0, k, NonceRow(count, Some(count - 1)))
                  else r.0.ledger == d.ledger && r.0.buckets == d.buckets && r.0.wallets == d.wallets)
  {
    hide SyncEntry, AuditLog.AppendRow;
  }

  /** Pruning keeps a counter, in each of the three tables, exactly when its window began at most two days before, and
      keeps everything else. */
  lemma PruneIsExact(env: Env, d: Db, clock: Clock)
    ensures var d' := Service.Step(env, d, Service.Prune(clock)).0;
            var since := clock.now - 172_800_000_000;
            && d'.ledger == d.ledger && d'.wallets == d.wallets && d'.audit == d.audit
            && (forall k :: k in d'.buckets.callers <==> k in d.buckets.callers && k.start >= since)
            && (forall k :: k in d'.buckets.callers ==> d'.buckets.callers[k] == d.buckets.callers[k])
            && (forall k :: k in d'.buckets.wallets <==> k in d.buckets.wallets && k.start >= since)
            && (forall k :: k in d'.buckets.wallets ==> d'.buckets.wallets[k] == d.buckets.wallets[k])
            && (forall k :: k in d'.buckets.fsp <==> k in d.buckets.fsp && k.start >= since)
            && (forall k :: k in d'.buckets.fsp ==> d'.buckets.fsp[k] == d.buckets.fsp[k])
  {
  }
}
