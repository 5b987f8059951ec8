/** The fee ladder of every transaction: its attempts are numbered without gaps, each re-signs the
    original intent within the caps, and fees climb by at least an eighth from rung to rung, as long as the
    cap on fees keeps the bump exact. */
module Ladder {
  import opened Prelude
  import opened Environment
  import opened Store
  import opened TransactionRepo
  import opened SignTransaction
  import opened Transactions
  import opened ReplacementFee
  import opened Service
  import NonceRepo
  import NonceSafety

  /** Rung `b` may follow rung `a`. */
  predicate Climbs(a: Attempt, b: Attempt) {
    b.maxPriorityFeePerGas >= MinPriority(a.maxPriorityFeePerGas) && b.maxFeePerGas >= a.maxFeePerGas
  }

  ghost predicate Rungs(env: Env, tx: Tx, attempts: seq<Attempt>, hashes: seq<TxHash>) {
    && 1 <= |attempts| <= MAX_ATTEMPTS && |hashes| == |attempts|
    && (forall j :: 0 <= j < |attempts| ==>
          attempts[j].sequenceNum == j + 1 && hashes[j] == TxHash(j + 1, attempts[j].hash))
    && (forall j :: 0 <= j < |attempts| ==> WithinCaps(env, attempts[j]) && SignsIntent(env, tx, attempts[j]))
    && (forall j :: 0 < j < |attempts| ==> Climbs(attempts[j - 1], attempts[j]))
    && tx.signedRaw == Some(attempts[0].signedRaw)
  }

  ghost predicate UniqueIds(txs: seq<Tx>) {
    forall i, j :: 0 <= i < j < |txs| ==> txs[i].txId != txs[j].txId
  }

  ghost predicate HasId(txs: seq<Tx>, id: string) {
    exists i :: 0 <= i < |txs| && txs[i].txId == id
  }

  /** Ids are unique, attempts and hashes belong to transactions on record, and every transaction has its
      ladder. */
  ghost predicate LadderInv(env: Env, l: Ledger) {
    && UniqueIds(l.txs)
    && (forall id :: id in l.attempts || id in l.hashes ==> HasId(l.txs, id))
    && (forall i :: 0 <= i < |l.txs| ==> Rungs(env, l.txs[i], AttemptsOf(l, l.txs[i].txId), HashesOf(l, l.txs[i].txId)))
  }

  /** The columns no report ever touches. */
  predicate SameIntent(a: Tx, b: Tx) {
    && a.txId == b.txId && a.wallet == b.wallet && a.chain == b.chain && a.nonce == b.nonce && a.caller == b.caller
    && a.contractAddress == b.contractAddress && a.methodName == b.methodName && a.valueWei == b.valueWei
    && a.requestJson == b.requestJson && a.signedRaw == b.signedRaw && a.idempotencyKey == b.idempotencyKey
    && a.reservedAt == b.reservedAt
  }

  lemma SameIntentSameRungs(env: Env, a: Tx, b: Tx, attempts: seq<Attempt>, hashes: seq<TxHash>)
    requires SameIntent(a, b) && Rungs(env, a, attempts, hashes)
    ensures Rungs(env, b, attempts, hashes)
  {
    hide WithinCaps, MinPriority, RecordedData;
    forall j | 0 <= j < |attempts| ensures SignsIntent(env, b, attempts[j]) {
      assert SignsIntent(env, a, attempts[j]);
    }
  }

  lemma {:induction false} LatestIsLast(attempts: seq<Attempt>)
    requires attempts != [] && forall j :: 0 <= j < |attempts| ==> attempts[j].sequenceNum == j + 1
    ensures LatestAttempt(attempts) == Some(attempts[|attempts| - 1])
  {
    if |attempts| > 1 {
      var shorter := attempts[..|attempts| - 1];
      assert forall j :: 0 <= j < |shorter| ==> shorter[j] == attempts[j];
      LatestIsLast(shorter);
    }
  }

  lemma StatusMoveIsSameIntent(env: Env, l: Ledger, m: Move)
    requires Enabled(env, l, m) && !m.AddTx? && !m.AddReplacement?
    ensures var l' := Apply(l, m);
            && l'.attempts == l.attempts && l'.hashes == l.hashes && |l'.txs| == |l.txs|
            && forall i :: 0 <= i < |l.txs| ==> SameIntent(l.txs[i], l'.txs[i])
  {
    hide SignsIntent, WithinCaps, HasStale, CountInFlight, IndexOf, IndexOfKey, LatestAttempt, MinPriority,
      NonceRepo.Release, NonceRepo.MarkConfirmed;
  }

  lemma SameIntentKeepsLadder(env: Env, l: Ledger, l': Ledger)
    requires LadderInv(env, l)
    requires l'.attempts == l.attempts && l'.hashes == l.hashes && |l'.txs| == |l.txs|
    requires forall i :: 0 <= i < |l.txs| ==> SameIntent(l.txs[i], l'.txs[i])
    ensures LadderInv(env, l')
  {
    hide Rungs;
    forall i | 0 <= i < |l.txs|
      ensures Rungs(env, l'.txs[i], AttemptsOf(l', l'.txs[i].txId), HashesOf(l', l'.txs[i].txId))
    {
      assert SameIntent(l.txs[i], l'.txs[i]);
      SameIntentSameRungs(env, l.txs[i], l'.txs[i], AttemptsOf(l, l.txs[i].txId), HashesOf(l, l.txs[i].txId));
    }
    forall id | id in l'.attempts || id in l'.hashes ensures HasId(l'.txs, id) {
      assert HasId(l.txs, id);
      var i :| 0 <= i < |l.txs| && l.txs[i].txId == id;
      assert SameIntent(l.txs[i], l'.txs[i]);
    }
    forall i, j | 0 <= i < j < |l'.txs| ensures l'.txs[i].txId != l'.txs[j].txId {
      assert SameIntent(l.txs[i], l'.txs[i]) && SameIntent(l.txs[j], l'.txs[j]);
    }
  }

  lemma FirstRung(env: Env, tx: Tx, a: Attempt)
    requires a.sequenceNum == 1 && WithinCaps(env, a) && SignsIntent(env, tx, a) && tx.signedRaw == Some(a.signedRaw)
    ensures Rungs(env, tx, [a], [TxHash(1, a.hash)])
  {
    hide WithinCaps, SignsIntent;
  }

  /** Signing adds one entry to each of the two tables and touches no other. */
  lemma SignedTables(l: Ledger, tx: Tx, a: Attempt, id: string)
    requires KeyOf(tx) in l.nonces
    ensures var l' := WithSigned(l, tx, a);
            && l'.txs == l.txs + [tx]
            && l'.attempts.Keys == l.attempts.Keys + {tx.txId} && l'.hashes.Keys == l.hashes.Keys + {tx.txId}
            && AttemptsOf(l', id) == (if id == tx.txId then AttemptsOf(l, id) + [a] else AttemptsOf(l, id))
            && HashesOf(l', id) == (if id == tx.txId then HashesOf(l, id) + [TxHash(1, a.hash)] else HashesOf(l, id))
  {
  }

  lemma HasIdGrows(txs: seq<Tx>, tx: Tx, id: string)
    ensures HasId(txs + [tx], id) <==> HasId(txs, id) || id == tx.txId
  {
    if HasId(txs, id) {
      var i :| 0 <= i < |txs| && txs[i].txId == id;
      assert (txs + [tx])[i].txId == id;
    }
    assert (txs + [tx])[|txs|] == tx;
  }

  lemma FreshRowKeepsLadder(env: Env, l: Ledger, tx: Tx, a: Attempt)
    requires LadderInv(env, l) && KeyOf(tx) in l.nonces && !HasId(l.txs, tx.txId)
    requires Rungs(env, tx, [a], [TxHash(1, a.hash)])
    ensures LadderInv(env, WithSigned(l, tx, a))
  {
    hide WithSigned, HasId, Rungs;
    var l' := WithSigned(l, tx, a);
    SignedTables(l, tx, a, tx.txId);
    assert AttemptsOf(l', tx.txId) == [a] && HashesOf(l', tx.txId) == [TxHash(1, a.hash)];
    forall i | 0 <= i < |l.txs|
      ensures l.txs[i].txId != tx.txId
      ensures Rungs(env, l'.txs[i], AttemptsOf(l', l'.txs[i].txId), HashesOf(l', l'.txs[i].txId))
    {
      HasIdAt(l.txs, i);
      SignedTables(l, tx, a, l.txs[i].txId);
    }
    forall id | id in l'.attempts || id in l'.hashes ensures HasId(l'.txs, id) {
      HasIdGrows(l.txs, tx, id);
    }
  }

  lemma AddTxKeepsLadder(env: Env, l: Ledger, tx: Tx, a: Attempt)
    requires LadderInv(env, l) && Enabled(env, l, AddTx(tx, a))
    ensures LadderInv(env, WithSigned(l, tx, a))
  {
    hide LadderInv, Rungs, SignsIntent, WithinCaps, HasStale, WithSigned;
    FirstRung(env, tx, a);
    FreshRowKeepsLadder(env, l, tx, a);
  }

  lemma HasIdAt(txs: seq<Tx>, i: nat)
    requires i < |txs|
    ensures HasId(txs, txs[i].txId)
  {
  }

  /** One more rung on top. */
  lemma {:induction false} ExtendRungs(env: Env, tx: Tx, attempts: seq<Attempt>, hashes: seq<TxHash>, a: Attempt)
    requires Rungs(env, tx, attempts, hashes) && |attempts| < MAX_ATTEMPTS && a.sequenceNum == |attempts| + 1
    requires WithinCaps(env, a) && SignsIntent(env, tx, a)
    requires LatestAttempt(attempts).Some? ==> Climbs(LatestAttempt(attempts).value, a)
    ensures Rungs(env, tx, attempts + [a], hashes + [TxHash(a.sequenceNum, a.hash)])
  {
    LatestIsLast(attempts);
    hide SignsIntent, WithinCaps, Climbs;
  }

  lemma AddReplacementKeepsLadder(env: Env, l: Ledger, i: nat, a: Attempt)
    requires LadderInv(env, l) && Enabled(env, l, AddReplacement(i, a))
    ensures LadderInv(env, WithAttempt(l, l.txs[i].txId, a))
  {
    hide Rungs, SignsIntent, WithinCaps, MinPriority, LatestAttempt;
    var id := l.txs[i].txId;
    var l' := WithAttempt(l, id, a);
    ExtendRungs(env, l.txs[i], AttemptsOf(l, id), HashesOf(l, id), a);
    assert HasId(l.txs, id);
    forall j | 0 <= j < |l.txs|
      ensures Rungs(env, l'.txs[j], AttemptsOf(l', l'.txs[j].txId), HashesOf(l', l'.txs[j].txId)) {
      assert j != i ==> l.txs[j].txId != id;
    }
  }

  lemma MoveKeepsLadder(env: Env, l: Ledger, m: Move)
    requires LadderInv(env, l) && Enabled(env, l, m)
    ensures LadderInv(env, Apply(l, m))
  {
    hide LadderInv;
    assert InRange(l, m);
    hide Enabled;
    match m {
      case AddTx(tx, a) => AddTxKeepsLadder(env, l, tx, a);
      case AddReplacement(i, a) => AddReplacementKeepsLadder(env, l, i, a);
      case _ =>
        StatusMoveIsSameIntent(env, l, m);
        SameIntentKeepsLadder(env, l, Apply(l, m));
    }
  }

  /** Every run keeps every ladder, whatever mix of requests it makes. */
  lemma {:induction false} RunKeepsLadder(env: Env, d: Db, evs: seq<Event>)
    requires LadderInv(env, d.ledger) && NonceSafety.AllProper(evs) && RecordsData(env)
    ensures LadderInv(env, Run(env, d, evs).ledger)
    decreases |evs|
  {
    hide LadderInv, Step, MoveOf, Apply, Enabled;
    if evs != [] {
      StepMoves(env, d, evs[0]);
      var r := Step(env, d, evs[0]);
      MoveKeepsLadder(env, d.ledger, MoveOf(env, d.ledger, evs[0], r.1));
      RunKeepsLadder(env, r.0, evs[1..]);
    }
  }

  // ---------- What a ladder means for the fees ----------

  function Pow(b: nat, k: nat): (r: nat)
    ensures b > 0 ==> r > 0
  {
    if k == 0 then 1 else b * Pow(b, k - 1)
  }

  /** Never a lower maximum fee; and while the cap on fees is below `SHORT_BUMP`, `k` rungs multiply the
      priority fee by at least (9/8)^k. */
  lemma {:induction false} FeesClimb(env: Env, tx: Tx, attempts: seq<Attempt>, hashes: seq<TxHash>, i: nat, k: nat)
    requires Rungs(env, tx, attempts, hashes) && i + k < |attempts|
    ensures attempts[i].maxFeePerGas <= attempts[i + k].maxFeePerGas <= env.settings.maxFeePerGas
    ensures env.settings.maxFeePerGas < SHORT_BUMP ==>
              Pow(8, k) * attempts[i + k].maxPriorityFeePerGas >= Pow(9, k) * attempts[i].maxPriorityFeePerGas
  {
    if k > 0 {
      FeesClimb(env, tx, attempts, hashes, i, k - 1);
      hide SignsIntent, MinPriority;
      var p, q := attempts[i + k - 1].maxPriorityFeePerGas, attempts[i + k].maxPriorityFeePerGas;
      if env.settings.maxFeePerGas < SHORT_BUMP {
        assert Climbs(attempts[i + k - 1], attempts[i + k]) && WithinCaps(env, attempts[i + k]);
        assert WithinCaps(env, attempts[i + k - 1]);
        BumpLawIff(env.settings.maxFeePerGas);
        assert Follows(p, q, env.settings.maxFeePerGas);
        assert AnEighthMore(p, q);
        Scale(Pow(8, k - 1), Pow(9, k - 1), attempts[i].maxPriorityFeePerGas, p, q);
      }
    }
  }

  /** The bound on the cap is exact: at or above it the service accepts a replacement within all caps whose
      priority fee is less than an eighth higher. */
  lemma ShortBumpAccepted(env: Env, tx: Tx, a: Attempt, body: ReplacementBody)
    requires env.settings.maxFeePerGas >= SHORT_BUMP && tx.status == Submitted
    requires RecordedData(env, tx.requestJson).Some?
    requires a.maxPriorityFeePerGas == SHORT_FEE && a.maxFeePerGas == SHORT_BUMP
    requires body == ReplacementBody(env.settings.maxGas, SHORT_BUMP, SHORT_BUMP)
    ensures WhyRefused(env, tx, [a], body).None?
    ensures 8 * body.maxPriorityFeePerGas < 9 * a.maxPriorityFeePerGas
  {
    hide MinPriority, RecordedData, LatestAttempt;
    FirstShortfall();
    assert LatestAttempt([a]) == Some(a) by { LatestOfOne(a); }
  }

  lemma LatestOfOne(a: Attempt)
    ensures LatestAttempt([a]) == Some(a)
  {
    assert [a][..0] == [];
  }

  lemma Scale(x: int, y: int, first: int, p: int, q: int)
    requires x * p >= y * first && 8 * q >= 9 * p && x >= 1
    ensures 8 * x * q >= 9 * y * first
  {
    assert x * (8 * q) >= x * (9 * p);
  }

  /** The statement for every transaction of every run from an empty ledger. */
  lemma ReachableLadder(env: Env, d: Db, evs: seq<Event>, n: nat, i: nat, k: nat)
    requires d.ledger == EMPTY_LEDGER && NonceSafety.AllProper(evs) && RecordsData(env)
    requires n < |Run(env, d, evs).ledger.txs|
    ensures var l := Run(env, d, evs).ledger;
            var attempts := AttemptsOf(l, l.txs[n].txId);
            && UniqueIds(l.txs)
            && Rungs(env, l.txs[n], attempts, HashesOf(l, l.txs[n].txId))
            && (i + k < |attempts| ==>
                  && attempts[i].maxFeePerGas <= attempts[i + k].maxFeePerGas <= env.settings.maxFeePerGas
                  && (env.settings.maxFeePerGas < SHORT_BUMP ==>
                        Pow(8, k) * attempts[i + k].maxPriorityFeePerGas >=
                          Pow(9, k) * attempts[i].maxPriorityFeePerGas))
  {
    hide Run, Rungs, Pow;
    RunKeepsLadder(env, d, evs);
    var l := Run(env, d, evs).ledger;
    var attempts := AttemptsOf(l, l.txs[n].txId);
    if i + k < |attempts| {
      FeesClimb(env, l.txs[n], attempts, HashesOf(l, l.txs[n].txId), i, k);
    }
  }
}
