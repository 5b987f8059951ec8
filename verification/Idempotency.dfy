/** Idempotency keys over whole runs: at most one transaction per (caller, key), and a replay with the
    same body gives back the original reply, whatever happened in between. */
module Idempotency {
  import opened Prelude
  import opened Environment
  import opened PolicySchema
  import opened Store
  import opened CanonicalJson
  import opened TransactionRepo
  import opened SignTransaction
  import opened Transactions
  import opened Service
  import opened Ladder
  import NonceSafety

  // ---------- JSON as the service prints and reads it ----------

  ghost predicate JsonIsCanonical(env: Env) {
    (forall fs :: env.dumps(fs) == Canonical(fs)) && (forall s :: env.loads(s) == Loads(s))
  }

  predicate SameBody(a: SignRequest, b: SignRequest) {
    a.(idempotencyKey := None) == b.(idempotencyKey := None)
  }

  lemma BodyFieldsDistinct(req: SignRequest)
    ensures DistinctKeys(BodyFields(req))
  {
    var fs := BodyFields(req);
    assert fs[0].key[0] == 'w' && fs[1].key[0] == 'c' && fs[2].key[0] == 't' && fs[3].key[0] == 'v';
    assert fs[4].key[0] == 'd' && fs[5].key[0] == 'g' && |fs[6].key| == 15 && |fs[7].key| == 24;
    assert fs[6].key[0] == 'm' && fs[7].key[0] == 'm';
  }

  /** The stored text accepts exactly the same body. */
  lemma BodyTextIsExact(env: Env, a: SignRequest, b: SignRequest)
    requires JsonIsCanonical(env)
    ensures RequestJson(env, a) == RequestJson(env, b) <==> SameBody(a, b)
  {
    hide Canonical;
    var fa, fb := BodyFields(a), BodyFields(b);
    BodyFieldsDistinct(a);
    RecordInjective(fa, fb);
    if fa == fb {
      assert fa[0].value == fb[0].value && fa[1].value == fb[1].value && fa[2].value == fb[2].value;
      assert fa[3].value == fb[3].value;
      assert fa[4].value == fb[4].value && fa[5].value == fb[5].value && fa[6].value == fb[6].value;
      assert fa[7].value == fb[7].value;
    }
  }

  /** Calldata survives the trip through the stored text. */
  lemma CanonicalRecordsData(env: Env)
    requires JsonIsCanonical(env)
    ensures RecordsData(env)
  {
    hide Canonical, Loads;
    forall req: SignRequest | req.data != "" ensures RecordedData(env, RequestJson(env, req)) == Some(req.data) {
      var f := Field("data", Str(req.data));
      BodyFieldsDistinct(req);
      assert BodyFields(req)[4] == f;
      LoadsGet(BodyFields(req), f);
    }
  }

  // ---------- One transaction per key ----------

  ghost predicate OnePerKey(txs: seq<Tx>) {
    forall i, j ::
      0 <= i < j < |txs| && txs[i].caller == txs[j].caller && txs[i].idempotencyKey == txs[j].idempotencyKey ==>
      txs[i].idempotencyKey.None?
  }

  /** Rows are only added, identifying columns never change, and hashes and attempts are only appended. */
  ghost predicate Grows(l: Ledger, l': Ledger) {
    && |l.txs| <= |l'.txs|
    && (forall i :: 0 <= i < |l.txs| ==> SameIntent(l.txs[i], l'.txs[i]))
    && (forall id :: HashesOf(l, id) <= HashesOf(l', id))
    && (forall id :: AttemptsOf(l, id) <= AttemptsOf(l', id))
  }

  lemma GrowsOn(a: Ledger, b: Ledger, c: Ledger)
    requires Grows(a, b) && Grows(b, c)
    ensures Grows(a, c)
  {
    forall i | 0 <= i < |a.txs| ensures SameIntent(a.txs[i], c.txs[i]) {
      assert SameIntent(a.txs[i], b.txs[i]) && SameIntent(b.txs[i], c.txs[i]);
    }
    forall id ensures HashesOf(a, id) <= HashesOf(c, id) && AttemptsOf(a, id) <= AttemptsOf(c, id) {
      assert HashesOf(a, id) <= HashesOf(b, id) <= HashesOf(c, id);
      assert AttemptsOf(a, id) <= AttemptsOf(b, id) <= AttemptsOf(c, id);
    }
  }

  lemma AddTxGrows(env: Env, l: Ledger, tx: Tx, a: Attempt)
    requires OnePerKey(l.txs) && Enabled(env, l, AddTx(tx, a))
    ensures Grows(l, WithSigned(l, tx, a)) && OnePerKey(WithSigned(l, tx, a).txs)
  {
    hide WithSigned, SignsIntent, WithinCaps, HasStale;
    var l' := WithSigned(l, tx, a);
    forall id ensures HashesOf(l, id) <= HashesOf(l', id) && AttemptsOf(l, id) <= AttemptsOf(l', id) {
      SignedTables(l, tx, a, id);
    }
    SignedTables(l, tx, a, "");
  }

  lemma AddReplacementGrows(l: Ledger, i: nat, a: Attempt)
    requires OnePerKey(l.txs) && i < |l.txs|
    ensures Grows(l, WithAttempt(l, l.txs[i].txId, a)) && OnePerKey(WithAttempt(l, l.txs[i].txId, a).txs)
  {
  }

  lemma SameIntentGrows(l: Ledger, l': Ledger)
    requires OnePerKey(l.txs) && |l'.txs| == |l.txs| && l'.hashes == l.hashes && l'.attempts == l.attempts
    requires forall i :: 0 <= i < |l.txs| ==> SameIntent(l.txs[i], l'.txs[i])
    ensures Grows(l, l') && OnePerKey(l'.txs)
  {
    forall i, j | 0 <= i < j < |l'.txs| && l'.txs[i].caller == l'.txs[j].caller &&
      l'.txs[i].idempotencyKey == l'.txs[j].idempotencyKey
      ensures l'.txs[i].idempotencyKey.None?
    {
      assert SameIntent(l.txs[i], l'.txs[i]) && SameIntent(l.txs[j], l'.txs[j]);
    }
  }

  lemma MoveGrows(env: Env, l: Ledger, m: Move)
    requires OnePerKey(l.txs) && Enabled(env, l, m)
    ensures Grows(l, Apply(l, m)) && OnePerKey(Apply(l, m).txs)
  {
    hide OnePerKey, Grows;
    assert InRange(l, m);
    hide Enabled;
    match m {
      case AddTx(tx, a) => AddTxGrows(env, l, tx, a);
      case AddReplacement(i, a) => AddReplacementGrows(l, i, a);
      case _ =>
        StatusMoveIsSameIntent(env, l, m);
        SameIntentGrows(l, Apply(l, m));
    }
  }

  /** Every run keeps at most one transaction, and so one nonce, per caller and key, and only grows the tables. */
  lemma {:induction false} RunGrows(env: Env, d: Db, evs: seq<Event>)
    requires OnePerKey(d.ledger.txs) && NonceSafety.AllProper(evs) && RecordsData(env)
    ensures Grows(d.ledger, Run(env, d, evs).ledger) && OnePerKey(Run(env, d, evs).ledger.txs)
    ensures Run(env, d, evs).wallets == d.wallets
    decreases |evs|
  {
    hide OnePerKey, Step, MoveOf, Apply, Enabled;
    if evs != [] {
      StepMoves(env, d, evs[0]);
      var r := Step(env, d, evs[0]);
      MoveGrows(env, d.ledger, MoveOf(env, d.ledger, evs[0], r.1));
      hide Grows;
      RunGrows(env, r.0, evs[1..]);
      GrowsOn(d.ledger, r.0.ledger, Run(env, r.0, evs[1..]).ledger);
    }
  }

  // ---------- Replays ----------

  /** The ledger holds the transaction that answered `r` to this caller, key and body. */
  ghost predicate Remembers(env: Env, l: Ledger, caller: string, key: string, req: SignRequest, r: SignResult, i: nat) {
    && i < |l.txs| && l.txs[i].caller == caller && l.txs[i].idempotencyKey == Some(key)
    && l.txs[i].requestJson == RequestJson(env, req)
    && HashesOf(l, r.txId) != []
    && r == SignResult(l.txs[i].txId, HashesOf(l, r.txId)[0].hashHex, l.txs[i].signedRaw.GetOr(""), l.txs[i].nonce)
  }

  lemma FreshRemembers(env: Env, d: Db, caller: Caller, req: SignRequest, now: int, txId: string, d': Db, r: SignResult,
                       key: string)
    requires SignedNow(env, d, caller, req, now, txId, d', r) && LadderInv(env, d.ledger)
    requires req.idempotencyKey == Some(key)
    ensures Remembers(env, d'.ledger, caller.name, key, req, r, |d.ledger.txs|)
  {
    var signed := Signed(r.hash, r.signedRawTx);
    var tx := NewTx(env, caller, req, now, txId, r.nonce, signed);
    hide Rungs, HasStale, RequestJson, FieldsOf, WithSigned;
    assert !HasId(d.ledger.txs, txId);
    assert HashesOf(d.ledger, txId) == [];
    SignedTables(d.ledger, tx, FirstAttempt(req, signed), txId);
  }

  /** An answered signing request is remembered, whether it signed or replayed. */
  lemma AnsweredRemembers(env: Env, d: Db, caller: Caller, req: SignRequest, clock: Clock, txId: string,
                          outcome: SignerOutcome, key: string)
    returns (i: nat)
    requires LadderInv(env, d.ledger) && req.idempotencyKey == Some(key)
    requires SignStep(env, d, caller, req, clock, txId, outcome).1.Ok?
    ensures var r := SignStep(env, d, caller, req, clock, txId, outcome);
            Remembers(env, r.0.ledger, caller.name, key, req, r.1.result, i)
  {
    hide SignFresh, RequestJson, LadderInv;
    var found := IndexOfKey(d.ledger.txs, caller.name, key);
    if found.Some? {
      i := found.value;
      HashesNotEmpty(env, d.ledger, i);
    } else {
      SignFreshEffect(env, d, caller, req, clock, txId, outcome);
      var r := SignFresh(env, d, caller, req, clock, txId, outcome);
      FreshRemembers(env, d, caller, req, clock.now, txId, r.0, r.1.result, key);
      i := |d.ledger.txs|;
    }
  }

  lemma HashesNotEmpty(env: Env, l: Ledger, i: nat)
    requires LadderInv(env, l) && i < |l.txs|
    ensures HashesOf(l, l.txs[i].txId) != []
  {
    hide SignsIntent, WithinCaps;
    assert Rungs(env, l.txs[i], AttemptsOf(l, l.txs[i].txId), HashesOf(l, l.txs[i].txId));
  }

  lemma GrowthRemembers(env: Env, l: Ledger, l': Ledger, caller: string, key: string, req: SignRequest, r: SignResult,
                        i: nat)
    requires Remembers(env, l, caller, key, req, r, i) && Grows(l, l')
    ensures Remembers(env, l', caller, key, req, r, i)
  {
    hide RequestJson;
    assert SameIntent(l.txs[i], l'.txs[i]);
    assert HashesOf(l, r.txId) <= HashesOf(l', r.txId);
  }

  lemma ReplayOf(env: Env, d: Db, caller: Caller, again: SignRequest, clock: Clock, txId: string,
                 outcome: SignerOutcome,
                 key: string, req: SignRequest, r: SignResult, i: nat)
    requires Remembers(env, d.ledger, caller.name, key, req, r, i) && OnePerKey(d.ledger.txs)
    requires again.idempotencyKey == Some(key) && again.wallet in d.wallets && 0 < |caller.name| <= 64
    ensures var s := SignStep(env, d, caller, again, clock, txId, outcome);
            && s.0.ledger == d.ledger && s.0.buckets == d.buckets
            && s.1 == if RequestJson(env, req) == RequestJson(env, again) then Ok(r) else IdempotencyConflict(key)
  {
    hide SignFresh, RequestJson, ReplayEntry, SignEntry;
    var found := IndexOfKey(d.ledger.txs, caller.name, key);
    assert found == Some(i);
  }

  /** A key answered once answers the same for ever: the same body gets the original id, nonce, raw
      transaction and first hash, after any number of reports and replacements; any other body is a
      conflict. Neither touches the ledger or a counter. */
  lemma ReplayReturnsOriginal(
    env: Env, d: Db, caller: Caller, req: SignRequest, clock: Clock, txId: string, outcome: SignerOutcome,
    evs: seq<Event>, caller2: Caller, again: SignRequest, clock2: Clock, txId2: string, outcome2: SignerOutcome)
    requires LadderInv(env, d.ledger) && OnePerKey(d.ledger.txs) && JsonIsCanonical(env)
    requires req.idempotencyKey.Some? && again.idempotencyKey == req.idempotencyKey && caller2.name == caller.name
    requires again.wallet in d.wallets && Validated(req) && NonceSafety.AllProper(evs)
    requires SignStep(env, d, caller, req, clock, txId, outcome).1.Ok?
    ensures var first := SignStep(env, d, caller, req, clock, txId, outcome);
            var later := Run(env, first.0, evs);
            var second := SignStep(env, later, caller2, again, clock2, txId2, outcome2);
            && second.1 == (if SameBody(req, again) then first.1 else IdempotencyConflict(req.idempotencyKey.value))
            && second.0.ledger == later.ledger && second.0.buckets == later.buckets
  {
    CanonicalRecordsData(env);
    var key := req.idempotencyKey.value;
    var i := AnsweredRemembers(env, d, caller, req, clock, txId, outcome, key);
    assert 0 < |caller.name| <= 64;
    SignGrows(env, d, caller, req, clock, txId, outcome);
    hide SignStep, Run, LadderInv, OnePerKey, Remembers, Grows, RequestJson;
    var first := SignStep(env, d, caller, req, clock, txId, outcome);
    RunGrows(env, first.0, evs);
    var later := Run(env, first.0, evs);
    GrowthRemembers(env, first.0.ledger, later.ledger, caller.name, key, req, first.1.result, i);
    ReplayOf(env, later, caller2, again, clock2, txId2, outcome2, key, req, first.1.result, i);
    BodyTextIsExact(env, req, again);
  }

  lemma SignGrows(env: Env, d: Db, caller: Caller, req: SignRequest, clock: Clock, txId: string, outcome: SignerOutcome)
    requires OnePerKey(d.ledger.txs) && Validated(req) && RecordsData(env)
    ensures var r := SignStep(env, d, caller, req, clock, txId, outcome);
            OnePerKey(r.0.ledger.txs) && r.0.wallets == d.wallets
  {
    hide SignStep, OnePerKey, Enabled, SignMove, Apply;
    SignMoves(env, d, caller, req, clock, txId, outcome);
    MoveGrows(env, d.ledger,
              SignMove(env, d.ledger, caller, req, clock.now, SignStep(env, d, caller, req, clock, txId, outcome).1));
  }
}
