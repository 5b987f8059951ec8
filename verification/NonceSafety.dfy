/** What every run keeps true of nonces: no two live transactions of one wallet and chain share one, none
    is handed out twice, none is skipped, and a stuck one is overtaken for no longer than the lease. */
module NonceSafety {
  import opened Prelude
  import opened Environment
  import opened Store
  import opened TransactionRepo
  import opened SignTransaction
  import opened Transactions
  import opened ReplacementFee
  import opened NonceAdmin
  import opened SignFspMessage
  import opened Service
  import NonceRepo

  predicate Settled(tx: Tx) {
    tx.status == Mined || tx.status == Reverted
  }

  /** The row of every transaction exists; in-flight nonces lie below the next one and differ pairwise and
      from the last confirmed one, which lies below the next one too. */
  ghost predicate NonceInv(l: Ledger) {
    && (forall i :: 0 <= i < |l.txs| ==> KeyOf(l.txs[i]) in l.nonces)
    && (forall i :: 0 <= i < |l.txs| && InFlight(l.txs[i]) ==>
          && l.txs[i].nonce < l.nonces[KeyOf(l.txs[i])].nextNonce
          && l.nonces[KeyOf(l.txs[i])].lastConfirmed != Some(l.txs[i].nonce))
    && (forall i, j ::
          0 <= i < j < |l.txs| && InFlight(l.txs[i]) && InFlight(l.txs[j]) && KeyOf(l.txs[i]) == KeyOf(l.txs[j]) ==>
          l.txs[i].nonce != l.txs[j].nonce)
    && (forall k :: k in l.nonces && l.nonces[k].lastConfirmed.Some? ==>
         l.nonces[k].lastConfirmed.value < l.nonces[k].nextNonce)
  }

  lemma SentKeepsNonceInv(l: Ledger, i: nat, now: int)
    requires NonceInv(l) && i < |l.txs| && l.txs[i].status == Pending
    ensures NonceInv(Sent(l, i, now))
  {
    var l' := Sent(l, i, now);
    assert forall j :: 0 <= j < |l.txs| ==> KeyOf(l'.txs[j]) == KeyOf(l.txs[j]) && l'.txs[j].nonce == l.txs[j].nonce;
    assert forall j :: 0 <= j < |l.txs| && InFlight(l'.txs[j]) ==> InFlight(l.txs[j]);
  }

  /** A release returns only the last nonce handed out, so every other live one stays below. */
  lemma DroppedKeepsNonceInv(l: Ledger, i: nat, release: bool)
    requires NonceInv(l) && i < |l.txs| && l.txs[i].status == Pending
    ensures NonceInv(Dropped(l, i, release))
  {
    var l' := Dropped(l, i, release);
    assert forall j :: 0 <= j < |l.txs| ==> KeyOf(l'.txs[j]) == KeyOf(l.txs[j]) && l'.txs[j].nonce == l.txs[j].nonce;
    assert forall j :: 0 <= j < |l.txs| && InFlight(l'.txs[j]) ==> InFlight(l.txs[j]) && j != i;
  }

  lemma ConfirmedKeepsNonceInv(l: Ledger, i: nat, success: bool, now: int, receipt: string)
    requires NonceInv(l) && i < |l.txs| && l.txs[i].status == Submitted
    ensures NonceInv(Confirmed(l, i, success, now, receipt))
  {
    var l' := Confirmed(l, i, success, now, receipt);
    assert forall j :: 0 <= j < |l.txs| ==> KeyOf(l'.txs[j]) == KeyOf(l.txs[j]) && l'.txs[j].nonce == l.txs[j].nonce;
    assert forall j :: 0 <= j < |l.txs| && InFlight(l'.txs[j]) ==> InFlight(l.txs[j]) && j != i;
  }

  lemma StatusMoveKeepsNonceInv(env: Env, l: Ledger, m: Move)
    requires NonceInv(l) && Enabled(env, l, m) && (m.MarkSent? || m.MarkFailed? || m.MarkMined?)
    ensures NonceInv(Apply(l, m))
  {
    hide NonceInv, Sent, Dropped, Confirmed, SignsIntent, WithinCaps, HasStale, CountInFlight, IndexOf, IndexOfKey;
    match m {
      case MarkSent(i, now) => SentKeepsNonceInv(l, i, now);
      case MarkFailed(i, release) => DroppedKeepsNonceInv(l, i, release);
      case MarkMined(i, success, now, receipt) => ConfirmedKeepsNonceInv(l, i, success, now, receipt);
      case _ =>
    }
  }

  lemma RowMoveKeepsNonceInv(env: Env, l: Ledger, m: Move)
    requires NonceInv(l) && Enabled(env, l, m) && (m.SetRow? || m.Jump?)
    ensures NonceInv(Apply(l, m))
  {
    hide SignsIntent, WithinCaps, MinPriority, LatestAttempt, HasStale, IndexOf, IndexOfKey;
  }

  lemma AddTxKeepsNonceInv(env: Env, l: Ledger, m: Move)
    requires NonceInv(l) && Enabled(env, l, m) && (m.AddTx? || m.AddReplacement? || m.Stay?)
    ensures NonceInv(Apply(l, m))
  {
    hide SignsIntent, WithinCaps, MinPriority, LatestAttempt, HasStale, IndexOf, IndexOfKey, CountInFlight;
  }

  lemma MoveKeepsNonceInv(env: Env, l: Ledger, m: Move)
    requires NonceInv(l) && Enabled(env, l, m)
    ensures NonceInv(Apply(l, m))
  {
    hide *;
    match m {
      case MarkSent(_, _) => StatusMoveKeepsNonceInv(env, l, m);
      case MarkFailed(_, _) => StatusMoveKeepsNonceInv(env, l, m);
      case MarkMined(_, _, _, _) => StatusMoveKeepsNonceInv(env, l, m);
      case SetRow(_, _) => RowMoveKeepsNonceInv(env, l, m);
      case Jump(_, _) => RowMoveKeepsNonceInv(env, l, m);
      case _ => AddTxKeepsNonceInv(env, l, m);
    }
  }

  ghost predicate AllProper(evs: seq<Event>) {
    forall i :: 0 <= i < |evs| ==> Proper(evs[i])
  }

  /** Nonce safety over every run: signing, reports, replacements, initialisation, synchronisation and
      pruning in any order and number. */
  lemma {:induction false} RunKeepsNonceInv(env: Env, d: Db, evs: seq<Event>)
    requires NonceInv(d.ledger) && AllProper(evs) && RecordsData(env)
    ensures NonceInv(Run(env, d, evs).ledger)
    decreases |evs|
  {
    hide NonceInv, Step, MoveOf, Apply, Enabled;
    if evs != [] {
      StepMoves(env, d, evs[0]);
      var r := Step(env, d, evs[0]);
      MoveKeepsNonceInv(env, d.ledger, MoveOf(env, d.ledger, evs[0], r.1));
      RunKeepsNonceInv(env, r.0, evs[1..]);
    }
  }

  /** What a reservation would hand out next is neither in flight nor confirmed, also right after a release. */
  lemma NextNonceIsFree(l: Ledger, k: NonceKey, i: nat)
    requires NonceInv(l) && k in l.nonces && i < |l.txs| && KeyOf(l.txs[i]) == k
    ensures InFlight(l.txs[i]) ==> l.txs[i].nonce != l.nonces[k].nextNonce
    ensures l.nonces[k].lastConfirmed != Some(l.nonces[k].nextNonce)
    ensures l.txs[i].status == Pending ==>
              var l' := Dropped(l, i, true);
              && l'.nonces[k].lastConfirmed != Some(l'.nonces[k].nextNonce)
              && forall j :: 0 <= j < |l.txs| && KeyOf(l'.txs[j]) == k && InFlight(l'.txs[j]) ==>
                   l'.txs[j].nonce != l'.nonces[k].nextNonce
  {
    if l.txs[i].status == Pending {
      var l' := Dropped(l, i, true);
      assert forall j :: 0 <= j < |l.txs| && j != i ==> l'.txs[j] == l.txs[j];
    }
  }

  // ---------- Runs that never overwrite a row ----------

  /** Initialisation only of rows that do not exist yet. */
  predicate NoOverwrite(ev: Event) {
    ev.Init? ==> !ev.initBody.force
  }

  lemma MoveComesFrom(env: Env, d: Db, ev: Event)
    ensures var m := MoveOf(env, d.ledger, ev, Step(env, d, ev).1);
            && (m.SetRow? ==> ev.Init?)
            && (m.SetRow? && NoOverwrite(ev) ==> m.k !in d.ledger.nonces)
            && (m.Jump? ==> ev.Sync?)
            && (m.AddTx? ==> m.tx.reservedAt == Some(ev.clock.now))
  {
    hide SignStep, FspStep, BroadcastStep, ReceiptStep, ReplaceStep, SyncStep;
  }

  /** No two transactions that have not failed ever share a nonce. */
  ghost predicate NoReuse(l: Ledger) {
    && NonceInv(l)
    && (forall i :: 0 <= i < |l.txs| && Settled(l.txs[i]) ==>
          l.nonces[KeyOf(l.txs[i])].lastConfirmed.Some? &&
            l.txs[i].nonce <= l.nonces[KeyOf(l.txs[i])].lastConfirmed.value)
    && (forall i, j ::
          0 <= i < j < |l.txs| && KeyOf(l.txs[i]) == KeyOf(l.txs[j])
          && l.txs[i].status != Failed && l.txs[j].status != Failed ==>
          l.txs[i].nonce != l.txs[j].nonce)
  }

  /** Transactions only ever become failed, and nothing else about their nonces changes. */
  ghost predicate SameButStatus(l: Ledger, l': Ledger) {
    && |l'.txs| == |l.txs|
    && (forall j :: 0 <= j < |l.txs| ==>
          && KeyOf(l'.txs[j]) == KeyOf(l.txs[j]) && l'.txs[j].nonce == l.txs[j].nonce
          && (l'.txs[j].status != Failed ==> l.txs[j].status != Failed))
  }

  lemma SameButStatusKeepsNoReuse(l: Ledger, l': Ledger)
    requires NoReuse(l) && NonceInv(l') && SameButStatus(l, l')
    requires forall i :: 0 <= i < |l'.txs| && Settled(l'.txs[i]) ==>
               l'.nonces[KeyOf(l'.txs[i])].lastConfirmed.Some? &&
                 l'.txs[i].nonce <= l'.nonces[KeyOf(l'.txs[i])].lastConfirmed.value
    ensures NoReuse(l')
  {
    forall i, j | 0 <= i < j < |l'.txs| && KeyOf(l'.txs[i]) == KeyOf(l'.txs[j]) && l'.txs[i].status != Failed &&
      l'.txs[j].status != Failed
      ensures l'.txs[i].nonce != l'.txs[j].nonce
    {
      assert KeyOf(l.txs[i]) == KeyOf(l.txs[j]) && l.txs[i].status != Failed && l.txs[j].status != Failed;
    }
  }

  lemma SentKeepsNoReuse(l: Ledger, i: nat, now: int)
    requires NoReuse(l) && i < |l.txs| && l.txs[i].status == Pending
    ensures NoReuse(Sent(l, i, now))
  {
    SentKeepsNonceInv(l, i, now);
    hide NonceInv;
    assert SameButStatus(l, Sent(l, i, now));
    SameButStatusKeepsNoReuse(l, Sent(l, i, now));
  }

  lemma DroppedKeepsNoReuse(l: Ledger, i: nat, release: bool)
    requires NoReuse(l) && i < |l.txs| && l.txs[i].status == Pending
    ensures NoReuse(Dropped(l, i, release))
  {
    DroppedKeepsNonceInv(l, i, release);
    hide NonceInv;
    assert SameButStatus(l, Dropped(l, i, release));
    SameButStatusKeepsNoReuse(l, Dropped(l, i, release));
  }

  lemma ConfirmedKeepsNoReuse(l: Ledger, i: nat, success: bool, now: int, receipt: string)
    requires NoReuse(l) && i < |l.txs| && l.txs[i].status == Submitted && KeyOf(l.txs[i]) in l.nonces
    ensures NoReuse(Confirmed(l, i, success, now, receipt))
  {
    ConfirmedKeepsNonceInv(l, i, success, now, receipt);
    hide NonceInv;
    assert SameButStatus(l, Confirmed(l, i, success, now, receipt));
    SameButStatusKeepsNoReuse(l, Confirmed(l, i, success, now, receipt));
  }

  lemma StatusMoveKeepsNoReuse(env: Env, l: Ledger, m: Move)
    requires NoReuse(l) && Enabled(env, l, m) && (m.MarkSent? || m.MarkFailed? || m.MarkMined?)
    ensures NoReuse(Apply(l, m))
  {
    NoReuseImplies(l);
    RowsExist(l);
    hide NoReuse, NonceInv, Sent, Dropped, Confirmed, SignsIntent, WithinCaps, HasStale, CountInFlight, IndexOf,
      IndexOfKey;
    match m {
      case MarkSent(i, now) => SentKeepsNoReuse(l, i, now);
      case MarkFailed(i, release) => DroppedKeepsNoReuse(l, i, release);
      case MarkMined(i, success, now, receipt) => ConfirmedKeepsNoReuse(l, i, success, now, receipt);
      case _ =>
    }
  }

  lemma RowsExist(l: Ledger)
    requires NonceInv(l)
    ensures forall i :: 0 <= i < |l.txs| ==> KeyOf(l.txs[i]) in l.nonces
  {
  }

  /** A fresh nonce is above every settled one and every live one. */
  lemma FreshNonceIsAbove(l: Ledger, i: nat)
    requires NoReuse(l) && i < |l.txs| && l.txs[i].status != Failed
    ensures KeyOf(l.txs[i]) in l.nonces && l.txs[i].nonce < l.nonces[KeyOf(l.txs[i])].nextNonce
  {
    assert InFlight(l.txs[i]) || Settled(l.txs[i]);
  }

  lemma SignedKeepsNoReuse(l: Ledger, tx: Tx, a: Attempt)
    requires NoReuse(l) && KeyOf(tx) in l.nonces && tx.status == Pending && tx.nonce == l.nonces[KeyOf(tx)].nextNonce
    requires NonceInv(WithSigned(l, tx, a))
    ensures NoReuse(WithSigned(l, tx, a))
  {
    hide NonceInv;
    forall i | 0 <= i < |l.txs| && l.txs[i].status != Failed && KeyOf(l.txs[i]) == KeyOf(tx)
      ensures l.txs[i].nonce != tx.nonce {
      FreshNonceIsAbove(l, i);
    }
    NoReuseImplies(l);
    RowsExist(l);
  }

  lemma AddTxKeepsNoReuse(env: Env, l: Ledger, m: Move)
    requires NoReuse(l) && Enabled(env, l, m) && (m.AddTx? || m.AddReplacement? || m.Stay?)
    requires NonceInv(Apply(l, m))
    ensures NoReuse(Apply(l, m))
  {
    hide NonceInv, SignsIntent, WithinCaps, MinPriority, LatestAttempt, HasStale, IndexOf, IndexOfKey, CountInFlight;
    if m.AddTx? {
      hide NoReuse;
      SignedKeepsNoReuse(l, m.tx, m.attempt);
    }
  }

  lemma RowMoveKeepsNoReuse(env: Env, l: Ledger, m: Move)
    requires NoReuse(l) && Enabled(env, l, m) && (m.SetRow? || m.Jump?) && (m.SetRow? ==> m.k !in l.nonces)
    requires NonceInv(Apply(l, m))
    ensures NoReuse(Apply(l, m))
  {
    hide SignsIntent, WithinCaps, MinPriority, LatestAttempt, HasStale, IndexOf, IndexOfKey, CountInFlight;
  }

  lemma MoveKeepsNoReuse(env: Env, l: Ledger, m: Move)
    requires NoReuse(l) && Enabled(env, l, m) && (m.SetRow? ==> m.k !in l.nonces)
    ensures NoReuse(Apply(l, m))
  {
    hide *;
    assert NonceInv(l) by { NoReuseImplies(l); }
    MoveKeepsNonceInv(env, l, m);
    if m.MarkSent? || m.MarkFailed? || m.MarkMined? {
      StatusMoveKeepsNoReuse(env, l, m);
    } else if m.SetRow? || m.Jump? {
      RowMoveKeepsNoReuse(env, l, m);
    } else {
      AddTxKeepsNoReuse(env, l, m);
    }
  }

  lemma NoReuseImplies(l: Ledger)
    requires NoReuse(l)
    ensures NonceInv(l)
  {
  }

  /** Synchronisation, which jumps forward and never back, is allowed here. */
  lemma {:induction false} RunKeepsNoReuse(env: Env, d: Db, evs: seq<Event>)
    requires NoReuse(d.ledger) && AllProper(evs) && RecordsData(env)
    requires forall i :: 0 <= i < |evs| ==> NoOverwrite(evs[i])
    ensures NoReuse(Run(env, d, evs).ledger)
    decreases |evs|
  {
    hide NoReuse, NonceInv, Step, MoveOf, Apply, Enabled;
    if evs != [] {
      StepMoves(env, d, evs[0]);
      MoveComesFrom(env, d, evs[0]);
      var r := Step(env, d, evs[0]);
      MoveKeepsNoReuse(env, d.ledger, MoveOf(env, d.ledger, evs[0], r.1));
      RunKeepsNoReuse(env, r.0, evs[1..]);
    }
  }

  // ---------- No nonce is skipped ----------

  ghost predicate HasRow(l: Ledger, k: NonceKey, n: int) {
    exists i :: 0 <= i < |l.txs| && KeyOf(l.txs[i]) == k && l.txs[i].nonce == n
  }

  ghost predicate Filled(l: Ledger, k: NonceKey, start: int) {
    k in l.nonces && forall n :: start <= n < l.nonces[k].nextNonce ==> HasRow(l, k, n)
  }

  /** Neither a synchronisation nor a forced initialisation of the row of `k`. */
  predicate LeavesRow(ev: Event, k: NonceKey) {
    && (ev.Sync? ==> ev.key != k)
    && (ev.Init? ==> !ev.initBody.force || NonceKey(ev.initBody.wallet, ev.initBody.chain) != k)
  }

  lemma RowMoveComesFrom(env: Env, d: Db, ev: Event, k: NonceKey)
    requires LeavesRow(ev, k) && k in d.ledger.nonces
    ensures var m := MoveOf(env, d.ledger, ev, Step(env, d, ev).1);
            (m.SetRow? ==> m.k != k) && (m.Jump? ==> m.k != k)
  {
    hide SignStep, FspStep, BroadcastStep, ReceiptStep, ReplaceStep, SyncStep;
  }

  lemma AppendKeepsRows(l: Ledger, l': Ledger, k: NonceKey, n: int)
    requires |l.txs| <= |l'.txs|
    requires forall i :: 0 <= i < |l.txs| ==> KeyOf(l'.txs[i]) == KeyOf(l.txs[i]) && l'.txs[i].nonce == l.txs[i].nonce
    ensures HasRow(l, k, n) ==> HasRow(l', k, n)
  {
    if HasRow(l, k, n) {
      var i :| 0 <= i < |l.txs| && KeyOf(l.txs[i]) == k && l.txs[i].nonce == n;
      assert KeyOf(l'.txs[i]) == k;
    }
  }

  lemma MoveKeepsFilled(env: Env, l: Ledger, m: Move, k: NonceKey, start: int)
    requires Filled(l, k, start) && Enabled(env, l, m)
    requires (m.SetRow? ==> m.k != k) && (m.Jump? ==> m.k != k)
    ensures Filled(Apply(l, m), k, start)
  {
    hide HasRow, SignsIntent, WithinCaps, MinPriority, LatestAttempt, HasStale, IndexOf, IndexOfKey, CountInFlight;
    var l' := Apply(l, m);
    forall n | start <= n < l'.nonces[k].nextNonce ensures HasRow(l', k, n) {
      if n < l.nonces[k].nextNonce {
        AppendKeepsRows(l, l', k, n);
      } else {
        assert m.AddTx? && KeyOf(l'.txs[|l.txs|]) == k && l'.txs[|l.txs|].nonce == n;
        ShowRow(l', k, n, |l.txs|);
      }
    }
  }

  lemma ShowRow(l: Ledger, k: NonceKey, n: int, i: nat)
    requires i < |l.txs| && KeyOf(l.txs[i]) == k && l.txs[i].nonce == n
    ensures HasRow(l, k, n)
  {
  }

  lemma {:induction false} RunKeepsFilled(env: Env, d: Db, evs: seq<Event>, k: NonceKey, start: int)
    requires Filled(d.ledger, k, start) && AllProper(evs) && RecordsData(env)
    requires forall i :: 0 <= i < |evs| ==> LeavesRow(evs[i], k)
    ensures Filled(Run(env, d, evs).ledger, k, start)
    decreases |evs|
  {
    hide HasRow, Step, MoveOf, Apply, Enabled;
    if evs != [] {
      StepMoves(env, d, evs[0]);
      RowMoveComesFrom(env, d, evs[0], k);
      var r := Step(env, d, evs[0]);
      MoveKeepsFilled(env, d.ledger, MoveOf(env, d.ledger, evs[0], r.1), k, start);
      RunKeepsFilled(env, r.0, evs[1..], k, start);
    }
  }

  /** After an initialisation of `k` at `start`, and until the row is synchronised or overwritten, every
      nonce below the next one was given to a transaction that is on record. */
  lemma NoGapSinceInit(env: Env, d: Db, body: InitBody, clock: Clock, evs: seq<Event>)
    requires InitStep(env, d, body, clock).1.Initialized?
    requires AllProper(evs) && RecordsData(env)
    requires forall i :: 0 <= i < |evs| ==> LeavesRow(evs[i], NonceKey(body.wallet, body.chain))
    ensures Filled(Run(env, InitStep(env, d, body, clock).0, evs).ledger, NonceKey(body.wallet, body.chain),
      body.startingNonce)
  {
    hide HasRow, Run, CountInFlight;
    RunKeepsFilled(env, InitStep(env, d, body, clock).0, evs, NonceKey(body.wallet, body.chain), body.startingNonce);
  }

  // ---------- The wedge guard ----------

  /** The clock never runs backwards, starting from `t`. */
  predicate Timely(evs: seq<Event>, t: int)
    decreases |evs|
  {
    evs == [] || (t <= evs[0].clock.now && Timely(evs[1..], evs[0].clock.now))
  }

  function ClockAfter(evs: seq<Event>, t: int): int {
    if evs == [] then t else evs[|evs| - 1].clock.now
  }

  /** No transaction was reserved more than a lease later than one that is still pending. */
  ghost predicate Overtaking(l: Ledger, lease: int, t: int) {
    && (forall i :: 0 <= i < |l.txs| ==> l.txs[i].reservedAt.Some? && l.txs[i].reservedAt.value <= t)
    && (forall i, j ::
          0 <= i < |l.txs| && 0 <= j < |l.txs|
          && l.txs[i].status == Pending && KeyOf(l.txs[i]) == KeyOf(l.txs[j]) ==>
          l.txs[j].reservedAt.value <= l.txs[i].reservedAt.value + lease)
  }

  lemma SignedKeepsOvertaking(l: Ledger, tx: Tx, a: Attempt, lease: int, t: int, now: int)
    requires Overtaking(l, lease, t) && lease >= 0 && t <= now && KeyOf(tx) in l.nonces
    requires tx.reservedAt == Some(now) && !HasStale(l.txs, KeyOf(tx), now - lease)
    ensures Overtaking(WithSigned(l, tx, a), lease, now)
  {
    hide NonceRepo.Reserve;
    forall i | 0 <= i < |l.txs| && l.txs[i].status == Pending && KeyOf(l.txs[i]) == KeyOf(tx)
      ensures now <= l.txs[i].reservedAt.value + lease
    {
      assert !StaleReservation(l.txs[i], KeyOf(tx), now - lease);
    }
    hide HasStale;
  }

  /** No transaction becomes pending again, and none changes when it was reserved. */
  lemma OthersKeepOvertaking(l: Ledger, l': Ledger, lease: int, t: int, now: int)
    requires Overtaking(l, lease, t) && t <= now && |l'.txs| == |l.txs|
    requires forall j :: 0 <= j < |l.txs| ==>
               && KeyOf(l'.txs[j]) == KeyOf(l.txs[j]) && l'.txs[j].reservedAt == l.txs[j].reservedAt
               && (l'.txs[j].status == Pending ==> l.txs[j].status == Pending)
    ensures Overtaking(l', lease, now)
  {
    hide KeyOf;
  }

  lemma MoveKeepsOvertaking(env: Env, l: Ledger, m: Move, t: int, now: int)
    requires Overtaking(l, env.settings.reservationLease, t) && Enabled(env, l, m) && env.settings.reservationLease >= 0
    requires t <= now && (m.AddTx? ==> m.tx.reservedAt == Some(now))
    ensures Overtaking(Apply(l, m), env.settings.reservationLease, now)
  {
    hide Overtaking, SignsIntent, WithinCaps, MinPriority, LatestAttempt, HasStale, IndexOf, IndexOfKey, CountInFlight,
      NonceRepo.Release, NonceRepo.MarkConfirmed;
    if m.AddTx? {
      SignedKeepsOvertaking(l, m.tx, m.attempt, env.settings.reservationLease, t, now);
    } else {
      OthersKeepOvertaking(l, Apply(l, m), env.settings.reservationLease, t, now);
    }
  }

  /** A stuck nonce is overtaken for no longer than the reservation lease, whatever the run does. */
  lemma {:induction false} RunBoundsOvertaking(env: Env, d: Db, evs: seq<Event>, t: int)
    requires Overtaking(d.ledger, env.settings.reservationLease, t) && env.settings.reservationLease >= 0
    requires AllProper(evs) && RecordsData(env) && Timely(evs, t)
    ensures Overtaking(Run(env, d, evs).ledger, env.settings.reservationLease, ClockAfter(evs, t))
    decreases |evs|
  {
    hide Overtaking, Step, MoveOf, Apply, Enabled;
    if evs != [] {
      StepMoves(env, d, evs[0]);
      MoveComesFrom(env, d, evs[0]);
      var r := Step(env, d, evs[0]);
      MoveKeepsOvertaking(env, d.ledger, MoveOf(env, d.ledger, evs[0], r.1), t, evs[0].clock.now);
      RunBoundsOvertaking(env, r.0, evs[1..], evs[0].clock.now);
    }
  }

  /** Everything above, from an empty ledger. */
  lemma ReachableNonces(env: Env, d: Db, evs: seq<Event>, t: int)
    requires d.ledger == EMPTY_LEDGER && RecordsData(env) && AllProper(evs)
    ensures NonceInv(Run(env, d, evs).ledger)
    ensures (forall i :: 0 <= i < |evs| ==> NoOverwrite(evs[i])) ==> NoReuse(Run(env, d, evs).ledger)
    ensures env.settings.reservationLease >= 0 && Timely(evs, t) ==>
              Overtaking(Run(env, d, evs).ledger, env.settings.reservationLease, ClockAfter(evs, t))
  {
    hide Run;
    RunKeepsNonceInv(env, d, evs);
    if forall i :: 0 <= i < |evs| ==> NoOverwrite(evs[i]) {
      RunKeepsNoReuse(env, d, evs);
    }
    if env.settings.reservationLease >= 0 && Timely(evs, t) {
      RunBoundsOvertaking(env, d, evs, t);
    }
  }
}
