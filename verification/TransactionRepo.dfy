/** The transactions, transaction_hashes and transaction_attempts tables: the queries the handlers make,
    and the repository that runs them on a session. */
module TransactionRepo {
  import opened Prelude
  import opened Store

  /** The row with primary key `txId`. */
  function IndexOf(txs: seq<Tx>, txId: string): (r: Option<nat>)
    ensures r.Some? ==> r.value < |txs| && txs[r.value].txId == txId
    ensures r.None? ==> forall i :: 0 <= i < |txs| ==> txs[i].txId != txId
  {
    if txs == [] then None
    else if txs[|txs| - 1].txId == txId then Some(|txs| - 1)
    else IndexOf(txs[..|txs| - 1], txId)
  }

  /** The row of (caller, idempotency key); the partial unique index makes it the only one. */
  function IndexOfKey(txs: seq<Tx>, caller: string, key: string): (r: Option<nat>)
    ensures r.Some? ==> r.value < |txs| && txs[r.value].caller == caller && txs[r.value].idempotencyKey == Some(key)
    ensures r.None? ==> forall i :: 0 <= i < |txs| ==> txs[i].caller != caller || txs[i].idempotencyKey != Some(key)
  {
    if txs == [] then None
    else if txs[|txs| - 1].caller == caller && txs[|txs| - 1].idempotencyKey == Some(key) then Some(|txs| - 1)
    else IndexOfKey(txs[..|txs| - 1], caller, key)
  }

  predicate On(tx: Tx, k: NonceKey) {
    tx.wallet == k.wallet && tx.chain == k.chain
  }

  predicate InFlight(tx: Tx) {
    tx.status == Pending || tx.status == Submitted
  }

  predicate StaleReservation(tx: Tx, k: NonceKey, cutoff: int) {
    On(tx, k) && tx.status == Pending && tx.reservedAt.Some? && tx.reservedAt.value < cutoff
  }

  predicate HasStale(txs: seq<Tx>, k: NonceKey, cutoff: int) {
    exists i :: 0 <= i < |txs| && StaleReservation(txs[i], k, cutoff)
  }

  function CountInFlight(txs: seq<Tx>, k: NonceKey): (n: nat)
    ensures n == 0 <==> forall i :: 0 <= i < |txs| ==> !(On(txs[i], k) && InFlight(txs[i]))
  {
    if txs == [] then 0
    else
      var last := txs[|txs| - 1];
      CountInFlight(txs[..|txs| - 1], k) + if On(last, k) && InFlight(last) then 1 else 0
  }

  /** The positions of the rows that are counted. */
  ghost function InFlightAt(txs: seq<Tx>, k: NonceKey): set<int> {
    set i | 0 <= i < |txs| && On(txs[i], k) && InFlight(txs[i])
  }

  lemma InFlightAtLast(txs: seq<Tx>, k: NonceKey, n: nat)
    requires |txs| == n + 1
    ensures InFlightAt(txs, k) == InFlightAt(txs[..n], k) + if On(txs[n], k) && InFlight(txs[n]) then {n} else {}
    ensures n !in InFlightAt(txs[..n], k)
  {
    hide On, InFlight;
    var shorter := txs[..n];
    forall i: int
      ensures i in InFlightAt(txs, k) <==>
                i in InFlightAt(shorter, k) || (i == n && On(txs[n], k) && InFlight(txs[n]))
    {
      if 0 <= i < n {
        assert shorter[i] == txs[i];
      }
    }
  }

  /** The count is the number of pending or submitted rows of the wallet and chain. */
  lemma {:induction false} CountInFlightCounts(txs: seq<Tx>, k: NonceKey)
    ensures CountInFlight(txs, k) == |InFlightAt(txs, k)|
    decreases |txs|
  {
    if txs == [] {
      assert InFlightAt(txs, k) == {};
    } else {
      hide On, InFlight, InFlightAt;
      var n := |txs| - 1;
      CountInFlightCounts(txs[..n], k);
      InFlightAtLast(txs, k, n);
    }
  }

  function HashesOf(l: Ledger, txId: string): seq<TxHash> {
    if txId in l.hashes then l.hashes[txId] else []
  }

  function AttemptsOf(l: Ledger, txId: string): seq<Attempt> {
    if txId in l.attempts then l.attempts[txId] else []
  }

  /** The status columns a report may change. None leaves a nullable column as it is. */
  datatype StatusUpdate = StatusUpdate(
    status: Status, submittedAt: Option<int>, confirmedAt: Option<int>, receiptJson: Option<string>)

  function Updated(tx: Tx, u: StatusUpdate): Tx {
    tx.(status := u.status,
        submittedAt := if u.submittedAt.Some? then u.submittedAt else tx.submittedAt,
        confirmedAt := if u.confirmedAt.Some? then u.confirmedAt else tx.confirmedAt,
        receiptJson := if u.receiptJson.Some? then u.receiptJson else tx.receiptJson)
  }

  /** Rows that agree on every column no report may change. */
  predicate SameButReported(a: Tx, b: Tx) {
    a.(status := b.status, submittedAt := b.submittedAt, confirmedAt := b.confirmedAt, receiptJson := b.receiptJson) ==
      b
  }

  function UpdateAt(l: Ledger, i: nat, u: StatusUpdate): Ledger
    requires i < |l.txs|
  {
    l.(txs := l.txs[i := Updated(l.txs[i], u)])
  }

  function AddHashRow(l: Ledger, txId: string, h: TxHash): Ledger {
    l.(hashes := l.hashes[txId := HashesOf(l, txId) + [h]])
  }

  function AddAttemptRow(l: Ledger, txId: string, a: Attempt): Ledger {
    l.(attempts := l.attempts[txId := AttemptsOf(l, txId) + [a]])
  }

  class Repo {
    const session: Session

    constructor (session: Session)
      ensures this.session == session
    {
      this.session := session;
    }

    method Find(txId: string) returns (r: Option<nat>)
      ensures r == IndexOf(session.db.ledger.txs, txId)
    {
      var txs := session.db.ledger.txs;
      assert txs[..|txs|] == txs;
      for i := |txs| downto 0
        invariant IndexOf(txs, txId) == IndexOf(txs[..i], txId)
      {
        assert txs[..i + 1][..i] == txs[..i];
        if txs[i].txId == txId {
          return Some(i);
        }
      }
      r := None;
    }

    /** A row of that caller and key, or None when no row has both. */
    method FindByIdempotencyKey(caller: string, key: string) returns (r: Option<nat>)
      ensures r.Some? ==> r.value < |session.db.ledger.txs|
      ensures r.Some? ==>
                session.db.ledger.txs[r.value].caller == caller
                && session.db.ledger.txs[r.value].idempotencyKey == Some(key)
      ensures r.None? ==> forall tx :: tx in session.db.ledger.txs ==>
        tx.caller != caller || tx.idempotencyKey != Some(key)
      ensures r == IndexOfKey(session.db.ledger.txs, caller, key)
    {
      var txs := session.db.ledger.txs;
      assert txs[..|txs|] == txs;
      for i := |txs| downto 0
        invariant forall j :: i <= j < |txs| ==> txs[j].caller != caller || txs[j].idempotencyKey != Some(key)
        invariant IndexOfKey(txs, caller, key) == IndexOfKey(txs[..i], caller, key)
      {
        assert txs[..i + 1][..i] == txs[..i];
        if txs[i].caller == caller && txs[i].idempotencyKey == Some(key) {
          return Some(i);
        }
      }
      r := None;
    }

    /** False stands for the error raised on a primary key already in use. */
    method Create(tx: Tx) returns (ok: bool)
      modifies session`db
      ensures var d := old(session.db);
              && ok == IndexOf(d.ledger.txs, tx.txId).None?
              && session.db == if ok then d.(ledger := d.ledger.(txs := d.ledger.txs + [tx])) else d
    {
      var existing := Find(tx.txId);
      ok := existing == None;
      if ok {
        session.db := session.db.(ledger := session.db.ledger.(txs := session.db.ledger.txs + [tx]));
      }
    }

    method AddHash(txId: string, hashHex: string, sequenceNum: int)
      modifies session`db
      ensures var d := old(session.db);
              session.db == d.(ledger := AddHashRow(d.ledger, txId, TxHash(sequenceNum, hashHex)))
    {
      session.db := session.db.(ledger := AddHashRow(session.db.ledger, txId, TxHash(sequenceNum, hashHex)));
    }

    method AddAttempt(txId: string, attempt: Attempt)
      modifies session`db
      ensures var d := old(session.db);
              session.db == d.(ledger := AddAttemptRow(d.ledger, txId, attempt))
    {
      session.db := session.db.(ledger := AddAttemptRow(session.db.ledger, txId, attempt));
    }

    method HasStaleReservation(wallet: string, chain: int, cutoff: int) returns (stale: bool)
      ensures stale == HasStale(session.db.ledger.txs, NonceKey(wallet, chain), cutoff)
    {
      var txs := session.db.ledger.txs;
      for i := 0 to |txs|
        invariant forall j :: 0 <= j < i ==> !StaleReservation(txs[j], NonceKey(wallet, chain), cutoff)
      {
        if StaleReservation(txs[i], NonceKey(wallet, chain), cutoff) {
          return true;
        }
      }
      stale := false;
    }

    /** Row `i` gets the status and the dates and receipt that are given; its other columns, every other
        row and every other table stay as they were. */
    method UpdateStatus(i: nat, u: StatusUpdate)
      requires i < |session.db.ledger.txs|
      modifies session`db
      ensures var l, l' := old(session.db).ledger, session.db.ledger;
              && |l'.txs| == |l.txs| && (forall j :: 0 <= j < |l.txs| && j != i ==> l'.txs[j] == l.txs[j])
              && l'.txs[i].status == u.status
              && l'.txs[i].submittedAt == (if u.submittedAt == None then l.txs[i].submittedAt else u.submittedAt)
              && l'.txs[i].confirmedAt == (if u.confirmedAt == None then l.txs[i].confirmedAt else u.confirmedAt)
              && l'.txs[i].receiptJson == (if u.receiptJson == None then l.txs[i].receiptJson else u.receiptJson)
              && SameButReported(l.txs[i], l'.txs[i])
              && session.db == old(session.db).(ledger := l.(txs := l'.txs))
      ensures session.db.ledger == UpdateAt(old(session.db).ledger, i, u)
    {
      var txs := session.db.ledger.txs;
      var row := txs[i].(status := u.status);
      if u.submittedAt != None {
        row := row.(submittedAt := u.submittedAt);
      }
      if u.confirmedAt != None {
        row := row.(confirmedAt := u.confirmedAt);
      }
      if u.receiptJson != None {
        row := row.(receiptJson := u.receiptJson);
      }
      session.db := session.db.(ledger := session.db.ledger.(txs := txs[i := row]));
    }
  }
}
