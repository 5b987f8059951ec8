/** The nonces table: what each statement does to the row of one (wallet, chain), and the repository
    that runs it on a session. */
module NonceRepo {
  import opened Prelude
  import opened Store

  type Nonces = map<NonceKey, NonceRow>

  function InitRow(t: Nonces, k: NonceKey, start: int, force: bool): Nonces {
    if k in t && !force then t else t[k := NonceRow(start, None)]
  }

  function Reserve(t: Nonces, k: NonceKey): Nonces
    requires k in t
  {
    t[k := t[k].(nextNonce := t[k].nextNonce + 1)]
  }

  predicate Releasable(t: Nonces, k: NonceKey, reserved: int) {
    k in t && t[k].nextNonce - 1 == reserved
  }

  function Release(t: Nonces, k: NonceKey, reserved: int): Nonces {
    if Releasable(t, k, reserved) then t[k := t[k].(nextNonce := reserved)] else t
  }

  function MarkConfirmed(t: Nonces, k: NonceKey, nonce: int): Nonces {
    if k in t && (t[k].lastConfirmed.None? || t[k].lastConfirmed.value < nonce)
    then t[k := t[k].(lastConfirmed := Some(nonce))]
    else t
  }

  function SetNext(t: Nonces, k: NonceKey, value: int): Nonces {
    if k in t then t[k := NonceRow(value, Some(value - 1))] else t
  }

  /** Releasing what was just reserved restores the table. */
  lemma ReserveThenRelease(t: Nonces, k: NonceKey)
    requires k in t
    ensures Releasable(Reserve(t, k), k, t[k].nextNonce)
    ensures Release(Reserve(t, k), k, t[k].nextNonce) == t
  {
    var t' := Release(Reserve(t, k), k, t[k].nextNonce);
    assert t'[k] == t[k];
    assert t'.Keys == t.Keys;
  }

  class Repo {
    const session: Session

    constructor (session: Session)
      ensures this.session == session
    {
      this.session := session;
    }

    /** None stands for the foreign-key error on an unknown wallet. */
    method InitForWallet(wallet: string, chain: int, start: int, force: bool) returns (r: Option<NonceRow>)
      modifies session`db
      ensures var k, d := NonceKey(wallet, chain), old(session.db);
              if wallet !in d.wallets then r == None && session.db == d
              else
                && session.db == d.(ledger := d.ledger.(nonces := InitRow(d.ledger.nonces, k, start, force)))
                && r == Some(session.db.ledger.nonces[k])
    {
      if wallet !in session.db.wallets {
        return None;
      }
      var k := NonceKey(wallet, chain);
      var rows := session.db.ledger.nonces;
      if k !in rows {
        rows := rows[k := NonceRow(start, None)];
      } else if force {
        rows := rows[k := rows[k].(nextNonce := start, lastConfirmed := None)];
      }
      session.db := session.db.(ledger := session.db.ledger.(nonces := rows));
      r := Some(rows[k]);
    }

    /** Read, then update; None stands for the missing row. */
    method ReserveNext(wallet: string, chain: int) returns (r: Option<int>)
      modifies session`db
      ensures var k, d := NonceKey(wallet, chain), old(session.db);
              if k !in d.ledger.nonces then r == None && session.db == d
              else
                && r == Some(d.ledger.nonces[k].nextNonce)
                && session.db == d.(ledger := d.ledger.(nonces := Reserve(d.ledger.nonces, k)))
    {
      var k := NonceKey(wallet, chain);
      if k !in session.db.ledger.nonces {
        return None;
      }
      var current := session.db.ledger.nonces[k].nextNonce;
      var row := session.db.ledger.nonces[k].(nextNonce := current + 1);
      session.db := session.db.(ledger := session.db.ledger.(nonces := session.db.ledger.nonces[k := row]));
      r := Some(current);
    }

    method ReleaseIfUnused(wallet: string, chain: int, reserved: int) returns (released: bool)
      modifies session`db
      ensures var k, d := NonceKey(wallet, chain), old(session.db);
              && released == Releasable(d.ledger.nonces, k, reserved)
              && session.db == d.(ledger := d.ledger.(nonces := Release(d.ledger.nonces, k, reserved)))
    {
      var k := NonceKey(wallet, chain);
      var rows := session.db.ledger.nonces;
      released := k in rows && rows[k].nextNonce - 1 == reserved;
      if released {
        rows := rows[k := rows[k].(nextNonce := rows[k].nextNonce - 1)];
      }
      session.db := session.db.(ledger := session.db.ledger.(nonces := rows));
    }

    method MarkConfirmedAt(wallet: string, chain: int, nonce: int)
      modifies session`db
      ensures var k, d := NonceKey(wallet, chain), old(session.db);
              session.db == d.(ledger := d.ledger.(nonces := MarkConfirmed(d.ledger.nonces, k, nonce)))
    {
      var k := NonceKey(wallet, chain);
      var rows := session.db.ledger.nonces;
      if k in rows {
        var last := rows[k].lastConfirmed;
        rows := rows[k := rows[k].(lastConfirmed := if last == None || last.value < nonce then Some(nonce) else last)];
      }
      session.db := session.db.(ledger := session.db.ledger.(nonces := rows));
      assert rows == MarkConfirmed(old(session.db).ledger.nonces, k, nonce);
    }

    method SetNextNonce(wallet: string, chain: int, value: int)
      modifies session`db
      ensures var k, d := NonceKey(wallet, chain), old(session.db);
              session.db == d.(ledger := d.ledger.(nonces := SetNext(d.ledger.nonces, k, value)))
    {
      var k := NonceKey(wallet, chain);
      var rows := session.db.ledger.nonces;
      if k in rows {
        rows := rows[k := rows[k].(nextNonce := value, lastConfirmed := Some(value - 1))];
      }
      session.db := session.db.(ledger := session.db.ledger.(nonces := rows));
    }
  }
}
