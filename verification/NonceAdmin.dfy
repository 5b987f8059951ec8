/** The admin operations on a nonce row: the guarded (re)initialisation and the bounded forward jump. */
module NonceAdmin {
  import opened Prelude
  import opened Environment
  import opened Store
  import opened CanonicalJson
  import opened TransactionRepo
  import opened SignTransaction
  import AuditLog
  import NonceRepo

  datatype InitReply =
    | Initialized(nextNonce: int)
    | AlreadyInitialized
    | InFlightNonces(count: nat)
    | InitWalletNotFound

  datatype InitBody = InitBody(wallet: string, chain: int, startingNonce: int, force: bool, forceWithInFlight: bool)

  function InitEntry(env: Env, body: InitBody, decision: string, reason: Option<string>,
                     outcome: Option<string>): AuditLog.Entry {
    AuditLog.Entry(None, "nonce-init",
      Some(env.dumps([Field("wallet", Str(body.wallet)), Field("chain", Int(body.chain)),
                      Field("starting_nonce", Int(body.startingNonce)), Field("force", Bool(body.force)),
                      Field("force_with_in_flight", Bool(body.forceWithInFlight))])),
      decision, reason, outcome)
  }

  function InitStep(env: Env, d: Db, body: InitBody, clock: Clock): (Db, InitReply) {
    var k := NonceKey(body.wallet, body.chain);
    var rows := d.ledger.nonces;
    var inFlight := CountInFlight(d.ledger.txs, k);
    if k in rows && !body.force then
      (Logged(env, d, InitEntry(env, body, "denied", Some("already_initialized"),
                                Some(env.dumps([Field("next_nonce", Int(rows[k].nextNonce))]))), clock),
       AlreadyInitialized)
    else if k in rows && !body.forceWithInFlight && inFlight > 0 then
      (Logged(env, d, InitEntry(env, body, "denied", Some("in_flight_nonces:" + PrintInt(inFlight)), None), clock),
       InFlightNonces(inFlight))
    else if body.wallet !in d.wallets then
      (Logged(env, d, InitEntry(env, body, "denied", Some("wallet_not_found"), None), clock), InitWalletNotFound)
    else
      var rows' := NonceRepo.InitRow(rows, k, body.startingNonce, body.force);
      var e := if k in rows
               then InitEntry(env, body, "approved", Some("force_overwrite"),
                              Some(env.dumps([Field("from", Int(rows[k].nextNonce)),
                                Field("to", Int(rows'[k].nextNonce))])))
               else InitEntry(env, body, "approved", None,
                 Some(env.dumps([Field("next_nonce", Int(rows'[k].nextNonce))])));
      (Logged(env, d.(ledger := d.ledger.(nonces := rows')), e, clock), Initialized(rows'[k].nextNonce))
  }

  datatype SyncReply = InSync(at: int) | Advanced(from: int, to: int) | SyncNotInitialized | OutOfBounds

  function SyncEntry(env: Env, k: NonceKey, count: int, decision: string, reason: Option<string>,
                     outcome: Option<string>): AuditLog.Entry {
    AuditLog.Entry(None, "nonce-sync",
      Some(env.dumps([Field("wallet", Str(k.wallet)), Field("chain", Int(k.chain)),
        Field("on_chain_count", Int(count))])),
      decision, reason, outcome)
  }

  function FromTo(env: Env, a: int, b: int): Option<string> {
    Some(env.dumps([Field("from", Int(a)), Field("to", Int(b))]))
  }

  function SyncStep(env: Env, d: Db, k: NonceKey, count: int, clock: Clock): (Db, SyncReply) {
    var rows := d.ledger.nonces;
    if k !in rows then
      (Logged(env, d, SyncEntry(env, k, count, "denied", Some("nonce_not_initialized"), None), clock),
        SyncNotInitialized)
    else
      var cur := rows[k].nextNonce;
      var limit := env.settings.nonceSyncMaxAdvance;
      if count == cur then
        (Logged(env, d, SyncEntry(env, k, count, "approved", Some("in_sync"), FromTo(env, cur, cur)), clock),
          InSync(cur))
      else if count < cur || count > cur + limit then
        var reason := "nonce_sync_out_of_bounds:cur=" + PrintInt(cur) + ",requested=" + PrintInt(count)
                      + ",max_advance=" + PrintInt(limit);
        (Logged(env, d, SyncEntry(env, k, count, "denied", Some(reason), None), clock), OutOfBounds)
      else
        var d' := d.(ledger := d.ledger.(nonces := NonceRepo.SetNext(rows, k, count)));
        (Logged(env, d', SyncEntry(env, k, count, "approved", None, FromTo(env, cur, count)), clock),
          Advanced(cur, count))
  }

  method PostNonceInit(env: Env, s: Session, body: InitBody, clock: Clock) returns (reply: InitReply)
    requires s.db == s.committed
    modifies s
    ensures (s.committed, reply) == InitStep(env, old(s.committed), body, clock)
    ensures s.db == s.committed
  {
    var k := NonceKey(body.wallet, body.chain);
    var rows := s.db.ledger.nonces;
    if k in rows && !body.force {
      AuditAndCommit(env, s, InitEntry(env, body, "denied", Some("already_initialized"),
                                       Some(env.dumps([Field("next_nonce", Int(rows[k].nextNonce))]))), clock);
      s.Leave(true);
      return AlreadyInitialized;
    }
    if body.force && k in rows && !body.forceWithInFlight {
      var inFlight := CountInFlight(s.db.ledger.txs, k);
      if inFlight > 0 {
        AuditAndCommit(env, s, InitEntry(env, body, "denied", Some("in_flight_nonces:" + PrintInt(inFlight)), None),
                       clock);
        s.Leave(true);
        return InFlightNonces(inFlight);
      }
    }
    var nonces := new NonceRepo.Repo(s);
    var row := nonces.InitForWallet(body.wallet, body.chain, body.startingNonce, body.force);
    if row == None {
      AuditAndCommit(env, s, InitEntry(env, body, "denied", Some("wallet_not_found"), None), clock);
      s.Leave(true);
      return InitWalletNotFound;
    }
    if k in rows {
      Audit(env, s, InitEntry(env, body, "approved", Some("force_overwrite"),
                              Some(env.dumps([Field("from", Int(rows[k].nextNonce)),
                                Field("to", Int(row.value.nextNonce))]))), clock);
    } else {
      Audit(env, s, InitEntry(env, body, "approved", None,
                              Some(env.dumps([Field("next_nonce", Int(row.value.nextNonce))]))), clock);
    }
    s.Leave(false);
    reply := Initialized(row.value.nextNonce);
  }

  method PostNonceSync(env: Env, s: Session, wallet: string, chain: int, count: int,
                       clock: Clock) returns (reply: SyncReply)
    requires s.db == s.committed
    modifies s
    ensures (s.committed, reply) == SyncStep(env, old(s.committed), NonceKey(wallet, chain), count, clock)
    ensures s.db == s.committed
  {
    var k := NonceKey(wallet, chain);
    if k !in s.db.ledger.nonces {
      AuditAndCommit(env, s, SyncEntry(env, k, count, "denied", Some("nonce_not_initialized"), None), clock);
      s.Leave(true);
      return SyncNotInitialized;
    }
    var cur := s.db.ledger.nonces[k].nextNonce;
    if count == cur {
      Audit(env, s, SyncEntry(env, k, count, "approved", Some("in_sync"), FromTo(env, cur, cur)), clock);
      s.Leave(false);
      return InSync(cur);
    }
    var limit := env.settings.nonceSyncMaxAdvance;
    if count < cur || count > cur + limit {
      var reason := "nonce_sync_out_of_bounds:cur=" + PrintInt(cur) + ",requested=" + PrintInt(count)
                    + ",max_advance=" + PrintInt(limit);
      AuditAndCommit(env, s, SyncEntry(env, k, count, "denied", Some(reason), None), clock);
      s.Leave(true);
      return OutOfBounds;
    }
    var nonces := new NonceRepo.Repo(s);
    nonces.SetNextNonce(wallet, chain, count);
    Audit(env, s, SyncEntry(env, k, count, "approved", None, FromTo(env, cur, count)), clock);
    s.Leave(false);
    reply := Advanced(cur, count);
  }
}
