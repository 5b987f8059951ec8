/** The handlers as sessions under the writer lock. Signing runs statement by statement, with the nonce read
    in one and written back in the next; every other request is one statement. */
module Handlers {
  import opened Prelude
  import opened PolicySchema
  import opened Environment
  import opened Store
  import opened TransactionRepo
  import opened PolicyEngine
  import opened SignTransaction
  import opened Service
  import opened WriterLock
  import NonceRepo
  import AuditLog
  import Refusals

  /** What a signing request remembers from one statement to the next. */
  datatype Locals = Locals(reply: Option<Reply>, allow: Option<Verdict>, nonce: Option<int>)

  type View = (Db, Locals)

  function Answered(d: Db, l: Locals, reply: Reply): View {
    (d, l.(reply := Some(reply)))
  }

  /** The signing request: what the client sent, and what the environment supplies. */
  datatype Signing = Signing(env: Env, caller: Caller, req: SignRequest, clock: Clock, txId: string,
    outcome: SignerOutcome) {

    function Key(): NonceKey {
      NonceKey(req.wallet, req.chain)
    }

    function Refuse(d: Db, l: Locals, decision: string, reason: string, reply: Reply): View {
      Answered(Logged(env, d, SignEntry(env, caller, req, decision, Some(reason), None), clock), l, reply)
    }

    function Uncounted(d: Db, allow: Verdict): Db
      requires allow.Allow?
    {
      d.(buckets := ReleasedAfterFailure(env, d.buckets, allow, caller.name, req, clock.now))
    }

    /** Wallet, caller and idempotency key. */
    function LookUp(d: Db, l: Locals): View {
      if req.wallet !in d.wallets then Answered(d, l, WalletNotFound)
      else if caller.name == "" || |caller.name| > 64 then Answered(d, l, CallerInvalid)
      else if req.idempotencyKey.None? then (d, l)
      else match IndexOfKey(d.ledger.txs, caller.name, req.idempotencyKey.value)
        case None => (d, l)
        case Some(i) => var r := Replay(env, d, caller, req, clock, i); Answered(r.0, l, r.1)
    }

    /** Fee caps and policy gate. */
    function Gate(d: Db, l: Locals): View {
      if l.reply.Some? then (d, l)
      else match CapReason(env.settings, req)
        case Some(reason) => Refuse(d, l, "denied", reason, TxParamsRejected(reason))
        case None =>
          var ev := Evaluation(env, d.buckets, caller, req, clock.now);
          var d1 := d.(buckets := ev.1);
          match ev.0
          case Deny(step, reason) => Refuse(d1, l, "denied", DenyText(step, reason), PolicyDenied(step, reason))
          case Allow(_, _) => (d1, l.(allow := Some(ev.0)))
    }

    predicate Going(l: Locals) {
      l.reply.None? && l.allow.Some? && l.allow.value.Allow?
    }

    function WedgeGuard(d: Db, l: Locals): View {
      if !Going(l) || !HasStale(d.ledger.txs, Key(), clock.now - env.settings.reservationLease) then (d, l)
      else Refuse(Uncounted(d, l.allow.value), l, "denied", "wallet_has_stale_nonce_hole", NonceWedged)
    }

    function ReadNonce(d: Db, l: Locals): View {
      if !Going(l) then (d, l)
      else if Key() !in d.ledger.nonces then
        Refuse(Uncounted(d, l.allow.value), l, "error", "nonce_not_initialized", NonceNotInitialized)
      else (d, l.(nonce := Some(d.ledger.nonces[Key()].nextNonce)))
    }

    function WriteNonce(d: Db, l: Locals): View {
      if !Going(l) || l.nonce.None? || Key() !in d.ledger.nonces then (d, l)
      else
        var row := d.ledger.nonces[Key()].(nextNonce := l.nonce.value + 1);
        (d.(ledger := d.ledger.(nonces := d.ledger.nonces[Key() := row])), l)
    }

    /** Signing, and either the release of what was taken or the three rows. */
    function Finish(d: Db, l: Locals): View {
      if !Going(l) || l.nonce.None? then (d, l)
      else
        var value := env.parseInt(req.valueWei);
        if value.None? || outcome.SealFailure? || outcome.FieldError? then
          var d1 := d.(ledger := d.ledger.(nonces := NonceRepo.Release(d.ledger.nonces, Key(), l.nonce.value)));
          Refuse(Uncounted(d1, l.allow.value), l, "error", "pre_sign_failure", PreSignFailure)
        else if outcome.UnexpectedError? || IndexOf(d.ledger.txs, txId).Some? then Answered(d, l, Crash)
        else
          var signed := env.signTx(req.wallet, FieldsOf(env, req, l.nonce.value, value.value));
          var tx := NewTx(env, caller, req, clock.now, txId, l.nonce.value, signed);
          var a := FirstAttempt(req, signed);
          var ledger :=
            AddAttemptRow(AddHashRow(d.ledger.(txs := d.ledger.txs + [tx]), txId, TxHash(1, a.hash)), txId, a);
          var entry := ApprovedEntry(env, caller, req, txId, signed.hash, l.nonce.value);
          Answered(Logged(env, d.(ledger := ledger), entry, clock), l,
                   Ok(SignResult(txId, signed.hash, signed.raw, l.nonce.value)))
    }
  }

  /** Only a reply that succeeds or leaves a row commits. */
  predicate Commits(l: Locals) {
    l.reply.Some? && (l.reply.value.Ok? || l.reply.value.Audited())
  }

  const START := Locals(None, None, None)

  function SigningProgram(s: Signing): Program<Db, Locals> {
    Program([(d: Db, l: Locals) => s.LookUp(d, l), (d: Db, l: Locals) => s.Gate(d, l),
             (d: Db, l: Locals) => s.WedgeGuard(d, l), (d: Db, l: Locals) => s.ReadNonce(d, l),
             (d: Db, l: Locals) => s.WriteNonce(d, l), (d: Db, l: Locals) => s.Finish(d, l)],
            START, (l: Locals) => Commits(l), false)
  }

  /** The six statements in a row. */
  function Through(s: Signing, d: Db): View {
    var v1 := s.LookUp(d, START);
    var v2 := s.Gate(v1.0, v1.1);
    var v3 := s.WedgeGuard(v2.0, v2.1);
    var v4 := s.ReadNonce(v3.0, v3.1);
    var v5 := s.WriteNonce(v4.0, v4.1);
    s.Finish(v5.0, v5.1)
  }

  lemma SigningEffect(s: Signing, d: Db)
    ensures Effect(SigningProgram(s), d) == Through(s, d)
  {
    var p := SigningProgram(s);
    hide Evaluation, Replay;
    assert After(p, d, 0) == (d, START);
    assert After(p, d, 1) == s.LookUp(d, START);
    assert After(p, d, 2) == s.Gate(After(p, d, 1).0, After(p, d, 1).1);
    assert After(p, d, 3) == s.WedgeGuard(After(p, d, 2).0, After(p, d, 2).1);
    assert After(p, d, 4) == s.ReadNonce(After(p, d, 3).0, After(p, d, 3).1);
    assert After(p, d, 5) == s.WriteNonce(After(p, d, 4).0, After(p, d, 4).1);
    assert After(p, d, 6) == s.Finish(After(p, d, 5).0, After(p, d, 5).1);
  }

  /** From the reserved nonce on. */
  lemma FinishIsReserved(s: Signing, d: Db, allow: Verdict)
    requires allow.Allow? && s.Key() in d.ledger.nonces
    ensures var l := Locals(None, Some(allow), Some(d.ledger.nonces[s.Key()].nextNonce));
            var v := s.Finish(d.(ledger := d.ledger.(nonces := NonceRepo.Reserve(d.ledger.nonces, s.Key()))), l);
            var r := SignReserved(s.env, d, s.caller, s.req, s.clock, s.txId, s.outcome, allow);
            v.1.reply == Some(r.1) && (!r.1.Crash? ==> v.0 == r.0)
  {
    hide ReleasedAfterFailure, SignEntry, ApprovedEntry, IndexOf, AuditLog.AppendRow;
    NonceRepo.ReserveThenRelease(d.ledger.nonces, s.Key());
  }

  function AfterGate(s: Signing, d: Db, l: Locals): View {
    var v3 := s.WedgeGuard(d, l);
    var v4 := s.ReadNonce(v3.0, v3.1);
    var v5 := s.WriteNonce(v4.0, v4.1);
    s.Finish(v5.0, v5.1)
  }

  /** From the positive decision on: what is read is what is written back incremented. */
  lemma AfterGateIsAllowed(s: Signing, d: Db, allow: Verdict)
    requires allow.Allow?
    ensures var v := AfterGate(s, d, Locals(None, Some(allow), None));
            var r := SignAllowed(s.env, d, s.caller, s.req, s.clock, s.txId, s.outcome, allow);
            v.1.reply == Some(r.1) && (!r.1.Crash? ==> v.0 == r.0)
  {
    hide ReleasedAfterFailure, SignEntry, SignReserved, HasStale, AuditLog.AppendRow, Signing.Finish;
    if !HasStale(d.ledger.txs, s.Key(), s.clock.now - s.env.settings.reservationLease) && s.Key() in d.ledger.nonces {
      FinishIsReserved(s, d, allow);
    } else {
      var v4 := s.ReadNonce(s.WedgeGuard(d, Locals(None, Some(allow), None)).0,
        s.WedgeGuard(d, Locals(None, Some(allow), None)).1);
      assert v4.1.reply.Some?;
      AnsweredStays(s, v4.0, v4.1);
    }
  }

  /** Once there is an answer no later statement does anything. */
  lemma AnsweredStays(s: Signing, d: Db, l: Locals)
    requires l.reply.Some?
    ensures s.Gate(d, l) == s.WedgeGuard(d, l) == s.ReadNonce(d, l) == s.WriteNonce(d, l) == s.Finish(d, l) == (d, l)
  {
  }

  lemma ThroughIsStep(s: Signing, d: Db)
    ensures var v := Through(s, d);
            var r := SignStep(s.env, d, s.caller, s.req, s.clock, s.txId, s.outcome);
            v.1.reply == Some(r.1) && (Commits(v.1) ==> v.0 == r.0)
  {
    hide Evaluation, SignAllowed, Replay, SignEntry, CapReason, DenyText, AuditLog.AppendRow, Signing.WedgeGuard,
      Signing.ReadNonce, Signing.WriteNonce, Signing.Finish;
    var v1 := s.LookUp(d, START);
    var v2 := s.Gate(v1.0, v1.1);
    if v2.1.reply.Some? {
      AnsweredStays(s, v2.0, v2.1);
    } else {
      AfterGateIsAllowed(s, v2.0, v2.1.allow.value);
    }
  }

  /** Run alone, the signing session commits what the signing step says. */
  lemma SigningOutcome(s: Signing, d: Db)
    ensures Outcome(SigningProgram(s), d) == SignStep(s.env, d, s.caller, s.req, s.clock, s.txId, s.outcome).0
  {
    hide Through, SignStep, Refusals.OneRefusalRow;
    SigningEffect(s, d);
    ThroughIsStep(s, d);
    Refusals.SignRefusalRow(s.env, d, s.caller, s.req, s.clock, s.txId, s.outcome);
  }

  // ---------- Every request ----------

  /** A request as one statement. Where the step leaves the database as it was, committing it is no
      different from rolling back. */
  function OneStatement(env: Env, ev: Event): Program<Db, Locals> {
    Program([(d: Db, l: Locals) => (Step(env, d, ev).0, l)], START, (l: Locals) => true, false)
  }

  function Handler(env: Env, ev: Event): Program<Db, Locals> {
    match ev
    case Sign(caller, req, clock, txId, outcome) => SigningProgram(Signing(env, caller, req, clock, txId, outcome))
    case _ => OneStatement(env, ev)
  }

  lemma OneStatementOutcome(env: Env, ev: Event, d: Db)
    ensures Outcome(OneStatement(env, ev), d) == Step(env, d, ev).0
  {
    hide Step;
    var p := OneStatement(env, ev);
    assert After(p, d, 0) == (d, START);
    assert After(p, d, 1) == p.statements[0](d, START);
  }

  lemma HandlerOutcome(env: Env, ev: Event, d: Db)
    ensures Outcome(Handler(env, ev), d) == Step(env, d, ev).0
  {
    hide SignStep, SigningProgram, OneStatement, Outcome;
    match ev {
      case Sign(caller, req, clock, txId, outcome) =>
        SigningOutcome(Signing(env, caller, req, clock, txId, outcome), d);
        StepOfSign(env, d, caller, req, clock, txId, outcome);
      case _ => OneStatementOutcome(env, ev, d);
    }
  }

  lemma StepOfSign(env: Env, d: Db, caller: Caller, req: SignRequest, clock: Clock, txId: string,
                   outcome: SignerOutcome)
    ensures Step(env, d, Sign(caller, req, clock, txId, outcome)).0 ==
      SignStep(env, d, caller, req, clock, txId, outcome).0
  {
    hide SignStep;
  }

  function HandlersOf(env: Env, evs: seq<Event>): seq<Program<Db, Locals>> {
    seq(|evs|, i requires 0 <= i < |evs| => Handler(env, evs[i]))
  }

  /** Any requests, interleaved in any way under the lock, leave committed what the run of those that ended,
      in the order in which they ended, leaves. */
  lemma HandlersAreSerial(env: Env, evs: seq<Event>, d: Db, actions: seq<Action>)
    requires Play(HandlersOf(env, evs), Initial(HandlersOf(env, evs), d), actions, true).Some?
    ensures var ps := HandlersOf(env, evs);
            var s := Play(ps, Initial(ps, d), actions, true).value;
            OrderOk(ps, s) && s.committed == Run(env, d, Pick(evs, s.order))
  {
    hide Step, Handler, Run, Play, Outcome;
    var ps := HandlersOf(env, evs);
    forall i, d' | 0 <= i < |ps| ensures Outcome(ps[i], d') == Step(env, d', evs[i]).0 {
      HandlerOutcome(env, evs[i], d');
    }
    ServiceIsSerial(env, ps, evs, d, actions);
  }
}
