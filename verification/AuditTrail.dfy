/** The audit log of every run: each request appends at most one row, every reachable log passes the walk
    over every window, and no other accepted log ends in the same hash. */
module AuditTrail {
  import opened Prelude
  import opened PolicySchema
  import opened Environment
  import opened Store
  import opened TransactionRepo
  import opened SignTransaction
  import opened Transactions
  import opened NonceAdmin
  import opened SignFspMessage
  import opened AuditLog
  import opened Service
  import PolicyEngine

  /** `after` is `before`, or `before` with one row appended. */
  ghost predicate AtMostOneRow(h: RowDigest, before: seq<Row>, after: seq<Row>) {
    after == before
    || (|after| == |before| + 1 && after == AppendRow(h, before, after[|before|].entry, after[|before|].ts))
  }

  lemma LoggedIsOneRow(env: Env, d: Db, e: Entry, clock: Clock)
    ensures AtMostOneRow(env.rowHash, d.audit, Logged(env, d, e, clock).audit)
  {
    var rows := Logged(env, d, e, clock).audit;
    assert rows[|d.audit|] == NewRow(env.rowHash, d.audit, e, clock.ts);
  }

  lemma FreshOneRow(env: Env, d: Db, caller: Caller, req: SignRequest, clock: Clock, txId: string,
                    outcome: SignerOutcome)
    ensures AtMostOneRow(env.rowHash, d.audit, SignFresh(env, d, caller, req, clock, txId, outcome).0.audit)
  {
    hide AtMostOneRow, AppendRow, PolicyEngine.Evaluation, PolicyEngine.ReleasedAfterFailure, SignEntry, ApprovedEntry,
      HasStale, WithSigned, NewTx, FieldsOf, CapReason, DenyText, IndexOf;
    assert AtMostOneRow(env.rowHash, d.audit, d.audit) by { SameIsAtMostOne(env.rowHash, d.audit); }
    forall d0: Db, e: Entry | d0.audit == d.audit
      ensures AtMostOneRow(env.rowHash, d.audit, Logged(env, d0, e, clock).audit) {
      LoggedIsOneRow(env, d0, e, clock);
    }
  }

  lemma SameIsAtMostOne(h: RowDigest, rows: seq<Row>)
    ensures AtMostOneRow(h, rows, rows)
  {
  }

  lemma SignOneRow(env: Env, d: Db, caller: Caller, req: SignRequest, clock: Clock, txId: string,
                   outcome: SignerOutcome)
    ensures AtMostOneRow(env.rowHash, d.audit, SignStep(env, d, caller, req, clock, txId, outcome).0.audit)
  {
    hide AtMostOneRow, AppendRow, SignFresh, SignEntry, ReplayEntry, RequestJson;
    SameIsAtMostOne(env.rowHash, d.audit);
    FreshOneRow(env, d, caller, req, clock, txId, outcome);
    forall e: Entry ensures AtMostOneRow(env.rowHash, d.audit, Logged(env, d, e, clock).audit) {
      LoggedIsOneRow(env, d, e, clock);
    }
  }

  lemma FspOneRow(env: Env, d: Db, caller: Caller, req: FspRequest, clock: Clock, outcome: SignerOutcome)
    ensures AtMostOneRow(env.rowHash, d.audit, FspStep(env, d, caller, req, clock, outcome).0.audit)
  {
    hide AtMostOneRow, AppendRow, FspEvaluation, FspEntry, Built, SignatureText, DenyText;
    SameIsAtMostOne(env.rowHash, d.audit);
    forall d0: Db, e: Entry | d0.audit == d.audit
      ensures AtMostOneRow(env.rowHash, d.audit, Logged(env, d0, e, clock).audit) {
      LoggedIsOneRow(env, d0, e, clock);
    }
  }

  lemma ReportOneRow(env: Env, d: Db, caller: Caller, clock: Clock, txId: string, txHash: string,
                     result: BroadcastOutcome,
                     errorClass: Option<string>, success: bool, n: int)
    ensures AtMostOneRow(env.rowHash, d.audit,
      BroadcastStep(env, d, caller, clock, txId, txHash, result, errorClass).0.audit)
    ensures AtMostOneRow(env.rowHash, d.audit, ReceiptStep(env, d, caller, clock, txId, txHash, success, n).0.audit)
  {
    hide AtMostOneRow, AppendRow, ReportGuard, BroadcastEntry, ReceiptEntry, ReceiptText, Sent, Dropped, Confirmed;
    SameIsAtMostOne(env.rowHash, d.audit);
    forall d0: Db, e: Entry | d0.audit == d.audit
      ensures AtMostOneRow(env.rowHash, d.audit, Logged(env, d0, e, clock).audit) {
      LoggedIsOneRow(env, d0, e, clock);
    }
  }

  lemma ReplaceOneRow(env: Env, d: Db, caller: Caller, clock: Clock, txId: string, body: ReplacementBody,
                      failure: Option<string>)
    ensures AtMostOneRow(env.rowHash, d.audit, ReplaceStep(env, d, caller, clock, txId, body, failure).0.audit)
  {
    hide AtMostOneRow, AppendRow, WhyRefused, RecordedData, RefusalEntry, ReplacementEntry, WithAttempt, IndexOf,
      ReplacementFields;
    SameIsAtMostOne(env.rowHash, d.audit);
    forall d0: Db, e: Entry | d0.audit == d.audit
      ensures AtMostOneRow(env.rowHash, d.audit, Logged(env, d0, e, clock).audit) {
      LoggedIsOneRow(env, d0, e, clock);
    }
  }

  lemma AdminOneRow(env: Env, d: Db, body: InitBody, k: NonceKey, count: int, clock: Clock)
    ensures AtMostOneRow(env.rowHash, d.audit, InitStep(env, d, body, clock).0.audit)
    ensures AtMostOneRow(env.rowHash, d.audit, SyncStep(env, d, k, count, clock).0.audit)
  {
    hide AtMostOneRow, AppendRow, CountInFlight, InitEntry, SyncEntry, FromTo;
    forall d0: Db, e: Entry | d0.audit == d.audit
      ensures AtMostOneRow(env.rowHash, d.audit, Logged(env, d0, e, clock).audit) {
      LoggedIsOneRow(env, d0, e, clock);
    }
  }

  /** No request writes two rows, none rewrites an old one. */
  lemma StepOneRow(env: Env, d: Db, ev: Event)
    ensures AtMostOneRow(env.rowHash, d.audit, Step(env, d, ev).0.audit)
  {
    hide SignStep, FspStep, ReceiptStep, BroadcastStep, ReplaceStep, InitStep, SyncStep, AtMostOneRow;
    match ev {
      case Sign(caller, req, clock, txId, outcome) => SignOneRow(env, d, caller, req, clock, txId, outcome);
      case SignFsp(caller, req, clock, outcome) => FspOneRow(env, d, caller, req, clock, outcome);
      case Broadcast(caller, clock, txId, h, result, e) =>
        ReportOneRow(env, d, caller, clock, txId, h, result, e, false, 0);
      case Receipt(caller, clock, txId, h, success, n) =>
        ReportOneRow(env, d, caller, clock, txId, h, Accepted, None, success, n);
      case Replace(caller, clock, txId, body, failure) => ReplaceOneRow(env, d, caller, clock, txId, body, failure);
      case Init(body, clock) => AdminOneRow(env, d, body, NonceKey("", 0), 0, clock);
      case Sync(k, count, clock) => AdminOneRow(env, d, InitBody("", 0, 0, false, false), k, count, clock);
      case Prune(_) => SameIsAtMostOne(env.rowHash, d.audit);
    }
  }

  lemma OneRowChains(h: RowDigest, before: seq<Row>, after: seq<Row>)
    requires Chained(h, before) && AtMostOneRow(h, before, after)
    ensures Chained(h, after) && before <= after
  {
    hide Chained, Recomputes;
    if after != before {
      AppendChains(h, before, after[|before|].entry, after[|before|].ts);
    }
  }

  lemma {:induction false} RunChains(env: Env, d: Db, evs: seq<Event>)
    requires Chained(env.rowHash, d.audit)
    ensures Chained(env.rowHash, Run(env, d, evs).audit) && d.audit <= Run(env, d, evs).audit
    decreases |evs|
  {
    hide Step, Chained, AtMostOneRow;
    if evs != [] {
      StepOneRow(env, d, evs[0]);
      OneRowChains(env.rowHash, d.audit, Step(env, d, evs[0]).0.audit);
      RunChains(env, Step(env, d, evs[0]).0, evs[1..]);
    }
  }

  /** Every reachable log verifies on every window, and a log that verifies and ends in the same hash is
      the same log in every hashed field. */
  lemma ReachableTrail(env: Env, d: Db, evs: seq<Event>, from: Option<int>, to: Option<int>, other: seq<Row>)
    requires d.audit == []
    ensures WindowOk(env.rowHash, Run(env, d, evs).audit, from, to)
    ensures var rows := Run(env, d, evs).audit;
            WindowOk(env.rowHash, other, None, None) && LastRowHash(other) == LastRowHash(rows)
            && NoCollision(env.rowHash, other, rows) && NoGenesis(env.rowHash, other) &&
               NoGenesis(env.rowHash, rows) ==>
              |other| == |rows| && forall k :: 0 <= k < |other| ==> SameHashed(other[k], rows[k])
  {
    hide Run, WindowOk, NoCollision, NoGenesis, SameHashed;
    RunChains(env, d, evs);
    var rows := Run(env, d, evs).audit;
    ChainedVerifies(env.rowHash, rows, from, to);
    ChainedVerifies(env.rowHash, rows, None, None);
    if WindowOk(env.rowHash, other, None, None) && LastRowHash(other) == LastRowHash(rows)
       && NoCollision(env.rowHash, other, rows) && NoGenesis(env.rowHash, other) && NoGenesis(env.rowHash, rows) {
      LastHashPinsHistory(env.rowHash, other, rows);
    }
  }
}
