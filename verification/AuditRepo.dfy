/** The repository over the audit_log table: append one linked row, walk a window. */
module AuditRepo {
  import opened Prelude
  import opened Store
  import opened AuditLog

  const VALID_ACTIONS: set<string> := {
    "sign-transaction", "sign-transaction-duplicate", "wallet-create", "wallet-import", "caller-create",
    "caller-revoke", "policy-load", "audit-verify-failure", "fsp-sign-message", "nonce-init", "nonce-sync",
    "tx-broadcast-result", "tx-receipt", "tx-replacement" }

  const VALID_DECISIONS: set<string> := { "approved", "denied", "error" }

  predicate ValidEntry(e: Entry) {
    e.action in VALID_ACTIONS && e.decision in VALID_DECISIONS
  }

  /** `firstBreakSeq` names the first row that fails; `upstreamBreak` is the separate verdict on a
      tampered anchor. */
  datatype VerifyResult = VerifyResult(
    ok: bool, rowsChecked: nat, firstBreakSeq: Option<int>, upstreamBreak: bool, upstreamBreakSeq: Option<int>)

  class Repo {
    const session: Session
    const rowHash: RowDigest

    constructor (session: Session, rowHash: RowDigest)
      ensures this.session == session && this.rowHash == rowHash
    {
      this.session := session;
      this.rowHash := rowHash;
    }

    method LastHash() returns (r: string)
      ensures r == LastRowHash(session.db.audit)
    {
      var rows := session.db.audit;
      r := if rows == [] then GENESIS else rows[|rows| - 1].rowHash;
    }

    /** None stands for the error on an unknown action or decision; the table is then untouched. */
    method Append(e: Entry, ts: Timestamp) returns (row: Option<Row>)
      modifies session`db
      ensures var d := old(session.db);
              if ValidEntry(e)
              then row == Some(NewRow(rowHash, d.audit, e, ts)) &&
                session.db == d.(audit := AppendRow(rowHash, d.audit, e, ts))
              else row == None && session.db == d
    {
      if e.action !in VALID_ACTIONS || e.decision !in VALID_DECISIONS {
        return None;
      }
      var utc := AsUtc(ts);
      var prev := LastHash();
      var h := RowHash(rowHash, prev, utc, e);
      var stored := Row(NextSeq(session.db.audit), Stored(utc), e, prev, h);
      session.db := session.db.(audit := session.db.audit + [stored]);
      row := Some(stored);
    }

    method Commit()
      modifies session
      ensures session.committed == session.db == old(session.db)
    {
      session.Commit();
    }

    method CountBelow(n: int) returns (k: nat)
      requires Ordered(session.db.audit)
      ensures k == Below(session.db.audit, n)
    {
      var rows := session.db.audit;
      k := 0;
      while k < |rows| && rows[k].seqNo < n
        invariant k <= |rows|
        invariant Below(rows, n) == k + Below(rows[k..], n)
      {
        assert rows[k..][1..] == rows[k + 1..];
        k := k + 1;
      }
    }

    /** The first row of `[lo, hi)` whose link to the row before it, or whose own hash, does not hold. */
    method FirstBadRow(lo: nat, hi: nat, anchor: string) returns (bad: Option<nat>)
      requires lo < hi <= |session.db.audit| && Anchor(session.db.audit, lo) == Some(anchor)
      ensures bad.None? ==> SliceOk(rowHash, session.db.audit, lo, hi)
      ensures bad.Some? ==> lo <= bad.value < hi && !RowOk(rowHash, session.db.audit, lo, bad.value)
      ensures bad.Some? ==> SliceOk(rowHash, session.db.audit, lo, bad.value)
    {
      var rows := session.db.audit;
      var expectedPrev := anchor;
      var i := lo;
      while i < hi
        invariant lo <= i <= hi
        invariant expectedPrev == if i > lo then rows[i - 1].rowHash else anchor
        invariant SliceOk(rowHash, rows, lo, i)
      {
        if rows[i].prevHash != expectedPrev {
          return Some(i);
        }
        if RowHash(rowHash, rows[i].prevHash, AsUtc(rows[i].ts), rows[i].entry) != rows[i].rowHash {
          return Some(i);
        }
        expectedPrev := rows[i].rowHash;
        i := i + 1;
      }
      bad := None;
    }

    /** A walk reports success exactly when every row of the window links and recomputes; otherwise it
        names the least row that does not, having read no further. A missing anchor counts against the
        first row. The verdict on a tampered anchor is never given: the first row's link fails first. */
    method Verify(from: Option<int>, to: Option<int>) returns (r: VerifyResult)
      requires Ordered(session.db.audit)
      ensures r.ok <==> WindowOk(rowHash, session.db.audit, from, to)
      ensures r.ok ==> r.firstBreakSeq == None
      ensures r.ok ==> r.rowsChecked == Length(Lo(session.db.audit, from), Hi(session.db.audit, to))
      ensures !r.ok ==> var lo := Lo(session.db.audit, from);
                && 0 < r.rowsChecked <= Length(lo, Hi(session.db.audit, to))
                && r.firstBreakSeq == Some(session.db.audit[lo + r.rowsChecked - 1].seqNo)
                && !RowOk(rowHash, session.db.audit, lo, lo + r.rowsChecked - 1)
                && SliceOk(rowHash, session.db.audit, lo, lo + r.rowsChecked - 1)
      ensures !r.upstreamBreak && r.upstreamBreakSeq == None
    {
      hide Below, Recomputes, RowHash;
      var rows := session.db.audit;
      var lo, hi := 0, |rows|;
      if from != None {
        lo := CountBelow(from.value);
      }
      if to != None {
        hi := CountBelow(to.value + 1);
      }
      if lo >= hi {
        return VerifyResult(true, 0, None, false, None);
      }
      var upstream, upstreamSeq, anchor := false, None, GENESIS;
      if lo != 0 {
        if rows[lo - 1].seqNo != rows[lo].seqNo - 1 {
          assert !RowOk(rowHash, rows, lo, lo);
          return VerifyResult(false, 1, Some(rows[lo].seqNo), false, None);
        }
        anchor := rows[lo - 1].rowHash;
        if anchor != rows[lo].prevHash {
          upstream, upstreamSeq := true, Some(rows[lo].seqNo - 1);
        }
      }
      assert upstream ==> !RowOk(rowHash, rows, lo, lo);
      var bad := FirstBadRow(lo, hi, anchor);
      if bad != None {
        return VerifyResult(false, bad.value - lo + 1, Some(rows[bad.value].seqNo), false, None);
      }
      assert RowOk(rowHash, rows, lo, lo);
      r := VerifyResult(!upstream, hi - lo, upstreamSeq, upstream, upstreamSeq);
    }
  }

  function Length(lo: nat, hi: nat): nat {
    if lo < hi then hi - lo else 0
  }
}
