/** The hash-chained audit log: what a row hashes, what appending does, and what a walk over a window
    of the table checks. `AuditRepo` holds the methods that run on a session. */
module AuditLog {
  import opened Prelude
  import opened CanonicalJson

  /** SHA-256 of UTF-8 text, as 64 hexadecimal characters. */
  type Digest = string -> string

  const GENESIS: string := "0000000000000000000000000000000000000000000000000000000000000000"

  /** A point in time as text, with or without its UTC offset. The database column keeps the text only. */
  datatype Timestamp = Timestamp(text: string, utc: bool)

  function AsUtc(t: Timestamp): Timestamp {
    t.(utc := true)
  }

  function Stored(t: Timestamp): Timestamp {
    t.(utc := false)
  }

  function IsoFormat(t: Timestamp): string {
    t.text + if t.utc then "+00:00" else ""
  }

  datatype Entry = Entry(
    caller: Option<string>, action: string, requestJson: Option<string>,
    decision: string, reason: Option<string>, outcome: Option<string>)

  datatype Row = Row(seqNo: int, ts: Timestamp, entry: Entry, prevHash: string, rowHash: string)

  function Nullable(o: Option<string>): Value {
    match o
    case None => Null
    case Some(s) => Str(s)
  }

  function RowFields(prevHash: string, ts: string, e: Entry): seq<Field> {
    [Field("prev_hash", Str(prevHash)), Field("ts", Str(ts)), Field("caller", Nullable(e.caller)),
     Field("action", Str(e.action)), Field("request_json", Nullable(e.requestJson)),
     Field("decision", Str(e.decision)), Field("decision_reason", Nullable(e.reason)),
     Field("outcome", Nullable(e.outcome))]
  }

  /** The hash of a row as a function of its previous hash, the text of its UTC timestamp and its entry. */
  type RowDigest = (string, string, Entry) -> string

  function RowDigestOf(sha256: Digest): RowDigest {
    (prevHash: string, ts: string, e: Entry) => sha256(Canonical(RowFields(prevHash, ts, e)))
  }

  function RowHash(h: RowDigest, prevHash: string, ts: Timestamp, e: Entry): string {
    h(prevHash, IsoFormat(ts), e)
  }

  lemma RowFieldsDistinct(p: string, t: string, e: Entry)
    ensures DistinctKeys(RowFields(p, t, e))
  {
    var fs := RowFields(p, t, e);
    assert |fs[0].key| == 9 && |fs[1].key| == 2 && |fs[2].key| == 6 && |fs[3].key| == 6 && fs[2].key[0] != fs[3].key[0];
    assert |fs[4].key| == 12 && |fs[5].key| == 8 && |fs[6].key| == 15 && |fs[7].key| == 7;
  }

  lemma RowFieldsInjective(p: string, t: string, e: Entry, p': string, t': string, e': Entry)
    requires RowFields(p, t, e) == RowFields(p', t', e')
    ensures p == p' && t == t' && e == e'
  {
    var a, b := RowFields(p, t, e), RowFields(p', t', e');
    assert a[0].value == b[0].value && a[1].value == b[1].value && a[2].value == b[2].value;
    assert a[3].value == b[3].value && a[4].value == b[4].value && a[5].value == b[5].value;
    assert a[6].value == b[6].value && a[7].value == b[7].value;
  }

  /** Distinct rows have distinct hash inputs. */
  lemma RowInputInjective(p: string, t: string, e: Entry, p': string, t': string, e': Entry)
    requires Canonical(RowFields(p, t, e)) == Canonical(RowFields(p', t', e'))
    ensures p == p' && t == t' && e == e'
  {
    hide Canonical;
    RowFieldsDistinct(p, t, e);
    RecordInjective(RowFields(p, t, e), RowFields(p', t', e'));
    RowFieldsInjective(p, t, e, p', t', e');
  }

  /** The text that is hashed names every column of the row, and each can be read back from it. */
  lemma HashedTextReadsBack(p: string, t: string, e: Entry)
    ensures var r := Loads(Canonical(RowFields(p, t, e)));
            && r.Some?
            && Get(r.value, "prev_hash") == Some(Str(p)) && Get(r.value, "ts") == Some(Str(t))
            && Get(r.value, "caller") == Some(Nullable(e.caller)) && Get(r.value, "action") == Some(Str(e.action))
            && Get(r.value, "request_json") == Some(Nullable(e.requestJson))
            && Get(r.value, "decision") == Some(Str(e.decision))
            && Get(r.value, "decision_reason") == Some(Nullable(e.reason))
            && Get(r.value, "outcome") == Some(Nullable(e.outcome))
  {
    RowFieldsDistinct(p, t, e);
    var fs := RowFields(p, t, e);
    hide Loads, Canonical, Get, DistinctKeys;
    LoadsGet(fs, fs[0]);
    LoadsGet(fs, fs[1]);
    LoadsGet(fs, fs[2]);
    LoadsGet(fs, fs[3]);
    LoadsGet(fs, fs[4]);
    LoadsGet(fs, fs[5]);
    LoadsGet(fs, fs[6]);
    LoadsGet(fs, fs[7]);
  }

  // ---------- Appending ----------

  /** The table in ascending `seq` order. */
  ghost predicate Ordered(rows: seq<Row>) {
    forall i, j :: 0 <= i < j < |rows| ==> rows[i].seqNo < rows[j].seqNo
  }

  function LastRowHash(rows: seq<Row>): string {
    if rows == [] then GENESIS else rows[|rows| - 1].rowHash
  }

  function NextSeq(rows: seq<Row>): int {
    if rows == [] then 1 else rows[|rows| - 1].seqNo + 1
  }

  function NewRow(h: RowDigest, rows: seq<Row>, e: Entry, ts: Timestamp): Row {
    Row(NextSeq(rows), Stored(AsUtc(ts)), e, LastRowHash(rows), RowHash(h, LastRowHash(rows), AsUtc(ts), e))
  }

  function AppendRow(h: RowDigest, rows: seq<Row>, e: Entry, ts: Timestamp): seq<Row> {
    rows + [NewRow(h, rows, e, ts)]
  }

  // ---------- Walking ----------

  predicate Recomputes(h: RowDigest, r: Row) {
    RowHash(h, r.prevHash, AsUtc(r.ts), r.entry) == r.rowHash
  }

  /** How many rows come before sequence number `n`. */
  function Below(rows: seq<Row>, n: int): (k: nat)
    ensures k <= |rows|
  {
    if rows == [] || rows[0].seqNo >= n then 0 else 1 + Below(rows[1..], n)
  }

  function Lo(rows: seq<Row>, from: Option<int>): (k: nat)
    ensures k <= |rows|
  {
    match from
    case None => 0
    case Some(n) => Below(rows, n)
  }

  function Hi(rows: seq<Row>, to: Option<int>): (k: nat)
    ensures k <= |rows|
  {
    match to
    case None => |rows|
    case Some(n) => Below(rows, n + 1)
  }

  /** What the first row of a window must link to: genesis for the first row of the table, else the row
      whose number is one less, if there is one. */
  function Anchor(rows: seq<Row>, lo: nat): Option<string>
    requires lo < |rows|
  {
    if lo == 0 then Some(GENESIS)
    else if rows[lo - 1].seqNo == rows[lo].seqNo - 1 then Some(rows[lo - 1].rowHash)
    else None
  }

  predicate RowOk(h: RowDigest, rows: seq<Row>, lo: nat, i: nat)
    requires lo <= i < |rows|
  {
    && (if i == lo then Anchor(rows, lo) == Some(rows[i].prevHash) else rows[i].prevHash == rows[i - 1].rowHash)
    && Recomputes(h, rows[i])
  }

  ghost predicate SliceOk(h: RowDigest, rows: seq<Row>, lo: nat, hi: nat)
    requires hi <= |rows|
  {
    forall i :: lo <= i < hi ==> RowOk(h, rows, lo, i)
  }

  ghost predicate WindowOk(h: RowDigest, rows: seq<Row>, from: Option<int>, to: Option<int>) {
    SliceOk(h, rows, Lo(rows, from), Hi(rows, to))
  }

  /** `Below` is the cut point of an ordered table. */
  lemma {:induction false} BelowCuts(rows: seq<Row>, n: int, i: nat)
    requires Ordered(rows) && i < |rows|
    ensures i < Below(rows, n) <==> rows[i].seqNo < n
  {
    if rows[0].seqNo < n && i > 0 {
      BelowCuts(rows[1..], n, i - 1);
    }
  }

  // ---------- Logs built by appending ----------

  ghost predicate Chained(h: RowDigest, rows: seq<Row>) {
    forall i :: 0 <= i < |rows| ==>
      && rows[i].seqNo == i + 1
      && rows[i].prevHash == (if i == 0 then GENESIS else rows[i - 1].rowHash)
      && Recomputes(h, rows[i])
  }

  /** The stored timestamp has lost its offset; hashing it as UTC again reproduces the appended hash. */
  lemma AppendChains(h: RowDigest, rows: seq<Row>, e: Entry, ts: Timestamp)
    requires Chained(h, rows)
    ensures Chained(h, AppendRow(h, rows, e, ts))
  {
    assert AsUtc(Stored(AsUtc(ts))) == AsUtc(ts);
  }

  /** A log built by appending alone passes the walk over every window. */
  lemma ChainedVerifies(h: RowDigest, rows: seq<Row>, from: Option<int>, to: Option<int>)
    requires Chained(h, rows)
    ensures Ordered(rows) && WindowOk(h, rows, from, to)
  {
    var lo := Lo(rows, from);
    forall i | lo <= i < Hi(rows, to) ensures RowOk(h, rows, lo, i) {
      assert i > 0 ==> rows[i - 1].seqNo == rows[i].seqNo - 1;
    }
  }

  // ---------- Windows compose ----------

  /** No sequence number is missing between the last row up to `m` and the first row after it. */
  ghost predicate NoGapAfter(rows: seq<Row>, m: int) {
    var k := Below(rows, m + 1);
    0 < k < |rows| ==> rows[k - 1].seqNo + 1 == rows[k].seqNo
  }

  /** A full walk passes with no gap at `m` exactly when the walks up to `m` and from `m + 1` both pass. */
  lemma WindowsCompose(h: RowDigest, rows: seq<Row>, m: int)
    requires Ordered(rows)
    ensures WindowOk(h, rows, None, None) && NoGapAfter(rows, m)
       <==> WindowOk(h, rows, None, Some(m)) && WindowOk(h, rows, Some(m + 1), None)
  {
    var k := Below(rows, m + 1);
    if WindowOk(h, rows, None, Some(m)) && WindowOk(h, rows, Some(m + 1), None) {
      assert k < |rows| ==> RowOk(h, rows, k, k);
      forall i | 0 <= i < |rows| ensures RowOk(h, rows, 0, i) {
        if i > k { assert RowOk(h, rows, k, i); }
      }
    } else if WindowOk(h, rows, None, None) && NoGapAfter(rows, m) {
      forall i | k <= i < |rows| ensures RowOk(h, rows, k, i) {
        assert RowOk(h, rows, 0, i);
      }
    }
  }

  // ---------- Tamper evidence ----------

  ghost predicate SameHashed(a: Row, b: Row) {
    a.prevHash == b.prevHash && a.ts.text == b.ts.text && a.entry == b.entry && a.rowHash == b.rowHash
  }

  /** The hash that row `r` should carry. */
  function HashOfRow(h: RowDigest, r: Row): string {
    RowHash(h, r.prevHash, AsUtc(r.ts), r.entry)
  }

  predicate SameInput(a: Row, b: Row) {
    a.prevHash == b.prevHash && a.ts.text == b.ts.text && a.entry == b.entry
  }

  /** No row of `a` and row of `b` are a collision. */
  ghost predicate NoCollision(h: RowDigest, a: seq<Row>, b: seq<Row>) {
    forall i, j :: 0 <= i < |a| && 0 <= j < |b| && HashOfRow(h, a[i]) == HashOfRow(h, b[j]) ==> SameInput(a[i], b[j])
  }

  ghost predicate NoGenesis(h: RowDigest, rows: seq<Row>) {
    forall i :: 0 <= i < |rows| ==> HashOfRow(h, rows[i]) != GENESIS
  }

  /** The text that SHA-256 is applied to for row `r`. */
  function RowText(r: Row): string {
    Canonical(RowFields(r.prevHash, IsoFormat(AsUtc(r.ts)), r.entry))
  }

  /** The canonical text adds no collision of its own: rows collide only where the text hash does. */
  lemma TextsSeparateRows(sha256: Digest, a: seq<Row>, b: seq<Row>)
    requires forall i, j :: 0 <= i < |a| && 0 <= j < |b| && sha256(RowText(a[i])) == sha256(RowText(b[j])) ==>
      RowText(a[i]) == RowText(b[j])
    ensures NoCollision(RowDigestOf(sha256), a, b)
  {
    hide Canonical, RowFields;
    forall i, j | 0 <= i < |a| && 0 <= j < |b| &&
      HashOfRow(RowDigestOf(sha256), a[i]) == HashOfRow(RowDigestOf(sha256), b[j])
      ensures SameInput(a[i], b[j])
    {
      assert sha256(RowText(a[i])) == sha256(RowText(b[j]));
      RowInputInjective(a[i].prevHash, IsoFormat(AsUtc(a[i].ts)), a[i].entry, b[j].prevHash, IsoFormat(AsUtc(b[j].ts)),
                        b[j].entry);
      SuffixDeterminesText(a[i].ts.text, b[j].ts.text, "+00:00");
    }
  }

  lemma SuffixDeterminesText(a: string, b: string, suffix: string)
    requires a + suffix == b + suffix
    ensures a == b
  {
    assert |a| == |b|;
    assert a == (a + suffix)[..|a|] && b == (b + suffix)[..|b|];
  }

  /** Equal row hashes at two positions of accepted chains force the two histories to agree back to genesis,
      or the two tables themselves contain a collision. */
  lemma {:induction false} EqualHashEqualPast(h: RowDigest, a: seq<Row>, b: seq<Row>, i: nat, j: nat)
    requires NoCollision(h, a, b) && NoGenesis(h, a) && NoGenesis(h, b)
    requires WindowOk(h, a, None, None) && WindowOk(h, b, None, None)
    requires i < |a| && j < |b| && a[i].rowHash == b[j].rowHash
    ensures i == j && forall k :: 0 <= k <= i ==> SameHashed(a[k], b[k])
    decreases i
  {
    hide RowHash, AsUtc;
    assert RowOk(h, a, 0, i) && RowOk(h, b, 0, j);
    if i > 0 { assert RowOk(h, a, 0, i - 1); }
    if j > 0 { assert RowOk(h, b, 0, j - 1); }
    if i > 0 && j > 0 {
      EqualHashEqualPast(h, a, b, i - 1, j - 1);
    }
  }

  /** Two accepted full chains with the same last row hash have the same length and the same content, or
      contain a collision. */
  lemma LastHashPinsHistory(h: RowDigest, a: seq<Row>, b: seq<Row>)
    requires NoCollision(h, a, b) && NoGenesis(h, a) && NoGenesis(h, b)
    requires WindowOk(h, a, None, None) && WindowOk(h, b, None, None)
    requires LastRowHash(a) == LastRowHash(b)
    ensures |a| == |b| && forall k :: 0 <= k < |a| ==> SameHashed(a[k], b[k])
  {
    if a != [] { assert RowOk(h, a, 0, |a| - 1); }
    if b != [] { assert RowOk(h, b, 0, |b| - 1); }
    if a != [] && b != [] {
      EqualHashEqualPast(h, a, b, |a| - 1, |b| - 1);
    }
  }
}
