/** Rate windows and the arithmetic of the three bucket tables. A missing row counts as zero. */
module RateWindows {
  import opened Prelude
  import opened PolicySchema
  import opened Store

  const HOUR: int := 3_600_000_000
  const DAY: int := 24 * HOUR

  function WindowStart(kind: WindowKind, now: int): int {
    match kind
    case Hour => now - now % HOUR
    case Day => now - now % DAY
  }

  /** The window of an instant starts at the one whole hour, or whole day, of the epoch that is at most that long before
      it; times are in microseconds. */
  lemma WindowIsExact(kind: WindowKind, now: int, start: int)
    ensures start == WindowStart(kind, now) <==>
              var length := if kind == Hour then 3_600_000_000 else 86_400_000_000;
              start % length == 0 && start <= now < start + length
  {
    var length := if kind == Hour then HOUR else DAY;
    if start % length == 0 && start <= now < start + length {
      var q, k := start / length, now / length;
      assert start == q * length && now == k * length + now % length;
      assert q == k;
    }
  }

  /** The configured windows with their caps, hour first. */
  function Windows(rate: RateLimit): seq<(WindowKind, int)> {
    (if rate.perHour.Some? then [(Hour, rate.perHour.value)] else []) +
    (if rate.perDay.Some? then [(Day, rate.perDay.value)] else [])
  }

  function Cap(rate: RateLimit, kind: WindowKind): Option<int> {
    match kind
    case Hour => rate.perHour
    case Day => rate.perDay
  }

  // ---------- Counters ----------

  function Key<S>(subject: S, kind: WindowKind, now: int): BucketKey<S> {
    BucketKey(subject, kind, WindowStart(kind, now))
  }

  function Counter<S(==)>(m: Counters<S>, k: BucketKey<S>): nat {
    if k in m then m[k] else 0
  }

  predicate Room<S(==)>(m: Counters<S>, subject: S, ws: seq<(WindowKind, int)>, now: int) {
    forall i :: 0 <= i < |ws| ==> Counter(m, Key(subject, ws[i].0, now)) < ws[i].1
  }

  function Bump<S(==)>(m: Counters<S>, subject: S, ws: seq<(WindowKind, int)>, now: int): Counters<S> {
    if ws == [] then m
    else
      var m' := Bump(m, subject, ws[..|ws| - 1], now);
      var k := Key(subject, ws[|ws| - 1].0, now);
      m'[k := Counter(m', k) + 1]
  }

  function Drop<S(==)>(m: Counters<S>, subject: S, ws: seq<(WindowKind, int)>, now: int): Counters<S> {
    if ws == [] then m
    else
      var m' := Drop(m, subject, ws[..|ws| - 1], now);
      var k := Key(subject, ws[|ws| - 1].0, now);
      if Counter(m', k) > 0 then m'[k := m'[k] - 1] else m'
  }

  /** All windows have room and all are incremented, or none is; no configured rate admits nothing. */
  function CheckAndIncrement<S(==)>(m: Counters<S>, subject: S, rate: Option<RateLimit>,
                                    now: int): Option<Counters<S>> {
    match rate
    case None => None
    case Some(r) => if Room(m, subject, Windows(r), now) then Some(Bump(m, subject, Windows(r), now)) else None
  }

  function ReleaseCounters<S(==)>(m: Counters<S>, subject: S, rate: Option<RateLimit>, now: int): Counters<S> {
    match rate
    case None => m
    case Some(r) => Drop(m, subject, Windows(r), now)
  }

  /** The window of `k` is one that a request of `subject` at `now` under `rate` counts in. */
  predicate Hits<S(==)>(k: BucketKey<S>, subject: S, rate: RateLimit, now: int) {
    k.subject == subject && Cap(rate, k.kind).Some? && k.start == WindowStart(k.kind, now)
  }

  lemma OneWindow<S>(m: Counters<S>, subject: S, w: (WindowKind, int), now: int, k: BucketKey<S>)
    ensures Counter(Bump(m, subject, [w], now), k) == Counter(m, k) + if k == Key(subject, w.0, now) then 1 else 0
    ensures Counter(Drop(m, subject, [w], now), k)
         == if k == Key(subject, w.0, now) && Counter(m, k) > 0 then Counter(m, k) - 1 else Counter(m, k)
  {
    assert [w][..0] == [];
  }

  lemma TwoWindows<S>(m: Counters<S>, subject: S, v: (WindowKind, int), w: (WindowKind, int), now: int)
    ensures Bump(m, subject, [v, w], now) == Bump(Bump(m, subject, [v], now), subject, [w], now)
    ensures Drop(m, subject, [v, w], now) == Drop(Drop(m, subject, [v], now), subject, [w], now)
  {
    assert [v, w][..1] == [v];
    assert [w][..0] == [];
  }

  /** An admission adds one to exactly the windows it hits. */
  lemma BumpCounter<S>(m: Counters<S>, subject: S, rate: RateLimit, now: int, k: BucketKey<S>)
    ensures Counter(Bump(m, subject, Windows(rate), now), k)
         == Counter(m, k) + if Hits(k, subject, rate, now) then 1 else 0
  {
    var ws := Windows(rate);
    if |ws| == 1 {
      OneWindow(m, subject, ws[0], now, k);
      assert ws == [ws[0]];
    } else if |ws| == 2 {
      OneWindow(m, subject, ws[0], now, k);
      OneWindow(Bump(m, subject, [ws[0]], now), subject, ws[1], now, k);
      TwoWindows(m, subject, ws[0], ws[1], now);
      assert ws == [ws[0], ws[1]];
    }
  }

  /** A release takes one from exactly the windows it hits, never below zero. */
  lemma DropCounter<S>(m: Counters<S>, subject: S, rate: RateLimit, now: int, k: BucketKey<S>)
    ensures Counter(Drop(m, subject, Windows(rate), now), k)
         == if Hits(k, subject, rate, now) && Counter(m, k) > 0 then Counter(m, k) - 1 else Counter(m, k)
  {
    var ws := Windows(rate);
    if |ws| == 1 {
      OneWindow(m, subject, ws[0], now, k);
      assert ws == [ws[0]];
    } else if |ws| == 2 {
      OneWindow(m, subject, ws[0], now, k);
      OneWindow(Drop(m, subject, [ws[0]], now), subject, ws[1], now, k);
      TwoWindows(m, subject, ws[0], ws[1], now);
      assert ws == [ws[0], ws[1]];
    }
  }

  /** What an admitted request leaves in a window it hits is within the cap. */
  lemma AdmittedWithinCap<S>(m: Counters<S>, subject: S, rate: RateLimit, now: int, k: BucketKey<S>)
    requires Room(m, subject, Windows(rate), now) && Hits(k, subject, rate, now)
    ensures Counter(m, k) < Cap(rate, k.kind).value
  {
    var ws := Windows(rate);
    assert (k.kind, Cap(rate, k.kind).value) in ws;
    var i :| 0 <= i < |ws| && ws[i] == (k.kind, Cap(rate, k.kind).value);
    assert Counter(m, Key(subject, ws[i].0, now)) < ws[i].1;
  }

  // ---------- Wallet buckets ----------

  function WalletCounter(m: WalletBuckets, k: BucketKey<string>): nat {
    if k in m then m[k].counter else 0
  }

  function Aggregate(m: WalletBuckets, k: BucketKey<string>): int {
    if k in m then m[k].aggregateValueWei else 0
  }

  predicate WalletRoom(m: WalletBuckets, wallet: string, ws: seq<(WindowKind, int)>, now: int) {
    forall i :: 0 <= i < |ws| ==> WalletCounter(m, Key(wallet, ws[i].0, now)) < ws[i].1
  }

  function WalletBump(m: WalletBuckets, wallet: string, ws: seq<(WindowKind, int)>, now: int): WalletBuckets {
    if ws == [] then m
    else
      var m' := WalletBump(m, wallet, ws[..|ws| - 1], now);
      var k := Key(wallet, ws[|ws| - 1].0, now);
      m'[k := WalletBucket(WalletCounter(m', k) + 1, Aggregate(m', k))]
  }

  function WalletDrop(m: WalletBuckets, wallet: string, ws: seq<(WindowKind, int)>, now: int): WalletBuckets {
    if ws == [] then m
    else
      var m' := WalletDrop(m, wallet, ws[..|ws| - 1], now);
      var k := Key(wallet, ws[|ws| - 1].0, now);
      if WalletCounter(m', k) > 0 then m'[k := m'[k].(counter := m'[k].counter - 1)] else m'
  }

  datatype WalletCheck = Admitted(buckets: WalletBuckets) | Refused | BadCap

  /** The daily value cap first, then the rate windows; the aggregate itself is not touched here.
      `BadCap` stands for the error raised on a cap that is not a decimal integer. */
  function CheckAndIncrementWallet(
    m: WalletBuckets, wallet: string, constraint: Option<WalletConstraint>, valueWei: int, now: int,
    parseInt: string -> Option<int>): WalletCheck
  {
    match constraint
    case None => Refused
    case Some(c) =>
      var cap := if c.maxAggregateValueWeiPerDay.Some? then parseInt(c.maxAggregateValueWeiPerDay.value) else None;
      if c.maxAggregateValueWeiPerDay.Some? && cap.None? then BadCap
      else if cap.Some? && Aggregate(m, Key(wallet, Day, now)) + valueWei > cap.value then Refused
      else if c.rate.None? then Admitted(m)
      else if WalletRoom(m, wallet, Windows(c.rate.value), now)
      then Admitted(WalletBump(m, wallet, Windows(c.rate.value), now))
      else Refused
  }

  function ReleaseWalletBuckets(m: WalletBuckets, wallet: string, constraint: Option<WalletConstraint>,
                                now: int): WalletBuckets {
    if constraint.None? || constraint.value.rate.None? then m
    else WalletDrop(m, wallet, Windows(constraint.value.rate.value), now)
  }

  function AddCommitted(m: WalletBuckets, wallet: string, valueWei: int, now: int): WalletBuckets {
    var k := Key(wallet, Day, now);
    m[k := WalletBucket(WalletCounter(m, k), Aggregate(m, k) + valueWei)]
  }

  lemma OneWalletWindow(m: WalletBuckets, wallet: string, w: (WindowKind, int), now: int, k: BucketKey<string>)
    ensures var m' := WalletBump(m, wallet, [w], now);
            && WalletCounter(m', k) == WalletCounter(m, k) + (if k == Key(wallet, w.0, now) then 1 else 0)
            && Aggregate(m', k) == Aggregate(m, k)
    ensures var m' := WalletDrop(m, wallet, [w], now);
            && WalletCounter(m', k) == (if k == Key(wallet, w.0, now) && WalletCounter(m, k) > 0
                                        then WalletCounter(m, k) - 1 else WalletCounter(m, k))
            && Aggregate(m', k) == Aggregate(m, k)
  {
    assert [w][..0] == [];
  }

  lemma TwoWalletWindows(m: WalletBuckets, wallet: string, v: (WindowKind, int), w: (WindowKind, int), now: int)
    ensures WalletBump(m, wallet, [v, w], now) == WalletBump(WalletBump(m, wallet, [v], now), wallet, [w], now)
    ensures WalletDrop(m, wallet, [v, w], now) == WalletDrop(WalletDrop(m, wallet, [v], now), wallet, [w], now)
  {
    assert [v, w][..1] == [v];
    assert [w][..0] == [];
  }

  /** Counting a signing never disturbs the committed value. */
  lemma WalletBumpEffect(m: WalletBuckets, wallet: string, rate: RateLimit, now: int, k: BucketKey<string>)
    ensures var m' := WalletBump(m, wallet, Windows(rate), now);
            && WalletCounter(m', k) == WalletCounter(m, k) + (if Hits(k, wallet, rate, now) then 1 else 0)
            && Aggregate(m', k) == Aggregate(m, k)
  {
    var ws := Windows(rate);
    if |ws| == 1 {
      OneWalletWindow(m, wallet, ws[0], now, k);
      assert ws == [ws[0]];
    } else if |ws| == 2 {
      OneWalletWindow(m, wallet, ws[0], now, k);
      OneWalletWindow(WalletBump(m, wallet, [ws[0]], now), wallet, ws[1], now, k);
      TwoWalletWindows(m, wallet, ws[0], ws[1], now);
      assert ws == [ws[0], ws[1]];
    }
  }

  lemma WalletDropEffect(m: WalletBuckets, wallet: string, rate: RateLimit, now: int, k: BucketKey<string>)
    ensures var m' := WalletDrop(m, wallet, Windows(rate), now);
            && WalletCounter(m', k) == (if Hits(k, wallet, rate, now) && WalletCounter(m, k) > 0
                                        then WalletCounter(m, k) - 1 else WalletCounter(m, k))
            && Aggregate(m', k) == Aggregate(m, k)
  {
    var ws := Windows(rate);
    if |ws| == 1 {
      OneWalletWindow(m, wallet, ws[0], now, k);
      assert ws == [ws[0]];
    } else if |ws| == 2 {
      OneWalletWindow(m, wallet, ws[0], now, k);
      OneWalletWindow(WalletDrop(m, wallet, [ws[0]], now), wallet, ws[1], now, k);
      TwoWalletWindows(m, wallet, ws[0], ws[1], now);
      assert ws == [ws[0], ws[1]];
    }
  }

  lemma WalletAdmittedWithinCap(m: WalletBuckets, wallet: string, rate: RateLimit, now: int, k: BucketKey<string>)
    requires WalletRoom(m, wallet, Windows(rate), now) && Hits(k, wallet, rate, now)
    ensures WalletCounter(m, k) < Cap(rate, k.kind).value
  {
    var ws := Windows(rate);
    assert (k.kind, Cap(rate, k.kind).value) in ws;
    var i :| 0 <= i < |ws| && ws[i] == (k.kind, Cap(rate, k.kind).value);
    assert WalletCounter(m, Key(wallet, ws[i].0, now)) < ws[i].1;
  }

  // ---------- Pruning ----------

  function DeleteStale(b: Buckets, before: int): Buckets {
    Buckets(map k | k in b.callers && k.start >= before :: b.callers[k],
            map k | k in b.wallets && k.start >= before :: b.wallets[k],
            map k | k in b.fsp && k.start >= before :: b.fsp[k])
  }
}
