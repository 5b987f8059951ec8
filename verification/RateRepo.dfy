/** The repository over the rate, wallet and FSP bucket tables: two passes over the configured windows,
    the first to check, the second to count. */
module RateRepo {
  import opened Prelude
  import opened PolicySchema
  import opened Store
  import opened RateWindows

  method ConfiguredWindows(rate: RateLimit) returns (windows: seq<(WindowKind, int)>)
    ensures windows == Windows(rate)
  {
    windows := [];
    if rate.perHour != None {
      windows := windows + [(Hour, rate.perHour.value)];
    }
    if rate.perDay != None {
      windows := windows + [(Day, rate.perDay.value)];
    }
  }

  method AllHaveRoom<S(==)>(m: Counters<S>, subject: S, windows: seq<(WindowKind, int)>, now: int) returns (ok: bool)
    ensures ok == Room(m, subject, windows, now)
  {
    for i := 0 to |windows|
      invariant forall j :: 0 <= j < i ==> Counter(m, Key(subject, windows[j].0, now)) < windows[j].1
    {
      var k := BucketKey(subject, windows[i].0, WindowStart(windows[i].0, now));
      var current := if k in m then m[k] else 0;
      if current >= windows[i].1 {
        assert !(Counter(m, Key(subject, windows[i].0, now)) < windows[i].1);
        return false;
      }
    }
    ok := true;
  }

  method CountAll<S(==)>(m: Counters<S>, subject: S, windows: seq<(WindowKind, int)>,
                         now: int) returns (m': Counters<S>)
    ensures m' == Bump(m, subject, windows, now)
  {
    m' := m;
    for i := 0 to |windows|
      invariant m' == Bump(m, subject, windows[..i], now)
    {
      assert windows[..i + 1][..i] == windows[..i];
      var k := BucketKey(subject, windows[i].0, WindowStart(windows[i].0, now));
      m' := m'[k := if k in m' then m'[k] + 1 else 1];
    }
    assert windows[..|windows|] == windows;
  }

  /** One check-then-count pass over a counter table; the caller and FSP tables share its statements. */
  method CountWindows<S(==)>(m: Counters<S>, subject: S, rate: Option<RateLimit>, now: int)
    returns (ok: bool, m': Counters<S>)
    ensures ok == CheckAndIncrement(m, subject, rate, now).Some?
    ensures m' == CheckAndIncrement(m, subject, rate, now).GetOr(m)
  {
    hide Bump, Room, Windows;
    m' := m;
    if rate == None {
      return false, m;
    }
    var windows := ConfiguredWindows(rate.value);
    ok := AllHaveRoom(m, subject, windows, now);
    if ok {
      m' := CountAll(m, subject, windows, now);
    }
  }

  method UncountWindows<S(==)>(m: Counters<S>, subject: S, rate: Option<RateLimit>, now: int)
    returns (m': Counters<S>)
    ensures m' == ReleaseCounters(m, subject, rate, now)
  {
    m' := m;
    if rate == None {
      return;
    }
    var windows := ConfiguredWindows(rate.value);
    for i := 0 to |windows|
      invariant m' == Drop(m, subject, windows[..i], now)
    {
      assert windows[..i + 1][..i] == windows[..i];
      var k := BucketKey(subject, windows[i].0, WindowStart(windows[i].0, now));
      if k in m' && m'[k] > 0 {
        m' := m'[k := m'[k] - 1];
      }
    }
    assert windows[..|windows|] == windows;
  }

  method WalletHasRoom(rows: WalletBuckets, wallet: string, windows: seq<(WindowKind, int)>,
                       now: int) returns (ok: bool)
    ensures ok == WalletRoom(rows, wallet, windows, now)
  {
    for i := 0 to |windows|
      invariant forall j :: 0 <= j < i ==> WalletCounter(rows, Key(wallet, windows[j].0, now)) < windows[j].1
    {
      var k := BucketKey(wallet, windows[i].0, WindowStart(windows[i].0, now));
      var current := if k in rows then rows[k].counter else 0;
      if current >= windows[i].1 {
        assert !(WalletCounter(rows, Key(wallet, windows[i].0, now)) < windows[i].1);
        return false;
      }
    }
    ok := true;
  }

  method CountWalletWindows(rows: WalletBuckets, wallet: string, windows: seq<(WindowKind, int)>, now: int)
    returns (counted: WalletBuckets)
    ensures counted == WalletBump(rows, wallet, windows, now)
  {
    counted := rows;
    for i := 0 to |windows|
      invariant counted == WalletBump(rows, wallet, windows[..i], now)
    {
      assert windows[..i + 1][..i] == windows[..i];
      var k := BucketKey(wallet, windows[i].0, WindowStart(windows[i].0, now));
      counted := counted[k := if k in counted then counted[k].(counter := counted[k].counter + 1)
        else WalletBucket(1, 0)];
    }
    assert windows[..|windows|] == windows;
  }

  class Repo {
    const session: Session

    constructor (session: Session)
      ensures this.session == session
    {
      this.session := session;
    }

    method CheckAndIncrementCaller(subject: CallerSubject, rate: Option<RateLimit>, now: int) returns (ok: bool)
      modifies session`db
      ensures var b := old(session.db).buckets;
              && ok == CheckAndIncrement(b.callers, subject, rate, now).Some?
              && session.db == old(session.db).(buckets := b.(callers :=
                   CheckAndIncrement(b.callers, subject, rate, now).GetOr(b.callers)))
    {
      var counted;
      ok, counted := CountWindows(session.db.buckets.callers, subject, rate, now);
      session.db := session.db.(buckets := session.db.buckets.(callers := counted));
    }

    method ReleaseCaller(subject: CallerSubject, rate: Option<RateLimit>, now: int)
      modifies session`db
      ensures var b := old(session.db).buckets;
              session.db == old(session.db).(buckets := b.(callers := ReleaseCounters(b.callers, subject, rate, now)))
    {
      var released := UncountWindows(session.db.buckets.callers, subject, rate, now);
      session.db := session.db.(buckets := session.db.buckets.(callers := released));
    }

    method CheckAndIncrementFspCaller(subject: FspSubject, rate: Option<RateLimit>, now: int) returns (ok: bool)
      modifies session`db
      ensures var b := old(session.db).buckets;
              && ok == CheckAndIncrement(b.fsp, subject, rate, now).Some?
              && session.db == old(session.db).(buckets := b.(fsp :=
                   CheckAndIncrement(b.fsp, subject, rate, now).GetOr(b.fsp)))
    {
      var counted;
      ok, counted := CountWindows(session.db.buckets.fsp, subject, rate, now);
      session.db := session.db.(buckets := session.db.buckets.(fsp := counted));
    }

    method ReleaseFspCaller(subject: FspSubject, rate: Option<RateLimit>, now: int)
      modifies session`db
      ensures var b := old(session.db).buckets;
              session.db == old(session.db).(buckets := b.(fsp := ReleaseCounters(b.fsp, subject, rate, now)))
    {
      var released := UncountWindows(session.db.buckets.fsp, subject, rate, now);
      session.db := session.db.(buckets := session.db.buckets.(fsp := released));
    }

    /** None stands for the parse error on the configured cap; nothing is counted then. */
    method CheckAndIncrementWalletRow(
      wallet: string, constraint: Option<WalletConstraint>, valueWei: int, now: int, parseInt: string -> Option<int>)
      returns (ok: Option<bool>)
      modifies session`db
      ensures var b := old(session.db).buckets;
              match CheckAndIncrementWallet(b.wallets, wallet, constraint, valueWei, now, parseInt)
              case Admitted(m) => ok == Some(true) && session.db == old(session.db).(buckets := b.(wallets := m))
              case Refused => ok == Some(false) && session.db == old(session.db)
              case BadCap => ok == None && session.db == old(session.db)
    {
      if constraint == None {
        return Some(false);
      }
      var rows := session.db.buckets.wallets;
      if constraint.value.maxAggregateValueWeiPerDay != None {
        var cap := parseInt(constraint.value.maxAggregateValueWeiPerDay.value);
        if cap == None {
          return None;
        }
        var k := BucketKey(wallet, Day, WindowStart(Day, now));
        var spent := if k in rows then rows[k].aggregateValueWei else 0;
        if spent + valueWei > cap.value {
          return Some(false);
        }
      }
      if constraint.value.rate != None {
        var windows := ConfiguredWindows(constraint.value.rate.value);
        var room := WalletHasRoom(rows, wallet, windows, now);
        if !room {
          return Some(false);
        }
        var counted := CountWalletWindows(rows, wallet, windows, now);
        session.db := session.db.(buckets := session.db.buckets.(wallets := counted));
      }
      ok := Some(true);
    }

    method ReleaseWalletRow(wallet: string, constraint: Option<WalletConstraint>, now: int)
      modifies session`db
      ensures var b := old(session.db).buckets;
              session.db == old(session.db).(buckets :=
                b.(wallets := ReleaseWalletBuckets(b.wallets, wallet, constraint, now)))
    {
      if constraint == None || constraint.value.rate == None {
        return;
      }
      var windows := ConfiguredWindows(constraint.value.rate.value);
      var rows := session.db.buckets.wallets;
      for i := 0 to |windows|
        invariant rows == WalletDrop(session.db.buckets.wallets, wallet, windows[..i], now)
      {
        assert windows[..i + 1][..i] == windows[..i];
        var k := BucketKey(wallet, windows[i].0, WindowStart(windows[i].0, now));
        if k in rows && rows[k].counter > 0 {
          rows := rows[k := rows[k].(counter := rows[k].counter - 1)];
        }
      }
      assert windows[..|windows|] == windows;
      session.db := session.db.(buckets := session.db.buckets.(wallets := rows));
    }

    method AddCommittedValue(wallet: string, valueWei: int, now: int)
      modifies session`db
      ensures var b := old(session.db).buckets;
              session.db == old(session.db).(buckets := b.(wallets := AddCommitted(b.wallets, wallet, valueWei, now)))
    {
      var k := BucketKey(wallet, Day, WindowStart(Day, now));
      var rows := session.db.buckets.wallets;
      var existing := if k in rows then rows[k].aggregateValueWei else 0;
      var row := if k in rows then rows[k].(aggregateValueWei := existing + valueWei)
        else WalletBucket(0, existing + valueWei);
      session.db := session.db.(buckets := session.db.buckets.(wallets := rows[k := row]));
    }

    /** A bucket survives, with its row unchanged, exactly when its window began at or after `before`. */
    method DeleteStaleRows(before: int) returns (deleted: int)
      modifies session`db
      ensures var b, b' := old(session.db).buckets, session.db.buckets;
              && (forall k :: k in b'.callers <==> k in b.callers && k.start >= before)
              && (forall k :: k in b'.wallets <==> k in b.wallets && k.start >= before)
              && (forall k :: k in b'.fsp <==> k in b.fsp && k.start >= before)
              && (forall k :: k in b'.callers ==> b'.callers[k] == b.callers[k])
              && (forall k :: k in b'.wallets ==> b'.wallets[k] == b.wallets[k])
              && (forall k :: k in b'.fsp ==> b'.fsp[k] == b.fsp[k])
              && deleted == |b.callers| - |b'.callers| + |b.wallets| - |b'.wallets| + |b.fsp| - |b'.fsp|
      ensures session.db.(buckets := old(session.db).buckets) == old(session.db)
      ensures session.db.buckets == DeleteStale(old(session.db).buckets, before)
    {
      var b := session.db.buckets;
      var callers := map k | k in b.callers && k.start >= before :: b.callers[k];
      var wallets := map k | k in b.wallets && k.start >= before :: b.wallets[k];
      var fsp := map k | k in b.fsp && k.start >= before :: b.fsp[k];
      deleted := |b.callers| - |callers| + |b.wallets| - |wallets| + |b.fsp| - |fsp|;
      session.db := session.db.(buckets := Buckets(callers, wallets, fsp));
    }
  }
}
