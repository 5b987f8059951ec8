/** The single-writer lock: a read-write session takes it before its first statement and holds it until
    it commits or rolls back; a read-only session takes none, reads a snapshot and never commits. Every
    interleaving of sessions then equals their serial execution in the order in which they ended. */
module WriterLock {
  import opened Prelude
  import opened Environment
  import opened Store
  import opened Service
  import NonceRepo

  /** A session: its statements over the database and its local variables, and whether it ends in a commit.
      A refusal that commits its audit row ends there, so it too is a session that commits. */
  datatype Program<!D, !L> = Program(statements: seq<(D, L) -> (D, L)>, start: L, commits: L -> bool, readOnly: bool)

  /** `since` counts the sessions that had ended when this one began. */
  datatype Progress<D, L> = Waiting | Open(view: D, local: L, done: nat, since: nat) | Closed

  /** `order` lists the read-write sessions in the order they ended, `results` their final local variables. */
  datatype State<D, L> = State(committed: D, holder: Option<nat>, sessions: seq<Progress<D, L>>, order: seq<nat>,
    results: seq<L>)

  datatype Action = Begin(i: nat) | Statement(i: nat) | End(i: nat) | Abort(i: nat)

  // ---------- One session alone ----------

  function After<D, L>(p: Program<D, L>, d: D, n: nat): (D, L)
    requires n <= |p.statements|
  {
    if n == 0 then (d, p.start)
    else
      var r := After(p, d, n - 1);
      p.statements[n - 1](r.0, r.1)
  }

  function Effect<D, L>(p: Program<D, L>, d: D): (D, L) {
    After(p, d, |p.statements|)
  }

  function Outcome<D, L>(p: Program<D, L>, d: D): D {
    if !p.readOnly && p.commits(Effect(p, d).1) then Effect(p, d).0 else d
  }

  /** One session after the other. */
  function Serial<D, L>(ps: seq<Program<D, L>>, d: D, order: seq<nat>): D
    requires forall j :: 0 <= j < |order| ==> order[j] < |ps|
  {
    if order == [] then d
    else Outcome(ps[order[|order| - 1]], Serial(ps, d, order[..|order| - 1]))
  }

  // ---------- All of them at once ----------

  function Initial<D, L>(ps: seq<Program<D, L>>, d: D): State<D, L> {
    State(d, None, seq(|ps|, _ => Waiting), [], [])
  }

  /** None when the action is not enabled: in particular a read-write session waits for the lock. */
  function Next<D, L>(ps: seq<Program<D, L>>, s: State<D, L>, a: Action, locking: bool): Option<State<D, L>>
    requires |s.sessions| == |ps|
  {
    if a.i >= |ps| then None
    else
      var p := ps[a.i];
      match (a, s.sessions[a.i])
      case (Begin(i), Waiting) =>
        if locking && !p.readOnly && s.holder.Some? then None
        else Some(s.(sessions := s.sessions[i := Open(s.committed, p.start, 0, |s.order|)],
                     holder := if p.readOnly then s.holder else Some(i)))
      case (Statement(i), Open(view, local, done, since)) =>
        if done >= |p.statements| then None
        else
          var r := p.statements[done](view, local);
          Some(s.(sessions := s.sessions[i := Open(r.0, r.1, done + 1, since)]))
      case (End(i), Open(view, local, done, _)) =>
        if done != |p.statements| then None
        else if p.readOnly then Some(s.(sessions := s.sessions[i := Closed]))
        else Some(State(if p.commits(local) then view else s.committed, None, s.sessions[i := Closed],
                        s.order + [i], s.results + [local]))
      case (Abort(i), Open(_, _, _, _)) =>
        Some(s.(sessions := s.sessions[i := Closed], holder := if p.readOnly then s.holder else None))
      case _ => None
  }

  // ---------- The invariant ----------

  ghost predicate OrderOk<D, L>(ps: seq<Program<D, L>>, s: State<D, L>) {
    && |s.sessions| == |ps| && |s.results| == |s.order|
    && forall j :: 0 <= j < |s.order| ==> s.order[j] < |ps|
  }

  /** An open session has seen its own statements on top of what was committed when it began. */
  ghost predicate SeesSnapshot<D, L>(ps: seq<Program<D, L>>, d: D, s: State<D, L>, i: nat)
    requires OrderOk(ps, s) && i < |ps|
  {
    s.sessions[i].Open? ==>
      var o := s.sessions[i];
      && o.since <= |s.order| && o.done <= |ps[i].statements|
      && (o.view, o.local) == After(ps[i], Serial(ps, d, s.order[..o.since]), o.done)
      && (!ps[i].readOnly ==> s.holder == Some(i) && o.since == |s.order|)
  }

  ghost predicate Serializable<D, L>(ps: seq<Program<D, L>>, d: D, s: State<D, L>) {
    && OrderOk(ps, s)
    && s.committed == Serial(ps, d, s.order)
    && (forall i :: 0 <= i < |ps| ==> SeesSnapshot(ps, d, s, i))
    && (forall j :: 0 <= j < |s.order| ==>
          s.results[j] == Effect(ps[s.order[j]], Serial(ps, d, s.order[..j])).1)
  }

  lemma InitialSerializable<D, L>(ps: seq<Program<D, L>>, d: D)
    ensures Serializable(ps, d, Initial(ps, d))
  {
  }

  lemma SerialPush<D, L>(ps: seq<Program<D, L>>, d: D, order: seq<nat>, i: nat)
    requires i < |ps| && forall j :: 0 <= j < |order| ==> order[j] < |ps|
    ensures forall j :: 0 <= j < |order + [i]| ==> (order + [i])[j] < |ps|
    ensures Serial(ps, d, order + [i]) == Outcome(ps[i], Serial(ps, d, order))
  {
    assert (order + [i])[..|order|] == order;
  }

  /** The state a writer leaves when it ends. */
  function Ended<D, L>(p: Program<D, L>, s: State<D, L>, i: nat): State<D, L>
    requires i < |s.sessions| && s.sessions[i].Open?
  {
    var o := s.sessions[i];
    State(if p.commits(o.local) then o.view else s.committed, None, s.sessions[i := Closed], s.order + [i],
      s.results + [o.local])
  }

  lemma PrefixStays(order: seq<nat>, i: nat, n: nat)
    requires n <= |order|
    ensures (order + [i])[..n] == order[..n]
  {
  }

  /** The other open sessions are readers, and their snapshots stay in the history. */
  lemma {:induction false} EndKeepsSnapshots<D, L>(ps: seq<Program<D, L>>, d: D, s: State<D, L>, i: nat, j: nat)
    requires OrderOk(ps, s) && i < |ps| && j < |ps| && s.sessions[i].Open? && !ps[i].readOnly
    requires SeesSnapshot(ps, d, s, i) && SeesSnapshot(ps, d, s, j)
    ensures OrderOk(ps, Ended(ps[i], s, i)) && SeesSnapshot(ps, d, Ended(ps[i], s, i), j)
  {
    hide Serial, After;
    if j != i && s.sessions[j].Open? {
      PrefixStays(s.order, i, s.sessions[j].since);
    }
  }

  lemma {:induction false} EndKeepsResult<D, L>(ps: seq<Program<D, L>>, d: D, s: State<D, L>, i: nat, j: nat)
    requires OrderOk(ps, s) && i < |ps| && s.sessions[i].Open? && s.sessions[i].done == |ps[i].statements|
    requires SeesSnapshot(ps, d, s, i) && !ps[i].readOnly && j <= |s.order|
    requires j < |s.order| ==> s.results[j] == Effect(ps[s.order[j]], Serial(ps, d, s.order[..j])).1
    ensures OrderOk(ps, Ended(ps[i], s, i))
    ensures var s' := Ended(ps[i], s, i); s'.results[j] == Effect(ps[s'.order[j]], Serial(ps, d, s'.order[..j])).1
  {
    hide Serial, After;
    PrefixStays(s.order, i, j);
    assert s.order[..|s.order|] == s.order;
  }

  /** What the writer commits is its outcome on the history. */
  lemma {:induction false} EndCommitsOutcome<D, L>(ps: seq<Program<D, L>>, d: D, s: State<D, L>, i: nat)
    requires OrderOk(ps, s) && i < |ps| && s.sessions[i].Open? && s.sessions[i].done == |ps[i].statements|
    requires SeesSnapshot(ps, d, s, i) && !ps[i].readOnly && s.committed == Serial(ps, d, s.order)
    ensures OrderOk(ps, Ended(ps[i], s, i))
    ensures Ended(ps[i], s, i).committed == Serial(ps, d, Ended(ps[i], s, i).order)
  {
    hide Serial, After;
    assert s.order[..|s.order|] == s.order;
    SerialPush(ps, d, s.order, i);
  }

  /** A writer that ends. */
  lemma {:induction false} WriterEndKeeps<D, L>(ps: seq<Program<D, L>>, d: D, s: State<D, L>, i: nat)
    requires Serializable(ps, d, s) && i < |ps| && !ps[i].readOnly && s.sessions[i].Open?
    requires s.sessions[i].done == |ps[i].statements|
    ensures Serializable(ps, d, Next(ps, s, End(i), true).value)
  {
    hide Serial, After, Effect, SeesSnapshot;
    var s' := Ended(ps[i], s, i);
    assert Next(ps, s, End(i), true) == Some(s');
    hide Next;
    EndCommitsOutcome(ps, d, s, i);
    forall j | 0 <= j < |ps| ensures SeesSnapshot(ps, d, s', j) {
      EndKeepsSnapshots(ps, d, s, i, j);
    }
    forall j | 0 <= j < |s'.order|
      ensures s'.results[j] == Effect(ps[s'.order[j]], Serial(ps, d, s'.order[..j])).1
    {
      EndKeepsResult(ps, d, s, i, j);
    }
  }

  lemma ReaderEndKeeps<D, L>(ps: seq<Program<D, L>>, d: D, s: State<D, L>, i: nat)
    requires Serializable(ps, d, s) && i < |ps| && ps[i].readOnly && s.sessions[i].Open?
    requires s.sessions[i].done == |ps[i].statements|
    ensures Serializable(ps, d, Next(ps, s, End(i), true).value)
  {
    hide Serial, After, Outcome;
    var s' := Next(ps, s, End(i), true).value;
    forall j | 0 <= j < |ps| ensures SeesSnapshot(ps, d, s', j) {
      assert SeesSnapshot(ps, d, s, j);
    }
  }

  /** The state after session `i` alone has moved, without anything being committed. */
  ghost predicate OnlyMoves<D, L>(ps: seq<Program<D, L>>, s: State<D, L>, s': State<D, L>, i: nat)
    requires OrderOk(ps, s) && i < |ps|
  {
    && s'.committed == s.committed && s'.order == s.order && s'.results == s.results
    && |s'.sessions| == |s.sessions|
    && (forall j :: 0 <= j < |ps| && j != i ==> s'.sessions[j] == s.sessions[j])
    && (forall j :: 0 <= j < |ps| && j != i && s.sessions[j].Open? && !ps[j].readOnly ==> s'.holder == Some(j))
  }

  lemma {:induction false} OnlyMovesKeeps<D, L>(ps: seq<Program<D, L>>, d: D, s: State<D, L>, s': State<D, L>, i: nat)
    requires Serializable(ps, d, s) && i < |ps| && OnlyMoves(ps, s, s', i)
    requires OrderOk(ps, s') && SeesSnapshot(ps, d, s', i)
    ensures Serializable(ps, d, s')
  {
    hide Serial, Effect, After;
    forall j | 0 <= j < |ps| ensures SeesSnapshot(ps, d, s', j) {
      assert SeesSnapshot(ps, d, s, j);
    }
  }

  /** A writer begins only when no other holds the lock. */
  lemma {:induction false} BeginMoves<D, L>(ps: seq<Program<D, L>>, d: D, s: State<D, L>, i: nat)
    requires Serializable(ps, d, s) && Next(ps, s, Begin(i), true).Some?
    ensures i < |ps| && var s' := Next(ps, s, Begin(i), true).value;
            OrderOk(ps, s') && OnlyMoves(ps, s, s', i) && SeesSnapshot(ps, d, s', i)
  {
    hide Serial, Effect;
    assert s.order[..|s.order|] == s.order;
    var s' := Next(ps, s, Begin(i), true).value;
    forall j | 0 <= j < |ps| && j != i && s.sessions[j].Open? && !ps[j].readOnly ensures s'.holder == Some(j) {
      assert SeesSnapshot(ps, d, s, j);
    }
  }

  lemma {:induction false} StatementMoves<D, L>(ps: seq<Program<D, L>>, d: D, s: State<D, L>, i: nat)
    requires Serializable(ps, d, s) && Next(ps, s, Statement(i), true).Some?
    ensures i < |ps| && var s' := Next(ps, s, Statement(i), true).value;
            OrderOk(ps, s') && OnlyMoves(ps, s, s', i) && SeesSnapshot(ps, d, s', i)
  {
    hide Serial, Effect;
    var s' := Next(ps, s, Statement(i), true).value;
    assert SeesSnapshot(ps, d, s, i);
    forall j | 0 <= j < |ps| && j != i && s.sessions[j].Open? && !ps[j].readOnly ensures s'.holder == Some(j) {
      assert SeesSnapshot(ps, d, s, j);
    }
  }

  /** Only the holder gives the lock back. */
  lemma {:induction false} AbortMoves<D, L>(ps: seq<Program<D, L>>, d: D, s: State<D, L>, i: nat)
    requires Serializable(ps, d, s) && Next(ps, s, Abort(i), true).Some?
    ensures i < |ps| && var s' := Next(ps, s, Abort(i), true).value;
            OrderOk(ps, s') && OnlyMoves(ps, s, s', i) && SeesSnapshot(ps, d, s', i)
  {
    hide Serial, Effect, After;
    var s' := Next(ps, s, Abort(i), true).value;
    assert SeesSnapshot(ps, d, s, i);
    forall j | 0 <= j < |ps| && j != i && s.sessions[j].Open? && !ps[j].readOnly ensures s'.holder == Some(j) {
      assert SeesSnapshot(ps, d, s, j);
    }
  }

  /** Beginning, running one statement and aborting touch no committed state; only one session moves. */
  lemma {:induction false} OtherStepKeeps<D, L>(ps: seq<Program<D, L>>, d: D, s: State<D, L>, a: Action)
    requires Serializable(ps, d, s) && Next(ps, s, a, true).Some? && !a.End?
    ensures Serializable(ps, d, Next(ps, s, a, true).value)
  {
    hide Next, OnlyMoves, SeesSnapshot, Serial, Effect;
    match a {
      case Begin(i) => BeginMoves(ps, d, s, i);
      case Statement(i) => StatementMoves(ps, d, s, i);
      case Abort(i) => AbortMoves(ps, d, s, i);
      case End(_) =>
    }
    OnlyMovesKeeps(ps, d, s, Next(ps, s, a, true).value, a.i);
  }

  lemma StepKeepsSerializable<D, L>(ps: seq<Program<D, L>>, d: D, s: State<D, L>, a: Action)
    requires Serializable(ps, d, s) && Next(ps, s, a, true).Some?
    ensures Serializable(ps, d, Next(ps, s, a, true).value)
  {
    EndIsOfOpen(ps, s, a);
    hide Serializable, Next;
    if !a.End? {
      OtherStepKeeps(ps, d, s, a);
    } else if ps[a.i].readOnly {
      ReaderEndKeeps(ps, d, s, a.i);
    } else {
      WriterEndKeeps(ps, d, s, a.i);
    }
  }

  lemma EndIsOfOpen<D, L>(ps: seq<Program<D, L>>, s: State<D, L>, a: Action)
    requires |s.sessions| == |ps| && Next(ps, s, a, true).Some?
    ensures a.i < |ps|
    ensures a.End? ==> s.sessions[a.i].Open? && s.sessions[a.i].done == |ps[a.i].statements|
  {
  }

  /** The state after a sequence of actions, if each was enabled in turn. */
  function Play<D, L>(ps: seq<Program<D, L>>, s: State<D, L>, actions: seq<Action>, locking: bool): Option<State<D, L>>
    requires |s.sessions| == |ps|
    decreases |actions|
  {
    if actions == [] then Some(s)
    else match Next(ps, s, actions[0], locking)
      case None => None
      case Some(s') => Play(ps, s', actions[1..], locking)
  }

  lemma {:induction false} PlayKeepsSerializable<D, L>(ps: seq<Program<D, L>>, d: D, s: State<D, L>,
                                                       actions: seq<Action>)
    requires Serializable(ps, d, s) && Play(ps, s, actions, true).Some?
    ensures Serializable(ps, d, Play(ps, s, actions, true).value)
    decreases |actions|
  {
    hide Serial, SeesSnapshot, Next;
    if actions != [] {
      StepKeepsSerializable(ps, d, s, actions[0]);
      PlayKeepsSerializable(ps, d, Next(ps, s, actions[0], true).value, actions[1..]);
    }
  }

  /** Whatever the interleaving, what is committed is the serial execution in ending order, each session
      saw exactly what it would have seen alone at its turn, and every reader saw a committed state. */
  lemma EveryInterleavingIsSerial<D, L>(ps: seq<Program<D, L>>, d: D, actions: seq<Action>)
    requires Play(ps, Initial(ps, d), actions, true).Some?
    ensures Serializable(ps, d, Play(ps, Initial(ps, d), actions, true).value)
  {
    InitialSerializable(ps, d);
    PlayKeepsSerializable(ps, d, Initial(ps, d), actions);
  }

  // ---------- The daemon's requests ----------

  lemma {:induction false} RunAppend(env: Env, d: Db, evs: seq<Event>, ev: Event)
    ensures Run(env, d, evs + [ev]) == Step(env, Run(env, d, evs), ev).0
    decreases |evs|
  {
    hide Step;
    if evs == [] {
      assert ([] + [ev])[1..] == [];
    } else {
      assert (evs + [ev])[1..] == evs[1..] + [ev];
      RunAppend(env, Step(env, d, evs[0]).0, evs[1..], ev);
    }
  }

  function Pick(evs: seq<Event>, order: seq<nat>): seq<Event>
    requires forall j :: 0 <= j < |order| ==> order[j] < |evs|
  {
    if order == [] then [] else Pick(evs, order[..|order| - 1]) + [evs[order[|order| - 1]]]
  }

  lemma {:induction false} SerialIsRun<L>(env: Env, ps: seq<Program<Db, L>>, evs: seq<Event>, d: Db, order: seq<nat>)
    requires |evs| == |ps| && forall j :: 0 <= j < |order| ==> order[j] < |ps|
    requires forall i, d' :: 0 <= i < |ps| ==> Outcome(ps[i], d') == Step(env, d', evs[i]).0
    ensures Serial(ps, d, order) == Run(env, d, Pick(evs, order))
    decreases |order|
  {
    hide Step, Outcome;
    if order != [] {
      var shorter := order[..|order| - 1];
      SerialIsRun(env, ps, evs, d, shorter);
      RunAppend(env, d, Pick(evs, shorter), evs[order[|order| - 1]]);
    } else {
      assert Pick(evs, order) == [];
    }
  }

  /** Requests that each amount to one event, interleaved in any way, leave the database a run of those
      events leaves: what is proved about runs holds of the concurrent service. */
  lemma ServiceIsSerial<L>(env: Env, ps: seq<Program<Db, L>>, evs: seq<Event>, d: Db, actions: seq<Action>)
    requires |evs| == |ps| && forall i, d' :: 0 <= i < |ps| ==> Outcome(ps[i], d') == Step(env, d', evs[i]).0
    requires Play(ps, Initial(ps, d), actions, true).Some?
    ensures var s := Play(ps, Initial(ps, d), actions, true).value;
            OrderOk(ps, s) && s.committed == Run(env, d, Pick(evs, s.order))
  {
    hide Step, Outcome, Run, Play, Serial;
    EveryInterleavingIsSerial(ps, d, actions);
    SerialIsRun(env, ps, evs, d, Play(ps, Initial(ps, d), actions, true).value.order);
  }

  // ---------- Read, then update ----------

  /** `reserve_next` in its own session: one statement reads the row, the next writes it back incremented. */
  function ReadRow(k: NonceKey, t: NonceRepo.Nonces): Option<int> {
    if k in t then Some(t[k].nextNonce) else None
  }

  function WriteRow(k: NonceKey, t: NonceRepo.Nonces, read: Option<int>): NonceRepo.Nonces {
    if read.Some? && k in t then t[k := t[k].(nextNonce := read.value + 1)] else t
  }

  function Reservation(k: NonceKey): (p: Program<NonceRepo.Nonces, Option<int>>)
    ensures |p.statements| == 2 && p.start == None && !p.readOnly
    ensures forall t, l ::
              p.statements[0](t, l) == (t, ReadRow(k, t)) && p.statements[1](t, l) == (WriteRow(k, t, l), l)
    ensures forall l :: p.commits(l) == l.Some?
  {
    Program([(t: NonceRepo.Nonces, l: Option<int>) => (t, ReadRow(k, t)),
             (t: NonceRepo.Nonces, l: Option<int>) => (WriteRow(k, t, l), l)],
            None, (l: Option<int>) => l.Some?, false)
  }

  function Reservations(ks: seq<NonceKey>): seq<Program<NonceRepo.Nonces, Option<int>>> {
    seq(|ks|, i requires 0 <= i < |ks| => Reservation(ks[i]))
  }

  lemma ReservationEffect(k: NonceKey, t: NonceRepo.Nonces)
    ensures var p := Reservation(k);
            && Effect(p, t).1 == (if k in t then Some(t[k].nextNonce) else None)
            && Outcome(p, t) == (if k in t then NonceRepo.Reserve(t, k) else t)
  {
    var p := Reservation(k);
    assert After(p, t, 1) == (t, if k in t then Some(t[k].nextNonce) else None);
    assert Effect(p, t) == p.statements[1](After(p, t, 1).0, After(p, t, 1).1);
  }

  /** A row's next nonce passes everything reserved from it. */
  lemma {:induction false} ReservedBelow(ks: seq<NonceKey>, t: NonceRepo.Nonces, order: seq<nat>, n: nat)
    requires forall j :: 0 <= j < |order| ==> order[j] < |ks|
    requires n < |order|
    ensures var ps := Reservations(ks); var k := ks[order[n]];
            var r := Effect(ps[order[n]], Serial(ps, t, order[..n])).1;
            r.Some? ==> k in Serial(ps, t, order) && r.value < Serial(ps, t, order)[k].nextNonce
    decreases |order|
  {
    hide Effect, Outcome, Reservation;
    var ps := Reservations(ks);
    var last := |order| - 1;
    var before := Serial(ps, t, order[..last]);
    ReservationEffect(ks[order[n]], Serial(ps, t, order[..n]));
    ReservationEffect(ks[order[last]], before);
    if n < last {
      assert order[..last][..n] == order[..n];
      ReservedBelow(ks, t, order[..last], n);
    }
  }

  lemma LaterIsLarger(ks: seq<NonceKey>, t: NonceRepo.Nonces, s: State<NonceRepo.Nonces, Option<int>>, n: nat, m: nat)
    requires Serializable(Reservations(ks), t, s)
    requires n < m < |s.order| && ks[s.order[n]] == ks[s.order[m]] && s.results[n].Some? && s.results[m].Some?
    ensures s.results[n].value < s.results[m].value
  {
    hide Effect, Outcome, Reservation, Serial, SeesSnapshot;
    var ps := Reservations(ks);
    assert s.order[..m][..n] == s.order[..n];
    ReservedBelow(ks, t, s.order[..m], n);
    ReservationEffect(ks[s.order[m]], Serial(ps, t, s.order[..m]));
  }

  /** Two sessions that committed a reservation on one row never got the same nonce; the later got the larger. */
  lemma ReservationsDistinct(ks: seq<NonceKey>, t: NonceRepo.Nonces, actions: seq<Action>, n: nat, m: nat)
    requires Play(Reservations(ks), Initial(Reservations(ks), t), actions, true).Some?
    requires n < m < |Play(Reservations(ks), Initial(Reservations(ks), t), actions, true).value.order|
    ensures var s := Play(Reservations(ks), Initial(Reservations(ks), t), actions, true).value;
            && Serializable(Reservations(ks), t, s)
            && (ks[s.order[n]] == ks[s.order[m]] && s.results[n].Some? && s.results[m].Some? ==>
                  s.results[n].value < s.results[m].value)
  {
    EveryInterleavingIsSerial(Reservations(ks), t, actions);
    hide Play, Next, Effect, SeesSnapshot;
    var s := Play(Reservations(ks), Initial(Reservations(ks), t), actions, true).value;
    if ks[s.order[n]] == ks[s.order[m]] && s.results[n].Some? && s.results[m].Some? {
      LaterIsLarger(ks, t, s, n, m);
    }
  }

  // ---------- Without the lock ----------

  /** Two sessions on one row, each reading before either writes. */
  const RACE: seq<Action> := [Begin(0), Begin(1), Statement(0), Statement(1), Statement(0), Statement(1), End(0),
    End(1)]

  function RaceState(k: NonceKey, t: NonceRepo.Nonces, i: nat): State<NonceRepo.Nonces, Option<int>>
    requires k in t && 1 <= i <= 8
  {
    var n, t', o := Some(t[k].nextNonce), NonceRepo.Reserve(t, k), Open(t, None, 0, 0);
    match i
    case 1 => State(t, Some(0), [o, Waiting], [], [])
    case 2 => State(t, Some(1), [o, o], [], [])
    case 3 => State(t, Some(1), [Open(t, n, 1, 0), o], [], [])
    case 4 => State(t, Some(1), [Open(t, n, 1, 0), Open(t, n, 1, 0)], [], [])
    case 5 => State(t, Some(1), [Open(t', n, 2, 0), Open(t, n, 1, 0)], [], [])
    case 6 => State(t, Some(1), [Open(t', n, 2, 0), Open(t', n, 2, 0)], [], [])
    case 7 => State(t', None, [Closed, Open(t', n, 2, 0)], [0], [n])
    case _ => State(t', None, [Closed, Closed], [0, 1], [n, n])
  }

  lemma RaceStep(k: NonceKey, t: NonceRepo.Nonces, i: nat)
    requires k in t && 1 <= i <= 7
    ensures Next(Reservations([k, k]), RaceState(k, t, i), RACE[i], false) == Some(RaceState(k, t, i + 1))
  {
    hide Reservation;
    var ps := Reservations([k, k]);
    var s, s' := RaceState(k, t, i), RaceState(k, t, i + 1);
    var j := RACE[i].i;
    assert ps[j] == Reservation(k);
    assert s.sessions[j := s'.sessions[j]] == s'.sessions;
    if i >= 6 {
      assert s.order + [j] == s'.order && s.results + [s.sessions[j].local] == s'.results;
    }
  }

  lemma RaceBegins(k: NonceKey, t: NonceRepo.Nonces, locking: bool)
    requires k in t
    ensures var ps := Reservations([k, k]);
            && Next(ps, Initial(ps, t), Begin(0), locking) == Some(RaceState(k, t, 1))
            && Next(ps, RaceState(k, t, 1), Begin(1), true) == None
  {
    hide Reservation;
    var ps := Reservations([k, k]);
    assert ps[0] == Reservation(k) && ps[1] == Reservation(k);
    assert Initial(ps, t).sessions[0 := RaceState(k, t, 1).sessions[0]] == RaceState(k, t, 1).sessions;
  }

  /** Without the lock both sessions of that interleaving commit the same nonce; with it, it cannot happen. */
  lemma LockIsNeeded(k: NonceKey, t: NonceRepo.Nonces)
    requires k in t
    ensures var ps := Reservations([k, k]);
            && Play(ps, Initial(ps, t), RACE, true).None?
            && Play(ps, Initial(ps, t), RACE, false) == Some(RaceState(k, t, 8))
            && RaceState(k, t, 8).results == [Some(t[k].nextNonce), Some(t[k].nextNonce)]
  {
    var ps := Reservations([k, k]);
    var s0, s1 := Initial(ps, t), RaceState(k, t, 1);
    hide Next, Play, Reservation;
    RaceBegins(k, t, true);
    RaceBegins(k, t, false);
    RaceFrom(k, t, 1);
    PlayStops(ps, s1, RACE[1..]);
    assert RACE == [Begin(0)] + RACE[1..];
    PlayStep(ps, s0, Begin(0), s1, RACE[1..], false);
    PlayStep(ps, s0, Begin(0), s1, RACE[1..], true);
  }

  lemma {:induction false} RaceFrom(k: NonceKey, t: NonceRepo.Nonces, i: nat)
    requires k in t && 1 <= i <= 8
    ensures |RaceState(k, t, i).sessions| == |Reservations([k, k])| == 2
    ensures Play(Reservations([k, k]), RaceState(k, t, i), RACE[i..], false) == Some(RaceState(k, t, 8))
    decreases 8 - i
  {
    if i < 8 {
      RaceStep(k, t, i);
      RaceFrom(k, t, i + 1);
      hide Next, Play;
      assert RACE[i..] == [RACE[i]] + RACE[i + 1..];
      PlayStep(Reservations([k, k]), RaceState(k, t, i), RACE[i], RaceState(k, t, i + 1), RACE[i + 1..], false);
    }
  }

  lemma PlayStep<D, L>(ps: seq<Program<D, L>>, s: State<D, L>, a: Action, s': State<D, L>, rest: seq<Action>,
                       locking: bool)
    requires |s.sessions| == |ps| && Next(ps, s, a, locking) == Some(s')
    ensures |s'.sessions| == |ps| && Play(ps, s, [a] + rest, locking) == Play(ps, s', rest, locking)
    ensures Play(ps, s', [], locking) == Some(s')
  {
    assert ([a] + rest)[1..] == rest;
  }

  lemma PlayStops<D, L>(ps: seq<Program<D, L>>, s: State<D, L>, actions: seq<Action>)
    requires |s.sessions| == |ps| && actions != [] && Next(ps, s, actions[0], true) == None
    ensures Play(ps, s, actions, true) == None
  {
  }
}
