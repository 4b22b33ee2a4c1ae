/**
The lease protocol with any number of workers on one ledger. Each SQL statement is a
step of its own, so a worker may write from a snapshot other workers have since outdated.
*/
module Leases {
  import opened Retries
  import opened SentRows
  import opened Wrappers

  type Worker = nat

  /** A row as a recovery pass read it. */
  datatype StaleRead = StaleRead(attempts: nat, token: Option<nat>)

  datatype Scan = Scan(now: int, rows: map<Pair, StaleRead>)

  /** `issued` holds every token ever drawn, `recovered` every lease a recovery has ended. */
  datatype State = State(
    rows: Rows,
    issued: set<nat>,
    scans: map<Worker, Scan>,
    failureReads: map<Worker, (Pair, Option<Row>)>,
    recovered: set<(Pair, Option<nat>)>)

  const START := State(map[], {}, map[], map[], {})

  datatype Action =
    | Claim(p: Pair, now: int, token: nat)
    | ReadForFailure(w: Worker, p: Pair)
    | WriteFailure(w: Worker, f: Failure, now: int, jitter: nat)
    | Save(p: Pair, outcome: SaveResult, now: int, fallback: bool)
    | WriteTerminal(p: Pair, state: TerminalState, now: int)
    | ReadStale(w: Worker, now: int)
    | UpdateStale(w: Worker, p: Pair, jitter: nat)

  /** Tokens are fresh (uuid4); everything else may happen at any time. */
  predicate Enabled(s: State, a: Action) {
    match a
    case Claim(_, _, token) => token !in s.issued
    case WriteFailure(w, _, _, _) => w in s.failureReads
    case UpdateStale(w, p, _) => w in s.scans && p in s.scans[w].rows
    case _ => true
  }

  /** The guard of the recovery update, with the scan's own clock and token. */
  predicate Fires(s: State, w: Worker, p: Pair)
    requires w in s.scans && p in s.scans[w].rows
  {
    p in s.rows && Stale(s.rows[p], s.scans[w].now) && s.rows[p].token == s.scans[w].rows[p].token
  }

  function Next(cfg: Config, s: State, a: Action): State
    requires Enabled(s, a)
  {
    match a
    case Claim(p, now, token) =>
      var t := s.(issued := s.issued + {token});
      if ClaimRefused(Lookup(s.rows, p)) then t
      else t.(rows := s.rows[p := Claimed(cfg, Lookup(s.rows, p), now, token)])
    case ReadForFailure(w, p) => s.(failureReads := s.failureReads[w := (p, Lookup(s.rows, p))])
    case WriteFailure(w, f, now, jitter) =>
      var (p, snapshot) := s.failureReads[w];
      if snapshot.Some? && snapshot.value.status == Sent then s
      else s.(rows := s.rows[p := Noted(Lookup(s.rows, p), FailureNote(cfg, snapshot, f, now, jitter))])
    case Save(p, outcome, now, fallback) => s.(rows := Saved(s.rows, p, outcome, now, fallback))
    case WriteTerminal(p, state, now) => s.(rows := s.rows[p := TerminalWritten(Lookup(s.rows, p), state, now)])
    case ReadStale(w, now) =>
      s.(scans := s.scans[w := Scan(now,
        map p | p in s.rows && Stale(s.rows[p], now) :: StaleRead(s.rows[p].attempts, s.rows[p].token))])
    case UpdateStale(w, p, jitter) =>
      if !Fires(s, w, p) then s
      else
        var scan := s.scans[w];
        s.(rows := s.rows[p := SentRows.Recovered(cfg, s.rows[p], scan.rows[p].attempts + 1, scan.now, jitter)],
           recovered := s.recovered + {(p, s.rows[p].token)})
  }

  predicate Legal(cfg: Config, s: State, run: seq<Action>)
    decreases run
  {
    run == [] || (Enabled(s, run[0]) && Legal(cfg, Next(cfg, s, run[0]), run[1..]))
  }

  function After(cfg: Config, s: State, run: seq<Action>): State
    requires Legal(cfg, s, run)
    decreases run
  {
    if run == [] then s else After(cfg, Next(cfg, s, run[0]), run[1..])
  }

  // ---- the invariant ----

  predicate TokenIssued(s: State, token: Option<nat>) {
    token.Some? ==> token.value in s.issued
  }

  /** A claimed row carries a token. */
  predicate RowOk(s: State, p: Pair)
    requires p in s.rows
  {
    TokenIssued(s, s.rows[p].token) && (s.rows[p].status == Sending ==> s.rows[p].token.Some?)
  }

  /** A lease still held shows the attempts any scan of it read. */
  predicate ScanOk(s: State, p: Pair, read: StaleRead) {
    && read.token.Some? && TokenIssued(s, read.token)
    && (p in s.rows && s.rows[p].status == Sending && s.rows[p].token == read.token ==>
          s.rows[p].attempts == read.attempts)
  }

  /** A lease once recovered is not held again. */
  predicate EndedOk(s: State, ended: (Pair, Option<nat>)) {
    TokenIssued(s, ended.1) && !(ended.0 in s.rows && s.rows[ended.0].status == Sending &&
      s.rows[ended.0].token == ended.1)
  }

  ghost predicate Inv(s: State) {
    && (forall p <- s.rows :: RowOk(s, p))
    && (forall w, p | w in s.scans && p in s.scans[w].rows :: ScanOk(s, p, s.scans[w].rows[p]))
    && (forall ended <- s.recovered :: EndedOk(s, ended))
  }

  /** A step that is not a claim leaves each row's lease, or ends it. */
  lemma LeaseKeptOrEnded(cfg: Config, s: State, a: Action, p: Pair)
    requires Enabled(s, a) && p in Next(cfg, s, a).rows && !a.Claim?
    ensures var r := Next(cfg, s, a).rows[p];
            r.status == Sending ==>
              (p in s.rows && s.rows[p].status == Sending
               && r.token == s.rows[p].token && r.attempts == s.rows[p].attempts)
    ensures var r := Next(cfg, s, a).rows[p];
            r.token.Some? ==> p in s.rows && r.token == s.rows[p].token
  {
  }

  lemma StepKeepsInv(cfg: Config, s: State, a: Action)
    requires Inv(s) && Enabled(s, a)
    ensures Inv(Next(cfg, s, a))
  {
    var t := Next(cfg, s, a);
    forall p | p in t.rows ensures RowOk(t, p) {
      if !a.Claim? { LeaseKeptOrEnded(cfg, s, a, p); }
    }
    forall w, p | w in t.scans && p in t.scans[w].rows ensures ScanOk(t, p, t.scans[w].rows[p]) {
      if !a.Claim? && p in t.rows { LeaseKeptOrEnded(cfg, s, a, p); }
      if w in s.scans && p in s.scans[w].rows { assert ScanOk(s, p, s.scans[w].rows[p]); }
      if a.ReadStale? && a.w == w { assert RowOk(s, p); }
    }
    forall ended | ended in t.recovered ensures EndedOk(t, ended) {
      if !a.Claim? && ended.0 in t.rows { LeaseKeptOrEnded(cfg, s, a, ended.0); }
      if ended in s.recovered { assert EndedOk(s, ended); } else { assert RowOk(s, ended.0); }
    }
  }

  lemma {:induction false} RunKeepsInv(cfg: Config, s: State, run: seq<Action>)
    requires Inv(s) && Legal(cfg, s, run)
    ensures Inv(After(cfg, s, run))
    decreases run
  {
    if run != [] {
      StepKeepsInv(cfg, s, run[0]);
      RunKeepsInv(cfg, Next(cfg, s, run[0]), run[1..]);
    }
  }

  // ---- main results ----

  /**
  In every interleaving, a recovery update that fires adds exactly one to the row's
  current attempts, although it computed the number from an old snapshot; the lease had
  expired, and this is the first and only recovery of that lease.
  */
  lemma RecoveryIsExact(cfg: Config, run: seq<Action>, w: Worker, p: Pair, jitter: nat)
    requires Legal(cfg, START, run)
    requires var s := After(cfg, START, run); w in s.scans && p in s.scans[w].rows && Fires(s, w, p)
    ensures var s := After(cfg, START, run);
            var t := Next(cfg, s, UpdateStale(w, p, jitter));
            && t.rows[p].attempts == s.rows[p].attempts + 1
            && s.rows[p].leaseExpires.Some? && s.rows[p].leaseExpires.value <= s.scans[w].now
            && (p, s.rows[p].token) !in s.recovered && (p, s.rows[p].token) in t.recovered
            && t.rows[p].status in {Failed, Dead}
            && forall q <- s.rows :: q != p ==> t.rows[q] == s.rows[q]
  {
    RunKeepsInv(cfg, START, run);
    var s := After(cfg, START, run);
    assert ScanOk(s, p, s.scans[w].rows[p]);
    assert (p, s.rows[p].token) in s.recovered ==> EndedOk(s, (p, s.rows[p].token));
  }

  /** An update that does not fire changes nothing, so unexpired and re-taken leases are safe. */
  lemma OtherRecoveriesDoNothing(cfg: Config, s: State, w: Worker, p: Pair, jitter: nat)
    requires w in s.scans && p in s.scans[w].rows
    ensures Next(cfg, s, UpdateStale(w, p, jitter)) == s <==> !Fires(s, w, p)
  {
    if Fires(s, w, p) {
      assert Next(cfg, s, UpdateStale(w, p, jitter)).rows[p].status != Sending;
    }
  }

  /** The statement is a save, a terminal write, a failure note or a recovery about the pair. */
  predicate IsAbout(s: State, a: Action, p: Pair)
    requires Enabled(s, a)
  {
    match a
    case Save(q, _, _, _) => q == p
    case WriteTerminal(q, _, _) => q == p
    case WriteFailure(w, _, _, _) => s.failureReads[w].0 == p
    case UpdateStale(_, q, _) => q == p
    case _ => false
  }

  predicate NothingAbout(cfg: Config, s: State, run: seq<Action>, p: Pair)
    requires Legal(cfg, s, run)
    decreases run
  {
    run == [] || (!IsAbout(s, run[0], p) && NothingAbout(cfg, Next(cfg, s, run[0]), run[1..], p))
  }

  /**
  A claim is exclusive. Whoever else claims, reads or recovers meanwhile, the row stays with its
  token until a statement about it; only then can another worker take it.
  */
  lemma {:induction false} LeaseIsExclusive(cfg: Config, s: State, run: seq<Action>, p: Pair)
    requires Legal(cfg, s, run) && NothingAbout(cfg, s, run, p) && p in s.rows && s.rows[p].status in {Sending, Sent}
    ensures Lookup(After(cfg, s, run).rows, p) == Some(s.rows[p])
    decreases run
  {
    if run != [] {
      assert Lookup(Next(cfg, s, run[0]).rows, p) == Some(s.rows[p]);
      LeaseIsExclusive(cfg, Next(cfg, s, run[0]), run[1..], p);
    }
  }

  /** And any other row is taken by the next claim, under its token and for the lease seconds. */
  lemma OtherRowsAreTaken(cfg: Config, s: State, p: Pair, now: int, token: nat)
    requires Enabled(s, Claim(p, now, token)) && (p in s.rows ==> s.rows[p].status !in {Sending, Sent})
    ensures var t := Next(cfg, s, Claim(p, now, token));
            && p in t.rows && t.rows[p].status == Sending && t.rows[p].token == Some(token)
            && t.rows[p].leaseExpires == Some(now + cfg.leaseSeconds)
            && t.rows[p].attempts == (if p in s.rows then s.rows[p].attempts else 0)
  {
  }

  lemma {:induction false} Extended(cfg: Config, s: State, run: seq<Action>, a: Action)
    requires Legal(cfg, s, run) && Enabled(After(cfg, s, run), a)
    ensures Legal(cfg, s, run + [a]) && After(cfg, s, run + [a]) == Next(cfg, After(cfg, s, run), a)
    decreases run
  {
    if run == [] {
      assert (run + [a])[1..] == [];
      assert Legal(cfg, Next(cfg, s, a), []);
    } else {
      assert (run + [a])[1..] == run[1..] + [a];
      Extended(cfg, Next(cfg, s, run[0]), run[1..], a);
    }
  }

  /**
  The guards of the single statements protect a `sent` row, and no more: `sent_unpersisted` is
  left by a claim, a failure note or a terminal write on the pair, and by nothing else. That
  it is never left in one poll loop is the loop's doing.
  */
  lemma SettledRowIsLeft(cfg: Config, s: State, a: Action, p: Pair)
    requires Enabled(s, a) && Settled(Lookup(s.rows, p))
    ensures !Settled(Lookup(Next(cfg, s, a).rows, p)) <==>
      && s.rows[p].status == SentUnpersisted
      && (|| (a.Claim? && a.p == p)
          || (a.WriteTerminal? && a.p == p)
          || (a.WriteFailure? && s.failureReads[a.w].0 == p && !SnapshotSent(s, a.w)))
  {
  }

  predicate SnapshotSent(s: State, w: Worker)
    requires w in s.failureReads
  {
    s.failureReads[w].1.Some? && s.failureReads[w].1.value.status == Sent
  }

  /** Claimed, delivered, saved in the degraded way, and claimed again by a second worker. */
  lemma UnpersistedIsReclaimed(cfg: Config, p: Pair) returns (run: seq<Action>)
    ensures Legal(cfg, START, run) && |run| == 3 && run[1] == Save(p, Degraded, 1, false)
    ensures var s := After(cfg, START, run); p in s.rows && s.rows[p].status == Sending && s.rows[p].token == Some(1)
  {
    run := [];
    Extended(cfg, START, run, Claim(p, 0, 0));
    run := [] + [Claim(p, 0, 0)];
    Extended(cfg, START, run, Save(p, Degraded, 1, false));
    run := run + [Save(p, Degraded, 1, false)];
    Extended(cfg, START, run, Claim(p, 2, 1));
    run := run + [Claim(p, 2, 1)];
  }

  function AttemptsOf(r: Option<Row>): nat { if r.Some? then r.value.attempts else 0 }

  /**
  A failure note adds exactly one to a row's attempts just when the row has not been sent
  meanwhile and the attempts its worker read are still the row's.
  */
  lemma FailureIsExactUnlessOutdated(cfg: Config, s: State, w: Worker, f: Failure, now: int, jitter: nat)
    requires w in s.failureReads
    requires var snapshot := s.failureReads[w].1; !(snapshot.Some? && snapshot.value.status == Sent)
    ensures var (p, snapshot) := s.failureReads[w];
            var (before, after) := (Lookup(s.rows, p), Next(cfg, s, WriteFailure(w, f, now, jitter)).rows);
            && p in after
            && (AttemptsOf(Some(after[p])) == AttemptsOf(before) + 1 <==>
                  !(before.Some? && before.value.status == Sent) && AttemptsOf(snapshot) == AttemptsOf(before))
  {
  }

  /**
  What does not survive concurrency is the bound on attempts: a failure note written from
  an old snapshot lowers the count. Worker 1 reads before the two failures worker 2 records.
  */
  lemma StaleFailureLowersAttempts(cfg: Config, p: Pair) returns (run: seq<Action>)
    requires cfg.maxAttempts > 2
    ensures Legal(cfg, START, run)
    ensures var s := After(cfg, START, run);
            var late := WriteFailure(1, Network, 102, 1000);
            && p in s.rows && s.rows[p].attempts == 2
            && Enabled(s, late) && Next(cfg, s, late).rows[p].attempts == 1
  {
    run := [];
    var script := [Claim(p, 0, 0), ReadForFailure(1, p),
                   ReadForFailure(2, p), WriteFailure(2, Network, 1, 1000),
                   Claim(p, 100, 1), ReadForFailure(2, p), WriteFailure(2, Network, 101, 1000)];
    Extended(cfg, START, run, script[0]); run := run + [script[0]];
    Extended(cfg, START, run, script[1]); run := run + [script[1]];
    Extended(cfg, START, run, script[2]); run := run + [script[2]];
    Extended(cfg, START, run, script[3]); run := run + [script[3]];
    Extended(cfg, START, run, script[4]); run := run + [script[4]];
    Extended(cfg, START, run, script[5]); run := run + [script[5]];
    Extended(cfg, START, run, script[6]); run := run + [script[6]];
  }
}
