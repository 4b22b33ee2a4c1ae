/**
One poll loop over the delivery ledger, as a machine whose steps are the loop's
database statements and sends. A crash or restart may come between any two steps:
it drops the loop's memory and keeps the table.
*/
module PollLoop {
  import opened Retries
  import opened SentRows
  import opened Wrappers

  /** Where the loop is: between passes, at the head of a batch, holding a claim, or past a send. */
  datatype Control =
    | Idle
    | Batch(queue: seq<Pair>)
    | Holding(p: Pair, queue: seq<Pair>)
    | Delivered(p: Pair, queue: seq<Pair>)

  /** `claims` and `saved` are history: claims taken per pair, and pairs whose save returned True. */
  datatype State = State(rows: Rows, control: Control, claims: map<Pair, nat>, saved: set<Pair>)

  datatype Action =
    | Recover(now: int, jitters: Pair -> nat)
    | SuppressBelowCutoff(pairs: set<Pair>, now: int)
    | Select(queue: seq<Pair>, now: int)
    | TurnAway(state: TerminalState, now: int)                  // an access check fails at the head
    | Claim(now: int, token: nat)
    | FailBeforeClaim(f: Failure, now: int, jitter: nat)        // an exception ahead of the claim
    | FailToSend(f: Failure, now: int, jitter: nat)             // placeholder or send failure, or a save that raised
    | Pass                                                      // the write itself fails: nothing recorded
    | Send                                                      // Telegram accepts the message
    | Save(outcome: SaveResult, now: int, fallback: bool)
    | EndBatch
    | Crash                                                     // or a pass cut short by an exception

  const START := State(map[], Idle, map[], {})

  function ClaimsOf(s: State, p: Pair): nat {
    if p in s.claims then s.claims[p] else 0
  }

  predicate Distinct(q: seq<Pair>) {
    forall i, j :: 0 <= i < j < |q| ==> q[i] != q[j]
  }

  predicate Enabled(s: State, a: Action) {
    match a
    case Recover(_, _) => s.control.Idle?
    case SuppressBelowCutoff(_, _) => s.control.Idle?
    case Select(queue, now) =>
      s.control.Idle? && Distinct(queue) && forall p <- queue :: Selectable(Lookup(s.rows, p), now)
    case TurnAway(_, _) => s.control.Batch? && s.control.queue != []
    case Claim(_, _) => s.control.Batch? && s.control.queue != []
    case FailBeforeClaim(_, _, _) => s.control.Batch? && s.control.queue != []
    case FailToSend(_, _, _) => s.control.Holding? || s.control.Delivered?
    case Pass => (s.control.Batch? && s.control.queue != []) || s.control.Holding? || s.control.Delivered?
    case Send => s.control.Holding?
    case Save(outcome, _, _) => s.control.Delivered? && !outcome.Uncaught?
    case EndBatch => s.control == Batch([])
    case Crash => true
  }

  function Suppressed(rows: Rows, pairs: set<Pair>, now: int): Rows {
    map p | p in rows.Keys + pairs ::
      if p in rows then rows[p]
      else BLANK.(status := Terminal(CutoffSuppressed), lastError := Some(Reason(CutoffSuppressed)))
  }

  function Next(cfg: Config, s: State, a: Action): State
    requires Enabled(s, a)
  {
    match a
    case Recover(now, jitters) => s.(rows := RecoveredAll(cfg, s.rows, now, jitters))
    case SuppressBelowCutoff(pairs, now) => s.(rows := Suppressed(s.rows, pairs, now))
    case Select(queue, _) => s.(control := Batch(queue))
    case TurnAway(state, now) =>
      var p := s.control.queue[0];
      s.(rows := s.rows[p := TerminalWritten(Lookup(s.rows, p), state, now)], control := Batch(s.control.queue[1..]))
    case Claim(now, token) =>
      var (p, rest) := (s.control.queue[0], s.control.queue[1..]);
      if ClaimRefused(Lookup(s.rows, p)) then s.(control := Batch(rest))
      else s.(rows := s.rows[p := Claimed(cfg, Lookup(s.rows, p), now, token)],
              control := Holding(p, rest), claims := s.claims[p := ClaimsOf(s, p) + 1])
    case FailBeforeClaim(f, now, jitter) =>
      var p := s.control.queue[0];
      s.(rows := s.rows[p := FailureRecorded(cfg, Lookup(s.rows, p), f, now, jitter)],
        control := Batch(s.control.queue[1..]))
    case FailToSend(f, now, jitter) =>
      var p := s.control.p;
      s.(rows := s.rows[p := FailureRecorded(cfg, Lookup(s.rows, p), f, now, jitter)],
        control := Batch(s.control.queue))
    case Pass => s.(control := Batch(if s.control.Batch? then s.control.queue[1..] else s.control.queue))
    case Send => s.(control := Delivered(s.control.p, s.control.queue))
    case Save(outcome, now, fallback) =>
      var p := s.control.p;
      s.(rows := Saved(s.rows, p, outcome, now, fallback), control := Batch(s.control.queue),
         saved := if outcome.Ok() then s.saved + {p} else s.saved)
    case EndBatch => s.(control := Idle)
    case Crash => s.(control := Idle)
  }

  // ---- runs ----

  predicate Legal(cfg: Config, s: State, run: seq<Action>)
    decreases run
  {
    run == [] || (Enabled(s, run[0]) && Legal(cfg, Next(cfg, s, run[0]), run[1..]))
  }

  function After(cfg: Config, s: State, run: seq<Action>): State
    requires Legal(cfg, s, run)
    decreases run
  {
    if run == [] then s else After(cfg, Next(cfg, s, run[0]), run[1..])
  }

  lemma {:induction false} RunsCompose(cfg: Config, s: State, first: seq<Action>, second: seq<Action>)
    requires Legal(cfg, s, first)
    ensures Legal(cfg, s, first + second) <==> Legal(cfg, After(cfg, s, first), second)
    ensures Legal(cfg, s, first + second) ==> After(cfg, s, first + second) == After(cfg, After(cfg, s, first), second)
    decreases first
  {
    if first == [] {
      assert first + second == second;
    } else {
      assert (first + second)[1..] == first[1..] + second;
      RunsCompose(cfg, Next(cfg, s, first[0]), first[1..], second);
    }
  }

  lemma Extended(cfg: Config, s: State, run: seq<Action>, a: Action)
    requires Legal(cfg, s, run) && Enabled(After(cfg, s, run), a)
    ensures Legal(cfg, s, run + [a])
    ensures After(cfg, s, run + [a]) == Next(cfg, After(cfg, s, run), a)
  {
    var t := After(cfg, s, run);
    assert Legal(cfg, t, [a]) && After(cfg, t, [a]) == Next(cfg, t, a) by {
      assert [a][1..] == [];
      assert Legal(cfg, Next(cfg, t, a), []);
    }
    RunsCompose(cfg, s, run, [a]);
  }

  // ---- the invariant ----

  /** How a row's attempts and the claims taken on its pair bound each other. */
  predicate RowSound(cfg: Config, r: Option<Row>, claims: nat) {
    match r
    case None => claims == 0
    case Some(row) =>
      match row.status
      case Failed => claims <= row.attempts < cfg.maxAttempts
      case Terminal(_) => claims <= row.attempts < cfg.maxAttempts
      case Sending => row.attempts < cfg.maxAttempts && claims <= row.attempts + 1
      case Sent => row.attempts < cfg.maxAttempts && claims <= row.attempts + 1
      case SentUnpersisted => row.attempts < cfg.maxAttempts && claims <= row.attempts + 1
      case Dead => claims <= row.attempts <= cfg.maxAttempts
  }

  predicate Open(r: Option<Row>) {
    r.None? || r.value.status == Failed
  }

  predicate QueueSound(s: State, q: seq<Pair>) {
    Distinct(q) && forall p <- q :: Open(Lookup(s.rows, p))
  }

  predicate ControlSound(s: State) {
    match s.control
    case Idle => true
    case Batch(q) => QueueSound(s, q)
    case Holding(p, q) => QueueSound(s, q) && p !in q && p in s.rows && s.rows[p].status == Sending
    case Delivered(p, q) => QueueSound(s, q) && p !in q && p in s.rows && s.rows[p].status == Sending
  }

  ghost predicate Inv(cfg: Config, s: State) {
    && (forall p: Pair {:trigger RowSound(cfg, Lookup(s.rows, p), ClaimsOf(s, p))} ::
          RowSound(cfg, Lookup(s.rows, p), ClaimsOf(s, p)))
    && ControlSound(s)
    && (forall p <- s.saved :: Settled(Lookup(s.rows, p)))
  }

  /** One pair's part of a step: what the invariant and the measure need to know. */
  lemma StepKeepsRows(cfg: Config, s: State, a: Action, p: Pair)
    requires cfg.Valid() && Inv(cfg, s) && Enabled(s, a)
    ensures var t := Next(cfg, s, a);
            && RowSound(cfg, Lookup(t.rows, p), ClaimsOf(t, p))
            && (p in s.saved ==> Lookup(t.rows, p) == Lookup(s.rows, p) && ClaimsOf(t, p) == ClaimsOf(s, p))
            && (Lookup(t.rows, p) != Lookup(s.rows, p) ==>
              Energy(cfg, Lookup(t.rows, p)) < Energy(cfg, Lookup(s.rows, p)))
  {
    assert RowSound(cfg, Lookup(s.rows, p), ClaimsOf(s, p));
    assert p in s.saved ==> Settled(Lookup(s.rows, p));
    if !s.control.Idle? && |s.control.queue| > 0 { assert s.control.queue[0] in s.control.queue; }
    RowInOneStep(cfg, s, a, p);
  }

  /** How a step treats one sound row, given that the loop only ever handles open or claimed rows. */
  lemma RowInOneStep(cfg: Config, s: State, a: Action, p: Pair)
    requires cfg.Valid() && Enabled(s, a) && RowSound(cfg, Lookup(s.rows, p), ClaimsOf(s, p))
    requires s.control.Batch? && s.control.queue != [] && s.control.queue[0] == p ==> Open(Lookup(s.rows, p))
    requires (s.control.Holding? || s.control.Delivered?) && s.control.p == p ==>
      p in s.rows && s.rows[p].status == Sending
    ensures var t := Next(cfg, s, a);
            && RowSound(cfg, Lookup(t.rows, p), ClaimsOf(t, p))
            && (Settled(Lookup(s.rows, p)) ==>
              Lookup(t.rows, p) == Lookup(s.rows, p) && ClaimsOf(t, p) == ClaimsOf(s, p))
            && (Lookup(t.rows, p) != Lookup(s.rows, p) ==>
              Energy(cfg, Lookup(t.rows, p)) < Energy(cfg, Lookup(s.rows, p)))
  {
  }

  lemma StepKeepsInv(cfg: Config, s: State, a: Action)
    requires cfg.Valid() && Inv(cfg, s) && Enabled(s, a)
    ensures Inv(cfg, Next(cfg, s, a))
  {
    var t := Next(cfg, s, a);
    forall p: Pair ensures RowSound(cfg, Lookup(t.rows, p), ClaimsOf(t, p)) {
      StepKeepsRows(cfg, s, a, p);
    }
    forall p | p in t.saved ensures Settled(Lookup(t.rows, p)) {
      if p in s.saved { StepKeepsRows(cfg, s, a, p); }
    }
    StepKeepsControl(cfg, s, a);
  }

  lemma StepKeepsControl(cfg: Config, s: State, a: Action)
    requires Inv(cfg, s) && Enabled(s, a)
    ensures ControlSound(Next(cfg, s, a))
  {
    if s.control.Batch? && s.control.queue != [] {
      var q := s.control.queue;
      assert forall p <- q[1..] :: p in q && p != q[0];
    }
  }

  lemma {:induction false} RunKeepsInv(cfg: Config, s: State, run: seq<Action>)
    requires cfg.Valid() && Inv(cfg, s) && Legal(cfg, s, run)
    ensures Inv(cfg, After(cfg, s, run))
    decreases run
  {
    if run != [] {
      StepKeepsInv(cfg, s, run[0]);
      RunKeepsInv(cfg, Next(cfg, s, run[0]), run[1..]);
    }
  }

  // ---- main results ----

  /** A pair is claimed at most `maxAttempts` times, and no row counts more attempts than that. */
  lemma ClaimsAreBounded(cfg: Config, run: seq<Action>, p: Pair)
    requires cfg.Valid() && Legal(cfg, START, run)
    ensures var s := After(cfg, START, run);
            ClaimsOf(s, p) <= cfg.maxAttempts && (p in s.rows ==> s.rows[p].attempts <= cfg.maxAttempts)
  {
    RunKeepsInv(cfg, START, run);
    var s := After(cfg, START, run);
    assert RowSound(cfg, Lookup(s.rows, p), ClaimsOf(s, p));
  }

  /**
  Once a save has returned True, by the full or the degraded write, the pair's row
  never changes again and the pair is never claimed, held or sent again.
  */
  lemma {:induction false} SavedIsFinal(cfg: Config, s: State, later: seq<Action>, p: Pair)
    requires cfg.Valid() && Inv(cfg, s) && Legal(cfg, s, later) && p in s.saved
    ensures var t := After(cfg, s, later);
            && p in t.saved && Lookup(t.rows, p) == Lookup(s.rows, p) && ClaimsOf(t, p) == ClaimsOf(s, p)
            && !(t.control.Holding? && t.control.p == p) && !(t.control.Delivered? && t.control.p == p)
    decreases later
  {
    assert Settled(Lookup(s.rows, p));
    if later != [] {
      StepKeepsRows(cfg, s, later[0], p);
      StepKeepsInv(cfg, s, later[0]);
      SavedIsFinal(cfg, Next(cfg, s, later[0]), later[1..], p);
    }
  }

  /**
  A message Telegram accepted is settled by a save that goes through and by nothing else: a
  lost save, a save that raised, a failed note or a crash leave a row that is sent again.
  */
  lemma AcceptedIsSettledOnlyBySave(cfg: Config, s: State, a: Action)
    requires cfg.Valid() && Inv(cfg, s) && Enabled(s, a) && s.control.Delivered?
    ensures var (t, p) := (Next(cfg, s, a), s.control.p);
            && (Settled(Lookup(t.rows, p)) <==> a.Save? && a.outcome.Ok())
            && (p in t.saved <==> a.Save? && a.outcome.Ok())
            && (!Settled(Lookup(t.rows, p)) ==> p in t.rows && t.rows[p].status in {Sending, Failed, Dead})
  {
    var p := s.control.p;
    assert p in s.saved ==> Settled(Lookup(s.rows, p));

  }

  /** From between passes: select one due pair, claim it, and have its message accepted. */
  lemma Accepted(cfg: Config, run: seq<Action>, p: Pair, now: int, token: nat) returns (longer: seq<Action>)
    requires Legal(cfg, START, run)
    requires var s := After(cfg, START, run); s.control.Idle? && Selectable(Lookup(s.rows, p), now)
    ensures longer == run + [Select([p], now), Claim(now, token), Send] && Legal(cfg, START, longer)
    ensures var (s, t) := (After(cfg, START, run), After(cfg, START, longer));
            && t.control == Delivered(p, []) && ClaimsOf(t, p) == ClaimsOf(s, p) + 1
            && Lookup(t.rows, p) == Some(Claimed(cfg, Lookup(s.rows, p), now, token))
  {
    longer := run;
    Extended(cfg, START, longer, Select([p], now));
    longer := longer + [Select([p], now)];
    Extended(cfg, START, longer, Claim(now, token));
    longer := longer + [Claim(now, token)];
    Extended(cfg, START, longer, Send);
    longer := longer + [Send];
  }

  /** A save that could not open its connection: the accepted message is noted as failed, and accepted again. */
  lemma AcceptedTwice(cfg: Config, p: Pair) returns (run: seq<Action>)
    requires cfg.Valid() && cfg.maxAttempts > 1
    ensures Legal(cfg, START, run)
    ensures var s := After(cfg, START, run); s.control == Delivered(p, []) && ClaimsOf(s, p) == 2
    ensures |run| == 8 && run[2] == Send && run[3].FailToSend? && run[7] == Send
  {
    run := Accepted(cfg, [], p, 0, 0);
    Extended(cfg, START, run, FailToSend(DbBusy, 0, 1000));
    run := run + [FailToSend(DbBusy, 0, 1000)];
    Extended(cfg, START, run, EndBatch);
    run := run + [EndBatch];
    BackoffGrowsToAnHour(1, 1);
    assert Selectable(Lookup(After(cfg, START, run).rows, p), 3600);
    run := Accepted(cfg, run, p, 3600, 1);
  }

  /** What a row can still go through: it falls on every change of the row. */
  function Energy(cfg: Config, r: Option<Row>): nat {
    match r
    case None => 2 * cfg.maxAttempts + 1
    case Some(row) =>
      if row.attempts >= cfg.maxAttempts then 0
      else if row.status == Failed then 2 * (cfg.maxAttempts - row.attempts)
      else if row.status == Sending then 2 * (cfg.maxAttempts - row.attempts) - 1
      else 0
  }

  // ---- quiescence ----

  function TotalEnergy(cfg: Config, s: State, pairs: seq<Pair>): nat {
    if pairs == [] then 0 else Energy(cfg, Lookup(s.rows, pairs[0])) + TotalEnergy(cfg, s, pairs[1..])
  }

  /** How many steps of a run change the row of some pair in `pairs`. */
  function Changes(cfg: Config, s: State, run: seq<Action>, pairs: seq<Pair>): nat
    requires Legal(cfg, s, run)
    decreases run
  {
    if run == [] then 0
    else var t := Next(cfg, s, run[0]);
      (if exists p <- pairs :: Lookup(t.rows, p) != Lookup(s.rows, p) then 1 else 0)
      + Changes(cfg, t, run[1..], pairs)
  }

  lemma {:induction false} EnergyFalls(cfg: Config, s: State, a: Action, pairs: seq<Pair>)
    requires cfg.Valid() && Inv(cfg, s) && Enabled(s, a)
    ensures var t := Next(cfg, s, a);
            && TotalEnergy(cfg, t, pairs) <= TotalEnergy(cfg, s, pairs)
            && ((exists p <- pairs :: Lookup(t.rows, p) != Lookup(s.rows, p)) ==>
                  TotalEnergy(cfg, t, pairs) < TotalEnergy(cfg, s, pairs))
  {
    if pairs != [] {
      StepKeepsRows(cfg, s, a, pairs[0]);
      EnergyFalls(cfg, s, a, pairs[1..]);
    }
  }

  /** However long a run is, the rows of a finite set of pairs change a bounded number of times. */
  lemma {:induction false} RunsQuiesce(cfg: Config, s: State, run: seq<Action>, pairs: seq<Pair>)
    requires cfg.Valid() && Inv(cfg, s) && Legal(cfg, s, run)
    ensures Changes(cfg, s, run, pairs) + TotalEnergy(cfg, After(cfg, s, run), pairs) <= TotalEnergy(cfg, s, pairs)
    ensures Changes(cfg, s, run, pairs) <= |pairs| * (2 * cfg.maxAttempts + 1)
    decreases run
  {
    TotalEnergyBounded(cfg, s, pairs);
    if run != [] {
      EnergyFalls(cfg, s, run[0], pairs);
      StepKeepsInv(cfg, s, run[0]);
      RunsQuiesce(cfg, Next(cfg, s, run[0]), run[1..], pairs);
    }
  }

  lemma {:induction false} TotalEnergyBounded(cfg: Config, s: State, pairs: seq<Pair>)
    ensures TotalEnergy(cfg, s, pairs) <= |pairs| * (2 * cfg.maxAttempts + 1)
  {
    if pairs != [] {
      TotalEnergyBounded(cfg, s, pairs[1..]);
      var (k, n) := (2 * cfg.maxAttempts + 1, |pairs| - 1);
      assert Energy(cfg, Lookup(s.rows, pairs[0])) <= k;
      assert (n + 1) * k == n * k + k;
    }
  }
}
