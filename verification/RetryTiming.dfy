/**
When the poll loop comes back to a pair: how long a failure, a flood wait or a lease keeps it
away, and what is never taken up again. Stated of runs and of times, row by row.
*/
module RetryTiming {
  import opened Retries
  import opened SentRows
  import opened Wrappers
  import opened PollLoop

  // ---- failures ----

  /** The step records a failure of the pair the loop is at. */
  predicate NotesFailure(s: State, a: Action, p: Pair) {
    || (a.FailBeforeClaim? && s.control.Batch? && s.control.queue != [] && s.control.queue[0] == p)
    || (a.FailToSend? && (s.control.Holding? || s.control.Delivered?) && s.control.p == p)
  }

  /** The step recovers the pair's claim: its lease has run out. */
  predicate EndsLease(s: State, a: Action, p: Pair) {
    && a.Recover? && p in s.rows && s.rows[p].status == Sending
    && s.rows[p].leaseExpires.Some? && s.rows[p].leaseExpires.value <= a.now
  }

  function AttemptsOf(s: State, p: Pair): nat { if p in s.rows then s.rows[p].attempts else 0 }

  /** Telegram asks for a pause of its own. */
  predicate AsksToWait(a: Action) {
    (a.FailBeforeClaim? || a.FailToSend?) && a.f.FloodWait? && a.f.seconds.Some? && a.f.seconds.value != 0
  }

  /** Each failure counts one attempt. It is the last if the recipient is gone or the budget is used up. */
  lemma FailureCountsOne(cfg: Config, run: seq<Action>, a: Action, p: Pair)
    requires cfg.Valid() && Legal(cfg, START, run) && Enabled(After(cfg, START, run), a)
    requires NotesFailure(After(cfg, START, run), a, p)
    ensures var s := After(cfg, START, run);
            var (n, t) := (AttemptsOf(s, p) + 1, Next(cfg, s, a));
            && p in t.rows && t.rows[p].attempts == n
            && (t.rows[p].status == Dead <==> a.f in {Deactivated, MissingPeer} || n >= cfg.maxAttempts)
            && (t.rows[p].status == Failed <==> a.f !in {Deactivated, MissingPeer} && n < cfg.maxAttempts)
            && t.rows[p].lastError == Some(Raised(a.f))
  {
    AtHand(cfg, run);
  }

  /** A recovered claim counts one attempt too, and leaves no lease behind. */
  lemma RecoveryCountsOne(cfg: Config, run: seq<Action>, a: Action, p: Pair)
    requires cfg.Valid() && Legal(cfg, START, run) && Enabled(After(cfg, START, run), a)
    requires EndsLease(After(cfg, START, run), a, p)
    ensures var s := After(cfg, START, run);
            var (n, t) := (AttemptsOf(s, p) + 1, Next(cfg, s, a));
            && p in t.rows && t.rows[p].attempts == n && t.rows[p].leaseExpires.None? && t.rows[p].token.None?
            && t.rows[p].status == (if n >= cfg.maxAttempts then Dead else Failed)
            && t.rows[p].lastError == Some(StaleClaimRecovered)
  {
  }

  /** The pair the loop is at is open while it heads the queue, and `sending` while it is held. */
  lemma AtHand(cfg: Config, run: seq<Action>)
    requires cfg.Valid() && Legal(cfg, START, run)
    ensures var s := After(cfg, START, run);
            && (s.control.Batch? && s.control.queue != [] ==>
                  var p := s.control.queue[0]; p !in s.rows || s.rows[p].status == Failed)
            && (s.control.Holding? || s.control.Delivered? ==>
                  s.control.p in s.rows && s.rows[s.control.p].status == Sending)
  {
    RunKeepsInv(cfg, START, run);
    var s := After(cfg, START, run);
    if s.control.Batch? && s.control.queue != [] { assert s.control.queue[0] in s.control.queue; }
  }

  /** The pair is not selected before `from`. */
  ghost predicate AwayUntil(s: State, p: Pair, from: int) {
    forall queue: seq<Pair>, now: int :: Enabled(s, Select(queue, now)) && p in queue ==> now >= from
  }

  /** Between passes the pair can be selected from `from` on. */
  ghost predicate BackFrom(s: State, p: Pair, from: int) {
    forall now: int :: s.control.Idle? && now >= from ==> Enabled(s, Select([p], now))
  }

  /**
  A pair left `failed` with n attempts, by a failure or by a recovery at time t, is in no selection
  before t + 48 * min(2^(n-1), 60) while its row stays as it is, and can be selected from
  t + 72 * min(2^(n-1), 60) on.
  */
  lemma FailureKeepsAway(cfg: Config, run: seq<Action>, a: Action, p: Pair, jitter: nat, later: seq<Action>)
    requires cfg.Valid() && Legal(cfg, START, run) && Enabled(After(cfg, START, run), a)
    requires var s := After(cfg, START, run);
             || (NotesFailure(s, a, p) && !AsksToWait(a) && a.jitter == jitter)
             || (EndsLease(s, a, p) && a.jitters(p) == jitter)
    requires 800 <= jitter <= 1200
    requires var t := Next(cfg, After(cfg, START, run), a);
             && p in t.rows && t.rows[p].status == Failed && Legal(cfg, t, later)
             && Lookup(After(cfg, t, later).rows, p) == Some(t.rows[p])
    ensures var t := Next(cfg, After(cfg, START, run), a);
            var (u, units) := (After(cfg, t, later), Min(Pow2(AttemptsOf(After(cfg, START, run), p)), 60));
            AwayUntil(u, p, a.now + 48 * units) && BackFrom(u, p, a.now + 72 * units)
  {
    AtHand(cfg, run);
    JitteredBackoff(AttemptsOf(After(cfg, START, run), p) + 1, jitter);
  }

  /** A flood wait is kept to the second: the pair is away for the seconds asked for, one at least, and no longer. */
  lemma FloodWaitIsKept(cfg: Config, run: seq<Action>, a: Action, p: Pair, later: seq<Action>)
    requires cfg.Valid() && Legal(cfg, START, run) && Enabled(After(cfg, START, run), a)
    requires NotesFailure(After(cfg, START, run), a, p) && AsksToWait(a)
    requires var t := Next(cfg, After(cfg, START, run), a);
             && p in t.rows && t.rows[p].status == Failed && Legal(cfg, t, later)
             && Lookup(After(cfg, t, later).rows, p) == Some(t.rows[p])
    ensures var u := After(cfg, Next(cfg, After(cfg, START, run), a), later);
            var wait := if a.f.seconds.value > 0 then a.f.seconds.value else 1;
            AwayUntil(u, p, a.now + wait) && BackFrom(u, p, a.now + wait)
  {
    AtHand(cfg, run);
  }

  // ---- leases ----

  /** A claim is taken by a pair that is open, under the new token. */
  lemma ClaimIsTaken(cfg: Config, run: seq<Action>, now: int, token: nat)
    requires cfg.Valid() && Legal(cfg, START, run) && Enabled(After(cfg, START, run), Claim(now, token))
    ensures var s := After(cfg, START, run);
            var (p, t) := (s.control.queue[0], Next(cfg, s, Claim(now, token)));
            && t.control == Holding(p, s.control.queue[1..]) && p in t.rows && t.rows[p].status == Sending
            && t.rows[p].token == Some(token) && t.rows[p].attempts == AttemptsOf(s, p)
            && t.rows[p].claimedAt == Some(now) && ClaimsOf(t, p) == ClaimsOf(s, p) + 1
  {
    AtHand(cfg, run);
  }

  /**
  A claim holds for the lease: while its row stays as it is, no selection takes the pair, and a
  recovery moves it exactly when the lease seconds have passed since the claim.
  */
  lemma LeaseIsKept(cfg: Config, run: seq<Action>, now: int, token: nat, later: seq<Action>, at: int,
          jitters: Pair -> nat)
    requires cfg.Valid() && Legal(cfg, START, run) && Enabled(After(cfg, START, run), Claim(now, token))
    requires var (s, p) := (After(cfg, START, run), After(cfg, START, run).control.queue[0]);
             var t := Next(cfg, s, Claim(now, token));
             && Legal(cfg, t, later) && After(cfg, t, later).control.Idle?
             && Lookup(After(cfg, t, later).rows, p) == Lookup(t.rows, p)
    ensures var (s, p) := (After(cfg, START, run), After(cfg, START, run).control.queue[0]);
            var u := After(cfg, Next(cfg, s, Claim(now, token)), later);
            && (forall queue, time :: Enabled(u, Select(queue, time)) ==> p !in queue)
            && (Lookup(Next(cfg, u, Recover(at, jitters)).rows, p) != Lookup(u.rows, p) <==>
                  at >= now + cfg.leaseSeconds)
  {
    ClaimIsTaken(cfg, run, now, token);
  }

  // ---- what is closed stays closed ----

  /** Sent in either way, dead, or turned away. */
  predicate Closed(r: Option<Row>) {
    r.Some? && r.value.status != Sending && r.value.status != Failed
  }

  /** In every run the row of a closed pair never changes, and the pair is never claimed again. */
  lemma {:induction false} ClosedForGood(cfg: Config, s: State, later: seq<Action>, p: Pair)
    requires cfg.Valid() && Inv(cfg, s) && Legal(cfg, s, later) && Closed(Lookup(s.rows, p))
    ensures var t := After(cfg, s, later);
            Lookup(t.rows, p) == Lookup(s.rows, p) && ClaimsOf(t, p) == ClaimsOf(s, p)
    decreases later
  {
    if later != [] {
      ClosedInOneStep(cfg, s, later[0], p);
      StepKeepsInv(cfg, s, later[0]);
      ClosedForGood(cfg, Next(cfg, s, later[0]), later[1..], p);
    }
  }

  lemma ClosedInOneStep(cfg: Config, s: State, a: Action, p: Pair)
    requires cfg.Valid() && Inv(cfg, s) && Enabled(s, a) && Closed(Lookup(s.rows, p))
    ensures var t := Next(cfg, s, a); Lookup(t.rows, p) == Lookup(s.rows, p) && ClaimsOf(t, p) == ClaimsOf(s, p)
  {
    if s.control.Batch? && s.control.queue != [] { assert s.control.queue[0] in s.control.queue; }
  }

  /** A pair turned away keeps the reason for good and is never claimed again. */
  lemma TurnedAwayForGood(cfg: Config, run: seq<Action>, state: TerminalState, now: int, later: seq<Action>)
    requires cfg.Valid() && Legal(cfg, START, run) && Enabled(After(cfg, START, run), TurnAway(state, now))
    requires Legal(cfg, Next(cfg, After(cfg, START, run), TurnAway(state, now)), later)
    ensures var (s, p) := (After(cfg, START, run), After(cfg, START, run).control.queue[0]);
            var u := After(cfg, Next(cfg, s, TurnAway(state, now)), later);
            && p in u.rows && u.rows[p].status == Terminal(state) && u.rows[p].lastError == Some(Reason(state))
            && u.rows[p].attempts == AttemptsOf(s, p) && ClaimsOf(u, p) == ClaimsOf(s, p)
            && u.rows[p].claimedAt == (if p in s.rows then s.rows[p].claimedAt else Some(now))
  {
    AtHand(cfg, run);
    RunKeepsInv(cfg, START, run);
    var s := After(cfg, START, run);
    StepKeepsInv(cfg, s, TurnAway(state, now));
    ClosedForGood(cfg, Next(cfg, s, TurnAway(state, now)), later, s.control.queue[0]);
  }

  /** Suppression closes for good every listed pair that has no row yet, and touches no pair that has one. */
  lemma SuppressedForGood(cfg: Config, run: seq<Action>, pairs: set<Pair>, now: int, later: seq<Action>, p: Pair)
    requires cfg.Valid() && Legal(cfg, START, run)
    requires Enabled(After(cfg, START, run), SuppressBelowCutoff(pairs, now))
    requires Legal(cfg, Next(cfg, After(cfg, START, run), SuppressBelowCutoff(pairs, now)), later)
    ensures var s := After(cfg, START, run);
            var t := Next(cfg, s, SuppressBelowCutoff(pairs, now));
            && (p in s.rows || p !in pairs ==> Lookup(t.rows, p) == Lookup(s.rows, p))
            && (p !in s.rows && p in pairs ==>
                  && p in After(cfg, t, later).rows && After(cfg, t, later).rows[p].status == Terminal(CutoffSuppressed)
                  && After(cfg, t, later).rows[p].lastError == Some(Reason(CutoffSuppressed))
                  && ClaimsOf(After(cfg, t, later), p) == 0)
  {
    RunKeepsInv(cfg, START, run);
    var s := After(cfg, START, run);
    var a := SuppressBelowCutoff(pairs, now);
    StepKeepsInv(cfg, s, a);
    if p !in s.rows && p in pairs {
      assert RowSound(cfg, Lookup(s.rows, p), ClaimsOf(s, p));
      ClosedForGood(cfg, Next(cfg, s, a), later, p);
    }
  }

  // ---- saves ----

  /**
  What a save leaves for good. The full write says `sent`, the degraded one `sent_unpersisted`, both
  with the time of sending; a plain-text send is remembered by the full one.
  */
  lemma SavedForGood(cfg: Config, run: seq<Action>, outcome: SaveResult, now: int, fallback: bool, later: seq<Action>)
    requires cfg.Valid() && Legal(cfg, START, run) && Enabled(After(cfg, START, run), Save(outcome, now, fallback))
    requires Legal(cfg, Next(cfg, After(cfg, START, run), Save(outcome, now, fallback)), later)
    requires outcome.Full? || outcome.Degraded?
    ensures var (s, p) := (After(cfg, START, run), After(cfg, START, run).control.p);
            var u := After(cfg, Next(cfg, s, Save(outcome, now, fallback)), later);
            && p in s.rows && p in u.rows && u.rows[p].sentAt == Some(now)
            && u.rows[p].status == (if outcome.Full? then Sent else SentUnpersisted)
            && (u.rows[p].fallbackUsed <==> s.rows[p].fallbackUsed || (outcome.Full? && fallback))
            && u.rows[p].attempts == s.rows[p].attempts
  {
    AtHand(cfg, run);
    RunKeepsInv(cfg, START, run);
    var s := After(cfg, START, run);
    StepKeepsInv(cfg, s, Save(outcome, now, fallback));
    ClosedForGood(cfg, Next(cfg, s, Save(outcome, now, fallback)), later, s.control.p);
  }

  /**
  A save on any row, or none. The full one makes it `sent`, clears its retry time, and remembers a
  plain-text send; the degraded one marks a row that is not `sent` as deferred; the others write nothing.
  */
  lemma SaveInWords(rows: Rows, p: Pair, outcome: SaveResult, now: int, fallback: bool)
    ensures var after := Saved(rows, p, outcome, now, fallback);
            && (forall q :: q != p ==> Lookup(after, q) == Lookup(rows, q))
            && (outcome.Full? ==>
                  && p in after && after[p].status == Sent && after[p].sentAt == Some(now) && after[p].nextAttempt.None?
                  && (after[p].fallbackUsed <==> fallback || (p in rows && rows[p].fallbackUsed))
                  && after[p].attempts == (if p in rows then rows[p].attempts else 0))
            && (outcome.Degraded? && p in rows && rows[p].status != Sent ==>
                  && p in after && after[p].status == SentUnpersisted && after[p].sentAt == Some(now)
                  && after[p].lastError == Some(PersistDeferred) && after[p].attempts == rows[p].attempts)
            && (outcome.Degraded? && !(p in rows && rows[p].status != Sent) ==> after == rows)
            && (outcome.Lost? || outcome.Uncaught? ==> after == rows)
  {
    if outcome.Degraded? && p in rows && rows[p].status == Sent { assert rows[p := rows[p]] == rows; }
  }

  /** A terminal outcome is written over anything but a row that is sent, dead or closed already. */
  lemma TerminalInWords(r: Option<Row>, state: TerminalState, now: int)
    ensures var row := TerminalWritten(r, state, now);
            && (r.Some? && (r.value.status == Sent || r.value.status == Dead || r.value.status.Terminal?) ==>
                  row == r.value)
            && (!(r.Some? && (r.value.status == Sent || r.value.status == Dead || r.value.status.Terminal?)) ==>
                  row.status == Terminal(state) && row.lastError == Some(Reason(state)) &&
                    row.attempts == (if r.Some? then r.value.attempts else 0))
  {
  }

  /** A failure is recorded over anything but a row that is sent, and drops no other column. */
  lemma NoteInWords(cfg: Config, r: Option<Row>, f: Failure, now: int, jitter: nat)
    ensures var row := FailureRecorded(cfg, r, f, now, jitter);
            && (r.Some? && r.value.status == Sent ==> row == r.value)
            && (!(r.Some? && r.value.status == Sent) ==>
                  && row.attempts == (if r.Some? then r.value.attempts else 0) + 1
                  && row.lastError == Some(Raised(f)) && row.status in {Failed, Dead}
                  && (row.status == Dead ==> row.nextAttempt.None?)
                  && (r.Some? ==>
                        && row.token == r.value.token && row.leaseExpires == r.value.leaseExpires
                        && row.sentAt == r.value.sentAt && row.fallbackUsed == r.value.fallbackUsed))
  {
  }

  /** Try `i` is the first that is not locked out. */
  predicate Decides(tries: seq<Try>, i: nat) {
    i < |tries| && tries[i] != Locked && forall j :: 0 <= j < i ==> tries[j] == Locked
  }

  /** The first try that is not locked out decides the save; the degraded write comes only when all are. */
  lemma {:induction false} FirstTryDecides(tries: seq<Try>, degradedOk: bool)
    ensures var o := SaveOutcome(tries, degradedOk);
            && (forall i: nat :: Decides(tries, i) ==>
                  && (o.Full? <==> tries[i] == Committed) && (o.Uncaught? <==> tries[i] == Try.NoConnection)
                  && !o.Degraded?)
            && ((forall t <- tries :: t == Locked) ==> o == if degradedOk then Degraded else Lost)
  {
    if tries != [] {
      FirstTryDecides(tries[1..], degradedOk);
      forall i: nat | Decides(tries, i) && i > 0 ensures Decides(tries[1..], i - 1) { }
      assert tries[0] in tries && forall t <- tries[1..] :: t in tries;
    }
  }
}
