/**
The delivery ledger: one row per (user, event), changed only by guarded upserts.
A row function gives what one SQL statement does to one row; `SentTable` runs the
statements on the table. Instants are integers (module IsoTime), an empty text
column is `None`.
*/
module SentRows {
  import opened Retries
  import opened Wrappers

  datatype TerminalState = AccessDenied | ManagerDeleted | InvalidEvent | CutoffSuppressed

  datatype Status = Sending | Failed | Dead | Sent | SentUnpersisted | Terminal(state: TerminalState)

  /** The exception classes the delivery path tells apart. */
  datatype Failure =
    | Deactivated | MissingPeer
    | FloodWait(seconds: Option<int>) | DbBusy | Network | Formatting | Unexpected

  datatype ErrorTag = Raised(failure: Failure) | StaleClaimRecovered | PersistDeferred | Reason(state: TerminalState)

  datatype Row = Row(
    status: Status,
    attempts: nat,
    nextAttempt: Option<int>,
    lastError: Option<ErrorTag>,
    sentAt: Option<int>,
    fallbackUsed: bool,
    claimedAt: Option<int>,
    token: Option<nat>,
    leaseExpires: Option<int>)

  /** The two settings read from the environment, with the floors the code puts on them. */
  datatype Config = Config(maxAttempts: nat, leaseSeconds: nat)
  {
    predicate Valid() { maxAttempts >= 1 && leaseSeconds >= 10 }
  }

  const BLANK := Row(Failed, 0, None, None, None, false, None, None, None)

  // ---- choosing the next attempt ----

  /** `jitter` is the random factor in thousandths, 800 to 1200. */
  function RetryAt(attempts: nat, now: int, jitter: nat): int {
    now + BackoffSeconds(attempts) * jitter / 1000
  }

  predicate Retryable(f: Failure) { !f.Deactivated? && !f.MissingPeer? }

  function Cooldown(f: Failure): Option<int> {
    if f.FloodWait? && f.seconds.Some? && f.seconds.value != 0
    then Some(if f.seconds.value < 1 then 1 else f.seconds.value) else None
  }

  // ---- one statement on one row ----

  /** What the ordinary selection admits: never attempted, or failed and due. */
  predicate Selectable(r: Option<Row>, now: int) {
    r.None? || (r.value.status == Failed && (r.value.nextAttempt.None? || r.value.nextAttempt.value <= now))
  }

  predicate ClaimRefused(r: Option<Row>) {
    r.Some? && r.value.status in {Sent, Sending}
  }

  function Claimed(cfg: Config, r: Option<Row>, now: int, token: nat): Row {
    (if r.None? then BLANK else r.value).(
      status := Sending, claimedAt := Some(now), token := Some(token), leaseExpires := Some(now + cfg.leaseSeconds))
  }

  /** What a failed attempt writes, computed from a snapshot of the row. */
  datatype Note = Note(attempts: nat, status: Status, nextAttempt: Option<int>, error: Failure)

  function FailureNote(cfg: Config, snapshot: Option<Row>, f: Failure, now: int, jitter: nat): Note {
    var attempts := (if snapshot.None? then 0 else snapshot.value.attempts) + 1;
    if !Retryable(f) || attempts >= cfg.maxAttempts then Note(attempts, Dead, None, f)
    else if Cooldown(f).Some? then Note(attempts, Failed, Some(now + Cooldown(f).value), f)
    else Note(attempts, Failed, Some(RetryAt(attempts, now, jitter)), f)
  }

  /** The upsert of a failure note; a row already `sent` is left alone. */
  function Noted(r: Option<Row>, n: Note): Row {
    var row := if r.None? then BLANK else r.value;
    if r.Some? && row.status == Sent then row
    else row.(attempts := n.attempts, status := n.status, nextAttempt := n.nextAttempt,
      lastError := Some(Raised(n.error)))
  }

  /** Snapshot and upsert in one go, as a single process does it. */
  function FailureRecorded(cfg: Config, r: Option<Row>, f: Failure, now: int, jitter: nat): Row {
    Noted(r, FailureNote(cfg, r, f, now, jitter))
  }

  predicate TerminalRefused(r: Option<Row>) {
    r.Some? && (r.value.status in {Sent, Dead} || r.value.status.Terminal?)
  }

  function TerminalWritten(r: Option<Row>, state: TerminalState, now: int): Row {
    if r.None? then BLANK.(status := Terminal(state), lastError := Some(Reason(state)), claimedAt := Some(now))
    else if TerminalRefused(r) then r.value
    else r.value.(status := Terminal(state), lastError := Some(Reason(state)))
  }

  function SavedFully(r: Option<Row>, now: int, fallback: bool): Row {
    if r.None? then BLANK.(status := Sent, sentAt := Some(now), fallbackUsed := fallback)
    else r.value.(status := Sent, sentAt := Some(now), nextAttempt := None,
      fallbackUsed := fallback || r.value.fallbackUsed)
  }

  function SavedDegraded(r: Row, now: int): Row {
    if r.status == Sent then r
    else r.(status := SentUnpersisted, sentAt := Some(now), lastError := Some(PersistDeferred))
  }

  predicate Stale(r: Row, now: int) {
    r.status == Sending && r.leaseExpires.Some? && r.leaseExpires.value <= now
  }

  /** The recovery update writes `attempts` computed from an earlier snapshot. */
  function Recovered(cfg: Config, r: Row, attempts: nat, now: int, jitter: nat): Row {
    var dead := attempts >= cfg.maxAttempts;
    r.(status := if dead then Dead else Failed,
       attempts := attempts,
       nextAttempt := if dead then None else Some(RetryAt(attempts, now, jitter)),
       lastError := Some(StaleClaimRecovered), token := None, leaseExpires := None)
  }

  // ---- the table ----

  type Rows = map<Pair, Row>

  /** Delivered as far as the ledger is concerned. */
  predicate Settled(r: Option<Row>) {
    r.Some? && r.value.status in {Sent, SentUnpersisted}
  }

  /** One full recovery pass that nothing interrupts. */
  function RecoveredAll(cfg: Config, rows: Rows, now: int, jitter: Pair -> nat): Rows {
    map p | p in rows ::
      if Stale(rows[p], now) then Recovered(cfg, rows[p], rows[p].attempts + 1, now, jitter(p)) else rows[p]
  }

  /** How one try goes; a connection that cannot be opened raises out of the whole save. */
  datatype Try = Committed | Locked | Broken | NoConnection
  datatype SaveResult = Full | Degraded | Lost | Uncaught
  {
    predicate Ok() { Full? || Degraded? }
  }

  /** Three tries; a lock retries, any other error gives up, three locks degrade. */
  function SaveOutcome(tries: seq<Try>, degradedOk: bool): SaveResult {
    if tries == [] then (if degradedOk then Degraded else Lost)
    else match tries[0] {
      case Committed => Full
      case Broken => Lost
      case NoConnection => Uncaught
      case Locked => SaveOutcome(tries[1..], degradedOk)
    }
  }

  function Saved(rows: Rows, p: Pair, outcome: SaveResult, now: int, fallback: bool): Rows {
    match outcome
    case Full => rows[p := SavedFully(Lookup(rows, p), now, fallback)]
    case Degraded => if p in rows then rows[p := SavedDegraded(rows[p], now)] else rows
    case Lost => rows
    case Uncaught => rows
  }

  /** The table itself. Every method is one connection's work, up to its commit. */
  class SentTable {
    const cfg: Config
    var rows: Rows

    constructor (cfg: Config)
      ensures this.cfg == cfg && rows == map[]
    {
      this.cfg := cfg;
      rows := map[];
    }

    /** True exactly when this call took the claim. */
    method Claim(p: Pair, now: int, token: nat) returns (ok: bool)
      modifies this
      ensures ok == !ClaimRefused(Lookup(old(rows), p))
      ensures rows == if ok then old(rows)[p := Claimed(cfg, Lookup(old(rows), p), now, token)] else old(rows)
    {
      if p !in rows {
        rows := rows[p := BLANK.(status := Sending, claimedAt := Some(now), token := Some(token),
                                 leaseExpires := Some(now + cfg.leaseSeconds))];
        return true;
      }
      var row := rows[p];
      if row.status == Sent || row.status == Sending {
        return false;
      }
      rows := rows[p := row.(status := Sending, claimedAt := Some(now), token := Some(token),
                             leaseExpires := Some(now + cfg.leaseSeconds))];
      ok := true;
    }

    method MarkSendAttempt(p: Pair, f: Failure, now: int, jitter: nat)
      modifies this
      ensures rows == old(rows)[p := FailureRecorded(cfg, Lookup(old(rows), p), f, now, jitter)]
    {
      var prev := 0;
      if p in rows {
        if rows[p].status == Sent {
          assert rows[p := rows[p]] == rows;
          return;
        }
        prev := rows[p].attempts;
      }
      var attempts := prev + 1;
      var dead := !Retryable(f) || attempts >= cfg.maxAttempts;
      var next := None;
      if !dead {
        var cool := Cooldown(f);
        next := if cool.Some? then Some(now + cool.value) else Some(RetryAt(attempts, now, jitter));
      }
      var row := if p in rows then rows[p] else BLANK;
      rows := rows[p := row.(attempts := attempts, status := if dead then Dead else Failed,
                             nextAttempt := next, lastError := Some(Raised(f)))];
    }

    method WriteTerminal(p: Pair, state: TerminalState, now: int) returns (wrote: bool)
      modifies this
      ensures wrote == !TerminalRefused(Lookup(old(rows), p))
      ensures rows == old(rows)[p := TerminalWritten(Lookup(old(rows), p), state, now)]
    {
      wrote := true;
      if p !in rows {
        rows := rows[p := BLANK.(status := Terminal(state), lastError := Some(Reason(state)), claimedAt := Some(now))];
      } else if rows[p].status in {Sent, Dead} || rows[p].status.Terminal? {
        wrote := false;
        assert rows[p := rows[p]] == rows;
      } else {
        rows := rows[p := rows[p].(status := Terminal(state), lastError := Some(Reason(state)))];
      }
    }

    /** `tries` and `degradedOk` say how the database answers each write; an exception leaves `ok` unset. */
    method SaveCardAndSent(p: Pair, now: int, fallback: bool, tries: seq<Try>, degradedOk: bool)
      returns (raised: bool, ok: bool)
      requires |tries| == 3
      modifies this
      ensures var outcome := SaveOutcome(tries, degradedOk);
              && raised == outcome.Uncaught? && ok == outcome.Ok()
              && rows == Saved(old(rows), p, outcome, now, fallback)
    {
      for attempt := 0 to 3
        invariant rows == old(rows)
        invariant SaveOutcome(tries, degradedOk) == SaveOutcome(tries[attempt..], degradedOk)
      {
        match tries[attempt] {
          case Committed =>
            var row := if p in rows then rows[p].(nextAttempt := None) else BLANK;
            rows := rows[p := row.(status := Sent, sentAt := Some(now), fallbackUsed := fallback || row.fallbackUsed)];
            return false, true;
          case Broken =>
            return false, false;
          case NoConnection =>
            return true, false;
          case Locked =>
        }
      }
      if !degradedOk {
        return false, false;
      }
      if p in rows && rows[p].status != Sent {
        rows := rows[p := rows[p].(status := SentUnpersisted, sentAt := Some(now), lastError := Some(PersistDeferred))];
      } else if p in rows {
        assert rows[p := rows[p]] == rows;
      }
      raised, ok := false, true;
    }

    /**
    One recovery pass: a snapshot of the stale rows, then one guarded update each.
    Afterwards no expired claim is left, and nothing else has moved.
    */
    method RecoverStaleClaims(now: int, jitter: Pair -> nat) returns (recovered: set<Pair>)
      modifies this
      ensures rows == RecoveredAll(cfg, old(rows), now, jitter)
      ensures recovered == set p | p in old(rows) && Stale(old(rows)[p], now)
      ensures forall p <- rows :: !Stale(rows[p], now)
    {
      ghost var before := rows;
      var stale := map p | p in rows && Stale(rows[p], now) :: (rows[p].attempts, rows[p].token);
      var todo := stale.Keys;
      recovered := {};
      while todo != {}
        invariant rows.Keys == before.Keys && recovered !! todo && recovered + todo == stale.Keys
        invariant forall p <- todo :: rows[p] == before[p]
        invariant forall p <- before :: p !in todo ==> rows[p] == RecoveredAll(cfg, before, now, jitter)[p]
        decreases todo
      {
        var p :| p in todo;
        var (prev, token) := stale[p];
        if Stale(rows[p], now) && rows[p].token == token {
          rows := rows[p := Recovered(cfg, rows[p], prev + 1, now, jitter(p))];
          recovered := recovered + {p};
        }
        todo := todo - {p};
      }
    }
  }
}
