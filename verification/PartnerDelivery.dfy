/**
Live-lead delivery to partners: a state row per (buyer, event), success marks, failure
records with a bounded budget, and a bulk mark of everything older than the live switch.
*/
module PartnerDelivery {
  import opened Retries
  import opened Wrappers

  datatype Status = Sent | Retry | Dead

  datatype Failure = Formatting | BadRecipient | FloodWait(seconds: Option<int>) | DbBusy | Unexpected

  datatype Row = Row(status: Status, attempts: nat, nextAttempt: Option<int>, sentAt: Option<int>,
          lastError: Option<Failure>)

  type Rows = map<Pair, Row>

  // ---- one statement on one row ----

  /** A formatting error has already survived the plain-text fallback; a bad recipient stays bad. */
  predicate TerminalFailure(f: Failure) { f.Formatting? || f.BadRecipient? }

  function RetryAt(f: Failure, attempts: nat, now: int, jitter: nat): int {
    if f.FloodWait? && f.seconds.Some? && f.seconds.value != 0
    then now + (if f.seconds.value < 1 then 1 else f.seconds.value)
    else now + BackoffSeconds(attempts) * jitter / 1000
  }

  datatype Note = Note(attempts: nat, status: Status, nextAttempt: Option<int>, error: Failure)

  /** What a failure record writes, from a snapshot of the row; None when it returns early. */
  function FailureNote(max: nat, snapshot: Option<Row>, f: Failure, now: int, jitter: nat): Option<Note> {
    if snapshot.Some? && snapshot.value.status in {Sent, Dead} then None
    else
      var attempts := (if snapshot.None? then 0 else snapshot.value.attempts) + 1;
      if TerminalFailure(f) || attempts >= max then Some(Note(attempts, Dead, None, f))
      else Some(Note(attempts, Retry, Some(RetryAt(f, attempts, now, jitter)), f))
  }

  function Noted(r: Option<Row>, n: Note): Row {
    match r
    case None => Row(n.status, n.attempts, n.nextAttempt, None, Some(n.error))
    case Some(row) =>
      if row.status in {Sent, Dead} then row
      else row.(attempts := n.attempts, nextAttempt := n.nextAttempt, status := n.status, lastError := Some(n.error))
  }

  function MarkedSent(r: Option<Row>, now: int): Row {
    match r
    case None => Row(Sent, 0, None, Some(now), None)
    case Some(row) => if row.status == Dead then row else row.(status := Sent, nextAttempt := None, sentAt := Some(now))
  }

  /** INSERT OR IGNORE of a `sent` row for each old event. */
  function MarkedOld(rows: Rows, user: int, events: set<nat>, now: int): Rows {
    map p | p in rows.Keys + (set e | e in events :: Pair(user, e)) ::
      if p in rows then rows[p] else Row(Sent, 0, None, Some(now), None)
  }

  /** What the pending query admits. */
  predicate Pending(r: Option<Row>, now: int) {
    r.None? || (r.value.status == Retry && (r.value.nextAttempt.None? || r.value.nextAttempt.value <= now))
  }

  // ---- any number of workers ----

  type Worker = nat

  /** `records` counts, per pair, the failure notes written. */
  datatype State = State(rows: Rows, snapshots: map<Worker, (Pair, Option<Row>)>, records: map<Pair, nat>)

  const START := State(map[], map[], map[])

  datatype Action =
    | MarkSent(p: Pair, now: int)
    | ReadForFailure(w: Worker, p: Pair)
    | WriteFailure(w: Worker, f: Failure, now: int, jitter: nat)
    | MarkOld(user: int, events: set<nat>, now: int)

  function RecordsOf(s: State, p: Pair): nat {
    if p in s.records then s.records[p] else 0
  }

  function Next(max: nat, s: State, a: Action): State {
    match a
    case MarkSent(p, now) => s.(rows := s.rows[p := MarkedSent(Lookup(s.rows, p), now)])
    case ReadForFailure(w, p) => s.(snapshots := s.snapshots[w := (p, Lookup(s.rows, p))])
    case WriteFailure(w, f, now, jitter) =>
      if w !in s.snapshots then s
      else
        var (p, snapshot) := s.snapshots[w];
        var note := FailureNote(max, snapshot, f, now, jitter);
        if note.None? then s.(snapshots := s.snapshots - {w})
        else
          var r := Noted(Lookup(s.rows, p), note.value);
          s.(rows := s.rows[p := r], snapshots := s.snapshots - {w},
             records := if Final(Lookup(s.rows, p)) then s.records else s.records[p := RecordsOf(s, p) + 1])
    case MarkOld(user, events, now) => s.(rows := MarkedOld(s.rows, user, events, now))
  }

  function After(max: nat, s: State, run: seq<Action>): State
    decreases run
  {
    if run == [] then s else After(max, Next(max, s, run[0]), run[1..])
  }

  predicate Final(r: Option<Row>) {
    r.Some? && r.value.status in {Sent, Dead}
  }

  /** A `retry` row is always short of the budget. */
  predicate RowOk(max: nat, r: Option<Row>) {
    r.Some? && r.value.status == Retry ==> 1 <= r.value.attempts < max
  }

  ghost predicate Inv(max: nat, s: State) {
    forall p: Pair {:trigger RowOk(max, Lookup(s.rows, p))} :: RowOk(max, Lookup(s.rows, p))
  }

  lemma StepOnPair(max: nat, s: State, a: Action, p: Pair)
    requires RowOk(max, Lookup(s.rows, p))
    ensures RowOk(max, Lookup(Next(max, s, a).rows, p))
    ensures Final(Lookup(s.rows, p)) ==>
      Lookup(Next(max, s, a).rows, p).Some? && Lookup(Next(max, s, a).rows, p).value.status == s.rows[p].status
  {
    if a.WriteFailure? && a.w in s.snapshots {
      var note := FailureNote(max, s.snapshots[a.w].1, a.f, a.now, a.jitter);
      assert note.Some? && note.value.status == Retry ==> 1 <= note.value.attempts < max;
    }
  }

  /**
  `sent` and `dead` are never left, and `retry` rows stay short of the budget, in every
  interleaving of marks, bulk marks and failure records, stale snapshots included.
  */
  lemma {:induction false} FinalStatusStays(max: nat, s: State, run: seq<Action>, p: Pair)
    requires RowOk(max, Lookup(s.rows, p))
    ensures RowOk(max, Lookup(After(max, s, run).rows, p))
    ensures Final(Lookup(s.rows, p)) ==>
      Lookup(After(max, s, run).rows, p).Some? && Lookup(After(max, s, run).rows, p).value.status == s.rows[p].status
    decreases run
  {
    if run != [] {
      StepOnPair(max, s, run[0], p);
      FinalStatusStays(max, Next(max, s, run[0]), run[1..], p);
    }
  }

  // ---- the budget ----

  function AttemptsOf(r: Option<Row>): nat { if r.Some? then r.value.attempts else 0 }

  /** A failure about to be written was counted from the row as it still is, or will be refused. */
  predicate UpToDate(s: State, a: Action) {
    a.WriteFailure? && a.w in s.snapshots && !Final(Lookup(s.rows, s.snapshots[a.w].0)) ==>
      AttemptsOf(s.snapshots[a.w].1) == AttemptsOf(Lookup(s.rows, s.snapshots[a.w].0))
  }

  predicate AllUpToDate(max: nat, s: State, run: seq<Action>)
    decreases run
  {
    run == [] || (UpToDate(s, run[0]) && AllUpToDate(max, Next(max, s, run[0]), run[1..]))
  }

  /** Failures recorded so far are within the row's attempts, and a row short of final has budget left. */
  predicate CountOk(max: nat, s: State, p: Pair) {
    match Lookup(s.rows, p)
    case None => RecordsOf(s, p) == 0
    case Some(row) => RecordsOf(s, p) <= row.attempts <= max && (row.status == Retry ==> row.attempts < max)
  }

  lemma StepKeepsCount(max: nat, s: State, a: Action, p: Pair)
    requires max >= 1 && CountOk(max, s, p) && UpToDate(s, a)
    ensures CountOk(max, Next(max, s, a), p)
  {
  }

  /** Recorded failures that start within a pair's attempts stay within them while no record is outdated. */
  lemma {:induction false} CountStaysWithin(max: nat, s: State, run: seq<Action>, p: Pair)
    requires max >= 1 && CountOk(max, s, p) && AllUpToDate(max, s, run)
    ensures CountOk(max, After(max, s, run), p) && RecordsOf(After(max, s, run), p) <= max
    decreases run
  {
    if run != [] {
      StepKeepsCount(max, s, run[0], p);
      CountStaysWithin(max, Next(max, s, run[0]), run[1..], p);
    }
  }

  /** Every row's attempts are the failures recorded for its pair. */
  ghost predicate Matched(s: State) {
    forall p: Pair {:trigger RecordsOf(s, p)} :: RecordsOf(s, p) == AttemptsOf(Lookup(s.rows, p))
  }

  /** A worker that read a final row still finds it final. */
  ghost predicate Sound(s: State) {
    forall w <- s.snapshots :: Final(s.snapshots[w].1) ==> Final(Lookup(s.rows, s.snapshots[w].0))
  }

  /** After every prefix of the run, attempts and recorded failures agree. */
  ghost predicate MatchedThroughout(max: nat, s: State, run: seq<Action>)
    decreases run
  {
    Matched(s) && (run == [] || MatchedThroughout(max, Next(max, s, run[0]), run[1..]))
  }

  lemma StepKeepsSound(max: nat, s: State, a: Action)
    requires Sound(s)
    ensures Sound(Next(max, s, a))
  {
  }

  lemma StepMatchesIffUpToDate(max: nat, s: State, a: Action)
    requires Sound(s) && Matched(s)
    ensures Matched(Next(max, s, a)) <==> UpToDate(s, a)
  {
    var t := Next(max, s, a);
    if a.WriteFailure? && a.w in s.snapshots {
      var p := s.snapshots[a.w].0;
      assert RecordsOf(s, p) == AttemptsOf(Lookup(s.rows, p));
      assert RecordsOf(t, p) == AttemptsOf(Lookup(t.rows, p)) <==> UpToDate(s, a);
      forall q: Pair | q != p ensures RecordsOf(t, q) == AttemptsOf(Lookup(t.rows, q)) {
        assert RecordsOf(t, q) == RecordsOf(s, q);
      }
    } else {
      forall q: Pair ensures RecordsOf(t, q) == AttemptsOf(Lookup(t.rows, q)) {
        assert RecordsOf(t, q) == RecordsOf(s, q);
      }
    }
  }

  /**
  Over runs of any number of workers, attempts count the recorded failures at every moment if and only
  if no failure is counted from an outdated row.
  */
  lemma {:induction false} RecordsMatchAttempts(max: nat, s: State, run: seq<Action>)
    requires Sound(s) && Matched(s)
    ensures MatchedThroughout(max, s, run) <==> AllUpToDate(max, s, run)
    decreases run
  {
    if run != [] {
      StepKeepsSound(max, s, run[0]);
      StepMatchesIffUpToDate(max, s, run[0]);
      if UpToDate(s, run[0]) {
        RecordsMatchAttempts(max, Next(max, s, run[0]), run[1..]);
      }
    }
  }

  lemma {:induction false} MatchedAtTheEnd(max: nat, s: State, run: seq<Action>)
    requires MatchedThroughout(max, s, run)
    ensures Matched(After(max, s, run))
    decreases run
  {
    if run != [] {
      MatchedAtTheEnd(max, Next(max, s, run[0]), run[1..]);
    }
  }

  /** Every row, and every copy a worker still holds, is within the budget, and below it while `retry`. */
  ghost predicate Budgeted(max: nat, s: State) {
    && (forall p <- s.rows :: Spent(max, s.rows[p]))
    && (forall w <- s.snapshots :: s.snapshots[w].1.Some? ==> Spent(max, s.snapshots[w].1.value))
  }

  predicate Spent(max: nat, row: Row) {
    row.attempts <= max && (row.status == Retry ==> row.attempts < max)
  }

  /** In every interleaving, outdated copies included: no row counts past the budget. */
  lemma {:induction false} AttemptsBounded(max: nat, s: State, run: seq<Action>)
    requires max >= 1 && Budgeted(max, s)
    ensures Budgeted(max, After(max, s, run))
    decreases run
  {
    if run != [] {
      AttemptsBounded(max, Next(max, s, run[0]), run[1..]);
    }
  }

  /** So while no failure is counted from an outdated row, no pair has more than `max` failures recorded. */
  lemma RecordsBounded(max: nat, s: State, run: seq<Action>, p: Pair)
    requires max >= 1 && Sound(s) && Matched(s) && Budgeted(max, s) && AllUpToDate(max, s, run)
    ensures var t := After(max, s, run); RecordsOf(t, p) == AttemptsOf(Lookup(t.rows, p)) <= max
  {
    RecordsMatchAttempts(max, s, run);
    MatchedAtTheEnd(max, s, run);
    AttemptsBounded(max, s, run);
    assert RecordsOf(After(max, s, run), p) == AttemptsOf(Lookup(After(max, s, run).rows, p));
  }

  /** A record that goes through adds one to the attempts exactly when it is up to date. */
  lemma RecordIsExactUnlessOutdated(max: nat, s: State, w: Worker, f: Failure, now: int, jitter: nat)
    requires w in s.snapshots && !Final(s.snapshots[w].1) && !Final(Lookup(s.rows, s.snapshots[w].0))
    ensures var (p, a) := (s.snapshots[w].0, WriteFailure(w, f, now, jitter));
            && RecordsOf(Next(max, s, a), p) == RecordsOf(s, p) + 1
            && (AttemptsOf(Lookup(Next(max, s, a).rows, p)) == AttemptsOf(Lookup(s.rows, p)) + 1 <==> UpToDate(s, a))
  {
  }

  /** Every failure record is written right after its own read, as one worker does it. */
  predicate Sequential(run: seq<Action>) {
    || run == []
    || (run[0].ReadForFailure? && |run| >= 2 && run[1].WriteFailure? && run[1].w == run[0].w && Sequential(run[2..]))
    || (!run[0].ReadForFailure? && !run[0].WriteFailure? && Sequential(run[1..]))
  }

  lemma {:induction false} OneWorkerIsUpToDate(max: nat, s: State, run: seq<Action>)
    requires Sequential(run)
    ensures AllUpToDate(max, s, run)
    decreases run
  {
    if run == [] {
    } else if run[0].ReadForFailure? {
      assert run[1..][1..] == run[2..] && run[1..][0] == run[1];
      OneWorkerIsUpToDate(max, Next(max, Next(max, s, run[0]), run[1]), run[2..]);
    } else {
      OneWorkerIsUpToDate(max, Next(max, s, run[0]), run[1..]);
    }
  }

  /**
  Every run from the empty table: retries are short of the budget, attempts count the recorded failures
  exactly while no worker counts from an outdated row, and one worker never records more than the budget.
  */
  lemma EveryRunIsBounded(max: nat, run: seq<Action>, p: Pair)
    requires max >= 1
    ensures Inv(max, After(max, START, run)) && Budgeted(max, After(max, START, run))
    ensures MatchedThroughout(max, START, run) <==> AllUpToDate(max, START, run)
    ensures Sequential(run) ==> MatchedThroughout(max, START, run) && RecordsOf(After(max, START, run), p) <= max
  {
    forall q: Pair ensures RowOk(max, Lookup(After(max, START, run).rows, q)) { FinalStatusStays(max, START, run, q); }
    AttemptsBounded(max, START, run);
    RecordsMatchAttempts(max, START, run);
    if Sequential(run) {
      OneWorkerIsUpToDate(max, START, run);
      RecordsBounded(max, START, run, p);
    }
  }

  /** With a budget of two, three workers that read before any of them writes record three failures. */
  lemma OutdatedRecordsOverrun(p: Pair) returns (run: seq<Action>)
    ensures RecordsOf(After(2, START, run), p) == 3
  {
    run := [];
    for i := 1 to 4
      invariant var s := After(2, START, run);
                && s.rows == map[] && s.records == map[]
                && forall w :: 1 <= w < i ==> w in s.snapshots && s.snapshots[w] == (p, None)
    {
      Stepped(2, START, run, ReadForFailure(i, p));
      run := run + [ReadForFailure(i, p)];
    }
    for i := 1 to 4
      invariant var s := After(2, START, run);
                && (forall w :: i <= w < 4 ==> w in s.snapshots && s.snapshots[w] == (p, None))
                && RecordsOf(s, p) == i - 1 && !Final(Lookup(s.rows, p))
    {
      var a := WriteFailure(i, Unexpected, 0, 1000);
      Stepped(2, START, run, a);
      run := run + [a];
    }
  }

  lemma {:induction false} Stepped(max: nat, s: State, run: seq<Action>, a: Action)
    ensures After(max, s, run + [a]) == Next(max, After(max, s, run), a)
    decreases run
  {
    if run == [] {
      assert run + [a] == [a] && [a][1..] == [];
    } else {
      assert (run + [a])[1..] == run[1..] + [a];
      Stepped(max, Next(max, s, run[0]), run[1..], a);
    }
  }

  // ---- one pass over a buyer's pending events ----

  /** How the world answers one event: too old, a hidden duplicate, or a send. */
  datatype Kind = TooOld | HiddenDuplicate | SendOk | SendFails(f: Failure)

  /** How its success mark goes: stored, given up after three locks, or an error the mark does not catch. */
  datatype MarkResult = Stored | GivenUp | Raises

  /** `recordOk` says whether the failure record reaches the table. */
  datatype Answers = Answers(kind: Kind, mark: MarkResult, recordOk: bool, recordRaises: bool, now: int, jitter: nat)

  predicate Aborts(w: Answers) {
    if w.kind.SendFails? then w.recordRaises else w.mark.Raises?
  }

  function Handled(max: nat, r: Option<Row>, w: Answers): Option<Row> {
    match w.kind
    case SendFails(f) =>
      var note := FailureNote(max, r, f, w.now, w.jitter);
      if !w.recordOk || w.recordRaises || note.None? then r else Some(Noted(r, note.value))
    case _ => if w.mark.Stored? then Some(MarkedSent(r, w.now)) else r
  }

  class PartnerTable {
    const max: nat
    var rows: Rows

    constructor (max: nat)
      requires max >= 1
      ensures this.max == max && rows == map[]
    {
      this.max := max;
      rows := map[];
    }

    method MarkSent(p: Pair, now: int)
      modifies this
      ensures rows == old(rows)[p := MarkedSent(Lookup(old(rows), p), now)]
    {
      if p !in rows {
        rows := rows[p := Row(Sent, 0, None, Some(now), None)];
      } else if rows[p].status != Dead {
        rows := rows[p := rows[p].(status := Sent, nextAttempt := None, sentAt := Some(now))];
      } else {
        assert rows[p := rows[p]] == rows;
      }
    }

    method RecordFailure(p: Pair, f: Failure, now: int, jitter: nat)
      modifies this
      ensures var note := FailureNote(max, Lookup(old(rows), p), f, now, jitter);
              rows == if note.None? then old(rows) else old(rows)[p := Noted(Lookup(old(rows), p), note.value)]
    {
      if p in rows && rows[p].status in {Sent, Dead} {
        return;
      }
      var attempts := (if p in rows then rows[p].attempts else 0) + 1;
      var dead := TerminalFailure(f) || attempts >= max;
      var next := if dead then None else Some(RetryAt(f, attempts, now, jitter));
      var status := if dead then Dead else Retry;
      rows := rows[p := if p in rows then rows[p].(attempts := attempts, nextAttempt := next, status := status,
        lastError := Some(f))
                        else Row(status, attempts, next, None, Some(f))];
    }

    /** The query of a pass: in id order, never attempted or due again, up to the limit. */
    method PendingEvents(user: int, events: seq<nat>, now: int, limit: nat) returns (pending: seq<nat>)
      ensures pending <= DueEvents(rows, user, events, now)
      ensures |pending| == if |DueEvents(rows, user, events, now)| < limit then |DueEvents(rows, user, events, now)|
        else limit
    {
      pending := [];
      for i := 0 to |events|
        invariant pending <= DueEvents(rows, user, events[..i], now) && |pending| <= limit
        invariant |pending| < limit ==> pending == DueEvents(rows, user, events[..i], now)
      {
        assert events[..i + 1][..i] == events[..i];
        if Pending(Lookup(rows, Pair(user, events[i])), now) && |pending| < limit {
          pending := pending + [events[i]];
        }
      }
      assert events[..|events|] == events;
    }

    /** One pass. A pair already `sent` or `dead` is left exactly as it is, whatever the world answers. */
    method Pass(user: int, events: seq<nat>, now: int, limit: nat, world: nat -> Answers) returns (handled: nat)
      requires forall i, j :: 0 <= i < j < |events| ==> events[i] < events[j]
      modifies this
      ensures forall p: Pair :: Final(Lookup(old(rows), p)) ==> Lookup(rows, p) == Lookup(old(rows), p)
      ensures handled <= limit
    {
      var pending := PendingEvents(user, events, now, limit);
      DueAreDue(rows, user, events, now);
      assert forall i :: 0 <= i < |pending| ==> pending[i] == DueEvents(rows, user, events, now)[i];
      handled := NotifyOnce(user, pending, seq(|pending|, i requires 0 <= i < |pending| => world(pending[i])));
    }

    /**
    The events of a pass. It handles every pending event, whatever failures earlier ones had, unless a
    mark or record itself raises: then it handles exactly the events before that one.
    */
    method NotifyOnce(user: int, pending: seq<nat>, answers: seq<Answers>) returns (handled: nat)
      requires |answers| == |pending|
      requires forall i, j :: 0 <= i < j < |pending| ==> pending[i] != pending[j]
      modifies this
      ensures handled <= |pending| && (handled == |pending| <==> forall w <- answers :: !Aborts(w))
      ensures handled < |pending| ==> Aborts(answers[handled]) && forall i :: 0 <= i < handled ==> !Aborts(answers[i])
      ensures forall i :: 0 <= i < handled ==>
        Lookup(rows, Pair(user, pending[i])) == Handled(max, Lookup(old(rows), Pair(user, pending[i])), answers[i])
      ensures forall p: Pair :: (p.user != user || p.event !in pending[..handled]) ==>
        Lookup(rows, p) == Lookup(old(rows), p)
    {
      handled := 0;
      while handled < |pending|
        invariant 0 <= handled <= |pending|
        invariant forall i :: 0 <= i < handled ==> !Aborts(answers[i])
        invariant forall i :: 0 <= i < handled ==>
          Lookup(rows, Pair(user, pending[i])) == Handled(max, Lookup(old(rows), Pair(user, pending[i])), answers[i])
        invariant forall p: Pair :: (p.user != user || p.event !in pending[..handled]) ==>
          Lookup(rows, p) == Lookup(old(rows), p)
      {
        var w := answers[handled];
        var p := Pair(user, pending[handled]);
        if Aborts(w) {
          assert w in answers;
          return;
        }
        assert pending[handled] !in pending[..handled];
        assert pending[..handled + 1] == pending[..handled] + [pending[handled]];
        if w.kind.SendFails? {
          if w.recordOk {
            RecordFailure(p, w.kind.f, w.now, w.jitter);
          }
        } else if w.mark.Stored? {
          MarkSent(p, w.now);
        }
        handled := handled + 1;
      }
    }
  }

  function DueEvents(rows: Rows, user: int, events: seq<nat>, now: int): seq<nat> {
    if events == [] then []
    else
      var last := events[|events| - 1];
      DueEvents(rows, user, events[..|events| - 1], now) + (if Pending(Lookup(rows, Pair(user, last)), now)
        then [last] else [])
  }

  lemma {:induction false} DueAreDue(rows: Rows, user: int, events: seq<nat>, now: int)
    requires forall i, j :: 0 <= i < j < |events| ==> events[i] < events[j]
    ensures var due := DueEvents(rows, user, events, now);
            && (forall e <- due :: e in events && Pending(Lookup(rows, Pair(user, e)), now))
            && (forall i, j :: 0 <= i < j < |due| ==> due[i] < due[j])
  {
    if events != [] {
      var (init, last) := (events[..|events| - 1], events[|events| - 1]);
      DueAreDue(rows, user, init, now);
      assert events == init + [last];
      var due := DueEvents(rows, user, init, now);
      forall i | 0 <= i < |due| ensures due[i] < last { assert due[i] in due && due[i] in init; }
    }
  }

  /** The first event's mark raises: the pass ends there, and the second, with nothing wrong, has no row. */
  method AbortedPass() returns (handled: nat, t: PartnerTable)
    ensures handled == 0 && fresh(t) && t.rows == map[]
  {
    t := new PartnerTable(3);
    var good := Answers(SendOk, Stored, true, false, 0, 1000);
    var answers := [good.(mark := Raises), good];
    handled := t.NotifyOnce(7, [1, 2], answers);
    assert Aborts(answers[0]) && answers[0] in answers && !Aborts(answers[1]);
    assert forall p :: Lookup(t.rows, p) == None;
    assert t.rows == map[] by { assert forall p :: p in t.rows ==> Lookup(t.rows, p).Some?; }
  }
}
