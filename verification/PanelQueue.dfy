/**
The panel command queue: one table, several processes. Submitting, taking, finishing,
reaping and cleaning up are single statements, in any order and from anyone.
*/
module PanelQueue {
  import opened Wrappers

  datatype Status = New | Running | Done | Error

  /** Times are seconds; a column left empty is absent. */
  datatype Command = Command(status: Status, createdAt: Option<int>, takenAt: Option<int>, finishedAt: Option<int>)

  /** The rows, and the next value of the never-reused row id. */
  datatype Queue = Queue(rows: map<nat, Command>, next: nat)

  predicate Valid(q: Queue) { forall id <- q.rows :: id < q.next }

  predicate IsNew(q: Queue, id: nat) { id in q.rows && q.rows[id].status.New? }

  // ---- the statements ----

  function Submitted(q: Queue, now: int): Queue {
    Queue(q.rows[q.next := Command(New, Some(now), None, None)], q.next + 1)
  }

  function OldestFrom(q: Queue, i: nat): Option<nat>
    decreases q.next - i
  {
    if i >= q.next then None else if IsNew(q, i) then Some(i) else OldestFrom(q, i + 1)
  }

  function Oldest(q: Queue): Option<nat> { OldestFrom(q, 0) }

  lemma {:induction false} OldestIsFirst(q: Queue, i: nat)
    requires Valid(q)
    ensures var o := OldestFrom(q, i);
            && (o.None? ==> forall id: nat :: i <= id ==> !IsNew(q, id))
            && (o.Some? ==> i <= o.value && IsNew(q, o.value) && forall id: nat :: i <= id < o.value ==> !IsNew(q, id))
    decreases q.next - i
  {
    if i < q.next && !IsNew(q, i) { OldestIsFirst(q, i + 1); }
  }

  function Taken(q: Queue, now: int): Queue
    requires Valid(q)
  {
    OldestIsFirst(q, 0);
    var o := Oldest(q);
    if o.None? then q
    else q.(rows := q.rows[o.value := q.rows[o.value].(status := Running, takenAt := Some(now))])
  }

  /** No guard on the status: any row with that id is finished. */
  function Finished(q: Queue, id: nat, ok: bool, now: int): Queue {
    if id !in q.rows then q
    else q.(rows := q.rows[id := q.rows[id].(status := if ok then Done else Error, finishedAt := Some(now))])
  }

  function StaleMinutes(arg: int): int {
    var m := if arg == 0 then 60 else arg;
    if m > 10 then m else 10
  }

  predicate Stale(c: Command, cutoff: int) {
    c.status.Running? && if c.takenAt.Some? then c.takenAt.value < cutoff
      else c.createdAt.Some? && c.createdAt.value < cutoff
  }

  function StaleIds(q: Queue, cutoff: int): set<nat> { set id | id in q.rows && Stale(q.rows[id], cutoff) }

  function Reaped(q: Queue, now: int, staleMinutes: int): Queue {
    var cutoff := now - 60 * StaleMinutes(staleMinutes);
    q.(rows := map id | id in q.rows ::
         if Stale(q.rows[id], cutoff) then q.rows[id].(status := Error, finishedAt := Some(now)) else q.rows[id])
  }

  /** An empty creation time compares before every cutoff. */
  predicate Expired(c: Command, cutoff: int) {
    (c.status.Done? || c.status.Error?) && (c.createdAt.None? || c.createdAt.value < cutoff)
  }

  function Cleaned(q: Queue, now: int, keepHours: int): Queue {
    var cutoff := now - 3600 * (if keepHours == 0 then 48 else keepHours);
    q.(rows := map id | id in q.rows && !Expired(q.rows[id], cutoff) :: q.rows[id])
  }

  // ---- the table ----

  class PanelTable {
    var rows: map<nat, Command>
    var next: nat

    ghost function Contents(): Queue
      reads this
    {
      Queue(rows, next)
    }

    constructor ()
      ensures Contents() == EMPTY && Valid(Contents())
    {
      rows, next := map[], 1;
    }

    method Submit(now: int) returns (id: nat)
      requires Valid(Contents())
      modifies this
      ensures id == old(next) && Contents() == Submitted(old(Contents()), now) && Valid(Contents())
    {
      id := next;
      rows := rows[id := Command(New, Some(now), None, None)];
      next := next + 1;
    }

    method Take(now: int) returns (id: Option<nat>)
      requires Valid(Contents())
      modifies this`rows
      ensures id == Oldest(old(Contents())) && Contents() == Taken(old(Contents()), now) && Valid(Contents())
    {
      for i := 0 to next
        invariant Contents() == old(Contents())
        invariant Oldest(Contents()) == OldestFrom(Contents(), i)
      {
        if i in rows && rows[i].status.New? {
          rows := rows[i := rows[i].(status := Running, takenAt := Some(now))];
          return Some(i);
        }
      }
      id := None;
    }

    method Finish(id: nat, ok: bool, now: int)
      requires Valid(Contents())
      modifies this`rows
      ensures Contents() == Finished(old(Contents()), id, ok, now) && Valid(Contents())
    {
      if id in rows {
        rows := rows[id := rows[id].(status := if ok then Done else Error, finishedAt := Some(now))];
      }
    }

    method Reap(now: int, staleMinutes: int) returns (count: nat)
      requires Valid(Contents())
      modifies this`rows
      ensures Contents() == Reaped(old(Contents()), now, staleMinutes) && Valid(Contents())
      ensures count == |StaleIds(old(Contents()), now - 60 * StaleMinutes(staleMinutes))|
    {
      var cutoff := now - 60 * StaleMinutes(staleMinutes);
      count := |StaleIds(Queue(rows, next), cutoff)|;
      rows := map id | id in rows ::
        if Stale(rows[id], cutoff) then rows[id].(status := Error, finishedAt := Some(now)) else rows[id];
    }

    method Cleanup(now: int, keepHours: int)
      requires Valid(Contents())
      modifies this`rows
      ensures Contents() == Cleaned(old(Contents()), now, keepHours) && Valid(Contents())
    {
      var cutoff := now - 3600 * (if keepHours == 0 then 48 else keepHours);
      rows := map id | id in rows && !Expired(rows[id], cutoff) :: rows[id];
    }
  }

  const EMPTY := Queue(map[], 1)

  // ---- every interleaving ----

  datatype Event =
    | Submit(now: int)
    | Take(now: int)
    | Finish(id: nat, ok: bool, now: int)
    | Reap(now: int, staleMinutes: int)
    | Cleanup(now: int, keepHours: int)

  function Apply(q: Queue, e: Event): (r: Queue)
    requires Valid(q)
    ensures Valid(r) && r.next >= q.next
  {
    match e
    case Submit(now) => Submitted(q, now)
    case Take(now) => OldestIsFirst(q, 0); Taken(q, now)
    case Finish(id, ok, now) => Finished(q, id, ok, now)
    case Reap(now, stale) => Reaped(q, now, stale)
    case Cleanup(now, keep) => Cleaned(q, now, keep)
  }

  function Run(q: Queue, events: seq<Event>): (r: Queue)
    requires Valid(q)
    ensures Valid(r)
    decreases events
  {
    if events == [] then q else Run(Apply(q, events[0]), events[1..])
  }

  /** The ids handed out, in order. */
  function Takes(q: Queue, events: seq<Event>): seq<nat>
    requires Valid(q)
    decreases events
  {
    if events == [] then []
    else
      (if events[0].Take? && Oldest(q).Some? then [Oldest(q).value] else [])
      + Takes(Apply(q, events[0]), events[1..])
  }

  /** How far a command has come; a deleted row has come furthest. */
  function Progress(q: Queue, id: nat): nat {
    if id !in q.rows then 3
    else match q.rows[id].status case New => 0 case Running => 1 case _ => 2
  }

  /** No step moves a command back: never to `new`, and never from finished to running. */
  lemma StepMovesForward(q: Queue, e: Event, id: nat)
    requires Valid(q) && id < q.next
    ensures Progress(Apply(q, e), id) >= Progress(q, id)
  {
    if e.Take? { OldestIsFirst(q, 0); }
  }

  lemma {:induction false} CommandsMoveForward(q: Queue, events: seq<Event>, id: nat)
    requires Valid(q) && id < q.next
    ensures Progress(Run(q, events), id) >= Progress(q, id)
    decreases events
  {
    if events != [] {
      StepMovesForward(q, events[0], id);
      CommandsMoveForward(Apply(q, events[0]), events[1..], id);
    }
  }

  ghost predicate Increasing(ids: seq<nat>) { forall i, j :: 0 <= i < j < |ids| ==> ids[i] < ids[j] }

  /** Everything still queued, or yet to be submitted, is above `last`. */
  ghost predicate AllAbove(q: Queue, last: int) {
    last < q.next && forall id: nat :: IsNew(q, id) ==> last < id
  }

  lemma OneMoreBelow(id: nat, rest: seq<nat>)
    requires Increasing(rest) && forall x <- rest :: id < x
    ensures Increasing([id] + rest)
  {
    var all := [id] + rest;
    forall i, j | 0 <= i < j < |all| ensures all[i] < all[j] { assert all[j] == rest[j - 1] && all[j] in rest; }
  }

  lemma {:induction false} TakesAbove(q: Queue, events: seq<Event>, last: int)
    requires Valid(q) && AllAbove(q, last)
    ensures Increasing(Takes(q, events)) && forall id <- Takes(q, events) :: last < id
    decreases events
  {
    if events != [] {
      var (e, q') := (events[0], Apply(q, events[0]));
      OldestIsFirst(q, 0);
      forall id: nat | id < q.next && IsNew(q', id) ensures IsNew(q, id) { StepMovesForward(q, e, id); }
      if e.Take? && Oldest(q).Some? {
        var id := Oldest(q).value;
        assert AllAbove(q', id);
        TakesAbove(q', events[1..], id);
        OneMoreBelow(id, Takes(q', events[1..]));
      } else {
        assert AllAbove(q', last);
        TakesAbove(q', events[1..], last);
      }
    }
  }

  /** Ids are handed out in strictly increasing order, so none twice, and first come first served. */
  lemma TakesIncrease(q: Queue, events: seq<Event>)
    requires Valid(q)
    ensures Increasing(Takes(q, events))
  {
    TakesAbove(q, events, -1);
  }

  predicate Finishes(events: seq<Event>, id: nat) {
    exists e <- events :: e.Finish? && e.id == id
  }

  /** The queued commands up to and including `id`. */
  function Ahead(q: Queue, id: nat): set<nat> { set i | i in q.rows && i <= id && IsNew(q, i) }

  function TakeCount(events: seq<Event>): nat {
    if events == [] then 0 else (if events[0].Take? then 1 else 0) + TakeCount(events[1..])
  }

  /** One step never lets anything in ahead of a queued command, and a take serves one ahead of it. */
  lemma QueueAheadShrinks(q: Queue, e: Event, id: nat)
    requires Valid(q) && IsNew(q, id)
    ensures Ahead(Apply(q, e), id) <= Ahead(q, id)
    ensures e.Take? ==> |Ahead(Apply(q, e), id)| < |Ahead(q, id)|
    ensures !(e.Take? && Oldest(q) == Some(id)) && !(e.Finish? && e.id == id) ==> IsNew(Apply(q, e), id)
  {
    OldestIsFirst(q, 0);
    forall i | i in Ahead(Apply(q, e), id) ensures i in Ahead(q, id) { StepMovesForward(q, e, i); }
    Fewer(Ahead(Apply(q, e), id), Ahead(q, id));
    if e.Take? {
      var o := Oldest(q).value;
      assert o in Ahead(q, id) && o !in Ahead(Apply(q, e), id);
      Fewer(Ahead(Apply(q, e), id), Ahead(q, id) - {o});
    }
  }

  lemma Fewer(a: set<nat>, b: set<nat>)
    requires a <= b
    ensures |a| <= |b|
  {
    assert b == a + (b - a);
  }

  /**
  Nothing queued is lost or overtaken: unless someone finishes it unasked, a queued command is
  still queued until it is handed out, and it is handed out once there have been as many takes
  as there were commands up to it.
  */
  lemma {:induction false} EveryCommandIsServed(q: Queue, events: seq<Event>, id: nat)
    requires Valid(q) && IsNew(q, id) && !Finishes(events, id)
    ensures id in Takes(q, events) || IsNew(Run(q, events), id)
    ensures TakeCount(events) >= |Ahead(q, id)| ==> id in Takes(q, events)
    decreases events
  {
    assert id in Ahead(q, id);
    if events == [] {
    } else {
      var e := events[0];
      QueueAheadShrinks(q, e, id);
      assert !(e.Finish? && e.id == id) by { assert e in events; }
      if !(e.Take? && Oldest(q) == Some(id)) {
        assert !Finishes(events[1..], id) by { assert forall x <- events[1..] :: x in events; }
        EveryCommandIsServed(Apply(q, e), events[1..], id);
        Fewer(Ahead(Apply(q, e), id), Ahead(q, id));
      }
    }
  }

  /** Reaping and cleanup leave every queued command as it is, and every command taken less than ten minutes ago. */
  lemma MaintenanceSparesTheQueue(q: Queue, e: Event, id: nat)
    requires Valid(q) && (e.Reap? || e.Cleanup?) && id in q.rows
    requires q.rows[id].status.New? || (q.rows[id].status.Running? && q.rows[id].takenAt.Some? &&
      q.rows[id].takenAt.value >= e.now - 600)
    ensures id in Apply(q, e).rows && Apply(q, e).rows[id] == q.rows[id]
  {
  }

  /** After a reap nothing has been running for longer than the limit, and each row it failed had been. */
  lemma ReapIsExact(q: Queue, now: int, staleMinutes: int, id: nat)
    requires id in q.rows
    ensures var (c, c', cutoff) := (q.rows[id], Reaped(q, now, staleMinutes).rows[id],
      now - 60 * StaleMinutes(staleMinutes));
            && !Stale(c', cutoff)
            && (c' != c ==> Stale(c, cutoff) && c' == c.(status := Error, finishedAt := Some(now)))
  {
  }

  // ---- the outcome of a closed command ----

  predicate Closed(q: Queue, id: nat) { id in q.rows && q.rows[id].status in {Done, Error} }

  /** A report on the command that says otherwise than its status. */
  predicate Contradicts(e: Event, id: nat, st: Status) { e.Finish? && e.id == id && e.ok != st.Done? }

  /** One step changes the outcome of a closed command that it does not delete exactly by a report to the contrary. */
  lemma OutcomeInOneStep(q: Queue, e: Event, id: nat)
    requires Valid(q) && Closed(q, id)
    ensures var r := Apply(q, e);
            && (id in r.rows ==> Closed(r, id))
            && (id in r.rows && r.rows[id].status != q.rows[id].status <==> Contradicts(e, id, q.rows[id].status))
  {
    if e.Take? { OldestIsFirst(q, 0); }
  }

  /** At every point of the run at which the command still exists, its status is `st`. */
  predicate KeepsOutcome(q: Queue, events: seq<Event>, id: nat, st: Status)
    requires Valid(q)
    decreases events
  {
    && (id in q.rows ==> q.rows[id].status == st)
    && (events == [] || KeepsOutcome(Apply(q, events[0]), events[1..], id, st))
  }

  /** Somewhere in the run a contrary report arrives while the command exists. */
  predicate Contradicted(q: Queue, events: seq<Event>, id: nat, st: Status)
    requires Valid(q)
    decreases events
  {
    events != []
    && ((id in q.rows && Contradicts(events[0], id, st)) || Contradicted(Apply(q, events[0]), events[1..], id, st))
  }

  lemma {:induction false} DeletedForGood(q: Queue, events: seq<Event>, id: nat, st: Status)
    requires Valid(q) && id < q.next && id !in q.rows
    ensures KeepsOutcome(q, events, id, st) && !Contradicted(q, events, id, st)
    decreases events
  {
    if events != [] {
      StepMovesForward(q, events[0], id);
      DeletedForGood(Apply(q, events[0]), events[1..], id, st);
    }
  }

  /**
  In every interleaving a closed command keeps its outcome for as long as it exists exactly
  when no contrary report on it arrives in that time: reaping, cleanup and other commands
  never change it, and a finish always can.
  */
  lemma {:induction false} OutcomeKeptUnlessContradicted(q: Queue, events: seq<Event>, id: nat)
    requires Valid(q) && Closed(q, id)
    ensures KeepsOutcome(q, events, id, q.rows[id].status) <==> !Contradicted(q, events, id, q.rows[id].status)
    decreases events
  {
    if events != [] {
      var (e, st) := (events[0], q.rows[id].status);
      var r := Apply(q, e);
      OutcomeInOneStep(q, e, id);
      if id !in r.rows {
        DeletedForGood(r, events[1..], id, st);
      } else if r.rows[id].status == st {
        OutcomeKeptUnlessContradicted(r, events[1..], id);
      }
    }
  }

  /** A command reaped after an hour, then reported finished by the worker that held it: the report wins. */
  lemma LateFinishOverridesReap(q: Queue, id: nat, now: int, later: int)
    requires Valid(q) && id in q.rows
    requires q.rows[id].status.Running? && q.rows[id].takenAt.Some? && q.rows[id].takenAt.value < now - 3600
    ensures var r := Reaped(q, now, 0);
            && Closed(r, id) && r.rows[id].status == Error
            && Contradicted(r, [Finish(id, true, later)], id, Error)
            && Finished(r, id, true, later).rows[id].status == Done
  {
  }

  // ---- the limits in minutes and hours ----

  /** When a running command was taken, or was submitted if that was not noted. */
  function Since(c: Command): Option<int> { if c.takenAt.Some? then c.takenAt else c.createdAt }

  /** A reap fails a command exactly if it has run longer than the minutes given: sixty by default, ten at least. */
  lemma ReapedAfterMinutes(q: Queue, now: int, minutes: int, id: nat)
    requires Valid(q) && id in q.rows
    ensures Apply(q, Event.Reap(now, minutes)) == Reaped(q, now, minutes)
    ensures var (c, r) := (q.rows[id], Reaped(q, now, minutes));
            var limit := if minutes == 0 then 60 else if minutes < 10 then 10 else minutes;
            && id in r.rows
            && (c.status == Running && Since(c).Some? && now - Since(c).value > 60 * limit ==>
                  r.rows[id] == Command(Error, c.createdAt, c.takenAt, Some(now)))
            && (!(c.status == Running && Since(c).Some? && now - Since(c).value > 60 * limit) ==> r.rows[id] == c)
  {
  }

  /** A cleanup deletes a command exactly if it is closed and older than the hours given, 48 by default. */
  lemma DeletedAfterHours(q: Queue, now: int, hours: int, id: nat)
    requires Valid(q) && id in q.rows
    ensures Apply(q, Event.Cleanup(now, hours)) == Cleaned(q, now, hours)
    ensures var (c, r) := (q.rows[id], Cleaned(q, now, hours));
            var limit := if hours == 0 then 48 else hours;
            && (id !in r.rows <==>
                  c.status in {Done, Error} && (c.createdAt.Some? ==> now - c.createdAt.value > 3600 * limit))
            && (id in r.rows ==> r.rows[id] == c)
  {
  }

  /** A command taken is running from that moment; a default reap leaves it for an hour, and then fails it. */
  lemma TakenForAnHour(q: Queue, now: int, at: int)
    requires Valid(q) && Oldest(q).Some?
    ensures var (id, t) := (Oldest(q).value, Taken(q, now));
            && id in q.rows && id in t.rows && t.rows[id].status == Running
            && t.rows[id].createdAt == q.rows[id].createdAt
            && (forall x <- q.rows :: x != id ==> x in t.rows && t.rows[x] == q.rows[x])
            && (Reaped(t, at, 0).rows[id].status == Running <==> at <= now + 3600)
            && (Reaped(t, at, 0).rows[id].status == Error <==> at > now + 3600)
  {
    OldestIsFirst(q, 0);
  }

  /** A report closes the command as it says, and a submitted one waits under the next id. */
  lemma ReportedAndSubmitted(q: Queue, id: nat, ok: bool, now: int)
    requires Valid(q)
    ensures id in q.rows ==>
      var c := Finished(q, id, ok, now).rows[id];
      (c.status == Done <==> ok) && (c.status == Error <==> !ok) && c.finishedAt == Some(now) &&
        c.createdAt == q.rows[id].createdAt && c.takenAt == q.rows[id].takenAt
    ensures forall x <- q.rows :: x != id ==>
      x in Finished(q, id, ok, now).rows && Finished(q, id, ok, now).rows[x] == q.rows[x]
    ensures q.next in Submitted(q, now).rows && IsNew(Submitted(q, now), q.next) && Submitted(q, now).next == q.next + 1
    ensures Submitted(q, now).rows[q.next].createdAt == Some(now) && IsNew(Submitted(EMPTY, now), 1)
    ensures Apply(q, Event.Finish(id, ok, now)) == Finished(q, id, ok, now)
    ensures Apply(q, Event.Submit(now)) == Submitted(q, now)
    ensures forall x <- q.rows :: x in Submitted(q, now).rows && Submitted(q, now).rows[x] == q.rows[x]
  {
  }
}
