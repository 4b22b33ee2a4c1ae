/**
What the partner bot's rows say, row by row: what a mark, a failure or an old event leaves, and how
long a failure keeps an event away.
*/
module PartnerTiming {
  import opened Retries
  import opened Wrappers
  import opened PartnerDelivery

  /** The event has no row for the buyer, or a failure whose pause is over. */
  predicate IsPending(rows: Rows, p: Pair, now: int) {
    p in rows ==> rows[p].status == Retry && (rows[p].nextAttempt.Some? ==> rows[p].nextAttempt.value <= now)
  }

  /** A pass asks for exactly the events that are pending, in the order given. */
  lemma {:induction false} PassAsksForPending(rows: Rows, user: int, events: seq<nat>, now: int)
    ensures var due := DueEvents(rows, user, events, now);
            && (forall e :: e in due <==> e in events && IsPending(rows, Pair(user, e), now))
            && ((forall e <- events :: IsPending(rows, Pair(user, e), now)) ==> due == events)
  {
    if events != [] {
      var (init, last) := (events[..|events| - 1], events[|events| - 1]);
      assert events == init + [last];
      PassAsksForPending(rows, user, init, now);
    }
  }

  function CountOf(rows: Rows, p: Pair): nat { if p in rows then rows[p].attempts else 0 }

  /** The row a failure of class `f` leaves: one attempt more, and dead for good or to be tried again. */
  predicate Failed(max: nat, before: Rows, after: Rows, p: Pair, f: Failure) {
    && p in after && after[p].attempts == CountOf(before, p) + 1 && after[p].lastError == Some(f)
    && (after[p].status == Dead <==> f in {Formatting, BadRecipient} || CountOf(before, p) + 1 >= max)
    && (after[p].status == Retry <==> f !in {Formatting, BadRecipient} && CountOf(before, p) + 1 < max)
  }

  /** A failure written by a worker that read the row as it still is. */
  predicate Records(s: State, a: Action, p: Pair) {
    && a.WriteFailure? && a.w in s.snapshots && s.snapshots[a.w] == (p, Lookup(s.rows, p))
    && (p in s.rows ==> s.rows[p].status == Retry)
  }

  lemma FailureCountsOne(max: nat, s: State, a: Action, p: Pair)
    requires Records(s, a, p)
    ensures Failed(max, s.rows, Next(max, s, a).rows, p, a.f)
    ensures a.w !in Next(max, s, a).snapshots
    ensures forall q :: q != p ==> Lookup(Next(max, s, a).rows, q) == Lookup(s.rows, q)
  {
  }

  predicate AsksToWait(f: Failure) { f.FloodWait? && f.seconds.Some? && f.seconds.value != 0 }

  /**
  An event that failed for the n-th time at `now` is not pending before now + 48 * min(2^(n-1), 60) while
  its row stays as it is, and is pending from now + 72 * min(2^(n-1), 60) on.
  */
  lemma FailureKeepsAway(max: nat, s: State, a: Action, p: Pair, later: seq<Action>, at: int)
    requires Records(s, a, p) && !AsksToWait(a.f) && 800 <= a.jitter <= 1200
    requires var t := Next(max, s, a);
             && p in t.rows && t.rows[p].status == Retry
             && Lookup(After(max, t, later).rows, p) == Some(t.rows[p])
    ensures var (u, units) := (After(max, Next(max, s, a), later), Min(Pow2(CountOf(s.rows, p)), 60));
            && (IsPending(u.rows, p, at) ==> at >= a.now + 48 * units)
            && (at >= a.now + 72 * units ==> IsPending(u.rows, p, at))
  {
    JitteredBackoff(CountOf(s.rows, p) + 1, a.jitter);
  }

  /** A flood wait is kept to the second, one at least. */
  lemma FloodWaitIsKept(max: nat, s: State, a: Action, p: Pair, later: seq<Action>, at: int)
    requires Records(s, a, p) && AsksToWait(a.f)
    requires var t := Next(max, s, a);
             && p in t.rows && t.rows[p].status == Retry
             && Lookup(After(max, t, later).rows, p) == Some(t.rows[p])
    ensures var u := After(max, Next(max, s, a), later);
            IsPending(u.rows, p, at) <==> at >= a.now + (if a.f.seconds.value > 0 then a.f.seconds.value else 1)
  {
  }

  /** A success mark makes any row but a dead one `sent`, with its time, and no run makes it pending again. */
  lemma MarkedForGood(max: nat, s: State, p: Pair, now: int, later: seq<Action>, at: int)
    requires RowOk(max, Lookup(s.rows, p))
    ensures var t := Next(max, s, PartnerDelivery.MarkSent(p, now));
            && p in t.rows && t.rows[p].attempts == CountOf(s.rows, p)
            && (p in s.rows && s.rows[p].status == Dead ==> t.rows[p] == s.rows[p])
            && (!(p in s.rows && s.rows[p].status == Dead) ==>
                  t.rows[p].status == Sent && t.rows[p].sentAt == Some(now) && t.rows[p].nextAttempt.None?)
            && p in After(max, t, later).rows && !IsPending(After(max, t, later).rows, p, at)
  {
    var t := Next(max, s, PartnerDelivery.MarkSent(p, now));
    FinalStatusStays(max, t, later, p);
  }

  /** Marking old events makes `sent` exactly those of them that had no row, and no run makes these pending. */
  lemma OldForGood(max: nat, s: State, user: int, events: set<nat>, now: int, p: Pair, later: seq<Action>, at: int)
    ensures var t := Next(max, s, MarkOld(user, events, now));
            && (p in s.rows || p.user != user || p.event !in events ==> Lookup(t.rows, p) == Lookup(s.rows, p))
            && (p !in s.rows && p.user == user && p.event in events ==>
                  && p in t.rows && t.rows[p].status == Sent && t.rows[p].sentAt == Some(now)
                  && p in After(max, t, later).rows && !IsPending(After(max, t, later).rows, p, at))
  {
    var t := Next(max, s, MarkOld(user, events, now));
    if p !in s.rows && p.user == user && p.event in events {
      assert p == Pair(user, p.event);
      FinalStatusStays(max, t, later, p);
    }
  }

  // ---- one event of a pass ----

  /**
  What a pass does to a pending event. A message that goes, and one that is not worth sending, are
  marked if the mark is stored; a message that fails is counted if that can be recorded.
  */
  lemma HandledLeaves(max: nat, rows: Rows, p: Pair, w: Answers)
    requires p in rows ==> rows[p].status == Retry
    ensures var after := Handled(max, Lookup(rows, p), w);
            && (!w.kind.SendFails? && w.mark == Stored ==>
                  after.Some? && after.value.status == Sent && after.value.sentAt == Some(w.now))
            && (!w.kind.SendFails? && w.mark != Stored ==> after == Lookup(rows, p))
            && (w.kind.SendFails? && w.recordOk && !w.recordRaises ==>
                  after.Some? && Failed(max, rows, rows[p := after.value], p, w.kind.f))
            && (w.kind.SendFails? && !(w.recordOk && !w.recordRaises) ==> after == Lookup(rows, p))
  {
  }

  /** The pass ends early exactly at a mark that raises after a message, or a record that raises after a failure. */
  lemma WhatEndsAPass(w: Answers)
    ensures Aborts(w) <==> (w.mark == Raises && !w.kind.SendFails?) || (w.recordRaises && w.kind.SendFails?)
  {
  }
}
