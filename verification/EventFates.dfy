/**
What becomes of one event, by how the world answers it: the loop's steps for it, taken together,
in terms of the row they leave. The conditions are on the answers alone.
*/
module EventFates {
  import opened Retries
  import opened SentRows
  import opened Wrappers
  import opened PollLoop
  import opened DeliveryLoop

  function AttemptsOf(r: Option<Row>): nat { if r.Some? then r.value.attempts else 0 }

  /** The loop is at an open pair. */
  predicate AtOpen(s: State, p: Pair, rest: seq<Pair>) {
    s.control == Batch([p] + rest) && (p in s.rows ==> s.rows[p].status == Failed)
  }

  lemma RunOfOne(cfg: Config, s: State, a: Action)
    requires Enabled(s, a)
    ensures Legal(cfg, s, [a]) && After(cfg, s, [a]) == Next(cfg, s, a)
  {
    assert [a][1..] == [];
    assert Legal(cfg, Next(cfg, s, a), []);
  }

  lemma RunOfMore(cfg: Config, s: State, a: Action, rest: seq<Action>)
    requires Enabled(s, a) && Legal(cfg, Next(cfg, s, a), rest)
    ensures Legal(cfg, s, [a] + rest) && After(cfg, s, [a] + rest) == After(cfg, Next(cfg, s, a), rest)
  {
    assert ([a] + rest)[0] == a && ([a] + rest)[1..] == rest;
  }

  /** The claim in hand, as every event that gets that far has it. */
  function InClaim(cfg: Config, s: State, p: Pair, w: Answers): State
    requires s.control.Batch? && s.control.queue != []
  {
    Next(cfg, s, Claim(w.now, w.token))
  }

  lemma ClaimFirst(cfg: Config, s: State, p: Pair, rest: seq<Pair>, w: Answers, more: seq<Action>)
    requires AtOpen(s, p, rest) && w.gate.Admitted? && w.claim.Done?
    requires Legal(cfg, InClaim(cfg, s, p, w), more)
    ensures Legal(cfg, s, [Claim(w.now, w.token)] + more)
    ensures After(cfg, s, [Claim(w.now, w.token)] + more) == After(cfg, InClaim(cfg, s, p, w), more)
    ensures var h := InClaim(cfg, s, p, w);
            h.control == Holding(p, rest) && p in h.rows && h.rows[p].status == Sending &&
              h.rows[p].attempts == AttemptsOf(Lookup(s.rows, p))
  {
    assert ([p] + rest)[1..] == rest;
    RunOfMore(cfg, s, Claim(w.now, w.token), more);
  }

  // ---- turned away ----

  /** A refused event is closed with the reason of the refusal, if that can be written. */
  lemma RefusedIsTurnedAway(cfg: Config, s: State, p: Pair, rest: seq<Pair>, w: Answers)
    requires AtOpen(s, p, rest) && w.gate.Refused? && w.terminal.Done?
    ensures var steps := Steps(Lookup(s.rows, p), w);
            && Legal(cfg, s, steps) && p in After(cfg, s, steps).rows
            && After(cfg, s, steps).rows[p].status == Terminal(w.gate.state)
            && After(cfg, s, steps).control == Batch(rest)
  {
    assert ([p] + rest)[1..] == rest;
    RunOfOne(cfg, s, TurnAway(w.gate.state, w.now));
  }

  // ---- accepted ----

  /** Telegram takes the message, or takes it as plain text after refusing its formatting. */
  predicate Delivered(w: Answers) {
    && w.gate.Admitted? && w.claim.Done? && w.card.Placed?
    && (w.first.None? || (w.first == Some(Formatting) && w.second.None?))
  }

  /** A delivered event is saved as sent, and remembers whether it went as plain text. */
  lemma DeliveredIsSaved(cfg: Config, s: State, p: Pair, rest: seq<Pair>, w: Answers)
    requires AtOpen(s, p, rest) && Delivered(w) && !SaveOutcome(w.tries, w.degradedOk).Uncaught?
    ensures var (steps, o) := (Steps(Lookup(s.rows, p), w), SaveOutcome(w.tries, w.degradedOk));
            && Legal(cfg, s, steps) && p in After(cfg, s, steps).rows && After(cfg, s, steps).control == Batch(rest)
            && (p in After(cfg, s, steps).saved <==> o.Full? || o.Degraded? || p in s.saved)
            && var row := After(cfg, s, steps).rows[p];
               && (row.status == Sent <==> o.Full?) && (row.status == SentUnpersisted <==> o.Degraded?)
               && (row.status == Sending <==> o.Lost?)
               && (o.Full? && (p in s.rows ==> !s.rows[p].fallbackUsed) ==> (row.fallbackUsed <==> w.first.Some?))
  {
    var o := SaveOutcome(w.tries, w.degradedOk);
    var h := InClaim(cfg, s, p, w);
    assert ([p] + rest)[1..] == rest;
    RunOfOne(cfg, Next(cfg, h, Send), Save(o, w.now, w.first.Some?));
    RunOfMore(cfg, h, Send, [Save(o, w.now, w.first.Some?)]);
    assert [Send] + [Save(o, w.now, w.first.Some?)] == [Send, Save(o, w.now, w.first.Some?)];
    ClaimFirst(cfg, s, p, rest, w, [Send, Save(o, w.now, w.first.Some?)]);
  }

  // ---- not delivered ----

  /** Telegram refuses: at once for good, or the plain text as well. */
  predicate Refuses(w: Answers, f: Failure) {
    && w.gate.Admitted? && w.claim.Done? && w.card.Placed?
    && (if w.first == Some(Formatting) then w.second == Some(f) else w.first == Some(f))
  }

  /** The class a failure is recorded under on the spot. */
  predicate FailsOnTheSpot(w: Answers, f: Failure) {
    Refuses(w, f) || (w.gate.Admitted? && w.claim.Done? && w.card.NoCard? && f == Unexpected)
  }

  /** An exception escapes the processing of the event, of this class, the claim taken or not. */
  ghost predicate Breaks(w: Answers, f: Failure, claimed: bool) {
    if !claimed then
      || w.gate == Gate.Raises(f)
      || (w.gate.Refused? && w.terminal.Unreachable? && f == w.dbError)
      || (w.gate.Admitted? && w.claim.Unreachable? && f == w.dbError)
    else
      && w.gate.Admitted? && w.claim.Done?
      && (|| w.card == Card.Breaks(f)
          || (Delivered(w) && SaveOutcome(w.tries, w.degradedOk).Uncaught? && f == w.dbError)
          || (w.note.Unreachable? && f == w.dbError && exists g :: FailsOnTheSpot(w, g)))
  }

  /** One attempt counted, under this class. */
  predicate Counted(before: Option<Row>, after: Option<Row>, f: Failure) {
    && after.Some? && after.value.attempts == AttemptsOf(before) + 1
    && after.value.lastError == Some(Raised(f)) && after.value.status in {Failed, Dead}
  }

  lemma OneMoreAttempt(cfg: Config, s: State, a: Action, p: Pair, f: Failure)
    requires Enabled(s, a) && (a.FailToSend? || a.FailBeforeClaim?) && a.f == f
    requires if a.FailToSend? then s.control.p == p else s.control.queue[0] == p
    requires p in s.rows ==> s.rows[p].status in {Failed, Sending}
    ensures Counted(Lookup(s.rows, p), Lookup(Next(cfg, s, a).rows, p), f)
  {
  }

  lemma StepsOfFailure(r: Option<Row>, w: Answers, f: Failure)
    requires !ClaimRefused(r) && FailsOnTheSpot(w, f) && !w.note.Unreachable?
    ensures Steps(r, w) ==
      [Claim(w.now, w.token)] + [if w.note.Done? then FailToSend(f, w.now, w.jitter) else Pass]
  {
  }

  /** A failure on the spot is counted once, under the class Telegram or the card gave, if it can be written. */
  lemma FailureIsNoted(cfg: Config, s: State, p: Pair, rest: seq<Pair>, w: Answers, f: Failure)
    requires AtOpen(s, p, rest) && FailsOnTheSpot(w, f) && !w.note.Unreachable?
    ensures var steps := Steps(Lookup(s.rows, p), w);
            && Legal(cfg, s, steps) && After(cfg, s, steps).control == Batch(rest)
            && var after := Lookup(After(cfg, s, steps).rows, p);
               if w.note.Done? then Counted(Lookup(s.rows, p), after, f)
               else after.Some? && after.value.status == Sending
  {
    var last := if w.note.Done? then FailToSend(f, w.now, w.jitter) else Pass;
    StepsOfFailure(Lookup(s.rows, p), w, f);
    Ending(cfg, s, p, rest, w, last);
  }

  /** The claim, then one closing step. */
  lemma Ending(cfg: Config, s: State, p: Pair, rest: seq<Pair>, w: Answers, last: Action)
    requires AtOpen(s, p, rest) && w.gate.Admitted? && w.claim.Done?
    requires last.FailToSend? || last.Pass? || last.Crash?
    ensures var steps := [Claim(w.now, w.token)] + [last];
            && Legal(cfg, s, steps)
            && var t := After(cfg, s, steps);
               && t.control == (if last.Crash? then Idle else Batch(rest))
               && if last.FailToSend? then Counted(Lookup(s.rows, p), Lookup(t.rows, p), last.f)
                  else p in t.rows && t.rows[p].status == Sending
  {
    var h := InClaim(cfg, s, p, w);
    assert ([p] + rest)[1..] == rest;
    assert Enabled(h, last);
    RunOfOne(cfg, h, last);
    ClaimFirst(cfg, s, p, rest, w, [last]);
    if last.FailToSend? { OneMoreAttempt(cfg, h, last, p, last.f); }
  }

  /** The claim, the message accepted, then one closing step. */
  lemma LateEnding(cfg: Config, s: State, p: Pair, rest: seq<Pair>, w: Answers, last: Action)
    requires AtOpen(s, p, rest) && w.gate.Admitted? && w.claim.Done?
    requires last.FailToSend? || last.Pass? || last.Crash?
    ensures var steps := [Claim(w.now, w.token)] + ([Send] + [last]);
            && Legal(cfg, s, steps)
            && var t := After(cfg, s, steps);
               && t.control == (if last.Crash? then Idle else Batch(rest))
               && if last.FailToSend? then Counted(Lookup(s.rows, p), Lookup(t.rows, p), last.f)
                  else p in t.rows && t.rows[p].status == Sending
  {
    var h := InClaim(cfg, s, p, w);
    assert ([p] + rest)[1..] == rest;
    var d := Next(cfg, h, Send);
    assert Enabled(d, last);
    RunOfOne(cfg, d, last);
    RunOfMore(cfg, h, Send, [last]);
    ClaimFirst(cfg, s, p, rest, w, [Send] + [last]);
    if last.FailToSend? { OneMoreAttempt(cfg, d, last, p, last.f); }
  }

  lemma StepsOfException(r: Option<Row>, w: Answers, f: Failure, claimed: bool)
    requires !ClaimRefused(r) && Breaks(w, f, claimed)
    ensures var last := Caught(claimed, f, w);
            Steps(r, w) ==
              if !claimed then [last]
              else if Delivered(w) then [Claim(w.now, w.token)] + ([Send] + [last])
              else [Claim(w.now, w.token)] + [last]
  {
    var last := Caught(claimed, f, w);
    assert [] + [last] == [last] && [Claim(w.now, w.token)] + [] == [Claim(w.now, w.token)];
    assert [Claim(w.now, w.token)] + [Send] + [last] == [Claim(w.now, w.token)] + ([Send] + [last]);
  }

  /** An exception is counted by the backstop, under its own class, or ends the pass if that cannot connect. */
  lemma ExceptionIsNoted(cfg: Config, s: State, p: Pair, rest: seq<Pair>, w: Answers, f: Failure, claimed: bool)
    requires AtOpen(s, p, rest) && Breaks(w, f, claimed)
    ensures var steps := Steps(Lookup(s.rows, p), w);
            && Legal(cfg, s, steps)
            && var t := After(cfg, s, steps);
               && t.control == (if w.backstop.Unreachable? then Idle else Batch(rest))
               && (w.backstop.Done? ==> Counted(Lookup(s.rows, p), Lookup(t.rows, p), f))
               && (!w.backstop.Done? ==>
                     if claimed then p in t.rows && t.rows[p].status == Sending
                     else Lookup(t.rows, p) == Lookup(s.rows, p))
  {
    var last := Caught(claimed, f, w);
    StepsOfException(Lookup(s.rows, p), w, f, claimed);
    if !claimed {
      assert ([p] + rest)[1..] == rest;
      RunOfOne(cfg, s, last);
      if w.backstop.Done? { OneMoreAttempt(cfg, s, last, p, f); }
    } else if Delivered(w) {
      LateEnding(cfg, s, p, rest, w, last);
    } else {
      Ending(cfg, s, p, rest, w, last);
    }
  }

  /** A write swallowed ahead of the claim leaves the row alone, and the pair is no longer in the batch. */
  lemma SwallowedIsPassed(cfg: Config, s: State, p: Pair, rest: seq<Pair>, w: Answers)
    requires AtOpen(s, p, rest)
    requires (w.gate.Refused? && w.terminal.Swallowed?) || (w.gate.Admitted? && w.claim.Swallowed?)
    ensures var steps := Steps(Lookup(s.rows, p), w);
            && Legal(cfg, s, steps) && After(cfg, s, steps).control == Batch(rest)
            && After(cfg, s, steps).rows == s.rows
  {
    assert ([p] + rest)[1..] == rest;
    RunOfOne(cfg, s, Pass);
  }

  /** Those are all the ways an event can go. */
  lemma EveryAnswerIsCovered(w: Answers)
    ensures || (w.gate.Refused? && w.terminal.Done?)
            || (Delivered(w) && !SaveOutcome(w.tries, w.degradedOk).Uncaught?)
            || (exists f :: FailsOnTheSpot(w, f) && !w.note.Unreachable?)
            || (exists f, claimed :: Breaks(w, f, claimed))
            || (w.gate.Refused? && w.terminal.Swallowed?) || (w.gate.Admitted? && w.claim.Swallowed?)
  {
    if w.gate.Raises? {
      assert Breaks(w, w.gate.f, false);
    } else if (w.gate.Refused? && w.terminal.Unreachable?) || (w.gate.Admitted? && w.claim.Unreachable?) {
      assert Breaks(w, w.dbError, false);
    } else if w.gate.Admitted? && w.claim.Done? {
      var f := if w.card.NoCard? then Unexpected
               else if w.first == Some(Formatting) && w.second.Some? then w.second.value
               else if w.first.Some? then w.first.value else Unexpected;
      if w.card.Breaks? {
        assert Breaks(w, w.card.f, true);
      } else if Delivered(w) {
        assert SaveOutcome(w.tries, w.degradedOk).Uncaught? ==> Breaks(w, w.dbError, true);
      } else {
        assert FailsOnTheSpot(w, f);
        assert w.note.Unreachable? ==> Breaks(w, w.dbError, true);
      }
    }
  }

  /** The pass ends here exactly if an exception escapes and the backstop cannot connect. */
  lemma WhatEndsAPass(w: Answers)
    ensures Aborts(w) <==> w.backstop.Unreachable? && exists f, claimed :: Breaks(w, f, claimed)
  {
    EveryAnswerIsCovered(w);
    var raised := Processed(None, w).1;
    if raised.Some? {
      assert Breaks(w, raised.value, w.gate.Admitted? && w.claim.Done?) by { RaisedBreaks(w, raised.value); }
    }
  }

  lemma RaisedBreaks(w: Answers, f: Failure)
    requires Processed(None, w).1 == Some(f)
    ensures Breaks(w, f, w.gate.Admitted? && w.claim.Done?)
  {
    if w.gate.Admitted? && w.claim.Done? && w.card != Card.Breaks(f) && !Delivered(w) {
      var g := if w.card.NoCard? then Unexpected
               else if w.first == Some(Formatting) then w.second.value else w.first.value;
      assert FailsOnTheSpot(w, g);
    }
  }
}
