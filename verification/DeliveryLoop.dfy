/**
The poll loop itself, run against the ledger. Its ghost `run` records the machine
steps taken, so every result proved about runs in PollLoop holds of this loop.
*/
module DeliveryLoop {
  import opened Retries
  import opened SentRows
  import opened Wrappers
  import opened PollLoop
  import FairBatch

  /** What the access checks ahead of the claim say. */
  datatype Gate = Admitted | Refused(state: TerminalState) | Raises(f: Failure)

  /**
  One access to the database: done, failed inside the guarded part and swallowed, or failed to
  connect, which is outside it and raises.
  */
  datatype DbCall = Done | Swallowed | Unreachable

  /** The card ahead of a send: placed, not placed, or broken off by an exception. */
  datatype Card = Placed | NoCard | Breaks(f: Failure)

  /**
  How the outside world answers one event's processing. `note` is the failure note made on the
  spot, `backstop` the one the poll loop makes for an exception, `dbError` the class of a
  failed connection.
  */
  datatype Answers = Answers(
    gate: Gate, terminal: DbCall, claim: DbCall, card: Card,
    first: Option<Failure>, second: Option<Failure>, note: DbCall,
    tries: seq<Try>, degradedOk: bool, dbError: Failure, backstop: DbCall,
    now: int, token: nat, jitter: nat)

  datatype SendResult = Accepted(fallback: bool) | Rejected(f: Failure)

  /** A formatting error is retried once as plain text; any other error stands. */
  function SendWithFallback(first: Option<Failure>, second: Option<Failure>): SendResult {
    if first.None? then Accepted(false)
    else if first.value != Formatting then Rejected(first.value)
    else if second.None? then Accepted(true)
    else Rejected(second.value)
  }

  /** Whether the processing gets as far as taking the claim. */
  predicate Claims(w: Answers) { w.gate.Admitted? && w.claim.Done? }

  /** Machine steps, and the exception that escapes after them, if any. */
  type Outcome = (seq<Action>, Option<Failure>)

  function Noting(f: Failure, w: Answers): Outcome {
    match w.note
    case Done => ([FailToSend(f, w.now, w.jitter)], None)
    case Swallowed => ([Pass], None)
    case Unreachable => ([], Some(w.dbError))
  }

  function OnceClaimed(w: Answers): Outcome {
    match w.card
    case Breaks(f) => ([], Some(f))
    case NoCard => Noting(Unexpected, w)
    case Placed =>
      match SendWithFallback(w.first, w.second) {
        case Rejected(f) => Noting(f, w)
        case Accepted(fallback) =>
          var outcome := SaveOutcome(w.tries, w.degradedOk);
          if outcome.Uncaught? then ([Send], Some(w.dbError)) else ([Send, Save(outcome, w.now, fallback)], None)
      }
  }

  /** What processing one event does by itself. */
  function Processed(r: Option<Row>, w: Answers): Outcome {
    match w.gate
    case Raises(f) => ([], Some(f))
    case Refused(state) =>
      (match w.terminal
       case Done => ([TurnAway(state, w.now)], None)
       case Swallowed => ([Pass], None)
       case Unreachable => ([], Some(w.dbError)))
    case Admitted =>
      match w.claim
      case Swallowed => ([Pass], None)
      case Unreachable => ([], Some(w.dbError))
      case Done =>
        if ClaimRefused(r) then ([Claim(w.now, w.token)], None)
        else ([Claim(w.now, w.token)] + OnceClaimed(w).0, OnceClaimed(w).1)
  }

  /** The poll loop's backstop: note the exception, or, if that cannot connect, leave the whole pass. */
  function Caught(claimed: bool, f: Failure, w: Answers): Action {
    match w.backstop
    case Done => if claimed then FailToSend(f, w.now, w.jitter) else FailBeforeClaim(f, w.now, w.jitter)
    case Swallowed => Pass
    case Unreachable => Crash
  }

  /** The machine steps one event makes, its backstop included. */
  function Steps(r: Option<Row>, w: Answers): seq<Action> {
    var (steps, raised) := Processed(r, w);
    if raised.None? then steps else steps + [Caught(steps != [], raised.value, w)]
  }

  /** An event not yet taken by anyone ends the pass: an exception escapes and the backstop cannot connect. */
  predicate Aborts(w: Answers) { Processed(None, w).1.Some? && w.backstop.Unreachable? }

  class Loop {
    const table: SentTable
    ghost var run: seq<Action>

    ghost predicate Valid()
      reads this, table
    {
      && table.cfg.Valid()
      && Legal(table.cfg, START, run)
      && After(table.cfg, START, run).rows == table.rows
    }

    ghost function Machine(): State
      requires Legal(table.cfg, START, run)
      reads this
    {
      After(table.cfg, START, run)
    }

    constructor (cfg: Config)
      requires cfg.Valid()
      ensures Valid() && run == [] && fresh(table) && table.cfg == cfg
    {
      table := new SentTable(cfg);
      run := [];
    }

    ghost method Took(a: Action)
      requires Legal(table.cfg, START, run) && Enabled(Machine(), a)
      modifies this
      ensures run == old(run) + [a] && Legal(table.cfg, START, run)
      ensures Machine() == Next(table.cfg, old(Machine()), a)
    {
      Extended(table.cfg, START, run, a);
      run := run + [a];
    }

    /** The top of a pass. */
    method Recover(now: int, jitter: Pair -> nat) returns (recovered: set<Pair>)
      requires Valid() && Machine().control.Idle?
      modifies this, table
      ensures Valid() && run == old(run) + [PollLoop.Recover(now, jitter)]
      ensures Machine().control.Idle? && Machine().claims == old(Machine()).claims
    {
      recovered := table.RecoverStaleClaims(now, jitter);
      Took(PollLoop.Recover(now, jitter));
    }

    /** One event, from the access checks to the recorded outcome, or to an exception. */
    method SendEventToUser(p: Pair, w: Answers, ghost rest: seq<Pair>) returns (raised: Option<Failure>, claimed: bool)
      requires Valid() && Machine().control == Batch([p] + rest) && |w.tries| == 3
      modifies this, table
      ensures Valid() && run == old(run) + Processed(Lookup(old(table.rows), p), w).0
      ensures raised == Processed(Lookup(old(table.rows), p), w).1
      ensures raised.None? ==> Machine().control == Batch(rest)
      ensures raised.Some? ==> claimed == (Processed(Lookup(old(table.rows), p), w).0 != [])
      ensures raised.Some? ==> InHand(Machine().control, p, rest, claimed)
    {
      ghost var taken := run;
      assert ([p] + rest)[1..] == rest && taken + [] == taken;
      raised, claimed := None, false;
      match w.gate {
        case Raises(f) =>
          raised := Some(f);
          return;
        case Refused(state) =>
          match w.terminal {
            case Unreachable =>
              raised := Some(w.dbError);
            case Swallowed =>
              Took(Pass);
            case Done =>
              var _ := table.WriteTerminal(p, state, w.now);
              Took(TurnAway(state, w.now));
          }
          return;
        case Admitted =>
      }
      match w.claim {
        case Unreachable =>
          raised := Some(w.dbError);
        case Swallowed =>
          Took(Pass);
        case Done =>
          claimed := table.Claim(p, w.now, w.token);
          Took(Claim(w.now, w.token));
          if claimed {
            raised := DeliverClaimed(p, w, rest);
            ghost var claim := [Claim(w.now, w.token)];
            assert taken + claim + OnceClaimed(w).0 == taken + (claim + OnceClaimed(w).0);
          }
      }
    }

    /** From a claim in hand: placeholder, send, then the note of a failure or the save. */
    method DeliverClaimed(p: Pair, w: Answers, ghost rest: seq<Pair>) returns (raised: Option<Failure>)
      requires Valid() && Machine().control == Holding(p, rest) && |w.tries| == 3
      modifies this, table
      ensures Valid() && run == old(run) + OnceClaimed(w).0 && raised == OnceClaimed(w).1
      ensures if raised.None? then Machine().control == Batch(rest) else InHand(Machine().control, p, rest, true)
    {
      raised := None;
      if w.card.Breaks? { return Some(w.card.f); }
      if w.card.NoCard? {
        raised := NoteFailure(p, Unexpected, w, rest);
        return;
      }
      var result := SendWithFallback(w.first, w.second);
      if result.Rejected? {
        raised := NoteFailure(p, result.f, w, rest);
        return;
      }
      Took(Send);
      var uncaught, _ := table.SaveCardAndSent(p, w.now, result.fallback, w.tries, w.degradedOk);
      if uncaught { return Some(w.dbError); }
      Took(Save(SaveOutcome(w.tries, w.degradedOk), w.now, result.fallback));
    }

    method NoteFailure(p: Pair, f: Failure, w: Answers, ghost rest: seq<Pair>) returns (raised: Option<Failure>)
      requires Valid() && Machine().control == Holding(p, rest)
      modifies this, table
      ensures Valid() && run == old(run) + Noting(f, w).0 && raised == Noting(f, w).1
      ensures Machine().control == if raised.None? then Batch(rest) else Holding(p, rest)
    {
      raised := None;
      match w.note {
        case Unreachable =>
          raised := Some(w.dbError);
        case Swallowed =>
          Took(Pass);
        case Done =>
          table.MarkSendAttempt(p, f, w.now, w.jitter);
          Took(FailToSend(f, w.now, w.jitter));
      }
    }

    /** The handler of the event loop. It raises itself when its note cannot connect. */
    method Backstop(p: Pair, f: Failure, claimed: bool, w: Answers, ghost rest: seq<Pair>) returns (aborted: bool)
      requires Valid() && InHand(Machine().control, p, rest, claimed)
      modifies this, table
      ensures Valid() && run == old(run) + [Caught(claimed, f, w)] && aborted == w.backstop.Unreachable?
      ensures Machine().control == if aborted then Idle else Batch(rest)
    {
      assert ([p] + rest)[1..] == rest;
      aborted := false;
      match w.backstop {
        case Unreachable =>
          Took(Crash);
          aborted := true;
        case Swallowed =>
          Took(Pass);
        case Done =>
          table.MarkSendAttempt(p, f, w.now, w.jitter);
          Took(if claimed then FailToSend(f, w.now, w.jitter) else FailBeforeClaim(f, w.now, w.jitter));
      }
    }

    /** One turn of the event loop: nobody else's row or claim count moves, and the event is claimed at most once. */
    method ProcessEvent(p: Pair, w: Answers, ghost rest: seq<Pair>) returns (aborted: bool)
      requires Valid() && Machine().control == Batch([p] + rest) && |w.tries| == 3
      modifies this, table
      ensures Valid() && run == old(run) + Steps(Lookup(old(table.rows), p), w)
      ensures aborted == Aborts(w) && Machine().control == if aborted then Idle else Batch(rest)
      ensures OnlyTouched(old(Machine()), Machine(), p, if Claims(w) then 1 else 0)
    {
      ghost var (before, taken) := (Machine(), run);
      HeadIsOpen(table.cfg, run, p, rest);
      var raised, claimed := SendEventToUser(p, w, rest);
      aborted := false;
      if raised.Some? { aborted := Backstop(p, raised.value, claimed, w, rest); }
      assert run == taken + Steps(Lookup(before.rows, p), w);
      StepsClaimOnce(table.cfg, taken, before, p, rest, w);
    }

    /** The event loop over a selected batch: the events up to one that ends the pass, or all of them. */
    method ProcessBatch(batch: seq<Pair>, answers: seq<Answers>) returns (handled: nat)
      requires Valid() && Machine().control == Batch(batch) && Distinct(batch)
      requires |answers| == |batch| && forall w <- answers :: |w.tries| == 3
      modifies this, table
      ensures Valid() && old(run) <= run && handled <= |batch|
      ensures Machine().control == if handled == |batch| then Batch([]) else Idle
      ensures handled < |batch| ==> Aborts(answers[handled])
      ensures forall i :: 0 <= i < handled ==> !Aborts(answers[i])
      ensures Progress(old(Machine()), Machine(), batch, answers,
        if handled == |batch| then handled else handled + 1)
    {
      ghost var start := Machine();
      assert batch[0..] == batch;
      handled := 0;
      while handled < |batch|
        invariant 0 <= handled <= |batch| && forall i :: 0 <= i < handled ==> !Aborts(answers[i])
        invariant Valid() && Machine().control == Batch(batch[handled..]) && old(run) <= run
        invariant Progress(start, Machine(), batch, answers, handled)
      {
        ghost var before := Machine();
        ghost var rest := batch[handled + 1..];
        assert batch[handled..] == [batch[handled]] + rest;
        var aborted := ProcessEvent(batch[handled], answers[handled], rest);
        OneMoreProcessed(start, before, Machine(), batch, answers, handled);
        if aborted { return; }
        handled := handled + 1;
      }
    }

    /**
    One user's batch. Every selected event is processed, and claimed exactly once if its checks
    and claim write go through, unless an exception meets a backstop that cannot connect. Then
    the events up to that one have been, and the later ones keep their rows and claim counts.
    */
    method PollUser(batch: seq<Pair>, answers: seq<Answers>, now: int) returns (handled: nat)
      requires Valid() && Machine().control.Idle?
      requires Distinct(batch) && forall p <- batch :: Selectable(Lookup(table.rows, p), now)
      requires |answers| == |batch| && forall w <- answers :: |w.tries| == 3
      modifies this, table
      ensures Valid() && Machine().control.Idle? && old(run) <= run
      ensures handled <= |batch| && (handled == |batch| <==> forall w <- answers :: !Aborts(w))
      ensures handled < |batch| ==> Aborts(answers[handled]) && forall i :: 0 <= i < handled ==> !Aborts(answers[i])
      ensures forall i :: 0 <= i < |batch| ==>
        ClaimsOf(Machine(), batch[i]) ==
          old(ClaimsOf(Machine(), batch[i])) + (if i <= handled && Claims(answers[i]) then 1 else 0)
      ensures forall i :: handled < i < |batch| ==> Lookup(table.rows, batch[i]) == Lookup(old(table.rows), batch[i])
      ensures forall p :: p !in batch ==>
        ClaimsOf(Machine(), p) == old(ClaimsOf(Machine(), p)) && Lookup(table.rows, p) == Lookup(old(table.rows), p)
    {
      ghost var start := Machine();
      Took(Select(batch, now));
      ghost var selected := Machine();
      handled := ProcessBatch(batch, answers);
      assert Progress(start, selected, batch, answers, 0);
      if handled == |batch| { Took(EndBatch); }
    }

    /** A user's selected events, each answered as the world answers its pair. */
    method ServeBatch(user: int, batch: seq<FairBatch.Event>, now: int, world: Pair -> Answers) returns (handled: nat)
      requires Valid() && Machine().control.Idle? && forall p :: |world(p).tries| == 3
      requires forall i, j :: 0 <= i < j < |batch| ==> batch[i].id != batch[j].id
      requires forall e <- batch :: Selectable(Lookup(table.rows, Pair(user, e.id)), now)
      modifies this, table
      ensures Valid() && Machine().control.Idle? && old(run) <= run
      ensures handled <= |batch| && (handled == |batch| <==> forall p <- PairsOf(user, batch) :: !Aborts(world(p)))
      ensures handled < |batch| ==> Aborts(world(PairsOf(user, batch)[handled]))
      ensures forall i :: 0 <= i < |batch| ==>
        var p := PairsOf(user, batch)[i];
        ClaimsOf(Machine(), p) == old(ClaimsOf(Machine(), p)) + (if i <= handled && Claims(world(p)) then 1 else 0)
      ensures forall p :: p !in PairsOf(user, batch) ==> ClaimsOf(Machine(), p) == old(ClaimsOf(Machine(), p))
    {
      var pairs := PairsOf(user, batch);
      var answers := AnswersTo(world, pairs);
      assert forall i :: 0 <= i < |batch| ==> batch[i] in batch;
      AnswersAreTheWorlds(world, pairs);
      handled := PollUser(pairs, answers, now);
    }

    /**
    One user's turn: a fair batch is selected and its events processed. A selection that fails
    inside its guarded part gives an empty batch, one that cannot connect ends the pass.
    */
    method ServeUser(user: int, events: set<FairBatch.Event>, grants: map<string, FairBatch.Access>, keys: set<string>,
                     now: int, select: DbCall, world: Pair -> Answers)
      returns (batch: seq<FairBatch.Event>, handled: nat, aborted: bool)
      requires Valid() && Machine().control.Idle? && FairBatch.UniqueIds(events)
      requires forall p :: |world(p).tries| == 3
      modifies this, table
      ensures Valid() && Machine().control.Idle? && old(run) <= run
      ensures select.Done? ==>
        FairBatch.IsBatch(FairBatch.Eligible(events, grants, old(table.rows), user, keys, now), batch)
      ensures !select.Done? ==> batch == [] && table.rows == old(table.rows)
      ensures aborted <==> select.Unreachable? || handled < |batch|
      ensures handled <= |batch| && (handled == |batch| <==> forall p <- PairsOf(user, batch) :: !Aborts(world(p)))
      ensures handled < |batch| ==> Aborts(world(PairsOf(user, batch)[handled]))
      ensures forall i :: 0 <= i < |batch| ==>
        var p := PairsOf(user, batch)[i];
        ClaimsOf(Machine(), p) == old(ClaimsOf(Machine(), p)) + (if i <= handled && Claims(world(p)) then 1 else 0)
      ensures forall p :: ClaimsOf(Machine(), p) != old(ClaimsOf(Machine(), p)) ==>
        p.user == user && Entitled(p, events, grants, keys)
    {
      batch, handled, aborted := [], 0, select.Unreachable?;
      if !select.Done? { return; }
      batch := FairBatch.FetchUnsent(events, grants, table.rows, user, keys, now);
      BatchIsEntitled(batch, events, grants, table.rows, user, keys, now);
      handled := ServeBatch(user, batch, now, world);
      aborted := handled < |batch|;
    }

    /**
    One pass: recovery, which may fail as a whole, then each user in turn, until a turn ends the
    pass. `startOk` says whether what comes before gets through. It continues the run.
    */
    method PollOnce(users: seq<int>, events: set<FairBatch.Event>, grants: int -> map<string, FairBatch.Access>,
                    keys: int -> set<string>, now: int, jitter: Pair -> nat, startOk: bool, recoverOk: bool,
                    select: int -> DbCall, world: Pair -> Answers) returns (served: nat)
      requires Valid() && Machine().control.Idle? && FairBatch.UniqueIds(events)
      requires forall p :: |world(p).tries| == 3
      modifies this, table
      ensures Valid() && Machine().control.Idle? && old(run) <= run
      ensures forall p :: ClaimsOf(Machine(), p) <= table.cfg.maxAttempts
      ensures forall p :: ClaimsOf(Machine(), p) != old(ClaimsOf(Machine(), p)) ==>
        p.user in users && Entitled(p, events, grants(p.user), keys(p.user))
      ensures forall u: int, e | e in events && e.key in grants(u) && grants(u)[e.key].revoked ::
        ClaimsOf(Machine(), Pair(u, e.id)) == old(ClaimsOf(Machine(), Pair(u, e.id)))
      ensures served <= |users|
      ensures startOk && served < |users| ==> EndsPass(users[served], keys(users[served]), select, world)
      ensures startOk && (forall u <- users :: !EndsPass(u, keys(u), select, world)) ==> served == |users|
    {
      served := 0;
      ClaimsBounded();
      if !startOk { return; }
      if recoverOk {
        var _ := Recover(now, jitter);
      }
      while served < |users|
        invariant 0 <= served <= |users| && Valid() && Machine().control.Idle? && old(run) <= run
        invariant forall p :: ClaimsOf(Machine(), p) != old(ClaimsOf(Machine(), p)) ==>
          p.user in users && Entitled(p, events, grants(p.user), keys(p.user))
      {
        var u := users[served];
        if keys(u) != {} {
          var batch, handled, aborted := ServeUser(u, events, grants(u), keys(u), now, select(u), world);
          if aborted {
            assert handled < |batch| ==> Aborts(world(Pair(u, batch[handled].id)));
            assert EndsPass(u, keys(u), select, world) && u in users;
            ClaimsBounded();
            return;
          }
        }
        served := served + 1;
      }
      ClaimsBounded();
    }

    ghost method ClaimsBounded()
      requires Valid()
      ensures forall p :: ClaimsOf(Machine(), p) <= table.cfg.maxAttempts
    {
      forall p ensures ClaimsOf(Machine(), p) <= table.cfg.maxAttempts { ClaimsAreBounded(table.cfg, run, p); }
    }
  }

  /** The pair's event is one its user may be sent. */
  ghost predicate Entitled(p: Pair, events: set<FairBatch.Event>, grants: map<string, FairBatch.Access>,
                           keys: set<string>)
  {
    exists e <- events :: e.id == p.event && FairBatch.Granted(e, grants, keys)
  }

  lemma BatchIsEntitled(batch: seq<FairBatch.Event>, events: set<FairBatch.Event>,
                        grants: map<string, FairBatch.Access>, rows: Rows, user: int, keys: set<string>, now: int)
    requires forall e <- batch :: FairBatch.Allowed(e, events, grants, rows, user, keys, now)
    ensures forall p <- PairsOf(user, batch) :: p.user == user && Entitled(p, events, grants, keys)
  {
    forall p | p in PairsOf(user, batch) ensures p.user == user && Entitled(p, events, grants, keys) {
      var i :| 0 <= i < |batch| && PairsOf(user, batch)[i] == p;
      assert batch[i] in batch;
    }
  }

  function PairsOf(user: int, batch: seq<FairBatch.Event>): (pairs: seq<Pair>)
    ensures |pairs| == |batch| && forall i :: 0 <= i < |batch| ==> pairs[i] == Pair(user, batch[i].id)
  {
    seq(|batch|, i requires 0 <= i < |batch| => Pair(user, batch[i].id))
  }

  function AnswersTo(world: Pair -> Answers, pairs: seq<Pair>): (answers: seq<Answers>)
    ensures |answers| == |pairs| && forall i :: 0 <= i < |pairs| ==> answers[i] == world(pairs[i])
  {
    seq(|pairs|, i requires 0 <= i < |pairs| => world(pairs[i]))
  }

  lemma AnswersAreTheWorlds(world: Pair -> Answers, pairs: seq<Pair>)
    requires forall p :: |world(p).tries| == 3
    ensures forall w <- AnswersTo(world, pairs) :: |w.tries| == 3
    ensures (forall w <- AnswersTo(world, pairs) :: !Aborts(w)) <==> forall p <- pairs :: !Aborts(world(p))
  {
    var answers := AnswersTo(world, pairs);
    if p :| p in pairs && Aborts(world(p)) {
      var i :| 0 <= i < |pairs| && pairs[i] == p;
      assert answers[i] in answers;
    }
  }

  /** Between two states one pair was claimed `n` more times, and no other pair's claims or row changed. */
  ghost predicate OnlyTouched(s: State, t: State, p: Pair, n: nat) {
    && ClaimsOf(t, p) == ClaimsOf(s, p) + n
    && forall q :: q != p ==> ClaimsOf(t, q) == ClaimsOf(s, q) && Lookup(t.rows, q) == Lookup(s.rows, q)
  }

  /** The first `n` events of a batch have been processed, and the rest are as they were. */
  ghost predicate Progress(start: State, s: State, batch: seq<Pair>, answers: seq<Answers>, n: nat)
    requires n <= |batch| == |answers|
  {
    && (forall j :: 0 <= j < |batch| ==>
          ClaimsOf(s, batch[j]) == ClaimsOf(start, batch[j]) + (if j < n && Claims(answers[j]) then 1 else 0))
    && (forall j :: n <= j < |batch| ==> Lookup(s.rows, batch[j]) == Lookup(start.rows, batch[j]))
    && forall p :: p !in batch ==> ClaimsOf(s, p) == ClaimsOf(start, p) && Lookup(s.rows, p) == Lookup(start.rows, p)
  }

  lemma OneMoreProcessed(start: State, s: State, t: State, batch: seq<Pair>, answers: seq<Answers>, n: nat)
    requires n < |batch| == |answers| && Distinct(batch) && Progress(start, s, batch, answers, n)
    requires OnlyTouched(s, t, batch[n], if Claims(answers[n]) then 1 else 0)
    ensures Progress(start, t, batch, answers, n + 1)
  {
  }

  /** The event being processed is still at the head, or claimed, or claimed and accepted. */
  ghost predicate InHand(c: Control, p: Pair, rest: seq<Pair>, claimed: bool) {
    if claimed then c == Holding(p, rest) || c == Delivered(p, rest) else c == Batch([p] + rest)
  }

  /** Something in the user's turn can raise out of the pass: the selection, or an event of theirs. */
  ghost predicate EndsPass(user: int, keys: set<string>, select: int -> DbCall, world: Pair -> Answers) {
    keys != {} && (select(user).Unreachable? || exists e: nat :: Aborts(world(Pair(user, e))))
  }

  lemma HeadIsOpen(cfg: Config, run: seq<Action>, p: Pair, rest: seq<Pair>)
    requires cfg.Valid() && Legal(cfg, START, run) && After(cfg, START, run).control == Batch([p] + rest)
    ensures Open(Lookup(After(cfg, START, run).rows, p))
  {
    RunKeepsInv(cfg, START, run);
    assert p in [p] + rest;
  }

  /** The steps of one event raise its own pair's claims by one, or none, and touch nobody else's claims or row. */
  lemma StepsClaimOnce(cfg: Config, run: seq<Action>, s: State, p: Pair, rest: seq<Pair>, w: Answers)
    requires Legal(cfg, START, run) && s == After(cfg, START, run)
    requires s.control == Batch([p] + rest) && Open(Lookup(s.rows, p))
    requires Legal(cfg, START, run + Steps(Lookup(s.rows, p), w))
    ensures var t := After(cfg, START, run + Steps(Lookup(s.rows, p), w));
            OnlyTouched(s, t, p, if Claims(w) then 1 else 0)
  {
    var steps := Steps(Lookup(s.rows, p), w);
    RunsCompose(cfg, START, run, steps);
    StepsAreOwn(Lookup(s.rows, p), w);
    OwnSteps(cfg, s, p, steps);
  }

  /** Neither selects, nor recovers, nor suppresses. */
  predicate Own(a: Action) { !a.Select? && !a.Recover? && !a.SuppressBelowCutoff? && !a.EndBatch? }

  /** Steps about one event alone: a claim first if at all, and only a claim or a send ahead of the last. */
  ghost predicate OwnRun(steps: seq<Action>) {
    && steps != [] && (forall a <- steps :: Own(a))
    && (forall i :: 0 <= i < |steps| - 1 ==> steps[i].Claim? || steps[i].Send?)
    && forall i :: 1 <= i < |steps| ==> !steps[i].Claim?
  }

  lemma StepsAreOwn(r: Option<Row>, w: Answers)
    requires !ClaimRefused(r)
    ensures OwnRun(Steps(r, w)) && (Steps(r, w)[0].Claim? <==> Claims(w))
  {
  }

  /** The loop is at the event: its head, its claim or its accepted message. */
  predicate About(c: Control, p: Pair) {
    match c
    case Idle => false
    case Batch(q) => q != [] && q[0] == p
    case Holding(x, _) => x == p
    case Delivered(x, _) => x == p
  }

  lemma OwnStep(cfg: Config, s: State, a: Action, p: Pair)
    requires Enabled(s, a) && Own(a) && About(s.control, p) && (a.Claim? ==> Open(Lookup(s.rows, p)))
    ensures var t := Next(cfg, s, a);
            && OnlyTouched(s, t, p, if a.Claim? then 1 else 0)
            && (a.Claim? || a.Send? ==> About(t.control, p))
  {
  }

  lemma {:induction false} OwnSteps(cfg: Config, s: State, p: Pair, steps: seq<Action>)
    requires Legal(cfg, s, steps) && OwnRun(steps) && About(s.control, p)
    requires steps[0].Claim? ==> Open(Lookup(s.rows, p))
    ensures OnlyTouched(s, After(cfg, s, steps), p, if steps[0].Claim? then 1 else 0)
    decreases steps
  {
    OwnStep(cfg, s, steps[0], p);
    if |steps| > 1 {
      assert forall a <- steps[1..] :: a in steps;
      OwnSteps(cfg, Next(cfg, s, steps[0]), p, steps[1..]);
    }
  }

  /**
  Two events in a batch. The first is claimed and accepted, its save cannot connect, and neither
  can the backstop: the pass ends there, and the second, with nothing wrong, is not claimed.
  */
  method AbortedBatch() returns (loop: Loop, handled: nat)
    ensures fresh(loop) && loop.Valid() && handled == 0
    ensures Lookup(loop.table.rows, Pair(7, 2)) == None && ClaimsOf(loop.Machine(), Pair(7, 2)) == 0
    ensures ClaimsOf(loop.Machine(), Pair(7, 1)) == 1
  {
    var good := Answers(Admitted, Done, Done, Placed, None, None, Done, [Committed, Committed, Committed], true, DbBusy,
                        Done, 0, 0, 1000);
    var cut := good.(tries := [Try.NoConnection, Committed, Committed], backstop := Unreachable);
    loop := new Loop(Config(3, 120));
    assert After(Config(3, 120), START, []) == START;
    handled := loop.PollUser([Pair(7, 1), Pair(7, 2)], [cut, good], 0);
    assert [cut, good][0] == cut && Aborts(cut) && !Aborts(good);
  }
}
