/**
Reserve-activation notices. A row can be cancelled and completed again under the same id,
so a notice is deduplicated by (event, user, generation), the generation being the time of
the completion. Sweeps are serialised by a lock; everything but the lock is in the database,
and every read or write of a setting may fail: a failed read looks like an absent value, a
failed write is swallowed.
*/
module ReserveNotices {
  import opened Wrappers

  datatype Status = Requested | Creating | Finished | Failed | Cancelled

  /** `updatedAt` is None when the stored text does not parse; otherwise whole seconds. */
  datatype Row = Row(source: string, status: Status, updatedAt: Option<int>)

  /** The stored dedup value: a legacy marker equals no generation. */
  datatype Flag = Legacy | Generation(at: int)

  /** A message to a user about one completion of an event. */
  datatype Note = Note(event: nat, user: int, generation: int)

  /** A message sent: `blind` if its flag could not be read first, `landed` once its flag is stored. */
  datatype Sent = Sent(note: Note, blind: bool, landed: bool)

  type Rows = map<nat, Row>
  type Flags = map<(nat, int), Flag>

  const FRESH_SECONDS := 72 * 3600

  predicate InWindow(rows: Rows, e: nat, source: string, baseline: int, now: int) {
    && e in rows && e > 0
    && rows[e].source == source && rows[e].status == Finished && rows[e].updatedAt.Some?
    && rows[e].updatedAt.value >= baseline && rows[e].updatedAt.value >= now - FRESH_SECONDS
  }

  /** The generations a sweep reads: one per in-window row. */
  function Snapshot(rows: Rows, source: string, baseline: int, now: int): map<nat, int> {
    map e | e in rows && InWindow(rows, e, source, baseline, now) :: rows[e].updatedAt.value
  }

  predicate Flagged(flags: Flags, n: Note) {
    (n.event, n.user) in flags && flags[(n.event, n.user)] == Generation(n.generation)
  }

  function WithFlag(flags: Flags, n: Note): Flags { flags[(n.event, n.user) := Generation(n.generation)] }

  // ---- the baseline ----

  /** How the settings answer while the baseline is ensured: first read, write, confirming read. */
  datatype Probe = Probe(readOk: bool, writeOk: bool, confirmOk: bool)

  /** What is stored afterwards: a baseline that could not be read counts as never set. */
  function StoredBaseline(stored: Option<int>, now: int, p: Probe): Option<int> {
    if (p.readOk && stored.Some?) || !p.writeOk then stored else Some(now)
  }

  /** What the sweep goes by; None sends nothing. */
  function UsableBaseline(stored: Option<int>, now: int, p: Probe): Option<int> {
    if p.readOk && stored.Some? then stored
    else if p.confirmOk && StoredBaseline(stored, now, p) == Some(now) then Some(now)
    else None
  }

  /** A stored baseline is overwritten exactly when its read fails and the write then goes through. */
  predicate Overwrites(b: int, now: int, p: Probe) { !p.readOk && p.writeOk && now != b }

  // ---- every run ----

  /** Within one visit: about to send, or sent and about to store the flag. */
  datatype Stage = Between | Sending(note: Note, blind: bool) | Flagging(note: Note)

  /** `due` is the snapshot of the sweep holding the lock; `log` is every message sent. */
  datatype State = State(
    rows: Rows, baseline: Option<int>, flags: Flags, due: Option<map<nat, int>>, visit: Stage, log: seq<Sent>)

  datatype Action =
    | Write(e: nat, row: Row)                                    // request, take, finish, cancel
    | BeginSweep(source: string, now: int, probe: Probe, queryOk: bool)
    | Check(e: nat, u: int, readOk: bool)
    | Send(ok: bool)
    | StoreFlag(ok: bool)
    | EndSweep
    | Restart

  /** Before the first sweep nothing was sent; the flags hold legacy markers at most. */
  function Start(legacy: set<(nat, int)>): State {
    State(map[], None, map k | k in legacy :: Legacy, None, Between, [])
  }

  /** A row keeps its source and its `updatedAt` does not go back; visits are to rows the sweep read. */
  predicate Enabled(s: State, a: Action) {
    match a
    case Write(e, row) =>
      && row.updatedAt.Some?
      && (e in s.rows ==>
            && s.rows[e].updatedAt.Some? && s.rows[e].updatedAt.value <= row.updatedAt.value
            && s.rows[e].source == row.source)
    case BeginSweep(_, _, _, _) => s.due.None?
    case Check(e, _, _) => s.due.Some? && e in s.due.value && s.visit.Between?
    case Send(_) => s.visit.Sending?
    case StoreFlag(_) => s.visit.Flagging?
    case EndSweep => s.due.Some? && s.visit.Between?
    case Restart => true
  }

  /** The last message's flag has been stored. */
  function Landed(log: seq<Sent>): seq<Sent>
    requires log != []
  {
    log[|log| - 1 := log[|log| - 1].(landed := true)]
  }

  function Next(s: State, a: Action): State
    requires Enabled(s, a)
  {
    match a
    case Write(e, row) => s.(rows := s.rows[e := row])
    case BeginSweep(source, now, probe, queryOk) =>
      var t := s.(baseline := StoredBaseline(s.baseline, now, probe));
      var b := UsableBaseline(s.baseline, now, probe);
      if b.None? then t
      else t.(due := Some(if queryOk then Snapshot(s.rows, source, b.value, now) else map[]))
    case Check(e, u, readOk) =>
      var n := Note(e, u, s.due.value[e]);
      if readOk && Flagged(s.flags, n) then s else s.(visit := Sending(n, !readOk))
    case Send(ok) =>
      if ok then s.(visit := Flagging(s.visit.note), log := s.log + [Sent(s.visit.note, s.visit.blind, false)])
      else s.(visit := Between)
    case StoreFlag(ok) =>
      if ok && s.log != [] then s.(visit := Between, flags := WithFlag(s.flags, s.visit.note), log := Landed(s.log))
      else s.(visit := Between)
    case EndSweep => s.(due := None)
    case Restart => s.(due := None, visit := Between)
  }

  predicate Legal(s: State, run: seq<Action>)
    decreases run
  {
    run == [] || (Enabled(s, run[0]) && Legal(Next(s, run[0]), run[1..]))
  }

  function After(s: State, run: seq<Action>): State
    requires Legal(s, run)
    decreases run
  {
    if run == [] then s else After(Next(s, run[0]), run[1..])
  }

  // ---- the invariant ----

  predicate ReachedBy(rows: Rows, e: nat, g: int) {
    e in rows && rows[e].updatedAt.Some? && g <= rows[e].updatedAt.value
  }

  ghost predicate DueOk(s: State) {
    match s.due
    case None => s.visit.Between?
    case Some(due) =>
      && (forall e <- due :: ReachedBy(s.rows, e, due[e]))
      && (!s.visit.Between? ==> s.visit.note.event in due && s.visit.note.generation == due[s.visit.note.event])
  }

  /** A flag's generation has been reached by its row and by any sweep under way. */
  ghost predicate FlagsOk(s: State) {
    forall k <- s.flags :: s.flags[k].Generation? ==>
      && ReachedBy(s.rows, k.0, s.flags[k].at)
      && (s.due.Some? && k.0 in s.due.value ==> s.flags[k].at <= s.due.value[k.0])
  }

  ghost predicate SentAndLanded(log: seq<Sent>, n: Note, upTo: nat)
    requires upTo <= |log|
  {
    exists i :: 0 <= i < upTo && log[i].note == n && log[i].landed
  }

  ghost predicate WasSent(log: seq<Sent>, n: Note, upTo: nat)
    requires upTo <= |log|
  {
    exists i :: 0 <= i < upTo && log[i].note == n
  }

  /** Flags come from messages whose flag landed, and such a message's flag is kept or superseded. */
  ghost predicate LogOk(s: State) {
    && (forall k <- s.flags :: s.flags[k].Generation? ==>
          SentAndLanded(s.log, Note(k.0, k.1, s.flags[k].at), |s.log|))
    && (forall m <- s.log :: m.landed ==>
          && (m.note.event, m.note.user) in s.flags && s.flags[(m.note.event, m.note.user)].Generation?
          && m.note.generation <= s.flags[(m.note.event, m.note.user)].at)
  }

  /** What a visit under way has found out. */
  ghost predicate VisitOk(s: State) {
    match s.visit
    case Between => true
    case Sending(n, blind) => blind || !Flagged(s.flags, n)
    case Flagging(n) => s.log != [] && s.log[|s.log| - 1].note == n && !s.log[|s.log| - 1].landed
  }

  /** The j-th message is no needless repeat: it was sent blind, or no earlier one of it had its flag land. */
  ghost predicate Excused(log: seq<Sent>, j: nat)
    requires j < |log|
  {
    log[j].blind || !SentAndLanded(log, log[j].note, j)
  }

  ghost predicate AllExcused(log: seq<Sent>) { forall j :: 0 <= j < |log| ==> Excused(log, j) }

  ghost predicate Inv(s: State) {
    DueOk(s) && FlagsOk(s) && LogOk(s) && VisitOk(s) && AllExcused(s.log)
  }

  lemma StartIsSound(legacy: set<(nat, int)>)
    ensures Inv(Start(legacy))
  {
  }

  lemma EarlierUnchanged(log: seq<Sent>, longer: seq<Sent>, n: Note, upTo: nat)
    requires upTo <= |log| <= |longer| && forall i :: 0 <= i < upTo ==> longer[i] == log[i]
    ensures SentAndLanded(longer, n, upTo) == SentAndLanded(log, n, upTo)
  {
    assert forall i :: 0 <= i < upTo ==> longer[i] == log[i];
  }

  /** For a row under sweep, being flagged means exactly that a message of it was sent and its flag landed. */
  lemma FlaggedMeansLanded(s: State, n: Note)
    requires DueOk(s) && FlagsOk(s) && LogOk(s)
    requires s.due.Some? && n.event in s.due.value && n.generation == s.due.value[n.event]
    ensures Flagged(s.flags, n) <==> SentAndLanded(s.log, n, |s.log|)
  {
    assert forall i :: 0 <= i < |s.log| ==> s.log[i] in s.log;
  }

  lemma SendKeepsExcused(s: State)
    requires Inv(s) && s.visit.Sending?
    ensures AllExcused(Next(s, Send(true)).log)
  {
    var log := Next(s, Send(true)).log;
    FlaggedMeansLanded(s, s.visit.note);
    forall j | 0 <= j < |log| ensures Excused(log, j) {
      EarlierUnchanged(s.log, log, log[j].note, j);
      assert j < |s.log| ==> Excused(s.log, j);
    }
  }

  lemma LandingKeepsExcused(s: State)
    requires Inv(s) && s.visit.Flagging?
    ensures AllExcused(Landed(s.log))
  {
    forall j | 0 <= j < |s.log| ensures Excused(Landed(s.log), j) {
      EarlierUnchanged(s.log, Landed(s.log), s.log[j].note, j);
      assert Excused(s.log, j);
    }
  }

  lemma SendKeepsLog(s: State)
    requires Inv(s) && s.visit.Sending?
    ensures LogOk(Next(s, Send(true)))
  {
    var t := Next(s, Send(true));
    forall k | k in t.flags && t.flags[k].Generation?
      ensures SentAndLanded(t.log, Note(k.0, k.1, t.flags[k].at), |t.log|)
    {
      EarlierUnchanged(s.log, t.log, Note(k.0, k.1, t.flags[k].at), |s.log|);
    }
  }

  lemma LandingKeepsLog(s: State)
    requires Inv(s) && s.visit.Flagging?
    ensures LogOk(Next(s, StoreFlag(true)))
  {
    var (t, n, last) := (Next(s, StoreFlag(true)), s.visit.note, |s.log| - 1);
    assert t.log[last].note == n && t.log[last].landed;
    forall k | k in t.flags && t.flags[k].Generation?
      ensures SentAndLanded(t.log, Note(k.0, k.1, t.flags[k].at), |t.log|)
    {
      if k != (n.event, n.user) {
        var was := Note(k.0, k.1, s.flags[k].at);
        var i :| 0 <= i < |s.log| && s.log[i].note == was && s.log[i].landed;
        assert t.log[i] == s.log[i];
      }
    }
    forall m | m in t.log && m.landed
      ensures (m.note.event, m.note.user) in t.flags && t.flags[(m.note.event, m.note.user)].Generation?
      ensures m.note.generation <= t.flags[(m.note.event, m.note.user)].at
    {
      var i :| 0 <= i < |t.log| && t.log[i] == m;
      if i < last { assert s.log[i] == m && s.log[i] in s.log; }
    }
  }

  lemma StepKeepsInv(s: State, a: Action)
    requires Inv(s) && Enabled(s, a)
    ensures Inv(Next(s, a))
  {
    if a == Send(true) {
      SendKeepsExcused(s);
      SendKeepsLog(s);
    } else if a == StoreFlag(true) {
      LandingKeepsExcused(s);
      LandingKeepsLog(s);
    }
  }

  lemma {:induction false} RunKeepsInv(s: State, run: seq<Action>)
    requires Inv(s) && Legal(s, run)
    ensures Inv(After(s, run))
    decreases run
  {
    if run != [] {
      StepKeepsInv(s, run[0]);
      RunKeepsInv(Next(s, run[0]), run[1..]);
    }
  }

  // ---- when a message is repeated ----

  /**
  In every run: a due recipient already told of this generation is told again by the next
  visit, if Telegram accepts it, exactly when the flag cannot be read or no earlier message's
  flag ever landed, be it lost in the write or in a restart.
  */
  lemma RepeatedUnlessProtected(legacy: set<(nat, int)>, run: seq<Action>, e: nat, u: int, readOk: bool)
    requires Legal(Start(legacy), run) && Enabled(After(Start(legacy), run), Check(e, u, readOk))
    ensures var s := After(Start(legacy), run);
            var (n, t) := (Note(e, u, s.due.value[e]), Next(s, Check(e, u, readOk)));
            && (t.visit.Sending? <==> !readOk || !SentAndLanded(s.log, n, |s.log|))
            && (t.visit.Sending? ==> Next(t, Send(true)).log == s.log + [Sent(n, !readOk, false)])
  {
    StartIsSound(legacy);
    RunKeepsInv(Start(legacy), run);
    var s := After(Start(legacy), run);
    FlaggedMeansLanded(s, Note(e, u, s.due.value[e]));
  }

  /** Looking back over any run: each repeat was sent blind, or after messages whose flag never landed. */
  lemma EveryRepeatHasACause(legacy: set<(nat, int)>, run: seq<Action>, i: nat, j: nat)
    requires Legal(Start(legacy), run) && i < j < |After(Start(legacy), run).log|
    ensures var log := After(Start(legacy), run).log;
            log[i].note == log[j].note ==> log[j].blind || !log[i].landed
  {
    StartIsSound(legacy);
    RunKeepsInv(Start(legacy), run);
    assert Excused(After(Start(legacy), run).log, j);
  }

  /** Flags are read and stored, and no restart falls between a message and its flag. */
  predicate Untroubled(s: State, run: seq<Action>)
    requires Legal(s, run)
    decreases run
  {
    run == []
    || (&& (run[0].Check? ==> run[0].readOk) && (run[0].StoreFlag? ==> run[0].ok)
        && (run[0].Restart? ==> !s.visit.Flagging?)
        && Untroubled(Next(s, run[0]), run[1..]))
  }

  /** Nothing blind, and every flag landed but that of the message just sent. */
  ghost predicate Tidy(s: State) {
    && (s.visit.Sending? ==> !s.visit.blind)
    && (forall j :: 0 <= j < |s.log| ==> !s.log[j].blind)
    && (forall j :: 0 <= j < |s.log| ==> s.log[j].landed || (j == |s.log| - 1 && s.visit.Flagging?))
  }

  lemma {:induction false} UntroubledStaysTidy(s: State, run: seq<Action>)
    requires Legal(s, run) && Untroubled(s, run) && Tidy(s)
    ensures Tidy(After(s, run))
    decreases run
  {
    if run != [] { UntroubledStaysTidy(Next(s, run[0]), run[1..]); }
  }

  /** In an untroubled run no user is told the same generation of an event twice. */
  lemma NeverSentTwice(legacy: set<(nat, int)>, run: seq<Action>)
    requires Legal(Start(legacy), run) && Untroubled(Start(legacy), run)
    ensures var log := After(Start(legacy), run).log;
            forall i, j :: 0 <= i < j < |log| ==> log[i].note != log[j].note
  {
    UntroubledStaysTidy(Start(legacy), run);
    var log := After(Start(legacy), run).log;
    forall i, j | 0 <= i < j < |log| ensures log[i].note != log[j].note {
      EveryRepeatHasACause(legacy, run, i, j);
    }
  }

  /**
  A visit that can read the flag sends exactly when the row was completed later than the
  completion last flagged, so a row revived and completed within the same second is skipped.
  */
  lemma RevivedIsSentAgain(s: State, e: nat, u: int, last: int, readOk: bool)
    requires Inv(s) && Enabled(s, Check(e, u, readOk)) && Flagged(s.flags, Note(e, u, last))
    ensures var t := Next(s, Check(e, u, readOk));
            && (t.visit.Sending? <==> !readOk || s.due.value[e] > last)
            && (t == s <==> readOk && s.due.value[e] == last)
  {
  }

  // ---- the baseline over runs ----

  /** The stored baseline is `b` after every step. */
  predicate Steady(s: State, run: seq<Action>, b: int)
    requires Legal(s, run)
    decreases run
  {
    s.baseline == Some(b) && (run == [] || Steady(Next(s, run[0]), run[1..], b))
  }

  /** A stored baseline stays through a run exactly when no sweep fails to read it and then writes another. */
  lemma {:induction false} BaselineIsFixed(s: State, run: seq<Action>, b: int)
    requires Legal(s, run) && s.baseline == Some(b)
    ensures Steady(s, run, b) <==> forall a <- run :: !(a.BeginSweep? && Overwrites(b, a.now, a.probe))
    decreases run
  {
    if run != [] {
      var t := Next(s, run[0]);
      assert t.baseline == Some(b) <==> !(run[0].BeginSweep? && Overwrites(b, run[0].now, run[0].probe));
      if t.baseline == Some(b) {
        BaselineIsFixed(t, run[1..], b);
        assert forall a <- run :: a == run[0] || a in run[1..];
      } else {
        assert run[0] in run;
      }
    }
  }

  /** The event's completion lies below the baseline, and no sweep under way has it. */
  ghost predicate Below(s: State, b: int, e: nat) {
    && s.baseline == Some(b) && e in s.rows
    && (s.rows[e].updatedAt.None? || s.rows[e].updatedAt.value < b)
    && (s.due.Some? ==> e !in s.due.value) && (!s.visit.Between? ==> s.visit.note.event != e)
  }

  /** Since `log`, nothing about the event has been sent. */
  ghost predicate Quiet(log: seq<Sent>, later: seq<Sent>, e: nat) {
    && |log| <= |later| && (forall i :: 0 <= i < |log| ==> later[i].note == log[i].note)
    && forall i :: |log| <= i < |later| ==> later[i].note.event != e
  }

  lemma StepStaysBelow(s: State, a: Action, b: int, e: nat)
    requires Enabled(s, a) && Below(s, b, e) && Next(s, a).baseline == Some(b) && (a.Write? ==> a.e != e)
    ensures Below(Next(s, a), b, e) && Quiet(s.log, Next(s, a).log, e)
  {
  }

  lemma QuietOnwards(a: seq<Sent>, b: seq<Sent>, c: seq<Sent>, e: nat)
    requires Quiet(a, b, e) && Quiet(b, c, e)
    ensures Quiet(a, c, e)
  {
    forall i | |a| <= i < |b| ensures c[i].note.event != e { assert c[i].note == b[i].note; }
  }

  /** What an overwritten baseline loses: a completion below it is never announced while both stay. */
  lemma {:induction false} BelowBaselineIsSilent(s: State, run: seq<Action>, b: int, e: nat)
    requires Legal(s, run) && Below(s, b, e) && Steady(s, run, b)
    requires forall a <- run :: a.Write? ==> a.e != e
    ensures Quiet(s.log, After(s, run).log, e)
    decreases run
  {
    if run != [] {
      assert run[0] in run && forall a <- run[1..] :: a in run;
      StepStaysBelow(s, run[0], b, e);
      BelowBaselineIsSilent(Next(s, run[0]), run[1..], b, e);
      QuietOnwards(s.log, Next(s, run[0]).log, After(s, run).log, e);
    }
  }

  // ---- runs that show it ----

  const FINE := Probe(true, true, true)

  lemma {:induction false} Stepped(s: State, run: seq<Action>, a: Action)
    requires Legal(s, run) && Enabled(After(s, run), a)
    ensures Legal(s, run + [a]) && After(s, run + [a]) == Next(After(s, run), a)
    decreases run
  {
    if run == [] {
      assert ([] + [a])[0] == a && ([] + [a])[1..] == [];
      assert Legal(Next(s, a), []) && After(Next(s, a), []) == Next(s, a);
      assert run + [a] == [a];
    } else {
      assert (run + [a])[1..] == run[1..] + [a];
      Stepped(Next(s, run[0]), run[1..], a);
    }
  }

  lemma OneDue(rows: Rows, e: nat, at: int, baseline: int, now: int)
    requires rows == map[e := Row("s", Finished, Some(at))] && e > 0 && baseline <= at && now - FRESH_SECONDS <= at
    ensures Snapshot(rows, "s", baseline, now) == map[e := at]
  {
    assert InWindow(rows, e, "s", baseline, now);
  }

  /** One completion, swept for one user up to the accepted message. */
  lemma FirstMessage(e: nat, u: int, at: int) returns (run: seq<Action>)
    requires e > 0
    ensures Legal(Start({}), run)
    ensures var s := After(Start({}), run);
            && s.rows == map[e := Row("s", Finished, Some(at))] && s.baseline == Some(at) && s.flags == map[]
            && s.due == Some(map[e := at]) && s.visit == Flagging(Note(e, u, at))
            && s.log == [Sent(Note(e, u, at), false, false)]
  {
    var s := Start({});
    run := [];
    Stepped(s, run, Write(e, Row("s", Finished, Some(at))));
    run := run + [Write(e, Row("s", Finished, Some(at)))];
    Stepped(s, run, BeginSweep("s", at, FINE, true));
    run := run + [BeginSweep("s", at, FINE, true)];
    OneDue(After(s, run).rows, e, at, at, at);
    Stepped(s, run, Check(e, u, true));
    run := run + [Check(e, u, true)];
    Stepped(s, run, Send(true));
    run := run + [Send(true)];
  }

  /** Swept again, with nothing written in between. */
  lemma SecondSweep(run: seq<Action>, e: nat, u: int, at: int, readOk: bool) returns (longer: seq<Action>)
    requires e > 0 && Legal(Start({}), run)
    requires var s := After(Start({}), run);
             && s.rows == map[e := Row("s", Finished, Some(at))] && s.baseline == Some(at)
             && s.due.None? && s.visit.Between?
             && (readOk ==> !Flagged(s.flags, Note(e, u, at)))
    ensures Legal(Start({}), longer) && run <= longer
    ensures After(Start({}), longer).log == After(Start({}), run).log + [Sent(Note(e, u, at), !readOk, false)]
  {
    var s := Start({});
    longer := run;
    Stepped(s, longer, BeginSweep("s", at + 90, FINE, true));
    longer := longer + [BeginSweep("s", at + 90, FINE, true)];
    OneDue(After(s, longer).rows, e, at, at, at + 90);
    Stepped(s, longer, Check(e, u, readOk));
    longer := longer + [Check(e, u, readOk)];
    Stepped(s, longer, Send(true));
    longer := longer + [Send(true)];
  }

  /** The flag write is lost, or the process restarts before it, or the next sweep cannot read it. */
  datatype Trouble = LostWrite | LostToRestart | UnreadFlag

  /** For each of the three, a run that tells one user the same completion twice. */
  lemma ToldTwice(trouble: Trouble) returns (run: seq<Action>)
    ensures Legal(Start({}), run)
    ensures var log := After(Start({}), run).log; |log| == 2 && log[0].note == log[1].note
  {
    run := FirstMessage(1, 7, 100);
    var s := Start({});
    if trouble.LostToRestart? {
      Stepped(s, run, Restart);
      run := run + [Restart];
    } else {
      var a := StoreFlag(trouble.UnreadFlag?);
      Stepped(s, run, a);
      run := run + [a];
      Stepped(s, run, EndSweep);
      run := run + [EndSweep];
    }
    run := SecondSweep(run, 1, 7, 100, !trouble.UnreadFlag?);
  }

  /**
  A completion whose message failed is due again at the next sweep. If that sweep cannot read
  the baseline it stores the current time instead, and the completion lies below it for good.
  */
  lemma UnreadBaselineLosesARow() returns (run: seq<Action>, last: Action)
    ensures Legal(Start({}), run)
    ensures var s := After(Start({}), run);
            && Enabled(s, last) && last.BeginSweep? && s.log == [] && s.baseline.Some?
            && InWindow(s.rows, 1, "s", s.baseline.value, last.now)
            && Below(Next(s, last), last.now, 1)
  {
    var s := Start({});
    run := [];
    Stepped(s, run, BeginSweep("s", 50, FINE, true));
    run := run + [BeginSweep("s", 50, FINE, true)];
    Stepped(s, run, EndSweep);
    run := run + [EndSweep];
    Stepped(s, run, Write(1, Row("s", Finished, Some(100))));
    run := run + [Write(1, Row("s", Finished, Some(100)))];
    last := BeginSweep("s", 200, Probe(false, true, true), true);
  }

  /** Completed, announced, cancelled, revived and completed again, all in one second: told once. */
  lemma SameSecondRevivalIsSkipped() returns (run: seq<Action>)
    ensures Legal(Start({}), run)
    ensures var s := After(Start({}), run);
            && Enabled(s, Check(1, 7, true)) && Next(s, Check(1, 7, true)) == s
            && |s.log| == 1 && s.log[0].note == Note(1, 7, 100)
            && |run| > 3 && run[|run| - 1].BeginSweep? && run[|run| - 2] == Write(1, Row("s", Finished, Some(100)))
            && run[|run| - 3] == Write(1, Row("s", Cancelled, Some(100)))
  {
    run := FirstMessage(1, 7, 100);
    var s := Start({});
    Stepped(s, run, StoreFlag(true));
    run := run + [StoreFlag(true)];
    Stepped(s, run, EndSweep);
    run := run + [EndSweep];
    Stepped(s, run, Write(1, Row("s", Cancelled, Some(100))));
    run := run + [Write(1, Row("s", Cancelled, Some(100)))];
    Stepped(s, run, Write(1, Row("s", Finished, Some(100))));
    run := run + [Write(1, Row("s", Finished, Some(100)))];
    OneDue(After(s, run).rows, 1, 100, 100, 190);
    Stepped(s, run, BeginSweep("s", 190, FINE, true));
    run := run + [BeginSweep("s", 190, FINE, true)];
  }

  // ---- one sweep as coded ----

  /** How the outside world answers one visit. */
  datatype Answers = Answers(readOk: bool, sendOk: bool, flagOk: bool)

  type World = (nat, int) -> Answers

  /** One recipient of one event: skip, or send and then store the flag. */
  function Visited(flags: Flags, log: seq<Sent>, n: Note, w: Answers): (Flags, seq<Sent>) {
    if (w.readOk && Flagged(flags, n)) || !w.sendOk then (flags, log)
    else (if w.flagOk then WithFlag(flags, n) else flags, log + [Sent(n, !w.readOk, w.flagOk)])
  }

  class Notifier {
    var rows: Rows
    var baseline: Option<int>
    var flags: Flags
    var log: seq<Sent>

    /** None when no baseline could be confirmed. */
    method EnsureBaseline(now: int, p: Probe) returns (b: Option<int>)
      modifies this`baseline
      ensures baseline == StoredBaseline(old(baseline), now, p)
      ensures b == UsableBaseline(old(baseline), now, p)
      ensures old(baseline).Some? && p.readOk ==> baseline == old(baseline) == b
      ensures b.Some? ==> b == baseline
    {
      if p.readOk && baseline.Some? { return baseline; }
      if p.writeOk { baseline := Some(now); }
      b := if p.confirmOk && baseline == Some(now) then Some(now) else None;
    }

    /** The row to deliver next: oldest completion first, then lowest id. */
    method Oldest(todo: map<nat, int>) returns (e: nat)
      requires todo != map[]
      ensures e in todo && forall x <- todo :: x != e ==> todo[e] < todo[x] || (todo[e] == todo[x] && e < x)
    {
      var rest := todo.Keys;
      assert rest != {};
      e :| e in rest;
      rest := rest - {e};
      while rest != {}
        invariant e in todo && rest <= todo.Keys && e !in rest
        invariant forall x <- todo :: x !in rest && x != e ==> todo[e] < todo[x] || (todo[e] == todo[x] && e < x)
        decreases rest
      {
        var x :| x in rest;
        rest := rest - {x};
        if todo[x] < todo[e] || (todo[x] == todo[e] && x < e) { e := x; }
      }
    }

    /** `told` is what the caller is told: sent now, or flagged as sent before. */
    method SendOne(n: Note, w: Answers) returns (told: bool)
      modifies this`flags, this`log
      ensures (flags, log) == Visited(old(flags), old(log), n, w)
      ensures told <==> (w.readOk && Flagged(old(flags), n)) || w.sendOk
    {
      if w.readOk && (n.event, n.user) in flags && flags[(n.event, n.user)] == Generation(n.generation) {
        return true;
      }
      if !w.sendOk { return false; }
      log := log + [Sent(n, !w.readOk, false)];
      if w.flagOk {
        flags := flags[(n.event, n.user) := Generation(n.generation)];
        log := log[|log| - 1 := log[|log| - 1].(landed := true)];
        assert log == old(log) + [Sent(n, !w.readOk, true)];
      }
      told := true;
    }

    method SweepRow(e: nat, g: int, users: seq<int>, world: World)
      modifies this`flags, this`log
      ensures (flags, log) == FannedOut(old(flags), old(log), e, g, users, world)
    {
      for i := 0 to |users|
        invariant (flags, log) == FannedOut(old(flags), old(log), e, g, users[..i], world)
      {
        assert users[..i + 1][..i] == users[..i];
        var _ := SendOne(Note(e, users[i], g), world(e, users[i]));
      }
      assert users[..|users|] == users;
    }

    /** One source's sweep; `order` is the rows in the order they were delivered. */
    method SweepSource(source: string, users: seq<int>, now: int, p: Probe, queryOk: bool, world: World)
      returns (order: seq<nat>)
      modifies this`baseline, this`flags, this`log
      ensures users == [] ==> baseline == old(baseline) && flags == old(flags) && log == old(log)
      ensures users != [] ==> baseline == StoredBaseline(old(baseline), now, p)
      ensures users != [] && UsableBaseline(old(baseline), now, p).None? ==> flags == old(flags) && log == old(log)
      ensures users != [] && UsableBaseline(old(baseline), now, p).Some? ==>
        var due := if queryOk then Snapshot(rows, source, UsableBaseline(old(baseline), now, p).value, now) else map[];
        && Delivers(order, due)
        && (flags, log) == Swept(old(flags), old(log), order, due, users, world)
    {
      order := [];
      if users == [] { return; }
      var b := EnsureBaseline(now, p);
      if b.None? { return; }
      var due := if queryOk then Snapshot(rows, source, b.value, now) else map[];
      var todo := due;
      while todo != map[]
        invariant SweptSoFar(due, todo, order) && baseline == StoredBaseline(old(baseline), now, p)
        invariant (flags, log) == Swept(old(flags), old(log), order, due, users, world)
        decreases todo.Keys
      {
        var e := Oldest(todo);
        SweepRow(e, due[e], users, world);
        assert (order + [e])[..|order|] == order;
        SweptOne(due, todo, order, e);
        order := order + [e];
        todo := todo - {e};
      }
    }
  }

  function FannedOut(flags: Flags, log: seq<Sent>, e: nat, g: int, users: seq<int>, world: World): (Flags, seq<Sent>) {
    if users == [] then (flags, log)
    else
      var (f, l) := FannedOut(flags, log, e, g, users[..|users| - 1], world);
      var u := users[|users| - 1];
      Visited(f, l, Note(e, u, g), world(e, u))
  }

  function Swept(flags: Flags, log: seq<Sent>, order: seq<nat>, due: map<nat, int>, users: seq<int>, world: World)
    : (Flags, seq<Sent>)
    requires forall e <- order :: e in due
  {
    if order == [] then (flags, log)
    else
      var e := order[|order| - 1];
      var (f, l) := Swept(flags, log, order[..|order| - 1], due, users, world);
      FannedOut(f, l, e, due[e], users, world)
  }

  predicate Earlier(due: map<nat, int>, a: nat, b: nat) {
    a in due && b in due && (due[a] < due[b] || (due[a] == due[b] && a < b))
  }

  /** Each due row once, oldest completion first, ids breaking ties. */
  predicate Delivers(order: seq<nat>, due: map<nat, int>) {
    && (forall e <- due :: e in order) && (forall e <- order :: e in due)
    && (forall i, j :: 0 <= i < j < |order| ==> Earlier(due, order[i], order[j]))
  }

  /** `order` is an initial stretch of the delivery order, and `todo` the rows still due. */
  ghost predicate SweptSoFar(due: map<nat, int>, todo: map<nat, int>, order: seq<nat>) {
    && todo.Keys <= due.Keys && (forall e <- todo :: todo[e] == due[e])
    && (forall e <- due :: e in todo <==> e !in order)
    && (forall e <- order :: e in due)
    && (forall i, j :: 0 <= i < j < |order| ==> Earlier(due, order[i], order[j]))
    && (forall x, e | x in order && e in todo :: Earlier(due, x, e))
  }

  lemma SweptOne(due: map<nat, int>, todo: map<nat, int>, order: seq<nat>, e: nat)
    requires SweptSoFar(due, todo, order) && e in todo
    requires forall x <- todo :: x != e ==> todo[e] < todo[x] || (todo[e] == todo[x] && e < x)
    ensures SweptSoFar(due, todo - {e}, order + [e])
  {
  }

  predicate FlagLands(w: Answers) { w.sendOk && w.flagOk }

  /** Fan-out flags each recipient whose message went out and whose flag landed, and moves no other flag. */
  lemma {:induction false} FanOutFlags(flags: Flags, log: seq<Sent>, e: nat, g: int, users: seq<int>, world: World,
                                       n: Note)
    ensures var f := FannedOut(flags, log, e, g, users, world).0;
            && (n.event == e && n.user in users && n.generation == g ==>
                  (Flagged(f, n) <==> Flagged(flags, n) || FlagLands(world(e, n.user))))
            && (n.event != e || n.user !in users ==> (Flagged(f, n) <==> Flagged(flags, n)))
  {
    if users != [] {
      var (init, last) := (users[..|users| - 1], users[|users| - 1]);
      FanOutFlags(flags, log, e, g, init, world, n);
      FanOutFlags(flags, log, e, g, init, world, Note(e, last, g));
      assert users == init + [last];
    }
  }

  /** Each row once, in whatever order. */
  ghost predicate EachOnce(order: seq<nat>, due: map<nat, int>) {
    && (forall e <- order :: e in due) && (forall i, j :: 0 <= i < j < |order| ==> order[i] != order[j])
  }

  lemma EarlierOnce(order: seq<nat>, due: map<nat, int>)
    requires Delivers(order, due)
    ensures EachOnce(order, due)
  {
    forall i, j | 0 <= i < j < |order| ensures order[i] != order[j] { assert Earlier(due, order[i], order[j]); }
  }

  /**
  After a full sweep every recipient of every in-window row is flagged with its generation
  unless the message failed or its flag was lost, and no flag of another row or user has moved.
  */
  lemma {:induction false} SweepFlags(flags: Flags, log: seq<Sent>, order: seq<nat>, due: map<nat, int>,
          users: seq<int>,
                                      world: World, n: Note)
    requires EachOnce(order, due)
    ensures var f := Swept(flags, log, order, due, users, world).0;
            && (n.event in order && n.user in users && n.generation == due[n.event] ==>
                  (Flagged(f, n) <==> Flagged(flags, n) || FlagLands(world(n.event, n.user))))
            && (n.event !in order || n.user !in users ==> (Flagged(f, n) <==> Flagged(flags, n)))
  {
    if order != [] {
      var (init, e) := (order[..|order| - 1], order[|order| - 1]);
      assert forall i :: 0 <= i < |init| ==> init[i] == order[i];
      assert order == init + [e];
      var (f, l) := Swept(flags, log, init, due, users, world);
      SweepFlags(flags, log, init, due, users, world, n);
      FanOutFlags(f, l, e, due[e], users, world, n);
    }
  }

  /** With every message accepted and every flag stored, a sweep leaves every due row flagged for everyone. */
  lemma FullSweepFlagsAll(flags: Flags, log: seq<Sent>, order: seq<nat>, due: map<nat, int>, users: seq<int>,
                          world: World, e: nat, u: int)
    requires Delivers(order, due) && (forall x, v :: FlagLands(world(x, v))) && e in due && u in users
    ensures Flagged(Swept(flags, log, order, due, users, world).0, Note(e, u, due[e]))
  {
    EarlierOnce(order, due);
    SweepFlags(flags, log, order, due, users, world, Note(e, u, due[e]));
  }

  lemma {:induction false} FanOutGrows(flags: Flags, log: seq<Sent>, e: nat, g: int, users: seq<int>, world: World)
    ensures log <= FannedOut(flags, log, e, g, users, world).1
  {
    if users != [] { FanOutGrows(flags, log, e, g, users[..|users| - 1], world); }
  }

  lemma {:induction false} SweepGrows(flags: Flags, log: seq<Sent>, order: seq<nat>, due: map<nat, int>,
          users: seq<int>,
                                      world: World)
    requires forall e <- order :: e in due
    ensures log <= Swept(flags, log, order, due, users, world).1
  {
    if order != [] {
      var (init, x) := (order[..|order| - 1], order[|order| - 1]);
      SweepGrows(flags, log, init, due, users, world);
      var (f, l) := Swept(flags, log, init, due, users, world);
      FanOutGrows(f, l, x, due[x], users, world);
    }
  }

  /** Flagged from the start, or sent by now. */
  ghost predicate Told(flags: Flags, log: seq<Sent>, n: Note) { Flagged(flags, n) || WasSent(log, n, |log|) }

  lemma ToldForGood(flags: Flags, log: seq<Sent>, longer: seq<Sent>, n: Note)
    requires log <= longer && Told(flags, log, n)
    ensures Told(flags, longer, n)
  {
    if i :| 0 <= i < |log| && log[i].note == n { assert longer[i] == log[i]; }
  }

  lemma {:induction false} FanOutTells(flags: Flags, log: seq<Sent>, e: nat, g: int, users: seq<int>, world: World,
          u: int)
    requires u in users && world(e, u).sendOk
    ensures Told(flags, FannedOut(flags, log, e, g, users, world).1, Note(e, u, g))
  {
    var (init, last) := (users[..|users| - 1], users[|users| - 1]);
    var n := Note(e, u, g);
    assert users == init + [last];
    var (f, l) := FannedOut(flags, log, e, g, init, world);
    var l' := FannedOut(flags, log, e, g, users, world).1;
    if u in init {
      FanOutTells(flags, log, e, g, init, world, u);
      ToldForGood(flags, l, l', n);
    } else {
      FanOutFlags(flags, log, e, g, init, world, n);
      if !Flagged(f, n) { assert l'[|l|].note == n; }
    }
  }

  lemma {:induction false} SweepTells(flags: Flags, log: seq<Sent>, order: seq<nat>, due: map<nat, int>,
          users: seq<int>,
                                      world: World, e: nat, u: int)
    requires EachOnce(order, due) && e in order && u in users && world(e, u).sendOk
    ensures Told(flags, Swept(flags, log, order, due, users, world).1, Note(e, u, due[e]))
    decreases order
  {
    var (init, x) := (order[..|order| - 1], order[|order| - 1]);
    assert forall i :: 0 <= i < |init| ==> init[i] == order[i];
    assert order == init + [x];
    var n := Note(e, u, due[e]);
    var (f, l) := Swept(flags, log, init, due, users, world);
    if e in init {
      SweepTells(flags, log, init, due, users, world, e, u);
      FanOutGrows(f, l, x, due[x], users, world);
      ToldForGood(flags, l, FannedOut(f, l, x, due[x], users, world).1, n);
    } else {
      SweepFlags(flags, log, init, due, users, world, n);
      FanOutTells(f, l, e, due[e], users, world, u);
    }
  }

  /**
  At least once: after a sweep whose message to the user was accepted, the user has been told
  of this completion, now or before, whatever the settings answered.
  */
  lemma SweepReachesEveryone(s: State, order: seq<nat>, users: seq<int>, world: World, e: nat, u: int)
    requires Inv(s) && s.due.Some? && Delivers(order, s.due.value) && e in s.due.value && u in users
    requires world(e, u).sendOk
    ensures var l := Swept(s.flags, s.log, order, s.due.value, users, world).1;
            WasSent(l, Note(e, u, s.due.value[e]), |l|)
  {
    var n := Note(e, u, s.due.value[e]);
    EarlierOnce(order, s.due.value);
    SweepTells(s.flags, s.log, order, s.due.value, users, world, e, u);
    FlaggedMeansLanded(s, n);
    SweepGrows(s.flags, s.log, order, s.due.value, users, world);
    if i :| 0 <= i < |s.log| && s.log[i].note == n {
      assert Swept(s.flags, s.log, order, s.due.value, users, world).1[i] == s.log[i];
    }
  }

  // ---- a sweep is a run of the machine ----

  lemma {:induction false} RunsCompose(s: State, first: seq<Action>, second: seq<Action>)
    requires Legal(s, first) && Legal(After(s, first), second)
    ensures Legal(s, first + second) && After(s, first + second) == After(After(s, first), second)
    decreases first
  {
    if first == [] {
      assert first + second == second;
    } else {
      assert (first + second)[1..] == first[1..] + second;
      RunsCompose(Next(s, first[0]), first[1..], second);
    }
  }

  /** The steps of one visit, from check to stored flag. */
  lemma VisitIsARun(s: State, e: nat, u: int, w: Answers) returns (run: seq<Action>)
    requires s.due.Some? && s.visit.Between? && e in s.due.value
    ensures var out := Visited(s.flags, s.log, Note(e, u, s.due.value[e]), w);
            Legal(s, run) && After(s, run) == s.(flags := out.0, log := out.1)
  {
    run := [];
    Stepped(s, run, Check(e, u, w.readOk));
    run := [] + [Check(e, u, w.readOk)];
    if After(s, run).visit.Sending? {
      Stepped(s, run, Send(w.sendOk));
      run := run + [Send(w.sendOk)];
      if w.sendOk {
        Stepped(s, run, StoreFlag(w.flagOk));
        run := run + [StoreFlag(w.flagOk)];
      }
    }
  }

  lemma {:induction false} FanOutIsARun(s: State, e: nat, users: seq<int>, world: World) returns (run: seq<Action>)
    requires s.due.Some? && s.visit.Between? && e in s.due.value
    ensures var out := FannedOut(s.flags, s.log, e, s.due.value[e], users, world);
            Legal(s, run) && After(s, run) == s.(flags := out.0, log := out.1)
  {
    run := [];
    if users != [] {
      var (init, u) := (users[..|users| - 1], users[|users| - 1]);
      var before := FanOutIsARun(s, e, init, world);
      var visit := VisitIsARun(After(s, before), e, u, world(e, u));
      RunsCompose(s, before, visit);
      run := before + visit;
    }
  }

  /** What a sweep does to flags and messages is a run of the machine, so every result on runs covers it. */
  lemma {:induction false} SweepIsARun(s: State, order: seq<nat>, users: seq<int>, world: World)
    returns (run: seq<Action>)
    requires s.due.Some? && s.visit.Between? && forall e <- order :: e in s.due.value
    ensures var out := Swept(s.flags, s.log, order, s.due.value, users, world);
            Legal(s, run) && After(s, run) == s.(flags := out.0, log := out.1)
    decreases order
  {
    run := [];
    if order != [] {
      var (init, e) := (order[..|order| - 1], order[|order| - 1]);
      var before := SweepIsARun(s, init, users, world);
      var fan := FanOutIsARun(After(s, before), e, users, world);
      RunsCompose(s, before, fan);
      run := before + fan;
    }
  }

  // ---- what a sweep is about ----

  /** A sweep is about exactly the finished rows of its source not below the baseline and at most 72 hours old. */
  lemma DueInWords(rows: Rows, source: string, baseline: int, now: int, e: nat)
    ensures var due := Snapshot(rows, source, baseline, now);
            && (e in due <==>
                  && e in rows && e >= 1 && rows[e].source == source && rows[e].status == Finished
                  && rows[e].updatedAt.Some? && baseline <= rows[e].updatedAt.value
                  && now - rows[e].updatedAt.value <= 259200)
            && (e in due ==> rows[e].updatedAt == Some(due[e]))
  {
  }

  /** The baseline a sweep goes by is the stored one; there is none if it could neither be read nor confirmed. */
  lemma SweepKnowsItsBaseline(stored: Option<int>, now: int, p: Probe)
    ensures var (b, after) := (UsableBaseline(stored, now, p), StoredBaseline(stored, now, p));
            && (b.Some? ==> b == after)
            && (b.None? <==> !(p.readOk && stored.Some?) && !(p.confirmOk && (p.writeOk || stored == Some(now))))
            && (after != stored ==> after == Some(now) && p.writeOk && (stored.None? || !p.readOk))
            && (stored.None? && p.writeOk ==> after == Some(now))
  {
  }

  /** Every message of a sweep is about one of its rows, at that row's completion, to one of its recipients. */
  lemma {:induction false} SweepSendsItsOwn(flags: Flags, log: seq<Sent>, order: seq<nat>, due: map<nat, int>,
          users: seq<int>, world: World)
    requires forall e <- order :: e in due
    ensures var l := Swept(flags, log, order, due, users, world).1;
            && log <= l
            && forall i :: |log| <= i < |l| ==>
                 var n := l[i].note;
                 n.event in order && n.user in users && n.generation == due[n.event] && world(n.event, n.user).sendOk
    decreases order
  {
    if order != [] {
      var (init, e) := (order[..|order| - 1], order[|order| - 1]);
      assert order == init + [e];
      var (f, l) := Swept(flags, log, init, due, users, world);
      SweepSendsItsOwn(flags, log, init, due, users, world);
      FanOutSendsItsOwn(f, l, e, due[e], users, world);
    }
  }

  lemma {:induction false} FanOutSendsItsOwn(flags: Flags, log: seq<Sent>, e: nat, g: int, users: seq<int>,
          world: World)
    ensures var l := FannedOut(flags, log, e, g, users, world).1;
            && log <= l
            && forall i :: |log| <= i < |l| ==>
                 l[i].note.event == e && l[i].note.user in users && l[i].note.generation == g
                 && world(e, l[i].note.user).sendOk
  {
    if users != [] {
      FanOutSendsItsOwn(flags, log, e, g, users[..|users| - 1], world);
      assert users == users[..|users| - 1] + [users[|users| - 1]];
    }
  }
}
