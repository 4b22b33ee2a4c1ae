/**
Where a transfer comes from and what it holds. Looking back over any run of the desk, every row
was opened, filled in, ticked and confirmed by one manager, and carries what was entered.
*/
module TransferTrace {
  import opened Wrappers
  import opened Text
  import opened Transfers

  // ---- what a commit writes ----

  predicate HoldsDraft(row: Transfer, draft: Draft, closers: seq<string>) {
    && row.chat == draft.chat && row.date == draft.date && row.manager == draft.manager && row.rawText == draft.text
    && exists k <- closers :: Clean(k) == row.closer
  }

  ghost predicate NewRowsHold(t: Table, after: Table, draft: Draft, closers: seq<string>) {
    forall id <- after.rows :: id in t.rows || HoldsDraft(after.rows[id], draft, closers)
  }

  lemma OneMoreCloser(t: Table, before: Table, draft: Draft, closers: seq<string>, last: string)
    requires NewRowsHold(t, before, draft, closers)
    ensures NewRowsHold(t, before, draft, closers + [last])
  {
    forall id | id in before.rows && id !in t.rows ensures HoldsDraft(before.rows[id], draft, closers + [last]) {
      var k :| k in closers && Clean(k) == before.rows[id].closer;
      assert k in closers + [last];
    }
  }

  lemma OneMoreInsert(t: Table, before: Table, draft: Draft, closers: seq<string>, last: string)
    requires NewRowsHold(t, before, draft, closers) && last in closers
    ensures NewRowsHold(t, Inserted(before, RowFor(draft, Clean(last))).0, draft, closers)
  {
    assert HoldsDraft(RowFor(draft, Clean(last)), draft, closers);
  }

  /** New rows hold the draft's lead, date, manager and text, and one of the closers asked for. */
  lemma {:induction false} NewRowsHoldTheDraft(t: Table, draft: Draft, closers: seq<string>)
    requires Sound(t)
    ensures NewRowsHold(t, Written(t, draft, closers).0, draft, closers)
  {
    if closers != [] {
      var (init, last) := (closers[..|closers| - 1], closers[|closers| - 1]);
      NewRowsHoldTheDraft(t, draft, init);
      assert closers == init + [last] && last in closers;
      var before := Written(t, draft, init).0;
      OneMoreCloser(t, before, draft, init, last);
      OneMoreInsert(t, before, draft, closers, last);
    }
  }

  /** A row for this closer, lead and date. */
  predicate Taken(t: Table, closer: string, chat: int, date: string) {
    exists id <- t.rows :: t.rows[id].closer == closer && t.rows[id].chat == chat && t.rows[id].date == date
  }

  /**
  After a commit each pair stands for a row with its closer, the draft's lead and its date. If there
  was none before, the row also has the draft's manager and text. Every closer that is not blank has a pair.
  */
  lemma CommittedRows(t: Table, draft: Draft, closers: seq<string>)
    requires Sound(t)
    ensures var (after, pairs) := Finalized(t, draft, closers, None);
            && (forall p <- pairs ::
                  && p.1 in after.rows
                  && after.rows[p.1].closer == p.0 && after.rows[p.1].chat == draft.chat
                  && after.rows[p.1].date == draft.date
                  && (!Taken(t, p.0, draft.chat, draft.date) ==>
                        p.1 !in t.rows && after.rows[p.1].manager == draft.manager &&
                          after.rows[p.1].rawText == draft.text))
            && (forall k <- closers :: Clean(k) != "" ==> exists p <- pairs :: p.0 == Clean(k))
  {
    WrittenRows(t, draft, closers);
    WrittenPairs(t, draft, closers);
    NewRowsHoldTheDraft(t, draft, closers);
    var (after, pairs) := Finalized(t, draft, closers, None);
    forall p | p in pairs
      ensures p.1 in after.rows && after.rows[p.1].closer == p.0 && after.rows[p.1].chat == draft.chat
      ensures after.rows[p.1].date == draft.date
    {
      assert At(after, p.1, RowFor(draft, p.0));
    }
  }

  /**
  Two committed finalizations return the same id exactly for the same closer, lead and date: any
  difference in one of them makes another row.
  */
  lemma SameIdMeansSameKey(t: Table, a: Draft, ks: seq<string>, u: Table, b: Draft, ls: seq<string>)
    requires Sound(t) && Sound(u) && Extends(Finalized(t, a, ks, None).0, u)
    ensures forall p, q | p in Finalized(t, a, ks, None).1 && q in Finalized(u, b, ls, None).1 ::
      p.1 == q.1 <==> p.0 == q.0 && a.chat == b.chat && a.date == b.date
  {
    CommittedRows(t, a, ks);
    CommittedRows(u, b, ls);
    WrittenRows(u, b, ls);
    var last := Finalized(u, b, ls, None).0;
    forall p, q | p in Finalized(t, a, ks, None).1 && q in Finalized(u, b, ls, None).1
      ensures p.1 == q.1 <==> p.0 == q.0 && a.chat == b.chat && a.date == b.date
    {
      assert p.1 in last.rows && q.1 in last.rows;
      if p.0 == q.0 && a.chat == b.chat && a.date == b.date {
        assert last.rows[p.1].Key() == (p.0, a.chat, a.date) == last.rows[q.1].Key();
        OneRowPerKey(last, p.1, q.1);
      }
    }
  }

  // ---- looking back over a run ----

  /** How many drafts the steps opened. */
  function Opened(past: seq<Action>): nat {
    if past == [] then 0 else Opened(past[..|past| - 1]) + (if past[|past| - 1].Create? then 1 else 0)
  }

  /** The step that opened draft `d`: the d-th of its kind. */
  function OpeningOf(past: seq<Action>, d: nat): Option<Action> {
    if past == [] then None
    else
      var (init, last) := (past[..|past| - 1], past[|past| - 1]);
      if last.Create? && d == Opened(init) + 1 then Some(last) else OpeningOf(init, d)
  }

  /** The draft is what its owner opened: lead, date and manager. */
  predicate IsOpened(past: seq<Action>, d: nat, draft: Draft) {
    match OpeningOf(past, d)
    case Some(Create(owner, manager, chat, date)) =>
      draft.owner == owner && draft.manager == Clean(manager) && draft.chat == chat && draft.date == date
    case _ => false
  }

  predicate TextSent(past: seq<Action>, d: nat, text: string) { SetText(d, text) in past }

  /** The owner ticked a key that this closer is a part of. */
  predicate Ticked(past: seq<Action>, d: nat, owner: int, closer: string) {
    exists a <- past :: a.PickRead? && a.d == d && a.who == owner && closer in Parse(a.key)
  }

  predicate AllTicked(past: seq<Action>, d: nat, owner: int, chosen: string) {
    forall k <- Parse(chosen) :: Ticked(past, d, owner, k)
  }

  /** The owner confirmed the draft while this closer was active. */
  predicate ConfirmedWith(past: seq<Action>, d: nat, owner: int, closer: string) {
    exists a <- past :: a.ConfirmRead? && a.d == d && a.who == owner && closer in a.active
  }

  predicate DraftTraced(past: seq<Action>, d: nat, draft: Draft) {
    && IsOpened(past, d, draft) && AllTicked(past, d, draft.owner, draft.chosen)
    && (draft.state in {AwaitCloser, Done} ==> TextSent(past, d, draft.text))
  }

  /** A confirmation under way holds a traced draft, open when it was read, and confirmed closers it ticked. */
  predicate CallTraced(past: seq<Action>, d: nat, draft: Draft, keys: seq<string>) {
    && DraftTraced(past, d, draft) && draft.state == AwaitCloser
    && forall k <- keys :: Ticked(past, d, draft.owner, k) && ConfirmedWith(past, d, draft.owner, Clean(k))
  }

  /** The row carries what the owner of draft `d` entered, ticked and confirmed. */
  predicate RowFrom(past: seq<Action>, d: nat, row: Transfer) {
    match OpeningOf(past, d)
    case Some(Create(owner, manager, chat, date)) =>
      && row.manager == Clean(manager) && row.chat == chat && row.date == date
      && TextSent(past, d, row.rawText)
      && ConfirmedWith(past, d, owner, row.closer)
      && exists a <- past :: a.PickRead? && a.d == d && a.who == owner &&
           exists k <- Parse(a.key) :: Clean(k) == row.closer
    case _ => false
  }

  ghost predicate RowTraced(past: seq<Action>, row: Transfer) { exists d: nat :: RowFrom(past, d, row) }

  ghost predicate DraftsTraced(past: seq<Action>, s: Desk) {
    && s.nextDraft == Opened(past) + 1
    && (forall d <- s.drafts :: d <= Opened(past) && DraftTraced(past, d, s.drafts[d]))
    && (forall k <- s.ticks :: AllTickedBy(past, s, s.ticks[k]))
  }

  ghost predicate CallsTraced(past: seq<Action>, s: Desk) {
    && (forall k <- s.clicks :: CallTraced(past, s.clicks[k].id, s.clicks[k].draft, s.clicks[k].keys))
    && (forall d <- s.jobs :: s.jobs[d].Finalizing? ==> CallTraced(past, d, s.jobs[d].draft, s.jobs[d].keys))
  }

  ghost predicate RowsTraced(past: seq<Action>, s: Desk) {
    forall id <- s.table.rows :: RowTraced(past, s.table.rows[id])
  }

  ghost predicate Traced(past: seq<Action>, s: Desk) {
    DraftsTraced(past, s) && CallsTraced(past, s) && RowsTraced(past, s)
  }

  predicate AllTickedBy(past: seq<Action>, s: Desk, t: Tick) {
    t.id in s.drafts && AllTicked(past, t.id, s.drafts[t.id].owner, t.chosen)
  }

  // ---- what is traced stays traced ----

  lemma {:induction false} OpeningStays(past: seq<Action>, a: Action, d: nat)
    ensures Opened(past + [a]) == Opened(past) + (if a.Create? then 1 else 0)
    ensures d <= Opened(past) ==> OpeningOf(past + [a], d) == OpeningOf(past, d)
    ensures a.Create? && d == Opened(past) + 1 ==> OpeningOf(past + [a], d) == Some(a)
    ensures OpeningOf(past, d).Some? ==> 1 <= d <= Opened(past)
  {
    assert (past + [a])[..|past|] == past;
    OpeningInRange(past, d);
  }

  lemma {:induction false} OpeningInRange(past: seq<Action>, d: nat)
    ensures OpeningOf(past, d).Some? ==> 1 <= d <= Opened(past)
  {
    if past != [] { OpeningInRange(past[..|past| - 1], d); }
  }

  lemma DraftStaysTraced(past: seq<Action>, a: Action, d: nat, draft: Draft)
    requires DraftTraced(past, d, draft)
    ensures DraftTraced(past + [a], d, draft)
  {
    OpeningStays(past, a, d);
    TicksStay(past, a, d, draft.owner, draft.chosen);
  }

  lemma TicksStay(past: seq<Action>, a: Action, d: nat, owner: int, chosen: string)
    requires AllTicked(past, d, owner, chosen)
    ensures AllTicked(past + [a], d, owner, chosen)
  {
    forall k | k in Parse(chosen) ensures Ticked(past + [a], d, owner, k) { TickStays(past, a, d, owner, k); }
  }

  lemma TickStays(past: seq<Action>, a: Action, d: nat, owner: int, closer: string)
    requires Ticked(past, d, owner, closer)
    ensures Ticked(past + [a], d, owner, closer)
  {
    var b :| b in past && b.PickRead? && b.d == d && b.who == owner && closer in Parse(b.key);
    assert b in past + [a];
  }

  lemma ConfirmStays(past: seq<Action>, a: Action, d: nat, owner: int, closer: string)
    requires ConfirmedWith(past, d, owner, closer)
    ensures ConfirmedWith(past + [a], d, owner, closer)
  {
    var b :| b in past && b.ConfirmRead? && b.d == d && b.who == owner && closer in b.active;
    assert b in past + [a];
  }

  lemma CallStaysTraced(past: seq<Action>, a: Action, d: nat, draft: Draft, keys: seq<string>)
    requires CallTraced(past, d, draft, keys)
    ensures CallTraced(past + [a], d, draft, keys)
  {
    DraftStaysTraced(past, a, d, draft);
    forall k | k in keys
      ensures Ticked(past + [a], d, draft.owner, k) && ConfirmedWith(past + [a], d, draft.owner, Clean(k))
    {
      TickStays(past, a, d, draft.owner, k);
      ConfirmStays(past, a, d, draft.owner, Clean(k));
    }
  }

  lemma RowStaysTraced(past: seq<Action>, a: Action, row: Transfer)
    requires RowTraced(past, row)
    ensures RowTraced(past + [a], row)
  {
    var d: nat :| RowFrom(past, d, row);
    OpeningStays(past, a, d);
    ConfirmStays(past, a, d, OpeningOf(past, d).value.owner, row.closer);
    assert forall b <- past :: b in past + [a];
    assert RowFrom(past + [a], d, row);
  }

  /** What a tick leaves on the list was there before, or is a part of the key. */
  lemma TickedParts(chosen: string, key: string)
    requires Toggled(chosen, key).Some?
    ensures forall k <- Parse(Toggled(chosen, key).value) :: k in Parse(chosen) || k in Parse(key)
  {
    var keys := Parse(chosen);
    ParsedAreGood(chosen);
    WithoutIsASublist(keys, key);
    if key in keys {
      JoinThenParse(Without(keys, key));
    } else {
      ParseOfJoin(keys, key);
    }
  }

  lemma {:induction false} StillActiveAre(keys: seq<string>, active: set<string>)
    ensures forall k :: k in StillActive(keys, active) <==> k in keys && Clean(k) in active
  {
    if keys != [] {
      StillActiveAre(keys[1..], active);
      assert keys == [keys[0]] + keys[1..];
    }
  }

  // ---- one step ----

  /** What one step can make of a draft. */
  predicate DraftMoves(s: Desk, a: Action, d: nat, now: Draft) {
    if d !in s.drafts then
      a.Create? && d == s.nextDraft && now == Draft(a.owner, Clean(a.manager), a.chat, a.date, AwaitText, "", "")
    else
      var was := s.drafts[d];
      || now == was
      || (a == Action.Cancel(d, was.owner) && was.state in {AwaitText, AwaitCloser} && now == was.(state := Cancelled))
      || (a.ConfirmLock? && a.click in s.clicks && s.clicks[a.click].id == d && was.state == AwaitCloser &&
            now == was.(state := Done))
      || (a == SetText(d, now.text) && was.state == AwaitText && now == was.(text := now.text, state := AwaitCloser))
      || (a.PickWrite? && a.tick in s.ticks && s.ticks[a.tick].id == d && now == was.(chosen := s.ticks[a.tick].chosen))
  }

  /** What one step can do to a draft: its owner cancels it, its text comes, a tick is stored, its lock is won. */
  lemma DraftChange(s: Desk, a: Action, d: nat)
    requires DraftsOk(s) && d in Next(s, a).drafts
    ensures DraftMoves(s, a, d, Next(s, a).drafts[d])
  {
    if LeavesDrafts(a) { DraftsLeft(s, a); }
  }

  lemma MovedDraftIsTraced(past: seq<Action>, s: Desk, a: Action, d: nat, now: Draft)
    requires Traced(past, s) && DraftMoves(s, a, d, now)
    ensures d <= Opened(past + [a]) && DraftTraced(past + [a], d, now)
  {
    OpeningStays(past, a, d);
    assert a in past + [a];
    if d in s.drafts {
      DraftStaysTraced(past, a, d, s.drafts[d]);
      if a.PickWrite? && a.tick in s.ticks && s.ticks[a.tick].id == d {
        assert AllTickedBy(past, s, s.ticks[a.tick]);
        TicksStay(past, a, d, s.drafts[d].owner, s.ticks[a.tick].chosen);
      }
    } else {
      JoinThenParse([]);
    }
  }

  lemma DraftInOneStep(past: seq<Action>, s: Desk, a: Action, d: nat)
    requires DraftsOk(s) && Traced(past, s) && d in Next(s, a).drafts
    ensures d <= Opened(past + [a]) && DraftTraced(past + [a], d, Next(s, a).drafts[d])
  {
    DraftChange(s, a, d);
    MovedDraftIsTraced(past, s, a, d, Next(s, a).drafts[d]);
  }

  /** Drafts are never dropped and never change hands. */
  lemma OwnerStays(s: Desk, a: Action, d: nat)
    requires DraftsOk(s) && d in s.drafts
    ensures d in Next(s, a).drafts && Next(s, a).drafts[d].owner == s.drafts[d].owner
  {
  }

  lemma TickInOneStep(past: seq<Action>, s: Desk, a: Action, k: nat)
    requires DraftsOk(s) && Traced(past, s) && k in Next(s, a).ticks
    ensures AllTickedBy(past + [a], Next(s, a), Next(s, a).ticks[k])
  {
    TicksInOneStep(s, a);
    var t := Next(s, a).ticks[k];
    if Picks(s, a) && k == a.tick {
      var draft := s.drafts[a.d];
      TickedParts(draft.chosen, a.key);
      TicksStay(past, a, a.d, draft.owner, draft.chosen);
      assert a in past + [a];
      assert forall c <- Parse(a.key) :: Ticked(past + [a], a.d, draft.owner, c);
      OwnerStays(s, a, a.d);
    } else {
      assert AllTickedBy(past, s, t);
      TicksStay(past, a, t.id, s.drafts[t.id].owner, t.chosen);
      OwnerStays(s, a, t.id);
    }
  }

  lemma ClickChange(s: Desk, a: Action, k: nat)
    requires k in Next(s, a).clicks && !(k in s.clicks && s.clicks[k] == Next(s, a).clicks[k])
    ensures a.ConfirmRead? && a.d in s.drafts && s.drafts[a.d].owner == a.who && s.drafts[a.d].state == AwaitCloser
    ensures Next(s, a).clicks[k] == Click(a.d, s.drafts[a.d], StillActive(Parse(s.drafts[a.d].chosen), a.active))
  {
  }

  lemma ClickInOneStep(past: seq<Action>, s: Desk, a: Action, k: nat)
    requires Traced(past, s) && k in Next(s, a).clicks
    ensures var c := Next(s, a).clicks[k]; CallTraced(past + [a], c.id, c.draft, c.keys)
  {
    var c := Next(s, a).clicks[k];
    if k in s.clicks && s.clicks[k] == c {
      CallStaysTraced(past, a, c.id, c.draft, c.keys);
    } else {
      ClickChange(s, a, k);
      NewCallIsTraced(past, a, a.d, s.drafts[a.d]);
    }
  }

  lemma NewCallIsTraced(past: seq<Action>, a: Action, d: nat, draft: Draft)
    requires DraftTraced(past, d, draft) && draft.state == AwaitCloser
    requires a.ConfirmRead? && a.d == d && a.who == draft.owner
    ensures CallTraced(past + [a], d, draft, StillActive(Parse(draft.chosen), a.active))
  {
    StillActiveAre(Parse(draft.chosen), a.active);
    DraftStaysTraced(past, a, d, draft);
    assert a in past + [a];
  }

  lemma JobChange(s: Desk, a: Action, d: nat)
    requires d in Next(s, a).jobs && Next(s, a).jobs[d].Finalizing?
    requires !(d in s.jobs && s.jobs[d] == Next(s, a).jobs[d])
    ensures a.ConfirmLock? && a.click in s.clicks && s.clicks[a.click].id == d
    ensures Next(s, a).jobs[d] == Finalizing(s.clicks[a.click].draft, s.clicks[a.click].keys)
  {
  }

  lemma JobInOneStep(past: seq<Action>, s: Desk, a: Action, d: nat)
    requires Traced(past, s) && d in Next(s, a).jobs && Next(s, a).jobs[d].Finalizing?
    ensures CallTraced(past + [a], d, Next(s, a).jobs[d].draft, Next(s, a).jobs[d].keys)
  {
    var j := Next(s, a).jobs[d];
    if !(d in s.jobs && s.jobs[d] == j) { JobChange(s, a, d); }
    CallStaysTraced(past, a, d, j.draft, j.keys);
  }

  lemma RowInOneStep(past: seq<Action>, s: Desk, a: Action, id: nat)
    requires RowsOk(s) && Traced(past, s) && id in Next(s, a).table.rows
    ensures RowTraced(past + [a], Next(s, a).table.rows[id])
  {
    TableInOneStep(s, a);
    if id in s.table.rows {
      StepKeepsRows(s, a);
      RowStaysTraced(past, a, s.table.rows[id]);
    } else {
      assert Writes(s, a) && a.failAt.None?;
      var (draft, keys) := (s.jobs[a.d].draft, s.jobs[a.d].keys);
      NewRowsHoldTheDraft(s.table, draft, keys);
      FromTheCall(past, a.d, draft, keys, Next(s, a).table.rows[id]);
      RowStaysTraced(past, a, Next(s, a).table.rows[id]);
    }
  }

  lemma FromTheCall(past: seq<Action>, d: nat, draft: Draft, keys: seq<string>, row: Transfer)
    requires CallTraced(past, d, draft, keys) && HoldsDraft(row, draft, keys)
    ensures RowTraced(past, row)
  {
    var k :| k in keys && Clean(k) == row.closer;
    assert Ticked(past, d, draft.owner, k) && ConfirmedWith(past, d, draft.owner, Clean(k));
    var b :| b in past && b.PickRead? && b.d == d && b.who == draft.owner && k in Parse(b.key);
    assert RowFrom(past, d, row);
  }

  lemma DraftsStayTraced(past: seq<Action>, s: Desk, a: Action)
    requires DraftsOk(s) && Traced(past, s)
    ensures DraftsTraced(past + [a], Next(s, a))
  {
    var (t, longer) := (Next(s, a), past + [a]);
    OpeningStays(past, a, 0);
    assert t.nextDraft == s.nextDraft + (if a.Create? then 1 else 0);
    forall d | d in t.drafts ensures d <= Opened(longer) && DraftTraced(longer, d, t.drafts[d]) {
      DraftInOneStep(past, s, a, d);
    }
    forall k | k in t.ticks ensures AllTickedBy(longer, t, t.ticks[k]) { TickInOneStep(past, s, a, k); }
  }

  lemma CallsStayTraced(past: seq<Action>, s: Desk, a: Action)
    requires Traced(past, s)
    ensures CallsTraced(past + [a], Next(s, a))
  {
    var (t, longer) := (Next(s, a), past + [a]);
    forall k | k in t.clicks ensures CallTraced(longer, t.clicks[k].id, t.clicks[k].draft, t.clicks[k].keys) {
      ClickInOneStep(past, s, a, k);
    }
    forall d | d in t.jobs && t.jobs[d].Finalizing? ensures CallTraced(longer, d, t.jobs[d].draft, t.jobs[d].keys) {
      JobInOneStep(past, s, a, d);
    }
  }

  lemma RowsStayTraced(past: seq<Action>, s: Desk, a: Action)
    requires RowsOk(s) && Traced(past, s)
    ensures RowsTraced(past + [a], Next(s, a))
  {
    forall id | id in Next(s, a).table.rows ensures RowTraced(past + [a], Next(s, a).table.rows[id]) {
      RowInOneStep(past, s, a, id);
    }
  }

  lemma StepStaysTraced(past: seq<Action>, s: Desk, a: Action)
    requires DraftsOk(s) && RowsOk(s) && Traced(past, s)
    ensures Traced(past + [a], Next(s, a))
  {
    DraftsStayTraced(past, s, a);
    CallsStayTraced(past, s, a);
    RowsStayTraced(past, s, a);
  }

  lemma {:induction false} RunStaysTraced(past: seq<Action>, s: Desk, run: seq<Action>)
    requires DraftsOk(s) && RowsOk(s) && Traced(past, s)
    ensures Traced(past + run, After(s, run))
    decreases run
  {
    if run == [] {
      assert past + run == past;
    } else {
      StepStaysTraced(past, s, run[0]);
      StepKeepsDrafts(s, run[0]);
      StepKeepsRows(s, run[0]);
      RunStaysTraced(past + [run[0]], Next(s, run[0]), run[1..]);
      assert past + [run[0]] + run[1..] == past + run;
    }
  }

  lemma StartIsTraced()
    ensures Traced([], START)
  {
  }

  /**
  In every run each row has one draft behind it: its owner opened it for this lead, date and manager,
  sent this text, ticked this closer, and confirmed while the closer was active.
  */
  lemma EveryRowWasConfirmed(run: seq<Action>, id: nat)
    requires id in After(START, run).table.rows
    ensures RowTraced(run, After(START, run).table.rows[id])
  {
    StartIsGood();
    StartIsTraced();
    RunStaysTraced([], START, run);
    assert [] + run == run;
    var t := After(START, run);
    assert RowsTraced(run, t);
  }

  /**
  Which answers count. A text is taken by a draft that waits for one; a cancellation by its owner while
  it is unfinished; a tick by its owner while it waits for closers, unless it would be the third; a
  confirmation by its owner, once some closer on the list is active.
  */
  lemma AnswersThatCount(s: Desk, d: nat, who: int, text: string, key: string, k: nat, active: set<string>)
    requires d in s.drafts
    ensures var (x, open) := (s.drafts[d], s.drafts[d].state == AwaitCloser && s.drafts[d].owner == who);
            && Next(s, SetText(d, text)).drafts[d] ==
                 (if x.state == AwaitText then x.(text := text, state := AwaitCloser) else x)
            && Next(s, Action.Cancel(d, who)).drafts[d] ==
                 (if x.owner == who && x.state in {AwaitText, AwaitCloser} then x.(state := Cancelled) else x)
            && (Picks(s, PickRead(k, d, who, key)) <==> open && (key in Parse(x.chosen) || |Parse(x.chosen)| < 2))
            && (k !in s.clicks ==>
                  (k in Next(s, ConfirmRead(k, d, who, active)).clicks <==>
                     open && exists c <- Parse(x.chosen) :: Clean(c) in active))
  {
    var keys := StillActive(Parse(s.drafts[d].chosen), active);
    StillActiveAre(Parse(s.drafts[d].chosen), active);
    assert keys != [] ==> keys[0] in keys;
  }
}
