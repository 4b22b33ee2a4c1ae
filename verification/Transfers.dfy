/**
Handing a lead to closers: a draft is filled in, one or two closers are ticked, and the
confirmation takes a compare-and-set lock before rows and notices are written.
*/
module Transfers {
  import opened Wrappers
  import opened Text

  datatype DraftState = AwaitText | AwaitCloser | Done | Cancelled

  /** `chosen` is the stored comma-separated list. */
  datatype Draft = Draft(owner: int, manager: string, chat: int, date: string, state: DraftState, text: string,
          chosen: string)

  datatype Transfer = Transfer(closer: string, chat: int, date: string, manager: string, rawText: string)
  {
    function Key(): RowKey { (closer, chat, date) }
  }

  type RowKey = (string, int, string)

  /** The table, its UNIQUE(closer, chat, date) index, and the autoincrement id. */
  datatype Table = Table(rows: map<nat, Transfer>, index: map<RowKey, nat>, next: nat)

  /** A queued notice; the event key is unique per transfer id. */
  datatype Notice = Notice(transfer: nat, closer: string)

  // ---- choosing closers ----

  function Without(keys: seq<string>, key: string): seq<string> {
    if keys == [] then []
    else (if keys[0] == key then [] else [keys[0]]) + Without(keys[1..], key)
  }

  /** The stored list after a tick of `key`; None when two are chosen already. */
  function Toggled(chosen: string, key: string): Option<string> {
    var keys := Parse(chosen);
    if key in keys then Some(Join(Without(keys, key)))
    else if |keys| >= 2 then None
    else Some(Join(keys + [key]))
  }

  predicate AllDifferent(keys: seq<string>) {
    forall i, j :: 0 <= i < j < |keys| ==> keys[i] != keys[j]
  }

  predicate GoodChoice(keys: seq<string>) {
    |keys| <= 2 && AllDifferent(keys)
  }

  lemma {:induction false} WithoutIsASublist(keys: seq<string>, key: string)
    ensures |Without(keys, key)| <= |keys|
    ensures forall k :: k in Without(keys, key) <==> k in keys && k != key
    ensures AllDifferent(keys) ==> AllDifferent(Without(keys, key))
  {
    if keys != [] {
      var (rest, kept) := (keys[1..], Without(keys[1..], key));
      WithoutIsASublist(rest, key);
      assert keys == [keys[0]] + rest;
      if AllDifferent(keys) {
        assert forall i, j :: 0 <= i < j < |rest| ==> rest[i] == keys[i + 1] && rest[j] == keys[j + 1];
        assert keys[0] !in rest;
        assert forall j :: 0 <= j < |kept| ==> kept[j] in rest;
      }
    }
  }

  /**
  A tick keeps the choice distinct and at most two exactly when the key is already chosen,
  or two are chosen, or the parts the key itself splits into leave it so. A key is one
  part unless it holds a comma or is blank.
  */
  lemma TickKeepsChoice(chosen: string, key: string)
    requires GoodChoice(Parse(chosen)) && Toggled(chosen, key).Some?
    ensures GoodChoice(Parse(Toggled(chosen, key).value)) <==>
      key in Parse(chosen) || GoodChoice(Parse(chosen) + Parse(key))
    ensures key in Parse(chosen) ==> Parse(Toggled(chosen, key).value) == Without(Parse(chosen), key)
    ensures key !in Parse(chosen) ==> Parse(Toggled(chosen, key).value) == Parse(chosen) + Parse(key)
  {
    var keys := Parse(chosen);
    ParsedAreGood(chosen);
    WithoutIsASublist(keys, key);
    if key in keys {
      JoinThenParse(Without(keys, key));
    } else {
      ParseOfJoin(keys, key);
    }
  }

  lemma GoodKeyKeepsChoice(chosen: string, key: string)
    requires GoodChoice(Parse(chosen)) && Toggled(chosen, key).Some? && GoodKey(key)
    ensures GoodChoice(Parse(Toggled(chosen, key).value))
  {
    TickKeepsChoice(chosen, key);
    GoodKeyParsesToItself(key);
  }

  /** A key with a comma in it puts three closers on the list. */
  lemma CommaBreaksChoice()
    ensures GoodChoice(Parse("a")) && Toggled("a", "b,c").Some?
    ensures Parse(Toggled("a", "b,c").value) == ["a", "b", "c"]
  {
    TickOfPair("a", "b", "c");
    assert "b,c" == "b" + "," + "c";
  }

  lemma TickOfPair(a: string, b: string, c: string)
    requires GoodKey(a) && GoodKey(b) && GoodKey(c) && |a| == 1
    ensures Parse(a) == [a] && Toggled(a, b + "," + c).Some?
    ensures Parse(Toggled(a, b + "," + c).value) == [a, b, c]
  {
    GoodKeyParsesToItself(a);
    assert |b + "," + c| > 1;
    TickKeepsChoice(a, b + "," + c);
    ParseOfPair(b, c);
    GoodKeyParsesToItself(c);
  }

  // ---- writing the rows ----

  /** Every row has a used id and is the one its key is indexed to. */
  ghost predicate Sound(t: Table) {
    && t.next >= 1
    && (forall id <- t.rows :: 0 < id < t.next && t.rows[id].Key() in t.index && t.index[t.rows[id].Key()] == id)
    && (forall key <- t.index :: t.index[key] in t.rows && t.rows[t.index[key]].Key() == key)
  }

  lemma OneRowPerKey(t: Table, a: nat, b: nat)
    requires Sound(t) && a in t.rows && b in t.rows && t.rows[a].Key() == t.rows[b].Key()
    ensures a == b
  {
  }

  function RowFor(draft: Draft, closer: string): Transfer {
    Transfer(closer, draft.chat, draft.date, draft.manager, draft.text)
  }

  /** INSERT OR IGNORE, then the id of the row that holds the key. */
  function Inserted(t: Table, row: Transfer): (Table, nat) {
    if row.Key() in t.index then (t, t.index[row.Key()])
    else (Table(t.rows[t.next := row], t.index[row.Key() := t.next], t.next + 1), t.next)
  }

  type Pairs = seq<(string, nat)>

  /** The statements for the chosen closers, in order; blank keys are skipped. */
  function Written(t: Table, draft: Draft, closers: seq<string>): (Table, Pairs) {
    if closers == [] then (t, [])
    else
      var (before, pairs) := Written(t, draft, closers[..|closers| - 1]);
      var ck := Clean(closers[|closers| - 1]);
      if ck == "" then (before, pairs)
      else var (after, id) := Inserted(before, RowFor(draft, ck)); (after, pairs + [(ck, id)])
  }

  /**
  The whole transaction. With `failAt` set, the statement for that closer (or, past the
  last, the commit) raises: everything rolls back, yet the pairs gathered are returned.
  */
  function Finalized(t: Table, draft: Draft, closers: seq<string>, failAt: Option<nat>): (Table, Pairs)
    requires failAt.Some? ==> failAt.value <= |closers|
  {
    if failAt.None? then Written(t, draft, closers)
    else (t, Written(t, draft, closers[..failAt.value]).1)
  }

  method Finalize(t: Table, draft: Draft, closers: seq<string>, failAt: Option<nat>)
    returns (after: Table, pairs: Pairs)
    requires failAt.Some? ==> failAt.value <= |closers|
    ensures (after, pairs) == Finalized(t, draft, closers, failAt)
  {
    var work := t;
    pairs := [];
    var stop := if failAt.Some? then failAt.value else |closers|;
    for i := 0 to stop
      invariant (work, pairs) == Written(t, draft, closers[..i])
    {
      assert closers[..i + 1][..i] == closers[..i];
      var ck := Clean(closers[i]);
      if ck != "" {
        var (grown, id) := Inserted(work, RowFor(draft, ck));
        work := grown;
        pairs := pairs + [(ck, id)];
      }
    }
    assert closers[..|closers|] == closers;
    after := if failAt.Some? then t else work;
  }

  predicate At(t: Table, id: nat, row: Transfer) {
    id in t.rows && t.rows[id].Key() == row.Key()
  }

  /** Rows are only added, under new ids. */
  predicate Extends(before: Table, after: Table) {
    && before.next <= after.next
    && (forall id <- before.rows :: id in after.rows && after.rows[id] == before.rows[id])
    && (forall key <- before.index :: key in after.index && after.index[key] == before.index[key])
    && (forall key <- after.index :: key !in before.index ==> after.index[key] >= before.next)
  }

  lemma OneInsert(t: Table, row: Transfer)
    requires Sound(t)
    ensures var (after, id) := Inserted(t, row);
            Sound(after) && Extends(t, after) && At(after, id, row) && row.Key() in after.index &&
              after.index[row.Key()] == id
  {
  }

  lemma ExtendsOnwards(a: Table, b: Table, c: Table)
    requires Extends(a, b) && Extends(b, c)
    ensures Extends(a, c)
  {
  }

  /** What the statements leave: a sound table, and a pair for each closer pointing at its row. */
  lemma {:induction false} WrittenRows(t: Table, draft: Draft, closers: seq<string>)
    requires Sound(t)
    ensures var (after, pairs) := Written(t, draft, closers);
            && Sound(after) && Extends(t, after)
            && (forall p <- pairs :: At(after, p.1, RowFor(draft, p.0)))
            && (forall p <- pairs :: RowFor(draft, p.0).Key() !in t.index ==> p.1 >= t.next)
            && (forall ck <- closers :: Clean(ck) != "" ==> RowFor(draft, Clean(ck)).Key() in after.index)
  {
    if closers != [] {
      var (init, last) := (closers[..|closers| - 1], closers[|closers| - 1]);
      WrittenRows(t, draft, init);
      assert closers == init + [last];
      var (before, pairs) := Written(t, draft, init);
      if Clean(last) != "" { OneMoreRow(t, before, draft, pairs, Clean(last)); }
    }
  }

  lemma OneMoreRow(t: Table, before: Table, draft: Draft, pairs: Pairs, ck: string)
    requires Sound(before) && Extends(t, before)
    requires forall p <- pairs :: At(before, p.1, RowFor(draft, p.0))
    ensures var (after, id) := Inserted(before, RowFor(draft, ck));
            && Sound(after) && Extends(t, after) && Extends(before, after) && RowFor(draft, ck).Key() in after.index
            && (forall p <- pairs + [(ck, id)] :: At(after, p.1, RowFor(draft, p.0)))
            && (RowFor(draft, ck).Key() !in t.index ==> id >= t.next)
  {
    var (after, id) := Inserted(before, RowFor(draft, ck));
    OneInsert(before, RowFor(draft, ck));
    ExtendsOnwards(t, before, after);
  }

  /**
  The returned pairs all point at their rows exactly when the transaction committed or
  every closer's row was there before it.
  */
  lemma PairsPointAtRows(t: Table, draft: Draft, closers: seq<string>, failAt: Option<nat>)
    requires Sound(t) && (failAt.Some? ==> failAt.value <= |closers|)
    ensures var (after, pairs) := Finalized(t, draft, closers, failAt);
            && Sound(after) && Extends(t, after)
            && ((forall p <- pairs :: At(after, p.1, RowFor(draft, p.0))) <==>
                  (failAt.None? || forall p <- pairs :: RowFor(draft, p.0).Key() in t.index))
  {
    if failAt.None? {
      WrittenRows(t, draft, closers);
    } else {
      WrittenRows(t, draft, closers[..failAt.value]);
      var (full, pairs) := Written(t, draft, closers[..failAt.value]);
      forall p | p in pairs ensures At(t, p.1, RowFor(draft, p.0)) <==> RowFor(draft, p.0).Key() in t.index {
        assert At(full, p.1, RowFor(draft, p.0));
      }
    }
  }

  // ---- the desk as a machine ----

  datatype Job = Finalizing(draft: Draft, keys: seq<string>) | Notifying(pairs: Pairs)

  /** A confirmation click past its checks, holding the draft as it was read. */
  datatype Click = Click(id: nat, draft: Draft, keys: seq<string>)

  /** A tick past its checks, holding the list it is about to store. */
  datatype Tick = Tick(id: nat, chosen: string)

  /** `jobs` are finalizations under way and `locks` the locks won, both by draft. */
  datatype Desk = Desk(drafts: map<nat, Draft>, nextDraft: nat, table: Table, notices: seq<Notice>,
                       ticks: map<nat, Tick>, clicks: map<nat, Click>, jobs: map<nat, Job>, locks: map<nat, nat>)

  const START := Desk(map[], 1, Table(map[], map[], 1), [], map[], map[], map[], map[])

  datatype Action =
    | Create(owner: int, manager: string, chat: int, date: string)
    | SetText(d: nat, text: string)
    | PickRead(tick: nat, d: nat, who: int, key: string)
    | PickWrite(tick: nat)
    | Cancel(d: nat, who: int)
    | ConfirmRead(click: nat, d: nat, who: int, active: set<string>)
    | ConfirmLock(click: nat)
    | Write(d: nat, failAt: Option<nat>)
    | Notify(d: nat)
    | NotifyFails(d: nat)   // the enqueue raises
    | Abandon(d: nat)       // an exception between the finalization and its last enqueue
    | Restart

  function StillActive(keys: seq<string>, active: set<string>): seq<string> {
    if keys == [] then []
    else (if Clean(keys[0]) in active then [keys[0]] else []) + StillActive(keys[1..], active)
  }

  function LocksOf(s: Desk, d: nat): nat {
    if d in s.locks then s.locks[d] else 0
  }

  /** INSERT OR IGNORE on the notice's unique key. */
  function Enqueued(notices: seq<Notice>, pair: (string, nat)): seq<Notice> {
    if pair.0 == "" || pair.1 == 0 || exists n <- notices :: n.transfer == pair.1 then notices
    else notices + [Notice(pair.1, pair.0)]
  }

  function Next(s: Desk, a: Action): Desk {
    match a
    case Create(owner, manager, chat, date) =>
      s.(drafts := s.drafts[s.nextDraft := Draft(owner, Clean(manager), chat, date, AwaitText, "", "")],
         nextDraft := s.nextDraft + 1)
    case SetText(d, text) =>
      if d in s.drafts && s.drafts[d].state == AwaitText
      then s.(drafts := s.drafts[d := s.drafts[d].(text := text, state := AwaitCloser)]) else s
    case PickRead(tick, d, who, key) =>
      if d in s.drafts && s.drafts[d].owner == who && s.drafts[d].state == AwaitCloser &&
        Toggled(s.drafts[d].chosen, key).Some?
      then s.(ticks := s.ticks[tick := Tick(d, Toggled(s.drafts[d].chosen, key).value)]) else s
    case PickWrite(tick) =>
      if tick !in s.ticks then s
      else
        var t := s.ticks[tick];
        s.(ticks := s.ticks - {tick},
           drafts := if t.id in s.drafts then s.drafts[t.id := s.drafts[t.id].(chosen := t.chosen)] else s.drafts)
    case Cancel(d, who) =>
      if d in s.drafts && s.drafts[d].owner == who && s.drafts[d].state in {AwaitText, AwaitCloser}
      then s.(drafts := s.drafts[d := s.drafts[d].(state := Cancelled)]) else s
    case ConfirmRead(click, d, who, active) =>
      if d in s.drafts && s.drafts[d].owner == who && s.drafts[d].state == AwaitCloser
         && StillActive(Parse(s.drafts[d].chosen), active) != []
      then s.(clicks := s.clicks[click := Click(d, s.drafts[d], StillActive(Parse(s.drafts[d].chosen), active))]) else s
    case ConfirmLock(click) =>
      if click in s.clicks && s.clicks[click].id in s.drafts && s.drafts[s.clicks[click].id].state == AwaitCloser
      then
        var c := s.clicks[click];
        s.(drafts := s.drafts[c.id := s.drafts[c.id].(state := Done)], clicks := s.clicks - {click},
           jobs := s.jobs[c.id := Finalizing(c.draft, c.keys)], locks := s.locks[c.id := LocksOf(s, c.id) + 1])
      else s.(clicks := s.clicks - {click})
    case Write(d, failAt) =>
      if d in s.jobs && s.jobs[d].Finalizing? && (failAt.Some? ==> failAt.value <= |s.jobs[d].keys|)
      then
        var (table, pairs) := Finalized(s.table, s.jobs[d].draft, s.jobs[d].keys, failAt);
        s.(table := table, jobs := s.jobs[d := Notifying(pairs)])
      else s
    case Notify(d) =>
      if d in s.jobs && s.jobs[d].Notifying? && s.jobs[d].pairs != []
      then s.(notices := Enqueued(s.notices, s.jobs[d].pairs[0]), jobs := s.jobs[d := Notifying(s.jobs[d].pairs[1..])])
      else s
    case NotifyFails(d) =>
      if d in s.jobs && s.jobs[d].Notifying? && s.jobs[d].pairs != []
      then s.(jobs := s.jobs[d := Notifying(s.jobs[d].pairs[1..])]) else s
    case Abandon(d) =>
      if d in s.jobs && s.jobs[d].Notifying? then s.(jobs := s.jobs[d := Notifying([])]) else s
    case Restart => s.(ticks := map[], clicks := map[], jobs := map[])
  }

  function After(s: Desk, run: seq<Action>): Desk
    decreases run
  {
    if run == [] then s else After(Next(s, run[0]), run[1..])
  }

  ghost predicate DraftsOk(s: Desk) {
    && (forall d <- s.drafts :: d < s.nextDraft)
    && (forall d <- s.locks :: d in s.drafts)
    && (forall d <- s.drafts :: LocksOf(s, d) == if s.drafts[d].state == Done then 1 else 0)
  }

  ghost predicate ChoicesOk(s: Desk) {
    && (forall d <- s.drafts :: ChoiceOk(s.drafts[d].chosen))
    && (forall k <- s.ticks :: ChoiceOk(s.ticks[k].chosen))
  }

  predicate ChoiceOk(chosen: string) { GoodChoice(Parse(chosen)) }

  ghost predicate RowsOk(s: Desk) {
    Sound(s.table) && OnePerTransfer(s.notices)
  }

  /** Every notice, sent or about to be, names the closer of its row. */
  ghost predicate NoticesOk(s: Desk) {
    && (forall n <- s.notices :: n.transfer in s.table.rows && s.table.rows[n.transfer].closer == n.closer)
    && (forall d <- s.jobs :: s.jobs[d].Notifying? ==> PairsOk(s.table, s.jobs[d].pairs))
  }

  predicate TicksGood(run: seq<Action>) {
    forall a <- run :: a.PickRead? ==> GoodKey(a.key)
  }

  /** The failed write of a finalization under way. */
  predicate FailsAt(s: Desk, a: Action, n: nat) {
    && a.Write? && a.d in s.jobs && s.jobs[a.d].Finalizing? && a.failAt == Some(n) && n <= |s.jobs[a.d].keys|
  }

  /** If the write fails, every closer it got to had a row for this lead and date before. */
  predicate Harmless(s: Desk, a: Action) {
    a.Write? && a.failAt.Some? && FailsAt(s, a, a.failAt.value) ==>
      OnlyExisting(s.table, s.jobs[a.d].draft, s.jobs[a.d].keys[..a.failAt.value])
  }

  predicate OnlyExisting(t: Table, draft: Draft, closers: seq<string>) {
    forall k <- closers :: Clean(k) != "" ==> RowFor(draft, Clean(k)).Key() in t.index
  }

  /** Steps that read drafts at most. */
  predicate LeavesDrafts(a: Action) {
    a.PickRead? || a.ConfirmRead? || a.Write? || a.Notify? || a.NotifyFails? || a.Abandon? || a.Restart?
  }

  lemma DraftsLeft(s: Desk, a: Action)
    requires LeavesDrafts(a)
    ensures Next(s, a).drafts == s.drafts && Next(s, a).nextDraft == s.nextDraft && Next(s, a).locks == s.locks
  {
  }

  lemma StepKeepsDrafts(s: Desk, a: Action)
    requires DraftsOk(s)
    ensures DraftsOk(Next(s, a))
  {
    if LeavesDrafts(a) { DraftsLeft(s, a); }
  }

  /** Where a draft's choice can come from in one step. */
  lemma ChoiceInOneStep(s: Desk, a: Action, d: nat)
    requires d in Next(s, a).drafts
    ensures var chosen := Next(s, a).drafts[d].chosen;
            || (d in s.drafts && chosen == s.drafts[d].chosen)
            || chosen == ""
            || (a.PickWrite? && a.tick in s.ticks && chosen == s.ticks[a.tick].chosen)
  {
  }

  /** The step reads a tick that will be stored. */
  predicate Picks(s: Desk, a: Action) {
    && a.PickRead? && a.d in s.drafts && s.drafts[a.d].owner == a.who && s.drafts[a.d].state == AwaitCloser
    && Toggled(s.drafts[a.d].chosen, a.key).Some?
  }

  lemma TicksInOneStep(s: Desk, a: Action)
    ensures Picks(s, a) ==>
      Next(s, a).ticks == s.ticks[a.tick := Tick(a.d, Toggled(s.drafts[a.d].chosen, a.key).value)]
    ensures !Picks(s, a) ==> forall k <- Next(s, a).ticks :: k in s.ticks && Next(s, a).ticks[k] == s.ticks[k]
  {
  }

  /** A tick read in this step leaves its list distinct and at most two. */
  predicate GoodTick(s: Desk, a: Action) {
    Picks(s, a) ==>
      var chosen := Parse(s.drafts[a.d].chosen);
      a.key in chosen || GoodChoice(chosen + Parse(a.key))
  }

  lemma DraftChoicesStay(s: Desk, a: Action)
    requires ChoicesOk(s)
    ensures forall d <- Next(s, a).drafts :: ChoiceOk(Next(s, a).drafts[d].chosen)
  {
    forall d | d in Next(s, a).drafts ensures ChoiceOk(Next(s, a).drafts[d].chosen) {
      ChoiceInOneStep(s, a, d);
      JoinThenParse([]);
    }
  }

  lemma StepKeepsChoices(s: Desk, a: Action)
    requires ChoicesOk(s)
    ensures ChoicesOk(Next(s, a)) <==> GoodTick(s, a)
  {
    DraftChoicesStay(s, a);
    TicksInOneStep(s, a);
    if Picks(s, a) {
      assert ChoiceOk(s.drafts[a.d].chosen);
      TickKeepsChoice(s.drafts[a.d].chosen, a.key);
      assert a.tick in Next(s, a).ticks;
    }
  }

  ghost predicate OnePerTransfer(notices: seq<Notice>) {
    forall i, j :: 0 <= i < j < |notices| ==> notices[i].transfer != notices[j].transfer
  }

  lemma EnqueuedKeepsOne(notices: seq<Notice>, pair: (string, nat))
    requires OnePerTransfer(notices)
    ensures OnePerTransfer(Enqueued(notices, pair))
  {
    assert forall i :: 0 <= i < |notices| ==> notices[i] in notices;
  }

  /** The step is a finalization's transaction. */
  predicate Writes(s: Desk, a: Action) {
    && a.Write? && a.d in s.jobs && s.jobs[a.d].Finalizing?
    && (a.failAt.Some? ==> a.failAt.value <= |s.jobs[a.d].keys|)
  }

  lemma TableInOneStep(s: Desk, a: Action)
    ensures Next(s, a).table ==
      if Writes(s, a) then Finalized(s.table, s.jobs[a.d].draft, s.jobs[a.d].keys, a.failAt).0 else s.table
    ensures Next(s, a).notices == s.notices || exists pair :: Next(s, a).notices == Enqueued(s.notices, pair)
  {
  }

  lemma StepKeepsRows(s: Desk, a: Action)
    requires RowsOk(s)
    ensures RowsOk(Next(s, a)) && Extends(s.table, Next(s, a).table)
  {
    TableInOneStep(s, a);
    var t := Next(s, a);
    if Writes(s, a) { PairsPointAtRows(s.table, s.jobs[a.d].draft, s.jobs[a.d].keys, a.failAt); }
    if t.notices != s.notices {
      var pair :| t.notices == Enqueued(s.notices, pair);
      EnqueuedKeepsOne(s.notices, pair);
    }
  }

  /** Each pair stands for a closer of the list, and each closer of the list is in some pair. */
  lemma {:induction false} PairsOfClosers(t: Table, draft: Draft, closers: seq<string>)
    ensures (forall p <- Written(t, draft, closers).1 :: RowFor(draft, p.0).Key() in t.index)
       <==> OnlyExisting(t, draft, closers)
  {
    if closers != [] {
      var (init, last) := (closers[..|closers| - 1], closers[|closers| - 1]);
      PairsOfClosers(t, draft, init);
      assert closers == init + [last];
      var (before, pairs) := Written(t, draft, init);
      if Clean(last) != "" {
        var pair := (Clean(last), Inserted(before, RowFor(draft, Clean(last))).1);
        assert Written(t, draft, closers).1 == pairs + [pair] && pair in pairs + [pair];
        assert forall p <- pairs :: p in pairs + [pair];
      }
    }
  }

  /** The pairs name rows of the table, each with its closer. */
  ghost predicate PairsOk(t: Table, pairs: Pairs) {
    forall p <- pairs :: p.1 in t.rows && t.rows[p.1].closer == p.0
  }

  /**
  After a finalization, failed or not, its pairs are sound exactly when it committed or gathered
  only existing rows.
  */
  lemma PairsAfterWrite(t: Table, draft: Draft, closers: seq<string>, failAt: Option<nat>)
    requires Sound(t) && (failAt.Some? ==> failAt.value <= |closers|)
    ensures var (after, pairs) := Finalized(t, draft, closers, failAt);
            && Extends(t, after)
            && (PairsOk(after, pairs) <==> failAt.None? || OnlyExisting(t, draft, closers[..failAt.value]))
  {
    PairsPointAtRows(t, draft, closers, failAt);
    var (after, pairs) := Finalized(t, draft, closers, failAt);
    if failAt.Some? {
      PairsOfClosers(t, draft, closers[..failAt.value]);
      WrittenRows(t, draft, closers[..failAt.value]);
      if p :| p in pairs && RowFor(draft, p.0).Key() !in t.index { assert p.1 >= t.next && p.1 !in t.rows; }
    }
    if forall p <- pairs :: At(after, p.1, RowFor(draft, p.0)) {
      forall p | p in pairs ensures p.1 in after.rows && after.rows[p.1].closer == p.0 {
        assert At(after, p.1, RowFor(draft, p.0));
      }
    }
  }

  /** Other jobs' pairs, and notices sent before, stay sound while rows are only added. */
  lemma OldNoticesStay(s: Desk, t: Table)
    requires NoticesOk(s) && Extends(s.table, t)
    ensures forall n <- s.notices :: n.transfer in t.rows && t.rows[n.transfer].closer == n.closer
    ensures forall d <- s.jobs :: s.jobs[d].Notifying? ==> PairsOk(t, s.jobs[d].pairs)
  {
    forall d | d in s.jobs && s.jobs[d].Notifying? ensures PairsOk(t, s.jobs[d].pairs) {
      assert PairsOk(s.table, s.jobs[d].pairs);
    }
  }

  lemma WriteKeepsNotices(s: Desk, a: Action)
    requires RowsOk(s) && NoticesOk(s) && Writes(s, a)
    ensures NoticesOk(Next(s, a)) <==> Harmless(s, a)
  {
    var (table, pairs) := Finalized(s.table, s.jobs[a.d].draft, s.jobs[a.d].keys, a.failAt);
    PairsAfterWrite(s.table, s.jobs[a.d].draft, s.jobs[a.d].keys, a.failAt);
    OldNoticesStay(s, table);
    var t := s.(table := table, jobs := s.jobs[a.d := Notifying(pairs)]);
    assert Next(s, a) == t;
    assert NoticesOk(t) ==> PairsOk(table, t.jobs[a.d].pairs);
  }

  /** One step keeps notices and rows in agreement exactly when it is harmless. */
  lemma StepKeepsNotices(s: Desk, a: Action)
    requires RowsOk(s) && NoticesOk(s)
    ensures NoticesOk(Next(s, a)) <==> Harmless(s, a)
  {
    if Writes(s, a) {
      WriteKeepsNotices(s, a);
    } else if (a.Notify? || a.NotifyFails?) && a.d in s.jobs && s.jobs[a.d].Notifying? && s.jobs[a.d].pairs != [] {
      assert PairsOk(s.table, s.jobs[a.d].pairs);
      assert s.jobs[a.d].pairs[0] in s.jobs[a.d].pairs;
    }
  }

  // ---- main results ----

  /** In every run a draft's lock is won at most once, and exactly when the draft is done. */
  lemma {:induction false} FinalizedAtMostOnce(s: Desk, run: seq<Action>, d: nat)
    requires DraftsOk(s)
    ensures DraftsOk(After(s, run)) && LocksOf(After(s, run), d) <= 1
    ensures LocksOf(After(s, run), d) == 1 <==> d in After(s, run).drafts && After(s, run).drafts[d].state == Done
    decreases run
  {
    if run != [] {
      StepKeepsDrafts(s, run[0]);
      FinalizedAtMostOnce(Next(s, run[0]), run[1..], d);
    }
  }

  /** The draft but for its closer list, which a tick stores without looking at the state again. */
  function ButForTicks(d: Draft): Draft { d.(chosen := "") }

  ghost predicate NoTickOn(s: Desk, d: nat) { forall k <- s.ticks :: s.ticks[k].id != d }

  /** The step stores another closer list in the draft. */
  predicate Reticks(s: Desk, a: Action, d: nat)
    requires d in s.drafts
  {
    a.PickWrite? && a.tick in s.ticks && s.ticks[a.tick].id == d && s.ticks[a.tick].chosen != s.drafts[d].chosen
  }

  lemma FinalDraftStays(s: Desk, a: Action, d: nat)
    requires d < s.nextDraft && d in s.drafts && s.drafts[d].state in {Done, Cancelled}
    ensures d in Next(s, a).drafts && ButForTicks(Next(s, a).drafts[d]) == ButForTicks(s.drafts[d])
    ensures Next(s, a).drafts[d] == s.drafts[d] <==> !Reticks(s, a, d)
  {
  }

  lemma NoNewTick(s: Desk, a: Action, d: nat)
    requires d in s.drafts && s.drafts[d].state in {Done, Cancelled} && NoTickOn(s, d)
    ensures NoTickOn(Next(s, a), d)
  {
  }

  /**
  `done` and `cancelled` are never left. Such a draft changes no more, but for a tick that
  was read while it was open and is stored only now.
  */
  lemma {:induction false} FinalDraftsStay(s: Desk, run: seq<Action>, d: nat)
    requires DraftsOk(s) && d in s.drafts && s.drafts[d].state in {Done, Cancelled}
    ensures d in After(s, run).drafts && ButForTicks(After(s, run).drafts[d]) == ButForTicks(s.drafts[d])
    ensures NoTickOn(s, d) ==> After(s, run).drafts[d] == s.drafts[d]
    decreases run
  {
    if run != [] {
      var t := Next(s, run[0]);
      StepKeepsDrafts(s, run[0]);
      FinalDraftStays(s, run[0], d);
      if NoTickOn(s, d) { NoNewTick(s, run[0], d); }
      assert t.drafts[d].state == ButForTicks(t.drafts[d]).state == s.drafts[d].state;
      FinalDraftsStay(t, run[1..], d);
    }
  }

  /** At every point of the run every choice, stored or about to be, is distinct and at most two. */
  ghost predicate ChoicesStayOk(s: Desk, run: seq<Action>)
    decreases run
  {
    ChoicesOk(s) && (run == [] || ChoicesStayOk(Next(s, run[0]), run[1..]))
  }

  predicate AllGoodTicks(s: Desk, run: seq<Action>)
    decreases run
  {
    run == [] || (GoodTick(s, run[0]) && AllGoodTicks(Next(s, run[0]), run[1..]))
  }

  /** In every run choices stay distinct and at most two exactly when every tick read leaves its list so. */
  lemma {:induction false} ChoicesStayGood(s: Desk, run: seq<Action>)
    requires ChoicesOk(s)
    ensures ChoicesStayOk(s, run) <==> AllGoodTicks(s, run)
    decreases run
  {
    if run != [] {
      StepKeepsChoices(s, run[0]);
      if ChoicesOk(Next(s, run[0])) { ChoicesStayGood(Next(s, run[0]), run[1..]); }
    }
  }

  /** Keys of the registry's alphabet, single parts all, make good ticks. */
  lemma {:induction false} SinglePartsAreGood(s: Desk, run: seq<Action>)
    requires ChoicesOk(s) && TicksGood(run)
    ensures AllGoodTicks(s, run) && ChoicesOk(After(s, run))
    decreases run
  {
    if run != [] {
      var a := run[0];
      assert a in run && forall x <- run[1..] :: x in run;
      if a.PickRead? && a.d in s.drafts && Toggled(s.drafts[a.d].chosen, a.key).Some? {
        assert ChoiceOk(s.drafts[a.d].chosen);
        TickKeepsChoice(s.drafts[a.d].chosen, a.key);
        GoodKeyKeepsChoice(s.drafts[a.d].chosen, a.key);
      }
      StepKeepsChoices(s, a);
      SinglePartsAreGood(Next(s, a), run[1..]);
    }
  }

  /**
  In every run, failed transactions included, there is at most one row per closer, lead
  and date, rows never change, and at most one notice per transfer id.
  */
  lemma {:induction false} RowsStayUnique(s: Desk, run: seq<Action>, a: nat, b: nat)
    requires RowsOk(s)
    ensures var t := After(s, run);
            && RowsOk(t) && Extends(s.table, t.table)
            && (a in t.table.rows && b in t.table.rows && t.table.rows[a].Key() == t.table.rows[b].Key() ==> a == b)
    decreases run
  {
    if run != [] {
      StepKeepsRows(s, run[0]);
      RowsStayUnique(Next(s, run[0]), run[1..], a, b);
      ExtendsOnwards(s.table, Next(s, run[0]).table, After(s, run).table);
    } else if a in s.table.rows && b in s.table.rows && s.table.rows[a].Key() == s.table.rows[b].Key() {
      OneRowPerKey(s.table, a, b);
    }
  }

  /** At every point of the run notices, sent or about to be, name the closer of their own transfer. */
  ghost predicate NoticesStayOk(s: Desk, run: seq<Action>)
    decreases run
  {
    NoticesOk(s) && (run == [] || NoticesStayOk(Next(s, run[0]), run[1..]))
  }

  ghost predicate AllHarmless(s: Desk, run: seq<Action>)
    decreases run
  {
    run == [] || (Harmless(s, run[0]) && AllHarmless(Next(s, run[0]), run[1..]))
  }

  /**
  In every run, notices stay in agreement with the rows exactly when each failed transaction
  had only got to closers whose rows were there before it.
  */
  lemma {:induction false} NoticesMatchRows(s: Desk, run: seq<Action>)
    requires RowsOk(s) && NoticesOk(s)
    ensures NoticesStayOk(s, run) <==> AllHarmless(s, run)
    decreases run
  {
    if run != [] {
      StepKeepsRows(s, run[0]);
      StepKeepsNotices(s, run[0]);
      if NoticesOk(Next(s, run[0])) { NoticesMatchRows(Next(s, run[0]), run[1..]); }
    }
  }

  /**
  One failed commit is enough to lose a notice: its pair is announced for an id that was
  rolled back, the next transfer gets that id, and its own notice is then ignored.
  */
  lemma RolledBackIdSwallowsNotice(s: Desk, x: nat, y: nat, a: string, b: string)
    requires RowsOk(s) && x != y && x in s.jobs && y in s.jobs
    requires s.jobs[x].Finalizing? && s.jobs[x].keys == [a] && Clean(a) != ""
    requires s.jobs[y].Finalizing? && s.jobs[y].keys == [b] && Clean(b) != "" && Clean(a) != Clean(b)
    requires RowFor(s.jobs[x].draft, Clean(a)).Key() !in s.table.index
    requires RowFor(s.jobs[y].draft, Clean(b)).Key() !in s.table.index
    requires forall n <- s.notices :: n.transfer != s.table.next
    ensures var id := s.table.next;
            var t := Next(Next(Next(Next(s, Write(x, Some(1))), Notify(x)), Write(y, None)), Notify(y));
            && id in t.table.rows && t.table.rows[id].closer == Clean(b)
            && Notice(id, Clean(a)) in t.notices && Notice(id, Clean(b)) !in t.notices
  {
    var id := s.table.next;
    FailedWrite(s, x, a);
    var s1 := Next(s, Write(x, Some(1)));
    NoticeAdded(s1, x, Clean(a), id);
    var s2 := Next(s1, Notify(x));
    GoodWrite(s2, y, b);
    var s3 := Next(s2, Write(y, None));
    assert s3.notices[|s.notices|] == Notice(id, Clean(a));
    NoticeIgnored(s3, y, Clean(b), id, |s.notices|);
    assert Notice(id, Clean(a)) in s3.notices;
  }

  lemma FailedWrite(s: Desk, x: nat, a: string)
    requires x in s.jobs && s.jobs[x].Finalizing? && s.jobs[x].keys == [a] && Clean(a) != ""
    requires RowFor(s.jobs[x].draft, Clean(a)).Key() !in s.table.index
    ensures Next(s, Write(x, Some(1))) == s.(jobs := s.jobs[x := Notifying([(Clean(a), s.table.next)])])
    ensures !Harmless(s, Write(x, Some(1)))
  {
    WrittenOne(s.table, s.jobs[x].draft, a);
    assert [a][..1] == [a] && a in [a];
  }

  lemma GoodWrite(s: Desk, y: nat, b: string)
    requires y in s.jobs && s.jobs[y].Finalizing? && s.jobs[y].keys == [b] && Clean(b) != ""
    requires RowFor(s.jobs[y].draft, Clean(b)).Key() !in s.table.index
    ensures var t := Next(s, Write(y, None));
            && t.notices == s.notices && t.jobs == s.jobs[y := Notifying([(Clean(b), s.table.next)])]
            && s.table.next in t.table.rows && t.table.rows[s.table.next].closer == Clean(b)
  {
    WrittenOne(s.table, s.jobs[y].draft, b);
  }

  lemma NoticeAdded(s: Desk, d: nat, ck: string, id: nat)
    requires d in s.jobs && s.jobs[d] == Notifying([(ck, id)]) && ck != "" && id != 0
    requires forall n <- s.notices :: n.transfer != id
    ensures Next(s, Notify(d)).notices == s.notices + [Notice(id, ck)]
  {
  }

  lemma NoticeIgnored(s: Desk, d: nat, ck: string, id: nat, at: nat)
    requires d in s.jobs && s.jobs[d] == Notifying([(ck, id)])
    requires at < |s.notices| && s.notices[at].transfer == id
    ensures Next(s, Notify(d)).notices == s.notices
  {
    assert s.notices[at] in s.notices;
  }

  lemma WrittenOne(t: Table, draft: Draft, key: string)
    requires Clean(key) != "" && RowFor(draft, Clean(key)).Key() !in t.index
    ensures Written(t, draft, [key]) == (Inserted(t, RowFor(draft, Clean(key))).0, [(Clean(key), t.next)])
  {
    assert [key][..0] == [];
    assert Written(t, draft, []) == (t, []);
    assert [] + [(Clean(key), t.next)] == [(Clean(key), t.next)];
  }

  // ---- announced at least once ----

  /** The finalization of draft `d` still has to announce transfer `id`, `i` places from now. */
  predicate Waits(s: Desk, d: nat, i: nat, id: nat) {
    d in s.jobs && s.jobs[d].Notifying? && i < |s.jobs[d].pairs| && s.jobs[d].pairs[i].1 == id
  }

  ghost predicate Owed(s: Desk, id: nat) { exists d: nat, i: nat :: Waits(s, d, i, id) }

  predicate Announced(s: Desk, id: nat) { exists n <- s.notices :: n.transfer == id }

  /** Announced, or about to be. */
  ghost predicate Assured(s: Desk, id: nat) { Announced(s, id) || Owed(s, id) }

  /** The step drops the last pair waiting to announce `id`: a restart, a failed enqueue or an abandoned rest. */
  ghost predicate Loses(s: Desk, a: Action, id: nat) {
    && !Announced(s, id)
    && (|| a.Restart?
        || (a.NotifyFails? && forall d: nat, i: nat :: Waits(s, d, i, id) ==> d == a.d && i == 0)
        || (a.Abandon? && forall d: nat, i: nat :: Waits(s, d, i, id) ==> d == a.d))
  }

  /** The step is a finalization that returns a pair for `id`, whether it wrote the row or found it. */
  predicate Returns(s: Desk, a: Action, id: nat) {
    Writes(s, a) &&
      exists p <- Finalized(s.table, s.jobs[a.d].draft, s.jobs[a.d].keys, a.failAt).1 :: p.1 == id
  }

  /** Pairs waiting name a closer and a possible row, and only finished drafts have a finalization. */
  ghost predicate JobsOk(s: Desk) {
    && (forall d <- s.jobs :: d in s.drafts && s.drafts[d].state == Done)
    && PairsAreReal(s.jobs)
  }

  predicate PairsReal(pairs: Pairs) { forall p <- pairs :: p.0 != "" && p.1 >= 1 }

  lemma {:induction false} WrittenPairs(t: Table, draft: Draft, closers: seq<string>)
    requires Sound(t)
    ensures PairsReal(Written(t, draft, closers).1)
    ensures forall k <- closers :: Clean(k) != "" ==> exists p <- Written(t, draft, closers).1 :: p.0 == Clean(k)
  {
    if closers != [] {
      var (init, last) := (closers[..|closers| - 1], closers[|closers| - 1]);
      WrittenPairs(t, draft, init);
      WrittenRows(t, draft, init);
      assert closers == init + [last];
      var (before, pairs) := Written(t, draft, init);
      if Clean(last) != "" {
        var pair := (Clean(last), Inserted(before, RowFor(draft, Clean(last))).1);
        assert Written(t, draft, closers).1 == pairs + [pair] && pair in pairs + [pair];
        forall k | k in closers && Clean(k) != "" ensures exists p <- pairs + [pair] :: p.0 == Clean(k) {
          if k in init {
            var p :| p in pairs && p.0 == Clean(k);
            assert p in pairs + [pair];
          }
        }
      }
    }
  }

  /** The step takes the head pair of a finalization's announcements. */
  predicate Takes(s: Desk, a: Action, d: nat) {
    && (a == Notify(d) || a == NotifyFails(d))
    && d in s.jobs && s.jobs[d].Notifying? && s.jobs[d].pairs != []
  }

  predicate Abandons(s: Desk, a: Action) { a.Abandon? && a.d in s.jobs && s.jobs[a.d].Notifying? }

  /** Besides these steps and a restart, nothing touches the pairs waiting or the notices. */
  lemma JobsInOneStep(s: Desk, a: Action)
    requires JobsOk(s) && !Writes(s, a) && !a.Restart? && !Abandons(s, a) && forall d: nat :: !Takes(s, a, d)
    ensures var t := Next(s, a);
            && t.notices == s.notices
            && forall d: nat :: (d in t.jobs && t.jobs[d].Notifying?) <==> (d in s.jobs && s.jobs[d].Notifying?)
    ensures forall d <- s.jobs :: s.jobs[d].Notifying? ==> Next(s, a).jobs[d] == s.jobs[d]
  {
    if a.Notify? || a.NotifyFails? { assert !Takes(s, a, a.d); }
  }

  lemma JobDraftsStay(s: Desk, a: Action)
    requires DraftsOk(s) && JobsOk(s)
    ensures forall d <- Next(s, a).jobs :: d in Next(s, a).drafts && Next(s, a).drafts[d].state == Done
  {
    var t := Next(s, a);
    forall d | d in t.jobs ensures d in t.drafts && t.drafts[d].state == Done {
      if d in s.jobs {
        FinalDraftStays(s, a, d);
        assert ButForTicks(t.drafts[d]).state == t.drafts[d].state;
      }
    }
  }

  ghost predicate PairsAreReal(jobs: map<nat, Job>) {
    forall d <- jobs :: jobs[d].Notifying? ==> PairsReal(jobs[d].pairs)
  }

  lemma WritePairsAreReal(s: Desk, a: Action)
    requires RowsOk(s) && PairsAreReal(s.jobs) && Writes(s, a)
    ensures PairsAreReal(Next(s, a).jobs)
  {
    var keys := s.jobs[a.d].keys;
    WrittenPairs(s.table, s.jobs[a.d].draft, if a.failAt.None? then keys else keys[..a.failAt.value]);
    var pairs := Finalized(s.table, s.jobs[a.d].draft, keys, a.failAt).1;
    assert Next(s, a).jobs == s.jobs[a.d := Notifying(pairs)];
  }

  lemma TakePairsAreReal(s: Desk, a: Action, d: nat)
    requires PairsAreReal(s.jobs) && Takes(s, a, d)
    ensures PairsAreReal(Next(s, a).jobs)
  {
    assert PairsReal(s.jobs[d].pairs);
    assert Next(s, a).jobs == s.jobs[d := Notifying(s.jobs[d].pairs[1..])];
  }

  lemma OtherPairsAreReal(s: Desk, a: Action)
    requires JobsOk(s) && !Writes(s, a) && forall d: nat :: !Takes(s, a, d)
    ensures PairsAreReal(Next(s, a).jobs)
  {
    if Abandons(s, a) {
      assert Next(s, a).jobs == s.jobs[a.d := Notifying([])];
    } else if !a.Restart? {
      JobsInOneStep(s, a);
    }
  }

  lemma StepKeepsJobs(s: Desk, a: Action)
    requires DraftsOk(s) && RowsOk(s) && JobsOk(s)
    ensures JobsOk(Next(s, a))
  {
    JobDraftsStay(s, a);
    assert PairsAreReal(Next(s, a).jobs) by {
      if Writes(s, a) {
        WritePairsAreReal(s, a);
      } else if d: nat :| Takes(s, a, d) {
        TakePairsAreReal(s, a, d);
      } else {
        OtherPairsAreReal(s, a);
      }
    }
  }

  /** Taking the head of a list of pairs moves every other one up. */
  lemma WaitsOn(s: Desk, t: Desk, d: nat, id: nat)
    requires d in s.jobs && s.jobs[d].Notifying? && s.jobs[d].pairs != []
    requires t.jobs == s.jobs[d := Notifying(s.jobs[d].pairs[1..])]
    ensures Owed(t, id) <==> exists e: nat, i: nat :: Waits(s, e, i, id) && (e != d || i != 0)
  {
    forall e: nat, i: nat | Waits(s, e, i, id) && (e != d || i != 0) ensures Owed(t, id) {
      assert Waits(t, e, if e == d then i - 1 else i, id);
    }
    if Owed(t, id) {
      var e: nat, i: nat :| Waits(t, e, i, id);
      assert Waits(s, e, if e == d then i + 1 else i, id);
    }
  }

  lemma EnqueueAnnounces(notices: seq<Notice>, pair: (string, nat), id: nat)
    requires pair.0 != "" && pair.1 >= 1
    ensures (exists n <- Enqueued(notices, pair) :: n.transfer == id) <==>
      (exists n <- notices :: n.transfer == id) || pair.1 == id
  {
    var after := Enqueued(notices, pair);
    assert forall n <- notices :: n in after;
    if after != notices { assert Notice(pair.1, pair.0) in after; }
  }

  lemma TakenPair(s: Desk, a: Action, d: nat, id: nat)
    requires JobsOk(s) && Takes(s, a, d)
    ensures Assured(Next(s, a), id) <==> Assured(s, id) && !Loses(s, a, id)
  {
    var (t, pair) := (Next(s, a), s.jobs[d].pairs[0]);
    WaitsOn(s, t, d, id);
    assert PairsReal(s.jobs[d].pairs) && pair in s.jobs[d].pairs;
    assert pair.1 == id ==> Waits(s, d, 0, id);
    if a.Notify? { EnqueueAnnounces(s.notices, pair, id); }
  }

  lemma AbandonedPairs(s: Desk, a: Action, id: nat)
    requires Abandons(s, a)
    ensures Assured(Next(s, a), id) <==> Assured(s, id) && !Loses(s, a, id)
  {
    var t := Next(s, a);
    forall d: nat, i: nat ensures Waits(t, d, i, id) <==> Waits(s, d, i, id) && d != a.d { }
  }

  lemma WrittenPairsWait(s: Desk, a: Action, id: nat)
    requires Writes(s, a)
    ensures Assured(Next(s, a), id) <==> Assured(s, id) || Returns(s, a, id)
  {
    var t := Next(s, a);
    var pairs := Finalized(s.table, s.jobs[a.d].draft, s.jobs[a.d].keys, a.failAt).1;
    assert t.jobs == s.jobs[a.d := Notifying(pairs)];
    forall e: nat, i: nat | Waits(s, e, i, id) ensures Owed(t, id) { assert Waits(t, e, i, id); }
    if Returns(s, a, id) {
      var i: nat :| i < |pairs| && pairs[i].1 == id;
      assert Waits(t, a.d, i, id);
    }
    if Owed(t, id) {
      var e: nat, i: nat :| Waits(t, e, i, id);
      if e == a.d { assert pairs[i] in pairs; } else { assert Waits(s, e, i, id); }
    }
  }

  lemma NothingTaken(s: Desk, a: Action, id: nat)
    requires JobsOk(s) && !Writes(s, a) && !a.Restart? && !Abandons(s, a) && forall d: nat :: !Takes(s, a, d)
    ensures (Assured(Next(s, a), id) <==> Assured(s, id)) && !(Assured(s, id) && Loses(s, a, id))
  {
    JobsInOneStep(s, a);
    forall d: nat, i: nat ensures Waits(Next(s, a), d, i, id) <==> Waits(s, d, i, id) { }
    forall d: nat, i: nat | Waits(s, d, i, id) ensures a.NotifyFails? ==> d != a.d || i != 0 { assert !Takes(s, a, d); }
  }

  /** One step keeps a transfer announced or on its way unless it loses it, and brings it there only by returning it. */
  lemma AssuredInOneStep(s: Desk, a: Action, id: nat)
    requires DraftsOk(s) && JobsOk(s)
    ensures Assured(Next(s, a), id) <==> if Assured(s, id) then !Loses(s, a, id) else Returns(s, a, id)
  {
    if Writes(s, a) {
      WrittenPairsWait(s, a, id);
    } else if d: nat :| Takes(s, a, d) {
      TakenPair(s, a, d, id);
    } else if Abandons(s, a) {
      AbandonedPairs(s, a, id);
    } else if a.Restart? {
      assert Next(s, a).notices == s.notices && Next(s, a).jobs == map[];
    } else {
      NothingTaken(s, a, id);
    }
  }

  /** Follows a transfer through a run: whether it is announced or on its way at the end. */
  ghost predicate AssuredBySteps(s: Desk, run: seq<Action>, id: nat, kept: bool)
    decreases run
  {
    if run == [] then kept
    else AssuredBySteps(Next(s, run[0]), run[1..], id, if kept then !Loses(s, run[0], id) else Returns(s, run[0], id))
  }

  /**
  At least once, exactly. When nothing is left to announce it, a transfer has its notice if and only
  if, after the last finalization that returned it anew, no restart, failed enqueue or abandoned rest
  dropped its last waiting pair.
  */
  lemma {:induction false} AnnouncedUnlessLost(s: Desk, run: seq<Action>, id: nat)
    requires DraftsOk(s) && RowsOk(s) && JobsOk(s)
    ensures Assured(After(s, run), id) <==> AssuredBySteps(s, run, id, Assured(s, id))
    ensures !Owed(After(s, run), id) ==> (Announced(After(s, run), id) <==> AssuredBySteps(s, run, id, Assured(s, id)))
    decreases run
  {
    if run != [] {
      var t := Next(s, run[0]);
      StepKeepsDrafts(s, run[0]);
      StepKeepsRows(s, run[0]);
      StepKeepsJobs(s, run[0]);
      AssuredInOneStep(s, run[0], id);
      AnnouncedUnlessLost(t, run[1..], id);
    }
  }

  /** A finalization that commits leaves each of its closers' rows announced or on its way. */
  lemma CommitKeepsItsRows(s: Desk, d: nat, key: string)
    requires RowsOk(s) && Writes(s, Write(d, None)) && key in s.jobs[d].keys && Clean(key) != ""
    ensures var t := Next(s, Write(d, None));
            && RowFor(s.jobs[d].draft, Clean(key)).Key() in t.table.index
            && Assured(t, t.table.index[RowFor(s.jobs[d].draft, Clean(key)).Key()])
  {
    var (draft, keys, a) := (s.jobs[d].draft, s.jobs[d].keys, Write(d, None));
    WrittenRows(s.table, draft, keys);
    WrittenPairs(s.table, draft, keys);
    var (after, pairs) := Written(s.table, draft, keys);
    var p :| p in pairs && p.0 == Clean(key);
    assert At(after, p.1, RowFor(draft, p.0));
    WrittenPairsWait(s, a, p.1);
    assert Returns(s, a, p.1);
  }

  /** A row is committed, its confirmation raises, and nothing is left that would announce it. */
  lemma AbandonedNotice(s: Desk, x: nat, key: string)
    requires RowsOk(s) && x in s.jobs && s.jobs[x].Finalizing? && s.jobs[x].keys == [key] && Clean(key) != ""
    requires RowFor(s.jobs[x].draft, Clean(key)).Key() !in s.table.index && !Assured(s, s.table.next)
    ensures var t := Next(Next(s, Write(x, None)), Abandon(x));
            && s.table.next in t.table.rows && t.table.rows[s.table.next].closer == Clean(key)
            && !Assured(t, s.table.next)
  {
    GoodWrite(s, x, key);
    var id := s.table.next;
    var t := Next(Next(s, Write(x, None)), Abandon(x));
    forall d: nat, i: nat ensures !Waits(t, d, i, id) { assert !Waits(s, d, i, id); }
  }

  lemma StartIsGood()
    ensures DraftsOk(START) && ChoicesOk(START) && RowsOk(START) && NoticesOk(START) && JobsOk(START)
    ensures forall id :: !Assured(START, id)
  {
  }

  /** Every run from the empty tables: what the results above come to, for one draft and two rows. */
  lemma EveryRunIsSound(run: seq<Action>, d: nat, a: nat, b: nat)
    ensures var s := After(START, run);
            && LocksOf(s, d) <= 1
            && (a in s.table.rows && b in s.table.rows && s.table.rows[a].Key() == s.table.rows[b].Key() ==> a == b)
            && (TicksGood(run) && d in s.drafts ==> GoodChoice(Parse(s.drafts[d].chosen)))
            && (NoticesStayOk(START, run) <==> AllHarmless(START, run))
            && (!Owed(s, a) ==> (Announced(s, a) <==> AssuredBySteps(START, run, a, false)))
  {
    StartIsGood();
    AnnouncedUnlessLost(START, run, a);
    FinalizedAtMostOnce(START, run, d);
    RowsStayUnique(START, run, a, b);
    NoticesMatchRows(START, run);
    if TicksGood(run) {
      SinglePartsAreGood(START, run);
      assert d in After(START, run).drafts ==> ChoiceOk(After(START, run).drafts[d].chosen);
    }
  }

  // ---- the draft table ----

  /** The table behind the machine's drafts: each method is one guarded statement. */
  class DraftTable {
    var drafts: map<nat, Draft>
    var nextDraft: nat

    ghost function View(): Desk
      reads this
    {
      START.(drafts := drafts, nextDraft := nextDraft)
    }

    constructor ()
      ensures drafts == map[] && nextDraft == 1
    {
      drafts := map[];
      nextDraft := 1;
    }

    method Create(owner: int, manager: string, chat: int, date: string) returns (d: nat)
      modifies this
      ensures View() == Next(old(View()), Action.Create(owner, manager, chat, date)) && d == old(nextDraft)
    {
      d := nextDraft;
      drafts := drafts[d := Draft(owner, Clean(manager), chat, date, AwaitText, "", "")];
      nextDraft := nextDraft + 1;
    }

    method SetTextAndAdvance(d: nat, text: string)
      modifies this
      ensures View() == Next(old(View()), SetText(d, text))
    {
      if d in drafts && drafts[d].state == AwaitText {
        drafts := drafts[d := drafts[d].(text := text, state := AwaitCloser)];
      }
    }

    method PickCloser(d: nat, who: int, key: string)
      modifies this
      ensures View() == Next(Next(old(View()), PickRead(0, d, who, key)), PickWrite(0))
    {
      ghost var read := Next(View(), PickRead(0, d, who, key));
      assert read.ticks - {0} == map[];
      if d !in drafts || drafts[d].owner != who || drafts[d].state != AwaitCloser {
        return;
      }
      var chosen := Parse(drafts[d].chosen);
      if key in chosen {
        chosen := Without(chosen, key);
      } else if |chosen| >= 2 {
        return;
      } else {
        chosen := chosen + [key];
      }
      drafts := drafts[d := drafts[d].(chosen := Join(chosen))];
    }

    /** Compare-and-set: true only for the caller that moved the draft to `done`. */
    method TryFinalizeLock(d: nat) returns (won: bool)
      modifies this
      ensures won <==> d in old(drafts) && old(drafts)[d].state == AwaitCloser
      ensures won ==> drafts == old(drafts)[d := old(drafts)[d].(state := Done)]
      ensures !won ==> drafts == old(drafts)
      ensures nextDraft == old(nextDraft)
    {
      won := d in drafts && drafts[d].state == AwaitCloser;
      if won {
        drafts := drafts[d := drafts[d].(state := Done)];
      }
    }

    method Cancel(d: nat, who: int)
      modifies this
      ensures View() == Next(old(View()), Action.Cancel(d, who))
    {
      if d in drafts && drafts[d].owner == who && drafts[d].state in {AwaitText, AwaitCloser} {
        drafts := drafts[d := drafts[d].(state := Cancelled)];
      }
    }
  }
}
