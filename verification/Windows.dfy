/**
Day and flight windows of the partner export. Local wall-clock time is counted in seconds
from day 0, and a date is a day number.
*/
module Windows {
  import opened Wrappers
  import IsoTime

  const DAY := 86400
  const MINUTE := 60

  datatype Kind = Day | Flight

  /** A source's window settings, when there are any. */
  datatype Config = Default | Minutes(dayStart: Option<int>, dayEnd: Option<int>)

  /**
  `at` is the parsed local arrival, `leadDate` the stored date the rows are fetched by, `seen` the
  stored arrival text and `manager` the manager's key.
  */
  datatype Lead = Lead(id: int, at: Option<int>, leadDate: int, seen: string, manager: string)

  /** The configured minutes if they are usable, else 08:00 and 17:00. */
  function Bounds(cfg: Config): (b: (int, int))
    ensures 0 <= b.0 < b.1 <= 1439
  {
    if cfg.Minutes? && cfg.dayStart.Some? && cfg.dayEnd.Some? && 0 <= cfg.dayStart.value < cfg.dayEnd.value <= 1439
    then (cfg.dayStart.value, cfg.dayEnd.value) else (480, 1020)
  }

  /** The window of date `d`, from and up to. A flight closes on the morning of its date. */
  function Window(d: int, kind: Kind, cfg: Config): (int, int) {
    var (ds, de) := Bounds(cfg);
    match kind
    case Day => (d * DAY + ds * MINUTE, d * DAY + de * MINUTE)
    case Flight => ((d - 1) * DAY + de * MINUTE, d * DAY + ds * MINUTE)
  }

  predicate Within(t: int, w: (int, int)) { w.0 <= t < w.1 }

  predicate InWindows(lead: Lead, start: int, end: int, kind: Kind, cfg: Config) {
    lead.at.Some? && exists d :: start <= d <= end && Within(lead.at.value, Window(d, kind, cfg))
  }

  function LocalDate(t: int): int { t / DAY }

  // ---- tiling ----

  /** All instants from the end of the day before `start` to the end of day `end`. */
  predicate Covered(t: int, start: int, end: int, cfg: Config) {
    (start - 1) * DAY + Bounds(cfg).1 * MINUTE <= t < end * DAY + Bounds(cfg).1 * MINUTE
  }

  /** An instant is in one day window at most, and in one flight window at most. */
  lemma WindowIsUnique(t: int, kind: Kind, cfg: Config, d: int, e: int)
    requires Within(t, Window(d, kind, cfg)) && Within(t, Window(e, kind, cfg))
    ensures d == e
  {
  }

  lemma NotInBothKinds(t: int, cfg: Config, d: int, e: int)
    requires Within(t, Window(d, Day, cfg))
    ensures !Within(t, Window(e, Flight, cfg))
  {
  }

  /** Where an instant lies: the date whose end it has not passed yet, and before or after that day's start. */
  function Closing(t: int, cfg: Config): int {
    LocalDate(t - Bounds(cfg).1 * MINUTE) + 1
  }

  lemma LiesInItsClosingDate(t: int, cfg: Config)
    ensures var d := Closing(t, cfg);
            Within(t, Window(d, Day, cfg)) || Within(t, Window(d, Flight, cfg))
  {
  }

  /** Day and flight windows of a date range tile the covered interval: every instant of it in exactly one. */
  lemma WindowsTile(lead: Lead, start: int, end: int, cfg: Config)
    requires lead.at.Some?
    ensures InWindows(lead, start, end, Day, cfg) || InWindows(lead, start, end, Flight, cfg)
       <==> Covered(lead.at.value, start, end, cfg)
    ensures !(InWindows(lead, start, end, Day, cfg) && InWindows(lead, start, end, Flight, cfg))
  {
    var t := lead.at.value;
    if InWindows(lead, start, end, Day, cfg) {
      var d :| start <= d <= end && Within(t, Window(d, Day, cfg));
      assert Covered(t, start, end, cfg);
      forall e ensures !Within(t, Window(e, Flight, cfg)) { NotInBothKinds(t, cfg, d, e); }
    }
    if InWindows(lead, start, end, Flight, cfg) {
      var d :| start <= d <= end && Within(t, Window(d, Flight, cfg));
      assert Covered(t, start, end, cfg);
    }
    LiesInItsClosingDate(t, cfg);
    if Covered(t, start, end, cfg) { assert start <= Closing(t, cfg) <= end; }
  }

  // ---- the export ----

  function FetchStart(start: int, kind: Kind): int {
    if kind.Flight? then start - 1 else start
  }

  predicate Fetched(lead: Lead, start: int, end: int, kind: Kind) {
    FetchStart(start, kind) <= lead.leadDate <= end
  }

  /** Fetched by stored date, then kept if the arrival is in a window. */
  function Exported(leads: seq<Lead>, start: int, end: int, kind: Kind, cfg: Config): seq<Lead> {
    if leads == [] then []
    else
      Exported(leads[..|leads| - 1], start, end, kind, cfg) + (
        var last := leads[|leads| - 1];
        if Fetched(last, start, end, kind) && InWindows(last, start, end, kind, cfg) then [last] else [])
  }

  /** What the export means to hold: every lead whose arrival is in a window. */
  function Intended(leads: seq<Lead>, start: int, end: int, kind: Kind, cfg: Config): seq<Lead> {
    if leads == [] then []
    else
      Intended(leads[..|leads| - 1], start, end, kind, cfg) + (
        var last := leads[|leads| - 1];
        if InWindows(last, start, end, kind, cfg) then [last] else [])
  }

  /** Some arrivals on a date fall in windows of that date or the next: the fetch reaches back just enough. */
  lemma LocalDateIsFetched(lead: Lead, start: int, end: int, kind: Kind, cfg: Config)
    requires InWindows(lead, start, end, kind, cfg)
    ensures FetchStart(start, kind) <= LocalDate(lead.at.value) <= end
  {
    var d :| start <= d <= end && Within(lead.at.value, Window(d, kind, cfg));
    assert d - (if kind.Flight? then 1 else 0) <= LocalDate(lead.at.value) <= d;
  }

  lemma {:induction false} ExportIsShorter(leads: seq<Lead>, start: int, end: int, kind: Kind, cfg: Config)
    ensures |Exported(leads, start, end, kind, cfg)| <= |Intended(leads, start, end, kind, cfg)|
  {
    if leads != [] { ExportIsShorter(leads[..|leads| - 1], start, end, kind, cfg); }
  }

  /** Fetching by stored date loses nothing exactly when every in-window lead's stored date is in the fetched range. */
  lemma {:induction false} FetchLosesNothing(leads: seq<Lead>, start: int, end: int, kind: Kind, cfg: Config)
    ensures Exported(leads, start, end, kind, cfg) == Intended(leads, start, end, kind, cfg)
       <==> forall l <- leads :: InWindows(l, start, end, kind, cfg) ==> Fetched(l, start, end, kind)
  {
    if leads != [] {
      var (init, last) := (leads[..|leads| - 1], leads[|leads| - 1]);
      FetchLosesNothing(init, start, end, kind, cfg);
      ExportIsShorter(init, start, end, kind, cfg);
      assert leads == init + [last];
      var (x, y) := (Exported(init, start, end, kind, cfg), Intended(init, start, end, kind, cfg));
      if InWindows(last, start, end, kind, cfg) {
        if Fetched(last, start, end, kind) {
          assert x + [last] == y + [last] ==> x == y by {
            if x + [last] == y + [last] { assert (x + [last])[..|x|] == (y + [last])[..|y|]; }
          }
        } else {
          assert |x + []| < |y + [last]| && last in leads;
        }
      } else {
        assert x + [] == x && y + [] == y;
      }
    }
  }

  predicate DatesAreLocal(leads: seq<Lead>) {
    forall l <- leads :: l.at.Some? ==> l.leadDate == LocalDate(l.at.value)
  }

  function CoveredLeads(leads: seq<Lead>, start: int, end: int, cfg: Config): seq<Lead> {
    if leads == [] then []
    else
      CoveredLeads(leads[..|leads| - 1], start, end, cfg) + (
        var last := leads[|leads| - 1];
        if last.at.Some? && Covered(last.at.value, start, end, cfg) then [last] else [])
  }

  /** When stored dates are local dates, the two exports together hold each covered lead exactly once. */
  lemma {:induction false} ExportsPartition(leads: seq<Lead>, start: int, end: int, cfg: Config)
    requires DatesAreLocal(leads)
    ensures multiset(Exported(leads, start, end, Day, cfg)) + multiset(Exported(leads, start, end, Flight, cfg))
         == multiset(CoveredLeads(leads, start, end, cfg))
  {
    if leads != [] {
      var (init, last) := (leads[..|leads| - 1], leads[|leads| - 1]);
      assert leads == init + [last] && last in leads;
      ExportsPartition(init, start, end, cfg);
      ExportedOnce(last, start, end, cfg);
      OneMoreLead(Exported(init, start, end, Day, cfg), Exported(init, start, end, Flight, cfg),
                  CoveredLeads(init, start, end, cfg), last,
                  Fetched(last, start, end, Day) && InWindows(last, start, end, Day, cfg),
                  Fetched(last, start, end, Flight) && InWindows(last, start, end, Flight, cfg));
    }
  }

  function AndIf(leads: seq<Lead>, lead: Lead, kept: bool): seq<Lead> { leads + (if kept then [lead] else []) }

  lemma OneMoreLead(day: seq<Lead>, flight: seq<Lead>, covered: seq<Lead>, lead: Lead, inDay: bool, inFlight: bool)
    requires multiset(day) + multiset(flight) == multiset(covered) && !(inDay && inFlight)
    ensures multiset(AndIf(day, lead, inDay)) + multiset(AndIf(flight, lead, inFlight))
         == multiset(AndIf(covered, lead, inDay || inFlight))
  {
  }

  /** One covered lead stored under its local date is in exactly one export; any other is in neither. */
  lemma ExportedOnce(lead: Lead, start: int, end: int, cfg: Config)
    requires lead.at.Some? ==> lead.leadDate == LocalDate(lead.at.value)
    ensures var day := Fetched(lead, start, end, Day) && InWindows(lead, start, end, Day, cfg);
            var flight := Fetched(lead, start, end, Flight) && InWindows(lead, start, end, Flight, cfg);
            !(day && flight) && ((day || flight) <==> lead.at.Some? && Covered(lead.at.value, start, end, cfg))
  {
    if lead.at.Some? { WindowsTile(lead, start, end, cfg); }
    if InWindows(lead, start, end, Day, cfg) { LocalDateIsFetched(lead, start, end, Day, cfg); }
    if InWindows(lead, start, end, Flight, cfg) { LocalDateIsFetched(lead, start, end, Flight, cfg); }
  }

  /** A stored date that is not the local one can lose a lead: this one is covered and in neither export. */
  lemma WrongDateIsLost(start: int, end: int)
    requires start <= end
    ensures var lead := Lead(1, Some(start * DAY + 600 * MINUTE), end + 1, "", "m");
            && Covered(lead.at.value, start, end, Default)
            && Exported([lead], start, end, Day, Default) == [] && Exported([lead], start, end, Flight, Default) == []
  {
    var lead := Lead(1, Some(start * DAY + 600 * MINUTE), end + 1, "", "m");
    assert [lead][..0] == [];
    assert Exported([], start, end, Day, Default) == [] && Exported([], start, end, Flight, Default) == [];
  }

  // ---- the loops ----

  method WindowList(start: int, end: int, kind: Kind, cfg: Config) returns (ws: seq<(int, int)>)
    ensures |ws| == if start <= end then end - start + 1 else 0
    ensures forall i :: 0 <= i < |ws| ==> ws[i] == Window(start + i, kind, cfg)
  {
    ws := [];
    var (ds, de) := Bounds(cfg);
    var d := start;
    while d <= end
      invariant start <= d && |ws| == d - start && (if start <= end then d <= end + 1 else d == start)
      invariant forall i :: 0 <= i < |ws| ==> ws[i] == Window(start + i, kind, cfg)
    {
      var base := d * DAY;
      if kind.Flight? {
        ws := ws + [(base - DAY + de * MINUTE, base + ds * MINUTE)];
      } else {
        ws := ws + [(base + ds * MINUTE, base + de * MINUTE)];
      }
      d := d + 1;
    }
  }

  method CheckInWindows(lead: Lead, start: int, end: int, kind: Kind, cfg: Config) returns (found: bool)
    ensures found == InWindows(lead, start, end, kind, cfg)
  {
    if lead.at.None? {
      return false;
    }
    var ws := WindowList(start, end, kind, cfg);
    for i := 0 to |ws|
      invariant forall d :: start <= d < start + i ==> !Within(lead.at.value, Window(d, kind, cfg))
    {
      if ws[i].0 <= lead.at.value < ws[i].1 {
        assert Within(lead.at.value, Window(start + i, kind, cfg));
        return true;
      }
    }
    found := false;
  }

  method WindowedLeads(leads: seq<Lead>, start: int, end: int, kind: Kind, cfg: Config) returns (out: seq<Lead>)
    ensures out == Exported(leads, start, end, kind, cfg)
  {
    var from := if kind.Flight? then start - 1 else start;
    out := [];
    for i := 0 to |leads|
      invariant out == Exported(leads[..i], start, end, kind, cfg)
    {
      assert leads[..i + 1][..i] == leads[..i];
      if from <= leads[i].leadDate <= end {
        var keep := CheckInWindows(leads[i], start, end, kind, cfg);
        if keep { out := out + [leads[i]]; }
      }
    }
    assert leads[..|leads|] == leads;
  }

  // ---- a source's managers together ----

  function Flatten(managers: seq<seq<Lead>>): seq<Lead> {
    if managers == [] then [] else Flatten(managers[..|managers| - 1]) + managers[|managers| - 1]
  }

  lemma {:induction false} ExportedOfConcat(a: seq<Lead>, b: seq<Lead>, start: int, end: int, kind: Kind, cfg: Config)
    ensures Exported(a + b, start, end, kind, cfg)
         == Exported(a, start, end, kind, cfg) + Exported(b, start, end, kind, cfg)
  {
    if b == [] {
      assert a + b == a;
    } else {
      var init := b[..|b| - 1];
      assert (a + b)[..|a + b| - 1] == a + init && (a + b)[|a + b| - 1] == b[|b| - 1];
      ExportedOfConcat(a, init, start, end, kind, cfg);
    }
  }

  // ---- the order of the export ----

  /** By arrival text, then manager, then id. */
  predicate Before(a: Lead, b: Lead) {
    || IsoTime.TextLess(a.seen, b.seen)
    || (a.seen == b.seen && (IsoTime.TextLess(a.manager, b.manager) || (a.manager == b.manager && a.id < b.id)))
  }

  predicate SameKey(a: Lead, b: Lead) { a.seen == b.seen && a.manager == b.manager && a.id == b.id }

  predicate InOrder(leads: seq<Lead>) { forall i, j :: 0 <= i < j < |leads| ==> !Before(leads[j], leads[i]) }

  predicate DistinctKeys(leads: seq<Lead>) {
    forall i, j :: 0 <= i < j < |leads| ==> !SameKey(leads[i], leads[j])
  }

  lemma BeforeIsLinear(a: Lead, b: Lead, c: Lead)
    ensures Before(a, b) ==> !Before(b, a)
    ensures Before(a, b) || Before(b, a) || SameKey(a, b)
    ensures !Before(b, a) && !Before(c, b) ==> !Before(c, a)
  {
    IsoTime.TextOrderIsLinear(c.seen, a.seen, b.seen);
    IsoTime.TextOrderIsLinear(a.seen, b.seen, c.seen);
    IsoTime.TextOrderIsLinear(b.seen, c.seen, a.seen);
    IsoTime.TextOrderIsLinear(c.manager, a.manager, b.manager);
    IsoTime.TextOrderIsLinear(a.manager, b.manager, c.manager);
    IsoTime.TextOrderIsLinear(b.manager, c.manager, a.manager);
  }

  /** `x` placed behind everything that does not come after it. */
  function Placed(leads: seq<Lead>, x: Lead): seq<Lead> {
    if leads != [] && Before(x, leads[|leads| - 1])
    then Placed(leads[..|leads| - 1], x) + [leads[|leads| - 1]] else leads + [x]
  }

  function Sorted(leads: seq<Lead>): seq<Lead> {
    if leads == [] then [] else Placed(Sorted(leads[..|leads| - 1]), leads[|leads| - 1])
  }

  lemma {:induction false} PlacedHolds(leads: seq<Lead>, x: Lead)
    ensures multiset(Placed(leads, x)) == multiset(leads) + multiset{x}
    ensures forall y <- Placed(leads, x) :: y == x || y in leads
  {
    if leads != [] && Before(x, leads[|leads| - 1]) {
      PlacedHolds(leads[..|leads| - 1], x);
      assert leads == leads[..|leads| - 1] + [leads[|leads| - 1]];
    }
  }

  lemma {:induction false} PlacedInOrder(leads: seq<Lead>, x: Lead)
    requires InOrder(leads)
    ensures InOrder(Placed(leads, x))
  {
    if leads == [] {
    } else if Before(x, leads[|leads| - 1]) {
      var (init, last) := (leads[..|leads| - 1], leads[|leads| - 1]);
      PlacedInOrder(init, x);
      PlacedHolds(init, x);
      BeforeIsLinear(x, last, last);
      assert forall y <- Placed(init, x) :: !Before(last, y);
    } else {
      forall i | 0 <= i < |leads| ensures !Before(x, leads[i]) { BeforeIsLinear(leads[i], leads[|leads| - 1], x); }
    }
  }

  lemma {:induction false} SortedInOrder(leads: seq<Lead>)
    ensures InOrder(Sorted(leads)) && multiset(Sorted(leads)) == multiset(leads)
  {
    if leads != [] {
      SortedInOrder(leads[..|leads| - 1]);
      assert leads == leads[..|leads| - 1] + [leads[|leads| - 1]];
      PlacedInOrder(Sorted(leads[..|leads| - 1]), leads[|leads| - 1]);
      PlacedHolds(Sorted(leads[..|leads| - 1]), leads[|leads| - 1]);
    }
  }

  /** The last element is fixed: it is in both, and nothing comes after it in either. */
  lemma SameLast(a: seq<Lead>, b: seq<Lead>)
    requires InOrder(a) && InOrder(b) && multiset(a) == multiset(b) && DistinctKeys(a) && a != []
    ensures b != [] && a[|a| - 1] == b[|b| - 1]
  {
    var x := a[|a| - 1];
    assert x in multiset(b);
    var i :| 0 <= i < |b| && b[i] == x;
    var y := b[|b| - 1];
    assert y in multiset(a);
    var j :| 0 <= j < |a| && a[j] == y;
    BeforeIsLinear(x, y, x);
    assert !Before(x, y) || j == |a| - 1;
  }

  lemma SameFront(a: seq<Lead>, b: seq<Lead>, x: Lead)
    requires multiset(a + [x]) == multiset(b + [x])
    ensures multiset(a) == multiset(b)
  {
    assert multiset(a) == multiset(a + [x]) - multiset{x} && multiset(b) == multiset(b + [x]) - multiset{x};
  }

  /** With distinct keys the order leaves one answer, however it is computed. */
  lemma {:induction false} OrderIsUnique(a: seq<Lead>, b: seq<Lead>)
    requires InOrder(a) && InOrder(b) && multiset(a) == multiset(b) && DistinctKeys(a)
    ensures a == b
    decreases |a|
  {
    if a == [] {
      assert |b| == |multiset(b)| == 0;
    } else {
      SameLast(a, b);
      var (init, front, x) := (a[..|a| - 1], b[..|b| - 1], a[|a| - 1]);
      assert a == init + [x] && b == front + [x];
      SameFront(init, front, x);
      OrderIsUnique(init, front);
    }
  }

  /** The source's export: its managers' exports together, in order. Nothing is lost or added by the sort. */
  method CollectSource(managers: seq<seq<Lead>>, start: int, end: int, kind: Kind, cfg: Config) returns (out: seq<Lead>)
    ensures out == Sorted(Exported(Flatten(managers), start, end, kind, cfg))
    ensures InOrder(out) && multiset(out) == multiset(Exported(Flatten(managers), start, end, kind, cfg))
  {
    out := [];
    for i := 0 to |managers|
      invariant out == Exported(Flatten(managers[..i]), start, end, kind, cfg)
    {
      assert managers[..i + 1][..i] == managers[..i];
      ExportedOfConcat(Flatten(managers[..i]), managers[i], start, end, kind, cfg);
      var leads := WindowedLeads(managers[i], start, end, kind, cfg);
      out := out + leads;
    }
    assert managers[..|managers|] == managers;
    SortedInOrder(out);
    out := Sorted(out);
  }

  // ---- in terms of the clock ----

  /** The minutes of the day a window opens and closes at; eight and seventeen o'clock unless usably configured. */
  predicate OpensAt(cfg: Config, from: int, to: int) {
    if cfg.Minutes? && cfg.dayStart.Some? && cfg.dayEnd.Some? &&
      0 <= cfg.dayStart.value && cfg.dayStart.value < cfg.dayEnd.value && cfg.dayEnd.value < 1440
    then from == cfg.dayStart.value && to == cfg.dayEnd.value
    else from == 8 * 60 && to == 17 * 60
  }

  /**
  An arrival belongs to the day windows if it falls on one of the dates within the hours, and to the
  flight windows if it falls before the hours of one of the dates, or after the hours of the day before one.
  */
  lemma InClockTerms(lead: Lead, start: int, end: int, cfg: Config, from: int, to: int)
    requires lead.at.Some? && OpensAt(cfg, from, to)
    ensures var (date, minute) := (lead.at.value / 86400, lead.at.value % 86400 / 60);
            && (InWindows(lead, start, end, Day, cfg) <==> start <= date <= end && from <= minute < to)
            && (InWindows(lead, start, end, Flight, cfg) <==>
                  (start <= date <= end && minute < from) || (start <= date + 1 <= end && to <= minute))
  {
    var t := lead.at.value;
    var (date, minute) := (t / 86400, t % 86400 / 60);
    assert Bounds(cfg) == (from, to);
    assert t == date * 86400 + t % 86400;
    Split(t % 86400, minute);
    DayWindow(t, date, cfg);
    if start <= date <= end { assert Within(t, Window(date, Day, cfg)) <==> from <= minute < to; }
    if start <= date <= end { assert Within(t, Window(date, Flight, cfg)) <==> minute < from; }
    if start <= date + 1 <= end { assert Within(t, Window(date + 1, Flight, cfg)) <==> to <= minute; }
  }

  lemma Split(second: int, minute: int)
    requires 0 <= second < 86400 && minute == second / 60
    ensures forall m: int :: second < m * 60 <==> minute < m
  {
    assert second == 60 * minute + second % 60;
    forall m: int ensures second < m * 60 <==> minute < m { }
  }

  /** The only windows an instant can be in are those of its date and the next. */
  lemma DayWindow(t: int, date: int, cfg: Config)
    requires date * 86400 <= t < (date + 1) * 86400
    ensures forall d :: Within(t, Window(d, Day, cfg)) ==> d == date
    ensures forall d :: Within(t, Window(d, Flight, cfg)) ==> d == date || d == date + 1
  {
    forall d | Within(t, Window(d, Day, cfg)) ensures d == date { }
    forall d | Within(t, Window(d, Flight, cfg)) ensures d == date || d == date + 1 { }
  }

  /** An export holds a lead exactly if its arrival is in a window and its stored date in range, wider for flights. */
  lemma {:induction false} ExportHolds(leads: seq<Lead>, start: int, end: int, kind: Kind, cfg: Config, lead: Lead)
    ensures lead in Exported(leads, start, end, kind, cfg) <==>
      && lead in leads && InWindows(lead, start, end, kind, cfg)
      && lead.leadDate <= end && (if kind == Flight then start - 1 else start) <= lead.leadDate
  {
    if leads != [] {
      ExportHolds(leads[..|leads| - 1], start, end, kind, cfg, lead);
      assert leads == leads[..|leads| - 1] + [leads[|leads| - 1]];
    }
  }

  /** Reading down an ordered export: arrivals never go back, nor managers within an arrival, nor ids within both. */
  lemma ReadsDown(leads: seq<Lead>, i: nat, j: nat)
    requires InOrder(leads) && i < j < |leads|
    ensures !IsoTime.TextLess(leads[j].seen, leads[i].seen)
    ensures leads[i].seen == leads[j].seen ==> !IsoTime.TextLess(leads[j].manager, leads[i].manager)
    ensures leads[i].seen == leads[j].seen && leads[i].manager == leads[j].manager ==> leads[i].id <= leads[j].id
  {
    assert !Before(leads[j], leads[i]);
  }
}
