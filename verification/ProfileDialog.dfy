/**
The profile dialog: which question to put to a lead next, and the stored list of questions
already sent that keeps it from repeating itself. Intent detection is a parameter.
*/
module ProfileDialog {
  import opened Wrappers
  import opened Text

  // ---- template keys ----

  datatype Key = Key(cat: string, idx: nat)

  function Decimal(n: nat): string {
    if n < 10 then [('0' as int + n) as char] else Decimal(n / 10) + [('0' as int + n % 10) as char]
  }

  /** How a key is stored: the category, a colon, the index. */
  function KeyText(k: Key): string { k.cat + ":" + Decimal(k.idx) }

  lemma {:induction false} DecimalIsNotEmpty(n: nat)
    ensures Decimal(n) != "" && ':' !in Decimal(n)
  {
    if n >= 10 { DecimalIsNotEmpty(n / 10); }
  }

  lemma {:induction false} DecimalsDiffer(m: nat, n: nat)
    requires m < n
    ensures Decimal(m) != Decimal(n)
  {
    if n >= 10 {
      var (a, b) := (Decimal(m), Decimal(n));
      DecimalIsNotEmpty(n / 10);
      assert b[..|b| - 1] == Decimal(n / 10) && b[|b| - 1] == ('0' as int + n % 10) as char;
      if m >= 10 {
        assert a[..|a| - 1] == Decimal(m / 10) && a[|a| - 1] == ('0' as int + m % 10) as char;
        if m / 10 < n / 10 { DecimalsDiffer(m / 10, n / 10); }
      }
    }
  }

  /** A text splits only one way at a colon with none after it. */
  lemma LastColonIsUnique(a: string, x: string, b: string, y: string)
    requires |a| < |b| && ':' !in x
    ensures a + ":" + x != b + ":" + y
  {
    if |a| + |x| == |b| + |y| {
      assert (a + ":" + x)[|b|] == x[|b| - |a| - 1];
      assert (b + ":" + y)[|b|] == ':';
    }
  }

  /** Whatever the categories are called, two stored keys are equal exactly when the keys are. */
  lemma KeyTextIsInjective(a: Key, b: Key)
    ensures KeyText(a) == KeyText(b) <==> a == b
  {
    DecimalIsNotEmpty(a.idx);
    DecimalIsNotEmpty(b.idx);
    if |a.cat| < |b.cat| {
      LastColonIsUnique(a.cat, Decimal(a.idx), b.cat, Decimal(b.idx));
    } else if |b.cat| < |a.cat| {
      LastColonIsUnique(b.cat, Decimal(b.idx), a.cat, Decimal(a.idx));
    } else {
      assert KeyText(a)[..|a.cat|] == a.cat && KeyText(b)[..|b.cat|] == b.cat;
      assert KeyText(a)[|a.cat| + 1..] == Decimal(a.idx) && KeyText(b)[|b.cat| + 1..] == Decimal(b.idx);
      if a.idx < b.idx { DecimalsDiffer(a.idx, b.idx); } else if b.idx < a.idx { DecimalsDiffer(b.idx, a.idx); }
    }
  }

  // ---- choosing ----

  type Templates = map<string, seq<string>>

  /** The variants a category offers: its own, or the general ones when it has none. */
  function Variants(t: Templates, cat: string): seq<string> {
    if cat in t && t[cat] != [] then t[cat]
    else if "general" in t then t["general"] else []
  }

  function Home(t: Templates, category: string): string {
    if category in t then category else "general"
  }

  predicate Fresh(sent: seq<Key>, cat: string, i: nat) { Key(cat, i) !in sent }

  /** The first variant not yet sent; when every one has been, the first. */
  method ChooseTemplate(t: Templates, category: string, sent: seq<Key>) returns (choice: Option<Key>)
    ensures var (cat, n) := (Home(t, category), |Variants(t, Home(t, category))|);
            && (n == 0 <==> choice == None)
            && (n > 0 ==> choice == Some(Key(cat, FirstFresh(sent, cat, n, 0))))
  {
    var cat := Home(t, category);
    var variants := Variants(t, cat);
    if variants == [] { return None; }
    for i := 0 to |variants|
      invariant FirstFresh(sent, cat, |variants|, 0) == FirstFresh(sent, cat, |variants|, i)
    {
      if Fresh(sent, cat, i) { return Some(Key(cat, i)); }
    }
    choice := Some(Key(cat, 0));
  }

  function FirstFresh(sent: seq<Key>, cat: string, n: nat, i: nat): nat
    decreases n - i
  {
    if i >= n then 0 else if Fresh(sent, cat, i) then i else FirstFresh(sent, cat, n, i + 1)
  }

  /** It is in range; it has been sent before only if every variant has, and no earlier one is fresh. */
  lemma {:induction false} FirstFreshIsFirst(sent: seq<Key>, cat: string, n: nat, i: nat)
    requires n > 0
    ensures var f := FirstFresh(sent, cat, n, i);
            && f < n
            && (!Fresh(sent, cat, f) ==> forall j: nat :: i <= j < n ==> !Fresh(sent, cat, j))
            && (Fresh(sent, cat, f) && f >= i ==> forall j: nat :: i <= j < f ==> !Fresh(sent, cat, j))
    decreases n - i
  {
    if i < n && !Fresh(sent, cat, i) { FirstFreshIsFirst(sent, cat, n, i + 1); }
  }

  // ---- the decision ----

  datatype Age = NoAge | Years(n: int) | Illegible
  datatype Lead = Lead(age: Age, country: string, city: string)

  /** A stored row of the dialog table, and a reply decided from it. */
  datatype State = State(sent: seq<Key>, cityAttempts: int, step: int)
  datatype Reply = Reply(key: Option<Key>, text: string, category: string, cityAsk: bool, limitReached: bool)

  const FOLLOWED := {"job_question", "why_question", "bot_question", "salary_question", "privacy_resistance", "later",
    "short_noise"}

  predicate Blank(s: string) { Strip(s) == "" }

  predicate AdultInRussiaWithoutCity(lead: Lead) {
    Strip(lead.country) == "Россия" && lead.age.Years? && lead.age.n >= 18 && Blank(lead.city)
  }

  /** The category to ask from when the city limit does not apply; none when the profile is complete. */
  function Category(lead: Lead, intent: string): Option<string> {
    var noCountry := Blank(lead.country);
    if !lead.age.NoAge? && !noCountry then None
    else if lead.age.NoAge? && (noCountry || Blank(lead.city))
    then Some(if intent in FOLLOWED then intent else "missing_both")
    else if lead.age.NoAge? then Some("missing_age")
    else Some(if intent in FOLLOWED then intent else "missing_geo")
  }

  /**
  Someone is asked exactly while the age or the country is unknown, and never for an age
  that is known; a question of theirs is answered in kind unless only the age is missing.
  */
  lemma AskedForWhatIsMissing(lead: Lead, intent: string)
    ensures var (cat, noAge, noCountry) := (Category(lead, intent), lead.age.NoAge?, Blank(lead.country));
            && (cat.Some? <==> noAge || noCountry)
            && (cat == Some("missing_age") <==> noAge && !noCountry && !Blank(lead.city))
            && (cat == Some("missing_both") ==> noAge) && (cat == Some("missing_geo") ==> !noAge)
            && (cat.Some? && cat != Some("missing_age") && intent in FOLLOWED ==> cat == Some(intent))
  {
  }

  function Chosen(t: Templates, category: string, sent: seq<Key>, cityAsk: bool): Reply {
    var cat := Home(t, category);
    var variants := Variants(t, cat);
    if variants == [] then Reply(None, "", category, cityAsk, false)
    else
      var k := FirstFresh(sent, cat, |variants|, 0);
      FirstFreshIsFirst(sent, cat, |variants|, 0);
      Reply(Some(Key(cat, k)), variants[k], category, cityAsk, false)
  }

  function Decided(t: Templates, st: State, lead: Lead, intent: string): Reply {
    if AdultInRussiaWithoutCity(lead) then
      if st.cityAttempts >= 2 then Reply(None, "", intent, false, true)
      else Chosen(t, if st.cityAttempts <= 0 then "city_only_first" else "city_only_second", st.sent, true)
    else
      var category := Category(lead, intent);
      if category.None? then Reply(None, "", intent, false, false) else Chosen(t, category.value, st.sent, false)
  }

  const KEEP := 80

  function Latest(sent: seq<Key>): seq<Key> { if |sent| > KEEP then sent[|sent| - KEEP..] else sent }

  function Marked(st: State, key: Option<Key>, cityAsk: bool): State {
    var sent := if key.Some? && key.value !in st.sent then st.sent + [key.value] else st.sent;
    State(Latest(sent), st.cityAttempts + (if cityAsk then 1 else 0), st.step + 1)
  }

  /** One chat's row of the dialog table. */
  class DialogRow {
    var sent: seq<Key>
    var cityAttempts: int
    var step: int

    ghost function Stored(): State
      reads this
    {
      State(sent, cityAttempts, step)
    }

    constructor ()
      ensures Stored() == FRESH
    {
      sent, cityAttempts, step := [], 0, 0;
    }

    method Choose(t: Templates, lead: Lead, intent: string) returns (r: Reply)
      ensures r == Decided(t, Stored(), lead, intent)
    {
      var ageMissing, countryMissing, cityMissing := lead.age.NoAge?, Blank(lead.country), Blank(lead.city);
      var cityOnly := AdultInRussiaWithoutCity(lead);
      var category := intent;
      if cityOnly {
        if cityAttempts >= 2 { return Reply(None, "", intent, false, true); }
        category := if cityAttempts <= 0 then "city_only_first" else "city_only_second";
      } else if !ageMissing && !countryMissing {
        return Reply(None, "", intent, false, false);
      } else if ageMissing && (countryMissing || cityMissing) {
        if intent !in FOLLOWED { category := "missing_both"; }
      } else if ageMissing {
        category := "missing_age";
      } else if intent !in FOLLOWED {
        category := "missing_geo";
      }
      var key := ChooseTemplate(t, category, sent);
      FirstFreshBounded(t, category, sent);
      r := Reply(key, if key.Some? then Variants(t, key.value.cat)[key.value.idx] else "", category, cityOnly, false);
    }

    method MarkSent(key: Option<Key>, cityAsk: bool)
      modifies this
      ensures Stored() == Marked(old(Stored()), key, cityAsk)
    {
      var list := sent;
      if key.Some? && key.value !in list { list := list + [key.value]; }
      sent := Latest(list);
      cityAttempts := cityAttempts + if cityAsk then 1 else 0;
      step := step + 1;
    }

    /**
    One incoming message: decide, send if there is a text, and record what was delivered, if the
    record goes through.
    */
    method Round(t: Templates, round: Round) returns (r: Reply)
      modifies this
      ensures r == Decided(t, old(Stored()), round.lead, round.intent)
      ensures Stored() == Next(t, old(Stored()), round)
    {
      r := Choose(t, round.lead, round.intent);
      if r.text != "" && round.delivered && round.marked { MarkSent(r.key, r.cityAsk); }
    }
  }

  lemma FirstFreshBounded(t: Templates, category: string, sent: seq<Key>)
    ensures var (cat, n) := (Home(t, category), |Variants(t, Home(t, category))|);
            n > 0 ==> FirstFresh(sent, cat, n, 0) < n
  {
    var n := |Variants(t, Home(t, category))|;
    if n > 0 { FirstFreshIsFirst(sent, Home(t, category), n, 0); }
  }

  // ---- runs of rounds ----

  /** `delivered` and `marked` say whether Telegram takes the message and the table the record of it. */
  datatype Round = Round(lead: Lead, intent: string, delivered: bool, marked: bool)

  /** A message delivered, and whether it was recorded. */
  datatype Entry = Entry(key: Option<Key>, cityAsk: bool, marked: bool)

  const FRESH := State([], 0, 0)

  predicate Sends(t: Templates, st: State, r: Round) {
    r.delivered && Decided(t, st, r.lead, r.intent).text != ""
  }

  function Next(t: Templates, st: State, r: Round): State {
    var reply := Decided(t, st, r.lead, r.intent);
    if Sends(t, st, r) && r.marked then Marked(st, reply.key, reply.cityAsk) else st
  }

  function After(t: Templates, st: State, rounds: seq<Round>): State
    decreases rounds
  {
    if rounds == [] then st else After(t, Next(t, st, rounds[0]), rounds[1..])
  }

  function Added(t: Templates, st: State, r: Round): seq<Entry> {
    var d := Decided(t, st, r.lead, r.intent);
    if Sends(t, st, r) then [Entry(d.key, d.cityAsk, r.marked)] else []
  }

  /** The messages delivered, in order. */
  function Delivered(t: Templates, st: State, rounds: seq<Round>): seq<Entry>
    decreases rounds
  {
    if rounds == [] then []
    else
      Added(t, st, rounds[0]) + Delivered(t, Next(t, st, rounds[0]), rounds[1..])
  }

  /** The city-only questions delivered, recorded or not as asked. */
  function CityAsks(log: seq<Entry>, marked: bool): nat {
    if log == [] then 0
    else (if log[0].cityAsk && log[0].marked == marked then 1 else 0) + CityAsks(log[1..], marked)
  }

  lemma {:induction false} AsksOfMore(a: seq<Entry>, b: seq<Entry>, marked: bool)
    ensures CityAsks(a + b, marked) == CityAsks(a, marked) + CityAsks(b, marked)
  {
    if a == [] {
      assert a + b == b;
    } else {
      assert (a + b)[1..] == a[1..] + b;
      AsksOfMore(a[1..], b, marked);
    }
  }

  /**
  City-only questions: at most two are ever delivered and recorded, and the counter counts
  exactly these. While every delivery is recorded there are no others.
  */
  lemma {:induction false} AtMostTwoCityAsks(t: Templates, st: State, rounds: seq<Round>)
    ensures var asks := CityAsks(Delivered(t, st, rounds), true);
            && asks <= (if st.cityAttempts >= 2 then 0 else 2 - st.cityAttempts)
            && After(t, st, rounds).cityAttempts == st.cityAttempts + asks
    ensures (forall r <- rounds :: r.marked) ==> CityAsks(Delivered(t, st, rounds), false) == 0
    decreases rounds
  {
    if rounds != [] {
      var (r, rest) := (rounds[0], rounds[1..]);
      AtMostTwoCityAsks(t, Next(t, st, r), rest);
      AsksOfMore(Added(t, st, r), Delivered(t, Next(t, st, r), rest), true);
      AsksOfMore(Added(t, st, r), Delivered(t, Next(t, st, r), rest), false);
      assert r in rounds && forall x <- rest :: x in rounds;
      OneAdded(t, st, r, true);
      OneAdded(t, st, r, false);
    }
  }

  lemma OneAdded(t: Templates, st: State, r: Round, marked: bool)
    ensures CityAsks(Added(t, st, r), marked)
         == if Sends(t, st, r) && Decided(t, st, r.lead, r.intent).cityAsk && r.marked == marked then 1 else 0
  {
    if Sends(t, st, r) { assert |Added(t, st, r)[1..]| == 0; }
  }

  /**
  A delivery leaves the stored row as it was exactly when it is not recorded: the same message is
  then sent again.
  */
  lemma UnrecordedIsRepeated(t: Templates, st: State, r: Round, again: Round)
    requires Sends(t, st, r) && again.lead == r.lead && again.intent == r.intent && again.delivered
    ensures Next(t, st, r) == st <==> !r.marked
    ensures !r.marked ==>
      && Sends(t, Next(t, st, r), again)
      && Decided(t, Next(t, st, r), again.lead, again.intent) == Decided(t, st, r.lead, r.intent)
  {
    if r.marked { assert Next(t, st, r).step == st.step + 1; }
  }

  // ---- no early repeats ----

  /** Every key the templates can produce. */
  function Slots(t: Templates): set<Key> {
    set cat, i | cat in t && 0 <= i < |Variants(t, cat)| :: Key(cat, i)
  }

  ghost predicate NoRepeats(xs: seq<Key>) { forall i, j :: 0 <= i < j < |xs| ==> xs[i] != xs[j] }

  /** The key was delivered and recorded among the first `n` messages. */
  ghost predicate WasMarked(log: seq<Entry>, n: nat, k: Key)
    requires n <= |log|
  {
    exists i :: 0 <= i < n && log[i].key == Some(k) && log[i].marked
  }

  /** A key once recorded is delivered again only when every variant of its category has been recorded. */
  ghost predicate NoEarlyRepeat(t: Templates, log: seq<Entry>) {
    forall j :: 0 <= j < |log| && log[j].key.Some? && WasMarked(log, j, log[j].key.value) ==>
      AllMarked(t, log, j, log[j].key.value.cat)
  }

  ghost predicate AllMarked(t: Templates, log: seq<Entry>, n: nat, cat: string)
    requires n <= |log|
  {
    forall i: nat :: i < |Variants(t, cat)| ==> WasMarked(log, n, Key(cat, i))
  }

  /** The stored list holds what was recorded: all of it, once each. */
  ghost predicate Faithful(t: Templates, st: State, log: seq<Entry>) {
    && NoRepeats(st.sent) && (forall k <- st.sent :: k in Slots(t))
    && (forall x <- log :: x.key.Some?)
    && forall k :: k in st.sent <==> WasMarked(log, |log|, k)
  }

  lemma {:induction false} NoMoreThanTheSet(xs: seq<Key>, s: set<Key>)
    requires NoRepeats(xs) && forall x <- xs :: x in s
    ensures |xs| <= |s|
    decreases xs
  {
    if xs != [] {
      forall x | x in xs[1..] ensures x in s - {xs[0]} {
        var i :| 0 <= i < |xs[1..]| && xs[1..][i] == x;
        assert xs[i + 1] == x;
      }
      NoMoreThanTheSet(xs[1..], s - {xs[0]});
    }
  }

  lemma LogGrows(log: seq<Entry>, x: Entry, n: nat, k: Key)
    requires n <= |log|
    ensures WasMarked(log + [x], n, k) == WasMarked(log, n, k)
    ensures WasMarked(log + [x], |log| + 1, k) == (WasMarked(log, |log|, k) || (x.key == Some(k) && x.marked))
  {
    var longer := log + [x];
    assert forall i :: 0 <= i < |log| ==> longer[i] == log[i];
    assert longer[|log|] == x;
  }

  /** The stored list stays faithful: it takes in the key of a recorded delivery, and is never cut. */
  lemma DeliveryKeepsList(t: Templates, st: State, log: seq<Entry>, r: Round)
    requires |Slots(t)| <= KEEP && Faithful(t, st, log) && Sends(t, st, r)
    ensures Faithful(t, Next(t, st, r), log + Added(t, st, r))
  {
    var d := Decided(t, st, r.lead, r.intent);
    var (k, x) := (d.key.value, Entry(d.key, d.cityAsk, r.marked));
    ChosenIsASlot(t, st, r);
    var sent := if k in st.sent || !r.marked then st.sent else st.sent + [k];
    assert NoRepeats(sent);
    NoMoreThanTheSet(sent, Slots(t));
    assert Next(t, st, r).sent == sent;
    forall k' ensures k' in sent <==> WasMarked(log + [x], |log| + 1, k') { LogGrows(log, x, |log|, k'); }
  }

  /** The log stays free of early repeats. */
  lemma DeliveryKeepsOrder(t: Templates, st: State, log: seq<Entry>, r: Round)
    requires Faithful(t, st, log) && NoEarlyRepeat(t, log) && Sends(t, st, r)
    ensures NoEarlyRepeat(t, log + Added(t, st, r))
  {
    var d := Decided(t, st, r.lead, r.intent);
    var x := Entry(d.key, d.cityAsk, r.marked);
    var longer := log + [x];
    ChosenIsASlot(t, st, r);
    forall j | 0 <= j <= |log| && longer[j].key.Some? && WasMarked(longer, j, longer[j].key.value)
      ensures AllMarked(t, longer, j, longer[j].key.value.cat)
    {
      var k' := longer[j].key.value;
      LogGrows(log, x, j, k');
      forall i: nat | i < |Variants(t, k'.cat)| ensures WasMarked(longer, j, Key(k'.cat, i)) {
        LogGrows(log, x, j, Key(k'.cat, i));
        if j < |log| {
          assert log[j].key.value == k' && AllMarked(t, log, j, k'.cat);
        } else {
          assert !Fresh(st.sent, k'.cat, i);
        }
      }
    }
  }

  /** A reply that is sent has a key; it is stale only when its whole category is. */
  lemma ChosenIsASlot(t: Templates, st: State, r: Round)
    requires Sends(t, st, r)
    ensures var d := Decided(t, st, r.lead, r.intent);
            && d.key.Some? && d.key.value in Slots(t)
            && (d.key.value in st.sent ==>
                  forall i: nat :: i < |Variants(t, d.key.value.cat)| ==> !Fresh(st.sent, d.key.value.cat, i))
  {
    var d := Decided(t, st, r.lead, r.intent);
    var cat := Home(t, d.category);
    FirstFreshIsFirst(st.sent, cat, |Variants(t, cat)|, 0);
  }

  ghost predicate Kept(t: Templates, st: State, log: seq<Entry>) {
    |Slots(t)| <= KEEP && Faithful(t, st, log) && NoEarlyRepeat(t, log)
  }

  lemma RoundKeeps(t: Templates, st: State, log: seq<Entry>, r: Round)
    requires Kept(t, st, log)
    ensures Kept(t, Next(t, st, r), log + Added(t, st, r))
  {
    if Sends(t, st, r) {
      DeliveryKeepsList(t, st, log, r);
      DeliveryKeepsOrder(t, st, log, r);
    } else {
      assert log + [] == log;
    }
  }

  ghost predicate RoundPreserves(t: Templates, inv: (State, seq<Entry>) -> bool, st: State, log: seq<Entry>, r: Round) {
    inv(st, log) ==> inv(Next(t, st, r), log + Added(t, st, r))
  }

  /** What every round keeps, every run keeps. */
  lemma {:induction false} RunInduction(t: Templates, inv: (State, seq<Entry>) -> bool, st: State, log: seq<Entry>,
          rounds: seq<Round>)
    requires forall s, l, r :: RoundPreserves(t, inv, s, l, r)
    requires inv(st, log)
    ensures inv(After(t, st, rounds), log + Delivered(t, st, rounds))
    decreases rounds
  {
    if rounds == [] {
      assert log + [] == log;
    } else {
      var (r, rest) := (rounds[0], rounds[1..]);
      assert RoundPreserves(t, inv, st, log, r);
      RunInduction(t, inv, Next(t, st, r), log + Added(t, st, r), rest);
      assert log + Added(t, st, r) + Delivered(t, Next(t, st, r), rest) == log + Delivered(t, st, rounds);
    }
  }

  /**
  From a fresh row, with at most eighty keys in all: the stored list never repeats, is never
  cut, and holds exactly what was delivered and recorded; no template once recorded comes
  back before its category is used up.
  */
  lemma NothingComesBackEarly(t: Templates, rounds: seq<Round>)
    requires |Slots(t)| <= KEEP
    ensures Faithful(t, After(t, FRESH, rounds), Delivered(t, FRESH, rounds))
    ensures NoEarlyRepeat(t, Delivered(t, FRESH, rounds))
  {
    var kept := (s, l) => Kept(t, s, l);
    forall s, l, r ensures RoundPreserves(t, kept, s, l, r) {
      if Kept(t, s, l) { RoundKeeps(t, s, l, r); }
    }
    RunInduction(t, kept, FRESH, [], rounds);
    assert [] + Delivered(t, FRESH, rounds) == Delivered(t, FRESH, rounds);
  }

  /** With no category empty, a key names one template of its own category. */
  lemma KeysNameTemplates(t: Templates, st: State, r: Round)
    requires Sends(t, st, r) && forall cat <- t :: t[cat] != []
    ensures var d := Decided(t, st, r.lead, r.intent);
            && d.key.Some? && d.key.value.cat in t && d.key.value.idx < |t[d.key.value.cat]|
            && d.text == t[d.key.value.cat][d.key.value.idx]
  {
    ChosenIsASlot(t, st, r);
  }

  // ---- the decision in words ----

  /** An adult in Russia whose city is not known. */
  predicate OnlyCityMissing(lead: Lead) {
    && lead.age.Years? && lead.age.n >= 18 && Strip(lead.country) == "Россия"
    && Strip(lead.city) == ""
  }

  /** The category a reply is taken from; none when nothing is to be asked. */
  function AskedFrom(st: State, lead: Lead, intent: string): Option<string> {
    var (noAge, noCountry) := (lead.age == NoAge, Strip(lead.country) == "");
    var own := ["job_question", "why_question", "bot_question", "salary_question", "privacy_resistance", "later",
                "short_noise"];
    if OnlyCityMissing(lead) then
      if st.cityAttempts < 1 then Some("city_only_first")
      else if st.cityAttempts < 2 then Some("city_only_second") else None
    else if noAge && !noCountry && Strip(lead.city) != "" then Some("missing_age")
    else if !noAge && !noCountry then None
    else if intent in own then Some(intent)
    else Some(if noAge then "missing_both" else "missing_geo")
  }

  /**
  Every decision: silence when nothing is missing or the city was asked for twice, and only the latter
  is marked as the limit; otherwise a template of the category asked from, the city question counted as one.
  */
  lemma DecidedInWords(t: Templates, st: State, lead: Lead, intent: string)
    ensures var (r, asked) := (Decided(t, st, lead, intent), AskedFrom(st, lead, intent));
            && (r.limitReached <==> OnlyCityMissing(lead) && st.cityAttempts >= 2)
            && (asked.None? ==> r.text == "" && r.key == None && !r.cityAsk)
            && (asked.Some? ==> r.category == asked.value && (r.cityAsk <==> OnlyCityMissing(lead)))
            && (r.key.Some? ==> asked.Some? && r.key.value.cat == (if asked.value in t then asked.value else "general"))
            && (asked.Some? && r.key.None? ==> r.text == "")
  {
    var own := ["job_question", "why_question", "bot_question", "salary_question", "privacy_resistance", "later",
                "short_noise"];
    assert intent in own <==> intent in FOLLOWED by {
      assert own[0] in own && own[1] in own && own[2] in own && own[3] in own && own[4] in own && own[5] in own &&
        own[6] in own;
    }
  }

  /** A category without templates, or unknown, speaks with the general ones. */
  lemma GeneralTemplatesStandIn(t: Templates, st: State, lead: Lead, intent: string)
    requires AskedFrom(st, lead, intent).Some?
    ensures var (r, cat) := (Decided(t, st, lead, intent), AskedFrom(st, lead, intent).value);
            var texts := if cat in t && t[cat] != [] then t[cat] else if "general" in t then t["general"] else [];
            && (r.text != "" ==> r.text in texts)
            && (texts == [] ==> r.key == None && r.text == "")
            && (texts != [] ==> r.key.Some? && r.key.value.idx < |texts| && r.text == texts[r.key.value.idx])
  {
    DecidedInWords(t, st, lead, intent);
    var cat := AskedFrom(st, lead, intent).value;
    if Variants(t, Home(t, cat)) != [] { FirstFreshIsFirst(st.sent, Home(t, cat), |Variants(t, Home(t, cat))|, 0); }
  }

  /** A record puts a new key last, drops nothing but the oldest beyond eighty, and advances the counters by one. */
  lemma RecordKeepsTheLatest(st: State, key: Option<Key>, cityAsk: bool)
    ensures var (m, all) := (Marked(st, key, cityAsk),
      if key.Some? && key.value !in st.sent then st.sent + [key.value] else st.sent);
            && |m.sent| == (if |all| < 80 then |all| else 80)
            && (forall i :: 0 <= i < |m.sent| ==> m.sent[i] == all[|all| - |m.sent| + i])
            && m.step == st.step + 1 && m.cityAttempts == (if cityAsk then st.cityAttempts + 1 else st.cityAttempts)
  {
  }

  /** The first record of a fresh row: one key, one step, one city question if it was one. */
  lemma FirstRecord(key: Key, cityAsk: bool)
    ensures Marked(FRESH, Some(key), cityAsk) == State([key], if cityAsk then 1 else 0, 1)
  {
    assert [] + [key] == [key] && |[key]| == 1;
  }
}
