/**
Geo hints from a message: phrases of three, two and one tokens are looked up in fixed
tables, longer phrases first, and the first match to supply a field keeps it. A burst of
messages is analysed as one text, then gaps are filled from each message on its own.
The tables are parameters, so every result holds whatever the lexicon contains.
*/
module GeoLexicon {
  import opened Wrappers
  import Text

  datatype Class = LiquidRu | NonLiquid | UaGeo

  datatype RegionAlias = RegionAlias(geoClass: Class, country: Option<string>, region: Option<string>)
  datatype CityAlias = CityAlias(lookup: string, candidate: bool)

  datatype Lexicon = Lexicon(
    regionAliases: map<string, RegionAlias>,
    cityAliases: map<string, CityAlias>,
    ua: set<string>,
    ru: map<string, (string, string)>,        // canonical name, region
    popular: map<string, (string, string)>,   // city, country
    countries: map<string, string>,
    noise: set<string>)

  // ---- tokens ----

  const PUNCTUATION := {',', '.', '!', '?', ';', ':', '«', '»', '"', '\'', '(', ')', '[', ']', '{', '}', '—', '-'}

  /** Lower case over Latin and Cyrillic, ё as е, punctuation as space. */
  function Folded(c: char): char {
    if c in PUNCTUATION then ' '
    else if c == 'ё' || c == 'Ё' then 'е'
    else if 'A' <= c <= 'Z' || 'А' <= c <= 'Я' then c + 32 as char
    else c
  }

  function Fold(s: string): string {
    if s == "" then "" else [Folded(s[0])] + Fold(s[1..])
  }

  function Cut(word: string): seq<string> { if word == "" then [] else [word] }

  /** The words of `s`, `word` being the letters already read of the first one. */
  function Words(word: string, s: string): seq<string>
    decreases s
  {
    if s == "" then Cut(word)
    else if Text.Space(s[0]) then Cut(word) + Words("", s[1..])
    else Words(word + [s[0]], s[1..])
  }

  function Tokens(text: string): seq<string> { Words("", Fold(text)) }

  lemma {:induction false} WordsOfJoined(word: string, a: string, b: string)
    ensures Words(word, a + " " + b) == Words(word, a) + Words("", b)
    decreases a
  {
    if a == "" {
      assert (a + " " + b)[1..] == b;
    } else {
      assert (a + " " + b)[1..] == a[1..] + " " + b;
      WordsOfJoined(if Text.Space(a[0]) then "" else word + [a[0]], a[1..], b);
    }
  }

  lemma {:induction false} FoldOfJoined(a: string, b: string)
    ensures Fold(a + b) == Fold(a) + Fold(b)
  {
    if a == "" {
      assert a + b == b;
    } else {
      assert (a + b)[1..] == a[1..] + b;
      FoldOfJoined(a[1..], b);
    }
  }

  lemma TokensOfJoined(a: string, b: string)
    ensures Tokens(a + " " + b) == Tokens(a) + Tokens(b)
  {
    FoldOfJoined(a + " ", b);
    FoldOfJoined(a, " ");
    assert Fold(" ") == " " by { assert Fold("") == "" && " "[1..] == ""; }
    WordsOfJoined("", Fold(a), Fold(b));
  }

  // ---- single tokens that are not looked up ----

  const SUPERSCRIPTS := {'\U{00B2}', '\U{00B3}', '\U{00B9}'}

  /** str.isdigit(): decimal digits, and superscripts too. */
  predicate DigitsOnly(tok: string) {
    tok != "" && forall c <- tok :: '0' <= c <= '9' || c in SUPERSCRIPTS
  }

  /** int() refuses a superscript, and a number of more than 4300 digits. */
  predicate Unparsable(tok: string) {
    (exists c <- tok :: c in SUPERSCRIPTS) || |tok| > 4300
  }

  /** The age test calls int() on whatever isdigit() admits, so such a token raises. */
  predicate Poison(tok: string) { DigitsOnly(tok) && Unparsable(tok) }

  function Number(tok: string): nat {
    if tok == "" || !('0' <= tok[|tok| - 1] <= '9') then 0
    else 10 * Number(tok[..|tok| - 1]) + (tok[|tok| - 1] as int - '0' as int)
  }

  predicate Skipped(lex: Lexicon, tok: string) {
    (DigitsOnly(tok) && !Unparsable(tok) && 14 <= Number(tok) <= 90) || tok in lex.noise || |tok| < 2
  }

  // ---- one phrase ----

  datatype Source = Alias | UaLocations | RuLocations | NlPopular | NlCountries

  /** What a matched phrase supplies. */
  datatype Hit = Hit(geoClass: Class, country: Option<string>, region: Option<string>, city: Option<string>,
                     candidate: Option<string>, source: Source)

  predicate StartsWithDigit(s: string) { s != "" && ('0' <= s[0] <= '9' || s[0] in SUPERSCRIPTS) }

  /** A Russian entry that is usable and not a better-known place abroad. */
  predicate RuUsable(lex: Lexicon, phrase: string) {
    && phrase in lex.ru
    && |lex.ru[phrase].0| > 1 && !StartsWithDigit(lex.ru[phrase].0)
    && !(phrase in lex.popular && lex.popular[phrase].1 !in {"Россия", "Russia", "РФ"})
  }

  function ClassOfCountry(country: string): Class {
    if country == "Украина" then UaGeo else NonLiquid
  }

  /** The sources in order: aliases, the Ukrainian set, Russia, places, countries. */
  function Find(lex: Lexicon, phrase: string): Option<Hit> {
    if phrase in lex.regionAliases then
      var a := lex.regionAliases[phrase];
      Some(Hit(a.geoClass, a.country, a.region, None, None, Alias))
    else if phrase in lex.cityAliases && lex.cityAliases[phrase].lookup in lex.ru then
      var (canonical, region) := lex.ru[lex.cityAliases[phrase].lookup];
      Some(if lex.cityAliases[phrase].candidate
           then Hit(LiquidRu, Some("Россия"), None, None, Some(canonical), Alias)
           else Hit(LiquidRu, Some("Россия"), Some(region), Some(canonical), None, Alias))
    else if phrase in lex.ua then Some(Hit(UaGeo, Some("Украина"), None, None, None, UaLocations))
    else if RuUsable(lex, phrase) then
      var (canonical, region) := lex.ru[phrase];
      Some(Hit(LiquidRu, Some("Россия"), Some(region), Some(canonical), None, RuLocations))
    else if phrase in lex.popular then
      var (city, country) := lex.popular[phrase];
      Some(Hit(ClassOfCountry(country), Some(country), None, Some(city), None, NlPopular))
    else if phrase in lex.countries then
      Some(Hit(ClassOfCountry(lex.countries[phrase]), Some(lex.countries[phrase]), None, None, None, NlCountries))
    else None
  }

  // ---- the passes ----

  datatype Match = Match(start: nat, width: nat)

  function Phrase(toks: seq<string>, i: nat, w: nat): string
    requires 1 <= w && i + w <= |toks|
    decreases w
  {
    if w == 1 then toks[i] else toks[i] + " " + Phrase(toks, i + 1, w - 1)
  }

  predicate Hits(lex: Lexicon, toks: seq<string>, i: nat, w: nat)
    requires 1 <= w && i + w <= |toks|
  {
    Find(lex, Phrase(toks, i, w)).Some? && (w == 1 ==> !Skipped(lex, toks[i]))
  }

  function Span(i: nat, w: nat): (span: set<nat>)
    ensures forall k: nat :: k in span <==> i <= k < i + w
    decreases w
  {
    if w == 0 then {} else {i} + Span(i + 1, w - 1)
  }

  /** One pass at one width from position `i`, given the positions consumed so far. */
  function Pass(lex: Lexicon, toks: seq<string>, w: nat, consumed: set<nat>, i: nat): seq<Match>
    requires 1 <= w
    decreases |toks| - i
  {
    if i + w > |toks| then []
    else if Span(i, w) !! consumed && Hits(lex, toks, i, w)
    then [Match(i, w)] + Pass(lex, toks, w, consumed + Span(i, w), i + 1)
    else Pass(lex, toks, w, consumed, i + 1)
  }

  function Cover(ms: seq<Match>): set<nat> {
    if ms == [] then {} else Span(ms[0].start, ms[0].width) + Cover(ms[1..])
  }

  function Trigrams(lex: Lexicon, toks: seq<string>): seq<Match> { Pass(lex, toks, 3, {}, 0) }
  function Bigrams(lex: Lexicon, toks: seq<string>): seq<Match> { Pass(lex, toks, 2, Cover(Trigrams(lex, toks)), 0) }
  function Consumed(lex: Lexicon, toks: seq<string>): set<nat> {
    Cover(Trigrams(lex, toks)) + Cover(Bigrams(lex, toks))
  }
  function Singles(lex: Lexicon, toks: seq<string>): seq<Match> { Pass(lex, toks, 1, Consumed(lex, toks), 0) }

  function Matches(lex: Lexicon, toks: seq<string>): seq<Match> {
    Trigrams(lex, toks) + Bigrams(lex, toks) + Singles(lex, toks)
  }

  /** The single-token pass looks at every token no longer phrase consumed, and raises on a poisonous one. */
  predicate Raises(lex: Lexicon, toks: seq<string>) {
    exists i: nat :: i < |toks| && i !in Consumed(lex, toks) && Poison(toks[i])
  }

  // ---- what a message yields ----

  datatype Hints = Hints(geoClass: Option<Class>, country: Option<string>, region: Option<string>, city: Option<string>,
                         terms: seq<string>, candidates: seq<string>, source: Option<Source>)

  const UNKNOWN := Hints(None, None, None, None, [], [], None)

  function Or<T>(a: Option<T>, b: Option<T>): Option<T> { if a.Some? then a else b }

  /** Fields already present are kept. */
  function Added(h: Hints, phrase: string, hit: Hit): Hints {
    Hints(Or(h.geoClass, Some(hit.geoClass)), Or(h.country, hit.country), Or(h.region, hit.region),
          Or(h.city, hit.city),
          h.terms + [phrase], h.candidates + (if hit.candidate.Some? then [hit.candidate.value] else []),
          Or(h.source, Some(hit.source)))
  }

  datatype Confidence = Low | Medium | High
  {
    function Rank(): nat { match this case Low => 0 case Medium => 1 case High => 2 }
  }

  /** Present, and not an empty text. */
  predicate Given(field: Option<string>) { field.Some? && field.value != "" }

  function ConfidenceOf(h: Hints): Confidence {
    if h.geoClass.None? then Low
    else if Given(h.city) && (Given(h.country) || Given(h.region)) then High
    else if Given(h.city) || (Given(h.region) && h.geoClass == Some(LiquidRu)) then Medium
    else Low
  }

  ghost predicate Real(lex: Lexicon, toks: seq<string>, ms: seq<Match>) {
    forall m <- ms :: 1 <= m.width && m.start + m.width <= |toks| && Hits(lex, toks, m.start, m.width)
  }

  function HitOf(lex: Lexicon, toks: seq<string>, m: Match): Hit
    requires 1 <= m.width && m.start + m.width <= |toks| && Hits(lex, toks, m.start, m.width)
  {
    Find(lex, Phrase(toks, m.start, m.width)).value
  }

  ghost function Gathered(lex: Lexicon, toks: seq<string>, ms: seq<Match>): Hints
    requires Real(lex, toks, ms)
  {
    if ms == [] then UNKNOWN
    else
      var last := ms[|ms| - 1];
      assert Real(lex, toks, ms[..|ms| - 1]);
      Added(Gathered(lex, toks, ms[..|ms| - 1]), Phrase(toks, last.start, last.width), HitOf(lex, toks, last))
  }

  lemma {:induction false} PassIsReal(lex: Lexicon, toks: seq<string>, w: nat, consumed: set<nat>, i: nat)
    requires 1 <= w
    ensures Real(lex, toks, Pass(lex, toks, w, consumed, i))
    ensures forall m <- Pass(lex, toks, w, consumed, i) :: m.width == w && i <= m.start && Span(m.start, w) !! consumed
    decreases |toks| - i
  {
    if i + w <= |toks| {
      PassIsReal(lex, toks, w, consumed, i + 1);
      PassIsReal(lex, toks, w, consumed + Span(i, w), i + 1);
    }
  }

  lemma MatchesAreReal(lex: Lexicon, toks: seq<string>)
    ensures Real(lex, toks, Matches(lex, toks))
  {
    PassIsReal(lex, toks, 3, {}, 0);
    PassIsReal(lex, toks, 2, Cover(Trigrams(lex, toks)), 0);
    PassIsReal(lex, toks, 1, Consumed(lex, toks), 0);
  }

  /** The whole analysis; an exception anywhere yields `unknown` with nothing else. */
  ghost function Analysed(lex: Lexicon, toks: seq<string>): Hints {
    MatchesAreReal(lex, toks);
    if Raises(lex, toks) then UNKNOWN else Gathered(lex, toks, Matches(lex, toks))
  }

  // ---- what the passes match ----

  predicate Apart(a: Match, b: Match) {
    Span(a.start, a.width) !! Span(b.start, b.width)
  }

  lemma {:induction false} CoverHolds(ms: seq<Match>, k: nat)
    ensures k in Cover(ms) <==> exists m <- ms :: k in Span(m.start, m.width)
  {
    if ms != [] { CoverHolds(ms[1..], k); }
  }

  lemma CoveredApart(ms: seq<Match>, b: Match)
    requires Span(b.start, b.width) !! Cover(ms)
    ensures forall a <- ms :: Apart(a, b)
  {
    forall a, k | a in ms && k in Span(b.start, b.width) ensures k !in Span(a.start, a.width) { CoverHolds(ms, k); }
  }

  ghost predicate AllApart(ms: seq<Match>) {
    forall x, y :: 0 <= x < y < |ms| ==> Apart(ms[x], ms[y])
  }

  lemma ApartTogether(a: seq<Match>, b: seq<Match>)
    requires AllApart(a) && AllApart(b) && forall x, y | x in a && y in b :: Apart(x, y)
    ensures AllApart(a + b)
  {
    var ms := a + b;
    forall x, y | 0 <= x < y < |ms| ensures Apart(ms[x], ms[y]) {
      if x < |a| <= y { assert ms[x] in a && ms[y] in b; }
    }
  }

  lemma {:induction false} PassIsApart(lex: Lexicon, toks: seq<string>, w: nat, consumed: set<nat>, i: nat)
    requires 1 <= w
    ensures AllApart(Pass(lex, toks, w, consumed, i))
    decreases |toks| - i
  {
    if i + w <= |toks| {
      if Span(i, w) !! consumed && Hits(lex, toks, i, w) {
        var rest := Pass(lex, toks, w, consumed + Span(i, w), i + 1);
        PassIsApart(lex, toks, w, consumed + Span(i, w), i + 1);
        PassIsReal(lex, toks, w, consumed + Span(i, w), i + 1);
        assert forall m <- rest :: Apart(Match(i, w), m);
        ApartTogether([Match(i, w)], rest);
      } else {
        PassIsApart(lex, toks, w, consumed, i + 1);
      }
    }
  }

  /** A phrase at or past `i` left untouched by the pass and by what came before it does not match. */
  lemma {:induction false} PassIsMaximal(lex: Lexicon, toks: seq<string>, w: nat, consumed: set<nat>, i: nat, j: nat)
    requires 1 <= w && i <= j && j + w <= |toks|
    requires Span(j, w) !! consumed && Span(j, w) !! Cover(Pass(lex, toks, w, consumed, i))
    ensures !Hits(lex, toks, j, w)
    decreases |toks| - i
  {
    if Span(i, w) !! consumed && Hits(lex, toks, i, w) {
      assert Pass(lex, toks, w, consumed, i)[1..] == Pass(lex, toks, w, consumed + Span(i, w), i + 1);
      if i < j { PassIsMaximal(lex, toks, w, consumed + Span(i, w), i + 1, j); }
    } else if i < j {
      PassIsMaximal(lex, toks, w, consumed, i + 1, j);
    }
  }

  /** No token belongs to two matches. */
  lemma MatchesAreDisjoint(lex: Lexicon, toks: seq<string>)
    ensures AllApart(Matches(lex, toks))
  {
    var (t, b, s) := (Trigrams(lex, toks), Bigrams(lex, toks), Singles(lex, toks));
    PassIsApart(lex, toks, 3, {}, 0);
    PassIsApart(lex, toks, 2, Cover(t), 0);
    PassIsApart(lex, toks, 1, Consumed(lex, toks), 0);
    PassIsReal(lex, toks, 2, Cover(t), 0);
    PassIsReal(lex, toks, 1, Consumed(lex, toks), 0);
    forall m | m in b ensures forall a <- t :: Apart(a, m) { CoveredApart(t, m); }
    forall m | m in s ensures (forall a <- t :: Apart(a, m)) && (forall a <- b :: Apart(a, m)) {
      CoveredApart(t, m);
      CoveredApart(b, m);
    }
    ApartTogether(t, b);
    ApartTogether(t + b, s);
  }

  /**
  Longest first, and nothing missed: every trigram free of trigram matches fails to match,
  so does every bigram free of longer matches, and every single token free of both.
  */
  lemma NothingMissed(lex: Lexicon, toks: seq<string>, j: nat)
    ensures j + 3 <= |toks| && Span(j, 3) !! Cover(Trigrams(lex, toks)) ==> !Hits(lex, toks, j, 3)
    ensures j + 2 <= |toks| && Span(j, 2) !! Consumed(lex, toks) ==> !Hits(lex, toks, j, 2)
    ensures j < |toks| && j !in Consumed(lex, toks) && j !in Cover(Singles(lex, toks)) ==> !Hits(lex, toks, j, 1)
  {
    if j + 3 <= |toks| && Span(j, 3) !! Cover(Trigrams(lex, toks)) { PassIsMaximal(lex, toks, 3, {}, 0, j); }
    if j + 2 <= |toks| && Span(j, 2) !! Consumed(lex, toks) {
      PassIsMaximal(lex, toks, 2, Cover(Trigrams(lex, toks)), 0, j);
    }
    if j < |toks| && j !in Consumed(lex, toks) && j !in Cover(Singles(lex, toks)) {
      PassIsMaximal(lex, toks, 1, Consumed(lex, toks), 0, j);
    }
  }

  // ---- which match a field comes from ----

  /** The first match, in pass order, that supplies a field. */
  ghost function FirstSupplied<T>(lex: Lexicon, toks: seq<string>, ms: seq<Match>, field: Hit -> Option<T>): Option<T>
    requires Real(lex, toks, ms)
  {
    if ms == [] then None
    else Or(field(HitOf(lex, toks, ms[0])), FirstSupplied(lex, toks, ms[1..], field))
  }

  lemma {:induction false} SuppliedLast<T>(lex: Lexicon, toks: seq<string>, ms: seq<Match>, last: Match,
          field: Hit -> Option<T>)
    requires Real(lex, toks, ms + [last])
    ensures Real(lex, toks, ms) && last in ms + [last]
    ensures FirstSupplied(lex, toks, ms + [last], field)
         == Or(FirstSupplied(lex, toks, ms, field), field(HitOf(lex, toks, last)))
    decreases ms
  {
    assert (ms + [last])[|ms|] == last;
    assert forall m <- ms :: m in ms + [last];
    if ms == [] {
      assert (ms + [last])[1..] == [];
    } else {
      assert (ms + [last])[1..] == ms[1..] + [last] && (ms + [last])[0] == ms[0];
      SuppliedLast(lex, toks, ms[1..], last, field);
    }
  }

  /** The class is set exactly when something matched, and each field keeps its first supplier. */
  lemma {:induction false} FieldsComeFirst(lex: Lexicon, toks: seq<string>, ms: seq<Match>)
    requires Real(lex, toks, ms)
    ensures var h := Gathered(lex, toks, ms);
            && (h.geoClass.Some? <==> ms != [])
            && h.geoClass == FirstSupplied(lex, toks, ms, (x: Hit) => Some(x.geoClass))
            && h.country == FirstSupplied(lex, toks, ms, (x: Hit) => x.country)
            && h.region == FirstSupplied(lex, toks, ms, (x: Hit) => x.region)
            && h.city == FirstSupplied(lex, toks, ms, (x: Hit) => x.city)
            && |h.terms| == |ms|
            && forall i :: 0 <= i < |ms| ==> h.terms[i] == Phrase(toks, ms[i].start, ms[i].width)
  {
    if ms != [] {
      var (init, last) := (ms[..|ms| - 1], ms[|ms| - 1]);
      assert Real(lex, toks, init);
      assert init + [last] == ms;
      FieldsComeFirst(lex, toks, init);
      SuppliedLast(lex, toks, init, last, (x: Hit) => Some(x.geoClass));
      SuppliedLast(lex, toks, init, last, (x: Hit) => x.country);
      SuppliedLast(lex, toks, init, last, (x: Hit) => x.region);
      SuppliedLast(lex, toks, init, last, (x: Hit) => x.city);
    }
  }

  // ---- fields that belong together ----

  /** As the alias table is: each entry names its country, and Ukraine and Russia have their own classes. */
  predicate AliasesNameCountries(lex: Lexicon) {
    forall k <- lex.regionAliases ::
      var a := lex.regionAliases[k];
      && a.country.Some?
      && (a.geoClass == UaGeo <==> a.country.value == "Украина")
      && (a.geoClass == LiquidRu ==> a.country.value == "Россия")
  }

  predicate ClassFitsCountry(geoClass: Option<Class>, country: Option<string>) {
    && (geoClass.Some? <==> country.Some?)
    && (geoClass == Some(UaGeo) <==> country == Some("Украина"))
    && (geoClass == Some(LiquidRu) ==> country == Some("Россия"))
  }

  lemma HitFits(lex: Lexicon, phrase: string)
    requires AliasesNameCountries(lex) && Find(lex, phrase).Some?
    ensures var hit := Find(lex, phrase).value; hit.country.Some? && ClassFitsCountry(Some(hit.geoClass), hit.country)
  {
    assert "Россия"[0] == 'Р' && "Украина"[0] == 'У';
  }

  /**
  However many places a message names, its class and its country come from the same match,
  the first one, and fit each other. A message is of the Ukrainian class exactly when its
  country is Ukraine.
  */
  lemma ClassAndCountryComeTogether(lex: Lexicon, toks: seq<string>)
    requires AliasesNameCountries(lex)
    ensures var h := Analysed(lex, toks); ClassFitsCountry(h.geoClass, h.country)
  {
    if !Raises(lex, toks) {
      MatchesAreReal(lex, toks);
      var ms := Matches(lex, toks);
      FieldsComeFirst(lex, toks, ms);
      if ms != [] {
        assert ms[0] in ms;
        HitFits(lex, Phrase(toks, ms[0].start, ms[0].width));
      }
    }
  }

  /**
  A field that only some matches supply agrees with the first match exactly when the first
  match supplies it or none does. So beside the class and country of the first match there
  stands the city, and the region, of that match or of a later place, wherever that lies.
  */
  lemma {:induction false} SuppliedByFirst<T>(lex: Lexicon, toks: seq<string>, ms: seq<Match>, field: Hit -> Option<T>)
    requires Real(lex, toks, ms) && ms != []
    ensures FirstSupplied(lex, toks, ms, field) == field(HitOf(lex, toks, ms[0]))
       <==> field(HitOf(lex, toks, ms[0])).Some? || NoneSupplies(lex, toks, ms, field)
  {
    LaterSupplier(lex, toks, ms[1..], field);
    assert forall m <- ms :: m == ms[0] || m in ms[1..];
    assert ms[0] in ms && forall m <- ms[1..] :: m in ms;
  }

  ghost predicate NoneSupplies<T>(lex: Lexicon, toks: seq<string>, ms: seq<Match>, field: Hit -> Option<T>)
    requires Real(lex, toks, ms)
  {
    forall m <- ms :: field(HitOf(lex, toks, m)).None?
  }

  lemma {:induction false} LaterSupplier<T>(lex: Lexicon, toks: seq<string>, ms: seq<Match>, field: Hit -> Option<T>)
    requires Real(lex, toks, ms)
    ensures FirstSupplied(lex, toks, ms, field).None? <==> NoneSupplies(lex, toks, ms, field)
  {
    if ms != [] {
      LaterSupplier(lex, toks, ms[1..], field);
      assert forall m <- ms :: m == ms[0] || m in ms[1..];
      assert ms[0] in ms && forall m <- ms[1..] :: m in ms;
    }
  }

  lemma CityFollowsFirstMatch(lex: Lexicon, toks: seq<string>, ms: seq<Match>)
    requires Real(lex, toks, ms) && ms != []
    ensures var (h, first) := (Gathered(lex, toks, ms), HitOf(lex, toks, ms[0]));
            && h.geoClass == Some(first.geoClass)
            && (h.city == first.city <==>
                  first.city.Some? || forall m <- ms :: HitOf(lex, toks, m).city.None?)
            && (h.region == first.region <==>
                  first.region.Some? || forall m <- ms :: HitOf(lex, toks, m).region.None?)
  {
    FieldsComeFirst(lex, toks, ms);
    SuppliedByFirst(lex, toks, ms, (x: Hit) => x.city);
    SuppliedByFirst(lex, toks, ms, (x: Hit) => x.region);
  }
}
