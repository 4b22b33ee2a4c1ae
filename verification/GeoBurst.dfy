/** The analysis as it runs, and the analysis of a burst of messages. */
module GeoBurst {
  import opened Wrappers
  import opened GeoLexicon
  import Text

  // ---- the loops ----

  lemma {:induction false} CoverOfMore(ms: seq<Match>, m: Match)
    ensures Cover(ms + [m]) == Cover(ms) + Span(m.start, m.width)
  {
    if ms == [] {
      assert (ms + [m])[1..] == [];
    } else {
      assert (ms + [m])[1..] == ms[1..] + [m];
      CoverOfMore(ms[1..], m);
    }
  }

  lemma GatheredMore(lex: Lexicon, toks: seq<string>, done: seq<Match>, ms: seq<Match>, m: Match)
    requires Real(lex, toks, done + ms) && 1 <= m.width && m.start + m.width <= |toks|
    requires Hits(lex, toks, m.start, m.width)
    ensures Real(lex, toks, done + (ms + [m]))
    ensures Gathered(lex, toks, done + (ms + [m]))
         == Added(Gathered(lex, toks, done + ms), Phrase(toks, m.start, m.width), HitOf(lex, toks, m))
  {
    var longer := done + (ms + [m]);
    assert longer == done + ms + [m];
    assert longer[..|longer| - 1] == done + ms && longer[|longer| - 1] == m;
  }

  /** A field is set only while it is empty. */
  function Set<T>(field: Option<T>, value: T): Option<T> { if field.None? then Some(value) else field }

  /** One phrase against the sources in turn, filling in the hints as it goes. */
  method TryMatchPhrase(lex: Lexicon, phrase: string, start: Hints) returns (matched: bool, h: Hints)
    ensures matched == Find(lex, phrase).Some?
    ensures h == if matched then Added(start, phrase, Find(lex, phrase).value) else start
  {
    h := start.(terms := start.terms + [phrase]);
    if phrase in lex.regionAliases {
      var alias := lex.regionAliases[phrase];
      h := h.(geoClass := Set(h.geoClass, alias.geoClass), source := Set(h.source, Alias));
      if alias.country.Some? { h := h.(country := Set(h.country, alias.country.value)); }
      if alias.region.Some? { h := h.(region := Set(h.region, alias.region.value)); }
      return true, h;
    }
    if phrase in lex.cityAliases {
      var alias := lex.cityAliases[phrase];
      if alias.lookup in lex.ru {
        var (canonical, region) := lex.ru[alias.lookup];
        if alias.candidate {
          h := h.(candidates := h.candidates + [canonical]);
        } else {
          h := h.(city := Set(h.city, canonical), region := Set(h.region, region));
        }
        h := h.(country := Set(h.country, "Россия"), geoClass := Set(h.geoClass, LiquidRu),
                source := Set(h.source, Alias));
        return true, h;
      }
    }
    if phrase in lex.ua {
      h := h.(country := Set(h.country, "Украина"), geoClass := Set(h.geoClass, UaGeo),
              source := Set(h.source, UaLocations));
      return true, h;
    }
    if phrase in lex.ru {
      var (canonical, region) := lex.ru[phrase];
      if canonical != "" && !StartsWithDigit(canonical) && |canonical| > 1 {
        if !(phrase in lex.popular && lex.popular[phrase].1 !in {"Россия", "Russia", "РФ"}) {
          h := h.(city := Set(h.city, canonical), region := Set(h.region, region), country := Set(h.country, "Россия"),
                  geoClass := Set(h.geoClass, LiquidRu), source := Set(h.source, RuLocations));
          return true, h;
        }
      }
    }
    if phrase in lex.popular {
      var (city, country) := lex.popular[phrase];
      h := h.(city := Set(h.city, city), country := Set(h.country, country),
              geoClass := Set(h.geoClass, if country == "Украина" then UaGeo else NonLiquid),
              source := Set(h.source, NlPopular));
      return true, h;
    }
    if phrase in lex.countries {
      var country := lex.countries[phrase];
      h := h.(country := Set(h.country, country),
              geoClass := Set(h.geoClass, if country == "Украина" then UaGeo else NonLiquid),
              source := Set(h.source, NlCountries));
      return true, h;
    }
    return false, start;
  }

  /** The trigram or bigram loop. `done` are the matches of the passes before. */
  method RunPass(lex: Lexicon, toks: seq<string>, w: nat, taken: set<nat>, start: Hints, ghost done: seq<Match>)
    returns (consumed: set<nat>, hints: Hints)
    requires 2 <= w && Real(lex, toks, done) && start == Gathered(lex, toks, done)
    ensures var ms := Pass(lex, toks, w, taken, 0);
            consumed == taken + Cover(ms) && Real(lex, toks, done + ms) && hints == Gathered(lex, toks, done + ms)
  {
    consumed, hints := taken, start;
    ghost var ms: seq<Match> := [];
    assert done + ms == done;
    var i := 0;
    while i + w <= |toks|
      invariant consumed == taken + Cover(ms) && Real(lex, toks, done + ms) && hints == Gathered(lex, toks, done + ms)
      invariant ms + Pass(lex, toks, w, consumed, i) == Pass(lex, toks, w, taken, 0)
    {
      if Span(i, w) !! consumed {
        var matched, h := TryMatchPhrase(lex, Phrase(toks, i, w), hints);
        if matched {
          ghost var m := Match(i, w);
          assert Pass(lex, toks, w, consumed, i) == [m] + Pass(lex, toks, w, consumed + Span(i, w), i + 1);
          assert ms + ([m] + Pass(lex, toks, w, consumed + Span(i, w), i + 1))
              == (ms + [m]) + Pass(lex, toks, w, consumed + Span(i, w), i + 1);
          GatheredMore(lex, toks, done, ms, m);
          CoverOfMore(ms, m);
          hints := h;
          consumed := consumed + Span(i, w);
          ms := ms + [m];
        }
      }
      i := i + 1;
    }
    assert ms + [] == ms;
  }

  /** Single tokens matched earlier do not affect the last pass from `i` on. */
  lemma {:induction false} EarlierSingles(lex: Lexicon, toks: seq<string>, consumed: set<nat>, more: set<nat>, i: nat)
    requires forall k <- more :: k < i
    ensures Pass(lex, toks, 1, consumed + more, i) == Pass(lex, toks, 1, consumed, i)
    decreases |toks| - i
  {
    if i < |toks| {
      assert Span(i, 1) !! consumed + more <==> Span(i, 1) !! consumed;
      EarlierSingles(lex, toks, consumed, more, i + 1);
      EarlierSingles(lex, toks, consumed + Span(i, 1), more, i + 1);
      assert consumed + more + Span(i, 1) == consumed + Span(i, 1) + more;
    }
  }

  predicate SingleHits(lex: Lexicon, toks: seq<string>, consumed: set<nat>, i: nat)
    requires i < |toks|
  {
    i !in consumed && Hits(lex, toks, i, 1)
  }

  lemma OneSingle(lex: Lexicon, toks: seq<string>, consumed: set<nat>, i: nat)
    requires i < |toks|
    ensures Pass(lex, toks, 1, consumed, i)
         == (if SingleHits(lex, toks, consumed, i) then [Match(i, 1)] else []) + Pass(lex, toks, 1, consumed, i + 1)
  {
    assert Span(i, 1) == {i};
    EarlierSingles(lex, toks, consumed, Span(i, 1), i + 1);
  }

  /** `ms` are the single tokens matched before position `i`, and `hints` what is gathered so far. */
  ghost predicate SinglesUpTo(lex: Lexicon, toks: seq<string>, consumed: set<nat>, done: seq<Match>, ms: seq<Match>,
                              hints: Hints,
                              i: nat)
  {
    && Real(lex, toks, done + ms) && hints == Gathered(lex, toks, done + ms)
    && ms + Pass(lex, toks, 1, consumed, i) == Pass(lex, toks, 1, consumed, 0)
  }

  lemma SinglesStep(lex: Lexicon, toks: seq<string>, consumed: set<nat>, done: seq<Match>, ms: seq<Match>,
          hints: Hints, i: nat)
    requires i < |toks| && SinglesUpTo(lex, toks, consumed, done, ms, hints, i)
    ensures if SingleHits(lex, toks, consumed, i)
            then SinglesUpTo(lex, toks, consumed, done, ms + [Match(i, 1)],
                             Added(hints, toks[i], Find(lex, toks[i]).value), i + 1)
            else SinglesUpTo(lex, toks, consumed, done, ms, hints, i + 1)
  {
    OneSingle(lex, toks, consumed, i);
    var rest := Pass(lex, toks, 1, consumed, i + 1);
    assert Phrase(toks, i, 1) == toks[i];
    if SingleHits(lex, toks, consumed, i) {
      assert ms + ([Match(i, 1)] + rest) == (ms + [Match(i, 1)]) + rest;
      GatheredMore(lex, toks, done, ms, Match(i, 1));
    } else {
      assert [] + rest == rest;
    }
  }

  /** One token of the last pass: unless consumed, the age test comes first, and is where it may raise. */
  method TrySingle(lex: Lexicon, toks: seq<string>, consumed: set<nat>, i: nat, start: Hints)
    returns (raised: bool, hints: Hints)
    requires i < |toks|
    ensures raised == (i !in consumed && Poison(toks[i]))
    ensures !raised ==>
      hints == if SingleHits(lex, toks, consumed, i) then Added(start, toks[i], Find(lex, toks[i]).value) else start
  {
    hints := start;
    if i in consumed { return false, start; }
    raised := Poison(toks[i]);
    assert Phrase(toks, i, 1) == toks[i];
    if !raised && !Skipped(lex, toks[i]) {
      var _, h := TryMatchPhrase(lex, toks[i], start);
      hints := h;
    }
  }

  ghost predicate PoisonLeft(toks: seq<string>, consumed: set<nat>, n: nat)
    requires n <= |toks|
  {
    exists i: nat :: i < n && i !in consumed && Poison(toks[i])
  }

  lemma PoisonStep(toks: seq<string>, consumed: set<nat>, i: nat)
    requires i < |toks|
    ensures PoisonLeft(toks, consumed, i + 1) == (PoisonLeft(toks, consumed, i) || (i !in consumed && Poison(toks[i])))
  {
  }

  lemma PoisonStays(toks: seq<string>, consumed: set<nat>, n: nat)
    requires n <= |toks| && PoisonLeft(toks, consumed, n)
    ensures PoisonLeft(toks, consumed, |toks|)
  {
  }

  /** The single-token loop over what no longer match consumed. */
  method RunSingles(lex: Lexicon, toks: seq<string>, consumed: set<nat>, start: Hints, ghost done: seq<Match>)
    returns (raised: bool, hints: Hints)
    requires Real(lex, toks, done) && start == Gathered(lex, toks, done)
    ensures raised == PoisonLeft(toks, consumed, |toks|)
    ensures var ms := Pass(lex, toks, 1, consumed, 0);
            !raised ==> Real(lex, toks, done + ms) && hints == Gathered(lex, toks, done + ms)
  {
    hints := start;
    ghost var ms: seq<Match> := [];
    assert done + ms == done && ms + Pass(lex, toks, 1, consumed, 0) == Pass(lex, toks, 1, consumed, 0);
    for i := 0 to |toks|
      invariant SinglesUpTo(lex, toks, consumed, done, ms, hints, i)
      invariant !PoisonLeft(toks, consumed, i)
    {
      SinglesStep(lex, toks, consumed, done, ms, hints, i);
      PoisonStep(toks, consumed, i);
      raised, hints := TrySingle(lex, toks, consumed, i, hints);
      if raised {
        PoisonStays(toks, consumed, i + 1);
        return;
      }
      if SingleHits(lex, toks, consumed, i) { ms := ms + [Match(i, 1)]; }
    }
    assert ms + [] == ms;
    raised := false;
  }

  /** The analysis proper. `raised` is the exception the caller turns into `unknown`. */
  method ExtractImpl(lex: Lexicon, toks: seq<string>) returns (raised: bool, hints: Hints)
    ensures raised == Raises(lex, toks)
    ensures !raised ==> hints == Analysed(lex, toks)
  {
    var consumed;
    consumed, hints := RunPass(lex, toks, 3, {}, UNKNOWN, []);
    ghost var trigrams := Trigrams(lex, toks);
    assert [] + trigrams == trigrams && {} + Cover(trigrams) == Cover(trigrams);
    consumed, hints := RunPass(lex, toks, 2, consumed, hints, trigrams);
    raised, hints := RunSingles(lex, toks, consumed, hints, trigrams + Bigrams(lex, toks));
  }

  method ExtractGeoHints(lex: Lexicon, text: string) returns (hints: Hints)
    ensures hints == Analysed(lex, Tokens(text))
  {
    var raised, found := ExtractImpl(lex, Tokens(text));
    hints := if raised then UNKNOWN else found;
  }

  // ---- bursts ----

  function Joined(a: string, b: string): string {
    if a == "" then b else if b == "" then a else a + " " + b
  }

  /** Non-empty messages joined by spaces. */
  function Combined(msgs: seq<string>): string {
    if msgs == [] then "" else Joined(msgs[0], Combined(msgs[1..]))
  }

  function Filled(h: Hints, r: Hints): Hints {
    h.(geoClass := Or(h.geoClass, r.geoClass), city := Or(h.city, r.city),
       region := Or(h.region, r.region), country := Or(h.country, r.country))
  }

  /** Gaps of `h` filled from each message in turn. */
  ghost function FilledFrom(lex: Lexicon, h: Hints, msgs: seq<string>): Hints {
    if msgs == [] then h
    else
      var before := FilledFrom(lex, h, msgs[..|msgs| - 1]);
      var m := msgs[|msgs| - 1];
      if m == "" then before else Filled(before, Analysed(lex, Tokens(m)))
  }

  ghost function Merged(lex: Lexicon, msgs: seq<string>): Hints {
    if msgs == [] then UNKNOWN
    else if |msgs| == 1 then Analysed(lex, Tokens(msgs[0]))
    else FilledFrom(lex, Analysed(lex, Tokens(Combined(msgs))), msgs)
  }

  method ExtractFromMessages(lex: Lexicon, msgs: seq<string>) returns (merged: Hints)
    ensures merged == Merged(lex, msgs)
  {
    if msgs == [] {
      return UNKNOWN;
    }
    if |msgs| == 1 {
      merged := ExtractGeoHints(lex, msgs[0]);
      return;
    }
    merged := ExtractGeoHints(lex, Combined(msgs));
    ghost var combined := merged;
    for i := 0 to |msgs|
      invariant merged == FilledFrom(lex, combined, msgs[..i])
    {
      assert msgs[..i + 1][..i] == msgs[..i];
      if msgs[i] != "" {
        var r := ExtractGeoHints(lex, msgs[i]);
        merged := Filled(merged, r);
      }
    }
    assert msgs[..|msgs|] == msgs;
  }

  lemma NoTokens()
    ensures Tokens("") == []
  {
  }

  lemma JoinedTokens(a: string, b: string)
    ensures Tokens(Joined(a, b)) == Tokens(a) + Tokens(b)
  {
    NoTokens();
    if a != "" && b != "" { TokensOfJoined(a, b); }
  }

  lemma CombinedTokens(msgs: seq<string>)
    requires msgs != []
    ensures Tokens(Combined(msgs)) == Tokens(msgs[0]) + Tokens(Combined(msgs[1..]))
  {
    JoinedTokens(msgs[0], Combined(msgs[1..]));
  }

  /** Each message's tokens lie together among the combined text's. */
  lemma {:induction false} MessageIsASlice(msgs: seq<string>, i: nat) returns (pre: seq<string>, post: seq<string>)
    requires i < |msgs|
    ensures Tokens(Combined(msgs)) == pre + Tokens(msgs[i]) + post
  {
    CombinedTokens(msgs);
    if i == 0 {
      pre, post := [], Tokens(Combined(msgs[1..]));
      EmptyInFront(Tokens(msgs[0]), post);
    } else {
      var p, q := MessageIsASlice(msgs[1..], i - 1);
      assert msgs[1..][i - 1] == msgs[i];
      pre, post := Tokens(msgs[0]) + p, q;
      Regrouped(Tokens(msgs[0]), p, Tokens(msgs[i]), q);
    }
  }

  lemma EmptyInFront(a: seq<string>, b: seq<string>)
    ensures a + b == [] + a + b
  {
  }

  lemma Regrouped(a: seq<string>, b: seq<string>, c: seq<string>, d: seq<string>)
    ensures a + (b + c + d) == (a + b) + c + d
  {
  }

  lemma {:induction false} PhraseInSlice(toks: seq<string>, pre: seq<string>, post: seq<string>, j: nat, w: nat)
    requires 1 <= w && j + w <= |toks|
    ensures Phrase(pre + toks + post, |pre| + j, w) == Phrase(toks, j, w)
    decreases w
  {
    if w > 1 { PhraseInSlice(toks, pre, post, j + 1, w - 1); }
  }

  lemma {:induction false} NoHitsNoPass(lex: Lexicon, toks: seq<string>, w: nat, consumed: set<nat>, i: nat)
    requires 1 <= w && forall j: nat :: j + w <= |toks| ==> !Hits(lex, toks, j, w)
    ensures Pass(lex, toks, w, consumed, i) == []
    decreases |toks| - i
  {
    if i + w <= |toks| { NoHitsNoPass(lex, toks, w, consumed, i + 1); }
  }

  /** No phrase of one, two or three tokens matches anywhere. */
  ghost predicate Barren(lex: Lexicon, toks: seq<string>) {
    forall j: nat, w: nat :: 1 <= w <= 3 && j + w <= |toks| ==> !Hits(lex, toks, j, w)
  }

  lemma BarrenHasNoMatch(lex: Lexicon, toks: seq<string>)
    requires Barren(lex, toks)
    ensures Matches(lex, toks) == []
  {
    NoHitsNoPass(lex, toks, 3, {}, 0);
    NoHitsNoPass(lex, toks, 2, Cover(Trigrams(lex, toks)), 0);
    NoHitsNoPass(lex, toks, 1, Consumed(lex, toks), 0);
  }

  lemma NoMatchIsBarren(lex: Lexicon, toks: seq<string>)
    requires Matches(lex, toks) == []
    ensures Barren(lex, toks)
  {
    var (t, b, s) := (Trigrams(lex, toks), Bigrams(lex, toks), Singles(lex, toks));
    assert |t + b + s| == |t| + |b| + |s|;
    assert Cover(t) == {} && Cover(b) == {} && Cover(s) == {};
    forall j: nat, w: nat | 1 <= w <= 3 && j + w <= |toks| ensures !Hits(lex, toks, j, w) {
      NothingMissed(lex, toks, j);
    }
  }

  lemma SliceIsBarren(lex: Lexicon, toks: seq<string>, pre: seq<string>, post: seq<string>)
    requires Barren(lex, pre + toks + post)
    ensures Barren(lex, toks)
  {
    forall j: nat, w: nat | 1 <= w <= 3 && j + w <= |toks| ensures !Hits(lex, toks, j, w) {
      PhraseInSlice(toks, pre, post, j, w);
      assert (pre + toks + post)[|pre| + j] == toks[j];
      assert !Hits(lex, pre + toks + post, |pre| + j, w);
    }
  }

  /** If nothing in the longer text matches, nothing in a stretch of it does. */
  lemma NothingInSlice(lex: Lexicon, toks: seq<string>, pre: seq<string>, post: seq<string>)
    requires Matches(lex, pre + toks + post) == []
    ensures Matches(lex, toks) == []
  {
    NoMatchIsBarren(lex, pre + toks + post);
    SliceIsBarren(lex, toks, pre, post);
    BarrenHasNoMatch(lex, toks);
  }

  predicate Known(h: Hints) { h.geoClass.Some? }

  /**
  The combined analysis misses nothing: unless it raised, its being unknown means that every
  single message is unknown too.
  */
  lemma CombinedIsComplete(lex: Lexicon, msgs: seq<string>, i: nat)
    requires i < |msgs| && !Raises(lex, Tokens(Combined(msgs)))
    requires !Known(Analysed(lex, Tokens(Combined(msgs))))
    ensures !Known(Analysed(lex, Tokens(msgs[i])))
  {
    var whole := Tokens(Combined(msgs));
    MatchesAreReal(lex, whole);
    FieldsComeFirst(lex, whole, Matches(lex, whole));
    var pre, post := MessageIsASlice(msgs, i);
    NothingInSlice(lex, Tokens(msgs[i]), pre, post);
  }

  /** `f` has everything `h` has. */
  predicate Keeps(h: Hints, f: Hints) {
    && (h.geoClass.Some? ==> f.geoClass == h.geoClass) && (h.city.Some? ==> f.city == h.city)
    && (h.region.Some? ==> f.region == h.region) && (h.country.Some? ==> f.country == h.country)
  }

  ghost predicate SomeKnown(lex: Lexicon, msgs: seq<string>) {
    exists i :: 0 <= i < |msgs| && Known(Analysed(lex, Tokens(msgs[i])))
  }

  /** Filling keeps what is there and is known as soon as anything it draws on is. */
  lemma {:induction false} FillingKeeps(lex: Lexicon, h: Hints, msgs: seq<string>)
    ensures Keeps(h, FilledFrom(lex, h, msgs))
    ensures Known(FilledFrom(lex, h, msgs)) <==> Known(h) || SomeKnown(lex, msgs)
  {
    if msgs != [] {
      var (init, m) := (msgs[..|msgs| - 1], msgs[|msgs| - 1]);
      FillingKeeps(lex, h, init);
      OneMoreMessage(lex, init, m);
      assert msgs == init + [m];
      if m == "" { EmptyIsUnknown(lex); }
    }
  }

  lemma OneMoreMessage(lex: Lexicon, init: seq<string>, m: string)
    ensures SomeKnown(lex, init + [m]) <==> SomeKnown(lex, init) || Known(Analysed(lex, Tokens(m)))
  {
    var msgs := init + [m];
    assert msgs[|init|] == m;
    if i :| 0 <= i < |init| && Known(Analysed(lex, Tokens(init[i]))) { assert msgs[i] == init[i]; }
  }

  lemma EmptyIsUnknown(lex: Lexicon)
    ensures Tokens("") == [] && !Known(Analysed(lex, []))
  {
    assert Matches(lex, []) == [];
  }

  /** Merging a burst never overwrites a class, city, region or country the combined text gave. */
  lemma MergeNeverOverwrites(lex: Lexicon, msgs: seq<string>)
    requires |msgs| > 1
    ensures var (c, m) := (Analysed(lex, Tokens(Combined(msgs))), Merged(lex, msgs));
            Keeps(c, m)
  {
    FillingKeeps(lex, Analysed(lex, Tokens(Combined(msgs))), msgs);
  }

  /** Nor does it lower the confidence the fields give, which is computed again after the merge. */
  lemma MergeNeverLowersConfidence(lex: Lexicon, msgs: seq<string>)
    requires |msgs| > 1
    ensures ConfidenceOf(Merged(lex, msgs)).Rank() >= ConfidenceOf(Analysed(lex, Tokens(Combined(msgs)))).Rank()
  {
    MergeNeverOverwrites(lex, msgs);
  }

  /** The class and country a burst ends with fit each other, whichever messages they came from. */
  lemma BurstClassFitsCountry(lex: Lexicon, msgs: seq<string>)
    requires AliasesNameCountries(lex)
    ensures var m := Merged(lex, msgs); ClassFitsCountry(m.geoClass, m.country)
  {
    if |msgs| == 1 {
      ClassAndCountryComeTogether(lex, Tokens(msgs[0]));
    } else if |msgs| > 1 {
      ClassAndCountryComeTogether(lex, Tokens(Combined(msgs)));
      FillingFits(lex, Analysed(lex, Tokens(Combined(msgs))), msgs);
    }
  }

  lemma {:induction false} FillingFits(lex: Lexicon, h: Hints, msgs: seq<string>)
    requires AliasesNameCountries(lex) && ClassFitsCountry(h.geoClass, h.country)
    ensures var f := FilledFrom(lex, h, msgs); ClassFitsCountry(f.geoClass, f.country)
  {
    if msgs != [] {
      FillingFits(lex, h, msgs[..|msgs| - 1]);
      ClassAndCountryComeTogether(lex, Tokens(msgs[|msgs| - 1]));
    }
  }

  /**
  The merged class is unknown exactly when the combined one is, exactly when the combined
  analysis did not raise or no message is known by itself.
  */
  lemma MergeAgreesUnlessRaised(lex: Lexicon, msgs: seq<string>)
    requires |msgs| > 1
    ensures var whole := Tokens(Combined(msgs));
            (Known(Merged(lex, msgs)) == Known(Analysed(lex, whole))) ==
              (!Raises(lex, whole) || !SomeKnown(lex, msgs))
  {
    var whole := Tokens(Combined(msgs));
    FillingKeeps(lex, Analysed(lex, whole), msgs);
    if !Raises(lex, whole) && !Known(Analysed(lex, whole)) {
      forall i | 0 <= i < |msgs| ensures !Known(Analysed(lex, Tokens(msgs[i]))) { CombinedIsComplete(lex, msgs, i); }
    }
  }

  /**
  It does raise: a superscript counts as a digit but is no number. With a known place and a
  superscript in one burst, the combined text is unknown and the merged result is not.
  */
  lemma SuperscriptHidesThePlace() returns (lex: Lexicon, msgs: seq<string>)
    ensures |msgs| == 2 && Raises(lex, Tokens(Combined(msgs)))
    ensures !Known(Analysed(lex, Tokens(Combined(msgs)))) && Known(Merged(lex, msgs))
  {
    lex := Lexicon(map[], map[], {"ab"}, map[], map[], map[], {});
    var two: string := "\U{00B2}";
    msgs := ["ab", two];
    TokensOfTwo("ab", two);
    var whole := ["ab", two];
    NothingLong(lex, whole);
    assert Poison(whole[1]) by { assert two[0] in SUPERSCRIPTS; }
    assert 1 !in Consumed(lex, whole);
    OneWordKnown(lex, "ab");
    WordTokens("ab");
    FillingKeeps(lex, UNKNOWN, msgs);
    assert SomeKnown(lex, msgs) by { assert Known(Analysed(lex, Tokens(msgs[0]))); }
  }

  /** No phrase of two or three tokens is a two-letter word. */
  lemma NothingLong(lex: Lexicon, toks: seq<string>)
    requires lex == Lexicon(map[], map[], {"ab"}, map[], map[], map[], {})
    requires |toks| <= 2 && (forall t <- toks :: t != "") && |toks| > 0 && toks[0] == "ab"
    ensures Trigrams(lex, toks) == [] && Bigrams(lex, toks) == [] && Consumed(lex, toks) == {}
  {
    if |toks| == 2 {
      assert toks[1] in toks && Phrase(toks, 1, 1) == toks[1];
      assert Phrase(toks, 0, 2)[2] == ' ' && |Phrase(toks, 0, 2)| > 3;
      assert !Hits(lex, toks, 0, 2);
    }
    NoHitsNoPass(lex, toks, 3, {}, 0);
    NoHitsNoPass(lex, toks, 2, Cover(Trigrams(lex, toks)), 0);
  }

  lemma OneWordKnown(lex: Lexicon, w: string)
    requires w == "ab" && lex == Lexicon(map[], map[], {"ab"}, map[], map[], map[], {})
    ensures Known(Analysed(lex, [w]))
  {
    var one := [w];
    NothingLong(lex, one);
    assert !DigitsOnly(w) by { assert w[0] == 'a' && w[0] in w; }
    assert Phrase(one, 0, 1) == w && SingleHits(lex, one, {}, 0);
    OneSingle(lex, one, {}, 0);
    assert Matches(lex, one) != [] by { assert |Singles(lex, one)| > 0; }
    MatchesAreReal(lex, one);
    FieldsComeFirst(lex, one, Matches(lex, one));
  }

  /**
  A message of two words, "рф минск": Russia by its abbreviation, then a city of Belarus. The
  hints call it Russian and liquid, with the foreign city.
  */
  lemma CityMayBeAbroad() returns (lex: Lexicon, text: string)
    ensures AliasesNameCountries(lex) && lex == RussiaAndAbroad("рф", "минск", "Минск", "Беларусь")
    ensures text == "рф минск"
    ensures var h := Analysed(lex, Tokens(text));
            h.geoClass == Some(LiquidRu) && h.country == Some("Россия") && h.city == Some("Минск")
  {
    var (a, b) := ("рф", "минск");
    lex := RussiaAndAbroad(a, b, "Минск", "Беларусь");
    text := a + " " + b;
    assert "Россия"[0] == 'Р' && "Украина"[0] == 'У' && "Беларусь"[0] == 'Б';
    PlaceAbroad(a, b, "Минск", "Беларусь");
  }

  lemma PlaceAbroad(a: string, b: string, city: string, country: string)
    requires |a| > 1 && |b| > 1 && a[0] != b[0] && country != "Украина"
    requires (forall c <- a :: Letter(c)) && (forall c <- b :: Letter(c))
    ensures var h := Analysed(RussiaAndAbroad(a, b, city, country), Tokens(a + " " + b));
            h.geoClass == Some(LiquidRu) && h.country == Some("Россия") && h.city == Some(city)
  {
    WordTokens(a);
    WordTokens(b);
    TokensOfJoined(a, b);
    assert [a] + [b] == [a, b];
    assert a[0] in a && b[0] in b;
    FoundAbroad(a, b, city, country);
    TwoPlaces(RussiaAndAbroad(a, b, city, country), a, b);
  }

  /** A small Cyrillic letter, which folding leaves alone. */
  predicate Letter(c: char) { 'а' <= c <= 'я' }

  /** A lexicon of one abbreviation of Russia and one place. */
  function RussiaAndAbroad(a: string, b: string, city: string, country: string): Lexicon {
    Lexicon(map[a := RegionAlias(LiquidRu, Some("Россия"), None)], map[], {}, map[],
            map[b := (city, country)], map[], {})
  }

  lemma FoundAbroad(a: string, b: string, city: string, country: string)
    requires a != "" && b != "" && a[0] != b[0] && country != "Украина"
    ensures var lex := RussiaAndAbroad(a, b, city, country);
            && Find(lex, a) == Some(Hit(LiquidRu, Some("Россия"), None, None, None, Alias))
            && Find(lex, b) == Some(Hit(NonLiquid, Some(country), None, Some(city), None, NlPopular))
            && Find(lex, a + " " + b).None?
  {
    var both := a + " " + b;
    assert |both| > |a| && both[0] == a[0];
  }

  /** Two words that each match, and not as one phrase. */
  lemma TwoMatches(lex: Lexicon, a: string, b: string)
    requires Find(lex, a).Some? && Find(lex, b).Some? && Find(lex, a + " " + b).None?
    requires !Skipped(lex, a) && !Skipped(lex, b)
    ensures Matches(lex, [a, b]) == [Match(0, 1), Match(1, 1)] && Consumed(lex, [a, b]) == {}
  {
    var toks := [a, b];
    assert Phrase(toks, 0, 1) == a && Phrase(toks, 1, 1) == b;
    assert Phrase(toks, 0, 2) == a + " " + Phrase(toks, 1, 1);
    NoHitsNoPass(lex, toks, 3, {}, 0);
    NoHitsNoPass(lex, toks, 2, Cover(Trigrams(lex, toks)), 0);
    assert Consumed(lex, toks) == {};
    OneSingle(lex, toks, {}, 0);
    OneSingle(lex, toks, {}, 1);
    assert Pass(lex, toks, 1, {}, 2) == [];
    assert [Match(0, 1)] + ([Match(1, 1)] + []) == [Match(0, 1), Match(1, 1)];
    assert [] + [] + Singles(lex, toks) == Singles(lex, toks);
  }

  lemma TwoPlaces(lex: Lexicon, a: string, b: string)
    requires Find(lex, a).Some? && Find(lex, b).Some? && Find(lex, a + " " + b).None?
    requires !Skipped(lex, a) && !Skipped(lex, b) && !DigitsOnly(a) && !DigitsOnly(b)
    requires Find(lex, a).value.city.None? && Find(lex, a).value.country.Some?
    ensures var h := Analysed(lex, [a, b]);
            && h.geoClass == Some(Find(lex, a).value.geoClass) && h.country == Find(lex, a).value.country
            && h.city == Find(lex, b).value.city
  {
    var (toks, ms) := ([a, b], [Match(0, 1), Match(1, 1)]);
    TwoMatches(lex, a, b);
    MatchesAreReal(lex, toks);
    assert HitOf(lex, toks, ms[0]) == Find(lex, a).value && HitOf(lex, toks, ms[1]) == Find(lex, b).value by {
      assert Phrase(toks, 0, 1) == a && Phrase(toks, 1, 1) == b && ms[0] in ms && ms[1] in ms;
    }
    FieldsComeFirst(lex, toks, ms);
    FirstOfTwo(lex, toks, ms, (x: Hit) => Some(x.geoClass));
    FirstOfTwo(lex, toks, ms, (x: Hit) => x.country);
    FirstOfTwo(lex, toks, ms, (x: Hit) => x.city);
    assert !Raises(lex, toks);
  }

  lemma FirstOfTwo<T>(lex: Lexicon, toks: seq<string>, ms: seq<Match>, field: Hit -> Option<T>)
    requires Real(lex, toks, ms) && |ms| == 2
    ensures FirstSupplied(lex, toks, ms, field) == Or(field(HitOf(lex, toks, ms[0])), field(HitOf(lex, toks, ms[1])))
  {
    assert ms[1..][0] == ms[1] && |ms[1..][1..]| == 0;
    assert FirstSupplied(lex, toks, ms[1..][1..], field) == None;
  }

  lemma TokensOfTwo(a: string, b: string)
    requires a != "" && b != "" && forall c <- a + b :: Folded(c) == c && !Text.Space(c)
    ensures Combined([a, b]) == a + " " + b && Tokens(Combined([a, b])) == [a, b]
  {
    var last: seq<string> := [b];
    assert [a, b][1..] == last && |last[1..]| == 0;
    assert Combined(last) == b;
    assert (forall c <- a :: c in a + b) && (forall c <- b :: c in a + b);
    TokensOfJoined(a, b);
    WordTokens(a);
    WordTokens(b);
  }

  lemma WordTokens(w: string)
    requires w != "" && forall c <- w :: Folded(c) == c && !Text.Space(c)
    ensures Tokens(w) == [w]
  {
    FoldedAlready(w);
    LettersOnly("", w);
    assert "" + w == w;
  }

  lemma {:induction false} FoldedAlready(w: string)
    requires forall c <- w :: Folded(c) == c
    ensures Fold(w) == w
  {
    if w != "" {
      FoldedAlready(w[1..]);
      assert w == [w[0]] + w[1..];
    }
  }

  lemma {:induction false} LettersOnly(word: string, w: string)
    requires forall c <- w :: !Text.Space(c)
    ensures Words(word, w) == Cut(word + w)
    decreases w
  {
    if w == "" {
      assert word + w == word;
    } else {
      LettersOnly(word + [w[0]], w[1..]);
      assert word + [w[0]] + w[1..] == word + w;
    }
  }
}
