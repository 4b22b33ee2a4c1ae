/**
What a message or a burst comes to, in terms of the tables alone: which table decides the class,
what each supplies, and what two texts that read alike have in common.
*/
module GeoSources {
  import opened Wrappers
  import opened GeoLexicon
  import opened GeoBurst
  import Text

  // ---- one phrase, table by table ----

  predicate CityAliased(lex: Lexicon, phrase: string) {
    phrase in lex.cityAliases && lex.cityAliases[phrase].lookup in lex.ru
  }

  /** An abbreviation or a nickname: these come before every table of places. */
  predicate Aliased(lex: Lexicon, phrase: string) { phrase in lex.regionAliases || CityAliased(lex, phrase) }

  /** The same name is a place of the world better known than the Russian one. */
  predicate BetterKnownAbroad(lex: Lexicon, phrase: string) {
    phrase in lex.popular && lex.popular[phrase].1 != "Россия" && lex.popular[phrase].1 != "Russia" &&
      lex.popular[phrase].1 != "РФ"
  }

  /** A Russian place by its own entry: no alias, no Ukrainian place, a real name, and none better known abroad. */
  predicate RussianByName(lex: Lexicon, phrase: string) {
    && !Aliased(lex, phrase) && phrase !in lex.ua && phrase in lex.ru
    && |lex.ru[phrase].0| >= 2 && lex.ru[phrase].0[0] !in "0123456789\U{00B2}\U{00B3}\U{00B9}"
    && !BetterKnownAbroad(lex, phrase)
  }

  predicate UkrainianByName(lex: Lexicon, phrase: string) { !Aliased(lex, phrase) && phrase in lex.ua }

  predicate WorldPlace(lex: Lexicon, phrase: string) {
    !Aliased(lex, phrase) && phrase !in lex.ua && !RussianByName(lex, phrase) && phrase in lex.popular
  }

  predicate CountryByName(lex: Lexicon, phrase: string) {
    && !Aliased(lex, phrase) && phrase !in lex.ua && !RussianByName(lex, phrase) && phrase !in lex.popular
    && phrase in lex.countries
  }

  lemma NoDigit(c: char)
    ensures c in "0123456789\U{00B2}\U{00B3}\U{00B9}" <==> '0' <= c <= '9' || c in SUPERSCRIPTS
  {
    var s := "0123456789\U{00B2}\U{00B3}\U{00B9}";
    if '0' <= c <= '9' { assert s[c as int - '0' as int] == c; }
    if c in SUPERSCRIPTS { assert s[10] == c || s[11] == c || s[12] == c; }
  }

  /** A phrase matches exactly if one of the tables has it. */
  lemma MatchedByATable(lex: Lexicon, phrase: string)
    ensures Find(lex, phrase).Some? <==>
      || Aliased(lex, phrase) || UkrainianByName(lex, phrase) || RussianByName(lex, phrase)
      || WorldPlace(lex, phrase) || CountryByName(lex, phrase)
  {
    if phrase in lex.ru && |lex.ru[phrase].0| >= 1 { NoDigit(lex.ru[phrase].0[0]); }
  }

  /** What each table supplies. */
  lemma SuppliedByTable(lex: Lexicon, phrase: string)
    requires Find(lex, phrase).Some?
    ensures var h := Find(lex, phrase).value;
            && (phrase in lex.regionAliases ==>
                  var a := lex.regionAliases[phrase];
                  h.geoClass == a.geoClass && h.country == a.country && h.region == a.region && h.city == None)
            && (phrase !in lex.regionAliases && CityAliased(lex, phrase) ==>
                  var (name, region) := lex.ru[lex.cityAliases[phrase].lookup];
                  && h.geoClass == LiquidRu && h.country == Some("Россия")
                  && if lex.cityAliases[phrase].candidate
                     then h.candidate == Some(name) && h.city == h.region == None
                     else h.city == Some(name) && h.region == Some(region) && h.candidate == None)
            && (UkrainianByName(lex, phrase) ==>
                  h.geoClass == UaGeo && h.country == Some("Украина") && h.city == h.region == None)
            && (RussianByName(lex, phrase) ==>
                  && h.geoClass == LiquidRu && h.country == Some("Россия")
                  && h.city == Some(lex.ru[phrase].0) && h.region == Some(lex.ru[phrase].1))
            && (WorldPlace(lex, phrase) ==>
                  && h.country == Some(lex.popular[phrase].1) && h.city == Some(lex.popular[phrase].0)
                  && h.region == None
                  && h.geoClass == (if lex.popular[phrase].1 == "Украина" then UaGeo else NonLiquid))
            && (CountryByName(lex, phrase) ==>
                  && h.country == Some(lex.countries[phrase]) && h.city == h.region == None
                  && h.geoClass == (if lex.countries[phrase] == "Украина" then UaGeo else NonLiquid))
            && (h.candidate.Some? ==> phrase !in lex.regionAliases && CityAliased(lex, phrase))
  {
    if phrase in lex.ru && |lex.ru[phrase].0| >= 1 { NoDigit(lex.ru[phrase].0[0]); }
  }

  // ---- a message ----

  /** The phrase of the message's first match, longest phrases first. */
  ghost function FirstPhrase(lex: Lexicon, toks: seq<string>): string
    requires Matches(lex, toks) != []
  {
    MatchesAreReal(lex, toks);
    var m := Matches(lex, toks)[0];
    assert m in Matches(lex, toks);
    Phrase(toks, m.start, m.width)
  }

  /**
  A message is liquid exactly if its first phrase is an alias for a part of Russia, a nickname of a
  Russian place, or a Russian place by its own name; never for a place that is also in the Ukrainian
  table, unless an alias says so.
  */
  lemma LiquidByFirstPhrase(lex: Lexicon, toks: seq<string>)
    requires !Raises(lex, toks) && Matches(lex, toks) != []
    ensures var phrase := FirstPhrase(lex, toks);
            Analysed(lex, toks).geoClass == Some(LiquidRu) <==>
              if phrase in lex.regionAliases then lex.regionAliases[phrase].geoClass == LiquidRu
              else CityAliased(lex, phrase) || RussianByName(lex, phrase)
  {
    FirstDecides(lex, toks);
    MatchedByATable(lex, FirstPhrase(lex, toks));
    SuppliedByTable(lex, FirstPhrase(lex, toks));
  }

  /** It is of the Ukrainian class exactly if its first phrase is, by alias, by the table, or by its country. */
  lemma UkrainianByFirstPhrase(lex: Lexicon, toks: seq<string>)
    requires !Raises(lex, toks) && Matches(lex, toks) != []
    ensures var phrase := FirstPhrase(lex, toks);
            Analysed(lex, toks).geoClass == Some(UaGeo) <==>
              if phrase in lex.regionAliases then lex.regionAliases[phrase].geoClass == UaGeo
              else
                || UkrainianByName(lex, phrase)
                || (WorldPlace(lex, phrase) && lex.popular[phrase].1 == "Украина")
                || (CountryByName(lex, phrase) && lex.countries[phrase] == "Украина")
  {
    FirstDecides(lex, toks);
    MatchedByATable(lex, FirstPhrase(lex, toks));
    SuppliedByTable(lex, FirstPhrase(lex, toks));
  }

  /** A message that names one Ukrainian place of the table, and nothing else, has its class, country and no city. */
  lemma UkraineAlone(lex: Lexicon, toks: seq<string>)
    requires !Raises(lex, toks) && |Matches(lex, toks)| == 1 && UkrainianByName(lex, FirstPhrase(lex, toks))
    ensures var h := Analysed(lex, toks);
            h.geoClass == Some(UaGeo) && h.country == Some("Украина") && h.city == None && h.region == None
  {
    var ms := Matches(lex, toks);
    FirstDecides(lex, toks);
    SuppliedByTable(lex, FirstPhrase(lex, toks));
    MatchesAreReal(lex, toks);
    CityFollowsFirstMatch(lex, toks, ms);
    FieldsComeFirst(lex, toks, ms);
    assert ms[0] in ms && forall m <- ms :: m == ms[0];
  }

  lemma FirstDecides(lex: Lexicon, toks: seq<string>)
    requires !Raises(lex, toks) && Matches(lex, toks) != []
    ensures Find(lex, FirstPhrase(lex, toks)).Some?
    ensures Analysed(lex, toks).geoClass == Some(Find(lex, FirstPhrase(lex, toks)).value.geoClass)
  {
    MatchesAreReal(lex, toks);
    var ms := Matches(lex, toks);
    assert ms[0] in ms;
    FieldsComeFirst(lex, toks, ms);
  }

  /**
  Given an alias table that names countries, the confidence says what is known: high exactly with a
  city, medium exactly for a Russian region without one, low otherwise.
  */
  lemma ConfidenceSaysWhatIsKnown(lex: Lexicon, toks: seq<string>)
    requires AliasesNameCountries(lex)
    requires forall k <- lex.regionAliases :: lex.regionAliases[k].country != Some("")
    requires forall k <- lex.popular :: lex.popular[k].1 != ""
    requires forall k <- lex.countries :: lex.countries[k] != ""
    ensures var h := Analysed(lex, toks);
            && (ConfidenceOf(h) == High <==> Given(h.city))
            && (ConfidenceOf(h) == Medium <==> !Given(h.city) && Given(h.region) && h.geoClass == Some(LiquidRu))
  {
    if !Raises(lex, toks) {
      MatchesAreReal(lex, toks);
      var ms := Matches(lex, toks);
      FieldsComeFirst(lex, toks, ms);
      if ms != [] {
        assert ms[0] in ms;
        HitFits(lex, FirstPhrase(lex, toks));
        SuppliedByTable(lex, FirstPhrase(lex, toks));
        MatchedByATable(lex, FirstPhrase(lex, toks));
      }
    }
  }

  /** The source named is the first match's. */
  lemma {:induction false} SourceIsTheFirst(lex: Lexicon, toks: seq<string>, ms: seq<Match>)
    requires Real(lex, toks, ms)
    ensures var h := Gathered(lex, toks, ms);
            (h.source.Some? <==> ms != []) && (ms != [] ==> h.source == Some(HitOf(lex, toks, ms[0]).source))
  {
    if ms != [] {
      var init := ms[..|ms| - 1];
      assert Real(lex, toks, init);
      SourceIsTheFirst(lex, toks, init);
      if init == [] { assert ms == [ms[0]] && Gathered(lex, toks, init) == UNKNOWN; }
    }
  }

  ghost predicate Suggested(lex: Lexicon, toks: seq<string>, ms: seq<Match>, place: string)
    requires Real(lex, toks, ms)
  {
    exists m <- ms :: HitOf(lex, toks, m).candidate == Some(place)
  }

  lemma SuggestedByMore(lex: Lexicon, toks: seq<string>, ms: seq<Match>, last: Match, place: string)
    requires Real(lex, toks, ms + [last]) && Real(lex, toks, ms) && last in ms + [last]
    ensures Suggested(lex, toks, ms + [last], place) <==>
      Suggested(lex, toks, ms, place) || HitOf(lex, toks, last).candidate == Some(place)
  {
    assert forall m <- ms :: m in ms + [last];
    assert forall m <- ms + [last] :: m in ms || m == last;
  }

  /** A place is a candidate exactly if some match only suggests it. */
  lemma {:induction false} CandidatesAreSuggested(lex: Lexicon, toks: seq<string>, ms: seq<Match>, place: string)
    requires Real(lex, toks, ms)
    ensures place in Gathered(lex, toks, ms).candidates <==> Suggested(lex, toks, ms, place)
  {
    if ms != [] {
      var (init, last) := (ms[..|ms| - 1], ms[|ms| - 1]);
      assert Real(lex, toks, init) && ms == init + [last];
      CandidatesAreSuggested(lex, toks, init, place);
      SuggestedByMore(lex, toks, init, last, place);
    }
  }

  // ---- single tokens ----

  /** A number of two digits from 14 to 90 is an age, never a place; other two-digit tokens are looked up. */
  lemma AgesAreNoPlaces(lex: Lexicon, toks: seq<string>, i: nat, tens: nat, ones: nat)
    requires i < |toks| && 1 <= tens <= 9 && ones <= 9
    requires toks[i] == [('0' as int + tens) as char, ('0' as int + ones) as char]
    ensures 14 <= 10 * tens + ones <= 90 ==> !Hits(lex, toks, i, 1)
    ensures !(14 <= 10 * tens + ones <= 90) && toks[i] !in lex.noise ==>
      (Hits(lex, toks, i, 1) <==> Find(lex, toks[i]).Some?)
  {
    var t := toks[i];
    assert t[..1] == [t[0]] && [t[0]][..0] == "";
    assert Number(t[..1]) == tens;
    assert forall c <- t :: c == t[0] || c == t[1];
  }

  /** A word of the noise list or of one letter is never a place; any other word that is no number is looked up. */
  lemma WordsAreLookedUp(lex: Lexicon, toks: seq<string>, i: nat)
    requires i < |toks| && toks[i] != "" && !('0' <= toks[i][0] <= '9') && toks[i][0] !in SUPERSCRIPTS
    ensures Hits(lex, toks, i, 1) <==> |toks[i]| >= 2 && toks[i] !in lex.noise && Find(lex, toks[i]).Some?
  {
    assert toks[i][0] in toks[i];
  }

  // ---- texts that read alike ----

  const MARKS := ",.!?;:«»\"'()[]{}—- "

  /** The same letter but for case, an е for a ё, or one punctuation mark or blank for another. */
  predicate ReadsAs(a: char, b: char) {
    || a == b
    || Text.Lower([a]) == Text.Lower([b])
    || (a in "еЕёЁ" && b in "еЕёЁ")
    || (a in MARKS && b in MARKS)
  }

  lemma LowerOfOne(c: char)
    ensures Text.Lower([c]) == [if Text.Upper(c) then c + 32 as char else c]
  {
  }

  lemma MarkFolds(c: char)
    requires c in MARKS
    ensures Folded(c) == ' '
  {
    assert c in PUNCTUATION || c == ' ';
  }

  lemma YoFolds(c: char)
    requires c in "еЕёЁ"
    ensures Folded(c) == 'е'
  {
    assert c == 'е' || c == 'Е' || c == 'ё' || c == 'Ё';
  }

  lemma CaseFolds(a: char, b: char)
    requires Text.Upper(a) && b == a + 32 as char
    ensures Folded(a) == Folded(b) == b
  {
  }

  lemma FoldsAlike(a: char, b: char)
    requires ReadsAs(a, b)
    ensures Folded(a) == Folded(b)
  {
    LowerOfOne(a);
    LowerOfOne(b);
    if a == b {
    } else if a in MARKS && b in MARKS {
      MarkFolds(a);
      MarkFolds(b);
    } else if a in "еЕёЁ" && b in "еЕёЁ" {
      YoFolds(a);
      YoFolds(b);
    } else if Text.Upper(a) {
      CaseFolds(a, b);
    } else {
      CaseFolds(b, a);
    }
  }

  lemma {:induction false} AlikeFolds(a: string, b: string)
    requires |a| == |b| && forall i :: 0 <= i < |a| ==> ReadsAs(a[i], b[i])
    ensures Fold(a) == Fold(b)
  {
    if a != "" {
      FoldsAlike(a[0], b[0]);
      AlikeFolds(a[1..], b[1..]);
    }
  }

  /** Texts that differ only so are analysed alike. */
  lemma AlikeIsAnalysedAlike(lex: Lexicon, a: string, b: string)
    requires |a| == |b| && forall i :: 0 <= i < |a| ==> ReadsAs(a[i], b[i])
    ensures Tokens(a) == Tokens(b) && Analysed(lex, Tokens(a)) == Analysed(lex, Tokens(b))
  {
    AlikeFolds(a, b);
  }

  // ---- a burst ----

  datatype Fields = Fields(geoClass: Option<Class>, country: Option<string>, region: Option<string>,
                           city: Option<string>)

  function FieldsOf(h: Hints): Fields { Fields(h.geoClass, h.country, h.region, h.city) }

  /** Field by field: the first one, or else the second. */
  function OrElse(a: Fields, b: Fields): Fields {
    Fields(if a.geoClass.Some? then a.geoClass else b.geoClass, if a.country.Some? then a.country else b.country,
           if a.region.Some? then a.region else b.region, if a.city.Some? then a.city else b.city)
  }

  const NOTHING := Fields(None, None, None, None)

  /** Each field as the first message that has it by itself gives it. */
  ghost function FirstOf(lex: Lexicon, msgs: seq<string>): Fields {
    if msgs == [] then NOTHING else OrElse(FieldsOf(Analysed(lex, Tokens(msgs[0]))), FirstOf(lex, msgs[1..]))
  }

  lemma {:induction false} FirstOfMore(lex: Lexicon, msgs: seq<string>, m: string)
    ensures FirstOf(lex, msgs + [m]) == OrElse(FirstOf(lex, msgs), FieldsOf(Analysed(lex, Tokens(m))))
  {
    if msgs == [] {
      assert (msgs + [m])[1..] == [] && (msgs + [m])[0] == m;
      assert FirstOf(lex, (msgs + [m])[1..]) == NOTHING;
    } else {
      assert (msgs + [m])[1..] == msgs[1..] + [m];
      FirstOfMore(lex, msgs[1..], m);
    }
  }

  lemma FilledByOneMore(lex: Lexicon, h: Hints, msgs: seq<string>, m: string)
    ensures FieldsOf(FilledFrom(lex, h, msgs + [m])) ==
      OrElse(FieldsOf(FilledFrom(lex, h, msgs)), FieldsOf(Analysed(lex, Tokens(m))))
  {
    var longer := msgs + [m];
    assert longer[..|longer| - 1] == msgs && longer[|longer| - 1] == m;
    if m == "" { NothingFromEmpty(lex); }
  }

  lemma OrElseTwice(a: Fields, b: Fields, c: Fields)
    ensures OrElse(OrElse(a, b), c) == OrElse(a, OrElse(b, c)) && OrElse(a, NOTHING) == a
  {
  }

  lemma {:induction false} FilledFields(lex: Lexicon, h: Hints, msgs: seq<string>)
    ensures FieldsOf(FilledFrom(lex, h, msgs)) == OrElse(FieldsOf(h), FirstOf(lex, msgs))
  {
    if msgs == [] {
      OrElseTwice(FieldsOf(h), NOTHING, NOTHING);
    } else {
      var (init, m) := (msgs[..|msgs| - 1], msgs[|msgs| - 1]);
      assert msgs == init + [m];
      FilledFields(lex, h, init);
      FilledByOneMore(lex, h, init, m);
      FirstOfMore(lex, init, m);
      OrElseTwice(FieldsOf(h), FirstOf(lex, init), FieldsOf(Analysed(lex, Tokens(m))));
    }
  }

  lemma NothingFromEmpty(lex: Lexicon)
    ensures FieldsOf(Analysed(lex, Tokens(""))) == NOTHING
  {
    EmptyIsUnknown(lex);
    assert Matches(lex, []) == [];
  }

  /** In a burst each field is the combined text's, or else that of the first message to have it by itself. */
  lemma BurstFieldsComeFirst(lex: Lexicon, msgs: seq<string>)
    requires |msgs| > 1
    ensures FieldsOf(Merged(lex, msgs)) ==
      OrElse(FieldsOf(Analysed(lex, Tokens(Combined(msgs)))), FirstOf(lex, msgs))
  {
    FilledFields(lex, Analysed(lex, Tokens(Combined(msgs))), msgs);
  }
}
