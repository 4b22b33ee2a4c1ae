/**
What the login-code parser keeps off: links and phone numbers, found left to right as the regular
expressions find them, and the three numeric shapes, which are only described.
*/
module LoginMasks {
  import opened Wrappers
  import opened Text

  /** Decimal digits: ASCII, Arabic-Indic, extended Arabic-Indic and full-width. */
  predicate Digit(c: char) {
    '0' <= c <= '9' || '\U{0660}' <= c <= '\U{0669}' || '\U{06F0}' <= c <= '\U{06F9}' || '\U{FF10}' <= c <= '\U{FF19}'
  }

  predicate FiveDigits(s: string) { |s| == 5 && forall i :: 0 <= i < 5 ==> Digit(s[i]) }

  datatype Span = Span(from: nat, to: nat)

  predicate Masked(spans: seq<Span>, k: nat) { exists m <- spans :: m.from <= k < m.to }

  // ---- links and phone numbers ----

  datatype Pattern = Url | Phone

  /** Where the stretch of accepted characters from `i` on ends. */
  function StretchEnd(s: string, i: nat, ok: char -> bool): (e: nat)
    requires i <= |s|
    ensures i <= e <= |s| && (forall k :: i <= k < e ==> ok(s[k])) && (e == |s| || !ok(s[e]))
    decreases |s| - i
  {
    if i < |s| && ok(s[i]) then StretchEnd(s, i + 1, ok) else i
  }

  /** Ignoring case; the long s folds to an s as well. */
  predicate SameLetter(c: char, lower: char) {
    c == lower || (Upper(c) && c + 32 as char == lower) || (c == '\U{017F}' && lower == 's')
  }

  predicate Spells(s: string, i: nat, word: string) {
    i + |word| <= |s| && forall k :: 0 <= k < |word| ==> SameLetter(s[i + k], word[k])
  }

  /** Where a match of the pattern that starts at `i` ends. */
  function MatchEnd(pat: Pattern, s: string, i: nat): (end: Option<nat>)
    ensures end.Some? ==> i < end.value <= |s|
  {
    match pat
    case Url =>
      var from := if Spells(s, i, "http://") then i + 7 else i + 8;
      if !Spells(s, i, "http://") && !Spells(s, i, "https://") then None
      else
        var e := StretchEnd(s, from, c => !Space(c));
        if e > from then Some(e) else None
    case Phone =>
      if i + 2 > |s| || s[i] != '+' || !Digit(s[i + 1]) then None
      else
        var e := StretchEnd(s, i + 2, PhoneChar);
        if e >= i + 8 then Some(e) else None
  }

  predicate PhoneChar(c: char) { Digit(c) || Space(c) || c in {'-', '(', ')'} }

  /** The matches from `i` on, leftmost first, the search resuming after each. */
  function Matches(pat: Pattern, s: string, i: nat): seq<Span>
    decreases |s| - i
  {
    if i >= |s| then []
    else
      match MatchEnd(pat, s, i)
      case None => Matches(pat, s, i + 1)
      case Some(e) => [Span(i, e)] + Matches(pat, s, e)
  }

  lemma OneMatch(pat: Pattern, s: string, spans: seq<Span>, i: nat)
    requires i < |s|
    ensures var end := MatchEnd(pat, s, i);
            spans + Matches(pat, s, i) ==
              if end.None? then spans + Matches(pat, s, i + 1)
              else spans + [Span(i, end.value)] + Matches(pat, s, end.value)
  {
  }

  lemma NoMatchAtTheEnd(pat: Pattern, s: string, spans: seq<Span>)
    ensures spans + Matches(pat, s, |s|) == spans
  {
  }

  method FindMatches(pat: Pattern, s: string) returns (spans: seq<Span>)
    ensures spans == Matches(pat, s, 0)
  {
    ghost var all := Matches(pat, s, 0);
    spans := [];
    var i := 0;
    assert spans + all == all;
    while i < |s|
      invariant i <= |s| && spans + Matches(pat, s, i) == all
      decreases |s| - i
    {
      OneMatch(pat, s, spans, i);
      var end := MatchEnd(pat, s, i);
      if end.Some? {
        spans := spans + [Span(i, end.value)];
        i := end.value;
      } else {
        i := i + 1;
      }
    }
    NoMatchAtTheEnd(pat, s, spans);
  }

  /** Position `k` lies in a match of the pattern, wherever that starts. */
  ghost predicate Inside(pat: Pattern, s: string, k: nat) {
    exists i: nat :: Covers(pat, s, i, k)
  }

  predicate Covers(pat: Pattern, s: string, i: nat, k: nat) {
    i <= k && MatchEnd(pat, s, i).Some? && k < MatchEnd(pat, s, i).value
  }

  /** A match that starts within another ends no later. */
  lemma NestedEnds(pat: Pattern, s: string, j: nat, i: nat)
    requires MatchEnd(pat, s, j).Some? && MatchEnd(pat, s, i).Some? && j < i < MatchEnd(pat, s, j).value
    ensures MatchEnd(pat, s, i).value <= MatchEnd(pat, s, j).value
  {
    if pat.Url? {
      NoSpaceInUrl(s, i);
      NoSpaceInUrl(s, j);
    } else {
      assert !Digit('+') && !PhoneChar('+');
    }
  }

  lemma NoSpaceInUrl(s: string, i: nat)
    requires MatchEnd(Url, s, i).Some?
    ensures var e := MatchEnd(Url, s, i).value; (forall k :: i <= k < e ==> !Space(s[k])) && (e == |s| || Space(s[e]))
  {
    var word := if Spells(s, i, "http://") then "http://" else "https://";
    forall k | i <= k < i + |word| ensures !Space(s[k]) { assert SameLetter(s[i + (k - i)], word[k - i]); }
  }

  ghost predicate InsideFrom(pat: Pattern, s: string, i: nat, k: nat) {
    exists j: nat :: j >= i && Covers(pat, s, j, k)
  }

  lemma InsideNext(pat: Pattern, s: string, i: nat, k: nat)
    ensures var end := MatchEnd(pat, s, i);
            InsideFrom(pat, s, i, k) <==>
              if end.None? then InsideFrom(pat, s, i + 1, k) else i <= k < end.value || InsideFrom(pat, s, end.value, k)
  {
    var end := MatchEnd(pat, s, i);
    if end.Some? {
      if i <= k < end.value { assert Covers(pat, s, i, k); }
      forall j: nat | i < j < end.value && Covers(pat, s, j, k) ensures i <= k < end.value { NestedEnds(pat, s, i, j); }
    }
  }

  lemma MaskedNext(pat: Pattern, s: string, i: nat, k: nat)
    requires i < |s|
    ensures var end := MatchEnd(pat, s, i);
            Masked(Matches(pat, s, i), k) <==>
              if end.None? then Masked(Matches(pat, s, i + 1), k)
              else i <= k < end.value || Masked(Matches(pat, s, end.value), k)
  {
    OneMatch(pat, s, [], i);
    var end := MatchEnd(pat, s, i);
    if end.Some? {
      assert [] + Matches(pat, s, i) == Matches(pat, s, i) == [Span(i, end.value)] + Matches(pat, s, end.value);
      MaskedCons(Span(i, end.value), Matches(pat, s, end.value), k);
    }
  }

  lemma NothingPastTheEnd(pat: Pattern, s: string, i: nat, k: nat)
    requires i >= |s|
    ensures Matches(pat, s, i) == [] && !InsideFrom(pat, s, i, k)
  {
  }

  /** Searching left to right loses nothing: exactly the positions inside some match are masked. */
  lemma {:induction false} MatchesCoverAll(pat: Pattern, s: string, i: nat, k: nat)
    ensures Masked(Matches(pat, s, i), k) <==> InsideFrom(pat, s, i, k)
    decreases |s| - i
  {
    if i >= |s| {
      NothingPastTheEnd(pat, s, i, k);
    } else {
      InsideNext(pat, s, i, k);
      MaskedNext(pat, s, i, k);
      var end := MatchEnd(pat, s, i);
      MatchesCoverAll(pat, s, if end.Some? then end.value else i + 1, k);
    }
  }

  lemma MaskedCons(m: Span, spans: seq<Span>, k: nat)
    ensures Masked([m] + spans, k) <==> m.from <= k < m.to || Masked(spans, k)
  {
    assert m in [m] + spans && forall x <- spans :: x in [m] + spans;
  }

  // ---- addresses, times and dates ----

  /** Digit groups of these widths, one separator between each two, from `a` up to `b`. */
  predicate Grouped(s: string, a: nat, b: nat, widths: seq<nat>, seps: set<char>)
    decreases |widths|
  {
    && widths != [] && a + widths[0] <= |s| && (forall k :: a <= k < a + widths[0] ==> Digit(s[k]))
    && if |widths| == 1 then b == a + widths[0]
       else a + widths[0] < |s| && s[a + widths[0]] in seps && Grouped(s, a + widths[0] + 1, b, widths[1..], seps)
  }

  /** What a word boundary beside a digit means at least: no digit on the other side. */
  predicate Edges(s: string, a: nat, b: nat) {
    (a == 0 || a > |s| || !Digit(s[a - 1])) && (b >= |s| || !Digit(s[b]))
  }

  predicate IsIpv4(w: seq<nat>) { |w| == 4 && forall x <- w :: 1 <= x <= 3 }

  predicate IsTime(w: seq<nat>) { 2 <= |w| <= 3 && 1 <= w[0] <= 2 && forall i :: 1 <= i < |w| ==> w[i] == 2 }

  predicate IsDate(w: seq<nat>) { |w| == 3 && 1 <= w[0] <= 2 && 1 <= w[1] <= 2 && 2 <= w[2] <= 4 }

  /** A match of the address, time or date expression. */
  ghost predicate Numeric(s: string, m: Span) {
    Edges(s, m.from, m.to) && exists w: seq<nat> ::
      || (IsIpv4(w) && Grouped(s, m.from, m.to, w, {'.'}))
      || (IsTime(w) && Grouped(s, m.from, m.to, w, {':'}))
      || (IsDate(w) && Grouped(s, m.from, m.to, w, {'.', '/'}))
  }

  const SEPS := {'.', ':', '/'}

  lemma {:induction false} GroupedMisses(s: string, a: nat, b: nat, w: seq<nat>, seps: set<char>, p: nat)
    requires Grouped(s, a, b, w, seps) && seps <= SEPS && forall x <- w :: 1 <= x <= 4
    requires Edges(s, a, b) && p + 5 <= |s| && FiveDigits(s[p..p + 5])
    ensures a < b <= |s| && (p + 5 <= a || b <= p)
    ensures forall k :: a <= k < b ==> Digit(s[k]) || s[k] in SEPS
    decreases |w|
  {
    var end := a + w[0];
    assert forall k :: p <= k < p + 5 ==> Digit(s[k]) by {
      forall k | p <= k < p + 5 ensures Digit(s[k]) { assert s[p..p + 5][k - p] == s[k]; }
    }
    assert w[0] in w;
    assert a > 0 ==> !(p <= a - 1 < p + 5);
    assert end < |s| ==> !Digit(s[end]);
    if |w| > 1 {
      assert forall x <- w[1..] :: x in w;
      GroupedMisses(s, end + 1, b, w[1..], seps, p);
    }
  }

  /** No numeric shape reaches into five digits in a row: its groups are whole and shorter. */
  lemma NumericMissesFive(s: string, m: Span, p: nat)
    requires Numeric(s, m) && p + 5 <= |s| && FiveDigits(s[p..p + 5])
    ensures m.from < m.to <= |s| && (p + 5 <= m.from || m.to <= p)
    ensures forall k :: m.from <= k < m.to ==> Digit(s[k]) || s[k] in SEPS
  {
    var w: seq<nat> :|
      || (IsIpv4(w) && Grouped(s, m.from, m.to, w, {'.'}))
      || (IsTime(w) && Grouped(s, m.from, m.to, w, {':'}))
      || (IsDate(w) && Grouped(s, m.from, m.to, w, {'.', '/'}));
    assert forall x <- w :: 1 <= x <= 4;
    var seps := if IsIpv4(w) && Grouped(s, m.from, m.to, w, {'.'}) then {'.'}
    else if IsTime(w) && Grouped(s, m.from, m.to, w, {':'}) then {':'} else {'.', '/'};
    GroupedMisses(s, m.from, m.to, w, seps, p);
  }

  lemma NumericIsProper(s: string, m: Span)
    requires Numeric(s, m)
    ensures m.from < m.to
  {
    var w: seq<nat> :|
      || (IsIpv4(w) && Grouped(s, m.from, m.to, w, {'.'}))
      || (IsTime(w) && Grouped(s, m.from, m.to, w, {':'}))
      || (IsDate(w) && Grouped(s, m.from, m.to, w, {'.', '/'}));
    assert w[0] >= 1 by { assert w[0] in w; }
    var seps := if IsIpv4(w) && Grouped(s, m.from, m.to, w, {'.'}) then {'.'}
    else if IsTime(w) && Grouped(s, m.from, m.to, w, {':'}) then {':'} else {'.', '/'};
    GroupedGrows(s, m.from, m.to, w, seps);
  }

  lemma {:induction false} GroupedGrows(s: string, a: nat, b: nat, w: seq<nat>, seps: set<char>)
    requires Grouped(s, a, b, w, seps)
    ensures a + w[0] <= b
    decreases |w|
  {
    if |w| > 1 { GroupedGrows(s, a + w[0] + 1, b, w[1..], seps); }
  }

  // ---- what is masked, in words ----

  /** A phone number: a plus, a digit, and six or more digits, blanks, hyphens or brackets. All of it is masked. */
  lemma PhoneIsMasked(s: string, i: nat, end: nat, k: nat)
    requires i + 8 <= end <= |s| && s[i] == '+' && Digit(s[i + 1])
    requires forall j :: i + 2 <= j < end ==> Digit(s[j]) || s[j] in " \t\n\r-()"
    requires i <= k < end
    ensures Inside(Phone, s, k)
  {
    assert forall j :: i + 2 <= j < end ==> PhoneChar(s[j]);
    assert Covers(Phone, s, i, k);
  }

  /** And nothing else is: a masked position stands behind such a plus with only such characters in between. */
  lemma MaskedIsPhone(s: string, k: nat) returns (i: nat)
    requires Inside(Phone, s, k)
    ensures i <= k < |s| && i + 8 <= |s| && s[i] == '+' && Digit(s[i + 1])
    ensures forall j :: i + 2 <= j <= k || i + 2 <= j < i + 8 ==> Digit(s[j]) || s[j] in " \t\n\r-()"
  {
    i :| Covers(Phone, s, i, k);
    var e := StretchEnd(s, i + 2, PhoneChar);
    forall j | i + 2 <= j < e ensures Digit(s[j]) || s[j] in " \t\n\r-()" {
      assert PhoneChar(s[j]);
      if !Digit(s[j]) { OneOfBlanks(s[j]); }
    }
  }

  lemma OneOfBlanks(c: char)
    requires Space(c) || c in {'-', '(', ')'}
    ensures c in " \t\n\r-()"
  {
    var t := " \t\n\r-()";
    assert t[0] == ' ' && t[1] == '\t' && t[2] == '\n' && t[3] == '\r' && t[4] == '-' && t[5] == '(' && t[6] == ')';
  }

  /** A link, in small or capital letters, is masked up to the next blank. */
  lemma LinkIsMasked(s: string, i: nat, end: nat, k: nat)
    requires i <= end <= |s| && (forall j :: i <= j < end ==> s[j] !in " \t\n\r") && i <= k < end
    requires i + 9 <= end
    requires Lower(s[i..i + 7]) == "http://" || Lower(s[i..i + 8]) == "https://"
    ensures Inside(Url, s, k)
  {
    var word := if Lower(s[i..i + 7]) == "http://" then "http://" else "https://";
    SpelledOut(s, i, word);
    if word == "https://" {
      assert SameLetter(s[i + 4], word[4]) && word[4] == 's' && "http://"[4] == ':';
      assert !Spells(s, i, "http://");
    }
    var from := i + |word|;
    assert forall j :: from <= j < end ==> !Space(s[j]);
    assert Covers(Url, s, i, k);
  }

  lemma SpelledOut(s: string, i: nat, word: string)
    requires i + |word| <= |s| && Lower(s[i..i + |word|]) == word
    ensures Spells(s, i, word)
  {
    forall k | 0 <= k < |word| ensures SameLetter(s[i + k], word[k]) {
      assert s[i..i + |word|][k] == s[i + k];
      assert Lower(s[i..i + |word|])[k] == word[k];
    }
  }

  /** And nothing else is: a masked position stands behind a scheme and a letter, with no blank in between. */
  lemma MaskedIsLink(s: string, k: nat) returns (i: nat, from: nat)
    requires Inside(Url, s, k)
    ensures i <= k < |s| && i + 7 <= from < |s| && from <= i + 8
    ensures Spells(s, i, if from == i + 7 then "http://" else "https://")
    ensures forall j :: i <= j <= k || from <= j <= from ==> s[j] !in " \t\n\r"
  {
    i :| Covers(Url, s, i, k);
    from := if Spells(s, i, "http://") then i + 7 else i + 8;
    NoSpaceInUrl(s, i);
  }

  const FORTY := "0123456789" + "\U{0660}\U{0661}\U{0662}\U{0663}\U{0664}\U{0665}\U{0666}\U{0667}\U{0668}\U{0669}"
    + "\U{06F0}\U{06F1}\U{06F2}\U{06F3}\U{06F4}\U{06F5}\U{06F6}\U{06F7}\U{06F8}\U{06F9}"
    + "\U{FF10}\U{FF11}\U{FF12}\U{FF13}\U{FF14}\U{FF15}\U{FF16}\U{FF17}\U{FF18}\U{FF19}"

  /** The digits, one by one. */
  lemma DigitsAreForty(c: char)
    ensures Digit(c) <==> c in FORTY
  {
    assert |FORTY| == 40;
    if '0' <= c <= '9' { assert FORTY[c as int - '0' as int] == c; }
    if '\U{0660}' <= c <= '\U{0669}' { assert FORTY[10 + c as int - 0x660] == c; }
    if '\U{06F0}' <= c <= '\U{06F9}' { assert FORTY[20 + c as int - 0x6F0] == c; }
    if '\U{FF10}' <= c <= '\U{FF19}' { assert FORTY[30 + c as int - 0xFF10] == c; }
  }
}
