/**
The login-code scanner: which five digits of a service message, if any, are the code.
*/
module LoginCode {
  import opened Wrappers
  import opened Text
  import opened LoginMasks

  const MAX_TEXT_LEN := 512

  const CONTEXT_TERMS := [
    "код", "код для входа", "код входа", "войти", "вход", "никому не сообщайте",
    "не сообщайте", "код подтверждения", "подтверждени",
    "code", "login code", "login", "log in", "do not give this code",
    "don't give this code", "confirmation code", "verification code"]

  predicate HasContext(s: string) { exists term <- CONTEXT_TERMS :: Contains(Lower(s), term) }

  /** Exactly five digits with no digit on either side. */
  predicate IsRun(s: string, p: nat) {
    && p + 5 <= |s| && FiveDigits(s[p..p + 5])
    && (p == 0 || !Digit(s[p - 1])) && (p + 5 == |s| || !Digit(s[p + 5]))
  }

  // ---- masks ----

  predicate Overlap(a: nat, b: nat, spans: seq<Span>) {
    exists m <- spans :: a < m.to && m.from < b
  }

  /** Every mask pattern matches at least one character. */
  predicate Proper(spans: seq<Span>) { forall m <- spans :: m.from < m.to }

  ghost predicate Bare(spans: seq<Span>, a: nat, b: nat) {
    forall k: nat :: a <= k < b ==> !Masked(spans, k)
  }

  lemma OverlapMeansMasked(a: nat, b: nat, spans: seq<Span>)
    requires a < b && Proper(spans)
    ensures Overlap(a, b, spans) <==> !Bare(spans, a, b)
  {
    if m :| m in spans && a < m.to && m.from < b {
      assert Masked(spans, if a < m.from then m.from else a);
    }
  }

  method Overlaps(a: nat, b: nat, spans: seq<Span>) returns (r: bool)
    requires a < b && Proper(spans)
    ensures r <==> !Bare(spans, a, b)
  {
    OverlapMeansMasked(a, b, spans);
    for i := 0 to |spans|
      invariant forall j :: 0 <= j < i ==> !(a < spans[j].to && spans[j].from < b)
    {
      if a < spans[i].to && spans[i].from < b { return true; }
    }
    r := false;
  }

  // ---- the plain-text scan ----

  /** Each digit run of length five, left to right; the scan resumes after a match. */
  method FindRuns(s: string) returns (ps: seq<nat>)
    ensures forall p: nat :: p in ps <==> IsRun(s, p)
    ensures forall i, j :: 0 <= i < j < |ps| ==> ps[i] + 5 <= ps[j]
  {
    ps := [];
    var i := 0;
    while i < |s|
      invariant forall p: nat :: p in ps <==> p < i && IsRun(s, p)
      invariant forall k :: 0 <= k < |ps| ==> ps[k] + 5 <= i
      invariant forall j, k :: 0 <= j < k < |ps| ==> ps[j] + 5 <= ps[k]
    {
      if IsRun(s, i) {
        forall p: nat | i < p < i + 5 ensures !IsRun(s, p) { assert s[i..i + 5][p - 1 - i] == s[p - 1]; }
        ps := ps + [i];
        i := i + 5;
      } else {
        i := i + 1;
      }
    }
  }

  /** The codes the text shows outside every mask. */
  ghost function Shown(s: string, spans: seq<Span>): set<string> {
    set p: nat | p < |s| && IsRun(s, p) && Bare(spans, p, p + 5) :: s[p..p + 5]
  }

  method Candidates(s: string, spans: seq<Span>) returns (codes: seq<string>)
    requires Proper(spans)
    ensures forall c :: c in codes <==> c in Shown(s, spans)
  {
    var ps := FindRuns(s);
    codes := [];
    for i := 0 to |ps|
      invariant forall c <- codes :: c in Shown(s, spans)
      invariant forall j :: 0 <= j < i ==> ShownAt(s, spans, codes, ps[j])
    {
      assert ps[i] in ps;
      var over := Overlaps(ps[i], ps[i] + 5, spans);
      if !over {
        assert s[ps[i]..ps[i] + 5] in Shown(s, spans);
        codes := codes + [s[ps[i]..ps[i] + 5]];
      }
    }
    forall p: nat | IsRun(s, p) ensures ShownAt(s, spans, codes, p) { assert p in ps; }
  }

  ghost predicate ShownAt(s: string, spans: seq<Span>, codes: seq<string>, p: nat) {
    IsRun(s, p) && Bare(spans, p, p + 5) ==> s[p..p + 5] in codes
  }

  /** First occurrences in order. */
  method Distinct(xs: seq<string>) returns (us: seq<string>)
    ensures forall c :: c in us <==> c in xs
    ensures forall i, j :: 0 <= i < j < |us| ==> us[i] != us[j]
  {
    us := [];
    for i := 0 to |xs|
      invariant forall c :: c in us <==> c in xs[..i]
      invariant forall j, k :: 0 <= j < k < |us| ==> us[j] != us[k]
    {
      assert xs[..i + 1] == xs[..i] + [xs[i]];
      if xs[i] !in us { us := us + [xs[i]]; }
    }
    assert xs[..|xs|] == xs;
  }

  lemma OnlyOne(us: seq<string>, codes: set<string>)
    requires forall c :: c in us <==> c in codes
    requires forall i, j :: 0 <= i < j < |us| ==> us[i] != us[j]
    ensures |us| == 1 <==> exists c :: codes == {c}
    ensures |us| == 1 ==> codes == {us[0]}
  {
    if |us| == 1 {
      assert us[0] in us;
      forall c | c in codes ensures c == us[0] { assert c in us; }
      assert codes == {us[0]};
    } else {
      forall c ensures codes != {c} {
        assert c in us <==> c in codes;
        if |us| > 1 { assert us[0] in us && us[1] in us; }
      }
    }
  }

  // ---- marked entities ----

  /** A message entity; an offset or length that is no integer is absent. */
  datatype Entity = Entity(isCode: bool, offset: Option<int>, length: Option<int>)

  predicate InText(s: string, e: Entity) {
    && e.offset.Some? && e.length.Some?
    && 0 <= e.offset.value && 0 < e.length.value && e.offset.value + e.length.value <= |s|
  }

  function Fragment(s: string, e: Entity): string
    requires InText(s, e)
  {
    s[e.offset.value..e.offset.value + e.length.value]
  }

  predicate MarksCode(s: string, spans: seq<Span>, e: Entity) {
    && e.isCode && InText(s, e) && FiveDigits(Strip(Fragment(s, e)))
    && !Overlap(e.offset.value, e.offset.value + e.length.value, spans)
  }

  /** The code of the first entity that marks one. */
  function FirstMarked(s: string, spans: seq<Span>, es: seq<Entity>): Option<string> {
    if es == [] then None
    else if MarksCode(s, spans, es[0]) then Some(Strip(Fragment(s, es[0])))
    else FirstMarked(s, spans, es[1..])
  }

  method ScanEntities(s: string, spans: seq<Span>, es: seq<Entity>) returns (code: Option<string>)
    requires Proper(spans)
    ensures code == FirstMarked(s, spans, es)
  {
    for i := 0 to |es|
      invariant FirstMarked(s, spans, es) == FirstMarked(s, spans, es[i..])
    {
      var e := es[i];
      assert es[i..][1..] == es[i + 1..];
      if e.isCode && InText(s, e) {
        var fragment := Strip(Fragment(s, e));
        var over := Overlaps(e.offset.value, e.offset.value + e.length.value, spans);
        OverlapMeansMasked(e.offset.value, e.offset.value + e.length.value, spans);
        if FiveDigits(fragment) && !over { return Some(fragment); }
      }
    }
    code := None;
  }

  /** Where the five digits of a marked fragment stand in the text. */
  lemma MarkedPosition(s: string, e: Entity) returns (p: nat)
    requires InText(s, e) && FiveDigits(Strip(Fragment(s, e)))
    ensures e.offset.value <= p && p + 5 <= e.offset.value + e.length.value
    ensures s[p..p + 5] == Strip(Fragment(s, e))
    ensures forall k :: e.offset.value <= k < p || p + 5 <= k < e.offset.value + e.length.value ==> Space(s[k])
  {
    var f := Fragment(s, e);
    var l, r := StripBounds(f);
    p := e.offset.value + l;
    assert r == l + 5;
    SliceOfSlice(s, e.offset.value, e.offset.value + e.length.value, l, r);
    forall k | e.offset.value <= k < p || p + 5 <= k < e.offset.value + e.length.value ensures Space(s[k]) {
      assert f[k - e.offset.value] == s[k];
    }
  }

  lemma SliceOfSlice(s: string, a: nat, b: nat, l: nat, r: nat)
    requires a <= b <= |s| && l <= r <= b - a
    ensures s[a..b][l..r] == s[a + l..a + r]
  {
    forall k | 0 <= k < r - l ensures s[a..b][l..r][k] == s[a + l..a + r][k] { assert s[a..b][l + k] == s[a + l + k]; }
  }

  lemma StripBounds(s: string) returns (l: nat, r: nat)
    ensures l <= r <= |s| && Strip(s) == s[l..r]
    ensures forall i :: 0 <= i < l || r <= i < |s| ==> Space(s[i])
  {
    l := LeftBound(s);
    var k := RightBound(s[l..]);
    r := l + k;
    assert s[l..][..k] == s[l..r];
    assert forall i :: r <= i < |s| ==> s[i] == s[l..][i - l];
  }

  lemma {:induction false} LeftBound(s: string) returns (l: nat)
    ensures l <= |s| && StripLeft(s) == s[l..] && forall i :: 0 <= i < l ==> Space(s[i])
  {
    l := 0;
    if s != "" && Space(s[0]) {
      var k := LeftBound(s[1..]);
      l := k + 1;
      assert s[1..][k..] == s[l..];
      assert forall i :: 1 <= i < l ==> s[i] == s[1..][i - 1];
    }
  }

  lemma {:induction false} RightBound(s: string) returns (r: nat)
    ensures r <= |s| && StripRight(s) == s[..r] && forall i :: r <= i < |s| ==> Space(s[i])
  {
    r := |s|;
    if s != "" && Space(s[|s| - 1]) {
      r := RightBound(s[..|s| - 1]);
      assert s[..|s| - 1][..r] == s[..r];
    }
  }

  // ---- all masks of a text ----

  /** The masks that matter: links and phone numbers. */
  function Masks(s: string): seq<Span> { Matches(Url, s, 0) + Matches(Phone, s, 0) }

  /** All masks, with whatever the address, time and date expressions find in between. */
  function AllMasks(s: string, numeric: seq<Span>): seq<Span> {
    Matches(Url, s, 0) + numeric + Matches(Phone, s, 0)
  }

  lemma MasksAreMatches(s: string, k: nat)
    ensures Masked(Masks(s), k) <==> Inside(Url, s, k) || Inside(Phone, s, k)
  {
    MatchesCoverAll(Url, s, 0, k);
    MatchesCoverAll(Phone, s, 0, k);
    MaskedSum(Matches(Url, s, 0), Matches(Phone, s, 0), k);
  }

  lemma MaskedSum(a: seq<Span>, b: seq<Span>, k: nat)
    ensures Masked(a + b, k) <==> Masked(a, k) || Masked(b, k)
  {
    assert forall m <- a :: m in a + b;
    assert forall m <- b :: m in a + b;
  }

  lemma {:induction false} MatchesAreProper(pat: Pattern, s: string, i: nat)
    ensures Proper(Matches(pat, s, i))
    decreases |s| - i
  {
    if i < |s| {
      var end := MatchEnd(pat, s, i);
      MatchesAreProper(pat, s, if end.Some? then end.value else i + 1);
    }
  }

  lemma AllProper(s: string, numeric: seq<Span>)
    requires forall m <- numeric :: Numeric(s, m)
    ensures Proper(Masks(s)) && Proper(AllMasks(s, numeric))
  {
    MatchesAreProper(Url, s, 0);
    MatchesAreProper(Phone, s, 0);
    forall m | m in numeric ensures m.from < m.to { NumericIsProper(s, m); }
  }

  /** A numeric match covers no position of the stretch. */
  ghost predicate Misses(numeric: seq<Span>, a: nat, b: nat) {
    forall m <- numeric :: b <= m.from || m.to <= a
  }

  lemma BareWithout(s: string, numeric: seq<Span>, a: nat, b: nat)
    requires Misses(numeric, a, b)
    ensures Bare(AllMasks(s, numeric), a, b) <==> Bare(Masks(s), a, b)
  {
    forall k: nat | a <= k < b ensures Masked(AllMasks(s, numeric), k) <==> Masked(Masks(s), k) {
      MaskedSum(Matches(Url, s, 0) + numeric, Matches(Phone, s, 0), k);
      MaskedSum(Matches(Url, s, 0), numeric, k);
      MaskedSum(Matches(Url, s, 0), Matches(Phone, s, 0), k);
    }
  }

  lemma NumericMissesEntity(s: string, m: Span, e: Entity)
    requires InText(s, e) && FiveDigits(Strip(Fragment(s, e))) && Numeric(s, m)
    ensures e.offset.value + e.length.value <= m.from || m.to <= e.offset.value
  {
    var p := MarkedPosition(s, e);
    NumericMissesFive(s, m, p);
    var (from, to) := (e.offset.value, e.offset.value + e.length.value);
    var k := if m.from < from then from else m.from;
    assert from <= k < to && !(p <= k < p + 5) ==> Space(s[k]);
  }

  lemma SameMark(s: string, numeric: seq<Span>, e: Entity)
    requires forall m <- numeric :: Numeric(s, m)
    ensures MarksCode(s, AllMasks(s, numeric), e) <==> MarksCode(s, Masks(s), e)
  {
    if e.isCode && InText(s, e) && FiveDigits(Strip(Fragment(s, e))) {
      var (from, to) := (e.offset.value, e.offset.value + e.length.value);
      forall m | m in numeric ensures to <= m.from || m.to <= from { NumericMissesEntity(s, m, e); }
      BareWithout(s, numeric, from, to);
      AllProper(s, numeric);
      OverlapMeansMasked(from, to, Masks(s));
      OverlapMeansMasked(from, to, AllMasks(s, numeric));
    }
  }

  lemma {:induction false} SameMarks(s: string, numeric: seq<Span>, es: seq<Entity>)
    requires forall m <- numeric :: Numeric(s, m)
    ensures FirstMarked(s, AllMasks(s, numeric), es) == FirstMarked(s, Masks(s), es)
  {
    if es != [] {
      SameMark(s, numeric, es[0]);
      SameMarks(s, numeric, es[1..]);
    }
  }

  /**
  The address, time and date masks never change a result, whatever those expressions match: each
  group in a match is a whole digit run of at most four, so no five digits are ever inside one.
  */
  lemma NumericMasksAreIdle(s: string, numeric: seq<Span>, es: seq<Entity>)
    requires forall m <- numeric :: Numeric(s, m)
    ensures FirstMarked(s, AllMasks(s, numeric), es) == FirstMarked(s, Masks(s), es)
    ensures Shown(s, AllMasks(s, numeric)) == Shown(s, Masks(s))
  {
    SameMarks(s, numeric, es);
    forall p: nat | p < |s| && IsRun(s, p)
      ensures Bare(AllMasks(s, numeric), p, p + 5) <==> Bare(Masks(s), p, p + 5)
    {
      forall m | m in numeric ensures p + 5 <= m.from || m.to <= p { NumericMissesFive(s, m, p); }
      BareWithout(s, numeric, p, p + 5);
    }
  }

  // ---- the parser ----

  predicate Admissible(s: string) { s != "" && |s| <= MAX_TEXT_LEN && HasContext(s) }

  /** Five digits standing in the text at `p`, none of them inside a link or a phone number. */
  ghost predicate StandsAt(s: string, code: string, p: nat) {
    && p + 5 <= |s| && s[p..p + 5] == code && FiveDigits(code)
    && forall k: nat :: p <= k < p + 5 ==> !Inside(Url, s, k) && !Inside(Phone, s, k)
  }

  /**
  Without entities the code is returned exactly when it is the one value shown. With them the
  first marked fragment wins. Any code returned is five digits outside every link and phone
  number. What the numeric expressions match makes no difference.
  */
  method ParseLoginCode(s: string, numeric: seq<Span>, es: seq<Entity>) returns (code: Option<string>)
    requires forall m <- numeric :: Numeric(s, m)
    ensures !Admissible(s) ==> code == None
    ensures Admissible(s) && FirstMarked(s, Masks(s), es).Some? ==> code == FirstMarked(s, Masks(s), es)
    ensures FirstMarked(s, Masks(s), es) == None ==>
              forall c :: code == Some(c) <==> Admissible(s) && Shown(s, Masks(s)) == {c}
    ensures code.Some? ==> exists p: nat :: StandsAt(s, code.value, p)
  {
    if !Admissible(s) { return None; }
    var urls := FindMatches(Url, s);
    var phones := FindMatches(Phone, s);
    var spans := urls + numeric + phones;
    AllProper(s, numeric);
    NumericMasksAreIdle(s, numeric, es);
    code := ScanEntities(s, spans, es);
    if code.Some? {
      MarkedStands(s, es);
      return;
    }
    var codes := Candidates(s, spans);
    var uniq := Distinct(codes);
    OnlyOne(uniq, Shown(s, spans));
    if |uniq| == 1 {
      assert uniq[0] in Shown(s, Masks(s));
      ghost var p: nat :| p < |s| && IsRun(s, p) && Bare(Masks(s), p, p + 5) && s[p..p + 5] == uniq[0];
      BareStands(s, p);
      return Some(uniq[0]);
    }
    code := None;
  }

  lemma BareStands(s: string, p: nat)
    requires p + 5 <= |s| && FiveDigits(s[p..p + 5]) && Bare(Masks(s), p, p + 5)
    ensures StandsAt(s, s[p..p + 5], p)
  {
    forall k: nat | p <= k < p + 5 ensures !Inside(Url, s, k) && !Inside(Phone, s, k) {
      MasksAreMatches(s, k);
      assert !Masked(Masks(s), k);
    }
  }

  lemma {:induction false} MarkedStands(s: string, es: seq<Entity>)
    requires Proper(Masks(s)) && FirstMarked(s, Masks(s), es).Some?
    ensures exists p: nat :: StandsAt(s, FirstMarked(s, Masks(s), es).value, p)
  {
    if MarksCode(s, Masks(s), es[0]) {
      var p := MarkedPosition(s, es[0]);
      OverlapMeansMasked(es[0].offset.value, es[0].offset.value + es[0].length.value, Masks(s));
      assert forall k: nat :: p <= k < p + 5 ==> !Masked(Masks(s), k);
      BareStands(s, p);
    } else {
      MarkedStands(s, es[1..]);
    }
  }

  /** No digit touches the fragment from outside, unless spaces pad it on that side. */
  predicate SetApart(s: string, e: Entity)
    requires InText(s, e)
  {
    var (from, to) := (e.offset.value, e.offset.value + e.length.value);
    && (from == 0 || !Digit(s[from - 1]) || Space(s[from]))
    && (to == |s| || !Digit(s[to]) || Space(s[to - 1]))
  }

  /**
  A marked fragment is a whole digit run exactly when it is set apart. Otherwise the entity
  cuts its five digits out of a longer number, which the plain-text scan would refuse.
  */
  lemma MarkedIsARun(s: string, spans: seq<Span>, e: Entity) returns (p: nat)
    requires MarksCode(s, spans, e)
    ensures p + 5 <= |s| && s[p..p + 5] == Strip(Fragment(s, e))
    ensures IsRun(s, p) <==> SetApart(s, e)
  {
    p := MarkedPosition(s, e);
    var (from, to) := (e.offset.value, e.offset.value + e.length.value);
    var code := s[p..p + 5];
    assert s[p] == code[0] && s[p + 4] == code[4];
    assert p == from || (Space(s[p - 1]) && Space(s[from]));
    assert p + 5 == to || (Space(s[p + 5]) && Space(s[to - 1]));
  }

  /** The text, the entity and the cut: five of eight digits, from a text that shows no code. */
  lemma EntityCutsANumber() returns (s: string, e: Entity)
    ensures Admissible(s) && FirstMarked(s, Masks(s), [e]) == Some("12345")
    ensures Shown(s, Masks(s)) == {}
  {
    var digits := "12345678";
    s, e := "код" + digits, Entity(true, Some(3), Some(5));
    LongNumber(s);
    assert Fragment(s, e) == "12345";
    MarksTrimmed(s, e, "12345");
  }

  lemma LongNumber(s: string)
    requires s == "код12345678"
    ensures Admissible(s) && Masks(s) == [] && Shown(s, Masks(s)) == {}
  {
    SaysCode(s);
    NoMasks(s);
    NoRuns(s);
  }

  lemma SaysCode(s: string)
    requires s == "код12345678"
    ensures Admissible(s)
  {
    assert Lower(s)[0..] == Lower(s) && Lower(s)[..3] == "код";
    InContext(s);
  }

  lemma NoRuns(s: string)
    requires s == "код12345678"
    ensures forall p: nat :: !IsRun(s, p)
  {
    assert forall k :: 3 <= k < 11 ==> Digit(s[k]);
    assert forall k :: 0 <= k < 3 ==> !Digit(s[k]);
    forall p: nat ensures !IsRun(s, p) { NoRunInside(s, 3, p); }
  }

  lemma NoMasks(s: string)
    requires s == "код12345678"
    ensures Masks(s) == []
  {
    NothingToMatch(Url, s, 0);
    NothingToMatch(Phone, s, 0);
  }

  lemma {:induction false} NothingToMatch(pat: Pattern, s: string, i: nat)
    requires forall k :: 0 <= k < |s| ==> s[k] != '+' && s[k] != 'h' && s[k] != 'H'
    ensures Matches(pat, s, i) == []
    decreases |s| - i
  {
    if i < |s| {
      assert !SameLetter(s[i + 0], 'h');
      assert "http://"[0] == 'h' && "https://"[0] == 'h';
      NothingToMatch(pat, s, i + 1);
    }
  }

  lemma MarksTrimmed(s: string, e: Entity, code: string)
    requires e.isCode && InText(s, e) && Fragment(s, e) == code && Trimmed(code) && FiveDigits(code)
    ensures FirstMarked(s, [], [e]) == Some(code)
  {
    StripTrims(code);
  }

  lemma InContext(s: string)
    requires Contains(Lower(s), "код")
    ensures HasContext(s)
  {
    assert CONTEXT_TERMS[0] == "код" && CONTEXT_TERMS[0] in CONTEXT_TERMS;
  }

  /** A text that ends in more than five digits, and has no others, shows no run. */
  lemma NoRunInside(s: string, from: nat, p: nat)
    requires from + 5 < |s| && (forall k :: from <= k < |s| ==> Digit(s[k]))
    requires (forall k :: 0 <= k < from ==> !Digit(s[k]))
    ensures !IsRun(s, p)
  {
    if p + 5 <= |s| { assert s[p..p + 5][0] == s[p]; }
  }

  /** What looks like an address but ends in five digits is no address: they are shown as a code. */
  lemma AddressTailIsShown() returns (s: string)
    ensures s == "1.2.3.12345" && "12345" in Shown(s, Masks(s))
  {
    s := "1.2.3." + "12345";
    NothingToMatch(Url, s, 0);
    NothingToMatch(Phone, s, 0);
    assert Masks(s) == [];
    assert s[6..11] == "12345" && FiveDigits("12345");
    assert IsRun(s, 6);
    assert Bare(Masks(s), 6, 11);
  }

  // ---- the message in words ----

  lemma ContainsPart(s: string, whole: string, k: nat, part: string)
    requires k + |part| <= |whole| && whole[k..k + |part|] == part && Contains(s, whole)
    ensures Contains(s, part)
  {
    var i :| 0 <= i <= |s| && whole <= s[i..];
    assert s[i..][..|whole|] == whole;
    assert s[i + k..][..|part|] == whole[k..k + |part|];
    assert part <= s[i + k..];
  }

  const SIGNS := ["код", "войти", "вход", "не сообщайте", "подтверждени", "code", "login", "log in"]

  /** The seventeen terms come to eight: a message is about a login exactly if it has one of these in it. */
  lemma EightSignsAreEnough(s: string)
    ensures HasContext(s) <==> exists sign <- SIGNS :: Contains(Lower(s), sign)
  {
    var t := Lower(s);
    forall term | term in CONTEXT_TERMS && Contains(t, term) ensures exists sign <- SIGNS :: Contains(t, sign) {
      var sign, k := SignIn(term);
      ContainsPart(t, term, k, sign);
    }
    forall sign | sign in SIGNS && Contains(t, sign) ensures HasContext(s) { SignIsATerm(sign); }
  }

  lemma SignIsATerm(sign: string)
    requires sign in SIGNS
    ensures sign in CONTEXT_TERMS
  {
    assert CONTEXT_TERMS[0] == "код" && CONTEXT_TERMS[3] == "войти" && CONTEXT_TERMS[4] == "вход";
    assert CONTEXT_TERMS[6] == "не сообщайте" && CONTEXT_TERMS[8] == "подтверждени" && CONTEXT_TERMS[9] == "code";
    assert CONTEXT_TERMS[11] == "login" && CONTEXT_TERMS[12] == "log in";
  }

  lemma SignIn(term: string) returns (sign: string, k: nat)
    requires term in CONTEXT_TERMS
    ensures sign in SIGNS && k + |sign| <= |term| && term[k..k + |sign|] == sign
  {
    var i :| 0 <= i < |CONTEXT_TERMS| && CONTEXT_TERMS[i] == term;
    if i in {0, 3, 4, 6, 8, 9, 11, 12} {
      sign, k := term, 0;
      TermIsASign(i);
      assert term[0..|term|] == term;
    } else {
      sign, k := LongerTerm(i);
    }
  }

  lemma TermIsASign(i: nat)
    requires i in {0, 3, 4, 6, 8, 9, 11, 12}
    ensures CONTEXT_TERMS[i] in SIGNS
  {
    assert SIGNS[0] == "код" && SIGNS[1] == "войти" && SIGNS[2] == "вход" && SIGNS[3] == "не сообщайте";
    assert SIGNS[4] == "подтверждени" && SIGNS[5] == "code" && SIGNS[6] == "login" && SIGNS[7] == "log in";
  }

  lemma LongerTerm(i: nat) returns (sign: string, k: nat)
    requires i in {1, 2, 5, 7, 10, 13, 14, 15, 16}
    ensures sign in SIGNS && k + |sign| <= |CONTEXT_TERMS[i]| && CONTEXT_TERMS[i][k..k + |sign|] == sign
  {
    if i in {1, 2, 7} {
      sign, k := "код", 0;
      assert SIGNS[0] == "код";
      assert "код для входа"[0..3] == "код" && "код входа"[0..3] == "код" && "код подтверждения"[0..3] == "код";
    } else if i == 5 {
      sign, k := "не сообщайте", 7;
      assert SIGNS[3] == sign && "никому не сообщайте"[7..19] == sign;
    } else {
      sign, k := "code", if i == 10 then 6 else if i == 13 then 17 else if i == 14 then 16 else 13;
      assert SIGNS[5] == "code";
      CodeAtTheEnd(i);
    }
  }

  lemma CodeAtTheEnd(i: nat)
    requires i in {10, 13, 14, 15, 16}
    ensures var (t, k) := (CONTEXT_TERMS[i], if i == 10 then 6 else if i == 13 then 17 else if i == 14 then 16 else 13);
            |t| == k + 4 && t[k..k + 4] == "code"
  {
    if i == 10 {
      assert "login code"[6..10] == "code";
    } else if i == 13 {
      assert "do not give this code"[17..21] == "code";
    } else if i == 14 {
      assert "don't give this code"[16..20] == "code";
    } else if i == 15 {
      assert "confirmation code"[13..17] == "code";
    } else {
      assert "verification code"[13..17] == "code";
    }
  }

  /** The code of the first entity that is code, holds five digits but for blanks around them, and is clear. */
  lemma {:induction false} FirstMarkInWords(s: string, spans: seq<Span>, es: seq<Entity>, i: nat)
    requires i < |es| && Marks(s, spans, es[i]) && forall j :: 0 <= j < i ==> !Marks(s, spans, es[j])
    ensures FirstMarked(s, spans, es) ==
      Some(Strip(s[es[i].offset.value..es[i].offset.value + es[i].length.value]))
  {
    if i > 0 {
      assert forall j :: 0 <= j < i - 1 ==> es[1..][j] == es[j + 1];
      FirstMarkInWords(s, spans, es[1..], i - 1);
    }
  }

  predicate Marks(s: string, spans: seq<Span>, e: Entity) {
    && e.isCode && e.offset.Some? && e.length.Some? && e.offset.value >= 0 && e.length.value >= 1
    && e.offset.value + e.length.value <= |s|
    && FiveDigits(Strip(s[e.offset.value..e.offset.value + e.length.value]))
    && forall m <- spans :: m.to <= e.offset.value || e.offset.value + e.length.value <= m.from
  }

  lemma {:induction false} NoMarkNoCode(s: string, spans: seq<Span>, es: seq<Entity>)
    requires forall e <- es :: !Marks(s, spans, e)
    ensures FirstMarked(s, spans, es) == None
  {
    if es != [] {
      assert es[0] in es && forall e <- es[1..] :: e in es;
      NoMarkNoCode(s, spans, es[1..]);
    }
  }

  /** A message is looked at exactly if it has between one and 512 characters and one of the signs. */
  lemma LookedAt(s: string)
    ensures Admissible(s) <==> 1 <= |s| <= 512 && exists sign <- SIGNS :: Contains(Lower(s), sign)
  {
    EightSignsAreEnough(s);
  }
}
