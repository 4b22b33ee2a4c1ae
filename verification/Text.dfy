/** Text as the code compares it: stripped, lower-cased over Latin and Cyrillic; and comma-separated lists. */
module Text {

  predicate Space(c: char) { c in {' ', '\t', '\n', '\r'} }
  predicate Upper(c: char) { 'A' <= c <= 'Z' || 'А' <= c <= 'Я' }

  function StripLeft(s: string): string {
    if s != "" && Space(s[0]) then StripLeft(s[1..]) else s
  }

  function StripRight(s: string): string {
    if s != "" && Space(s[|s| - 1]) then StripRight(s[..|s| - 1]) else s
  }

  function Strip(s: string): string { StripRight(StripLeft(s)) }

  function Lower(s: string): string {
    seq(|s|, i requires 0 <= i < |s| => if Upper(s[i]) then s[i] + 32 as char else s[i])
  }

  function Clean(s: string): string { Lower(Strip(s)) }

  predicate Plain(s: string) { forall c <- s :: !Space(c) && !Upper(c) }

  lemma PlainIsClean(s: string)
    requires Plain(s)
    ensures Clean(s) == s
  {
    assert Strip(s) == s;
  }

  predicate Contains(s: string, part: string) {
    exists i :: 0 <= i <= |s| && part <= s[i..]
  }

  lemma {:induction false} StripLeftTrims(s: string)
    ensures StripLeft(s) == "" || !Space(StripLeft(s)[0])
    ensures exists k :: 0 <= k <= |s| && StripLeft(s) == s[k..]
  {
    if s != "" && Space(s[0]) {
      StripLeftTrims(s[1..]);
      var k :| 0 <= k <= |s[1..]| && StripLeft(s[1..]) == s[1..][k..];
      assert s[1..][k..] == s[k + 1..];
    } else {
      assert s == s[0..];
    }
  }

  lemma {:induction false} StripRightTrims(s: string)
    ensures StripRight(s) == "" || !Space(StripRight(s)[|StripRight(s)| - 1])
    ensures StripRight(s) <= s
  {
    if s != "" && Space(s[|s| - 1]) { StripRightTrims(s[..|s| - 1]); }
  }

  predicate Trimmed(s: string) {
    s == "" || (!Space(s[0]) && !Space(s[|s| - 1]))
  }

  lemma StripTrims(s: string)
    ensures Trimmed(Strip(s)) && (forall c <- Strip(s) :: c in s)
    ensures Trimmed(s) ==> Strip(s) == s
  {
    StripLeftTrims(s);
    StripRightTrims(StripLeft(s));
  }

  // ---- comma-separated lists ----

  /** The parts between commas; there is always at least one. */
  function Pieces(s: string): (ps: seq<string>)
    ensures |ps| >= 1
  {
    if s == "" then [""]
    else if s[0] == ',' then [""] + Pieces(s[1..])
    else var rest := Pieces(s[1..]); [[s[0]] + rest[0]] + rest[1..]
  }

  /** Stripped, with empty parts dropped. */
  function Kept(ps: seq<string>): seq<string> {
    if ps == [] then []
    else (if Strip(ps[0]) == "" then [] else [Strip(ps[0])]) + Kept(ps[1..])
  }

  function Parse(s: string): seq<string> { Kept(Pieces(s)) }

  function Join(keys: seq<string>): string {
    if keys == [] then ""
    else if |keys| == 1 then keys[0]
    else keys[0] + "," + Join(keys[1..])
  }

  /** A key that a list stores and gives back unchanged. */
  predicate GoodKey(k: string) { k != "" && Trimmed(k) && ',' !in k }

  lemma {:induction false} PiecesOfJoined(a: string, b: string)
    ensures Pieces(a + "," + b) == Pieces(a) + Pieces(b)
  {
    if a == "" {
      assert a + "," + b == "," + b && ("," + b)[1..] == b;
    } else {
      assert (a + "," + b)[1..] == a[1..] + "," + b;
      PiecesOfJoined(a[1..], b);
    }
  }

  lemma {:induction false} KeptOfConcat(a: seq<string>, b: seq<string>)
    ensures Kept(a + b) == Kept(a) + Kept(b)
  {
    if a == [] {
      assert a + b == b;
    } else {
      assert (a + b)[1..] == a[1..] + b;
      KeptOfConcat(a[1..], b);
    }
  }

  lemma {:induction false} PiecesHaveNoComma(s: string)
    ensures forall p <- Pieces(s) :: ',' !in p
    ensures ',' !in s ==> Pieces(s) == [s]
  {
    if s != "" {
      PiecesHaveNoComma(s[1..]);
      assert s == [s[0]] + s[1..];
    }
  }

  lemma {:induction false} KeptAreGood(ps: seq<string>)
    requires forall p <- ps :: ',' !in p
    ensures forall k <- Kept(ps) :: GoodKey(k)
  {
    if ps != [] {
      StripTrims(ps[0]);
      KeptAreGood(ps[1..]);
    }
  }

  lemma ParsedAreGood(s: string)
    ensures forall k <- Parse(s) :: GoodKey(k)
  {
    PiecesHaveNoComma(s);
    KeptAreGood(Pieces(s));
  }

  lemma GoodKeyParsesToItself(k: string)
    requires GoodKey(k)
    ensures Parse(k) == [k]
  {
    PiecesHaveNoComma(k);
    StripTrims(k);
    assert Kept([k]) == [Strip(k)] + Kept([k][1..]);
  }

  lemma ParseOfPair(k: string, rest: string)
    requires GoodKey(k)
    ensures Parse(k + "," + rest) == [k] + Parse(rest)
  {
    PiecesOfJoined(k, rest);
    KeptOfConcat(Pieces(k), Pieces(rest));
    GoodKeyParsesToItself(k);
  }

  lemma JoinOfPair(k: string, rest: seq<string>)
    requires rest != []
    ensures Join([k] + rest) == k + "," + Join(rest)
  {
    assert ([k] + rest)[1..] == rest;
  }

  /** Storing a list of good keys with one more part appended, whatever that part holds. */
  lemma {:induction false} ParseOfJoin(keys: seq<string>, last: string)
    requires forall i :: 0 <= i < |keys| ==> GoodKey(keys[i])
    ensures Parse(Join(keys + [last])) == keys + Parse(last)
  {
    if keys == [] {
      assert keys + [last] == [last];
    } else {
      var (k, rest) := (keys[0], keys[1..]);
      assert forall i :: 0 <= i < |rest| ==> rest[i] == keys[i + 1];
      ParseOfJoin(rest, last);
      ParseOfMore(k, rest, last);
      assert keys == [k] + rest;
    }
  }

  lemma ParseOfMore(k: string, rest: seq<string>, last: string)
    requires GoodKey(k) && Parse(Join(rest + [last])) == rest + Parse(last)
    ensures Parse(Join([k] + rest + [last])) == [k] + rest + Parse(last)
  {
    var tail := rest + [last];
    calc {
      Parse(Join([k] + rest + [last]));
      { assert [k] + rest + [last] == [k] + tail; }
      Parse(Join([k] + tail));
      { JoinOfPair(k, tail); }
      Parse(k + "," + Join(tail));
      { ParseOfPair(k, Join(tail)); }
      [k] + Parse(Join(tail));
      [k] + (rest + Parse(last));
      { Reassociated([k], rest, Parse(last)); }
      [k] + rest + Parse(last);
    }
  }

  lemma Reassociated(a: seq<string>, b: seq<string>, c: seq<string>)
    ensures a + (b + c) == a + b + c
  {
  }

  /** Round trip: a list of good keys is read back as it was stored. */
  lemma JoinThenParse(keys: seq<string>)
    requires forall k <- keys :: GoodKey(k)
    ensures Parse(Join(keys)) == keys
  {
    if keys == [] {
      assert Kept([""]) == Kept([""][1..]);
    } else {
      var (init, last) := (keys[..|keys| - 1], keys[|keys| - 1]);
      assert keys == init + [last];
      ParseOfJoin(init, last);
      GoodKeyParsesToItself(last);
    }
  }
}
