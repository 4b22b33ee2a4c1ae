/**
The selection of unsent events: eligible rows ordered by their rank within their own
manager key, then by id, cut at 30. The theorems say this is a fair share for every key.
*/
module FairBatch {
  import opened Retries
  import opened SentRows
  import opened Wrappers

  datatype Event = Event(id: nat, key: string)

  /** One grant of a user to a manager's cards. */
  datatype Access = Access(canReceive: bool, revoked: bool, cutoff: nat)

  const LIMIT := 30

  /** The WHERE clause: the ledger admits the event, and so does the user's grant. */
  function Eligible(events: set<Event>, grants: map<string, Access>, rows: Rows,
                    user: int, keys: set<string>, now: int): set<Event> {
    set e | e in events
      && e.key in keys && e.key in grants
      && grants[e.key].canReceive && !grants[e.key].revoked && e.id > grants[e.key].cutoff
      && Selectable(Lookup(rows, Pair(user, e.id)), now)
  }

  ghost predicate UniqueIds(es: set<Event>) {
    forall a, b | a in es && b in es && a.id == b.id :: a == b
  }

  // ---- ROW_NUMBER() OVER (PARTITION BY key ORDER BY id) ----

  function UpTo(es: set<Event>, e: Event): set<Event> {
    set x | x in es && x.key == e.key && x.id <= e.id
  }

  function Rank(es: set<Event>, e: Event): nat {
    |UpTo(es, e)|
  }

  predicate Before(es: set<Event>, a: Event, b: Event) {
    Rank(es, a) < Rank(es, b) || (Rank(es, a) == Rank(es, b) && a.id < b.id)
  }

  /** What the query returns: the first `LIMIT` events in rank-then-id order. */
  ghost predicate IsBatch(es: set<Event>, batch: seq<Event>) {
    && |batch| == Min(LIMIT, |es|)
    && (forall e <- batch :: e in es)
    && (forall i, j :: 0 <= i < j < |batch| ==> Before(es, batch[i], batch[j]))
    && (forall e, b | e in es && e !in batch && b in batch :: Before(es, b, e))
  }

  /** Ranks order one key's events exactly as their ids do. */
  lemma RankFollowsId(es: set<Event>, a: Event, b: Event)
    requires a in es && b in es && a.key == b.key
    ensures Rank(es, a) < Rank(es, b) <==> a.id < b.id
    ensures Rank(es, a) >= 1
  {
    if a.id < b.id {
      StrictlySmaller(UpTo(es, a), UpTo(es, b), b);
    } else {
      Smaller(UpTo(es, b), UpTo(es, a));
    }
    StrictlySmaller({}, UpTo(es, a), a);
  }

  lemma {:induction false} Smaller<T>(a: set<T>, b: set<T>)
    requires a <= b
    ensures |a| <= |b|
  {
    if x :| x in a {
      Smaller(a - {x}, b - {x});
    }
  }

  lemma StrictlySmaller<T>(a: set<T>, b: set<T>, x: T)
    requires a <= b && x in b && x !in a
    ensures |a| < |b|
  {
    Smaller(a, b - {x});
  }

  // ---- counting the events of low rank ----

  /** `rank` numbers each key's events without repeats. */
  ghost predicate Numbers(rank: Event -> nat, some: set<Event>) {
    forall x, y | x in some && y in some && x.key == y.key && rank(x) == rank(y) :: x == y
  }

  /** Distinct ranks from 1 to `top` number at most `top` events. */
  lemma {:induction false} FewLowRanks(rank: Event -> nat, some: set<Event>, key: string, top: nat)
    requires Numbers(rank, some)
    requires forall x <- some :: x.key == key && 1 <= rank(x) <= top
    ensures |some| <= top
  {
    if x :| x in some && rank(x) == top {
      FewLowRanks(rank, some - {x}, key, top - 1);
    } else if top > 0 {
      FewLowRanks(rank, some, key, top - 1);
    } else if x :| x in some {
      assert false;
    }
  }

  function Times(k: nat, top: nat): nat {
    if k == 0 then 0 else Times(k - 1, top) + top
  }

  lemma {:induction false} TimesIsProduct(k: nat, top: nat)
    ensures Times(k, top) == k * top
  {
    if k > 0 {
      TimesIsProduct(k - 1, top);
      assert (k - 1) * top + top == k * top;
    }
  }

  lemma EqualShares(k: nat)
    requires k > 0
    ensures Times(k, LIMIT / k) <= LIMIT
  {
    TimesIsProduct(k, LIMIT / k);
  }

  function OfKey(some: set<Event>, key: string): set<Event> {
    set x | x in some && x.key == key
  }

  /** Every event belongs to one of `keys`, and ranks run from 1 to `top`. */
  ghost predicate Ranked(rank: Event -> nat, some: set<Event>, keys: set<string>, top: nat) {
    Numbers(rank, some) && forall x <- some :: x.key in keys && 1 <= rank(x) <= top
  }

  lemma SplitOff(rank: Event -> nat, some: set<Event>, keys: set<string>, top: nat, key: string)
    requires Ranked(rank, some, keys, top) && key in keys
    ensures Ranked(rank, some - OfKey(some, key), keys - {key}, top)
    ensures |some| <= top + |some - OfKey(some, key)|
  {
    FewLowRanks(rank, OfKey(some, key), key, top);
    assert some == OfKey(some, key) + (some - OfKey(some, key));
  }

  /** With k keys, at most k * top events have rank top or less. */
  lemma {:induction false} LowRanksBounded(rank: Event -> nat, some: set<Event>, keys: set<string>, top: nat)
    requires Ranked(rank, some, keys, top)
    ensures |some| <= Times(|keys|, top)
    decreases keys
  {
    if key :| key in keys {
      SplitOff(rank, some, keys, top, key);
      LowRanksBounded(rank, some - OfKey(some, key), keys - {key}, top);
      assert |keys| == |keys - {key}| + 1;
    } else {
      assert some == {};
    }
  }

  lemma {:induction false} SeqAsSet(es: set<Event>, batch: seq<Event>)
    requires forall i, j :: 0 <= i < j < |batch| ==> batch[i] != batch[j]
    ensures |set e | e in batch| == |batch|
  {
    if batch != [] {
      var init := batch[..|batch| - 1];
      SeqAsSet(es, init);
      assert (set e | e in batch) == (set e | e in init) + {batch[|batch| - 1]};
    }
  }

  // ---- main results ----

  /** Each key's selected events are a prefix of its eligible events in id order. */
  lemma PrefixPerKey(es: set<Event>, batch: seq<Event>, a: Event, b: Event)
    requires IsBatch(es, batch) && a in es && b in batch && a.key == b.key && a.id < b.id
    ensures a in batch
  {
    RankFollowsId(es, a, b);
  }

  lemma RanksNumber(es: set<Event>, a: Event, b: Event)
    requires UniqueIds(es) && a in es && b in es && a.key == b.key && Rank(es, a) == Rank(es, b)
    ensures a == b
  {
    RankFollowsId(es, a, b);
    RankFollowsId(es, b, a);
  }

  /** The first events of a key, up to its share of the batch, are all selected. */
  lemma LowRankSelected(es: set<Event>, batch: seq<Event>, keys: set<string>, e: Event)
    requires UniqueIds(es) && IsBatch(es, batch) && keys == set x | x in es :: x.key
    requires e in es && keys != {} && Rank(es, e) <= LIMIT / |keys|
    ensures e in batch
  {
    if e !in batch {
      var share := LIMIT / |keys|;
      var low := (set x | x in batch) + {e};
      forall x | x in low ensures x in es && 1 <= Rank(es, x) <= share {
        assert x != e ==> Before(es, x, e);
        RankFollowsId(es, x, x);
      }
      forall x, y | x in low && y in low && x.key == y.key && Rank(es, x) == Rank(es, y) ensures x == y {
        RanksNumber(es, x, y);
      }
      LowRanksBounded(x => Rank(es, x), low, keys, share);
      EqualShares(|keys|);
      OneMore(es, batch, e);
    }
  }

  lemma OneMore(es: set<Event>, batch: seq<Event>, e: Event)
    requires IsBatch(es, batch) && e in es && e !in batch
    ensures |(set x | x in batch) + {e}| == LIMIT + 1
  {
    var chosen := set x | x in batch;
    forall i, j | 0 <= i < j < |batch| ensures batch[i] != batch[j] {
      assert Before(es, batch[i], batch[j]);
    }
    SeqAsSet(es, batch);
    Smaller(chosen + {e}, es);
  }

  /**
  Fairness: with k keys holding eligible events, a key with n of them gets at least
  min(n, 30 div k) places in the batch, whatever the other keys hold.
  */
  lemma FairShare(es: set<Event>, batch: seq<Event>, keys: set<string>, key: string)
    requires UniqueIds(es) && IsBatch(es, batch) && keys == (set x | x in es :: x.key) && key in keys
    ensures var eligible := set x | x in es && x.key == key;
            var selected := set x | x in batch && x.key == key;
            |selected| >= Min(|eligible|, LIMIT / |keys|)
  {
    var eligible := set x | x in es && x.key == key;
    var selected := set x | x in batch && x.key == key;
    if |eligible| <= |selected| {
      return;
    }
    // Some eligible event is left out; the first one left out has rank |selected| + 1 at most.
    var left := eligible - selected;
    if left == {} {
      forall x | x in eligible ensures x in selected { assert x !in left; }
      Smaller(eligible, selected);
    }
    var e := FirstById(left);
    forall x | x in UpTo(es, e) && x != e ensures x in selected {
      assert x in eligible && x !in left;
    }
    Smaller(UpTo(es, e), selected + {e});
    if Rank(es, e) <= LIMIT / |keys| {
      LowRankSelected(es, batch, keys, e);
      assert false;
    }
  }

  lemma {:induction false} FirstById(some: set<Event>) returns (first: Event)
    requires some != {} && UniqueIds(some)
    ensures first in some && forall x <- some :: x != first ==> first.id < x.id
  {
    var e :| e in some;
    if some == {e} {
      first := e;
    } else {
      var rest := some - {e};
      assert rest != {};
      first := FirstById(rest);
      if e.id < first.id { first := e; }
    }
  }

  // ---- who is selected, in terms of grants and rows ----

  /** The user may be sent the event: its manager is asked for, and the grant is live and reaches it. */
  predicate Granted(e: Event, grants: map<string, Access>, keys: set<string>) {
    && e.key in keys && e.key in grants
    && match grants[e.key] case Access(canReceive, revoked, cutoff) => canReceive && !revoked && cutoff < e.id
  }

  /** Nothing was recorded of the event for this user, or a failure whose pause is over. */
  predicate NothingAgainst(rows: Rows, p: Pair, now: int) {
    p in rows ==> rows[p].status == Failed && (rows[p].nextAttempt.Some? ==> rows[p].nextAttempt.value <= now)
  }

  predicate Allowed(e: Event, events: set<Event>, grants: map<string, Access>, rows: Rows, user: int,
                    keys: set<string>, now: int)
  {
    e in events && Granted(e, grants, keys) && NothingAgainst(rows, Pair(user, e.id), now)
  }

  /** The event's place in its own manager's line: how many allowed events of that manager come up to it. */
  function Place(e: Event, events: set<Event>, grants: map<string, Access>, rows: Rows, user: int,
                 keys: set<string>, now: int): nat
  {
    |set x | x in events && x.key == e.key && x.id <= e.id && Allowed(x, events, grants, rows, user, keys, now)|
  }

  /**
  An allowed event is left out only behind thirty allowed ones, each nearer the front of its own
  manager's line, or as near and of a smaller id.
  */
  lemma LeftOutBehindThirty(e: Event, batch: seq<Event>, events: set<Event>, grants: map<string, Access>, rows: Rows,
                            user: int, keys: set<string>, now: int)
    requires IsBatch(Eligible(events, grants, rows, user, keys, now), batch)
    requires Allowed(e, events, grants, rows, user, keys, now) && e !in batch
    ensures |batch| == 30
    ensures forall b <- batch :: Allowed(b, events, grants, rows, user, keys, now)
    ensures var mine := Place(e, events, grants, rows, user, keys, now);
            forall b <- batch ::
              var place := Place(b, events, grants, rows, user, keys, now);
              place < mine || (place == mine && b.id < e.id)
  {
    var es := Eligible(events, grants, rows, user, keys, now);
    FullBatch(es, batch, e);
    forall b | b in es ensures Rank(es, b) == Place(b, events, grants, rows, user, keys, now) {
      assert UpTo(es, b) ==
        set x | x in events && x.key == b.key && x.id <= b.id && Allowed(x, events, grants, rows, user, keys, now);
    }
    assert forall b <- batch :: Before(es, b, e);
  }

  lemma FullBatch(es: set<Event>, batch: seq<Event>, e: Event)
    requires IsBatch(es, batch) && e in es && e !in batch
    ensures |batch| == 30
  {
    var chosen := set x | x in batch;
    OneMore(es, batch, e);
    forall i, j | 0 <= i < j < |batch| ensures batch[i] != batch[j] { assert Before(es, batch[i], batch[j]); }
    SeqAsSet(es, batch);
    assert |chosen + {e}| == |chosen| + 1;
  }

  // ---- the query has exactly one answer ----

  /** A least event in the batch order. */
  method FirstInOrder(es: set<Event>, pool: set<Event>) returns (first: Event)
    requires pool != {} && pool <= es && UniqueIds(es)
    ensures first in pool && forall x <- pool :: x != first ==> Before(es, first, x)
  {
    first :| first in pool;
    var rest := pool - {first};
    while rest != {}
      invariant first in pool && rest <= pool && first !in rest
      invariant forall x <- pool :: x !in rest && x != first ==> Before(es, first, x)
      decreases rest
    {
      var x :| x in rest;
      rest := rest - {x};
      if Before(es, x, first) { first := x; }
    }
  }

  method FetchUnsent(events: set<Event>, grants: map<string, Access>, rows: Rows,
                     user: int, keys: set<string>, now: int) returns (batch: seq<Event>)
    requires UniqueIds(events)
    ensures IsBatch(Eligible(events, grants, rows, user, keys, now), batch)
    ensures forall i, j :: 0 <= i < j < |batch| ==> batch[i].id != batch[j].id
    ensures forall e <- batch :: Selectable(Lookup(rows, Pair(user, e.id)), now)
    ensures forall e <- batch :: Allowed(e, events, grants, rows, user, keys, now)
  {
    var es := Eligible(events, grants, rows, user, keys, now);
    var pool := es;
    batch := [];
    while |batch| < LIMIT && pool != {}
      invariant |batch| <= LIMIT && SelectedSoFar(es, pool, batch)
    {
      var e := FirstInOrder(es, pool);
      SelectOne(es, pool, batch, e);
      batch := batch + [e];
      pool := pool - {e};
    }
    DistinctIds(es, pool, batch);
  }

  /** `batch` is an initial stretch of the order over `es`, and `pool` the rest. */
  ghost predicate SelectedSoFar(es: set<Event>, pool: set<Event>, batch: seq<Event>) {
    && pool <= es && |pool| + |batch| == |es|
    && (forall e <- es :: e in pool <==> e !in batch)
    && (forall e <- batch :: e in es)
    && (forall i, j :: 0 <= i < j < |batch| ==> Before(es, batch[i], batch[j]))
    && (forall e, b | e in pool && b in batch :: Before(es, b, e))
  }

  lemma SelectOne(es: set<Event>, pool: set<Event>, batch: seq<Event>, e: Event)
    requires SelectedSoFar(es, pool, batch) && e in pool && forall x <- pool :: x != e ==> Before(es, e, x)
    ensures SelectedSoFar(es, pool - {e}, batch + [e])
  {
  }

  lemma DistinctIds(es: set<Event>, pool: set<Event>, batch: seq<Event>)
    requires UniqueIds(es) && SelectedSoFar(es, pool, batch)
    ensures forall i, j :: 0 <= i < j < |batch| ==> batch[i].id != batch[j].id
  {
  }

  /** The order leaves the query no choice. */
  lemma BatchIsUnique(es: set<Event>, a: seq<Event>, b: seq<Event>)
    requires UniqueIds(es) && IsBatch(es, a) && IsBatch(es, b)
    ensures a == b
  {
    PrefixesAgree(es, a, b, |a|);
    assert a == a[..|a|] && b == b[..|a|];
  }

  lemma {:induction false} PrefixesAgree(es: set<Event>, a: seq<Event>, b: seq<Event>, n: nat)
    requires UniqueIds(es) && IsBatch(es, a) && IsBatch(es, b) && n <= |a|
    ensures a[..n] == b[..n]
  {
    if n > 0 {
      PrefixesAgree(es, a, b, n - 1);
      var (x, y) := (a[n - 1], b[n - 1]);
      assert a[..n] == a[..n - 1] + [x] && b[..n] == b[..n - 1] + [y];
      if x != y {
        NotBefore(es, a, n - 1, y);
        NotBefore(es, b, n - 1, x);
      }
    }
  }

  /** Nothing outside the first n places of a batch comes before its n-th element. */
  lemma NotBefore(es: set<Event>, batch: seq<Event>, n: nat, x: Event)
    requires IsBatch(es, batch) && n < |batch| && x in es && x !in batch[..n] && x != batch[n]
    ensures Before(es, batch[n], x)
  {
    if x in batch {
      var i :| 0 <= i < |batch| && batch[i] == x;
      assert forall j :: 0 <= j < n ==> batch[..n][j] == batch[j];
    } else {
      assert batch[n] in batch;
    }
  }
}
