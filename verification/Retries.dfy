/** What the delivery tables of both bots share: their keys, and the delay between attempts. */
module Retries {
  import opened Wrappers

  datatype Pair = Pair(user: int, event: nat)

  function Lookup<K, V>(rows: map<K, V>, k: K): Option<V> {
    if k in rows then Some(rows[k]) else None
  }

  function Pow2(k: nat): nat {
    if k == 0 then 1 else 2 * Pow2(k - 1)
  }

  function Min(a: int, b: int): int { if a < b then a else b }

  function BackoffSeconds(attempts: nat): nat {
    Min(60 * Pow2(if attempts == 0 then 0 else attempts - 1), 3600)
  }

  /** The delay never shrinks as attempts grow, and stays between a minute and an hour. */
  lemma {:induction false} BackoffGrowsToAnHour(m: nat, n: nat)
    requires m <= n
    ensures 60 <= BackoffSeconds(m) <= BackoffSeconds(n) <= 3600
    ensures n >= 7 ==> BackoffSeconds(n) == 3600
  {
    Pow2Grows(if m == 0 then 0 else m - 1, if n == 0 then 0 else n - 1);
    Pow2Grows(0, if m == 0 then 0 else m - 1);
    if n >= 7 {
      Pow2Grows(6, n - 1);
      assert Pow2(6) == 64 by { assert Pow2(3) == 8; }
    }
  }

  /** A minute after the first failure, twice as long after each further one, and an hour at most. */
  lemma BackoffDoubles(n: nat)
    requires n >= 1
    ensures BackoffSeconds(1) == 60 && BackoffSeconds(n + 1) == Min(2 * BackoffSeconds(n), 3600)
    ensures BackoffSeconds(n) == 60 * Min(Pow2(n - 1), 60)
  {
    BackoffGrowsToAnHour(n, n);
  }

  lemma {:induction false} Pow2Grows(a: nat, b: nat)
    requires a <= b
    ensures 1 <= Pow2(a) <= Pow2(b)
    decreases b
  {
    if a < b {
      Pow2Grows(a, b - 1);
    } else if b > 0 {
      Pow2Grows(a - 1, b - 1);
    }
  }

  /** With a factor from 0.8 to 1.2, in thousandths. */
  lemma JitteredBackoff(n: nat, jitter: nat)
    requires n >= 1 && 800 <= jitter <= 1200
    ensures 48 * Min(Pow2(n - 1), 60) <= BackoffSeconds(n) * jitter / 1000 <= 72 * Min(Pow2(n - 1), 60)
  {
    BackoffDoubles(n);
    var m := Min(Pow2(n - 1), 60);
    assert Pow2(n - 1) >= 1 by { Pow2Grows(0, n - 1); }
    Scaled(m, jitter);
  }

  lemma Scaled(m: nat, jitter: nat)
    requires 800 <= jitter <= 1200
    ensures 48 * m <= 60 * m * jitter / 1000 <= 72 * m
  {
    assert 60 * m * 800 <= 60 * m * jitter <= 60 * m * 1200;
  }
}
