/** The reconnect loop: how long the client waits between sessions, in int64 nanoseconds. */
module Reconnect {
  import opened Machine

  const SAFE_MAX := 0x4000_0000_0000_0000  // 2^62

  function Pow2(k: nat): (p: nat)
    ensures p >= 1
  {
    if k == 0 then 1 else 2 * Pow2(k - 1)
  }

  /** Doubling as the machine does it, then capping. */
  function Doubled(backoff: int, max: int): int { Minimum(Wrap64(backoff * 2), max) }

  /** The backoff variable when session `i` ends; `stable[j]` says how session `j` went. */
  function Backoff(min: int, max: int, stable: seq<bool>, i: nat): int
    requires i <= |stable|
  {
    if i == 0 || stable[i - 1] then min else Doubled(Backoff(min, max, stable, i - 1), max)
  }

  function Delay(min: int, max: int, stable: seq<bool>, i: nat): int
    requires i < |stable|
  {
    if stable[i] then min else Backoff(min, max, stable, i)
  }

  /** How many unstable sessions directly precede session `i`. */
  function Streak(stable: seq<bool>, i: nat): nat
    requires i <= |stable|
  {
    if i == 0 || stable[i - 1] then 0 else 1 + Streak(stable, i - 1)
  }

  /** The documented policy: exponential in the streak, capped, fresh after a stable session. */
  function Policy(min: int, max: int, stable: seq<bool>, i: nat): int
    requires i < |stable|
  {
    if stable[i] then min else Minimum(min * Pow2(Streak(stable, i)), max)
  }

  ghost predicate FollowsPolicy(min: int, max: int) {
    forall stable: seq<bool>, i: nat :: i < |stable| ==> Delay(min, max, stable, i) == Policy(min, max, stable, i)
  }

  lemma {:induction false} BackoffIsCapped(min: int, max: int, stable: seq<bool>, i: nat)
    requires 0 < min <= max < SAFE_MAX && i <= |stable|
    ensures Backoff(min, max, stable, i) == Minimum(min * Pow2(Streak(stable, i)), max)
    decreases i
  {
    hide Doubled;
    if i == 0 || stable[i - 1] {
    } else {
      BackoffIsCapped(min, max, stable, i - 1);
      var k := Streak(stable, i - 1);
      PowerDoubles(min, k);
      DoubledExactly(Backoff(min, max, stable, i - 1), max);
    }
  }

  lemma PowerDoubles(min: int, k: nat)
    requires min > 0
    ensures min * Pow2(k) > 0 && min * Pow2(k + 1) == 2 * (min * Pow2(k))
  {
    ProductPositive(min, Pow2(k));
  }

  lemma ProductPositive(x: int, y: int)
    requires x > 0 && y > 0
    ensures x * y >= x
  {
  }

  function Unstable(n: nat): (s: seq<bool>)
    ensures |s| == n && forall i :: 0 <= i < n ==> !s[i]
  {
    seq(n, _ => false)
  }

  lemma {:induction false} StreakOfUnstable(n: nat, i: nat)
    requires i <= n
    ensures Streak(Unstable(n), i) == i
    decreases i
  {
    if i > 0 {
      StreakOfUnstable(n, i - 1);
    }
  }

  lemma DoubledExactly(p: int, max: int)
    requires 0 < p < SAFE_MAX
    ensures Doubled(p, max) == Minimum(2 * p, max)
  {
    WrapIdentity(2 * p);
  }

  lemma DoubledOverflows(p: int, max: int)
    requires SAFE_MAX <= p < TWO_63 && max > 0
    ensures Doubled(p, max) < 0
  {
  }

  lemma BackoffDoubles(min: int, max: int, n: nat, k: nat)
    requires k < n
    ensures Backoff(min, max, Unstable(n), k + 1) == Doubled(Backoff(min, max, Unstable(n), k), max)
  {
    hide Doubled;
  }

  /** With a cap of 2^62 or more, enough unstable sessions overflow the doubling and turn the
      delay negative. `k` sessions have gone by with no overflow so far. */
  lemma {:induction false} CapTooLarge(min: int, max: int, k: nat, p: int) returns (n: nat)
    requires 0 < min <= max < TWO_63 && SAFE_MAX <= max
    requires 0 < p <= max
    requires forall m: nat :: k <= m ==> Backoff(min, max, Unstable(m), k) == p
    ensures n > 0 && Backoff(min, max, Unstable(n), n - 1) < 0
    decreases SAFE_MAX - p
  {
    hide Doubled, Backoff;
    if p >= SAFE_MAX {
      n := k + 2;
      BackoffDoubles(min, max, n, k);
      DoubledOverflows(p, max);
    } else {
      DoubledExactly(p, max);
      forall m: nat | k + 1 <= m
        ensures Backoff(min, max, Unstable(m), k + 1) == Minimum(2 * p, max)
      {
        BackoffDoubles(min, max, m, k);
      }
      n := CapTooLarge(min, max, k + 1, Minimum(2 * p, max));
    }
  }

  /** The exact condition on the configuration under which the loop follows its policy for
      every sequence of sessions. Configured bounds are positive after defaulting. */
  lemma PolicyIff(min: int, max: int)
    requires 0 < min < TWO_63 && 0 < max < TWO_63
    ensures FollowsPolicy(min, max) <==> min <= max < SAFE_MAX
  {
    if min <= max < SAFE_MAX {
      forall stable: seq<bool>, i: nat | i < |stable|
        ensures Delay(min, max, stable, i) == Policy(min, max, stable, i)
      {
        BackoffIsCapped(min, max, stable, i);
      }
    } else if min > max {
      assert Streak(Unstable(1), 0) == 0 && Pow2(0) == 1;
      assert Delay(min, max, Unstable(1), 0) != Policy(min, max, Unstable(1), 0);
    } else {
      var n := CapTooLarge(min, max, 0, min);
      StreakOfUnstable(n, n - 1);
      ProductPositive(min, Pow2(n - 1));
      assert Delay(min, max, Unstable(n), n - 1) != Policy(min, max, Unstable(n), n - 1);
    }
  }

  /** The loop itself, over the outcomes of the sessions served until shutdown. */
  method ServeForever(min: int, max: int, stable: seq<bool>) returns (delays: seq<int>)
    requires 0 < min < TWO_63 && 0 < max < TWO_63
    ensures |delays| == |stable|
    ensures forall i :: 0 <= i < |stable| ==> delays[i] == Delay(min, max, stable, i)
    ensures forall i :: 0 <= i < |stable| && stable[i] ==> delays[i] == min
    ensures min <= max < SAFE_MAX ==>
      forall i :: 0 <= i < |stable| ==> delays[i] == Policy(min, max, stable, i)
  {
    var backoff := min;
    delays := [];
    for i := 0 to |stable|
      invariant |delays| == i && backoff == Backoff(min, max, stable, i)
      invariant forall j :: 0 <= j < i ==> delays[j] == Delay(min, max, stable, j)
    {
      if stable[i] {
        backoff := min;
      }
      delays := delays + [backoff];
      if !stable[i] {
        backoff := Minimum(Wrap64(backoff * 2), max);
      }
    }
    if min <= max < SAFE_MAX {
      PolicyIff(min, max);
    }
  }

  /** A cap of 2^62 ns, about 146 years, already breaks the policy, and so does one below the start. */
  lemma PolicyFails()
    ensures !FollowsPolicy(1_000_000_000, SAFE_MAX) && !FollowsPolicy(2_000_000_000, 1_000_000_000)
  {
    PolicyIff(1_000_000_000, SAFE_MAX);
    PolicyIff(2_000_000_000, 1_000_000_000);
  }
}
