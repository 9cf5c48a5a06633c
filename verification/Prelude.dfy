/** What the five contracts share: addresses, the two constants every contract declares,
    Rust's integer division, and the outcome of a contract call. */
module Prelude {

  /** Soroban addresses are only ever compared, so naturals serve. */
  type Address = nat

  const BPS: int := 10_000
  const RATE: int := 10_000_000

  datatype Option<+T> = None | Some(value: T)

  /** The reasons for which a call panics. */
  datatype Panic =
    | NotAuthorised
    | NonPositiveAmount
    | NegativeAmount
    | InsufficientBalance
    | InsufficientAllowance
    | DivisionByZero
    | ZeroMint
    | ZeroDeposit
    | ZeroReturn
    | NoLiquidity
    | InsufficientLiquidity
    | Slippage
    | Paused
    | NothingStaked
    | NoSuchWithdrawal
    | NotYourWithdrawal
    | AlreadyClaimed
    | CooldownNotOver
    | NoFees
    | TreasuryTooSmall
    | SlashTooLarge
    | InvalidParameter
    | InsufficientCollateral
    | Unhealthy
    | BorrowTooLarge
    | PoolTooSmall
    | NoDebt
    | PositionHealthy
    | NoSuchProposal
    | VotingEnded
    | VotingNotEnded
    | AlreadyVoted
    | NoVotes
    | AlreadyExecuted
    | QuorumNotMet
    | NotPassed

  /** What a caller sees of a call. */
  datatype Answer<V> = Returned(value: V) | Panicked(why: Panic)

  /** What a call does to the state `S` it runs on. A panic rolls every write back
      (`panic = "abort"`), so only a completed call carries a new state. */
  datatype Outcome<S, V> = Done(state: S, value: V) | Aborted(reason: Panic) {
    predicate IsFailure() {
      Aborted?
    }

    function PropagateFailure<S', V'>(): Outcome<S', V'>
      requires Aborted?
    {
      Aborted(reason)
    }

    function Extract(): S
      requires Done?
    {
      state
    }

    /** The state after the call: unchanged when it aborted. */
    function After(before: S): S {
      if Done? then state else before
    }

    function Answer(): Answer<V> {
      if Done? then Returned(value) else Panicked(reason)
    }
  }

  /** Division as Rust's `/` on i128: it truncates towards zero. */
  function Div(a: int, b: int): int
    requires b != 0
  {
    if a >= 0 then a / b else -((-a) / b)
  }
}

/** Facts about products and floor division that the solver does not find by itself. */
module Arith {
  import opened Prelude

  /** `q` is n / d rounded down. */
  predicate IsFloor(q: int, n: int, d: int) {
    0 < d && q * d <= n < (q + 1) * d
  }

  /** There is only one, */
  lemma FloorUnique(q: int, q': int, n: int, d: int)
    requires IsFloor(q, n, d) && IsFloor(q', n, d)
    ensures q == q'
  {
    CancelLt(q, q' + 1, d);
    CancelLt(q', q + 1, d);
  }

  /** it reaches a bound exactly when the multiple fits, */
  lemma FloorReaches(q: int, n: int, d: int, bound: int)
    requires IsFloor(q, n, d)
    ensures bound <= q <==> bound * d <= n
  {
    if bound <= q { MulLe(bound, q, d); } else { MulLe(q + 1, bound, d); }
  }

  /** and truncating division finds it, unless the quotient is negative. */
  lemma DivIsFloor(n: int, d: int)
    requires 0 <= n && 0 < d
    ensures IsFloor(Div(n, d), n, d) && 0 <= Div(n, d)
  {
    Floor(n, d);
    FloorAtLeast(0, n, d);
  }

  lemma DivPositive(n: int, d: int)
    requires 0 < d
    ensures 0 < Div(n, d) <==> d <= n
  {
    if 0 <= n {
      DivIsFloor(n, d);
      FloorReaches(Div(n, d), n, d, 1);
    } else {
      FloorAtLeast(0, -n, d);
    }
  }

  lemma MulLe(a: int, b: int, c: int)
    requires a <= b && 0 <= c
    ensures a * c <= b * c
  {}

  lemma MulLt(a: int, b: int, c: int)
    requires a < b && 0 < c
    ensures a * c < b * c
  {}

  lemma MulNonNegative(a: int, b: int)
    requires 0 <= a && 0 <= b
    ensures 0 <= a * b
  {}

  lemma MulPositive(a: int, b: int)
    requires 0 < a && 0 < b
    ensures 0 < a * b
  {}

  lemma SquareMonotone(a: int, b: int)
    requires 0 <= a <= b
    ensures a * a <= b * b
  {
    MulLe(a, b, a);
    MulLe(a, b, b);
  }

  lemma CancelLe(a: int, b: int, c: int)
    requires a * c <= b * c && 0 < c
    ensures a <= b
  {
    if b < a { MulLt(b, a, c); }
  }

  lemma CancelLt(a: int, b: int, c: int)
    requires a * c < b * c && 0 < c
    ensures a < b
  {
    if b <= a { MulLe(b, a, c); }
  }

  /** The defining bounds of a floor. */
  lemma Floor(n: int, d: int)
    requires 0 < d
    ensures n / d * d <= n < (n / d + 1) * d
  {
    assert n == n / d * d + n % d;
  }

  /** A floor is the largest integer whose multiple fits. */
  lemma FloorAtLeast(q: int, n: int, d: int)
    requires 0 < d && q * d <= n
    ensures q <= n / d
  {
    Floor(n, d);
    CancelLt(q, n / d + 1, d);
  }

  lemma FloorBelow(q: int, n: int, d: int)
    requires 0 < d && n < q * d
    ensures n / d < q
  {
    Floor(n, d);
    CancelLt(n / d, q, d);
  }

  lemma FloorIs(q: int, n: int, d: int)
    requires 0 < d && q * d <= n < (q + 1) * d
    ensures n / d == q
  {
    FloorAtLeast(q, n, d);
    FloorBelow(q + 1, n, d);
  }

  lemma FloorMonotone(m: int, n: int, d: int)
    requires 0 < d && m <= n
    ensures m / d <= n / d
  {
    Floor(m, d);
    FloorAtLeast(m / d, n, d);
  }

  /** Taking the share of `a` and then of `b` takes at most the share of `a + b`. */
  lemma SplitFloors(a: int, b: int, reserve: int, total: int)
    requires 0 <= a && 0 <= b && a + b <= total && a < total && 0 <= reserve
    ensures a * reserve / total + b * (reserve - a * reserve / total) / (total - a) <= (a + b) * reserve / total
  {
    var p, rest := a * reserve / total, total - a;
    var q := b * (reserve - p) / rest;
    Floor(a * reserve, total);
    Floor(b * (reserve - p), rest);
    SplitProducts(a, b, p, q, reserve, total);
    CancelLe((p + q) * total, (a + b) * reserve, rest);
    FloorAtLeast(p + q, (a + b) * reserve, total);
  }

  lemma SplitProducts(a: int, b: int, p: int, q: int, reserve: int, total: int)
    requires 0 <= a && 0 <= b && a + b <= total && a < total
    requires p * total <= a * reserve && q * (total - a) <= b * (reserve - p)
    ensures (p + q) * total * (total - a) <= (a + b) * reserve * (total - a)
  {
    var rest, x, y := total - a, p * total, q * (total - a);
    assert (p + q) * total * rest == x * rest + y * total;
    assert y * total <= b * (reserve - p) * total by { MulLe(y, b * (reserve - p), total); }
    assert b * (reserve - p) * total == b * reserve * total - x * b;
    SplitWeights(a, b, rest, x, reserve);
  }

  lemma SplitWeights(a: int, b: int, rest: int, x: int, reserve: int)
    requires b <= rest && x <= a * reserve
    ensures x * rest + b * reserve * (rest + a) - x * b <= (a + b) * reserve * rest
  {
    var y, z := a * reserve, b * reserve;
    assert x * (rest - b) <= y * (rest - b) by { MulLe(x, y, rest - b); }
    assert x * (rest - b) == x * rest - x * b;
    assert y * (rest - b) == y * rest - y * b;
    assert z * (rest + a) == z * rest + z * a;
    assert z * a == y * b;
    assert (a + b) * reserve == y + z;
    assert (y + z) * rest == y * rest + z * rest;
  }
}

/** Sums over the values of a finite map, and maps read with a default of zero, as every
    contract reads its storage (`unwrap_or(0)`). */
module Sums {

  function Get<K>(m: map<K, int>, k: K): int {
    if k in m then m[k] else 0
  }

  ghost function SumOver<K(!new)>(keys: set<K>, m: map<K, int>): int {
    if keys == {} then 0 else
      var k :| k in keys;
      Get(m, k) + SumOver(keys - {k}, m)
  }

  ghost function Sum<K(!new)>(m: map<K, int>): int {
    SumOver(m.Keys, m)
  }

  /** The sum does not depend on the order in which the keys are visited. */
  lemma {:induction false} SumWithout<K(!new)>(keys: set<K>, m: map<K, int>, k: K)
    requires k in keys
    ensures SumOver(keys, m) == Get(m, k) + SumOver(keys - {k}, m)
  {
    var j :| j in keys && SumOver(keys, m) == Get(m, j) + SumOver(keys - {j}, m);
    if j != k {
      SumWithout(keys - {j}, m, k);
      SumWithout(keys - {k}, m, j);
      assert keys - {j} - {k} == keys - {k} - {j};
    }
  }

  lemma {:induction false} SumAgrees<K(!new)>(keys: set<K>, m: map<K, int>, m': map<K, int>)
    requires forall k :: k in keys ==> Get(m, k) == Get(m', k)
    ensures SumOver(keys, m) == SumOver(keys, m')
  {
    if keys != {} {
      var k :| k in keys && SumOver(keys, m) == Get(m, k) + SumOver(keys - {k}, m);
      SumWithout(keys, m', k);
      SumAgrees(keys - {k}, m, m');
    }
  }

  /** Writing one entry changes the sum by the change of that entry. */
  lemma SumUpdate<K(!new)>(m: map<K, int>, k: K, v: int)
    ensures Sum(m[k := v]) == Sum(m) - Get(m, k) + v
  {
    var m' := m[k := v];
    SumWithout(m'.Keys, m', k);
    SumAgrees(m'.Keys - {k}, m', m);
    if k in m {
      SumWithout(m.Keys, m, k);
      assert m'.Keys == m.Keys;
    } else {
      assert m'.Keys - {k} == m.Keys;
    }
  }

  ghost predicate NonNegative<K(!new)>(m: map<K, int>) {
    forall k :: k in m ==> 0 <= m[k]
  }

  lemma {:induction false} SumNonNegative<K(!new)>(keys: set<K>, m: map<K, int>)
    requires NonNegative(m)
    ensures 0 <= SumOver(keys, m)
  {
    if keys != {} {
      var k :| k in keys && SumOver(keys, m) == Get(m, k) + SumOver(keys - {k}, m);
      assert 0 <= Get(m, k);
      SumNonNegative(keys - {k}, m);
    }
  }

  /** No entry of a non-negative map exceeds the sum. */
  lemma EntryAtMostSum<K(!new)>(m: map<K, int>, k: K)
    requires NonNegative(m)
    ensures 0 <= Get(m, k) <= Sum(m)
  {
    SumNonNegative(m.Keys - {k}, m);
    if k in m {
      SumWithout(m.Keys, m, k);
    } else {
      SumNonNegative(m.Keys, m);
    }
  }

  /** Entries summed once each add up to at most the sum. */
  lemma {:induction false} PartAtMostSum<K(!new)>(part: set<K>, keys: set<K>, m: map<K, int>)
    requires NonNegative(m) && (forall k :: k in part && k !in keys ==> Get(m, k) == 0)
    ensures SumOver(part, m) <= SumOver(keys, m)
    decreases part
  {
    if part == {} {
      SumNonNegative(keys, m);
    } else {
      var k :| k in part && SumOver(part, m) == Get(m, k) + SumOver(part - {k}, m);
      if k in keys {
        SumWithout(keys, m, k);
        PartAtMostSum(part - {k}, keys - {k}, m);
      } else {
        PartAtMostSum(part - {k}, keys, m);
      }
    }
  }
}
