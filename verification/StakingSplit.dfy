/** Redeeming in parts: it never pays as long as the parts are paid at once, and it can pay when
    a part is delayed, because the XLM of a delayed part stays staked. */
module StakingSplit {
  import opened Prelude
  import opened Sums
  import opened Tokens
  import opened Stakes
  import opened StakingRuns
  import opened StakingRate
  import opened StakingUnwind
  import opened Arith

  function SumOf(parts: seq<int>): int {
    if parts == [] then 0 else parts[0] + SumOf(parts[1..])
  }

  /** What redeeming `parts` one after another is answered with, if every part goes through and
      all but the last are paid instantly. */
  function Redeemed(w: World, user: Address, parts: seq<int>): Option<int>
    decreases parts
  {
    if parts == [] then Some(0) else
      var o := RequestWithdrawal(w, user, parts[0]);
      if o.Aborted? then None
      else if parts[1..] == [] then Some(o.value.amount)
      else if o.value.Delayed? then None
      else
        match Redeemed(o.state, user, parts[1..])
        case None => None
        case Some(rest) => Some(o.value.amount + rest)
  }

  /** A completed request is answered with what the sXLM is worth and burns it. */
  lemma RequestAnswers(w: World, user: Address, amount: int)
    requires SupplyInv(w) && 0 <= w.stake.totalStaked && RequestWithdrawal(w, user, amount).Done?
    ensures var s, o := w.stake, RequestWithdrawal(w, user, amount);
      && 0 < amount <= Balance(w.sxlm, user) <= s.totalSupply && (o.value.PaidInstantly? || o.value.Delayed?)
      && o.value.amount == Worth(s, amount)
      && SupplyInv(o.state) && 0 <= o.state.stake.totalStaked
      && o.state.stake.totalSupply == s.totalSupply - amount
      && o.state.stake.totalStaked == s.totalStaked - (if o.value.PaidInstantly? then Worth(s, amount) else 0)
      && Balance(o.state.sxlm, user) == Balance(w.sxlm, user) - amount
  {
    EntryAtMostSum(w.sxlm.balances, user);
    BurnKeepsSolvent(w.sxlm, w.self, user, amount);
    WorthBounds(w.stake, amount);
  }

  lemma SplitWorth(s: Stake, s': Stake, a: int, b: int)
    requires 0 <= s.totalStaked && 0 <= a && 0 <= b && a + b <= s.totalSupply && a < s.totalSupply
    requires s'.totalSupply == s.totalSupply - a && s'.totalStaked == s.totalStaked - Worth(s, a)
    ensures Worth(s, a) + Worth(s', b) <= Worth(s, a + b)
  {
    WorthBounds(s, a);
    MulNonNegative(a, s.totalStaked);
    MulNonNegative(b, s'.totalStaked);
    MulNonNegative(a + b, s.totalStaked);
    SplitFloors(a, b, s.totalStaked, s.totalSupply);
  }

  /** As long as all parts but the last are paid instantly, they are answered with at most what
      their sum is worth at the start ... */
  lemma {:induction false} PartsWithinWorth(w: World, user: Address, parts: seq<int>)
    requires SupplyInv(w) && 0 <= w.stake.totalStaked && parts != [] && Redeemed(w, user, parts).Some?
    ensures 0 < SumOf(parts) <= Balance(w.sxlm, user) <= w.stake.totalSupply
    ensures Redeemed(w, user, parts).value <= Worth(w.stake, SumOf(parts))
    decreases parts
  {
    var o := RequestWithdrawal(w, user, parts[0]);
    RequestAnswers(w, user, parts[0]);
    if parts[1..] != [] {
      PartsWithinWorth(o.state, user, parts[1..]);
      SplitWorth(w.stake, o.state.stake, parts[0], SumOf(parts[1..]));
    }
  }

  /** ... and that is what asking for the sum at once is answered with. */
  lemma InstantSplitNeverPays(w: World, user: Address, parts: seq<int>)
    requires SupplyInv(w) && 0 <= w.stake.totalStaked && parts != [] && Redeemed(w, user, parts).Some?
    requires RequestWithdrawal(w, user, SumOf(parts)).Done?
    ensures Redeemed(w, user, parts).value <= RequestWithdrawal(w, user, SumOf(parts)).value.amount
  {
    PartsWithinWorth(w, user, parts);
    RequestAnswers(w, user, SumOf(parts));
  }

  // --- A delayed part ---

  /** What the floor leaves over when `amount` is redeemed. */
  function Left(s: Stake, amount: int): int
    requires s.totalSupply != 0
  {
    amount * s.totalStaked % s.totalSupply
  }

  /** Redeeming `a` in `s` and then `b` in `s'` pays more than `a + b` in `s` exactly when the XLM
      that the first part leaves to the second makes up for the floors; a * b * T >= 2 * S * (S - a)
      is always enough. It never pays less by more than one unit. */
  ghost predicate GainsExactly(s: Stake, s': Stake, a: int, b: int)
    requires 0 < s.totalSupply && 0 < s'.totalSupply
  {
    var split, once, bonus := Worth(s, a) + Worth(s', b), Worth(s, a + b), a * b * s.totalStaked;
    && (once < split <==> Left(s, a) * s'.totalSupply + Left(s', b) * s.totalSupply
                            < bonus + Left(s, a + b) * s'.totalSupply)
    && (2 * (s.totalSupply * s'.totalSupply) <= bonus ==> once < split)
    && once <= split + 1
  }

  lemma WorthAndLeft(s: Stake, amount: int)
    requires 0 <= s.totalStaked && 0 < s.totalSupply && 0 <= amount
    ensures amount * s.totalStaked == Worth(s, amount) * s.totalSupply + Left(s, amount)
    ensures 0 <= Left(s, amount) < s.totalSupply
  {
    MulNonNegative(amount, s.totalStaked);
  }

  lemma GainOfSplit(s: Stake, s': Stake, a: int, b: int)
    requires 0 <= s.totalStaked == s'.totalStaked && 0 < a && 0 < b
    requires 0 < s'.totalSupply == s.totalSupply - a
    ensures GainsExactly(s, s', a, b)
  {
    var p, q, once, r1, r2, r := Worth(s, a), Worth(s', b), Worth(s, a + b), Left(s, a), Left(s', b), Left(s, a + b);
    assert a * s.totalStaked == p * s.totalSupply + r1 && 0 <= r1 < s.totalSupply by { WorthAndLeft(s, a); }
    assert b * s.totalStaked == q * s'.totalSupply + r2 && 0 <= r2 < s'.totalSupply by { WorthAndLeft(s', b); }
    assert (a + b) * s.totalStaked == once * s.totalSupply + r && 0 <= r < s.totalSupply by { WorthAndLeft(s, a + b); }
    MulPositive(a, b);
    MulNonNegative(a * b, s.totalStaked);
    SplitExactly(a, b, s.totalStaked, s.totalSupply, s'.totalSupply, p, q, once, r1, r2, r);
  }

  /** A delayed first part leaves its XLM to the rest: asking for `b` next to a delayed `a` is
      answered with more than `a + b` is worth at once in exactly those cases. The requests of
      `DelayedSplitCanPay` complete. */
  lemma DelayedSplitPaysExactly(w: World, user: Address, a: int, b: int)
    requires SupplyInv(w) && 0 <= w.stake.totalStaked
    requires RequestWithdrawal(w, user, a).Done? && RequestWithdrawal(w, user, a).value.Delayed?
    requires RequestWithdrawal(RequestWithdrawal(w, user, a).state, user, b).Done?
    ensures var first := RequestWithdrawal(w, user, a);
      var s, s', second := w.stake, first.state.stake, RequestWithdrawal(first.state, user, b);
      && first.value.amount == Worth(s, a)
      && s'.totalSupply == s.totalSupply - a && 0 < s'.totalSupply && second.value.amount == Worth(s', b)
      && GainsExactly(s, s', a, b)
      && (RequestWithdrawal(w, user, a + b).Done? ==>
            RequestWithdrawal(w, user, a + b).value.amount == Worth(s, a + b))
  {
    var first := RequestWithdrawal(w, user, a);
    RequestAnswers(w, user, a);
    RequestAnswers(first.state, user, b);
    if RequestWithdrawal(w, user, a + b).Done? { RequestAnswers(w, user, a + b); }
    GainOfSplit(w.stake, first.state.stake, a, b);
  }

  /** The same over plain numbers; `GainOfSplit` supplies them for any stake. */
  lemma SplitExactly(a: int, b: int, staked: int, supply: int, rest: int,
                     p: int, q: int, once: int, r1: int, r2: int, r: int)
    requires 0 < rest == supply - a && 0 < supply && 0 <= a * b * staked
    requires a * staked == p * supply + r1 && b * staked == q * rest + r2 && (a + b) * staked == once * supply + r
    requires 0 <= r1 < supply && 0 <= r2 < rest && 0 <= r < supply
    ensures once < p + q <==> r1 * rest + r2 * supply < a * b * staked + r * rest
    ensures 2 * (supply * rest) <= a * b * staked ==> once < p + q
    ensures once <= p + q + 1
  {
    var gain, unit, bonus := p + q - once, supply * rest, a * b * staked;
    assert gain * unit == bonus + r * rest - r1 * rest - r2 * supply by {
      SplitIdentity(a, b, staked, supply, rest, p, q, once, r1, r2, r);
    }
    MulPositive(supply, rest);
    MulLt(r1, supply, rest);
    MulLt(r2, rest, supply);
    MulNonNegative(r, rest);
    if gain <= 0 { MulLe(gain, 0, unit); } else { MulLt(0, gain, unit); }
    if gain <= -2 { MulLe(gain, -2, unit); }
  }

  lemma SplitIdentity(a: int, b: int, staked: int, supply: int, rest: int,
                      p: int, q: int, once: int, r1: int, r2: int, r: int)
    requires rest == supply - a
    requires a * staked == p * supply + r1 && b * staked == q * rest + r2 && (a + b) * staked == once * supply + r
    ensures (p + q - once) * (supply * rest) == a * b * staked + r * rest - r1 * rest - r2 * supply
  {
    var at, bt := a * staked, b * staked;
    assert once * supply == at + bt - r by { assert (a + b) * staked == at + bt; }
    CommonUnit(p, q, once, supply, rest, at - r1, bt - r2, at + bt - r);
    Remainders(a, supply, rest, at, bt, r1, r2, r);
    assert bt * a == a * b * staked;
  }

  lemma CommonUnit(p: int, q: int, once: int, supply: int, rest: int, x: int, y: int, z: int)
    requires x == p * supply && y == q * rest && z == once * supply
    ensures (p + q - once) * (supply * rest) == x * rest + y * supply - z * rest
  {
    var unit := supply * rest;
    assert (p + q - once) * unit == p * unit + q * unit - once * unit;
    assert p * unit == x * rest && q * unit == y * supply && once * unit == z * rest;
  }

  lemma Remainders(a: int, supply: int, rest: int, at: int, bt: int, r1: int, r2: int, r: int)
    requires rest == supply - a
    ensures (at - r1) * rest + (bt - r2) * supply - (at + bt - r) * rest ==
      bt * a + r * rest - r1 * rest - r2 * supply
  {
    assert bt * supply == bt * rest + bt * a;
  }

  // --- A case ---

  /** User 1 deposits 100 into the contract of `Start`. */
  function Deposited(h: History): History {
    Step(h, DepositCall(1, 100))
  }

  function HalfOpen(): map<nat, Request> {
    map[0 := Request(0, 1, 50, 0, false)]
  }

  /** Asking for all of it is answered with 100; asking for half of it twice with 50 and 100. */
  ghost predicate HalvesPayMore(h: History) {
    var first := Exec(h.world, RequestCall(1, 50));
    && Exec(h.world, RequestCall(1, 100)).Done? && Exec(h.world, RequestCall(1, 100)).value == Delayed(1, 100, 0, 0)
    && first.Done? && first.value == Delayed(1, 50, 0, 0)
    && Exec(first.state, RequestCall(1, 50)).Done?
    && Exec(first.state, RequestCall(1, 50)).value == Delayed(1, 100, 1, 0)
  }

  lemma AskForAll(w: World)
    requires Looks(w, Fresh(5, 0).(totalStaked := 100, totalSupply := 100), 200, 0, 1, 100, 0)
    ensures Exec(w, RequestCall(1, 100)).Done? && Exec(w, RequestCall(1, 100)).value == Delayed(1, 100, 0, 0)
  {
  }

  lemma AskForHalf(w: World)
    requires Looks(w, Fresh(5, 0).(totalStaked := 100, totalSupply := 100), 200, 0, 1, 100, 0)
    ensures var o := Exec(w, RequestCall(1, 50));
      && o.Done? && o.value == Delayed(1, 50, 0, 0)
      && Looks(o.state, Fresh(5, 0).(totalStaked := 100, totalSupply := 50, counter := 1, queue := HalfOpen()),
               200, 0, 1, 50, 0)
  {
  }

  lemma AskForTheRest(w: World)
    requires Looks(w, Fresh(5, 0).(totalStaked := 100, totalSupply := 50, counter := 1, queue := HalfOpen()),
                   200, 0, 1, 50, 0)
    ensures Exec(w, RequestCall(1, 50)).Done? && Exec(w, RequestCall(1, 50)).value == Delayed(1, 100, 1, 0)
  {
  }

  lemma HalvesOfHundred(h: History)
    requires Looks(h.world, Fresh(5, 0), 100, 100, 1, 0, 0)
    ensures HalvesPayMore(Deposited(h))
  {
    DepositOfHundred(h);
    var w := Deposited(h).world;
    AskForAll(w);
    AskForHalf(w);
    AskForTheRest(Exec(w, RequestCall(1, 50)).state);
  }

  /** Splitting a delayed redemption can pay: three calls from a fresh contract. */
  lemma DelayedSplitCanPay(h: History)
    requires h == Start()
    ensures Initial(h) && HalvesPayMore(Deposited(h))
  {
    StartLooks();
    HalvesOfHundred(h);
  }
}
