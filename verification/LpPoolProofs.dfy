/** Rounding in the pool: swaps round up for the trader, redemptions round down for the leaver. */
module PoolArithmetic {
  import opened Prelude
  import opened Arith
  import opened Pools

  /** A fee of 100% or more leaves nothing to swap. */
  lemma NothingAfterFullFee(amount: int, feeBps: nat)
    requires 0 < amount
    ensures BPS <= feeBps ==> AfterFee(amount, feeBps) <= 0
    ensures feeBps <= BPS ==> 0 <= AfterFee(amount, feeBps) <= amount
  {
    if feeBps <= BPS {
      MulNonNegative(amount, BPS - feeBps);
      MulNonNegative(amount, feeBps);
      Floor(amount * (BPS - feeBps), BPS);
    }
    if BPS <= feeBps {
      MulNonNegative(amount, feeBps - BPS);
      assert amount * (BPS - feeBps) == -(amount * (feeBps - BPS));
    }
  }

  /** Fee and cut are floors of the shares their rates name. */
  lemma FeesExact(amount: int, feeBps: nat, protocolFeeBps: nat)
    requires 0 < amount && 0 < feeBps <= BPS
    ensures var afterFee := AfterFee(amount, feeBps);
      var cut := Div((amount - afterFee) * protocolFeeBps, feeBps);
      && afterFee * BPS <= amount * (BPS - feeBps) < (afterFee + 1) * BPS
      && cut * feeBps <= (amount - afterFee) * protocolFeeBps < (cut + 1) * feeBps
  {
    NothingAfterFullFee(amount, feeBps);
    MulNonNegative(amount, BPS - feeBps);
    MulNonNegative(amount - AfterFee(amount, feeBps), protocolFeeBps);
    Floor(amount * (BPS - feeBps), BPS);
    Floor((amount - AfterFee(amount, feeBps)) * protocolFeeBps, feeBps);
  }

  /** Without a positive input after fees, no output passes the check 0 < out < reserve. */
  lemma NoInputNoOutput(rIn: int, rOut: int, afterFee: int)
    requires 0 < rIn && 0 < rOut && afterFee <= 0 && rIn + afterFee != 0
    ensures var out := SwapOut(rIn, rOut, afterFee); out <= 0 || rOut <= out
  {
    var k, d := rIn * rOut, rIn + afterFee;
    MulPositive(rIn, rOut);
    if 0 < d {
      MulLe(d, rIn, rOut);
      assert rOut * d <= k;
      FloorAtLeast(rOut, k, d);
    } else {
      assert k / d <= 0;
    }
  }

  /** The output is exactly the ceiling of rOut * afterFee / (rIn + afterFee). */
  lemma SwapOutIsCeiling(rIn: int, rOut: int, afterFee: int)
    requires 0 < rIn && 0 < rOut && 0 <= afterFee
    ensures var d, out := rIn + afterFee, SwapOut(rIn, rOut, afterFee);
      (out - 1) * d < rOut * afterFee <= out * d && 0 <= out <= rOut
  {
    var k, d := rIn * rOut, rIn + afterFee;
    MulPositive(rIn, rOut);
    Floor(k, d);
    FloorAtLeast(0, k, d);
    MulNonNegative(rOut, afterFee);
    assert rOut * d == k + rOut * afterFee;
    var q := k / d;
    assert (rOut - q) * d == rOut * d - q * d;
    assert (rOut - q - 1) * d == rOut * d - (q + 1) * d;
    CancelLt(-1, rOut - q, d);
  }

  /** A larger input never buys less. */
  lemma SwapMonotone(rIn: int, rOut: int, feeBps: nat, small: int, large: int)
    requires 0 < rIn && 0 < rOut && feeBps <= BPS && 0 < small <= large
    ensures 0 <= AfterFee(small, feeBps) <= AfterFee(large, feeBps)
    ensures SwapOut(rIn, rOut, AfterFee(small, feeBps)) <= SwapOut(rIn, rOut, AfterFee(large, feeBps))
  {
    NothingAfterFullFee(small, feeBps);
    MulLe(small, large, BPS - feeBps);
    MulNonNegative(small, BPS - feeBps);
    FloorMonotone(small * (BPS - feeBps), large * (BPS - feeBps), BPS);
    var k, d, d' := rIn * rOut, rIn + AfterFee(small, feeBps), rIn + AfterFee(large, feeBps);
    MulPositive(rIn, rOut);
    Floor(k, d');
    FloorAtLeast(0, k, d');
    MulLe(d, d', k / d');
    FloorAtLeast(k / d', k, d);
  }

  /** The product `k'` that a swap leaves of `k`, when the input after fees brings the reserve
      to `d` and `kept` of the fee stays in the pool: it does not fall exactly when what is kept
      makes up for the remainder that rounding gives away. */
  ghost predicate ProductExact(k: int, k': int, d: int, kept: int)
    requires d != 0
  {
    && k' == k - k % d + kept * (k / d)
    && (k <= k' <==> k % d <= kept * (k / d))
    && (d - 1 <= kept * (k / d) ==> k <= k')
    && (0 <= kept ==> k - d < k')
  }

  lemma ProductAfterSwap(rIn: int, rOut: int, afterFee: int, kept: int)
    requires 0 < rIn && 0 < rOut && 0 <= afterFee
    ensures var d := rIn + afterFee;
      ProductExact(rIn * rOut, (d + kept) * (rOut - SwapOut(rIn, rOut, afterFee)), d, kept)
  {
    var k, d := rIn * rOut, rIn + afterFee;
    MulPositive(rIn, rOut);
    var q := k / d;
    FloorAtLeast(0, k, d);
    assert k == d * q + k % d;
    assert (d + kept) * q == d * q + kept * q;
    if 0 <= kept { MulNonNegative(kept, q); }
  }

  /** The cut is between nothing and the whole fee as long as its rate does not exceed the fee rate. */
  lemma CutWithinFee(fee: int, protocolFeeBps: nat, feeBps: nat)
    requires 0 <= fee && 0 < feeBps
    ensures 0 <= Div(fee * protocolFeeBps, feeBps)
    ensures protocolFeeBps <= feeBps ==> Div(fee * protocolFeeBps, feeBps) <= fee
  {
    MulNonNegative(fee, protocolFeeBps);
    FloorAtLeast(0, fee * protocolFeeBps, feeBps);
    if protocolFeeBps <= feeBps {
      MulLe(protocolFeeBps, feeBps, fee);
      MulPositive(feeBps, fee + 1);
      assert fee * protocolFeeBps < (fee + 1) * feeBps;
      FloorBelow(fee + 1, fee * protocolFeeBps, feeBps);
    }
  }

  /** Redeeming part of the supply takes the floor of the proportional share of the
      reserve; what remains per LP token does not fall. All of the supply redeems all of the reserve. */
  lemma ShareBounds(lp: int, reserve: int, totalLp: int)
    requires 0 <= lp <= totalLp && 0 < totalLp && 0 <= reserve
    ensures var out := Share(lp, reserve, totalLp);
      && 0 <= out <= reserve
      && out * totalLp <= lp * reserve < (out + 1) * totalLp
      && reserve * (totalLp - lp) <= (reserve - out) * totalLp
      && (lp == totalLp ==> out == reserve)
      && (lp < totalLp && 0 < reserve ==> out < reserve)
  {
    MulNonNegative(lp, reserve);
    Floor(lp * reserve, totalLp);
    FloorAtLeast(0, lp * reserve, totalLp);
    MulLe(lp, totalLp, reserve);
    assert lp * reserve < (reserve + 1) * totalLp by {
      assert (reserve + 1) * totalLp == totalLp * reserve + totalLp;
    }
    FloorBelow(reserve + 1, lp * reserve, totalLp);
    var out := Share(lp, reserve, totalLp);
    assert (reserve - out) * totalLp == reserve * totalLp - out * totalLp;
    assert reserve * (totalLp - lp) == reserve * totalLp - lp * reserve;
    if lp == totalLp {
      FloorAtLeast(reserve, lp * reserve, totalLp);
    }
    if lp < totalLp && 0 < reserve {
      MulLt(lp, totalLp, reserve);
      FloorBelow(reserve, lp * reserve, totalLp);
    }
  }

  /** Redeeming `a` and then `b` pays at most what redeeming `a + b` at once pays. */
  lemma SplitPaysLess(a: int, b: int, reserve: int, totalLp: int)
    requires 0 <= a && 0 <= b && a + b <= totalLp && a < totalLp && 0 <= reserve
    ensures var first := Share(a, reserve, totalLp);
      first + Share(b, reserve - first, totalLp - a) <= Share(a + b, reserve, totalLp)
  {
    var p := Share(a, reserve, totalLp);
    ShareBounds(a, reserve, totalLp);
    MulNonNegative(a, reserve);
    MulNonNegative(b, reserve - p);
    MulNonNegative(a + b, reserve);
    SplitFloors(a, b, reserve, totalLp);
  }

  /** The reserve behind each LP token does not fall from one state to the next, though it would
      with one LP token more. */
  ghost predicate JustKeepsValue(reserve: int, totalLp: int, reserve': int, totalLp': int) {
    reserve * totalLp' <= reserve' * totalLp < reserve * (totalLp' + 1)
  }

  /** It falls short of that by less than one unit of reserve. */
  ghost predicate AlmostKeepsValue(reserve: int, totalLp: int, reserve': int, totalLp': int) {
    reserve * totalLp' < (reserve' + 1) * totalLp
  }

  /** The computed side of a proportional deposit: `lp` tokens are charged the floor of
      lp * reserve / totalLp, and redeeming them at once returns exactly that. */
  lemma ComputedSide(lp: int, reserve: int, totalLp: int)
    requires 0 < lp && 0 < totalLp && 0 < reserve
    ensures var taken := Div(lp * reserve, totalLp);
      && 0 <= taken
      && Share(lp, reserve + taken, totalLp + lp) == taken
      && AlmostKeepsValue(reserve, totalLp, reserve + taken, totalLp + lp)
  {
    MulPositive(lp, reserve);
    Floor(lp * reserve, totalLp);
    FloorAtLeast(0, lp * reserve, totalLp);
    var taken := lp * reserve / totalLp;
    assert taken * (totalLp + lp) == taken * totalLp + lp * taken;
    assert (taken + 1) * (totalLp + lp) == (taken + 1) * totalLp + lp * taken + lp;
    assert lp * (reserve + taken) == lp * reserve + lp * taken;
    FloorIs(taken, lp * (reserve + taken), totalLp + lp);
    assert reserve * (totalLp + lp) == reserve * totalLp + lp * reserve;
    assert (reserve + taken + 1) * totalLp == reserve * totalLp + (taken + 1) * totalLp;
  }

  /** The limiting side: all of `offered` is taken, at most that comes back, and the reserve
      behind each LP token does not fall. */
  lemma LimitingSide(offered: int, lp: int, reserve: int, totalLp: int)
    requires 0 < offered && 0 < totalLp && 0 < reserve && 0 < lp
    requires lp == Div(offered * totalLp, reserve)
    ensures 0 <= Share(lp, reserve + offered, totalLp + lp) <= offered
    ensures JustKeepsValue(reserve, totalLp, reserve + offered, totalLp + lp)
  {
    MulPositive(offered, totalLp);
    Floor(offered * totalLp, reserve);
    assert lp * (reserve + offered) == lp * reserve + lp * offered;
    assert (offered + 1) * (totalLp + lp) == offered * totalLp + lp * offered + totalLp + lp;
    MulPositive(lp, reserve + offered);
    FloorAtLeast(0, lp * (reserve + offered), totalLp + lp);
    FloorBelow(offered + 1, lp * (reserve + offered), totalLp + lp);
    assert reserve * (totalLp + lp) == reserve * totalLp + lp * reserve;
    assert reserve * (totalLp + lp + 1) == reserve * totalLp + (lp + 1) * reserve;
    assert (reserve + offered) * totalLp == reserve * totalLp + offered * totalLp;
  }

  /** The other side would have supported more LP tokens, so it is charged no more than was offered. */
  lemma ComputedWithinOffer(offered: int, lp: int, reserve: int, totalLp: int)
    requires 0 < offered && 0 < totalLp && 0 < reserve && 0 <= lp
    requires lp <= Div(offered * totalLp, reserve)
    ensures Div(lp * reserve, totalLp) <= offered
  {
    MulPositive(offered, totalLp);
    MulNonNegative(lp, reserve);
    Floor(offered * totalLp, reserve);
    MulLe(lp, offered * totalLp / reserve, reserve);
    assert (offered + 1) * totalLp == offered * totalLp + totalLp;
    FloorBelow(offered + 1, lp * reserve, totalLp);
  }
}

/** The pool over whole runs. */
module PoolRuns {
  import opened Prelude
  import opened Sums
  import opened Tokens
  import opened Pools
  import opened PoolArithmetic
  import opened Arith

  /** `Outside` stands for anything the rest of the chain does to the two tokens. */
  datatype Call =
    | Add(user: Address, xlmAmount: int, sxlmAmount: int)
    | Remove(user: Address, lpAmount: int)
    | BuySxlm(user: Address, amount: int, minOut: int)
    | BuyXlm(user: Address, amount: int, minOut: int)
    | Collect
    | SetFee(bps: nat)
    | Outside(native: Ledger, sxlm: Ledger)

  /** A pool together with what it was sent outside its own calls. The two gift totals are
      history, not contract storage. */
  datatype Tracked = Tracked(world: World, giftXlm: int, giftSxlm: int)

  /** Nobody but the pool spends the pool's own tokens. */
  function OutsideStep(w: World, native: Ledger, sxlm: Ledger): Outcome<World, ()> {
    if Balance(native, w.self) < Balance(w.native, w.self) || Balance(sxlm, w.self) < Balance(w.sxlm, w.self)
    then Aborted(NotAuthorised)
    else Done(w.(native := native, sxlm := sxlm), ())
  }

  function Next(w: World, c: Call): World {
    match c
    case Add(user, x, s) => AddLiquidity(w, user, x, s).After(w)
    case Remove(user, lp) => RemoveLiquidity(w, user, lp).After(w)
    case BuySxlm(user, amount, minOut) => SwapXlm(w, user, amount, minOut).After(w)
    case BuyXlm(user, amount, minOut) => SwapSxlm(w, user, amount, minOut).After(w)
    case Collect => CollectFees(w).After(w)
    case SetFee(bps) => SetProtocolFee(w, bps).After(w)
    case Outside(native, sxlm) => OutsideStep(w, native, sxlm).After(w)
  }

  function Step(t: Tracked, c: Call): Tracked {
    var w' := Next(t.world, c);
    if c.Outside? then
      Tracked(w', t.giftXlm + Balance(w'.native, w'.self) - Balance(t.world.native, t.world.self),
                  t.giftSxlm + Balance(w'.sxlm, w'.self) - Balance(t.world.sxlm, t.world.self))
    else t.(world := w')
  }

  function Run(t: Tracked, calls: seq<Call>): Tracked
    decreases calls
  {
    if calls == [] then t else Run(Step(t, calls[0]), calls[1..])
  }

  /** Whether the call divides by zero. */
  predicate DividesByZero(w: World, c: Call) {
    match c
    case Add(user, x, s) => AddLiquidity(w, user, x, s) == Aborted(DivisionByZero)
    case Remove(user, lp) => RemoveLiquidity(w, user, lp) == Aborted(DivisionByZero)
    case BuySxlm(user, amount, minOut) => SwapXlm(w, user, amount, minOut) == Aborted(DivisionByZero)
    case BuyXlm(user, amount, minOut) => SwapSxlm(w, user, amount, minOut) == Aborted(DivisionByZero)
    case _ => false
  }

  /** The pool's books: LP tokens add up, reserves and LP supply vanish together, and the
      pool holds exactly its reserves, its accrued fees and the gifts. */
  ghost predicate Inv(t: Tracked) {
    var w, p := t.world, t.world.pool;
    && NonNegative(p.lpBalances) && 0 <= p.totalLp == Sum(p.lpBalances)
    && 0 <= p.reserveXlm && 0 <= p.reserveSxlm && 0 <= p.accruedFees
    && (p.totalLp == 0 <==> p.reserveXlm == 0) && (p.totalLp == 0 <==> p.reserveSxlm == 0)
    && 0 <= t.giftXlm && 0 <= t.giftSxlm
    && Balance(w.native, w.self) == p.reserveXlm + p.accruedFees + t.giftXlm
    && Balance(w.sxlm, w.self) == p.reserveSxlm + t.giftSxlm
  }

  /** A purchase of sXLM that goes through leaves something in the XLM reserve. */
  ghost predicate CutLeavesReserve(w: World, c: Call) {
    c.BuySxlm? && w.pool.feeBps != 0 && SwapXlm(w, c.user, c.amount, c.minOut).Done? ==>
      ProtocolCut(w.pool, c.amount) < w.pool.reserveXlm + c.amount
  }

  ghost predicate Admitted(t: Tracked, calls: seq<Call>)
    decreases calls
  {
    calls == [] || (CutLeavesReserve(t.world, calls[0]) && Admitted(Step(t, calls[0]), calls[1..]))
  }

  ghost predicate InvThroughout(t: Tracked, calls: seq<Call>)
    decreases calls
  {
    Inv(t) && (calls == [] || InvThroughout(Step(t, calls[0]), calls[1..]))
  }

  lemma AddKeeps(t: Tracked, user: Address, x: int, s: int)
    requires Inv(t)
    ensures Inv(Step(t, Add(user, x, s)))
    ensures AddLiquidity(t.world, user, x, s) != Aborted(DivisionByZero)
  {
    var w, p := t.world, t.world.pool;
    SumNonNegative(p.lpBalances.Keys, p.lpBalances);
    var o := AddLiquidity(w, user, x, s);
    if o.Done? {
      var q := o.value;
      TransferMoves(w.native, user, w.self, q.xlm);
      TransferMoves(w.sxlm, user, w.self, q.sxlm);
      SumUpdate(p.lpBalances, user, Get(p.lpBalances, user) + q.lp);
    }
  }

  lemma RemoveKeeps(t: Tracked, user: Address, lp: int)
    requires Inv(t)
    ensures Inv(Step(t, Remove(user, lp)))
    ensures RemoveLiquidity(t.world, user, lp) != Aborted(DivisionByZero)
  {
    var w, p := t.world, t.world.pool;
    EntryAtMostSum(p.lpBalances, user);
    var o := RemoveLiquidity(w, user, lp);
    if o.Done? {
      ShareBounds(lp, p.reserveXlm, p.totalLp);
      ShareBounds(lp, p.reserveSxlm, p.totalLp);
      TransferMoves(w.native, w.self, user, o.value.0);
      TransferMoves(w.sxlm, w.self, user, o.value.1);
      SumUpdate(p.lpBalances, user, Get(p.lpBalances, user) - lp);
    }
  }

  /** What a completed purchase of sXLM does, to the last unit: the output rounds up, the fee
      and the cut are floors, and the product follows, all from the state before the call.
      `SwapsComplete` gives a pool on which swaps complete in both directions. */
  lemma BuySxlmExact(w: World, user: Address, amount: int, minOut: int)
    requires SwapXlm(w, user, amount, minOut).Done?
    ensures 0 < w.pool.feeBps < BPS
    ensures var o := SwapXlm(w, user, amount, minOut);
      var p, p', out := w.pool, o.state.pool, o.value;
      var afterFee, cut := AfterFee(amount, p.feeBps), ProtocolCut(p, amount);
      var d, kept := p.reserveXlm + afterFee, amount - afterFee - cut;
      && 0 < d && p'.accruedFees == p.accruedFees + cut && 0 <= cut
      && (p.protocolFeeBps <= p.feeBps ==> 0 <= kept)
      && afterFee * BPS <= amount * (BPS - p.feeBps) < (afterFee + 1) * BPS
      && cut * p.feeBps <= (amount - afterFee) * p.protocolFeeBps < (cut + 1) * p.feeBps
      && (out - 1) * d < p.reserveSxlm * afterFee <= out * d
      && ProductExact(p.reserveXlm * p.reserveSxlm, p'.reserveXlm * p'.reserveSxlm, d, kept)
  {
    var p, afterFee := w.pool, AfterFee(amount, w.pool.feeBps);
    NothingAfterFullFee(amount, p.feeBps);
    if BPS <= p.feeBps { NoInputNoOutput(p.reserveXlm, p.reserveSxlm, afterFee); }
    FeesExact(amount, p.feeBps, p.protocolFeeBps);
    CutWithinFee(amount - afterFee, p.protocolFeeBps, p.feeBps);
    SwapOutIsCeiling(p.reserveXlm, p.reserveSxlm, afterFee);
    ProductAfterSwap(p.reserveXlm, p.reserveSxlm, afterFee, amount - afterFee - ProtocolCut(p, amount));
  }

  /** The other direction: the whole fee stays, and the protocol's rate does not matter. Such a
      swap completes in `SwapsComplete` too. */
  lemma BuyXlmExact(w: World, user: Address, amount: int, minOut: int)
    requires SwapSxlm(w, user, amount, minOut).Done?
    ensures var o := SwapSxlm(w, user, amount, minOut);
      var p, p', out := w.pool, o.state.pool, o.value;
      var afterFee := AfterFee(amount, p.feeBps);
      var d, kept := p.reserveSxlm + afterFee, amount - afterFee;
      && 0 < d && p.feeBps < BPS && 0 <= kept && p'.accruedFees == p.accruedFees
      && (out - 1) * d < p.reserveXlm * afterFee <= out * d
      && ProductExact(p.reserveSxlm * p.reserveXlm, p'.reserveSxlm * p'.reserveXlm, d, kept)
  {
    var p, afterFee := w.pool, AfterFee(amount, w.pool.feeBps);
    NothingAfterFullFee(amount, p.feeBps);
    if BPS <= p.feeBps { NoInputNoOutput(p.reserveSxlm, p.reserveXlm, afterFee); }
    SwapOutIsCeiling(p.reserveSxlm, p.reserveXlm, afterFee);
    ProductAfterSwap(p.reserveSxlm, p.reserveXlm, afterFee, amount - afterFee);
  }

  /** A completed call moves exactly the amounts it answers, between the caller and the pool,
      and no other balance. */
  lemma AddSettles(w: World, user: Address, x: int, s: int)
    requires AddLiquidity(w, user, x, s).Done?
    ensures var o := AddLiquidity(w, user, x, s);
      && Moved(w.native, o.state.native, user, w.self, o.value.xlm)
      && Moved(w.sxlm, o.state.sxlm, user, w.self, o.value.sxlm)
  {
    TransferMoves(w.native, user, w.self, AddLiquidity(w, user, x, s).value.xlm);
    TransferMoves(w.sxlm, user, w.self, AddLiquidity(w, user, x, s).value.sxlm);
  }

  lemma RemoveSettles(w: World, user: Address, lp: int)
    requires RemoveLiquidity(w, user, lp).Done?
    ensures var o := RemoveLiquidity(w, user, lp);
      Moved(w.native, o.state.native, w.self, user, o.value.0) && Moved(w.sxlm, o.state.sxlm, w.self, user, o.value.1)
  {
    TransferMoves(w.native, w.self, user, RemoveLiquidity(w, user, lp).value.0);
    TransferMoves(w.sxlm, w.self, user, RemoveLiquidity(w, user, lp).value.1);
  }

  /** A swap also never pays less than the caller's minimum; the swaps of `SwapsComplete` pay
      exactly that. */
  lemma BuySxlmSettles(w: World, user: Address, amount: int, minOut: int)
    requires SwapXlm(w, user, amount, minOut).Done?
    ensures var o := SwapXlm(w, user, amount, minOut);
      && minOut <= o.value
      && Moved(w.native, o.state.native, user, w.self, amount)
      && Moved(w.sxlm, o.state.sxlm, w.self, user, o.value)
  {
    TransferMoves(w.native, user, w.self, amount);
    TransferMoves(w.sxlm, w.self, user, SwapXlm(w, user, amount, minOut).value);
  }

  /** The same in the other direction; again `SwapsComplete` has such a swap. */
  lemma BuyXlmSettles(w: World, user: Address, amount: int, minOut: int)
    requires SwapSxlm(w, user, amount, minOut).Done?
    ensures var o := SwapSxlm(w, user, amount, minOut);
      && minOut <= o.value
      && Moved(w.sxlm, o.state.sxlm, user, w.self, amount)
      && Moved(w.native, o.state.native, w.self, user, o.value)
  {
    TransferMoves(w.sxlm, user, w.self, amount);
    TransferMoves(w.native, w.self, user, SwapSxlm(w, user, amount, minOut).value);
  }

  /** A purchase of sXLM keeps the books exactly when the protocol's cut leaves something in
      the XLM reserve. A rate within the fee rate guarantees it. */
  lemma BuySxlmKeeps(t: Tracked, user: Address, amount: int, minOut: int)
    requires Inv(t)
    ensures Inv(Step(t, BuySxlm(user, amount, minOut))) <==> CutLeavesReserve(t.world, BuySxlm(user, amount, minOut))
    ensures t.world.pool.protocolFeeBps <= t.world.pool.feeBps ==>
      CutLeavesReserve(t.world, BuySxlm(user, amount, minOut))
    ensures 0 < t.world.pool.feeBps <= BPS ==> SwapXlm(t.world, user, amount, minOut) != Aborted(DivisionByZero)
  {
    var w, p := t.world, t.world.pool;
    if 0 < amount { NothingAfterFullFee(amount, p.feeBps); }
    var o := SwapXlm(w, user, amount, minOut);
    if o.Done? {
      if BPS <= p.feeBps { NoInputNoOutput(p.reserveXlm, p.reserveSxlm, AfterFee(amount, p.feeBps)); }
      CutWithinFee(amount - AfterFee(amount, p.feeBps), p.protocolFeeBps, p.feeBps);
      TransferMoves(w.native, user, w.self, amount);
      TransferMoves(w.sxlm, w.self, user, o.value);
    }
  }

  lemma BuyXlmKeeps(t: Tracked, user: Address, amount: int, minOut: int)
    requires Inv(t)
    ensures Inv(Step(t, BuyXlm(user, amount, minOut)))
    ensures t.world.pool.feeBps <= BPS ==> SwapSxlm(t.world, user, amount, minOut) != Aborted(DivisionByZero)
  {
    var w, p := t.world, t.world.pool;
    if 0 < amount { NothingAfterFullFee(amount, p.feeBps); }
    var o := SwapSxlm(w, user, amount, minOut);
    if o.Done? {
      TransferMoves(w.sxlm, user, w.self, amount);
      TransferMoves(w.native, w.self, user, o.value);
    }
  }

  lemma StepKeeps(t: Tracked, c: Call)
    requires Inv(t)
    ensures Inv(Step(t, c)) <==> CutLeavesReserve(t.world, c)
    ensures 0 < t.world.pool.feeBps <= BPS ==> !DividesByZero(t.world, c)
  {
    match c
    case Add(user, x, s) => AddKeeps(t, user, x, s);
    case Remove(user, lp) => RemoveKeeps(t, user, lp);
    case BuySxlm(user, amount, minOut) => BuySxlmKeeps(t, user, amount, minOut);
    case BuyXlm(user, amount, minOut) => BuyXlmKeeps(t, user, amount, minOut);
    case Collect =>
      if 0 < t.world.pool.accruedFees && CollectFees(t.world).Done? {
        TransferMoves(t.world.native, t.world.self, t.world.pool.admin, t.world.pool.accruedFees);
      }
    case SetFee(bps) =>
    case Outside(native, sxlm) =>
  }

  /** A pool that was just initialised, on whatever tokens its address already holds. */
  ghost predicate Initial(t: Tracked) {
    var w := t.world;
    && w.pool == Fresh(w.pool.admin, w.pool.feeBps)
    && 0 <= t.giftXlm == Balance(w.native, w.self)
    && 0 <= t.giftSxlm == Balance(w.sxlm, w.self)
  }

  lemma InitialInv(t: Tracked)
    requires Initial(t)
    ensures Inv(t)
  {
    assert t.world.pool.lpBalances.Keys == {};
  }

  /** The books hold throughout a run exactly when no completed purchase empties the XLM reserve. */
  lemma {:induction false} RunKeepsExactly(t: Tracked, calls: seq<Call>)
    requires Inv(t)
    ensures InvThroughout(t, calls) <==> Admitted(t, calls)
    ensures Admitted(t, calls) ==> Inv(Run(t, calls))
    decreases calls
  {
    if calls != [] {
      StepKeeps(t, calls[0]);
      if Inv(Step(t, calls[0])) {
        RunKeepsExactly(Step(t, calls[0]), calls[1..]);
      }
    }
  }

  /** The books are right in every state reached without such a purchase, and with a fee between
      0 and 100% no call made there divides by zero. */
  lemma ReachableBooks(t: Tracked, calls: seq<Call>, c: Call)
    requires Initial(t) && Admitted(t, calls)
    ensures Inv(Run(t, calls))
    ensures 0 < Run(t, calls).world.pool.feeBps <= BPS ==> !DividesByZero(Run(t, calls).world, c)
  {
    InitialInv(t);
    RunKeepsExactly(t, calls);
    StepKeeps(Run(t, calls), c);
  }

  // --- Where the promises stop ---

  /** A pool with reserves of 1000 and 2, as left by a first deposit. */
  function SmallPool(protocolFeeBps: nat): Tracked {
    var p := Fresh(9, 30).(protocolFeeBps := protocolFeeBps, reserveXlm := 1000, reserveSxlm := 2,
                           totalLp := 44, lpBalances := map[1 := 44]);
    Tracked(World(0, Ledger(7, map[0 := 1000, 1 := 9000], map[], 10000), Ledger(8, map[0 := 2], map[], 2), p), 0, 0)
  }

  lemma SmallPoolBooks(protocolFeeBps: nat)
    ensures Inv(SmallPool(protocolFeeBps))
  {
    SumUpdate(map[], 1 as Address, 44);
    assert map[][1 as Address := 44] == SmallPool(protocolFeeBps).world.pool.lpBalances;
  }

  lemma SwapOfTwo()
    ensures AfterFee(2, 30) == 1 && SwapOut(1000, 2, 1) == 1
    ensures ProtocolCut(SmallPool(5).world.pool, 2) == 0
    ensures ProtocolCut(SmallPool(90_000_000).world.pool, 2) == 3_000_000
  {
  }

  /** Buying with 2 XLM pays 1 sXLM. */
  lemma AfterSwapOfTwo(w: World, protocolFeeBps: nat, cut: int)
    requires AfterFee(2, 30) == 1 && SwapOut(1000, 2, 1) == 1
    requires w == SmallPool(protocolFeeBps).world && cut == ProtocolCut(w.pool, 2)
    ensures BoughtWithTwo(w, cut)
  {
  }

  ghost predicate BoughtWithTwo(w: World, cut: int) {
    var o := SwapXlm(w, 1, 2, 0);
    && o.Done? && o.state.pool.reserveXlm == 1002 - cut && o.state.pool.reserveSxlm == 1
    && w.pool.reserveXlm == 1000 && w.pool.reserveSxlm == 2
  }

  lemma TwoLowersProduct(w: World)
    requires BoughtWithTwo(w, 0)
    ensures ProductFalls(w)
  {
  }

  ghost predicate ProductFalls(w: World) {
    var o := SwapXlm(w, 1, 2, 0);
    && o.Done? && o.state.pool.reserveXlm * o.state.pool.reserveSxlm == 1002
    && w.pool.reserveXlm * w.pool.reserveSxlm == 2000
  }

  /** The product can fall: buying with 2 XLM from reserves of 1000 and 2 takes it from 2000 to 1002. */
  lemma ProductCanFall()
    ensures Inv(SmallPool(5)) && ProductFalls(SmallPool(5).world)
  {
    var w := SmallPool(5).world;
    SmallPoolBooks(5);
    SwapOfTwo();
    AfterSwapOfTwo(w, 5, 0);
    TwoLowersProduct(w);
  }

  /** With a protocol rate above the fee rate a purchase can leave a negative reserve. */
  lemma UnboundedCutDrainsReserve()
    ensures var t := SmallPool(90_000_000);
      && Inv(t) && SwapXlm(t.world, 1, 2, 0).Done?
      && SwapXlm(t.world, 1, 2, 0).state.pool.reserveXlm < 0
      && !Inv(Step(t, BuySxlm(1, 2, 0)))
  {
    SmallPoolBooks(90_000_000);
    SwapOfTwo();
    AfterSwapOfTwo(SmallPool(90_000_000).world, 90_000_000, 3_000_000);
  }

  /** A pool of 1000 and 1000 with a provider who also holds both tokens. */
  function LivePool(): World {
    World(0, Ledger(7, map[0 := 1000, 1 := 9000], map[], 10000), Ledger(8, map[0 := 1000, 1 := 9000], map[], 10000),
          Fresh(9, 30).(reserveXlm := 1000, reserveSxlm := 1000, totalLp := 1000, lpBalances := map[1 := 1000]))
  }

  /** Swaps go through in both directions: 100 of either token buys 91 of the other. */
  lemma SwapsComplete()
    ensures SwapXlm(LivePool(), 1, 100, 91).Done? && SwapXlm(LivePool(), 1, 100, 91).value == 91
    ensures SwapSxlm(LivePool(), 1, 100, 91).Done? && SwapSxlm(LivePool(), 1, 100, 91).value == 91
  {
    assert AfterFee(100, 30) == 99 && SwapOut(1000, 1000, 99) == 91;
  }

  /** So do deposits and redemptions. */
  lemma DepositsAndRedemptionsComplete()
    ensures AddLiquidity(LivePool(), 1, 100, 200).Done?
    ensures AddLiquidity(LivePool(), 1, 100, 200).value == Terms(100, 100, 100)
    ensures RemoveLiquidity(LivePool(), 1, 10).Done? && RemoveLiquidity(LivePool(), 1, 10).value == (10, 10)
  {
  }

  // --- There and back ---

  /** Buying sXLM and selling it again at once. The sXLM reserve is back where it was, so what
      the trader gains on the XLM that stays in the pool, times that reserve, is exactly what the
      two roundings give away less what the fees that stay put back. The trader gains nothing
      exactly when the product has not fallen, and nothing on all it paid exactly when the
      protocol's cut makes up for the difference too. `ThereAndBackCanPay` has a pool on which both
      swaps complete. */
  lemma ThereAndBack(w: World, user: Address, x: int, minOut: int, minBack: int)
    requires SwapXlm(w, user, x, minOut).Done?
    requires SwapSxlm(SwapXlm(w, user, x, minOut).state, user, SwapXlm(w, user, x, minOut).value, minBack).Done?
    ensures 0 < w.pool.feeBps
    ensures var there := SwapXlm(w, user, x, minOut);
      var back := SwapSxlm(there.state, user, there.value, minBack);
      var p, p1, p2, cut := w.pool, there.state.pool, back.state.pool, ProtocolCut(w.pool, x);
      var k0, k1, k2 := p.reserveXlm * p.reserveSxlm, p1.reserveXlm * p1.reserveSxlm, p2.reserveXlm * p2.reserveSxlm;
      var d1, d2 := p.reserveXlm + AfterFee(x, p.feeBps), p1.reserveSxlm + AfterFee(there.value, p.feeBps);
      && 0 < d1 && 0 < d2 && p2.reserveSxlm == p.reserveSxlm
      && var kept1, kept2 := x - AfterFee(x, p.feeBps) - cut, there.value - AfterFee(there.value, p.feeBps);
        var given, putBack := k0 % d1 + k1 % d2, kept1 * (k0 / d1) + kept2 * (k1 / d2);
        && (back.value - (x - cut)) * p.reserveSxlm == given - putBack
        && (back.value <= x - cut <==> given <= putBack) && (back.value <= x - cut <==> k0 <= k2)
        && (back.value <= x <==> given <= putBack + cut * p.reserveSxlm)
  {
    var there := SwapXlm(w, user, x, minOut);
    var back := SwapSxlm(there.state, user, there.value, minBack);
    BuySxlmExact(w, user, x, minOut);
    BuyXlmExact(there.state, user, there.value, minBack);
    var p, p1, p2, cut := w.pool, there.state.pool, back.state.pool, ProtocolCut(w.pool, x);
    GainTimesReserve(p.reserveXlm, p.reserveSxlm, p2.reserveXlm, x - cut, back.value, cut);
    assert p1.reserveSxlm * p1.reserveXlm == p1.reserveXlm * p1.reserveSxlm;
    assert p2.reserveSxlm * p2.reserveXlm == p2.reserveXlm * p2.reserveSxlm;
  }

  lemma GainTimesReserve(before: int, other: int, after: int, paid: int, back: int, cut: int)
    requires 0 < other && after == before + paid - back
    ensures (back - paid) * other == before * other - after * other
    ensures back <= paid <==> (back - paid) * other <= 0
    ensures back <= paid + cut <==> (back - paid) * other <= cut * other
  {
    if back <= paid { MulLe(back - paid, 0, other); } else { MulLt(0, back - paid, other); }
    if back <= paid + cut { MulLe(back - paid, cut, other); } else { MulLt(cut, back - paid, other); }
  }

  /** A pool of 50 XLM and 5 sXLM at the default rates, as left by a first deposit. */
  function TinyPool(): Tracked {
    var p := Fresh(9, 30).(reserveXlm := 50, reserveSxlm := 5, totalLp := 15, lpBalances := map[2 := 15]);
    Tracked(World(0, Ledger(7, map[0 := 50, 1 := 77], map[], 127), Ledger(8, map[0 := 5], map[], 5), p), 0, 0)
  }

  lemma TinyPoolBooks()
    ensures Inv(TinyPool())
  {
    SumUpdate(map[], 2 as Address, 15);
    assert map[][2 as Address := 15] == TinyPool().world.pool.lpBalances;
  }

  lemma TinySwaps()
    ensures AfterFee(77, 30) == 76 && SwapOut(50, 5, 76) == 4 && ProtocolCut(TinyPool().world.pool, 77) == 0
    ensures AfterFee(4, 30) == 3 && SwapOut(1, 127, 3) == 96
  {
  }

  lemma TinyThere(w: World)
    requires w == TinyPool().world
    requires AfterFee(77, 30) == 76 && SwapOut(50, 5, 76) == 4 && ProtocolCut(w.pool, 77) == 0
    ensures var o := SwapXlm(w, 1, 77, 0);
      && o.Done? && o.value == 4 && o.state.self == 0
      && o.state.pool == w.pool.(reserveXlm := 127, reserveSxlm := 1)
      && Balance(o.state.native, 0) == 127 && Balance(o.state.sxlm, 1) == 4
  {
  }

  lemma TinyBack(w: World)
    requires w.self == 0 && w.pool == TinyPool().world.pool.(reserveXlm := 127, reserveSxlm := 1)
    requires Balance(w.native, 0) == 127 && Balance(w.sxlm, 1) == 4
    requires AfterFee(4, 30) == 3 && SwapOut(1, 127, 3) == 96
    ensures SwapSxlm(w, 1, 4, 0).Done? && SwapSxlm(w, 1, 4, 0).value == 96
  {
  }

  /** It can pay: 77 XLM buys 4 sXLM there, and selling them pays 96 XLM. */
  lemma ThereAndBackCanPay()
    ensures Inv(TinyPool())
    ensures var there := SwapXlm(TinyPool().world, 1, 77, 0);
      && there.Done? && there.value == 4
      && SwapSxlm(there.state, 1, 4, 0).Done? && SwapSxlm(there.state, 1, 4, 0).value == 96
  {
    TinyPoolBooks();
    TinySwaps();
    TinyThere(TinyPool().world);
    TinyBack(SwapXlm(TinyPool().world, 1, 77, 0).state);
  }

  // --- Providing and redeeming ---

  function Total(parts: seq<int>): int {
    if parts == [] then 0 else parts[0] + Total(parts[1..])
  }

  /** What redeeming `parts` one after another pays, and whether every part goes through. */
  function Redeemed(w: World, user: Address, parts: seq<int>): Option<(int, int)>
    decreases parts
  {
    if parts == [] then Some((0, 0)) else
      var o := RemoveLiquidity(w, user, parts[0]);
      if o.Aborted? then None else
        match Redeemed(o.state, user, parts[1..])
        case None => None
        case Some(rest) => Some((o.value.0 + rest.0, o.value.1 + rest.1))
  }

  /** What a redemption of `lp` tokens would pay by the books. */
  function Due(p: Pool, lp: int): (int, int)
    requires p.totalLp != 0
  {
    (Share(lp, p.reserveXlm, p.totalLp), Share(lp, p.reserveSxlm, p.totalLp))
  }

  /** A redemption goes through exactly when the user has the LP tokens and both shares are positive. */
  lemma RedemptionGoesThrough(t: Tracked, user: Address, lp: int)
    requires Inv(t)
    ensures RemoveLiquidity(t.world, user, lp).Done? <==>
      (user != t.world.self && 0 < lp <= Get(t.world.pool.lpBalances, user) && t.world.pool.totalLp != 0
       && 0 < Due(t.world.pool, lp).0 && 0 < Due(t.world.pool, lp).1)
  {
    var p := t.world.pool;
    EntryAtMostSum(p.lpBalances, user);
    if 0 < lp <= Get(p.lpBalances, user) {
      ShareBounds(lp, p.reserveXlm, p.totalLp);
      ShareBounds(lp, p.reserveSxlm, p.totalLp);
    }
  }

  /** Every redemption leaves the reserve behind each remaining LP token no lower, on both sides. */
  lemma RedemptionKeepsValue(t: Tracked, user: Address, lp: int)
    requires Inv(t) && RemoveLiquidity(t.world, user, lp).Done?
    ensures var p, p' := t.world.pool, RemoveLiquidity(t.world, user, lp).state.pool;
      && p.reserveXlm * p'.totalLp <= p'.reserveXlm * p.totalLp
      && p.reserveSxlm * p'.totalLp <= p'.reserveSxlm * p.totalLp
  {
    var p := t.world.pool;
    EntryAtMostSum(p.lpBalances, user);
    ShareBounds(lp, p.reserveXlm, p.totalLp);
    ShareBounds(lp, p.reserveSxlm, p.totalLp);
  }

  lemma DueSplits(t: Tracked, user: Address, a: int, b: int)
    requires Inv(t) && RemoveLiquidity(t.world, user, a).Done?
    requires 0 < b && a + b <= t.world.pool.totalLp
    ensures var p, o := t.world.pool, RemoveLiquidity(t.world, user, a);
      && o.state.pool.totalLp == p.totalLp - a
      && o.value.0 + Due(o.state.pool, b).0 <= Due(p, a + b).0
      && o.value.1 + Due(o.state.pool, b).1 <= Due(p, a + b).1
  {
    var p := t.world.pool;
    SplitPaysLess(a, b, p.reserveXlm, p.totalLp);
    SplitPaysLess(a, b, p.reserveSxlm, p.totalLp);
  }

  lemma {:induction false} PartsWithinBalance(t: Tracked, user: Address, parts: seq<int>)
    requires Inv(t) && Redeemed(t.world, user, parts).Some? && parts != []
    ensures 0 < Total(parts) <= Get(t.world.pool.lpBalances, user) <= t.world.pool.totalLp
    ensures 0 < Redeemed(t.world, user, parts).value.0 <= Due(t.world.pool, Total(parts)).0
    ensures 0 < Redeemed(t.world, user, parts).value.1 <= Due(t.world.pool, Total(parts)).1
    decreases parts
  {
    var p, o := t.world.pool, RemoveLiquidity(t.world, user, parts[0]);
    EntryAtMostSum(p.lpBalances, user);
    RemoveKeeps(t, user, parts[0]);
    if parts[1..] != [] {
      var t' := Step(t, Remove(user, parts[0]));
      PartsWithinBalance(t', user, parts[1..]);
      DueSplits(t, user, parts[0], Total(parts[1..]));
    }
  }

  /** Splitting a redemption never pays: if a user can redeem some parts one after another,
      then redeeming their total at once goes through and pays at least as much on each side. */
  lemma SplittingNeverPays(t: Tracked, user: Address, parts: seq<int>)
    requires Inv(t) && parts != [] && Redeemed(t.world, user, parts).Some?
    ensures var once, split := RemoveLiquidity(t.world, user, Total(parts)), Redeemed(t.world, user, parts).value;
      once.Done? && split.0 <= once.value.0 && split.1 <= once.value.1
  {
    PartsWithinBalance(t, user, parts);
    RedemptionGoesThrough(t, user, Total(parts));
  }

  /** Adding liquidity takes at most what was offered. Redeeming the minted tokens at once is
      due exactly what was taken on the computed side and at most that on the limiting side;
      after a first deposit, which mints the square root of the product, both sides are exact.
      On the limiting side the reserve behind each LP token does not fall, though it would with
      one token more; on the other it falls short by less than one unit of reserve. */
  lemma AddThenRemove(t: Tracked, user: Address, x: int, s: int)
    requires Inv(t) && AddLiquidity(t.world, user, x, s).Done?
    ensures var p, o := t.world.pool, AddLiquidity(t.world, user, x, s);
      var p', q, due := o.state.pool, o.value, Due(o.state.pool, o.value.lp);
      && q.xlm <= x && q.sxlm <= s
      && (p.totalLp == 0 ==>
            q.xlm == x && q.sxlm == s && due == (x, s) && q.lp * q.lp <= x * s < (q.lp + 1) * (q.lp + 1))
      && (p.totalLp != 0 && Div(x * p.totalLp, p.reserveXlm) < Div(s * p.totalLp, p.reserveSxlm) ==>
            q.xlm == x && due.1 == q.sxlm && 0 <= due.0 <= x
            && JustKeepsValue(p.reserveXlm, p.totalLp, p'.reserveXlm, p'.totalLp)
            && AlmostKeepsValue(p.reserveSxlm, p.totalLp, p'.reserveSxlm, p'.totalLp))
      && (p.totalLp != 0 && Div(x * p.totalLp, p.reserveXlm) >= Div(s * p.totalLp, p.reserveSxlm) ==>
            q.sxlm == s && due.0 == q.xlm && 0 <= due.1 <= s
            && JustKeepsValue(p.reserveSxlm, p.totalLp, p'.reserveSxlm, p'.totalLp)
            && AlmostKeepsValue(p.reserveXlm, p.totalLp, p'.reserveXlm, p'.totalLp))
      && (RemoveLiquidity(o.state, user, q.lp).Done? <==> 0 < due.0 && 0 < due.1)
      && (RemoveLiquidity(o.state, user, q.lp).Done? ==> RemoveLiquidity(o.state, user, q.lp).value == due)
  {
    var p, o := t.world.pool, AddLiquidity(t.world, user, x, s);
    var q := o.value;
    SumNonNegative(p.lpBalances.Keys, p.lpBalances);
    AddKeeps(t, user, x, s);
    RedemptionGoesThrough(Step(t, Add(user, x, s)), user, q.lp);
    if p.totalLp == 0 {
      ShareBounds(q.lp, x, q.lp);
      ShareBounds(q.lp, s, q.lp);
    } else if Div(x * p.totalLp, p.reserveXlm) < Div(s * p.totalLp, p.reserveSxlm) {
      LimitingSide(x, q.lp, p.reserveXlm, p.totalLp);
      ComputedSide(q.lp, p.reserveSxlm, p.totalLp);
      ComputedWithinOffer(s, q.lp, p.reserveSxlm, p.totalLp);
    } else {
      LimitingSide(s, q.lp, p.reserveSxlm, p.totalLp);
      ComputedSide(q.lp, p.reserveXlm, p.totalLp);
      ComputedWithinOffer(x, q.lp, p.reserveXlm, p.totalLp);
    }
  }
}
