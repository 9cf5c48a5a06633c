/** What each call of the pool does, said without the functions that model it: when it completes,
    what it answers and everything it changes. */
module PoolCalls {
  import opened Prelude
  import opened Sums
  import opened Tokens
  import opened Pools
  import opened PoolArithmetic
  import opened PoolRuns
  import opened Arith

  // --- Providing ---

  /** One side limits the deposit: all that was offered of it is taken, for the LP tokens it
      supports. What was offered of the other side supports as many, and is charged its share. */
  ghost predicate Limits(offered: int, reserve: int, other: int, otherReserve: int, totalLp: int,
                         taken: int, otherTaken: int, lp: int)
  {
    && IsFloor(lp, offered * totalLp, reserve) && lp * otherReserve <= other * totalLp
    && taken == offered && IsFloor(otherTaken, lp * otherReserve, totalLp)
  }

  /** What a deposit of `x` and `s` should be charged and credited. A first deposit is taken as it
      is, for the root of the product; later, the side that supports fewer LP tokens decides, and
      sXLM if both support the same. */
  ghost predicate Priced(p: Pool, x: int, s: int, q: Terms) {
    if p.totalLp == 0 then
      q.xlm == x && q.sxlm == s && 0 <= q.lp && q.lp * q.lp <= x * s < (q.lp + 1) * (q.lp + 1)
    else
      || (Limits(x, p.reserveXlm, s, p.reserveSxlm, p.totalLp, q.xlm, q.sxlm, q.lp)
          && (q.lp + 1) * p.reserveSxlm <= s * p.totalLp)
      || Limits(s, p.reserveSxlm, x, p.reserveXlm, p.totalLp, q.sxlm, q.xlm, q.lp)
  }

  lemma RootUnique(n: int, r: int, r': int)
    requires 0 <= r && 0 <= r' && r * r <= n < (r + 1) * (r + 1) && r' * r' <= n < (r' + 1) * (r' + 1)
    ensures r == r'
  {
    if r < r' { SquareMonotone(r + 1, r'); }
    if r' < r { SquareMonotone(r' + 1, r); }
  }

  lemma LimitsUnique(offered: int, reserve: int, other: int, otherReserve: int, totalLp: int, q: Terms, q': Terms)
    requires Limits(offered, reserve, other, otherReserve, totalLp, q.xlm, q.sxlm, q.lp)
    requires Limits(offered, reserve, other, otherReserve, totalLp, q'.xlm, q'.sxlm, q'.lp)
    ensures q == q'
  {
    FloorUnique(q.lp, q'.lp, offered * totalLp, reserve);
    FloorUnique(q.sxlm, q'.sxlm, q.lp * otherReserve, totalLp);
  }

  /** If the XLM supports fewer LP tokens than the sXLM, the sXLM does not limit. */
  lemma OneSideLimits(p: Pool, x: int, s: int, q: Terms, q': Terms)
    requires Limits(x, p.reserveXlm, s, p.reserveSxlm, p.totalLp, q.xlm, q.sxlm, q.lp)
    requires Limits(s, p.reserveSxlm, x, p.reserveXlm, p.totalLp, q'.sxlm, q'.xlm, q'.lp)
    ensures !((q.lp + 1) * p.reserveSxlm <= s * p.totalLp)
  {
    FloorReaches(q'.lp, s * p.totalLp, p.reserveSxlm, q.lp + 1);
    FloorReaches(q.lp, x * p.totalLp, p.reserveXlm, q'.lp);
  }

  /** There is at most one such price; `QuoteIsPriced` gives one. */
  lemma PricedUnique(p: Pool, x: int, s: int, q: Terms, q': Terms)
    requires Priced(p, x, s, q) && Priced(p, x, s, q')
    ensures q == q'
  {
    if p.totalLp == 0 {
      RootUnique(x * s, q.lp, q'.lp);
    } else {
      var byXlm := Limits(x, p.reserveXlm, s, p.reserveSxlm, p.totalLp, q.xlm, q.sxlm, q.lp)
                   && (q.lp + 1) * p.reserveSxlm <= s * p.totalLp;
      var byXlm' := Limits(x, p.reserveXlm, s, p.reserveSxlm, p.totalLp, q'.xlm, q'.sxlm, q'.lp)
                    && (q'.lp + 1) * p.reserveSxlm <= s * p.totalLp;
      if byXlm && byXlm' {
        LimitsUnique(x, p.reserveXlm, s, p.reserveSxlm, p.totalLp, q, q');
      } else if byXlm {
        OneSideLimits(p, x, s, q, q');
      } else if byXlm' {
        OneSideLimits(p, x, s, q', q);
      } else {
        LimitsUnique(s, p.reserveSxlm, x, p.reserveXlm, p.totalLp,
                     Terms(q.sxlm, q.xlm, q.lp), Terms(q'.sxlm, q'.xlm, q'.lp));
      }
    }
  }

  /** The quote is the one price there is. */
  lemma QuoteIsPriced(t: Tracked, x: int, s: int)
    requires Inv(t) && 0 < x && 0 < s
    ensures Priced(t.world.pool, x, s, Quote(t.world.pool, x, s))
  {
    var p, q := t.world.pool, Quote(t.world.pool, x, s);
    if p.totalLp == 0 {
      MulPositive(x, s);
    } else {
      MulPositive(x, p.totalLp);
      MulPositive(s, p.totalLp);
      DivIsFloor(x * p.totalLp, p.reserveXlm);
      DivIsFloor(s * p.totalLp, p.reserveSxlm);
      var byXlm, bySxlm := Div(x * p.totalLp, p.reserveXlm), Div(s * p.totalLp, p.reserveSxlm);
      if byXlm < bySxlm {
        FloorReaches(bySxlm, s * p.totalLp, p.reserveSxlm, byXlm + 1);
        FloorReaches(bySxlm, s * p.totalLp, p.reserveSxlm, byXlm);
        MulNonNegative(byXlm, p.reserveSxlm);
        DivIsFloor(byXlm * p.reserveSxlm, p.totalLp);
      } else {
        FloorReaches(byXlm, x * p.totalLp, p.reserveXlm, bySxlm);
        MulNonNegative(bySxlm, p.reserveXlm);
        DivIsFloor(bySxlm * p.reserveXlm, p.totalLp);
      }
    }
  }

  /** A deposit completes exactly when its price is positive on all counts and the user has what
      it is charged. It is charged and credited that price. */
  lemma AddExactly(t: Tracked, user: Address, x: int, s: int, q: Terms)
    requires Inv(t) && (0 < x && 0 < s ==> Priced(t.world.pool, x, s, q))
    ensures var w := t.world;
      AddLiquidity(w, user, x, s).Done? <==>
        (user != w.self && 0 < x && 0 < s && 0 < q.lp
         && 0 < q.xlm <= Balance(w.native, user) && 0 < q.sxlm <= Balance(w.sxlm, user))
    ensures var w, p, o := t.world, t.world.pool, AddLiquidity(t.world, user, x, s); o.Done? ==>
      && o.value == q
      && Moved(w.native, o.state.native, user, w.self, q.xlm) && Moved(w.sxlm, o.state.sxlm, user, w.self, q.sxlm)
      && o.state == World(w.self, o.state.native, o.state.sxlm,
                          p.(reserveXlm := p.reserveXlm + q.xlm, reserveSxlm := p.reserveSxlm + q.sxlm,
                             totalLp := p.totalLp + q.lp,
                             lpBalances := p.lpBalances[user := Get(p.lpBalances, user) + q.lp]))
  {
    var w := t.world;
    if 0 < x && 0 < s {
      QuoteIsPriced(t, x, s);
      PricedUnique(w.pool, x, s, q, Quote(w.pool, x, s));
      TransferExactly(w.native, user, w.self, q.xlm);
      TransferExactly(w.sxlm, user, w.self, q.sxlm);
    }
  }

  /** Anybody who has two positive amounts can open an empty pool with them. */
  lemma FirstDepositCompletes(t: Tracked, user: Address, x: int, s: int)
    requires Inv(t) && t.world.pool.totalLp == 0
    ensures var w, o := t.world, AddLiquidity(t.world, user, x, s);
      && (o.Done? <==> user != w.self && 0 < x <= Balance(w.native, user) && 0 < s <= Balance(w.sxlm, user))
      && (o.Done? ==> o.state.pool.reserveXlm == x && o.state.pool.reserveSxlm == s)
  {
    if 0 < x && 0 < s {
      MulPositive(x, s);
      AddExactly(t, user, x, s, Terms(x, s, Sqrt(x * s)));
    }
  }

  // --- Redeeming ---

  /** A redemption completes exactly when the user has the LP tokens and each side owes it at
      least one unit. It pays the share of each reserve, rounded down. */
  lemma RemoveExactly(t: Tracked, user: Address, lp: int)
    requires Inv(t)
    ensures var w, p := t.world, t.world.pool;
      RemoveLiquidity(w, user, lp).Done? <==>
        (user != w.self && 0 < lp <= Get(p.lpBalances, user)
         && p.totalLp <= lp * p.reserveXlm && p.totalLp <= lp * p.reserveSxlm)
    ensures var w, p, o := t.world, t.world.pool, RemoveLiquidity(t.world, user, lp); o.Done? ==>
      var xlm, sxlm := o.value.0, o.value.1;
      && IsFloor(xlm, lp * p.reserveXlm, p.totalLp) && IsFloor(sxlm, lp * p.reserveSxlm, p.totalLp)
      && Moved(w.native, o.state.native, w.self, user, xlm) && Moved(w.sxlm, o.state.sxlm, w.self, user, sxlm)
      && o.state == World(w.self, o.state.native, o.state.sxlm,
                          p.(reserveXlm := p.reserveXlm - xlm, reserveSxlm := p.reserveSxlm - sxlm,
                             totalLp := p.totalLp - lp,
                             lpBalances := p.lpBalances[user := Get(p.lpBalances, user) - lp]))
  {
    var w, p := t.world, t.world.pool;
    EntryAtMostSum(p.lpBalances, user);
    RedemptionGoesThrough(t, user, lp);
    if 0 < lp <= Get(p.lpBalances, user) {
      MulNonNegative(lp, p.reserveXlm);
      MulNonNegative(lp, p.reserveSxlm);
      DivPositive(lp * p.reserveXlm, p.totalLp);
      DivPositive(lp * p.reserveSxlm, p.totalLp);
      DivIsFloor(lp * p.reserveXlm, p.totalLp);
      DivIsFloor(lp * p.reserveSxlm, p.totalLp);
      TransferExactly(w.native, w.self, user, Share(lp, p.reserveXlm, p.totalLp));
      TransferExactly(w.sxlm, w.self, user, Share(lp, p.reserveSxlm, p.totalLp));
    }
  }

  // --- Swapping ---

  /** An output that passes the checks of a swap: something comes in, something stays, and the
      caller's minimum is met. `d` is the reserve after the input. */
  lemma OutputAccepted(rIn: int, rOut: int, afterFee: int, minOut: int)
    requires 0 < rIn && 0 < rOut && 0 < afterFee
    ensures var out, d := SwapOut(rIn, rOut, afterFee), rIn + afterFee;
      && 0 < out
      && (out < rOut <==> d <= rIn * rOut)
      && (minOut <= out <==> (minOut - 1) * d < rOut * afterFee)
  {
    var k, d, out := rIn * rOut, rIn + afterFee, SwapOut(rIn, rOut, afterFee);
    MulPositive(rIn, rOut);
    MulPositive(rOut, afterFee);
    SwapOutIsCeiling(rIn, rOut, afterFee);
    DivPositive(k, d);
    CancelLt(0, out, d);
    if minOut <= out {
      MulLe(minOut - 1, out - 1, d);
    } else {
      MulLe(out, minOut - 1, d);
    }
  }

  /** The fee rate leaves `a` of the input. */
  lemma FeeLeaves(x: int, feeBps: nat, a: int)
    requires 0 < x && IsFloor(a, x * (BPS - feeBps), BPS)
    ensures feeBps <= BPS ==> AfterFee(x, feeBps) == a
    ensures BPS <= feeBps ==> a <= 0 && AfterFee(x, feeBps) <= 0
  {
    NothingAfterFullFee(x, feeBps);
    if feeBps <= BPS {
      MulNonNegative(x, BPS - feeBps);
      DivIsFloor(x * (BPS - feeBps), BPS);
      FloorUnique(a, AfterFee(x, feeBps), x * (BPS - feeBps), BPS);
    } else {
      MulPositive(x, feeBps - BPS);
      assert x * (BPS - feeBps) == -(x * (feeBps - BPS));
    }
  }

  /** A purchase of sXLM completes exactly when there are reserves, the fee rate is positive and
      leaves something, the XLM reserve with it does not exceed the product (so that some sXLM
      stays), the minimum is met and the user has the XLM. The output is rounded up, the cut of
      the fee down. */
  lemma BuySxlmExactly(t: Tracked, user: Address, x: int, minOut: int, a: int)
    requires Inv(t) && IsFloor(a, x * (BPS - t.world.pool.feeBps), BPS)
    ensures var w, p := t.world, t.world.pool;
      SwapXlm(w, user, x, minOut).Done? <==>
        (user != w.self && 0 < x <= Balance(w.native, user) && 0 < p.reserveXlm && 0 < p.reserveSxlm
         && 0 < p.feeBps < BPS && 0 < a && p.reserveXlm + a <= p.reserveXlm * p.reserveSxlm
         && (minOut - 1) * (p.reserveXlm + a) < p.reserveSxlm * a)
    ensures var w, p, o := t.world, t.world.pool, SwapXlm(t.world, user, x, minOut); o.Done? ==>
      var out, cut := o.value, o.state.pool.accruedFees - p.accruedFees;
      && (out - 1) * (p.reserveXlm + a) < p.reserveSxlm * a <= out * (p.reserveXlm + a)
      && IsFloor(cut, (x - a) * p.protocolFeeBps, p.feeBps)
      && Moved(w.native, o.state.native, user, w.self, x) && Moved(w.sxlm, o.state.sxlm, w.self, user, out)
      && o.state == World(w.self, o.state.native, o.state.sxlm,
                          p.(reserveXlm := p.reserveXlm + x - cut, reserveSxlm := p.reserveSxlm - out,
                             accruedFees := p.accruedFees + cut))
  {
    var w, p := t.world, t.world.pool;
    if 0 < x && 0 < p.reserveXlm && 0 < p.reserveSxlm {
      FeeLeaves(x, p.feeBps, a);
      if p.feeBps < BPS && 0 < a {
        OutputAccepted(p.reserveXlm, p.reserveSxlm, a, minOut);
        TransferExactly(w.native, user, w.self, x);
        TransferExactly(w.sxlm, w.self, user, SwapOut(p.reserveXlm, p.reserveSxlm, a));
        BuySxlmAnswers(w, user, x, minOut);
      } else if p.reserveXlm + AfterFee(x, p.feeBps) != 0 {
        NoInputNoOutput(p.reserveXlm, p.reserveSxlm, AfterFee(x, p.feeBps));
      }
    }
  }

  lemma BuySxlmAnswers(w: World, user: Address, x: int, minOut: int)
    ensures SwapXlm(w, user, x, minOut).Done? ==>
      var p, o, a := w.pool, SwapXlm(w, user, x, minOut), AfterFee(x, w.pool.feeBps);
      var out, cut := o.value, o.state.pool.accruedFees - p.accruedFees;
      && (out - 1) * (p.reserveXlm + a) < p.reserveSxlm * a <= out * (p.reserveXlm + a)
      && p.feeBps != 0 && IsFloor(cut, (x - a) * p.protocolFeeBps, p.feeBps)
      && o.state == World(w.self, o.state.native, o.state.sxlm,
                          p.(reserveXlm := p.reserveXlm + x - cut, reserveSxlm := p.reserveSxlm - out,
                             accruedFees := p.accruedFees + cut))
  {
    if SwapXlm(w, user, x, minOut).Done? { BuySxlmExact(w, user, x, minOut); }
  }

  /** A purchase of XLM completes under the same conditions with the sides exchanged, and with a
      fee rate of zero too. The whole fee stays in the reserve. */
  lemma BuyXlmExactly(t: Tracked, user: Address, x: int, minOut: int, a: int)
    requires Inv(t) && IsFloor(a, x * (BPS - t.world.pool.feeBps), BPS)
    ensures var w, p := t.world, t.world.pool;
      SwapSxlm(w, user, x, minOut).Done? <==>
        (user != w.self && 0 < x <= Balance(w.sxlm, user) && 0 < p.reserveXlm && 0 < p.reserveSxlm
         && p.feeBps < BPS && 0 < a && p.reserveSxlm + a <= p.reserveSxlm * p.reserveXlm
         && (minOut - 1) * (p.reserveSxlm + a) < p.reserveXlm * a)
    ensures var w, p, o := t.world, t.world.pool, SwapSxlm(t.world, user, x, minOut); o.Done? ==>
      var out := o.value;
      && (out - 1) * (p.reserveSxlm + a) < p.reserveXlm * a <= out * (p.reserveSxlm + a)
      && Moved(w.sxlm, o.state.sxlm, user, w.self, x) && Moved(w.native, o.state.native, w.self, user, out)
      && o.state == World(w.self, o.state.native, o.state.sxlm,
                          p.(reserveSxlm := p.reserveSxlm + x, reserveXlm := p.reserveXlm - out))
  {
    var w, p := t.world, t.world.pool;
    if 0 < x && 0 < p.reserveXlm && 0 < p.reserveSxlm {
      FeeLeaves(x, p.feeBps, a);
      if p.feeBps < BPS && 0 < a {
        OutputAccepted(p.reserveSxlm, p.reserveXlm, a, minOut);
        TransferExactly(w.sxlm, user, w.self, x);
        TransferExactly(w.native, w.self, user, SwapOut(p.reserveSxlm, p.reserveXlm, a));
        SwapOutIsCeiling(p.reserveSxlm, p.reserveXlm, a);
      } else if p.reserveSxlm + AfterFee(x, p.feeBps) != 0 {
        NoInputNoOutput(p.reserveSxlm, p.reserveXlm, AfterFee(x, p.feeBps));
      }
    }
  }

  // --- Fees ---

  /** At a fee rate of 30 and the rate it starts with, the protocol takes a sixth of the fee. */
  lemma DefaultCut(admin: Address, x: int)
    requires 0 < x
    ensures IsFloor(ProtocolCut(Fresh(admin, 30), x), x - AfterFee(x, 30), 6)
  {
    NothingAfterFullFee(x, 30);
    DivIsFloor((x - AfterFee(x, 30)) * 5, 30);
  }

  /** Collecting pays the admin all accrued fees and leaves none; it never fails by the books. */
  lemma CollectExactly(t: Tracked)
    requires Inv(t)
    ensures CollectFees(t.world).Done? <==> t.world.pool.admin != t.world.self
    ensures var w, p, o := t.world, t.world.pool, CollectFees(t.world); o.Done? ==>
      && o.value == p.accruedFees
      && (forall a :: Balance(o.state.native, a) == Balance(w.native, a)
            + (if a == p.admin then p.accruedFees else 0) - (if a == w.self then p.accruedFees else 0))
      && o.state == w.(native := w.native.(balances := o.state.native.balances), pool := p.(accruedFees := 0))
  {
    TransferExactly(t.world.native, t.world.self, t.world.pool.admin, t.world.pool.accruedFees);
  }

  /** The protocol's rate is the admin's to set, to anything. */
  lemma SetFeeExactly(w: World, bps: nat)
    ensures SetProtocolFee(w, bps).Done? <==> w.pool.admin != w.self
    ensures SetProtocolFee(w, bps).Done? ==> SetProtocolFee(w, bps).state == w.(pool := w.pool.(protocolFeeBps := bps))
  {
  }
}
