/** The XLM/sXLM pool as a function on values: what each call of the contract does. */
module Pools {
  import opened Prelude
  import opened Sums
  import opened Tokens

  datatype Pool = Pool(
    admin: Address,
    feeBps: nat,
    protocolFeeBps: nat,
    reserveXlm: int,
    reserveSxlm: int,
    totalLp: int,
    lpBalances: map<Address, int>,
    accruedFees: int)

  /** Everything a call of the pool reads and writes: the two tokens and the pool's own
      storage. `self` is the pool's address. */
  datatype World = World(self: Address, native: Ledger, sxlm: Ledger, pool: Pool)

  /** The state `initialize` leaves. */
  function Fresh(admin: Address, feeBps: nat): Pool {
    Pool(admin, feeBps, 5, 0, 0, 0, map[], 0)
  }

  /** The floor of the square root, by definition: the reference for the Newton loop. */
  function Sqrt(n: nat): (r: nat)
    ensures r * r <= n < (r + 1) * (r + 1)
  {
    if n == 0 then 0 else
      var r := Sqrt(n - 1);
      if (r + 1) * (r + 1) <= n then
        assert (r + 2) * (r + 2) == (r + 1) * (r + 1) + 2 * r + 3;
        r + 1
      else r
  }

  /** What a provider is charged on each side and the LP tokens minted for it. */
  datatype Terms = Terms(xlm: int, sxlm: int, lp: int)

  function Quote(p: Pool, xlmAmount: int, sxlmAmount: int): Terms
    requires p.totalLp != 0 ==> p.reserveXlm != 0 && p.reserveSxlm != 0
  {
    if p.totalLp == 0 then
      Terms(xlmAmount, sxlmAmount, if xlmAmount * sxlmAmount <= 0 then 0 else Sqrt(xlmAmount * sxlmAmount))
    else
      var lpFromXlm := Div(xlmAmount * p.totalLp, p.reserveXlm);
      var lpFromSxlm := Div(sxlmAmount * p.totalLp, p.reserveSxlm);
      if lpFromXlm < lpFromSxlm then
        Terms(xlmAmount, Div(lpFromXlm * p.reserveSxlm, p.totalLp), lpFromXlm)
      else
        Terms(Div(lpFromSxlm * p.reserveXlm, p.totalLp), sxlmAmount, lpFromSxlm)
  }

  /** The second half of `add_liquidity`: collects what the terms charge and mints the LP tokens. */
  function Credit(w: World, user: Address, t: Terms): Outcome<World, Terms> {
    var p := w.pool;
    var native :- Transfer(w.native, user, w.self, t.xlm);
    var sxlm :- Transfer(w.sxlm, user, w.self, t.sxlm);
    var pool := p.(reserveXlm := p.reserveXlm + t.xlm,
                   reserveSxlm := p.reserveSxlm + t.sxlm,
                   totalLp := p.totalLp + t.lp,
                   lpBalances := p.lpBalances[user := Get(p.lpBalances, user) + t.lp]);
    Done(World(w.self, native, sxlm, pool), t)
  }

  function AddLiquidity(w: World, user: Address, xlmAmount: int, sxlmAmount: int): Outcome<World, Terms> {
    var p := w.pool;
    if user == w.self then Aborted(NotAuthorised)
    else if xlmAmount <= 0 || sxlmAmount <= 0 then Aborted(NonPositiveAmount)
    else if p.totalLp != 0 && (p.reserveXlm == 0 || p.reserveSxlm == 0) then Aborted(DivisionByZero)
    else
      var t := Quote(p, xlmAmount, sxlmAmount);
      if t.lp <= 0 then Aborted(ZeroMint)
      else if t.xlm <= 0 || t.sxlm <= 0 then Aborted(ZeroDeposit)
      else
        Credit(w, user, t)
  }

  /** The share of a reserve that `lp` LP tokens redeem. */
  function Share(lp: int, reserve: int, totalLp: int): int
    requires totalLp != 0
  {
    Div(lp * reserve, totalLp)
  }

  function RemoveLiquidity(w: World, user: Address, lpAmount: int): Outcome<World, (int, int)> {
    var p := w.pool;
    if user == w.self then Aborted(NotAuthorised)
    else if lpAmount <= 0 then Aborted(NonPositiveAmount)
    else if Get(p.lpBalances, user) < lpAmount then Aborted(InsufficientBalance)
    else if p.totalLp == 0 then Aborted(DivisionByZero)
    else
      var xlmOut := Share(lpAmount, p.reserveXlm, p.totalLp);
      var sxlmOut := Share(lpAmount, p.reserveSxlm, p.totalLp);
      if xlmOut <= 0 || sxlmOut <= 0 then Aborted(InsufficientLiquidity)
      else
        var native :- Transfer(w.native, w.self, user, xlmOut);
        var sxlm :- Transfer(w.sxlm, w.self, user, sxlmOut);
        var pool := p.(reserveXlm := p.reserveXlm - xlmOut,
                       reserveSxlm := p.reserveSxlm - sxlmOut,
                       totalLp := p.totalLp - lpAmount,
                       lpBalances := p.lpBalances[user := Get(p.lpBalances, user) - lpAmount]);
        Done(World(w.self, native, sxlm, pool), (xlmOut, sxlmOut))
  }

  function AfterFee(amount: int, feeBps: int): int {
    Div(amount * (BPS - feeBps), BPS)
  }

  /** The output of a swap that brings `afterFee` to the reserve `rIn`. */
  function SwapOut(rIn: int, rOut: int, afterFee: int): int
    requires rIn + afterFee != 0
  {
    rOut - Div(rIn * rOut, rIn + afterFee)
  }

  function ProtocolCut(p: Pool, amount: int): int
    requires p.feeBps != 0
  {
    Div((amount - AfterFee(amount, p.feeBps)) * p.protocolFeeBps, p.feeBps)
  }

  function SwapXlm(w: World, user: Address, amount: int, minOut: int): Outcome<World, int> {
    var p := w.pool;
    var afterFee := AfterFee(amount, p.feeBps);
    if user == w.self then Aborted(NotAuthorised)
    else if amount <= 0 then Aborted(NonPositiveAmount)
    else if p.reserveXlm <= 0 || p.reserveSxlm <= 0 then Aborted(NoLiquidity)
    else if p.reserveXlm + afterFee == 0 then Aborted(DivisionByZero)
    else
      var out := SwapOut(p.reserveXlm, p.reserveSxlm, afterFee);
      if out <= 0 || out >= p.reserveSxlm then Aborted(InsufficientLiquidity)
      else if out < minOut then Aborted(Slippage)
      else
        var native :- Transfer(w.native, user, w.self, amount);
        var sxlm :- Transfer(w.sxlm, w.self, user, out);
        if p.feeBps == 0 then Aborted(DivisionByZero)
        else
          var cut := ProtocolCut(p, amount);
          var pool := p.(reserveXlm := p.reserveXlm + amount - cut,
                         reserveSxlm := p.reserveSxlm - out,
                         accruedFees := p.accruedFees + cut);
          Done(World(w.self, native, sxlm, pool), out)
  }

  /** The other direction pays no protocol cut: the whole fee stays in the reserve. */
  function SwapSxlm(w: World, user: Address, amount: int, minOut: int): Outcome<World, int> {
    var p := w.pool;
    var afterFee := AfterFee(amount, p.feeBps);
    if user == w.self then Aborted(NotAuthorised)
    else if amount <= 0 then Aborted(NonPositiveAmount)
    else if p.reserveXlm <= 0 || p.reserveSxlm <= 0 then Aborted(NoLiquidity)
    else if p.reserveSxlm + afterFee == 0 then Aborted(DivisionByZero)
    else
      var out := SwapOut(p.reserveSxlm, p.reserveXlm, afterFee);
      if out <= 0 || out >= p.reserveXlm then Aborted(InsufficientLiquidity)
      else if out < minOut then Aborted(Slippage)
      else
        var sxlm :- Transfer(w.sxlm, user, w.self, amount);
        var native :- Transfer(w.native, w.self, user, out);
        var pool := p.(reserveSxlm := p.reserveSxlm + amount, reserveXlm := p.reserveXlm - out);
        Done(World(w.self, native, sxlm, pool), out)
  }

  function CollectFees(w: World): Outcome<World, int> {
    var p := w.pool;
    if p.admin == w.self then Aborted(NotAuthorised)
    else if p.accruedFees <= 0 then Done(w, 0)
    else
      var native :- Transfer(w.native, w.self, p.admin, p.accruedFees);
      Done(w.(native := native, pool := p.(accruedFees := 0)), p.accruedFees)
  }

  function SetProtocolFee(w: World, bps: nat): Outcome<World, ()> {
    if w.pool.admin == w.self then Aborted(NotAuthorised)
    else Done(w.(pool := w.pool.(protocolFeeBps := bps)), ())
  }
}

/** The pool contract, storage entry by storage entry. */
module PoolContracts {
  import opened Prelude
  import opened TokenContracts
  import Arith
  import Pools
  import Sums
  import Tokens

  /** Newton's iteration finds the floor square root. Each iterate stays at or above the
      root because (x + q + 1)^2 >= 4x(q + 1) for q = n / x. */
  method Isqrt(n: int) returns (x: int)
    ensures n <= 0 ==> x == 0
    ensures n > 0 ==> x == Pools.Sqrt(n)
  {
    if n <= 0 { return 0; }
    x := n;
    var y := (x + 1) / 2;
    assert n / n == 1;
    while y < x
      invariant 1 <= x && y == (x + n / x) / 2
      invariant n < (x + 1) * (x + 1)
      decreases x
    {
      NewtonStaysAbove(n, x);
      x := y;
      y := (x + n / x) / 2;
    }
    assert x <= n / x;
    Arith.Floor(n, x);
    Arith.MulLe(x, n / x, x);
    SqrtUnique(n, x);
  }

  lemma NewtonStaysAbove(n: int, x: int)
    requires 1 <= n && 1 <= x
    ensures var y := (x + n / x) / 2;
      n < (y + 1) * (y + 1) && (y < x ==> 1 <= y)
  {
    var q, y := n / x, (x + n / x) / 2;
    Arith.Floor(n, x);
    Arith.FloorAtLeast(0, n, x);
    FourTimesProduct(x, q + 1);
    Arith.SquareMonotone(x + q + 1, 2 * (y + 1));
    assert 4 * n < 4 * ((y + 1) * (y + 1)) by {
      assert (2 * (y + 1)) * (2 * (y + 1)) == 4 * ((y + 1) * (y + 1));
    }
  }

  lemma FourTimesProduct(a: int, b: int)
    ensures 4 * (b * a) <= (a + b) * (a + b)
  {
    assert (a + b) * (a + b) == (a - b) * (a - b) + 4 * (b * a);
  }

  lemma SqrtUnique(n: nat, x: nat)
    requires x * x <= n < (x + 1) * (x + 1)
    ensures x == Pools.Sqrt(n)
  {
    var r := Pools.Sqrt(n);
    if x < r {
      Arith.SquareMonotone(x + 1, r);
    } else if r < x {
      Arith.SquareMonotone(r + 1, x);
    }
  }

  class PoolContract {
    const self: Address
    const native: TokenContract
    const sxlm: TokenContract
    const admin: Address
    const feeBps: nat
    var protocolFeeBps: nat
    var reserveXlm: int
    var reserveSxlm: int
    var totalLp: int
    var lpBalances: map<Address, int>
    var accruedFees: int

    /** The two tokens are two contracts. */
    ghost predicate Valid() {
      native != sxlm
    }

    function View(): Pools.World
      reads this, native, sxlm
    {
      Pools.World(self, native.View(), sxlm.View(),
        Pools.Pool(admin, feeBps, protocolFeeBps, reserveXlm, reserveSxlm, totalLp, lpBalances, accruedFees))
    }

    constructor (self: Address, native: TokenContract, sxlm: TokenContract, admin: Address, feeBps: nat)
      requires native != sxlm
      ensures Valid() && View() == Pools.World(self, native.View(), sxlm.View(), Pools.Fresh(admin, feeBps))
      ensures this.native == native && this.sxlm == sxlm
    {
      this.self, this.native, this.sxlm, this.admin, this.feeBps := self, native, sxlm, admin, feeBps;
      protocolFeeBps := 5;
      reserveXlm, reserveSxlm, totalLp, lpBalances, accruedFees := 0, 0, 0, map[], 0;
    }

    method LpBalance(user: Address) returns (r: int)
      ensures r == Sums.Get(lpBalances, user)
    {
      r := if user in lpBalances then lpBalances[user] else 0;
    }

    /** The pricing part of `add_liquidity`. */
    method Quote(xlmAmount: int, sxlmAmount: int) returns (t: Pools.Terms)
      requires totalLp != 0 ==> reserveXlm != 0 && reserveSxlm != 0
      ensures t == Pools.Quote(View().pool, xlmAmount, sxlmAmount)
    {
      if totalLp == 0 {
        var lp := Isqrt(xlmAmount * sxlmAmount);
        return Pools.Terms(xlmAmount, sxlmAmount, lp);
      }
      var lpFromXlm := Div(xlmAmount * totalLp, reserveXlm);
      var lpFromSxlm := Div(sxlmAmount * totalLp, reserveSxlm);
      if lpFromXlm < lpFromSxlm {
        return Pools.Terms(xlmAmount, Div(lpFromXlm * reserveSxlm, totalLp), lpFromXlm);
      } else {
        return Pools.Terms(Div(lpFromSxlm * reserveXlm, totalLp), sxlmAmount, lpFromSxlm);
      }
    }

    /** Moves an amount of both tokens, the native one first; if the second transfer panics
        the first is rolled back. */
    method MoveBoth(from: Address, to: Address, xlm: int, sxlmAmount: int) returns (r: Answer<()>)
      requires Valid()
      modifies native, sxlm
      ensures var n := Tokens.Transfer(old(native.View()), from, to, xlm);
        var s := Tokens.Transfer(old(sxlm.View()), from, to, sxlmAmount);
        && r == (if n.Done? then s.Answer() else n.Answer())
        && native.View() == (if r.Returned? then n.state else old(native.View()))
        && sxlm.View() == (if r.Returned? then s.state else old(sxlm.View()))
    {
      var nativeBefore := native.View();
      r := native.Transfer(from, to, xlm);
      if r.Returned? {
        r := sxlm.Transfer(from, to, sxlmAmount);
        if r.Panicked? { native.Restore(nativeBefore); }
      }
    }

    /** A swap's two transfers: `paid` comes in, then `received` goes out; if that panics the
        first is rolled back. */
    method Exchange(paid: TokenContract, received: TokenContract, user: Address, amount: int, out: int)
      returns (r: Answer<()>)
      requires paid != received
      modifies paid, received
      ensures var i := Tokens.Transfer(old(paid.View()), user, self, amount);
        var o := Tokens.Transfer(old(received.View()), self, user, out);
        && r == (if i.Done? then o.Answer() else i.Answer())
        && paid.View() == (if r.Returned? then i.state else old(paid.View()))
        && received.View() == (if r.Returned? then o.state else old(received.View()))
    {
      var paidBefore := paid.View();
      r := paid.Transfer(user, self, amount);
      if r.Returned? {
        r := received.Transfer(self, user, out);
        if r.Panicked? { paid.Restore(paidBefore); }
      }
    }

    method AddLiquidity(user: Address, xlmAmount: int, sxlmAmount: int) returns (r: Answer<Pools.Terms>)
      requires Valid()
      modifies this, native, sxlm
      ensures var o := Pools.AddLiquidity(old(View()), user, xlmAmount, sxlmAmount);
        View() == o.After(old(View())) && r == o.Answer()
    {
      if user == self { return Panicked(NotAuthorised); }
      if xlmAmount <= 0 || sxlmAmount <= 0 { return Panicked(NonPositiveAmount); }
      if totalLp != 0 && (reserveXlm == 0 || reserveSxlm == 0) { return Panicked(DivisionByZero); }
      var terms := Quote(xlmAmount, sxlmAmount);
      if terms.lp <= 0 { return Panicked(ZeroMint); }
      if terms.xlm <= 0 || terms.sxlm <= 0 { return Panicked(ZeroDeposit); }
      r := Credit(user, terms);
    }

    method Credit(user: Address, terms: Pools.Terms) returns (r: Answer<Pools.Terms>)
      requires Valid()
      modifies this, native, sxlm
      ensures var o := Pools.Credit(old(View()), user, terms);
        View() == o.After(old(View())) && r == o.Answer()
    {
      var moved := MoveBoth(user, self, terms.xlm, terms.sxlm);
      if moved.Panicked? { return Panicked(moved.why); }
      assert Pools.Credit(old(View()), user, terms).Done?;
      reserveXlm := reserveXlm + terms.xlm;
      reserveSxlm := reserveSxlm + terms.sxlm;
      totalLp := totalLp + terms.lp;
      var userLp := LpBalance(user);
      lpBalances := lpBalances[user := userLp + terms.lp];
      return Returned(terms);
    }

    method RemoveLiquidity(user: Address, lpAmount: int) returns (r: Answer<(int, int)>)
      requires Valid()
      modifies this, native, sxlm
      ensures var o := Pools.RemoveLiquidity(old(View()), user, lpAmount);
        View() == o.After(old(View())) && r == o.Answer()
    {
      if user == self { return Panicked(NotAuthorised); }
      if lpAmount <= 0 { return Panicked(NonPositiveAmount); }
      var userLp := LpBalance(user);
      if userLp < lpAmount { return Panicked(InsufficientBalance); }
      if totalLp == 0 { return Panicked(DivisionByZero); }
      var xlmOut := Div(lpAmount * reserveXlm, totalLp);
      var sxlmOut := Div(lpAmount * reserveSxlm, totalLp);
      if xlmOut <= 0 || sxlmOut <= 0 { return Panicked(InsufficientLiquidity); }

      var moved := MoveBoth(self, user, xlmOut, sxlmOut);
      if moved.Panicked? { return Panicked(moved.why); }
      reserveXlm := reserveXlm - xlmOut;
      reserveSxlm := reserveSxlm - sxlmOut;
      totalLp := totalLp - lpAmount;
      lpBalances := lpBalances[user := userLp - lpAmount];
      return Returned((xlmOut, sxlmOut));
    }

    method SwapXlm(user: Address, amount: int, minOut: int) returns (r: Answer<int>)
      requires Valid()
      modifies this, native, sxlm
      ensures var o := Pools.SwapXlm(old(View()), user, amount, minOut);
        View() == o.After(old(View())) && r == o.Answer()
    {
      if user == self { return Panicked(NotAuthorised); }
      if amount <= 0 { return Panicked(NonPositiveAmount); }
      var afterFee := Div(amount * (BPS - feeBps), BPS);
      if reserveXlm <= 0 || reserveSxlm <= 0 { return Panicked(NoLiquidity); }
      if reserveXlm + afterFee == 0 { return Panicked(DivisionByZero); }
      var out := reserveSxlm - Div(reserveXlm * reserveSxlm, reserveXlm + afterFee);
      if out <= 0 || out >= reserveSxlm { return Panicked(InsufficientLiquidity); }
      if out < minOut { return Panicked(Slippage); }

      var nativeBefore, sxlmBefore := native.View(), sxlm.View();
      var moved := Exchange(native, sxlm, user, amount, out);
      if moved.Panicked? { return Panicked(moved.why); }
      if feeBps == 0 {
        native.Restore(nativeBefore);
        sxlm.Restore(sxlmBefore);
        return Panicked(DivisionByZero);
      }
      var cut := Div((amount - afterFee) * protocolFeeBps, feeBps);
      reserveXlm := reserveXlm + amount - cut;
      reserveSxlm := reserveSxlm - out;
      accruedFees := accruedFees + cut;
      return Returned(out);
    }

    method SwapSxlm(user: Address, amount: int, minOut: int) returns (r: Answer<int>)
      requires Valid()
      modifies this, native, sxlm
      ensures var o := Pools.SwapSxlm(old(View()), user, amount, minOut);
        View() == o.After(old(View())) && r == o.Answer()
    {
      if user == self { return Panicked(NotAuthorised); }
      if amount <= 0 { return Panicked(NonPositiveAmount); }
      var afterFee := Div(amount * (BPS - feeBps), BPS);
      if reserveXlm <= 0 || reserveSxlm <= 0 { return Panicked(NoLiquidity); }
      if reserveSxlm + afterFee == 0 { return Panicked(DivisionByZero); }
      var out := reserveXlm - Div(reserveXlm * reserveSxlm, reserveSxlm + afterFee);
      assert reserveXlm * reserveSxlm == reserveSxlm * reserveXlm;
      if out <= 0 || out >= reserveXlm { return Panicked(InsufficientLiquidity); }
      if out < minOut { return Panicked(Slippage); }

      var moved := Exchange(sxlm, native, user, amount, out);
      if moved.Panicked? { return Panicked(moved.why); }
      reserveSxlm := reserveSxlm + amount;
      reserveXlm := reserveXlm - out;
      return Returned(out);
    }

    method CollectFees() returns (r: Answer<int>)
      requires Valid()
      modifies this, native
      ensures var o := Pools.CollectFees(old(View()));
        View() == o.After(old(View())) && r == o.Answer()
    {
      if admin == self { return Panicked(NotAuthorised); }
      var accrued := accruedFees;
      if accrued <= 0 { return Returned(0); }
      var moved := native.Transfer(self, admin, accrued);
      if moved.Panicked? { return Panicked(moved.why); }
      accruedFees := 0;
      return Returned(accrued);
    }

    method SetProtocolFee(bps: nat) returns (r: Answer<()>)
      requires Valid()
      modifies this
      ensures var o := Pools.SetProtocolFee(old(View()), bps);
        View() == o.After(old(View())) && r == o.Answer()
    {
      if admin == self { return Panicked(NotAuthorised); }
      protocolFeeBps := bps;
      return Returned(());
    }
  }
}
