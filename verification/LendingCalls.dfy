/** What each call of the lending contract does, said without the functions that model it: when
    it completes, what it answers and everything it changes. */
module LendingCalls {
  import opened Prelude
  import opened Sums
  import opened Tokens
  import opened Loans
  import opened LendingRuns
  import opened Arith

  /** Pledging takes what the user has. */
  lemma DepositExactly(w: World, user: Address, amount: int)
    ensures DepositCollateral(w, user, amount).Done? <==> user != w.self && 0 < amount <= Balance(w.sxlm, user)
    ensures var b, o := w.book, DepositCollateral(w, user, amount); o.Done? ==>
      && o.value == amount && Moved(w.sxlm, o.state.sxlm, user, w.self, amount)
      && o.state == World(w.self, w.native, o.state.sxlm,
                          b.(collateral := b.collateral[user := Get(b.collateral, user) + amount],
                             totalCollateral := b.totalCollateral + amount))
  {
    TransferExactly(w.sxlm, user, w.self, amount);
  }

  /** Collateral can be withdrawn exactly as far as what is left backs the debt, if there is any. */
  lemma WithdrawExactly(t: Tracked, user: Address, amount: int)
    requires BookInv(t)
    ensures var w, b := t.world, t.world.book;
      var collateral, debt := Get(b.collateral, user), Get(b.borrowed, user);
      WithdrawCollateral(w, user, amount).Done? <==>
        (user != w.self && 0 < amount <= collateral
         && (debt == 0 || debt * (BPS * RATE) <= (collateral - amount) * (b.collateralFactor * b.exchangeRate)))
    ensures var w, b, o := t.world, t.world.book, WithdrawCollateral(t.world, user, amount); o.Done? ==>
      && o.value == amount && Moved(w.sxlm, o.state.sxlm, w.self, user, amount)
      && o.state == World(w.self, w.native, o.state.sxlm,
                          b.(collateral := b.collateral[user := Get(b.collateral, user) - amount],
                             totalCollateral := b.totalCollateral - amount))
  {
    var w, b := t.world, t.world.book;
    var collateral, debt := Get(b.collateral, user), Get(b.borrowed, user);
    NonNegativePosition(b, user);
    EntryAtMostSum(b.collateral, user);
    TransferExactly(w.sxlm, w.self, user, amount);
    if 0 < debt && amount <= collateral {
      HealthyExactly(collateral - amount, debt, b.collateralFactor, b.exchangeRate);
    }
  }

  /** XLM can be borrowed exactly as far as the collateral backs the new debt and the pool lasts. */
  lemma BorrowExactly(t: Tracked, user: Address, amount: int)
    requires BookInv(t)
    ensures var w, b := t.world, t.world.book;
      var collateral, debt := Get(b.collateral, user), Get(b.borrowed, user);
      Borrow(w, user, amount).Done? <==>
        (user != w.self && 0 < amount <= Balance(w.native, w.self)
         && (debt + amount) * (BPS * RATE) <= collateral * (b.collateralFactor * b.exchangeRate))
    ensures var w, b, o := t.world, t.world.book, Borrow(t.world, user, amount); o.Done? ==>
      && o.value == amount && Moved(w.native, o.state.native, w.self, user, amount)
      && o.state == World(w.self, o.state.native, w.sxlm,
                          b.(borrowed := b.borrowed[user := Get(b.borrowed, user) + amount],
                             totalBorrowed := b.totalBorrowed + amount))
  {
    var w, b := t.world, t.world.book;
    NonNegativePosition(b, user);
    TransferExactly(w.native, w.self, user, amount);
    if 0 < amount { GatesAgree(b, Get(b.collateral, user), Get(b.borrowed, user) + amount); }
  }

  /** The two gates agree call by call: a user who ends at the same position may go there by
      borrowing exactly if it may go there by withdrawing. */
  lemma GatesAgreeOnCalls(t: Tracked, t': Tracked, user: Address, lent: int, withdrawn: int)
    requires BookInv(t) && BookInv(t') && Capacity(t.world.book) == Capacity(t'.world.book)
    requires user != t.world.self && user != t'.world.self
    requires var b, b' := t.world.book, t'.world.book;
      && Get(b.collateral, user) == Get(b'.collateral, user) - withdrawn
      && Get(b.borrowed, user) + lent == Get(b'.borrowed, user)
    requires 0 < lent <= Balance(t.world.native, t.world.self) && 0 < withdrawn
    ensures Borrow(t.world, user, lent).Done? <==> WithdrawCollateral(t'.world, user, withdrawn).Done?
  {
    BorrowExactly(t, user, lent);
    WithdrawExactly(t', user, withdrawn);
    NonNegativePosition(t.world.book, user);
  }

  /** What is offered is taken up to what is owed, so an overpayment completes and repays the
      debt; repaying nothing owed completes too. */
  lemma RepayExactly(t: Tracked, user: Address, amount: int)
    requires BookInv(t)
    ensures var w, b := t.world, t.world.book;
      var debt := Get(b.borrowed, user);
      Repay(w, user, amount).Done? <==>
        (user != w.self && 0 < amount && (amount <= Balance(w.native, user) || debt <= Balance(w.native, user)))
    ensures var w, b, o := t.world, t.world.book, Repay(t.world, user, amount); o.Done? ==>
      var debt := Get(b.borrowed, user);
      && (amount <= debt ==> o.value == amount) && (debt <= amount ==> o.value == debt)
      && Moved(w.native, o.state.native, user, w.self, o.value)
      && o.state == World(w.self, o.state.native, w.sxlm,
                          b.(borrowed := b.borrowed[user := debt - o.value],
                             totalBorrowed := b.totalBorrowed - o.value))
  {
    var w, debt := t.world, Get(t.world.book.borrowed, user);
    NonNegativePosition(t.world.book, user);
    TransferExactly(w.native, user, w.self, if amount > debt then debt else amount);
  }

  /** The seizure to the last unit: the debt with its bonus, rounded down, priced in sXLM,
      rounded down again, and capped by the collateral. The floors always exist (`DivIsFloor`), and
      `RateAndThresholdMatter` has liquidations that complete. */
  lemma SeizureExactly(t: Tracked, liquidator: Address, borrower: Address, owed: int, due: int)
    requires BookInv(t) && Liquidate(t.world, liquidator, borrower).Done?
    requires IsFloor(owed, Get(t.world.book.borrowed, borrower) * (BPS + t.world.book.bonus), BPS)
    requires IsFloor(due, owed * RATE, t.world.book.exchangeRate)
    ensures var w, b, o := t.world, t.world.book, Liquidate(t.world, liquidator, borrower);
      var collateral, debt := Get(b.collateral, borrower), Get(b.borrowed, borrower);
      && (due <= collateral ==> o.value == due) && (collateral <= due ==> o.value == collateral)
      && o.state == World(w.self, o.state.native, o.state.sxlm,
                          b.(collateral := b.collateral[borrower := collateral - o.value],
                             borrowed := b.borrowed[borrower := 0],
                             totalCollateral := b.totalCollateral - o.value,
                             totalBorrowed := b.totalBorrowed - debt))
  {
    var b, debt := t.world.book, Get(t.world.book.borrowed, borrower);
    NonNegativePosition(b, borrower);
    SeizableExactly(b, debt, owed, due);
  }

  lemma SeizableExactly(b: Book, debt: int, owed: int, due: int)
    requires 0 < b.exchangeRate && 0 <= b.bonus && 0 <= debt
    requires IsFloor(owed, debt * (BPS + b.bonus), BPS) && IsFloor(due, owed * RATE, b.exchangeRate)
    ensures Seizable(b, debt) == due
  {
    var n := debt * (BPS + b.bonus);
    MulNonNegative(debt, BPS + b.bonus);
    DivIsFloor(n, BPS);
    FloorUnique(owed, Div(n, BPS), n, BPS);
    DivIsFloor(owed * RATE, b.exchangeRate);
    FloorUnique(due, Div(owed * RATE, b.exchangeRate), owed * RATE, b.exchangeRate);
  }

  /** At the rate and the bonus a contract starts with, a liquidator is due 105% of the debt. */
  lemma DefaultBonus(admin: Address, collateralFactor: nat, threshold: nat, borrowRate: nat, debt: int)
    requires 0 <= debt
    ensures IsFloor(Seizable(Fresh(admin, collateralFactor, threshold, borrowRate), debt), debt * 105, 100)
  {
    var owed := debt * 105 / 100;
    Floor(debt * 105, 100);
    FloorIs(owed, owed * RATE, RATE);
    SeizableExactly(Fresh(admin, collateralFactor, threshold, borrowRate), debt, owed, owed);
  }

  /** The setters are the admin's, check only the range of their own parameter, and set it. */
  lemma SettersExactly(w: World, rate: int, bps: nat)
    ensures var b := w.book;
      && (SetExchangeRate(w, rate).Done? <==> b.admin != w.self && 0 < rate)
      && (SetCollateralFactor(w, bps).Done? <==> b.admin != w.self && 0 < bps <= BPS)
      && (SetThreshold(w, bps).Done? <==> b.admin != w.self && 0 < bps <= BPS)
      && (SetBorrowRate(w, bps).Done? <==> b.admin != w.self)
    ensures var b := w.book;
      && (SetExchangeRate(w, rate).Done? ==> SetExchangeRate(w, rate).state == w.(book := b.(exchangeRate := rate)))
      && (SetCollateralFactor(w, bps).Done? ==>
            SetCollateralFactor(w, bps).state == w.(book := b.(collateralFactor := bps)))
      && (SetThreshold(w, bps).Done? ==> SetThreshold(w, bps).state == w.(book := b.(threshold := bps)))
      && (SetBorrowRate(w, bps).Done? ==> SetBorrowRate(w, bps).state == w.(book := b.(borrowRate := bps)))
  {
  }
}
