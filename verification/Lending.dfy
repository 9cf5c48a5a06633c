/** The lending contract as a function on values: what each call does. */
module Loans {
  import opened Prelude
  import opened Sums
  import opened Tokens

  const I128_MAX: int := 0x7FFF_FFFF_FFFF_FFFF_FFFF_FFFF_FFFF_FFFF
  const DEFAULT_LIQUIDATION_BONUS_BPS: int := 500

  datatype Book = Book(
    admin: Address,
    collateralFactor: nat,
    threshold: nat,
    borrowRate: nat,
    bonus: int,
    exchangeRate: int,
    totalCollateral: int,
    totalBorrowed: int,
    collateral: map<Address, int>,
    borrowed: map<Address, int>)

  /** Everything a call of the contract reads and writes. `self` is the contract's address. */
  datatype World = World(self: Address, native: Ledger, sxlm: Ledger, book: Book)

  /** The state `initialize` leaves. */
  function Fresh(admin: Address, collateralFactor: nat, threshold: nat, borrowRate: nat): Book {
    Book(admin, collateralFactor, threshold, borrowRate, DEFAULT_LIQUIDATION_BONUS_BPS, RATE, 0, 0, map[], map[])
  }

  /** The health factor, scaled by RATE; without debt it is the largest i128. */
  function HealthFactor(collateral: int, borrowed: int, factorBps: int, exchangeRate: int): int {
    if borrowed == 0 then I128_MAX
    else Div(collateral * exchangeRate * factorBps, BPS * borrowed)
  }

  function MaxBorrow(b: Book, collateral: int): int {
    Div(collateral * b.exchangeRate * b.collateralFactor, BPS * RATE)
  }

  function DepositCollateral(w: World, user: Address, amount: int): Outcome<World, int> {
    var b := w.book;
    if user == w.self then Aborted(NotAuthorised)
    else if amount <= 0 then Aborted(NonPositiveAmount)
    else
      var sxlm :- Transfer(w.sxlm, user, w.self, amount);
      Done(w.(sxlm := sxlm, book := b.(collateral := b.collateral[user := Get(b.collateral, user) + amount],
                                       totalCollateral := b.totalCollateral + amount)), amount)
  }

  function WithdrawCollateral(w: World, user: Address, amount: int): Outcome<World, int> {
    var b := w.book;
    var rest, debt := Get(b.collateral, user) - amount, Get(b.borrowed, user);
    if user == w.self then Aborted(NotAuthorised)
    else if amount <= 0 then Aborted(NonPositiveAmount)
    else if rest < 0 then Aborted(InsufficientCollateral)
    else if debt > 0 && HealthFactor(rest, debt, b.collateralFactor, b.exchangeRate) < RATE then Aborted(Unhealthy)
    else
      var sxlm :- Transfer(w.sxlm, w.self, user, amount);
      Done(w.(sxlm := sxlm, book := b.(collateral := b.collateral[user := rest],
                                       totalCollateral := b.totalCollateral - amount)), amount)
  }

  function Borrow(w: World, user: Address, amount: int): Outcome<World, int> {
    var b := w.book;
    var debt := Get(b.borrowed, user) + amount;
    if user == w.self then Aborted(NotAuthorised)
    else if amount <= 0 then Aborted(NonPositiveAmount)
    else if debt > MaxBorrow(b, Get(b.collateral, user)) then Aborted(BorrowTooLarge)
    else if Balance(w.native, w.self) < amount then Aborted(PoolTooSmall)
    else
      var native :- Transfer(w.native, w.self, user, amount);
      Done(w.(native := native, book := b.(borrowed := b.borrowed[user := debt],
                                           totalBorrowed := b.totalBorrowed + amount)), amount)
  }

  /** Repaying more than is owed repays what is owed. */
  function Repay(w: World, user: Address, amount: int): Outcome<World, int> {
    var b := w.book;
    var debt := Get(b.borrowed, user);
    var paid := if amount > debt then debt else amount;
    if user == w.self then Aborted(NotAuthorised)
    else if amount <= 0 then Aborted(NonPositiveAmount)
    else
      var native :- Transfer(w.native, user, w.self, paid);
      Done(w.(native := native, book := b.(borrowed := b.borrowed[user := debt - paid],
                                           totalBorrowed := b.totalBorrowed - paid)), paid)
  }

  /** The sXLM a liquidator is due for repaying `debt`. */
  function Seizable(b: Book, debt: int): int
    requires b.exchangeRate != 0
  {
    Div(Div(debt * (BPS + b.bonus), BPS) * RATE, b.exchangeRate)
  }

  function Liquidate(w: World, liquidator: Address, borrower: Address): Outcome<World, int> {
    var b := w.book;
    var collateral, debt := Get(b.collateral, borrower), Get(b.borrowed, borrower);
    if liquidator == w.self then Aborted(NotAuthorised)
    else if debt <= 0 then Aborted(NoDebt)
    else if HealthFactor(collateral, debt, b.threshold, b.exchangeRate) >= RATE then Aborted(PositionHealthy)
    else
      var native :- Transfer(w.native, liquidator, w.self, debt);
      if b.exchangeRate == 0 then Aborted(DivisionByZero)
      else
        Seize(w.(native := native), liquidator, borrower, debt, Seizable(b, debt))
  }

  /** The second half of `liquidate`: sends what is due of the collateral and clears the debt. */
  function Seize(w: World, liquidator: Address, borrower: Address, debt: int, due: int): Outcome<World, int> {
    var b, collateral := w.book, Get(w.book.collateral, borrower);
    var seized := if due > collateral then collateral else due;
    var sxlm :- Transfer(w.sxlm, w.self, liquidator, seized);
    var book := b.(totalCollateral := b.totalCollateral - seized,
                   totalBorrowed := b.totalBorrowed - debt,
                   collateral := b.collateral[borrower := collateral - seized],
                   borrowed := b.borrowed[borrower := 0]);
    Done(w.(sxlm := sxlm, book := book), seized)
  }

  function SetExchangeRate(w: World, rate: int): Outcome<World, int> {
    if w.book.admin == w.self then Aborted(NotAuthorised)
    else if rate <= 0 then Aborted(InvalidParameter)
    else Done(w.(book := w.book.(exchangeRate := rate)), rate)
  }

  function SetCollateralFactor(w: World, bps: nat): Outcome<World, int> {
    if w.book.admin == w.self then Aborted(NotAuthorised)
    else if !(0 < bps <= BPS) then Aborted(InvalidParameter)
    else Done(w.(book := w.book.(collateralFactor := bps)), bps)
  }

  function SetThreshold(w: World, bps: nat): Outcome<World, int> {
    if w.book.admin == w.self then Aborted(NotAuthorised)
    else if !(0 < bps <= BPS) then Aborted(InvalidParameter)
    else Done(w.(book := w.book.(threshold := bps)), bps)
  }

  function SetBorrowRate(w: World, bps: nat): Outcome<World, int> {
    if w.book.admin == w.self then Aborted(NotAuthorised)
    else Done(w.(book := w.book.(borrowRate := bps)), bps)
  }
}

/** The lending contract, storage entry by storage entry. */
module LendingContracts {
  import opened Prelude
  import opened TokenContracts
  import Loans
  import Sums

  class LendingContract {
    const self: Address
    const native: TokenContract
    const sxlm: TokenContract
    const admin: Address
    const bonus: int
    var collateralFactor: nat
    var threshold: nat
    var borrowRate: nat
    var exchangeRate: int
    var totalCollateral: int
    var totalBorrowed: int
    var collateral: map<Address, int>
    var borrowed: map<Address, int>

    /** The two tokens are two contracts. */
    ghost predicate Valid() {
      native != sxlm
    }

    function View(): Loans.World
      reads this, native, sxlm
    {
      Loans.World(self, native.View(), sxlm.View(),
        Loans.Book(admin, collateralFactor, threshold, borrowRate, bonus, exchangeRate,
                   totalCollateral, totalBorrowed, collateral, borrowed))
    }

    constructor (self: Address, native: TokenContract, sxlm: TokenContract, admin: Address,
                 collateralFactor: nat, threshold: nat, borrowRate: nat)
      requires native != sxlm
      ensures Valid() && this.native == native && this.sxlm == sxlm
      ensures View() == Loans.World(self, native.View(), sxlm.View(),
                                    Loans.Fresh(admin, collateralFactor, threshold, borrowRate))
    {
      this.self, this.native, this.sxlm, this.admin := self, native, sxlm, admin;
      this.collateralFactor, this.threshold, this.borrowRate := collateralFactor, threshold, borrowRate;
      bonus, exchangeRate := Loans.DEFAULT_LIQUIDATION_BONUS_BPS, RATE;
      totalCollateral, totalBorrowed, collateral, borrowed := 0, 0, map[], map[];
    }

    method Read(entries: map<Address, int>, user: Address) returns (r: int)
      ensures r == Sums.Get(entries, user)
    {
      r := if user in entries then entries[user] else 0;
    }

    method DepositCollateral(user: Address, amount: int) returns (r: Answer<int>)
      requires Valid()
      modifies this, sxlm
      ensures var o := Loans.DepositCollateral(old(View()), user, amount);
        View() == o.After(old(View())) && r == o.Answer()
    {
      if user == self { return Panicked(NotAuthorised); }
      if amount <= 0 { return Panicked(NonPositiveAmount); }
      var moved := sxlm.Transfer(user, self, amount);
      if moved.Panicked? { return Panicked(moved.why); }
      var current := Read(collateral, user);
      collateral := collateral[user := current + amount];
      totalCollateral := totalCollateral + amount;
      return Returned(amount);
    }

    method WithdrawCollateral(user: Address, amount: int) returns (r: Answer<int>)
      requires Valid()
      modifies this, sxlm
      ensures var o := Loans.WithdrawCollateral(old(View()), user, amount);
        View() == o.After(old(View())) && r == o.Answer()
    {
      if user == self { return Panicked(NotAuthorised); }
      if amount <= 0 { return Panicked(NonPositiveAmount); }
      var current := Read(collateral, user);
      if current < amount { return Panicked(InsufficientCollateral); }
      var newCollateral := current - amount;
      var debt := Read(borrowed, user);
      if debt > 0 {
        var hf := Loans.HealthFactor(newCollateral, debt, collateralFactor, exchangeRate);
        if hf < RATE { return Panicked(Unhealthy); }
      }
      var moved := sxlm.Transfer(self, user, amount);
      if moved.Panicked? { return Panicked(moved.why); }
      collateral := collateral[user := newCollateral];
      totalCollateral := totalCollateral - amount;
      return Returned(amount);
    }

    method Borrow(user: Address, amount: int) returns (r: Answer<int>)
      requires Valid()
      modifies this, native
      ensures var o := Loans.Borrow(old(View()), user, amount);
        View() == o.After(old(View())) && r == o.Answer()
    {
      if user == self { return Panicked(NotAuthorised); }
      if amount <= 0 { return Panicked(NonPositiveAmount); }
      var pledged := Read(collateral, user);
      var currentDebt := Read(borrowed, user);
      var newDebt := currentDebt + amount;
      var maxBorrow := Div(pledged * exchangeRate * collateralFactor, BPS * RATE);
      if newDebt > maxBorrow { return Panicked(BorrowTooLarge); }
      var poolBalance := native.BalanceOf(self);
      if poolBalance < amount { return Panicked(PoolTooSmall); }
      var moved := native.Transfer(self, user, amount);
      assert moved.Returned?;
      borrowed := borrowed[user := newDebt];
      totalBorrowed := totalBorrowed + amount;
      return Returned(amount);
    }

    method Repay(user: Address, amount: int) returns (r: Answer<int>)
      requires Valid()
      modifies this, native
      ensures var o := Loans.Repay(old(View()), user, amount);
        View() == o.After(old(View())) && r == o.Answer()
    {
      if user == self { return Panicked(NotAuthorised); }
      if amount <= 0 { return Panicked(NonPositiveAmount); }
      var debt := Read(borrowed, user);
      var repaid := if amount > debt then debt else amount;
      var moved := native.Transfer(user, self, repaid);
      if moved.Panicked? { return Panicked(moved.why); }
      borrowed := borrowed[user := debt - repaid];
      totalBorrowed := totalBorrowed - repaid;
      return Returned(repaid);
    }

    method Liquidate(liquidator: Address, borrower: Address) returns (r: Answer<int>)
      requires Valid()
      modifies this, native, sxlm
      ensures var o := Loans.Liquidate(old(View()), liquidator, borrower);
        View() == o.After(old(View())) && r == o.Answer()
    {
      if liquidator == self { return Panicked(NotAuthorised); }
      var pledged := Read(collateral, borrower);
      var debt := Read(borrowed, borrower);
      if debt <= 0 { return Panicked(NoDebt); }
      var hf := Loans.HealthFactor(pledged, debt, threshold, exchangeRate);
      if hf >= RATE { return Panicked(PositionHealthy); }
      var nativeBefore := native.View();
      var moved := native.Transfer(liquidator, self, debt);
      if moved.Panicked? { return Panicked(moved.why); }
      if exchangeRate == 0 {
        native.Restore(nativeBefore);
        return Panicked(DivisionByZero);
      }
      var debtWithBonus := Div(debt * (BPS + bonus), BPS);
      r := Seize(liquidator, borrower, pledged, debt, Div(debtWithBonus * RATE, exchangeRate));
      if r.Panicked? { native.Restore(nativeBefore); }
    }

    method Seize(liquidator: Address, borrower: Address, pledged: int, debt: int, toSeize: int)
      returns (r: Answer<int>)
      requires Valid() && pledged == Sums.Get(collateral, borrower)
      modifies this, sxlm
      ensures var o := Loans.Seize(old(View()), liquidator, borrower, debt, toSeize);
        View() == o.After(old(View())) && r == o.Answer()
    {
      var toSend := if toSeize > pledged then pledged else toSeize;
      var moved := sxlm.Transfer(self, liquidator, toSend);
      if moved.Panicked? { return Panicked(moved.why); }
      totalCollateral := totalCollateral - toSend;
      totalBorrowed := totalBorrowed - debt;
      collateral := collateral[borrower := pledged - toSend];
      borrowed := borrowed[borrower := 0];
      return Returned(toSend);
    }

    method SetExchangeRate(rate: int) returns (r: Answer<int>)
      requires Valid()
      modifies this
      ensures var o := Loans.SetExchangeRate(old(View()), rate);
        View() == o.After(old(View())) && r == o.Answer()
    {
      if admin == self { return Panicked(NotAuthorised); }
      if rate <= 0 { return Panicked(InvalidParameter); }
      exchangeRate := rate;
      return Returned(rate);
    }

    method SetCollateralFactor(bps: nat) returns (r: Answer<int>)
      requires Valid()
      modifies this
      ensures var o := Loans.SetCollateralFactor(old(View()), bps);
        View() == o.After(old(View())) && r == o.Answer()
    {
      if admin == self { return Panicked(NotAuthorised); }
      if !(0 < bps <= BPS) { return Panicked(InvalidParameter); }
      collateralFactor := bps;
      return Returned(bps);
    }

    method SetThreshold(bps: nat) returns (r: Answer<int>)
      requires Valid()
      modifies this
      ensures var o := Loans.SetThreshold(old(View()), bps);
        View() == o.After(old(View())) && r == o.Answer()
    {
      if admin == self { return Panicked(NotAuthorised); }
      if !(0 < bps <= BPS) { return Panicked(InvalidParameter); }
      threshold := bps;
      return Returned(bps);
    }

    method SetBorrowRate(bps: nat) returns (r: Answer<int>)
      requires Valid()
      modifies this
      ensures var o := Loans.SetBorrowRate(old(View()), bps);
        View() == o.After(old(View())) && r == o.Answer()
    {
      if admin == self { return Panicked(NotAuthorised); }
      borrowRate := bps;
      return Returned(bps);
    }
  }
}
