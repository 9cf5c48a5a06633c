/** The lending contract over whole runs. */
module LendingRuns {
  import opened Prelude
  import opened Sums
  import opened Tokens
  import opened Loans
  import opened Arith

  /** `Outside` stands for anything the rest of the chain does to the two tokens. */
  datatype Call =
    | DepositCall(user: Address, amount: int)
    | WithdrawCall(user: Address, amount: int)
    | BorrowCall(user: Address, amount: int)
    | RepayCall(user: Address, amount: int)
    | LiquidateCall(liquidator: Address, borrower: Address)
    | RateCall(rate: int)
    | FactorCall(bps: nat)
    | ThresholdCall(bps: nat)
    | BorrowRateCall(bps: nat)
    | Outside(native: Ledger, sxlm: Ledger)

  /** A world with what the contract was sent outside its own calls: the funding of the pool
      and gifts of sXLM. Neither is contract storage. */
  datatype Tracked = Tracked(world: World, funding: int, giftSxlm: int)

  /** Nobody but the contract spends the contract's own tokens. */
  function OutsideStep(w: World, native: Ledger, sxlm: Ledger): Outcome<World, int> {
    if Balance(native, w.self) < Balance(w.native, w.self) || Balance(sxlm, w.self) < Balance(w.sxlm, w.self)
    then Aborted(NotAuthorised)
    else Done(w.(native := native, sxlm := sxlm), 0)
  }

  function Exec(w: World, c: Call): Outcome<World, int> {
    match c
    case DepositCall(user, amount) => DepositCollateral(w, user, amount)
    case WithdrawCall(user, amount) => WithdrawCollateral(w, user, amount)
    case BorrowCall(user, amount) => Borrow(w, user, amount)
    case RepayCall(user, amount) => Repay(w, user, amount)
    case LiquidateCall(liquidator, borrower) => Liquidate(w, liquidator, borrower)
    case RateCall(rate) => SetExchangeRate(w, rate)
    case FactorCall(bps) => SetCollateralFactor(w, bps)
    case ThresholdCall(bps) => SetThreshold(w, bps)
    case BorrowRateCall(bps) => SetBorrowRate(w, bps)
    case Outside(native, sxlm) => OutsideStep(w, native, sxlm)
  }

  function Step(t: Tracked, c: Call): Tracked {
    var w, w' := t.world, Exec(t.world, c).After(t.world);
    if c.Outside? then
      Tracked(w', t.funding + Balance(w'.native, w.self) - Balance(w.native, w.self),
                  t.giftSxlm + Balance(w'.sxlm, w.self) - Balance(w.sxlm, w.self))
    else t.(world := w')
  }

  function Run(t: Tracked, calls: seq<Call>): Tracked
    decreases calls
  {
    if calls == [] then t else Run(Step(t, calls[0]), calls[1..])
  }

  /** A contract that was just initialised, on whatever tokens its address already holds. */
  ghost predicate Initial(t: Tracked) {
    var w, b := t.world, t.world.book;
    && b == Fresh(b.admin, b.collateralFactor, b.threshold, b.borrowRate)
    && 0 <= t.funding == Balance(w.native, w.self)
    && 0 <= t.giftSxlm == Balance(w.sxlm, w.self)
  }

  // --- Conservation ---

  /** The totals are the sums of the positions, no position is negative, the contract holds
      the collateral, and what it was funded with is either in the pool or lent out. */
  ghost predicate BookInv(t: Tracked) {
    var w, b := t.world, t.world.book;
    && NonNegative(b.collateral) && NonNegative(b.borrowed)
    && b.totalCollateral == Sum(b.collateral) && b.totalBorrowed == Sum(b.borrowed)
    && 0 < b.exchangeRate && 0 <= b.bonus && 0 <= t.giftSxlm
    && Balance(w.sxlm, w.self) == b.totalCollateral + t.giftSxlm
    && Balance(w.native, w.self) + b.totalBorrowed == t.funding
  }

  lemma StepKeepsBook(t: Tracked, c: Call)
    requires BookInv(t)
    ensures BookInv(Step(t, c))
    ensures c.Outside? || Step(t, c).funding == t.funding
  {
    if Exec(t.world, c).Done? {
      match c
      case DepositCall(user, amount) => CollateralKeepsBook(t, c, user);
      case WithdrawCall(user, amount) => CollateralKeepsBook(t, c, user);
      case BorrowCall(user, amount) => DebtKeepsBook(t, c, user);
      case RepayCall(user, amount) => DebtKeepsBook(t, c, user);
      case LiquidateCall(liquidator, borrower) => LiquidationKeepsBook(t, liquidator, borrower);
      case _ =>
    }
  }

  lemma CollateralKeepsBook(t: Tracked, c: Call, user: Address)
    requires BookInv(t) && Exec(t.world, c).Done? && (c.DepositCall? || c.WithdrawCall?) && c.user == user
    ensures BookInv(Step(t, c))
  {
    var w, b := t.world, t.world.book;
    if c.DepositCall? {
      TransferMoves(w.sxlm, user, w.self, c.amount);
      SumUpdate(b.collateral, user, Get(b.collateral, user) + c.amount);
    } else {
      TransferMoves(w.sxlm, w.self, user, c.amount);
      SumUpdate(b.collateral, user, Get(b.collateral, user) - c.amount);
    }
  }

  lemma DebtKeepsBook(t: Tracked, c: Call, user: Address)
    requires BookInv(t) && Exec(t.world, c).Done? && (c.BorrowCall? || c.RepayCall?) && c.user == user
    ensures BookInv(Step(t, c))
  {
    var w, b, moved := t.world, t.world.book, Exec(t.world, c).value;
    if c.BorrowCall? {
      TransferMoves(w.native, w.self, user, moved);
      SumUpdate(b.borrowed, user, Get(b.borrowed, user) + moved);
    } else {
      TransferMoves(w.native, user, w.self, moved);
      SumUpdate(b.borrowed, user, Get(b.borrowed, user) - moved);
    }
  }

  lemma LiquidationKeepsBook(t: Tracked, liquidator: Address, borrower: Address)
    requires BookInv(t) && Liquidate(t.world, liquidator, borrower).Done?
    ensures BookInv(Step(t, LiquidateCall(liquidator, borrower)))
  {
    var w, b, o := t.world, t.world.book, Liquidate(t.world, liquidator, borrower);
    var collateral, debt := Get(b.collateral, borrower), Get(b.borrowed, borrower);
    TransferMoves(w.native, liquidator, w.self, debt);
    TransferMoves(w.sxlm, w.self, liquidator, o.value);
    SumUpdate(b.collateral, borrower, collateral - o.value);
    SumUpdate(b.borrowed, borrower, 0);
  }

  lemma InitialBook(t: Tracked)
    requires Initial(t)
    ensures BookInv(t)
  {
    assert t.world.book.collateral.Keys == {};
    assert t.world.book.borrowed.Keys == {};
  }

  lemma {:induction false} RunKeepsBook(t: Tracked, calls: seq<Call>)
    requires BookInv(t)
    ensures BookInv(Run(t, calls))
    ensures (forall c :: c in calls ==> !c.Outside?) ==> Run(t, calls).funding == t.funding
    decreases calls
  {
    if calls != [] {
      StepKeepsBook(t, calls[0]);
      RunKeepsBook(Step(t, calls[0]), calls[1..]);
    }
  }

  /** Lending conservation in every reachable state: the books add up, and what is in the pool
      plus what is lent out changes only by outside funding. */
  lemma ReachableBook(t: Tracked, before: seq<Call>, calls: seq<Call>)
    requires Initial(t) && (forall c :: c in calls ==> !c.Outside?)
    ensures var t1 := Run(t, before);
      var w1, w2 := t1.world, Run(t1, calls).world;
      BookInv(t1) && BookInv(Run(t1, calls))
      && Balance(w2.native, w2.self) + w2.book.totalBorrowed == Balance(w1.native, w1.self) + w1.book.totalBorrowed
  {
    InitialBook(t);
    RunKeepsBook(t, before);
    RunKeepsBook(Run(t, before), calls);
  }

  /** Pledging and withdrawing move the amount in sXLM and in the caller's collateral, and
      nothing else. */
  lemma CollateralSettles(w: World, user: Address, amount: int)
    ensures var o := DepositCollateral(w, user, amount); o.Done? ==>
      && Moved(w.sxlm, o.state.sxlm, user, w.self, amount) && o.state.native == w.native
      && o.state.book.borrowed == w.book.borrowed
      && forall u :: Get(o.state.book.collateral, u) == Get(w.book.collateral, u) + if u == user then amount else 0
    ensures var o := WithdrawCollateral(w, user, amount); o.Done? ==>
      && Moved(w.sxlm, o.state.sxlm, w.self, user, amount) && o.state.native == w.native
      && o.state.book.borrowed == w.book.borrowed
      && forall u :: Get(o.state.book.collateral, u) == Get(w.book.collateral, u) - if u == user then amount else 0
  {
    if DepositCollateral(w, user, amount).Done? { TransferMoves(w.sxlm, user, w.self, amount); }
    if WithdrawCollateral(w, user, amount).Done? { TransferMoves(w.sxlm, w.self, user, amount); }
  }

  /** Borrowing and repaying move the amount in XLM and in the caller's debt, and nothing else;
      a repayment is what was offered or what was owed, whichever is less. */
  lemma DebtSettles(w: World, user: Address, amount: int)
    ensures var o := Borrow(w, user, amount); o.Done? ==>
      && Moved(w.native, o.state.native, w.self, user, amount) && o.state.sxlm == w.sxlm
      && o.state.book.collateral == w.book.collateral
      && forall u :: Get(o.state.book.borrowed, u) == Get(w.book.borrowed, u) + if u == user then amount else 0
    ensures var o := Repay(w, user, amount); o.Done? ==>
      && o.value <= amount && o.value <= Get(w.book.borrowed, user)
      && (o.value == amount || o.value == Get(w.book.borrowed, user))
      && Moved(w.native, o.state.native, user, w.self, o.value) && o.state.sxlm == w.sxlm
      && o.state.book.collateral == w.book.collateral
      && forall u :: Get(o.state.book.borrowed, u) == Get(w.book.borrowed, u) - if u == user then o.value else 0
  {
    if Borrow(w, user, amount).Done? { TransferMoves(w.native, w.self, user, amount); }
    if Repay(w, user, amount).Done? { TransferMoves(w.native, user, w.self, Repay(w, user, amount).value); }
  }

  // --- Health ---

  /** The debt is backed by the collateral at `weight`, a factor times an exchange rate. */
  ghost predicate Backed(collateral: int, debt: int, weight: int) {
    debt * (BPS * RATE) <= collateral * weight
  }

  /** What the gates grant per unit of collateral, and what `liquidate` tolerates. */
  function Capacity(b: Book): int {
    b.collateralFactor * b.exchangeRate
  }

  function Tolerance(b: Book): int {
    b.threshold * b.exchangeRate
  }

  /** The health factor reaches one exactly when the debt is backed at the factor and rate ... */
  lemma HealthyExactly(collateral: int, debt: int, factorBps: int, exchangeRate: int)
    requires 0 <= collateral && 0 < debt && 0 <= factorBps && 0 <= exchangeRate
    ensures RATE <= HealthFactor(collateral, debt, factorBps, exchangeRate) <==>
      Backed(collateral, debt, factorBps * exchangeRate)
  {
    MulNonNegative(collateral, exchangeRate);
    MulNonNegative(collateral * exchangeRate, factorBps);
    var n, d := collateral * exchangeRate * factorBps, BPS * debt;
    assert RATE * d == debt * (BPS * RATE);
    assert n == collateral * (factorBps * exchangeRate);
    if RATE * d <= n {
      FloorAtLeast(RATE, n, d);
    } else {
      FloorBelow(RATE, n, d);
    }
  }

  /** ... and so does the borrowing cap: `borrow` and `withdraw_collateral` accept the same
      positions with debt, although one compares the debt with a cap and the other a health
      factor with one. */
  lemma GatesAgree(b: Book, collateral: int, debt: int)
    requires 0 <= collateral && 0 < debt && 0 <= b.exchangeRate
    ensures debt <= MaxBorrow(b, collateral) <==>
      RATE <= HealthFactor(collateral, debt, b.collateralFactor, b.exchangeRate)
    ensures debt <= MaxBorrow(b, collateral) <==> Backed(collateral, debt, Capacity(b))
  {
    HealthyExactly(collateral, debt, b.collateralFactor, b.exchangeRate);
    MulNonNegative(collateral, b.exchangeRate);
    MulNonNegative(collateral * b.exchangeRate, b.collateralFactor);
    var n, d := collateral * b.exchangeRate * b.collateralFactor, BPS * RATE;
    assert n == collateral * (b.collateralFactor * b.exchangeRate);
    if debt * d <= n {
      FloorAtLeast(debt, n, d);
    } else {
      FloorBelow(debt, n, d);
    }
  }

  /** Less debt, more collateral and a larger weight only help. */
  lemma BackedMonotone(collateral: int, debt: int, weight: int, collateral': int, debt': int, weight': int)
    requires 0 <= collateral <= collateral' && debt' <= debt && 0 <= weight <= weight'
    requires Backed(collateral, debt, weight)
    ensures Backed(collateral', debt', weight')
  {
    MulLe(debt', debt, BPS * RATE);
    MulLe(collateral, collateral', weight);
    assert collateral' * weight <= collateral' * weight' by { MulLe(weight, weight', collateral'); }
  }

  /** Every position is backed at `weight`. */
  ghost predicate AllBacked(b: Book, weight: int) {
    forall u :: 0 < Get(b.borrowed, u) ==> Backed(Get(b.collateral, u), Get(b.borrowed, u), weight)
  }

  lemma NonNegativePosition(b: Book, u: Address)
    requires NonNegative(b.collateral) && NonNegative(b.borrowed)
    ensures 0 <= Get(b.collateral, u) && 0 <= Get(b.borrowed, u)
  {
  }

  /** No call but one's own borrowing and withdrawing worsens a position that keeps debt. */
  lemma OthersUntouched(w: World, c: Call, u: Address)
    requires Exec(w, c).Done? ==> !((c.BorrowCall? || c.WithdrawCall?) && c.user == u)
    requires NonNegative(w.book.borrowed) && 0 < Get(Exec(w, c).After(w).book.borrowed, u)
    ensures var b, b' := w.book, Exec(w, c).After(w).book;
      Get(b.collateral, u) <= Get(b'.collateral, u) && Get(b'.borrowed, u) <= Get(b.borrowed, u)
  {
  }

  lemma PositionStaysBacked(t: Tracked, c: Call, u: Address, weight: int)
    requires BookInv(t) && AllBacked(t.world.book, weight) && Capacity(t.world.book) <= weight
    requires 0 < Get(Step(t, c).world.book.borrowed, u)
    ensures var b' := Step(t, c).world.book; Backed(Get(b'.collateral, u), Get(b'.borrowed, u), weight)
  {
    var b, b', o := t.world.book, Step(t, c).world.book, Exec(t.world, c);
    var collateral', debt' := Get(b'.collateral, u), Get(b'.borrowed, u);
    StepKeepsBook(t, c);
    NonNegativePosition(b, u);
    NonNegativePosition(b', u);
    MulNonNegative(b.collateralFactor, b.exchangeRate);
    if o.Done? && (c.BorrowCall? || c.WithdrawCall?) && c.user == u {
      GatesAgree(b, collateral', debt');
      BackedMonotone(collateral', debt', Capacity(b), collateral', debt', weight);
    } else {
      OthersUntouched(t.world, c, u);
      BackedMonotone(Get(b.collateral, u), Get(b.borrowed, u), weight, collateral', debt', weight);
    }
  }

  /** The most the gates have granted per unit of collateral in any state of a run. */
  function Peak(t: Tracked, calls: seq<Call>): int
    decreases calls
  {
    var here := Capacity(t.world.book);
    if calls == [] then here else
      var later := Peak(Step(t, calls[0]), calls[1..]);
      if here < later then later else here
  }

  lemma {:induction false} RunKeepsBacking(t: Tracked, calls: seq<Call>, weight: int)
    requires BookInv(t) && AllBacked(t.world.book, weight) && Peak(t, calls) <= weight
    ensures BookInv(Run(t, calls)) && AllBacked(Run(t, calls).world.book, weight)
    decreases calls
  {
    if calls != [] {
      var t' := Step(t, calls[0]);
      StepKeepsBook(t, calls[0]);
      forall u | 0 < Get(t'.world.book.borrowed, u)
        ensures Backed(Get(t'.world.book.collateral, u), Get(t'.world.book.borrowed, u), weight)
      {
        PositionStaysBacked(t, calls[0], u, weight);
      }
      RunKeepsBacking(t', calls[1..], weight);
    }
  }

  /** A position can be liquidated by a liquidator with the funds exactly when it has debt
      beyond what is tolerated. */
  lemma LiquidatableExactly(t: Tracked, liquidator: Address, borrower: Address)
    requires BookInv(t)
    ensures var b, debt := t.world.book, Get(t.world.book.borrowed, borrower);
      Liquidate(t.world, liquidator, borrower).Done? <==>
        (liquidator != t.world.self && 0 < debt <= Balance(t.world.native, liquidator)
         && !Backed(Get(b.collateral, borrower), debt, Tolerance(b)))
  {
    var w, b := t.world, t.world.book;
    var collateral, debt := Get(b.collateral, borrower), Get(b.borrowed, borrower);
    NonNegativePosition(b, borrower);
    if 0 < debt {
      HealthyExactly(collateral, debt, b.threshold, b.exchangeRate);
      SeizableBounds(b, debt);
      EntryAtMostSum(b.collateral, borrower);
    }
  }

  /** No liquidation over whole runs. Whatever is deposited, withdrawn, borrowed, repaid and
      configured from an empty book on, in every state that tolerates as much as the gates have
      granted at most so far, nobody can be liquidated. The exchange rate may fall. */
  lemma NobodyIsEverLiquidated(t: Tracked, calls: seq<Call>, liquidator: Address, borrower: Address)
    requires Initial(t) && Peak(t, calls) <= Tolerance(Run(t, calls).world.book)
    ensures Liquidate(Run(t, calls).world, liquidator, borrower).Aborted?
  {
    InitialBook(t);
    RunKeepsBacking(t, calls, Tolerance(Run(t, calls).world.book));
    LiquidatableExactly(Run(t, calls), liquidator, borrower);
  }

  /** The collateral factor stays at most the threshold, and neither the threshold nor the
      exchange rate is lowered. */
  ghost predicate Prudent(b: Book, b': Book) {
    b'.collateralFactor <= b'.threshold && b.threshold <= b'.threshold && b.exchangeRate <= b'.exchangeRate
  }

  ghost predicate PrudentRun(t: Tracked, calls: seq<Call>)
    decreases calls
  {
    calls == [] || (Prudent(t.world.book, Step(t, calls[0]).world.book) && PrudentRun(Step(t, calls[0]), calls[1..]))
  }

  /** Prudent configuration is one way to stay tolerant enough. */
  lemma {:induction false} PrudentRunsTolerateTheirPeak(t: Tracked, calls: seq<Call>)
    requires BookInv(t) && t.world.book.collateralFactor <= t.world.book.threshold && PrudentRun(t, calls)
    ensures Tolerance(t.world.book) <= Tolerance(Run(t, calls).world.book)
    ensures Peak(t, calls) <= Tolerance(Run(t, calls).world.book)
    decreases calls
  {
    var b := t.world.book;
    assert Capacity(b) <= Tolerance(b) by { MulLe(b.collateralFactor, b.threshold, b.exchangeRate); }
    if calls != [] {
      var b' := Step(t, calls[0]).world.book;
      StepKeepsBook(t, calls[0]);
      PrudentRunsTolerateTheirPeak(Step(t, calls[0]), calls[1..]);
      assert b.threshold * b.exchangeRate <= b.threshold * b'.exchangeRate by {
        MulLe(b.exchangeRate, b'.exchangeRate, b.threshold);
      }
      assert b.threshold * b'.exchangeRate <= b'.threshold * b'.exchangeRate by {
        MulLe(b.threshold, b'.threshold, b'.exchangeRate);
      }
    }
  }

  /** A change of threshold and rate leaves every position the gates can have granted healthy
      exactly when it tolerates what they grant. */
  lemma ChangeIsSafeExactly(b: Book, threshold: nat, rate: int)
    requires 0 < b.exchangeRate && 0 < rate
    ensures (forall collateral, debt :: 0 <= collateral && 0 < debt <= MaxBorrow(b, collateral) ==>
               RATE <= HealthFactor(collateral, debt, threshold, rate))
            <==> Capacity(b) <= threshold * rate
  {
    var granted, tolerated := Capacity(b), threshold * rate;
    MulNonNegative(b.collateralFactor, b.exchangeRate);
    if granted <= tolerated {
      forall collateral, debt | 0 <= collateral && 0 < debt <= MaxBorrow(b, collateral)
        ensures RATE <= HealthFactor(collateral, debt, threshold, rate)
      {
        GatesAgree(b, collateral, debt);
        HealthyExactly(collateral, debt, threshold, rate);
        BackedMonotone(collateral, debt, granted, collateral, debt, tolerated);
      }
    } else {
      MulNonNegative(threshold, rate);
      GatesAgree(b, BPS * RATE, granted);
      HealthyExactly(BPS * RATE, granted, threshold, rate);
      assert granted <= MaxBorrow(b, BPS * RATE) && HealthFactor(BPS * RATE, granted, threshold, rate) < RATE;
    }
  }

  // --- The configuration alone decides ---

  predicate IsSetter(c: Call) {
    c.RateCall? || c.FactorCall? || c.ThresholdCall? || c.BorrowRateCall?
  }

  /** The same admin and terms, whatever the positions and tokens. */
  ghost predicate SameTerms(w: World, w': World) {
    && w.self == w'.self && w.book.admin == w'.book.admin && w.book.exchangeRate == w'.book.exchangeRate
    && w.book.collateralFactor == w'.book.collateralFactor && w.book.threshold == w'.book.threshold
  }

  /** Setters read and write the terms only. */
  lemma {:induction false} SettersIgnorePositions(t: Tracked, t': Tracked, calls: seq<Call>)
    requires SameTerms(t.world, t'.world) && (forall c :: c in calls ==> IsSetter(c))
    ensures SameTerms(Run(t, calls).world, Run(t', calls).world)
    ensures var w, w' := t.world, Run(t, calls).world;
      && w'.self == w.self && w'.native == w.native && w'.sxlm == w.sxlm
      && w'.book.collateral == w.book.collateral && w'.book.borrowed == w.book.borrowed
    decreases calls
  {
    if calls != [] {
      assert IsSetter(calls[0]);
      SettersIgnorePositions(Step(t, calls[0]), Step(t', calls[0]), calls[1..]);
    }
  }

  /** `t` after a newcomer has pledged BPS * RATE sXLM and borrowed all that the gates grant. */
  function Entered(t: Tracked, user: Address): Tracked {
    Step(Step(t, DepositCall(user, BPS * RATE)), BorrowCall(user, Capacity(t.world.book)))
  }

  /** The newcomer can enter and the liquidator can repay. */
  ghost predicate Ready(t: Tracked, user: Address, liquidator: Address) {
    var w, b := t.world, t.world.book;
    && user != w.self && liquidator != w.self && user != liquidator
    && Get(b.collateral, user) == 0 && Get(b.borrowed, user) == 0 && 0 < b.collateralFactor
    && BPS * RATE <= Balance(w.sxlm, user)
    && Capacity(b) <= Balance(w.native, w.self) && Capacity(b) <= Balance(w.native, liquidator)
  }

  lemma EnteredPosition(t: Tracked, user: Address, liquidator: Address)
    requires BookInv(t) && Ready(t, user, liquidator)
    ensures var t', b := Entered(t, user), t.world.book;
      && BookInv(t') && SameTerms(t.world, t'.world)
      && Get(t'.world.book.collateral, user) == BPS * RATE && Get(t'.world.book.borrowed, user) == Capacity(b)
      && 0 < Capacity(b) <= Balance(t'.world.native, liquidator)
  {
    var t1, granted := Step(t, DepositCall(user, BPS * RATE)), Capacity(t.world.book);
    MulPositive(t.world.book.collateralFactor, t.world.book.exchangeRate);
    StepKeepsBook(t, DepositCall(user, BPS * RATE));
    CollateralSettles(t.world, user, BPS * RATE);
    assert Capacity(t1.world.book) == granted;
    GatesAgree(t1.world.book, BPS * RATE, granted);
    StepKeepsBook(t1, BorrowCall(user, granted));
    DebtSettles(t1.world, user, granted);
  }

  /** Conversely: once a newcomer has entered at the cap, any sequence of setter calls makes it
      liquidatable exactly when it ends up tolerating less than the gates had granted. */
  lemma ConfigurationDecides(t: Tracked, setters: seq<Call>, user: Address, liquidator: Address)
    requires BookInv(t) && Ready(t, user, liquidator) && (forall c :: c in setters ==> IsSetter(c))
    ensures Liquidate(Run(Entered(t, user), setters).world, liquidator, user).Done? <==>
      Tolerance(Run(t, setters).world.book) < Capacity(t.world.book)
  {
    var t1, granted := Entered(t, user), Capacity(t.world.book);
    EnteredPosition(t, user, liquidator);
    RunKeepsBook(t1, setters);
    SettersIgnorePositions(t1, t, setters);
    LiquidatableExactly(Run(t1, setters), liquidator, user);
    var tolerated := Tolerance(Run(t, setters).world.book);
    if granted <= tolerated {
      MulLe(granted, tolerated, BPS * RATE);
    } else {
      MulLt(tolerated, granted, BPS * RATE);
    }
  }

  /** One position of 1000 sXLM at its cap of 700 XLM. */
  function AtCap(): Tracked {
    Tracked(World(0, Ledger(9, map[0 := 1000, 1 := 700, 2 := 5000], map[], 6700),
                     Ledger(8, map[0 := 1000], map[], 1000),
                     Fresh(5, 7000, 8000, 500).(totalCollateral := 1000, totalBorrowed := 700,
                                                collateral := map[1 := 1000], borrowed := map[1 := 700])), 1700, 0)
  }

  lemma AtCapBook()
    ensures BookInv(AtCap())
  {
    SumUpdate(map[], 1 as Address, 1000);
    assert map[][1 as Address := 1000] == AtCap().world.book.collateral;
    SumUpdate(map[], 1 as Address, 700);
    assert map[][1 as Address := 700] == AtCap().world.book.borrowed;
  }

  /** The bound on the rate and the threshold cannot be dropped ... */
  lemma RateAndThresholdMatter()
    ensures var t := AtCap();
      && BookInv(t)
      && Liquidate(t.world, 2, 1) == Aborted(PositionHealthy)
      && Liquidate(Step(t, RateCall(8_000_000)).world, 2, 1).Done?
      && Liquidate(Step(t, ThresholdCall(6_000)).world, 2, 1).Done?
  {
    AtCapBook();
  }

  /** ... nor the one on the collateral factor. */
  lemma FactorMatters()
    ensures BookInv(AtCap())
    ensures Liquidate(Step(Step(AtCap(), FactorCall(9_000)), BorrowCall(1, 200)).world, 2, 1).Done?
  {
    AtCapBook();
    var b := AtCap().world.book;
    var risky := Step(Step(AtCap(), FactorCall(9_000)), BorrowCall(1, 200)).world;
    assert risky.book == b.(collateralFactor := 9_000, totalBorrowed := 900, borrowed := map[1 := 900]);
  }

  // --- Liquidation ---

  /** Two nested floors: what the liquidator is due is worth at most the debt with its bonus
      and falls short of that by less than `exchangeRate + RATE`, in units of 1 / (BPS * RATE). */
  lemma SeizableBounds(b: Book, debt: int)
    requires 0 < b.exchangeRate && 0 <= b.bonus && 0 <= debt
    ensures var due := Seizable(b, debt);
      && 0 <= due
      && due * b.exchangeRate * BPS <= debt * (BPS + b.bonus) * RATE
      && debt * (BPS + b.bonus) * RATE < due * b.exchangeRate * BPS + (b.exchangeRate + RATE) * BPS
  {
    var n := debt * (BPS + b.bonus);
    MulNonNegative(debt, BPS + b.bonus);
    Floor(n, BPS);
    FloorAtLeast(0, n, BPS);
    var owed := n / BPS;
    Floor(owed * RATE, b.exchangeRate);
    FloorAtLeast(0, owed * RATE, b.exchangeRate);
    var due := owed * RATE / b.exchangeRate;
    assert (due + 1) * b.exchangeRate == due * b.exchangeRate + b.exchangeRate;
    assert due * b.exchangeRate * BPS <= owed * RATE * BPS;
  }

  /** A liquidation repays the whole debt from the liquidator and clears it; the seized
      collateral never exceeds what was pledged or what the debt and bonus are worth; and either
      everything is seized or the liquidator falls short of debt and bonus only by rounding.
      Nobody else's position changes. */
  lemma LiquidationOutcome(t: Tracked, liquidator: Address, borrower: Address)
    requires BookInv(t) && Liquidate(t.world, liquidator, borrower).Done?
    ensures var b, o := t.world.book, Liquidate(t.world, liquidator, borrower);
      var b', seized := o.state.book, o.value;
      var collateral, debt := Get(b.collateral, borrower), Get(b.borrowed, borrower);
      && 0 <= seized <= collateral
      && seized * b.exchangeRate * BPS <= debt * (BPS + b.bonus) * RATE
      && (seized == collateral
          || debt * (BPS + b.bonus) * RATE < seized * b.exchangeRate * BPS + (b.exchangeRate + RATE) * BPS)
      && Get(b'.borrowed, borrower) == 0 && Get(b'.collateral, borrower) == collateral - seized
      && (forall u :: u != borrower ==>
            Get(b'.borrowed, u) == Get(b.borrowed, u) && Get(b'.collateral, u) == Get(b.collateral, u))
      && Moved(t.world.native, o.state.native, liquidator, t.world.self, debt)
      && Moved(t.world.sxlm, o.state.sxlm, t.world.self, liquidator, seized)
  {
    var w, b, o := t.world, t.world.book, Liquidate(t.world, liquidator, borrower);
    var debt := Get(b.borrowed, borrower);
    NonNegativePosition(b, borrower);
    SeizableBounds(b, debt);
    TransferMoves(w.native, liquidator, w.self, debt);
    TransferMoves(w.sxlm, w.self, liquidator, o.value);
    if Seizable(b, debt) > o.value {
      MulLe(o.value, Seizable(b, debt), b.exchangeRate);
    }
  }
}
