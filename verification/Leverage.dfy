/** Looped staking over the reals: stake, borrow a fraction `c` of the deposit, stake that. */
module Loops {

  function Pow(c: real, n: nat): real {
    if n == 0 then 1.0 else c * Pow(c, n - 1)
  }

  /** What is staked after `n` loops: P + Pc + ... + Pc^(n-1). */
  function Staked(p: real, c: real, n: nat): real {
    if n == 0 then 0.0 else Staked(p, c, n - 1) + p * Pow(c, n - 1)
  }

  /** What is borrowed after `n` loops: Pc + Pc^2 + ... + Pc^n. */
  function Borrowed(p: real, c: real, n: nat): real {
    if n == 0 then 0.0 else Borrowed(p, c, n - 1) + p * Pow(c, n)
  }

  /** What the first loop deposits and borrows, and how a loan follows from the one before. */
  lemma FirstAndNext(p: real, c: real, i: nat)
    ensures p * Pow(c, 0) == p && Staked(p, c, 1) == p && Borrowed(p, c, 1) == p * Pow(c, 1)
    ensures p * Pow(c, i + 1) == p * Pow(c, i) * c
  {
    assert Pow(c, 0) == 1.0 && Staked(p, c, 0) == 0.0 && Borrowed(p, c, 0) == 0.0;
    var q := Pow(c, i);
    assert p * (c * q) == p * q * c;
  }

  /** The yield of `n` loops at the staking rate `r` and the borrowing rate `b`. */
  function NetYield(p: real, c: real, n: nat, r: real, b: real): real {
    Staked(p, c, n) * r - Borrowed(p, c, n) * b
  }

  lemma {:induction false} PowBounds(c: real, n: nat)
    requires 0.0 < c < 1.0
    ensures 0.0 < Pow(c, n) <= 1.0 && (0 < n ==> Pow(c, n) < 1.0)
  {
    if n != 0 {
      PowBounds(c, n - 1);
      Product(c, Pow(c, n - 1));
    }
  }

  lemma Product(x: real, y: real)
    requires 0.0 < x < 1.0 && 0.0 < y <= 1.0
    ensures 0.0 < x * y <= x && x * y <= y
  {
  }

  lemma NextPow(c: real, n: nat)
    requires 0.0 < c < 1.0
    ensures Pow(c, n + 1) <= Pow(c, n)
  {
    PowBounds(c, n);
    Shrinks(c, Pow(c, n), Pow(c, n + 1));
  }

  lemma Shrinks(c: real, q: real, next: real)
    requires 0.0 < c < 1.0 && 0.0 < q <= 1.0 && next == c * q
    ensures next <= q
  {
    Product(c, q);
  }

  lemma {:induction false} PowDecreases(c: real, m: nat, n: nat)
    requires 0.0 < c < 1.0 && m <= n
    ensures Pow(c, n) <= Pow(c, m)
    decreases n
  {
    if m < n {
      PowDecreases(c, m, n - 1);
      NextPow(c, n - 1);
    }
  }

  lemma ProductLe(x: real, y: real, z: real)
    requires x <= y && 0.0 <= z
    ensures x * z <= y * z
  {
  }

  /** Scaling by smaller factors keeps a product small. */
  lemma ScaledDown(x: real, y: real, gain: real, low: real, high: real)
    requires 0.0 < x <= y && low == x * gain && high == y * gain && high < 1.0
    ensures low < 1.0
  {
    if gain >= 0.0 {
      assert low <= high by { ProductLe(x, y, gain); }
    } else {
      assert low <= 0.0 by { ProductLe(gain, 0.0, x); }
    }
  }

  lemma NonNegativeProduct(x: real, y: real)
    requires 0.0 <= x && 0.0 <= y
    ensures 0.0 <= x * y
  {
  }

  lemma Cancel(x: real, y: real, z: real)
    requires x * z == y * z && z != 0.0
    ensures x == y
  {
    assert (x - y) * z == 0.0;
  }

  lemma Quotient(x: real, y: real)
    requires y != 0.0
    ensures x / y * y == x
  {
  }

  /** Bounds on a quotient by a positive number. */
  lemma QuotientBounds(bound: real, x: real, y: real)
    requires 0.0 < y
    ensures bound * y < x ==> bound < x / y
    ensures bound * y <= x ==> bound <= x / y
  {
    Quotient(x, y);
    if x / y <= bound { NonNegativeProduct(bound - x / y, y); }
  }

  lemma {:induction false} BorrowedIsFraction(p: real, c: real, n: nat)
    ensures Borrowed(p, c, n) == c * Staked(p, c, n)
  {
    if n != 0 {
      BorrowedIsFraction(p, c, n - 1);
      var q := Pow(c, n - 1);
      assert p * (c * q) == c * (p * q);
      assert c * (Staked(p, c, n - 1) + p * q) == c * Staked(p, c, n - 1) + c * (p * q);
    }
  }

  /** The debt is the stake without the principal, plus the last loan, which is not staked. */
  lemma {:induction false} BorrowedIsStakeless(p: real, c: real, n: nat)
    ensures Borrowed(p, c, n) == Staked(p, c, n) - p + p * Pow(c, n)
  {
    if n != 0 {
      BorrowedIsStakeless(p, c, n - 1);
    }
  }

  /** The geometric series in closed form, and the debt as a fraction of the stake. */
  lemma ClosedForm(p: real, c: real, n: nat)
    ensures Staked(p, c, n) * (1.0 - c) == p * (1.0 - Pow(c, n))
    ensures Borrowed(p, c, n) == c * Staked(p, c, n) == Staked(p, c, n) - p + p * Pow(c, n)
  {
    BorrowedIsFraction(p, c, n);
    BorrowedIsStakeless(p, c, n);
    Factored(p, c, Staked(p, c, n), Pow(c, n));
  }

  lemma Factored(p: real, c: real, staked: real, q: real)
    requires c * staked == staked - p + p * q
    ensures staked * (1.0 - c) == p * (1.0 - q)
  {
  }

  /** The leverage stays below 1 / (1 - c), which the engine calls the maximum. */
  lemma BelowMaximum(p: real, c: real, n: nat)
    requires 0.0 < p && 0.0 < c < 1.0
    ensures Staked(p, c, n) / p < 1.0 / (1.0 - c)
  {
    ClosedForm(p, c, n);
    PowBounds(c, n);
    LeverageBelow(Staked(p, c, n), p, 1.0 - c, Pow(c, n));
  }

  lemma LeverageBelow(staked: real, p: real, room: real, left: real)
    requires 0.0 < p && 0.0 < room && 0.0 < left && staked * room == p * (1.0 - left)
    ensures staked / p < 1.0 / room
  {
    var leverage := staked / p;
    Quotient(staked, p);
    assert leverage * room * p == leverage * p * room;
    Cancel(leverage * room, 1.0 - left, p);
    QuotientBounds(leverage, 1.0, room);
  }

  /** The yield that the head of the file documents: L = 1 / (1 - c), and per unit of principal
      (L * r) - ((L - 1) * b). */
  function DocumentedYield(p: real, c: real, r: real, b: real): real
    requires c != 1.0
  {
    var leverage := 1.0 / (1.0 - c);
    p * (leverage * r - (leverage - 1.0) * b)
  }

  /** What the last of `n` loops borrows, which is not staked again. */
  function LastLoan(p: real, c: real, n: nat): real {
    p * Pow(c, n)
  }

  lemma DocumentedYieldScaled(p: real, c: real, r: real, b: real, room: real, margin: real, documented: real)
    requires room == 1.0 - c && room != 0.0 && margin == r - c * b && documented == DocumentedYield(p, c, r, b)
    ensures documented * room == p * margin
  {
    var leverage := 1.0 / room;
    Quotient(1.0, room);
    assert (leverage * r - (leverage - 1.0) * b) * room == margin by { ScaledRate(r, b, leverage, room, c); }
    Regroup(leverage * r - (leverage - 1.0) * b, room, p, margin);
  }

  lemma ScaledRate(r: real, b: real, leverage: real, room: real, c: real)
    requires leverage * room == 1.0 && room == 1.0 - c
    ensures (leverage * r - (leverage - 1.0) * b) * room == r - c * b
  {
    assert (leverage * r - (leverage - 1.0) * b) * room == leverage * room * r - (leverage * room - room) * b;
  }

  lemma Regroup(x: real, room: real, y: real, product: real)
    requires x * room == product
    ensures x * y * room == product * y && y * x * room == y * product
  {
    assert x * y * room == x * room * y && y * x * room == x * room * y;
  }

  lemma NetYieldScaled(p: real, c: real, n: nat, r: real, b: real, room: real, margin: real, left: real, net: real)
    requires room == 1.0 - c && margin == r - c * b && left == Pow(c, n) && net == NetYield(p, c, n, r, b)
    ensures net * room == p * (1.0 - left) * margin
  {
    var staked, borrowed := Staked(p, c, n), Borrowed(p, c, n);
    assert staked * room == p * (1.0 - left) && borrowed == c * staked by {
      ClosedFormOf(p, c, n, staked, borrowed, left, room);
    }
    assert net == staked * margin by { YieldOfStake(staked, borrowed, c, r, b, margin); }
    Regroup(staked, room, margin, p * (1.0 - left));
  }

  lemma YieldOfStake(staked: real, borrowed: real, c: real, r: real, b: real, margin: real)
    requires borrowed == c * staked && margin == r - c * b
    ensures staked * r - borrowed * b == staked * margin
  {
  }

  lemma ClosedFormOf(p: real, c: real, n: nat, staked: real, borrowed: real, left: real, room: real)
    requires staked == Staked(p, c, n) && borrowed == Borrowed(p, c, n) && left == Pow(c, n) && room == 1.0 - c
    ensures staked * room == p * (1.0 - left) && borrowed == c * staked
  {
    ClosedForm(p, c, n);
  }

  /** The documented yield misses the simulated one, scaled by 1 - c, by the last loan
      times the margin r - c * b. It overstates exactly when that margin is positive, and
      understates exactly when it is negative, as at the engine's default rates. */
  lemma DocumentedYieldGap(p: real, c: real, n: nat, r: real, b: real)
    requires 0.0 < p && 0.0 < c < 1.0
    ensures var gap, room := DocumentedYield(p, c, r, b) - NetYield(p, c, n, r, b), 1.0 - c;
      var margin, loan := r - c * b, LastLoan(p, c, n);
      gap * room == loan * margin && (0.0 < gap <==> c * b < r) && (gap < 0.0 <==> r < c * b)
  {
    var documented, net := DocumentedYield(p, c, r, b), NetYield(p, c, n, r, b);
    var room, margin, left, loan := 1.0 - c, r - c * b, Pow(c, n), LastLoan(p, c, n);
    assert documented * room == p * margin by { DocumentedYieldScaled(p, c, r, b, room, margin, documented); }
    assert net * room == p * (1.0 - left) * margin by { NetYieldScaled(p, c, n, r, b, room, margin, left, net); }
    PowBounds(c, n);
    var gap := documented - net;
    SignOfGap(documented, net, gap, room, p, left, loan, margin);
  }

  lemma SignOfGap(documented: real, net: real, gap: real, room: real, p: real, left: real, loan: real, margin: real)
    requires 0.0 < room && 0.0 < p && 0.0 < left && gap == documented - net && loan == p * left
    requires documented * room == p * margin && net * room == p * (1.0 - left) * margin
    ensures gap * room == loan * margin && (0.0 < gap <==> 0.0 < margin) && (gap < 0.0 <==> margin < 0.0)
  {
    assert p * (1.0 - left) * margin == p * margin - p * left * margin;
    assert gap * room == loan * margin;
    assert 0.0 < loan by { Positive(p, left); }
    SameSign(gap, room, loan, margin);
  }

  lemma Positive(x: real, y: real)
    requires 0.0 < x && 0.0 < y
    ensures 0.0 < x * y
  {
  }

  lemma SameSign(x: real, a: real, b: real, y: real)
    requires 0.0 < a && 0.0 < b && x * a == b * y
    ensures 0.0 < x <==> 0.0 < y
    ensures x < 0.0 <==> y < 0.0
  {
    if x <= 0.0 { ProductLe(x, 0.0, a); }
    if 0.0 <= x { NonNegativeProduct(x, a); }
    if y <= 0.0 { ProductLe(y, 0.0, b); }
    if 0.0 <= y { NonNegativeProduct(y, b); }
    if x == 0.0 { assert y == 0.0 by { Cancel(y, 0.0, b); } }
    if y == 0.0 { assert x == 0.0 by { Cancel(x, 0.0, a); } }
  }

  /** One more loop adds its deposit's staking yield less its borrowing cost. */
  function Marginal(p: real, c: real, n: nat, r: real, b: real): real
    requires 0 < n
  {
    NetYield(p, c, n, r, b) - NetYield(p, c, n - 1, r, b)
  }

  lemma MarginalIs(p: real, c: real, n: nat, r: real, b: real, gain: real)
    requires 0 < n && gain == p * (r - c * b)
    ensures Marginal(p, c, n, r, b) == Pow(c, n - 1) * gain
  {
    var q := Pow(c, n - 1);
    assert Borrowed(p, c, n) == Borrowed(p, c, n - 1) + p * (c * q);
    assert Staked(p, c, n) * r == Staked(p, c, n - 1) * r + p * q * r;
    assert Borrowed(p, c, n) * b == Borrowed(p, c, n - 1) * b + p * (c * q) * b;
    assert q * (p * (r - c * b)) == p * q * r - p * (c * q) * b;
  }

  /** Once a loop adds less than one unit, every later loop does as well. `MarginalCanBeLow`
      gives a loop that does. */
  lemma MarginalStaysLow(p: real, c: real, m: nat, n: nat, r: real, b: real)
    requires 0.0 < c < 1.0 && 0 < m <= n && Marginal(p, c, m, r, b) < 1.0
    ensures Marginal(p, c, n, r, b) < 1.0
  {
    var gain := p * (r - c * b);
    MarginalIs(p, c, n, r, b, gain);
    MarginalIs(p, c, m, r, b, gain);
    LowStaysLow(c, m, n, gain, Marginal(p, c, n, r, b), Marginal(p, c, m, r, b));
  }

  lemma LowStaysLow(c: real, m: nat, n: nat, gain: real, low: real, high: real)
    requires 0.0 < c < 1.0 && 0 < m <= n && high < 1.0
    requires low == Pow(c, n - 1) * gain && high == Pow(c, m - 1) * gain
    ensures low < 1.0
  {
    PowDecreases(c, m - 1, n - 1);
    PowBounds(c, n - 1);
    ScaledDown(Pow(c, n - 1), Pow(c, m - 1), gain, low, high);
  }

  /** A loop can add little: it does at equal rates of zero. */
  lemma MarginalCanBeLow()
    ensures Marginal(1000.0, 0.5, 1, 0.0, 0.0) < 1.0
  {
    MarginalIs(1000.0, 0.5, 1, 0.0, 0.0, 0.0);
  }

  /** `best` separates the loops worth at least one unit from those worth less. */
  ghost predicate StopsRight(c: real, r: real, b: real, best: nat) {
    forall n: nat :: 2 <= n <= 20 ==> (n <= best <==> 1.0 <= Marginal(1000.0, c, n, r, b))
  }

  /** Then, charging one unit per loop, no loop count up to 20 does better. */
  lemma {:induction false} BestNetOfOnePerLoop(c: real, r: real, b: real, best: nat, n: nat)
    requires 1 <= best <= 20 && 1 <= n <= 20 && StopsRight(c, r, b, best)
    ensures NetYield(1000.0, c, n, r, b) - n as real <= NetYield(1000.0, c, best, r, b) - best as real
    decreases if n < best then best - n else n - best
  {
    if n < best {
      BestNetOfOnePerLoop(c, r, b, best, n + 1);
      assert 1.0 <= Marginal(1000.0, c, n + 1, r, b);
    } else if best < n {
      BestNetOfOnePerLoop(c, r, b, best, n - 1);
      assert !(1.0 <= Marginal(1000.0, c, n, r, b));
    }
  }
}

/** The leverage engine: `simulate` and `optimal`. */
module LeverageEngine {
  import opened Loops

  datatype LoopDetail = LoopDetail(loop: int, deposited: real, borrowed: real, totalStaked: real, totalBorrowed: real)

  datatype Simulation = Simulation(
    maxLeverage: real,
    effectiveLeverage: real,
    totalStaked: real,
    totalBorrowed: real,
    netYieldPercent: real,
    grossYield: real,
    borrowCost: real,
    netYield: real,
    loops: seq<LoopDetail>)

  datatype Optimum = Optimum(collateralFactor: real, maxLeverage: real, optimalLoops: nat,
                             stakingAPR: real, borrowAPR: real, netYieldPercent: real)

  /** Loop `i` deposits P * c^i and borrows P * c^(i+1), with the totals after it. */
  function Detail(p: real, c: real, i: nat): LoopDetail {
    LoopDetail(i + 1, p * Pow(c, i), p * Pow(c, i + 1), Staked(p, c, i + 1), Borrowed(p, c, i + 1))
  }

  /** Each loop deposits what the one before borrowed, borrows the fraction `c` of that, and adds
      both to the totals; the first deposits the principal. */
  lemma DetailsChain(p: real, c: real, i: nat)
    ensures var d := Detail(p, c, i);
      && d.loop == i + 1 && d.borrowed == d.deposited * c
      && (i == 0 ==> d.deposited == p && d.totalStaked == p && d.totalBorrowed == d.borrowed)
      && (0 < i ==>
            var before := Detail(p, c, i - 1);
            && d.deposited == before.borrowed
            && d.totalStaked == before.totalStaked + d.deposited
            && d.totalBorrowed == before.totalBorrowed + d.borrowed)
  {
    FirstAndNext(p, c, i);
  }

  /** The loop of `simulate`: the totals, and one detail per loop. */
  method RunLoops(principal: real, loops: nat, c: real)
    returns (totalStaked: real, totalBorrowed: real, details: seq<LoopDetail>)
    ensures totalStaked == Staked(principal, c, loops) && totalBorrowed == Borrowed(principal, c, loops)
    ensures |details| == loops && forall i :: 0 <= i < loops ==> details[i] == Detail(principal, c, i)
  {
    var currentDeposit := principal;
    totalStaked, totalBorrowed, details := 0.0, 0.0, [];
    for i := 0 to loops
      invariant currentDeposit == principal * Pow(c, i)
      invariant totalStaked == Staked(principal, c, i) && totalBorrowed == Borrowed(principal, c, i)
      invariant |details| == i && forall j :: 0 <= j < i ==> details[j] == Detail(principal, c, j)
    {
      totalStaked := totalStaked + currentDeposit;
      var borrowed := currentDeposit * c;
      assert borrowed == principal * Pow(c, i + 1);
      totalBorrowed := totalBorrowed + borrowed;
      details := details + [LoopDetail(i + 1, currentDeposit, borrowed, totalStaked, totalBorrowed)];
      currentDeposit := borrowed;
    }
  }

  method Simulate(principal: real, loops: nat, c: real, stakingAPR: real, borrowAPR: real) returns (s: Simulation)
    requires 0.0 < principal && 0.0 < c < 1.0
    ensures s.totalStaked == Staked(principal, c, loops) && s.totalBorrowed == Borrowed(principal, c, loops)
    ensures s.totalStaked * (1.0 - c) == principal * (1.0 - Pow(c, loops))
    ensures s.totalBorrowed == c * s.totalStaked == s.totalStaked - principal + principal * Pow(c, loops)
    ensures s.effectiveLeverage == s.totalStaked / principal < s.maxLeverage == 1.0 / (1.0 - c)
    ensures s.grossYield == Staked(principal, c, loops) * stakingAPR
    ensures s.borrowCost == Borrowed(principal, c, loops) * borrowAPR
    ensures s.netYield == NetYield(principal, c, loops, stakingAPR, borrowAPR) == s.grossYield - s.borrowCost
    ensures s.netYieldPercent == s.netYield / principal * 100.0
    ensures |s.loops| == loops && forall i :: 0 <= i < loops ==> s.loops[i] == Detail(principal, c, i)
  {
    var maxLeverage := 1.0 / (1.0 - c);
    var totalStaked, totalBorrowed, details := RunLoops(principal, loops, c);
    var grossYield, borrowCost := totalStaked * stakingAPR, totalBorrowed * borrowAPR;
    var netYield := grossYield - borrowCost;
    ClosedForm(principal, c, loops);
    BelowMaximum(principal, c, loops);
    s := Simulation(maxLeverage, totalStaked / principal, totalStaked, totalBorrowed,
                    netYield / principal * 100.0, grossYield, borrowCost, netYield, details);
  }

  /** The greedy search stops at the right place: exactly the loops up to the answer add at
      least one unit (0.1% of 1000), so no count up to 20 has a better yield net of one unit
      per loop. */
  method Optimal(stakingAPR: real, borrowAPR: real, c: real) returns (o: Optimum)
    requires 0.0 < c < 1.0
    ensures 1 <= o.optimalLoops <= 20 && StopsRight(c, stakingAPR, borrowAPR, o.optimalLoops)
    ensures forall n: nat :: 1 <= n <= 20 ==>
      NetYield(1000.0, c, n, stakingAPR, borrowAPR) - n as real
        <= NetYield(1000.0, c, o.optimalLoops, stakingAPR, borrowAPR) - o.optimalLoops as real
    ensures o == Optimum(c, 1.0 / (1.0 - c), o.optimalLoops, stakingAPR, borrowAPR,
                         NetYield(1000.0, c, o.optimalLoops, stakingAPR, borrowAPR) / 1000.0 * 100.0)
  {
    var maxLeverage := 1.0 / (1.0 - c);
    var bestLoops: nat, prevNetYield := 1, 0.0;
    var loops: nat := 1;
    while loops <= 20
      invariant 1 <= loops <= 21
      invariant loops == 1 ==> bestLoops == 1
      invariant 1 < loops ==>
        bestLoops == loops - 1 && prevNetYield == NetYield(1000.0, c, bestLoops, stakingAPR, borrowAPR)
      invariant forall n: nat :: 2 <= n < loops ==> 1.0 <= Marginal(1000.0, c, n, stakingAPR, borrowAPR)
    {
      var result := Simulate(1000.0, loops, c, stakingAPR, borrowAPR);
      if loops > 1 && result.netYield - prevNetYield < 1.0 {
        forall n: nat | loops <= n ensures Marginal(1000.0, c, n, stakingAPR, borrowAPR) < 1.0 {
          MarginalStaysLow(1000.0, c, loops, n, stakingAPR, borrowAPR);
        }
        break;
      }
      bestLoops := loops;
      prevNetYield := result.netYield;
      loops := loops + 1;
    }
    assert StopsRight(c, stakingAPR, borrowAPR, bestLoops);
    forall n: nat | 1 <= n <= 20
      ensures NetYield(1000.0, c, n, stakingAPR, borrowAPR) - n as real
        <= NetYield(1000.0, c, bestLoops, stakingAPR, borrowAPR) - bestLoops as real
    {
      BestNetOfOnePerLoop(c, stakingAPR, borrowAPR, bestLoops, n);
    }
    var finalResult := Simulate(1000.0, bestLoops, c, stakingAPR, borrowAPR);
    o := Optimum(c, maxLeverage, bestLoops, stakingAPR, borrowAPR, finalResult.netYieldPercent);
  }
}

/** The restaking engine's `simulate`. */
module RestakingEngine {
  import opened Loops

  datatype Action = Stake | DepositCollateral | Borrow

  /** JavaScript's Infinity stands for the health of a position without debt. */
  datatype Health = Infinite | Factor(value: real)

  datatype LoopStep = LoopStep(
    step: int,
    action: Action,
    amount: real,
    totalStaked: real,
    totalBorrowed: real,
    health: Health)

  datatype Simulation = Simulation(
    initialDeposit: real,
    loops: nat,
    totalStaked: real,
    totalBorrowed: real,
    effectiveLeverage: real,
    estimatedNetAPR: real,
    health: Health,
    steps: seq<LoopStep>)

  function HealthFactor(staked: real, borrowed: real, c: real): real
    requires borrowed != 0.0
  {
    staked * c / borrowed
  }

  function HealthOf(staked: real, borrowed: real, c: real): Health {
    if borrowed > 0.0 then Factor(HealthFactor(staked, borrowed, c)) else Infinite
  }

  predicate AtLeastOne(h: Health) {
    h.Infinite? || 1.0 <= h.value
  }

  /** The three steps of loop `i`: stake, pledge, borrow. */
  function Steps(p: real, c: real, i: nat): seq<LoopStep> {
    var staked, before, after := Staked(p, c, i + 1), Borrowed(p, c, i), Borrowed(p, c, i + 1);
    [LoopStep(i * 3 + 1, Stake, p * Pow(c, i), staked, before, HealthOf(staked, before, c)),
     LoopStep(i * 3 + 2, DepositCollateral, p * Pow(c, i), staked, before, HealthOf(staked, before, c)),
     LoopStep(i * 3 + 3, Borrow, p * Pow(c, i + 1), staked, after, HealthOf(staked, after, c))]
  }

  function AllSteps(p: real, c: real, n: nat): seq<LoopStep> {
    if n == 0 then [] else AllSteps(p, c, n - 1) + Steps(p, c, n - 1)
  }

  /** The steps of loop `i` stand at its place. */
  lemma {:induction false} StepsInOrder(p: real, c: real, n: nat, i: nat)
    requires i < n
    ensures |AllSteps(p, c, n)| == 3 * n && AllSteps(p, c, n)[3 * i..3 * i + 3] == Steps(p, c, i)
  {
    if i < n - 1 {
      StepsInOrder(p, c, n - 1, i);
      assert AllSteps(p, c, n)[3 * i..3 * i + 3] == AllSteps(p, c, n - 1)[3 * i..3 * i + 3];
    } else {
      AllStepsCount(p, c, n - 1);
    }
  }

  lemma {:induction false} AllStepsCount(p: real, c: real, n: nat)
    ensures |AllSteps(p, c, n)| == 3 * n
  {
    if n != 0 { AllStepsCount(p, c, n - 1); }
  }

  /** Health is the staked amount times `c` over the debt; without debt it is infinite. */
  lemma HealthExactly(staked: real, debt: real, c: real)
    ensures HealthOf(staked, debt, c).Infinite? <==> debt <= 0.0
    ensures 0.0 < debt ==> HealthOf(staked, debt, c).value * debt == staked * c
  {
    if 0.0 < debt { Quotient(staked * c, debt); }
  }

  /** The steps of loop `i`: it stakes an amount, pledges as much and borrows the fraction `c` of
      it. The totals add up, and each step shows the health its totals have. */
  ghost predicate OneTurn(stake: LoopStep, pledge: LoopStep, borrow: LoopStep, c: real, i: nat) {
    && stake.step == 3 * i + 1 && pledge.step == 3 * i + 2 && borrow.step == 3 * i + 3
    && stake.action == Stake && pledge.action == DepositCollateral && borrow.action == Borrow
    && pledge == stake.(step := pledge.step, action := pledge.action)
    && borrow.amount == stake.amount * c && borrow.totalStaked == stake.totalStaked
    && borrow.totalBorrowed == stake.totalBorrowed + borrow.amount
    && stake.health == HealthOf(stake.totalStaked, stake.totalBorrowed, c)
    && borrow.health == HealthOf(borrow.totalStaked, borrow.totalBorrowed, c)
  }

  /** A loop stakes what the one before borrowed. */
  ghost predicate Follows(before: LoopStep, stake: LoopStep) {
    && stake.amount == before.amount && stake.totalStaked == before.totalStaked + stake.amount
    && stake.totalBorrowed == before.totalBorrowed
  }

  lemma StepsTurn(p: real, c: real, i: nat)
    ensures OneTurn(Steps(p, c, i)[0], Steps(p, c, i)[1], Steps(p, c, i)[2], c, i)
    ensures 0 < i ==> Follows(Steps(p, c, i - 1)[2], Steps(p, c, i)[0])
  {
    FirstAndNext(p, c, i);
  }

  lemma FirstStep(p: real, c: real)
    ensures var first := Steps(p, c, 0)[0];
      first.amount == p && first.totalStaked == p && first.totalBorrowed == 0.0
  {
    FirstAndNext(p, c, 0);
  }

  /** All steps follow from the principal: the first stakes it, and each loop follows the one before. */
  lemma StepsChain(p: real, c: real, n: nat, i: nat)
    requires i < n
    ensures |AllSteps(p, c, n)| == 3 * n
    ensures var steps := AllSteps(p, c, n);
      && OneTurn(steps[3 * i], steps[3 * i + 1], steps[3 * i + 2], c, i)
      && steps[0].amount == p && steps[0].totalStaked == p && steps[0].totalBorrowed == 0.0
      && (0 < i ==> Follows(steps[3 * i - 1], steps[3 * i]))
  {
    var steps := AllSteps(p, c, n);
    StepsPlaced(p, c, n, i);
    StepsPlaced(p, c, n, 0);
    StepsTurn(p, c, i);
    FirstStep(p, c);
    if 0 < i { StepsPlaced(p, c, n, i - 1); }
  }

  lemma StepsPlaced(p: real, c: real, n: nat, i: nat)
    requires i < n
    ensures |AllSteps(p, c, n)| == 3 * n
    ensures forall j :: 0 <= j < 3 ==> AllSteps(p, c, n)[3 * i + j] == Steps(p, c, i)[j]
  {
    StepsInOrder(p, c, n, i);
    var here := AllSteps(p, c, n)[3 * i..3 * i + 3];
    forall j | 0 <= j < 3 ensures AllSteps(p, c, n)[3 * i + j] == Steps(p, c, i)[j] {
      assert here[j] == Steps(p, c, i)[j];
    }
  }

  lemma {:induction false} BorrowedPositive(p: real, c: real, n: nat)
    requires 0.0 < p && 0.0 < c < 1.0
    ensures 0.0 <= Borrowed(p, c, n) && (0 < n ==> 0.0 < Borrowed(p, c, n))
  {
    if n != 0 {
      BorrowedPositive(p, c, n - 1);
      PowBounds(c, n);
      assert 0.0 < p * Pow(c, n);
    }
  }

  /** With debt at the cap the health factor is exactly one, with less debt at least that. */
  lemma HealthAtCap(staked: real, c: real, cap: real, debt: real)
    requires cap == staked * c && 0.0 < cap && debt <= cap
    ensures HealthOf(staked, cap, c) == Factor(1.0)
    ensures AtLeastOne(HealthOf(staked, debt, c))
  {
    var full := cap / cap;
    assert full * cap == 1.0 * cap by { Quotient(cap, cap); }
    Cancel(full, 1.0, cap);
    if debt > 0.0 {
      QuotientBounds(1.0, cap, debt);
    }
  }

  /** Borrowing brings the health factor to exactly one; before that it is at least one. */
  lemma StepsHealthy(p: real, c: real, i: nat)
    requires 0.0 < p && 0.0 < c < 1.0
    ensures HealthOf(Staked(p, c, i + 1), Borrowed(p, c, i + 1), c) == Factor(1.0)
    ensures AtLeastOne(HealthOf(Staked(p, c, i + 1), Borrowed(p, c, i), c))
  {
    var staked, before, after, lent := Staked(p, c, i + 1), Borrowed(p, c, i), Borrowed(p, c, i + 1), p * Pow(c, i + 1);
    assert after == staked * c by { ClosedForm(p, c, i + 1); }
    assert 0.0 < after by { BorrowedPositive(p, c, i + 1); }
    assert 0.0 <= lent by { PowBounds(c, i + 1); NonNegativeProduct(p, Pow(c, i + 1)); }
    assert after == before + lent;
    HealthAtCap(staked, c, after, before);
  }

  lemma {:induction false} AllStepsHealthy(p: real, c: real, n: nat)
    requires 0.0 < p && 0.0 < c < 1.0
    ensures |AllSteps(p, c, n)| == 3 * n
    ensures forall s :: s in AllSteps(p, c, n) ==>
      AtLeastOne(s.health) && (s.action == Borrow ==> s.health == Factor(1.0))
  {
    if n != 0 {
      AllStepsHealthy(p, c, n - 1);
      StepsHealthy(p, c, n - 1);
    }
  }

  /** The three steps as `simulate` records them in loop `i` are those of `Steps`. */
  lemma Recorded(p: real, c: real, i: nat, amount: real, staked: real, before: real, lent: real, after: real)
    requires 0.0 < p && 0.0 < c < 1.0
    requires amount == p * Pow(c, i) && staked == Staked(p, c, i) + amount
    requires before == Borrowed(p, c, i) && lent == amount * c && after == before + lent
    ensures lent == p * Pow(c, i + 1) && staked == Staked(p, c, i + 1) && after == Borrowed(p, c, i + 1) && 0.0 < after
    ensures Steps(p, c, i) ==
      [LoopStep(i * 3 + 1, Stake, amount, staked, before, HealthOf(staked, before, c)),
       LoopStep(i * 3 + 2, DepositCollateral, amount, staked, before, HealthOf(staked, before, c)),
       LoopStep(i * 3 + 3, Borrow, lent, staked, after, Factor(HealthFactor(staked, after, c)))]
  {
    assert p * (c * Pow(c, i)) == p * Pow(c, i) * c;
    BorrowedPositive(p, c, i + 1);
  }

  /** One turn of the loop: the amount it borrows, the new totals and the three steps it records. */
  method OneLoop(ghost principal: real, c: real, i: nat, amount: real, staked: real, borrowed: real)
    returns (lent: real, totalStaked: real, totalBorrowed: real, steps: seq<LoopStep>)
    requires 0.0 < principal && 0.0 < c < 1.0
    requires amount == principal * Pow(c, i)
    requires staked == Staked(principal, c, i) && borrowed == Borrowed(principal, c, i)
    ensures lent == principal * Pow(c, i + 1)
    ensures totalStaked == Staked(principal, c, i + 1) && totalBorrowed == Borrowed(principal, c, i + 1)
    ensures steps == Steps(principal, c, i)
  {
    totalStaked := staked + amount;
    lent := amount * c;
    totalBorrowed := borrowed + lent;
    Recorded(principal, c, i, amount, totalStaked, borrowed, lent, totalBorrowed);
    var health := HealthOf(totalStaked, borrowed, c);
    steps := [LoopStep(i * 3 + 1, Stake, amount, totalStaked, borrowed, health)];
    steps := steps + [LoopStep(i * 3 + 2, DepositCollateral, amount, totalStaked, borrowed, health)];
    var hf := HealthFactor(totalStaked, totalBorrowed, c);
    steps := steps + [LoopStep(i * 3 + 3, Borrow, lent, totalStaked, totalBorrowed, Factor(hf))];
  }

  /** The loop of `simulate`: the totals, and three recorded steps per loop. */
  method RunLoops(principal: real, loops: nat, c: real)
    returns (totalStaked: real, totalBorrowed: real, steps: seq<LoopStep>)
    requires 0.0 < principal && 0.0 < c < 1.0
    ensures totalStaked == Staked(principal, c, loops) && totalBorrowed == Borrowed(principal, c, loops)
    ensures steps == AllSteps(principal, c, loops)
  {
    steps := [];
    totalStaked, totalBorrowed := 0.0, 0.0;
    var currentAmount := principal;
    for i := 0 to loops
      invariant currentAmount == principal * Pow(c, i)
      invariant totalStaked == Staked(principal, c, i) && totalBorrowed == Borrowed(principal, c, i)
      invariant steps == AllSteps(principal, c, i)
    {
      var recorded: seq<LoopStep>;
      currentAmount, totalStaked, totalBorrowed, recorded :=
        OneLoop(principal, c, i, currentAmount, totalStaked, totalBorrowed);
      steps := steps + recorded;
    }
  }

  /** The totals and the yield are those of the leverage engine; no recorded step has a health
      factor below one, and each borrowing step has exactly one. */
  method Simulate(principal: real, loops: nat, c: real, stakingAPR: real, borrowAPR: real) returns (s: Simulation)
    requires 0.0 < principal && 0.0 < c < 1.0
    ensures s.initialDeposit == principal && s.loops == loops
    ensures s.totalStaked == Staked(principal, c, loops) && s.totalBorrowed == Borrowed(principal, c, loops)
    ensures s.effectiveLeverage == s.totalStaked / principal < 1.0 / (1.0 - c)
    ensures s.estimatedNetAPR == NetYield(principal, c, loops, stakingAPR, borrowAPR) / principal * 100.0
    ensures s.steps == AllSteps(principal, c, loops) && |s.steps| == 3 * loops
    ensures forall step :: step in s.steps ==>
      AtLeastOne(step.health) && (step.action == Borrow ==> step.health == Factor(1.0))
    ensures s.health == if loops == 0 then Infinite else Factor(1.0)
  {
    var totalStaked, totalBorrowed, steps := RunLoops(principal, loops, c);
    var effectiveLeverage := totalStaked / principal;
    var grossYield, borrowCost := totalStaked * stakingAPR, totalBorrowed * borrowAPR;
    var netAPR := (grossYield - borrowCost) / principal * 100.0;
    var finalHealth := HealthOf(totalStaked, totalBorrowed, c);
    FinalFigures(principal, c, loops);
    AllStepsHealthy(principal, c, loops);
    s := Simulation(principal, loops, totalStaked, totalBorrowed, effectiveLeverage, netAPR, finalHealth, steps);
  }

  lemma FinalFigures(p: real, c: real, n: nat)
    requires 0.0 < p && 0.0 < c < 1.0
    ensures Staked(p, c, n) / p < 1.0 / (1.0 - c)
    ensures HealthOf(Staked(p, c, n), Borrowed(p, c, n), c) == if n == 0 then Infinite else Factor(1.0)
  {
    BelowMaximum(p, c, n);
    if 0 < n { StepsHealthy(p, c, n - 1); }
  }
}
