/** The price of sXLM: what a call, a run, a round trip and a full unwinding do to it. */
module StakingRate {
  import opened Prelude
  import opened Sums
  import opened Tokens
  import opened Stakes
  import opened StakingRuns
  import opened Arith

  /** XLM per sXLM is no lower in `s'` than in `s`. */
  ghost predicate NoLower(s: Stake, s': Stake) {
    s.totalStaked * s'.totalSupply <= s'.totalStaked * s.totalSupply
  }

  lemma NoLowerTransitive(s: Stake, s': Stake, s'': Stake)
    requires 0 <= s.totalSupply && 0 < s'.totalSupply && 0 <= s''.totalSupply
    requires NoLower(s, s') && NoLower(s', s'')
    ensures NoLower(s, s'')
  {
    var a, b, c := s.totalStaked * s''.totalSupply, s'.totalStaked * s.totalSupply, s''.totalStaked * s.totalSupply;
    MulLe(s.totalStaked * s'.totalSupply, s'.totalStaked * s.totalSupply, s''.totalSupply);
    MulLe(s'.totalStaked * s''.totalSupply, s''.totalStaked * s'.totalSupply, s.totalSupply);
    assert a * s'.totalSupply == s.totalStaked * s'.totalSupply * s''.totalSupply;
    assert c * s'.totalSupply == s''.totalStaked * s'.totalSupply * s.totalSupply;
    assert s'.totalStaked * s''.totalSupply * s.totalSupply == s'.totalStaked * s.totalSupply * s''.totalSupply;
    CancelLe(a, c, s'.totalSupply);
  }

  /** Then the published rate is no lower either. */
  lemma NoLowerRate(s: Stake, s': Stake)
    requires 0 <= s.totalStaked && 0 < s.totalSupply && 0 <= s'.totalStaked && 0 < s'.totalSupply
    requires NoLower(s, s')
    ensures ExchangeRate(s) <= ExchangeRate(s')
  {
    var q := ExchangeRate(s);
    Floor(s.totalStaked * RATE, s.totalSupply);
    MulLe(q * s.totalSupply, s.totalStaked * RATE, s'.totalSupply);
    MulLe(s.totalStaked * s'.totalSupply, s'.totalStaked * s.totalSupply, RATE);
    assert q * s.totalSupply * s'.totalSupply == q * s'.totalSupply * s.totalSupply;
    assert s.totalStaked * RATE * s'.totalSupply == s.totalStaked * s'.totalSupply * RATE;
    assert s'.totalStaked * s.totalSupply * RATE == s'.totalStaked * RATE * s.totalSupply;
    CancelLe(q * s'.totalSupply, s'.totalStaked * RATE, s.totalSupply);
    FloorAtLeast(q, s'.totalStaked * RATE, s'.totalSupply);
  }

  lemma DepositRate(w: World, user: Address, amount: int)
    requires SupplyInv(w) && 0 <= w.stake.totalStaked && 0 < w.stake.totalSupply && Deposit(w, user, amount).Done?
    ensures var s, s' := w.stake, Deposit(w, user, amount).state.stake;
      NoLower(s, s') && 0 < s'.totalStaked && s.totalSupply < s'.totalSupply
  {
    var s := w.stake;
    var minted := Minted(s, amount);
    if s.totalSupply != 0 && s.totalStaked != 0 {
      MulPositive(amount, s.totalSupply);
      Floor(amount * s.totalSupply, s.totalStaked);
    }
    if s.totalStaked == 0 { assert s.totalStaked * minted == 0; MulPositive(amount, s.totalSupply); }
    assert s.totalStaked * minted <= amount * s.totalSupply;
    assert s.totalStaked * (s.totalSupply + minted) == s.totalStaked * s.totalSupply + s.totalStaked * minted;
    assert (s.totalStaked + amount) * s.totalSupply == s.totalStaked * s.totalSupply + amount * s.totalSupply;
  }

  /** What `amount` sXLM is worth, and what is left when it leaves. */
  lemma WorthBounds(s: Stake, amount: int)
    requires 0 <= s.totalStaked && 0 < s.totalSupply && 0 <= amount <= s.totalSupply
    ensures var worth := Worth(s, amount);
      && 0 <= worth <= s.totalStaked
      && worth * s.totalSupply <= amount * s.totalStaked
      && s.totalStaked * (s.totalSupply - amount) <= (s.totalStaked - worth) * s.totalSupply
      && (amount == s.totalSupply ==> worth == s.totalStaked)
  {
    MulNonNegative(amount, s.totalStaked);
    MulLe(amount, s.totalSupply, s.totalStaked);
    Floor(amount * s.totalStaked, s.totalSupply);
    FloorAtLeast(0, amount * s.totalStaked, s.totalSupply);
    var worth := Worth(s, amount);
    CancelLe(worth, s.totalStaked, s.totalSupply);
    assert s.totalStaked * (s.totalSupply - amount) == s.totalStaked * s.totalSupply - amount * s.totalStaked;
    assert (s.totalStaked - worth) * s.totalSupply == s.totalStaked * s.totalSupply - worth * s.totalSupply;
    if amount == s.totalSupply {
      FloorAtLeast(s.totalStaked, amount * s.totalStaked, s.totalSupply);
    }
  }

  lemma RequestTotals(w: World, user: Address, amount: int)
    requires SupplyInv(w) && RequestWithdrawal(w, user, amount).Done?
    ensures var s, s' := w.stake, RequestWithdrawal(w, user, amount).state.stake;
      && 0 < amount <= s.totalSupply && s'.totalSupply == s.totalSupply - amount
      && (s'.totalStaked == s.totalStaked || s'.totalStaked == s.totalStaked - Worth(s, amount))
  {
    EntryAtMostSum(w.sxlm.balances, user);
  }

  lemma RequestRate(w: World, user: Address, amount: int)
    requires SupplyInv(w) && 0 <= w.stake.totalStaked && RequestWithdrawal(w, user, amount).Done?
    ensures var s, s' := w.stake, RequestWithdrawal(w, user, amount).state.stake;
      NoLower(s, s') && 0 <= s'.totalStaked && 0 <= s'.totalSupply < s.totalSupply
  {
    RequestTotals(w, user, amount);
    RedeemingKeepsRate(w.stake, RequestWithdrawal(w, user, amount).state.stake, amount);
  }

  lemma RedeemingKeepsRate(s: Stake, s': Stake, amount: int)
    requires 0 <= s.totalStaked && 0 < amount <= s.totalSupply && s'.totalSupply == s.totalSupply - amount
    requires s'.totalStaked == s.totalStaked || s'.totalStaked == s.totalStaked - Worth(s, amount)
    ensures NoLower(s, s') && 0 <= s'.totalStaked
  {
    WorthBounds(s, amount);
    if s'.totalStaked == s.totalStaked {
      MulLe(s'.totalSupply, s.totalSupply, s.totalStaked);
    }
  }

  predicate Lowers(c: Call) {
    c.ClaimCall? || c.SlashCall?
  }

  /** With sXLM before and after, a completed call lowers the rate exactly when it is a claim or a slash. */
  lemma OnlyClaimsAndSlashesLower(h: History, c: Call)
    requires SupplyInv(h.world) && QueueInv(h) && 0 <= h.world.stake.totalStaked
    requires 0 < h.world.stake.totalSupply && 0 < Step(h, c).world.stake.totalSupply
    ensures !NoLower(h.world.stake, Step(h, c).world.stake) <==> (Lowers(c) && Exec(h.world, c).Done?)
    ensures !Lowers(c) ==> 0 <= Step(h, c).world.stake.totalStaked
  {
    var s, o := h.world.stake, Exec(h.world, c);
    if o.Done? {
      var s' := o.state.stake;
      match c
      case DepositCall(user, amount) => DepositRate(h.world, user, amount);
      case RequestCall(user, amount) => RequestRate(h.world, user, amount);
      case ClaimCall(user, id) => MulLt(s'.totalStaked, s.totalStaked, s.totalSupply);
      case SlashCall(amount) => MulLt(s'.totalStaked, s.totalStaked, s.totalSupply);
      case RewardCall(amount) =>
        RewardSplits(h.world, amount);
        MulLe(s.totalStaked, s'.totalStaked, s.totalSupply);
      case _ =>
    }
  }

  /** sXLM exists in every state of the run. */
  ghost predicate StaysIssued(h: History, calls: seq<Call>)
    decreases calls
  {
    0 < h.world.stake.totalSupply && (calls == [] || StaysIssued(Step(h, calls[0]), calls[1..]))
  }

  /** Over any run without claims and slashes, while sXLM exists, the total staked stays
      non-negative and the rate never falls. */
  lemma {:induction false} RateNeverFalls(h: History, calls: seq<Call>)
    requires SupplyInv(h.world) && QueueInv(h) && 0 <= h.world.stake.totalStaked && StaysIssued(h, calls)
    requires forall i :: 0 <= i < |calls| ==> !Lowers(calls[i])
    ensures var s, s' := h.world.stake, Run(h, calls).world.stake;
      0 <= s'.totalStaked && 0 < s'.totalSupply && NoLower(s, s') && ExchangeRate(s) <= ExchangeRate(s')
    decreases calls
  {
    if calls != [] {
      var h' := Step(h, calls[0]);
      StepKeepsSupply(h, calls[0]);
      StepKeepsQueue(h, calls[0]);
      assert 0 < h'.world.stake.totalSupply;
      OnlyClaimsAndSlashesLower(h, calls[0]);
      RateNeverFalls(h', calls[1..]);
      NoLowerTransitive(h.world.stake, h'.world.stake, Run(h', calls[1..]).world.stake);
      NoLowerRate(h.world.stake, Run(h, calls).world.stake);
    }
  }

  // --- Round trip ---

  /** The first deposit, and any deposit while there is no sXLM or nothing is staked, mints one
      to one; on an empty contract that makes the rate exactly one. */
  lemma FirstDeposit(w: World, user: Address, x: int)
    requires Deposit(w, user, x).Done? && (w.stake.totalSupply == 0 || w.stake.totalStaked == 0)
    ensures var o := Deposit(w, user, x);
      && o.value == Deposited(user, x, x)
      && Balance(o.state.sxlm, user) == Balance(w.sxlm, user) + x
      && (w.stake.totalSupply == w.stake.totalStaked == 0 ==> ExchangeRate(o.state.stake) == RATE)
  {
    FloorIs(RATE, x * RATE, x);
  }

  /** XLM is staked that no sXLM stands for. It is reachable: a delayed request burns its sXLM
      at once and leaves its XLM staked until the claim. */
  ghost predicate Stranded(s: Stake) {
    s.totalSupply == 0 && 0 < s.totalStaked
  }

  /** The stake after a deposit of `x`. */
  function AfterDeposit(s: Stake, x: int): Stake {
    s.(totalStaked := s.totalStaked + x, totalSupply := s.totalSupply + Minted(s, x))
  }

  /** Depositing x and redeeming what it minted is worth at most x, and less by only so much ... */
  lemma OrdinaryRoundTrip(s: Stake, x: int)
    requires 0 < s.totalStaked && 0 < s.totalSupply && 0 < x
    ensures var m, out := Minted(s, x), Worth(AfterDeposit(s, x), Minted(s, x));
      0 <= m && 0 <= out <= x && (x - out - 1) * (s.totalSupply + m) < s.totalStaked
  {
    var m, supply, staked := Minted(s, x), s.totalSupply + Minted(s, x), s.totalStaked + x;
    MulPositive(x, s.totalSupply);
    Floor(x * s.totalSupply, s.totalStaked);
    FloorAtLeast(0, x * s.totalSupply, s.totalStaked);
    MulNonNegative(m, staked);
    Floor(m * staked, supply);
    FloorAtLeast(0, m * staked, supply);
    var out := m * staked / supply;
    assert m * staked == m * s.totalStaked + m * x;
    assert (x + 1) * supply == x * s.totalSupply + m * x + supply;
    FloorBelow(x + 1, m * staked, supply);
    assert (x - out - 1) * supply == x * supply - (out + 1) * supply;
    assert x * supply == x * s.totalSupply + m * x;
  }

  /** ... except that the first depositor after a stranding takes the stranded stake as well.
      That is the only exception. */
  lemma RoundTripArithmetic(s: Stake, x: int)
    requires 0 <= s.totalSupply && 0 < x && 0 < Minted(s, x)
    ensures var m, out := Minted(s, x), Worth(AfterDeposit(s, x), Minted(s, x));
      && (out <= x <==> !Stranded(s))
      && (s.totalSupply == 0 ==> out == s.totalStaked + x)
      && (0 < s.totalStaked && 0 < s.totalSupply ==> (x - out - 1) * (s.totalSupply + m) < s.totalStaked)
  {
    if s.totalSupply == 0 {
      WholeSupply(x, s.totalStaked + x);
    } else if s.totalStaked == 0 {
      MulNonNegative(x, x);
      MulPositive(x, s.totalSupply + 1);
      assert x * x < (x + 1) * (s.totalSupply + x);
      FloorBelow(x + 1, x * x, s.totalSupply + x);
    } else if 0 < s.totalStaked {
      OrdinaryRoundTrip(s, x);
    } else {
      NoMintFromNegativeStake(x, s.totalSupply, s.totalStaked);
    }
  }

  lemma WholeSupply(x: int, staked: int)
    requires 0 < x
    ensures Div(x * staked, x) == staked
  {
    if 0 <= staked {
      MulNonNegative(x, staked);
      FloorIs(staked, x * staked, x);
    } else {
      MulPositive(x, -staked);
      assert -(x * staked) == x * (-staked);
      FloorIs(-staked, x * (-staked), x);
    }
  }

  lemma NoMintFromNegativeStake(x: int, supply: int, staked: int)
    requires 0 < x && 0 < supply && staked < 0
    ensures Div(x * supply, staked) <= 0
  {
    MulPositive(x, supply);
  }

  /** A deposit redeemed at once: the request is answered with at most the deposit exactly when
      no stake was stranded; then, with sXLM and XLM there before, it falls short by less than
      one unit plus T / (S + m). After a stranding it is answered with all that is staked. If it
      is paid instantly, the user's native balance changes by exactly the difference. */
  lemma RoundTrip(h: History, user: Address, x: int)
    requires SupplyInv(h.world) && Exec(h.world, DepositCall(user, x)).Done?
    requires Exec(Step(h, DepositCall(user, x)).world,
                  RequestCall(user, Exec(h.world, DepositCall(user, x)).value.minted)).Done?
    ensures var s, m := h.world.stake, Exec(h.world, DepositCall(user, x)).value.minted;
      var o := Exec(Step(h, DepositCall(user, x)).world, RequestCall(user, m));
      var out, unlock := o.value.amount, h.world.now + s.cooldown;
      && (o.value == PaidInstantly(user, out) || o.value == Delayed(user, out, s.counter, unlock))
      && 0 < out && (out <= x <==> !Stranded(s)) && (s.totalSupply == 0 ==> out == s.totalStaked + x)
      && (0 < s.totalStaked && 0 < s.totalSupply ==> (x - out - 1) * (s.totalSupply + m) < s.totalStaked)
      && o.state.stake.totalSupply == s.totalSupply
      && Balance(o.state.sxlm, user) == Balance(h.world.sxlm, user)
      && (o.value.PaidInstantly? ==> Balance(o.state.native, user) == Balance(h.world.native, user) - x + out)
      && (o.value.Delayed? ==> o.state.stake.queue[s.counter] == Request(s.counter, user, out, unlock, false))
  {
    SumNonNegative(h.world.sxlm.balances.Keys, h.world.sxlm.balances);
    RoundTripArithmetic(h.world.stake, x);
    TransferMoves(h.world.native, user, h.world.self, x);
    var w1 := Step(h, DepositCall(user, x)).world;
    var o := Exec(w1, RequestCall(user, Exec(h.world, DepositCall(user, x)).value.minted));
    if o.value.PaidInstantly? { TransferMoves(w1.native, w1.self, user, o.value.amount); }
  }

  /** A queued request is claimed for exactly the amount fixed when it was made, whatever runs
      in between, and only by its user, after its unlock ledger, once. */
  lemma ClaimPaysRequest(h: History, id: nat, calls: seq<Call>, user: Address)
    requires WellNumbered(h.world.stake) && id in h.world.stake.queue
    requires Exec(Run(h, calls).world, ClaimCall(user, id)).Done?
    ensures var r, w := h.world.stake.queue[id], Run(h, calls).world;
      var o := Exec(w, ClaimCall(user, id));
      && user == r.user && !r.claimed && r.unlock <= w.now
      && o.value == Claimed(user, r.amount, id, w.now)
      && Moved(w.native, o.state.native, w.self, user, r.amount)
      && Exec(o.state, ClaimCall(user, id)) == Aborted(AlreadyClaimed)
  {
    RunKeepsRequests(h, calls);
    var w := Run(h, calls).world;
    TransferMoves(w.native, w.self, user, w.stake.queue[id].amount);
  }

  /** The delayed round trip: deposit, request, anything at all, claim. User 1 of
      `StakingUnwind.StakedTotalCanGoNegative` makes one. */
  lemma DelayedRoundTrip(h: History, user: Address, x: int, calls: seq<Call>)
    requires SupplyInv(h.world) && WellNumbered(h.world.stake) && Exec(h.world, DepositCall(user, x)).Done?
    requires var h1 := Step(h, DepositCall(user, x));
      var c2 := RequestCall(user, Exec(h.world, DepositCall(user, x)).value.minted);
      Exec(h1.world, c2).Done? && Exec(h1.world, c2).value.Delayed?
      && Exec(Run(Step(h1, c2), calls).world, ClaimCall(user, h.world.stake.counter)).Done?
    ensures var s, m := h.world.stake, Exec(h.world, DepositCall(user, x)).value.minted;
      var w := Run(Step(Step(h, DepositCall(user, x)), RequestCall(user, m)), calls).world;
      var paid := Exec(w, ClaimCall(user, s.counter)).value;
      && paid.Claimed? && 0 < paid.amount && (paid.amount <= x <==> !Stranded(s))
      && (0 < s.totalStaked && 0 < s.totalSupply ==> (x - paid.amount - 1) * (s.totalSupply + m) < s.totalStaked)
      && h.world.now + s.cooldown <= w.now
  {
    var h1 := Step(h, DepositCall(user, x));
    var c2 := RequestCall(user, Exec(h.world, DepositCall(user, x)).value.minted);
    RoundTrip(h, user, x);
    StepKeepsRequests(h, DepositCall(user, x));
    StepKeepsRequests(h1, c2);
    ClaimPaysRequest(Step(h1, c2), h.world.stake.counter, calls, user);
  }
}
