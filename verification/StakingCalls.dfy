/** What each call of the staking contract does, said without the functions that model it: when
    it completes, what it answers and everything it changes. */
module StakingCalls {
  import opened Prelude
  import opened Sums
  import opened Tokens
  import opened Stakes
  import opened StakingRuns
  import opened Arith

  /** A deposit completes exactly when the user has the XLM and at least one sXLM is minted for
      it: one to one while there is no sXLM or nothing is staked, otherwise x * S / T rounded
      down. A negative staked total mints nothing. */
  lemma DepositExactly(w: World, user: Address, x: int)
    requires w.sxlm.minter == w.self && 0 <= w.stake.totalSupply
    ensures var s := w.stake;
      Deposit(w, user, x).Done? <==>
        (!s.paused && user != w.self && 0 < x <= Balance(w.native, user)
         && (s.totalSupply == 0 || s.totalStaked == 0 || 0 < s.totalStaked <= x * s.totalSupply))
    ensures var s, o := w.stake, Deposit(w, user, x); o.Done? ==>
      var m, w' := o.value.minted, o.state;
      && o.value == Deposited(user, x, m) && 0 < m
      && (if s.totalSupply == 0 || s.totalStaked == 0 then m == x else IsFloor(m, x * s.totalSupply, s.totalStaked))
      && Moved(w.native, w'.native, user, w.self, x) && Issued(w.sxlm, w'.sxlm, user, m)
      && w' == World(w.self, w.now, w'.native, w'.sxlm,
                     s.(totalStaked := s.totalStaked + x, totalSupply := s.totalSupply + m))
  {
    var s := w.stake;
    TransferExactly(w.native, user, w.self, x);
    MintExactly(w.sxlm, w.self, user, Minted(s, x));
    if 0 < x && s.totalSupply != 0 && s.totalStaked != 0 { MintedExactly(s, x); }
  }

  lemma MintedExactly(s: Stake, x: int)
    requires 0 < x && 0 < s.totalSupply && s.totalStaked != 0
    ensures 0 < Minted(s, x) <==> 0 < s.totalStaked <= x * s.totalSupply
    ensures 0 < Minted(s, x) ==> IsFloor(Minted(s, x), x * s.totalSupply, s.totalStaked)
  {
    MulPositive(x, s.totalSupply);
    if 0 < s.totalStaked {
      DivPositive(x * s.totalSupply, s.totalStaked);
      DivIsFloor(x * s.totalSupply, s.totalStaked);
    } else {
      QuotientOfSigns(x * s.totalSupply, s.totalStaked);
    }
  }

  lemma QuotientOfSigns(n: int, d: int)
    requires 0 < n && d < 0
    ensures Div(n, d) <= 0
  {
  }

  /** A request completes exactly when the user has the sXLM, it is worth at least one unit, and
      the contract holds the XLM if it is to be paid at once. */
  lemma RequestCompletesExactly(w: World, user: Address, amount: int)
    requires SupplyInv(w)
    ensures var s := w.stake;
      RequestWithdrawal(w, user, amount).Done? <==>
        (!s.paused && user != w.self && 0 < amount <= Balance(w.sxlm, user)
         && s.totalSupply <= amount * s.totalStaked
         && (amount * s.totalStaked < (s.buffer + 1) * s.totalSupply ==>
               amount * s.totalStaked < (Balance(w.native, w.self) + 1) * s.totalSupply))
  {
    var s := w.stake;
    EntryAtMostSum(w.sxlm.balances, user);
    BurnExactly(w.sxlm, w.self, user, amount);
    if 0 < amount && 0 < s.totalSupply {
      WorthReaches(s, amount, s.buffer, Balance(w.native, w.self));
      TransferExactly(w.native, w.self, user, Worth(s, amount));
    }
  }

  /** The XLM for `amount` is positive, within the buffer, within the holdings. */
  lemma WorthReaches(s: Stake, amount: int, buffer: int, held: int)
    requires 0 < amount && 0 < s.totalSupply
    ensures 0 < Worth(s, amount) <==> s.totalSupply <= amount * s.totalStaked
    ensures 0 < Worth(s, amount) ==>
      && IsFloor(Worth(s, amount), amount * s.totalStaked, s.totalSupply)
      && (Worth(s, amount) <= buffer <==> amount * s.totalStaked < (buffer + 1) * s.totalSupply)
      && (Worth(s, amount) <= held <==> amount * s.totalStaked < (held + 1) * s.totalSupply)
  {
    var n, d := amount * s.totalStaked, s.totalSupply;
    DivPositive(n, d);
    if d <= n {
      DivIsFloor(n, d);
      FloorReaches(Div(n, d), n, d, buffer + 1);
      FloorReaches(Div(n, d), n, d, held + 1);
    }
  }

  /** It is answered with amount * T / S rounded down: at once exactly when the buffer has that
      much, and otherwise with a place in the queue. The sXLM is burnt either way. */
  lemma RequestExactly(w: World, user: Address, amount: int)
    requires SupplyInv(w) && RequestWithdrawal(w, user, amount).Done?
    ensures var s, o := w.stake, RequestWithdrawal(w, user, amount);
      var out, w' := o.value.amount, o.state;
      var unlock := w.now + s.cooldown;
      && IsFloor(out, amount * s.totalStaked, s.totalSupply)
      && Issued(w.sxlm, w'.sxlm, user, -amount)
      && (if amount * s.totalStaked < (s.buffer + 1) * s.totalSupply then
            && o.value == PaidInstantly(user, out)
            && Moved(w.native, w'.native, w.self, user, out)
            && w' == World(w.self, w.now, w'.native, w'.sxlm,
                           s.(totalSupply := s.totalSupply - amount, buffer := s.buffer - out,
                              totalStaked := s.totalStaked - out))
          else
            && o.value == Delayed(user, out, s.counter, unlock)
            && w' == World(w.self, w.now, w.native, w'.sxlm,
                           s.(totalSupply := s.totalSupply - amount, counter := s.counter + 1,
                              queue := s.queue[s.counter := Request(s.counter, user, out, unlock, false)])))
  {
    var s := w.stake;
    EntryAtMostSum(w.sxlm.balances, user);
    BurnExactly(w.sxlm, w.self, user, amount);
    WorthReaches(s, amount, s.buffer, Balance(w.native, w.self));
    TransferExactly(w.native, w.self, user, Worth(s, amount));
  }

  /** A claim completes exactly when the request is the user's, open and unlocked, and the
      contract holds the XLM. It pays the request and takes it out of the staked total. */
  lemma ClaimExactly(w: World, user: Address, id: nat)
    ensures ClaimWithdrawal(w, user, id).Done? <==>
      (user != w.self && id in w.stake.queue
       && var r := w.stake.queue[id];
         r.user == user && !r.claimed && r.unlock <= w.now && 0 <= r.amount <= Balance(w.native, w.self))
    ensures var s, o := w.stake, ClaimWithdrawal(w, user, id); o.Done? ==>
      var r, w' := s.queue[id], o.state;
      && o.value == Claimed(user, r.amount, id, w.now)
      && Moved(w.native, w'.native, w.self, user, r.amount)
      && w' == World(w.self, w.now, w'.native, w.sxlm,
                     s.(queue := s.queue[id := Request(r.id, user, r.amount, r.unlock, true)],
                        totalStaked := s.totalStaked - r.amount))
  {
    if id in w.stake.queue { TransferExactly(w.native, w.self, user, w.stake.queue[id].amount); }
  }

  /** Rewards: a tenth, rounded down, to the treasury and the rest to the staked total. */
  lemma RewardsExactly(w: World, amount: int)
    ensures AddRewards(w, amount).Done? <==> w.stake.admin != w.self && 0 < amount
    ensures var s, o := w.stake, AddRewards(w, amount); o.Done? ==>
      var fee := o.value.fee;
      && o.value == Rewarded(amount, amount - fee, fee) && IsFloor(fee, amount, 10)
      && o.state == w.(stake := s.(treasury := s.treasury + fee, totalStaked := s.totalStaked + amount - fee))
  {
  }

  /** The admin takes what it asks for out of the treasury, or all of it by asking for nothing. */
  lemma FeesExactly(w: World, amount: int)
    ensures var due := if 0 < amount then amount else w.stake.treasury;
      && (WithdrawFees(w, amount).Done? <==>
            w.stake.admin != w.self && 0 < due <= w.stake.treasury && due <= Balance(w.native, w.self))
      && (WithdrawFees(w, amount).Done? ==>
            var s, o := w.stake, WithdrawFees(w, amount);
            && o.value == FeesWithdrawn(s.admin, due)
            && Moved(w.native, o.state.native, w.self, s.admin, due)
            && o.state == w.(native := o.state.native, stake := s.(treasury := s.treasury - due)))
  {
    TransferExactly(w.native, w.self, w.stake.admin, if 0 < amount then amount else w.stake.treasury);
  }

  /** A slash takes any part of the staked total, and nothing else. */
  lemma SlashExactly(w: World, amount: int)
    ensures ApplySlashing(w, amount).Done? <==> w.stake.admin != w.self && 0 < amount <= w.stake.totalStaked
    ensures var s, o := w.stake, ApplySlashing(w, amount); o.Done? ==>
      && o.value == Slashed(amount, s.totalStaked - amount)
      && o.state == w.(stake := s.(totalStaked := s.totalStaked - amount))
  {
  }

  /** The admin fills the buffer, and nothing else, with its own XLM. */
  lemma LiquidityExactly(w: World, amount: int)
    ensures AddLiquidity(w, amount).Done? <==>
      w.stake.admin != w.self && 0 < amount <= Balance(w.native, w.stake.admin)
    ensures var s, o := w.stake, AddLiquidity(w, amount); o.Done? ==>
      && o.value == LiquidityAdded(amount)
      && Moved(w.native, o.state.native, s.admin, w.self, amount)
      && o.state == w.(native := o.state.native, stake := s.(buffer := s.buffer + amount))
  {
    TransferExactly(w.native, w.stake.admin, w.self, amount);
  }

  /** Pausing refuses every deposit and request; unpausing leaves them as if there had been no
      pause; claims do not notice. */
  lemma PausingPauses(w: World, user: Address, amount: int, id: nat)
    requires w.stake.admin != w.self
    ensures SetPaused(w, true).Done? && SetPaused(w, false).Done?
    ensures var w' := SetPaused(w, true).state;
      && Deposit(w', user, amount) == Aborted(Paused) && RequestWithdrawal(w', user, amount) == Aborted(Paused)
      && ClaimWithdrawal(w', user, id).Answer() == ClaimWithdrawal(w, user, id).Answer()
      && SetPaused(w', w.stake.paused).Done? && SetPaused(w', w.stake.paused).state == w
    ensures !w.stake.paused ==> SetPaused(w, false).state == w
  {
  }

  /** A new cooldown delays the requests made from then on, and no others. */
  lemma CooldownExactly(w: World, cooldown: nat, user: Address, amount: int)
    requires w.stake.admin != w.self
    ensures SetCooldown(w, cooldown).Done?
    ensures var w', o := SetCooldown(w, cooldown).state, RequestWithdrawal(w, user, amount);
      var o' := RequestWithdrawal(w', user, amount);
      && w'.stake.queue == w.stake.queue && w'.stake.(cooldown := w.stake.cooldown) == w.stake
      && (o'.Done? <==> o.Done?)
      && (o.Done? && o.value.Delayed? ==> o'.value == o.value.(unlock := w.now + cooldown))
      && (o.Done? && !o.value.Delayed? ==> o'.value == o.value)
  {
  }

  /** The new admin, and only it, is the admin from then on. */
  lemma AdminExactly(w: World, admin: Address)
    ensures SetAdmin(w, admin).Done? <==> w.stake.admin != w.self
    ensures SetAdmin(w, admin).Done? ==> SetAdmin(w, admin).state == w.(stake := w.stake.(admin := admin))
  {
  }

  /** The published rate is T / S, scaled and rounded down, and one while there is no sXLM. */
  lemma RateExactly(s: Stake)
    requires 0 <= s.totalSupply && 0 <= s.totalStaked
    ensures s.totalSupply == 0 ==> ExchangeRate(s) == RATE
    ensures 0 < s.totalSupply ==> IsFloor(ExchangeRate(s), s.totalStaked * RATE, s.totalSupply)
  {
    if 0 < s.totalSupply { DivIsFloor(s.totalStaked * RATE, s.totalSupply); }
  }
}
