/** The staking contract as a function on values: what each call does. */
module Stakes {
  import opened Prelude
  import opened Tokens

  const PROTOCOL_FEE_BPS: int := 1000

  datatype Request = Request(id: nat, user: Address, amount: int, unlock: nat, claimed: bool)

  datatype Stake = Stake(
    admin: Address,
    totalStaked: int,
    totalSupply: int,
    buffer: int,
    treasury: int,
    cooldown: nat,
    paused: bool,
    queue: map<nat, Request>,
    counter: nat)

  /** Everything a call of the contract reads and writes. `self` is the contract's address
      and `now` the ledger sequence number. */
  datatype World = World(self: Address, now: nat, native: Ledger, sxlm: Ledger, stake: Stake)

  /** What a completed call reports. */
  datatype Event =
    | Deposited(user: Address, amount: int, minted: int)
    | PaidInstantly(user: Address, amount: int)
    | Delayed(user: Address, amount: int, id: nat, unlock: nat)
    | Claimed(user: Address, amount: int, id: nat, at: nat)
    | Rewarded(amount: int, net: int, fee: int)
    | FeesWithdrawn(admin: Address, amount: int)
    | Slashed(amount: int, newTotal: int)
    | LiquidityAdded(amount: int)
    | NoEvent

  /** The state `initialize` leaves. */
  function Fresh(admin: Address, cooldown: nat): Stake {
    Stake(admin, 0, 0, 0, 0, cooldown, false, map[], 0)
  }

  /** The sXLM minted for a deposit. */
  function Minted(s: Stake, amount: int): int {
    if s.totalSupply == 0 || s.totalStaked == 0 then amount
    else Div(amount * s.totalSupply, s.totalStaked)
  }

  function Deposit(w: World, user: Address, amount: int): Outcome<World, Event> {
    var s := w.stake;
    if s.paused then Aborted(Paused)
    else if user == w.self then Aborted(NotAuthorised)
    else if amount <= 0 then Aborted(NonPositiveAmount)
    else
      var native :- Transfer(w.native, user, w.self, amount);
      var minted := Minted(s, amount);
      if minted <= 0 then Aborted(ZeroMint)
      else
        var sxlm :- Mint(w.sxlm, w.self, user, minted);
        var stake := s.(totalStaked := s.totalStaked + amount, totalSupply := s.totalSupply + minted);
        Done(w.(native := native, sxlm := sxlm, stake := stake), Deposited(user, amount, minted))
  }

  /** The XLM that an amount of sXLM redeems. */
  function Worth(s: Stake, amount: int): int
    requires s.totalSupply != 0
  {
    Div(amount * s.totalStaked, s.totalSupply)
  }

  function RequestWithdrawal(w: World, user: Address, amount: int): Outcome<World, Event> {
    var s := w.stake;
    if s.paused then Aborted(Paused)
    else if user == w.self then Aborted(NotAuthorised)
    else if amount <= 0 then Aborted(NonPositiveAmount)
    else if s.totalSupply == 0 then Aborted(NothingStaked)
    else
      var worth := Worth(s, amount);
      if worth <= 0 then Aborted(ZeroReturn)
      else
        var sxlm :- Burn(w.sxlm, w.self, user, amount);
        if s.buffer >= worth then
          var native :- Transfer(w.native, w.self, user, worth);
          var stake := s.(totalSupply := s.totalSupply - amount,
                          buffer := s.buffer - worth,
                          totalStaked := s.totalStaked - worth);
          Done(w.(native := native, sxlm := sxlm, stake := stake), PaidInstantly(user, worth))
        else
          var id, unlock := s.counter, w.now + s.cooldown;
          var stake := s.(totalSupply := s.totalSupply - amount,
                          counter := id + 1,
                          queue := s.queue[id := Request(id, user, worth, unlock, false)]);
          Done(w.(sxlm := sxlm, stake := stake), Delayed(user, worth, id, unlock))
  }

  function ClaimWithdrawal(w: World, user: Address, id: nat): Outcome<World, Event> {
    var s := w.stake;
    if user == w.self then Aborted(NotAuthorised)
    else if id !in s.queue then Aborted(NoSuchWithdrawal)
    else
      var r := s.queue[id];
      if r.user != user then Aborted(NotYourWithdrawal)
      else if r.claimed then Aborted(AlreadyClaimed)
      else if w.now < r.unlock then Aborted(CooldownNotOver)
      else
        var native :- Transfer(w.native, w.self, user, r.amount);
        var stake := s.(queue := s.queue[id := r.(claimed := true)], totalStaked := s.totalStaked - r.amount);
        Done(w.(native := native, stake := stake), Claimed(user, r.amount, id, w.now))
  }

  /** The rewards are credited; no token moves. */
  function AddRewards(w: World, amount: int): Outcome<World, Event> {
    var s := w.stake;
    if s.admin == w.self then Aborted(NotAuthorised)
    else if amount <= 0 then Aborted(NonPositiveAmount)
    else
      var fee := Div(amount * PROTOCOL_FEE_BPS, BPS);
      Done(w.(stake := s.(treasury := s.treasury + fee, totalStaked := s.totalStaked + (amount - fee))),
           Rewarded(amount, amount - fee, fee))
  }

  /** A non-positive amount asks for the whole treasury. */
  function WithdrawFees(w: World, amount: int): Outcome<World, Event> {
    var s := w.stake;
    var due := if amount <= 0 then s.treasury else amount;
    if s.admin == w.self then Aborted(NotAuthorised)
    else if due <= 0 then Aborted(NoFees)
    else if due > s.treasury then Aborted(TreasuryTooSmall)
    else
      var native :- Transfer(w.native, w.self, s.admin, due);
      Done(w.(native := native, stake := s.(treasury := s.treasury - due)), FeesWithdrawn(s.admin, due))
  }

  function ApplySlashing(w: World, amount: int): Outcome<World, Event> {
    var s := w.stake;
    if s.admin == w.self then Aborted(NotAuthorised)
    else if amount <= 0 then Aborted(NonPositiveAmount)
    else if amount > s.totalStaked then Aborted(SlashTooLarge)
    else Done(w.(stake := s.(totalStaked := s.totalStaked - amount)), Slashed(amount, s.totalStaked - amount))
  }

  function AddLiquidity(w: World, amount: int): Outcome<World, Event> {
    var s := w.stake;
    if s.admin == w.self then Aborted(NotAuthorised)
    else if amount <= 0 then Aborted(NonPositiveAmount)
    else
      var native :- Transfer(w.native, s.admin, w.self, amount);
      Done(w.(native := native, stake := s.(buffer := s.buffer + amount)), LiquidityAdded(amount))
  }

  function SetPaused(w: World, paused: bool): Outcome<World, Event> {
    if w.stake.admin == w.self then Aborted(NotAuthorised)
    else Done(w.(stake := w.stake.(paused := paused)), NoEvent)
  }

  function SetCooldown(w: World, cooldown: nat): Outcome<World, Event> {
    if w.stake.admin == w.self then Aborted(NotAuthorised)
    else Done(w.(stake := w.stake.(cooldown := cooldown)), NoEvent)
  }

  function SetAdmin(w: World, admin: Address): Outcome<World, Event> {
    if w.stake.admin == w.self then Aborted(NotAuthorised)
    else Done(w.(stake := w.stake.(admin := admin)), NoEvent)
  }

  /** XLM per sXLM, scaled; 1 while there is no sXLM. */
  function ExchangeRate(s: Stake): int {
    if s.totalSupply == 0 then RATE else Div(s.totalStaked * RATE, s.totalSupply)
  }
}

/** The staking contract, storage entry by storage entry. */
module StakingContracts {
  import opened Prelude
  import opened TokenContracts
  import Stakes

  class StakingContract {
    const self: Address
    const native: TokenContract
    const sxlm: TokenContract
    var admin: Address
    var totalStaked: int
    var totalSupply: int
    var buffer: int
    var treasury: int
    var cooldown: nat
    var paused: bool
    var queue: map<nat, Stakes.Request>
    var counter: nat

    /** The two tokens are two contracts. */
    ghost predicate Valid() {
      native != sxlm
    }

    function View(now: nat): Stakes.World
      reads this, native, sxlm
    {
      Stakes.World(self, now, native.View(), sxlm.View(),
        Stakes.Stake(admin, totalStaked, totalSupply, buffer, treasury, cooldown, paused, queue, counter))
    }

    constructor (self: Address, native: TokenContract, sxlm: TokenContract, admin: Address, cooldown: nat)
      requires native != sxlm
      ensures Valid() && this.native == native && this.sxlm == sxlm
      ensures View(0) == Stakes.World(self, 0, native.View(), sxlm.View(), Stakes.Fresh(admin, cooldown))
    {
      this.self, this.native, this.sxlm, this.admin, this.cooldown := self, native, sxlm, admin, cooldown;
      totalStaked, totalSupply, buffer, treasury := 0, 0, 0, 0;
      paused, queue, counter := false, map[], 0;
    }

    /** Every call below is given the current ledger sequence number. */
    method Deposit(now: nat, user: Address, amount: int) returns (r: Answer<Stakes.Event>)
      requires Valid()
      modifies this, native, sxlm
      ensures var o := Stakes.Deposit(old(View(now)), user, amount);
        View(now) == o.After(old(View(now))) && r == o.Answer()
    {
      if paused { return Panicked(Paused); }
      if user == self { return Panicked(NotAuthorised); }
      if amount <= 0 { return Panicked(NonPositiveAmount); }
      var nativeBefore := native.View();
      var moved := native.Transfer(user, self, amount);
      if moved.Panicked? { return Panicked(moved.why); }
      var minted := if totalSupply == 0 || totalStaked == 0 then amount else Div(amount * totalSupply, totalStaked);
      if minted <= 0 {
        native.Restore(nativeBefore);
        return Panicked(ZeroMint);
      }
      moved := sxlm.Mint(self, user, minted);
      if moved.Panicked? {
        native.Restore(nativeBefore);
        return Panicked(moved.why);
      }
      totalStaked := totalStaked + amount;
      totalSupply := totalSupply + minted;
      return Returned(Stakes.Deposited(user, amount, minted));
    }

    /** `next_withdrawal_id`: ids count up from zero. */
    method NextWithdrawalId() returns (id: nat)
      modifies `counter
      ensures id == old(counter) && counter == old(counter) + 1
    {
      id := counter;
      counter := id + 1;
    }

    method RequestWithdrawal(now: nat, user: Address, amount: int) returns (r: Answer<Stakes.Event>)
      requires Valid()
      modifies this, native, sxlm
      ensures var o := Stakes.RequestWithdrawal(old(View(now)), user, amount);
        View(now) == o.After(old(View(now))) && r == o.Answer()
    {
      if paused { return Panicked(Paused); }
      if user == self { return Panicked(NotAuthorised); }
      if amount <= 0 { return Panicked(NonPositiveAmount); }
      if totalSupply == 0 { return Panicked(NothingStaked); }
      var worth := Div(amount * totalStaked, totalSupply);
      if worth <= 0 { return Panicked(ZeroReturn); }
      var sxlmBefore := sxlm.View();
      var moved := sxlm.Burn(self, user, amount);
      if moved.Panicked? { return Panicked(moved.why); }
      if buffer >= worth {
        moved := native.Transfer(self, user, worth);
        if moved.Panicked? {
          sxlm.Restore(sxlmBefore);
          return Panicked(moved.why);
        }
        totalSupply := totalSupply - amount;
        buffer := buffer - worth;
        totalStaked := totalStaked - worth;
        return Returned(Stakes.PaidInstantly(user, worth));
      } else {
        totalSupply := totalSupply - amount;
        var unlock := now + cooldown;
        var id := NextWithdrawalId();
        queue := queue[id := Stakes.Request(id, user, worth, unlock, false)];
        return Returned(Stakes.Delayed(user, worth, id, unlock));
      }
    }

    method ClaimWithdrawal(now: nat, user: Address, id: nat) returns (r: Answer<Stakes.Event>)
      requires Valid()
      modifies this, native
      ensures var o := Stakes.ClaimWithdrawal(old(View(now)), user, id);
        View(now) == o.After(old(View(now))) && r == o.Answer()
    {
      if user == self { return Panicked(NotAuthorised); }
      if id !in queue { return Panicked(NoSuchWithdrawal); }
      var request := queue[id];
      if request.user != user { return Panicked(NotYourWithdrawal); }
      if request.claimed { return Panicked(AlreadyClaimed); }
      if now < request.unlock { return Panicked(CooldownNotOver); }
      var moved := native.Transfer(self, user, request.amount);
      if moved.Panicked? { return Panicked(moved.why); }
      queue := queue[id := request.(claimed := true)];
      totalStaked := totalStaked - request.amount;
      return Returned(Stakes.Claimed(user, request.amount, id, now));
    }

    method AddRewards(now: nat, amount: int) returns (r: Answer<Stakes.Event>)
      requires Valid()
      modifies this
      ensures var o := Stakes.AddRewards(old(View(now)), amount);
        View(now) == o.After(old(View(now))) && r == o.Answer()
    {
      if admin == self { return Panicked(NotAuthorised); }
      if amount <= 0 { return Panicked(NonPositiveAmount); }
      var fee := Div(amount * Stakes.PROTOCOL_FEE_BPS, BPS);
      treasury := treasury + fee;
      totalStaked := totalStaked + (amount - fee);
      return Returned(Stakes.Rewarded(amount, amount - fee, fee));
    }

    method WithdrawFees(now: nat, amount: int) returns (r: Answer<Stakes.Event>)
      requires Valid()
      modifies this, native
      ensures var o := Stakes.WithdrawFees(old(View(now)), amount);
        View(now) == o.After(old(View(now))) && r == o.Answer()
    {
      if admin == self { return Panicked(NotAuthorised); }
      var due := if amount <= 0 then treasury else amount;
      if due <= 0 { return Panicked(NoFees); }
      if due > treasury { return Panicked(TreasuryTooSmall); }
      var moved := native.Transfer(self, admin, due);
      if moved.Panicked? { return Panicked(moved.why); }
      treasury := treasury - due;
      return Returned(Stakes.FeesWithdrawn(admin, due));
    }

    method ApplySlashing(now: nat, amount: int) returns (r: Answer<Stakes.Event>)
      requires Valid()
      modifies this
      ensures var o := Stakes.ApplySlashing(old(View(now)), amount);
        View(now) == o.After(old(View(now))) && r == o.Answer()
    {
      if admin == self { return Panicked(NotAuthorised); }
      if amount <= 0 { return Panicked(NonPositiveAmount); }
      if amount > totalStaked { return Panicked(SlashTooLarge); }
      totalStaked := totalStaked - amount;
      return Returned(Stakes.Slashed(amount, totalStaked));
    }

    method AddLiquidity(now: nat, amount: int) returns (r: Answer<Stakes.Event>)
      requires Valid()
      modifies this, native
      ensures var o := Stakes.AddLiquidity(old(View(now)), amount);
        View(now) == o.After(old(View(now))) && r == o.Answer()
    {
      if admin == self { return Panicked(NotAuthorised); }
      if amount <= 0 { return Panicked(NonPositiveAmount); }
      var moved := native.Transfer(admin, self, amount);
      if moved.Panicked? { return Panicked(moved.why); }
      buffer := buffer + amount;
      return Returned(Stakes.LiquidityAdded(amount));
    }

    method SetPaused(now: nat, paused: bool) returns (r: Answer<Stakes.Event>)
      requires Valid()
      modifies this
      ensures var o := Stakes.SetPaused(old(View(now)), paused);
        View(now) == o.After(old(View(now))) && r == o.Answer()
    {
      if admin == self { return Panicked(NotAuthorised); }
      this.paused := paused;
      return Returned(Stakes.NoEvent);
    }

    method SetCooldown(now: nat, cooldown: nat) returns (r: Answer<Stakes.Event>)
      requires Valid()
      modifies this
      ensures var o := Stakes.SetCooldown(old(View(now)), cooldown);
        View(now) == o.After(old(View(now))) && r == o.Answer()
    {
      if admin == self { return Panicked(NotAuthorised); }
      this.cooldown := cooldown;
      return Returned(Stakes.NoEvent);
    }

    method SetAdmin(now: nat, newAdmin: Address) returns (r: Answer<Stakes.Event>)
      requires Valid()
      modifies this
      ensures var o := Stakes.SetAdmin(old(View(now)), newAdmin);
        View(now) == o.After(old(View(now))) && r == o.Answer()
    {
      if admin == self { return Panicked(NotAuthorised); }
      admin := newAdmin;
      return Returned(Stakes.NoEvent);
    }

    method GetExchangeRate() returns (rate: int)
      ensures rate == Stakes.ExchangeRate(View(0).stake)
    {
      if totalSupply == 0 { return RATE; }
      return Div(totalStaked * RATE, totalSupply);
    }
  }
}
