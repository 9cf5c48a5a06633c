/** The staking contract, its sXLM token and the rest of the chain over whole runs. */
module StakingRuns {
  import opened Prelude
  import opened Sums
  import opened Tokens
  import opened Stakes
  import TokenRuns

  /** `OnToken` is a call that somebody makes on the sXLM token directly; `Outside` stands for
      anything the rest of the chain does to the native token. */
  datatype Call =
    | DepositCall(user: Address, amount: int)
    | RequestCall(user: Address, amount: int)
    | ClaimCall(user: Address, id: nat)
    | RewardCall(amount: int)
    | FeesCall(amount: int)
    | SlashCall(amount: int)
    | LiquidityCall(amount: int)
    | PauseCall(paused: bool)
    | CooldownCall(cooldown: nat)
    | AdminCall(admin: Address)
    | OnToken(call: TokenRuns.Call)
    | Outside(native: Ledger)
    | Wait(ledgers: nat)

  /** A world with what has happened so far: the events of the completed calls and the native
      tokens the contract was sent outside its own calls. Neither is contract storage. */
  datatype History = History(world: World, log: seq<Event>, gifts: int)

  function Signer(c: TokenRuns.Call): Address {
    match c
    case MintCall(caller, _, _) => caller
    case BurnCall(caller, _, _) => caller
    case TransferCall(from, _, _) => from
    case ApproveCall(from, _, _) => from
    case TransferFromCall(spender, _, _, _) => spender
  }

  /** The contract never signs a call on the token by itself. */
  function OnTokenStep(w: World, c: TokenRuns.Call): Outcome<World, Event> {
    if Signer(c) == w.self then Aborted(NotAuthorised)
    else
      var sxlm :- TokenRuns.Exec(w.sxlm, c);
      Done(w.(sxlm := sxlm), NoEvent)
  }

  /** Nobody but the contract spends the contract's own tokens. */
  function OutsideStep(w: World, native: Ledger): Outcome<World, Event> {
    if Balance(native, w.self) < Balance(w.native, w.self) then Aborted(NotAuthorised)
    else Done(w.(native := native), NoEvent)
  }

  function Exec(w: World, c: Call): Outcome<World, Event> {
    match c
    case DepositCall(user, amount) => Deposit(w, user, amount)
    case RequestCall(user, amount) => RequestWithdrawal(w, user, amount)
    case ClaimCall(user, id) => ClaimWithdrawal(w, user, id)
    case RewardCall(amount) => AddRewards(w, amount)
    case FeesCall(amount) => WithdrawFees(w, amount)
    case SlashCall(amount) => ApplySlashing(w, amount)
    case LiquidityCall(amount) => AddLiquidity(w, amount)
    case PauseCall(paused) => SetPaused(w, paused)
    case CooldownCall(cooldown) => SetCooldown(w, cooldown)
    case AdminCall(admin) => SetAdmin(w, admin)
    case OnToken(call) => OnTokenStep(w, call)
    case Outside(native) => OutsideStep(w, native)
    case Wait(ledgers) => Done(w.(now := w.now + ledgers), NoEvent)
  }

  function Step(h: History, c: Call): History {
    match Exec(h.world, c)
    case Aborted(_) => h
    case Done(w, e) =>
      History(w, h.log + [e],
              if c.Outside? then h.gifts + Balance(w.native, w.self) - Balance(h.world.native, w.self) else h.gifts)
  }

  function Run(h: History, calls: seq<Call>): History
    decreases calls
  {
    if calls == [] then h else Run(Step(h, calls[0]), calls[1..])
  }

  /** A contract that was just initialised, as the token's minter, before any sXLM exists. */
  ghost predicate Initial(h: History) {
    var w := h.world;
    && w.stake == Fresh(w.stake.admin, w.stake.cooldown)
    && w.sxlm == Ledger(w.self, map[], map[], 0)
    && h.log == [] && h.gifts == Balance(w.native, w.self)
  }

  // --- Totals over the log ---

  datatype Kind = Rewards | InstantPayouts | ClaimPayouts | Slashes

  function Part(kind: Kind, e: Event): int {
    match (kind, e)
    case (Rewards, Rewarded(amount, _, _)) => amount
    case (InstantPayouts, PaidInstantly(_, amount)) => amount
    case (ClaimPayouts, Claimed(_, amount, _, _)) => amount
    case (Slashes, Slashed(amount, _)) => amount
    case _ => 0
  }

  function Total(kind: Kind, log: seq<Event>): int {
    if log == [] then 0 else Total(kind, log[..|log| - 1]) + Part(kind, log[|log| - 1])
  }

  lemma TotalGrows(kind: Kind, log: seq<Event>, e: Event)
    ensures Total(kind, log + [e]) == Total(kind, log) + Part(kind, e)
  {
    assert (log + [e])[..|log|] == log;
  }

  // --- Supply ---

  /** The contract's idea of the sXLM supply is the token's, and the token's balances add up to it. */
  ghost predicate SupplyInv(w: World) {
    && w.sxlm.minter == w.self
    && Solvent(w.sxlm)
    && w.stake.totalSupply == w.sxlm.totalSupply
  }

  lemma StepKeepsSupply(h: History, c: Call)
    requires SupplyInv(h.world)
    ensures SupplyInv(Step(h, c).world)
  {
    var w := h.world;
    match c
    case DepositCall(user, amount) => MintKeepsSolvent(w.sxlm, w.self, user, Minted(w.stake, amount));
    case RequestCall(user, amount) => BurnKeepsSolvent(w.sxlm, w.self, user, amount);
    case OnToken(call) => TokenRuns.StepKeepsSolvent(w.sxlm, call);
    case _ =>
  }

  /** Cross-contract supply: in every reachable state staking's supply, the token's supply and
      the sum of the balances agree and are non-negative, whoever transfers, approves or tries
      to mint in between. */
  lemma {:induction false} RunKeepsSupply(h: History, calls: seq<Call>)
    requires SupplyInv(h.world)
    ensures var w := Run(h, calls).world;
      SupplyInv(w) && w.stake.totalSupply == Sum(w.sxlm.balances) >= 0
    decreases calls
  {
    if calls == [] {
      SumNonNegative(h.world.sxlm.balances.Keys, h.world.sxlm.balances);
    } else {
      StepKeepsSupply(h, calls[0]);
      RunKeepsSupply(Step(h, calls[0]), calls[1..]);
    }
  }

  // --- Conservation ---

  /** Every native token the contract holds, plus the rewards it credited without receiving
      them, is accounted for. */
  ghost predicate BooksInv(h: History) {
    var w, s := h.world, h.world.stake;
    && 0 <= s.buffer && 0 <= s.treasury
    && Balance(w.native, w.self) + Total(Rewards, h.log) ==
         s.totalStaked + s.buffer + s.treasury + Total(InstantPayouts, h.log) + Total(Slashes, h.log) + h.gifts
  }

  /** The native transfer that belongs to an event: from, to, amount. */
  function Flow(w: World, e: Event): (Address, Address, int) {
    match e
    case Deposited(user, amount, _) => (user, w.self, amount)
    case PaidInstantly(user, amount) => (w.self, user, amount)
    case Claimed(user, amount, _, _) => (w.self, user, amount)
    case FeesWithdrawn(admin, amount) => (w.self, admin, amount)
    case LiquidityAdded(amount) => (w.stake.admin, w.self, amount)
    case _ => (w.self, w.self, 0)
  }

  lemma RequestMoves(w: World, user: Address, amount: int)
    requires RequestWithdrawal(w, user, amount).Done?
    ensures var o := RequestWithdrawal(w, user, amount);
      var f := Flow(w, o.value); Moved(w.native, o.state.native, f.0, f.1, f.2) && f.0 == w.self && f.2 >= 0
  {
    var o := RequestWithdrawal(w, user, amount);
    if o.value.PaidInstantly? { TransferMoves(w.native, w.self, user, o.value.amount); }
  }

  /** Every completed call moves exactly the native tokens its event says, and no others; what
      leaves the contract goes to the user or the admin the event names. */
  lemma NativeMoves(w: World, c: Call)
    requires Exec(w, c).Done? && !c.Outside?
    ensures var o := Exec(w, c);
      var f := Flow(w, o.value); Moved(w.native, o.state.native, f.0, f.1, f.2)
  {
    match c
    case DepositCall(user, amount) => TransferMoves(w.native, user, w.self, amount);
    case RequestCall(user, amount) => RequestMoves(w, user, amount);
    case ClaimCall(user, id) => TransferMoves(w.native, w.self, user, w.stake.queue[id].amount);
    case FeesCall(amount) => TransferMoves(w.native, w.self, w.stake.admin, Exec(w, c).value.amount);
    case LiquidityCall(amount) => TransferMoves(w.native, w.stake.admin, w.self, amount);
    case _ =>
  }

  /** Rewards split into a tenth for the treasury, rounded down, and the rest for the stakers. */
  lemma RewardSplits(w: World, amount: int)
    requires AddRewards(w, amount).Done?
    ensures var o := AddRewards(w, amount);
      && 10 * o.value.fee <= amount < 10 * (o.value.fee + 1) && o.value.net == amount - o.value.fee
      && 0 <= o.value.fee <= amount
      && o.state.stake.treasury == w.stake.treasury + o.value.fee
      && o.state.stake.totalStaked == w.stake.totalStaked + o.value.net
  {
  }

  /** How a completed call changes what the contract accounts for. */
  ghost predicate Accounted(w: World, w': World, e: Event) {
    var s, s' := w.stake, w'.stake;
    var f := Flow(w, e);
    && 0 <= s'.buffer && 0 <= s'.treasury
    && (if f.1 == w.self then f.2 else 0) - (if f.0 == w.self then f.2 else 0) + Part(Rewards, e) ==
         (s'.totalStaked - s.totalStaked) + (s'.buffer - s.buffer) + (s'.treasury - s.treasury)
         + Part(InstantPayouts, e) + Part(Slashes, e)
  }

  lemma RequestAccounted(w: World, user: Address, amount: int)
    requires 0 <= w.stake.buffer && 0 <= w.stake.treasury && RequestWithdrawal(w, user, amount).Done?
    ensures var o := RequestWithdrawal(w, user, amount); Accounted(w, o.state, o.value)
  {
  }

  lemma CallAccounted(w: World, c: Call)
    requires 0 <= w.stake.buffer && 0 <= w.stake.treasury && Exec(w, c).Done?
    ensures Accounted(w, Exec(w, c).state, Exec(w, c).value)
  {
    match c
    case RequestCall(user, amount) => RequestAccounted(w, user, amount);
    case RewardCall(amount) => RewardSplits(w, amount);
    case _ =>
  }

  /** What the contract holds changes by what its event moves in or out. */
  lemma HoldingsFollow(w: World, c: Call)
    requires Exec(w, c).Done?
    ensures var o := Exec(w, c);
      var f := Flow(w, o.value);
      && o.state.self == w.self
      && (!c.Outside? ==> Balance(o.state.native, w.self) - Balance(w.native, w.self)
                            == (if f.1 == w.self then f.2 else 0) - (if f.0 == w.self then f.2 else 0))
      && (c.Outside? ==> o.state.stake == w.stake && o.value == NoEvent)
  {
    if !c.Outside? { NativeMoves(w, c); }
  }

  lemma BooksFollow(h: History, w': World, e: Event, gift: int)
    requires BooksInv(h) && Accounted(h.world, w', e) && w'.self == h.world.self
    requires var f := Flow(h.world, e);
      Balance(w'.native, w'.self) - Balance(h.world.native, h.world.self)
        == (if f.1 == h.world.self then f.2 else 0) - (if f.0 == h.world.self then f.2 else 0) + gift
    ensures BooksInv(History(w', h.log + [e], h.gifts + gift))
  {
    TotalGrows(Rewards, h.log, e);
    TotalGrows(InstantPayouts, h.log, e);
    TotalGrows(Slashes, h.log, e);
  }

  lemma StepKeepsBooks(h: History, c: Call)
    requires BooksInv(h)
    ensures BooksInv(Step(h, c))
  {
    var w, o := h.world, Exec(h.world, c);
    if o.Done? {
      CallAccounted(w, c);
      HoldingsFollow(w, c);
      var gift := if c.Outside? then Balance(o.state.native, w.self) - Balance(w.native, w.self) else 0;
      BooksFollow(h, o.state, o.value, gift);
    }
  }

  lemma {:induction false} RunKeepsBooks(h: History, calls: seq<Call>)
    requires BooksInv(h)
    ensures BooksInv(Run(h, calls))
    decreases calls
  {
    if calls != [] {
      StepKeepsBooks(h, calls[0]);
      RunKeepsBooks(Step(h, calls[0]), calls[1..]);
    }
  }

  // --- The withdrawal queue ---

  /** What the claimed requests amount to, request by request. */
  ghost function ClaimedAmounts(queue: map<nat, Request>): map<nat, int> {
    map id | id in queue :: if queue[id].claimed then queue[id].amount else 0
  }

  /** The event pays the request it names: its user, its amount, no earlier than its unlock ledger. */
  ghost predicate Pays(queue: map<nat, Request>, e: Event)
    requires e.Claimed?
  {
    && e.id in queue && queue[e.id].claimed
    && queue[e.id].user == e.user && queue[e.id].amount == e.amount && queue[e.id].unlock <= e.at
  }

  ghost predicate PaidIn(log: seq<Event>, id: nat) {
    exists i :: 0 <= i < |log| && log[i].Claimed? && log[i].id == id
  }

  ghost predicate WellNumbered(s: Stake) {
    && (forall id: nat :: id in s.queue <==> id < s.counter)
    && (forall id :: id in s.queue ==> s.queue[id].id == id && 0 < s.queue[id].amount)
  }

  /** Every payout in the log pays a request, and the claimed requests are exactly the paid ones. */
  ghost predicate PaidAsRequested(queue: map<nat, Request>, log: seq<Event>) {
    && (forall i :: 0 <= i < |log| && log[i].Claimed? ==> Pays(queue, log[i]))
    && (forall id :: id in queue ==> (queue[id].claimed <==> PaidIn(log, id)))
  }

  ghost predicate PaidOnce(log: seq<Event>) {
    forall i, j :: 0 <= i < j < |log| && log[i].Claimed? && log[j].Claimed? ==> log[i].id != log[j].id
  }

  /** Requests are numbered 0, 1, ...; each payout in the log pays a request, no request is paid
      twice, the claimed ones are exactly the paid ones, and the amounts agree. */
  ghost predicate QueueOk(s: Stake, log: seq<Event>) {
    && WellNumbered(s)
    && PaidAsRequested(s.queue, log)
    && PaidOnce(log)
    && Total(ClaimPayouts, log) == Sum(ClaimedAmounts(s.queue))
  }

  /** The contract itself has no requests. */
  ghost predicate QueueInv(h: History) {
    && QueueOk(h.world.stake, h.log)
    && (forall id :: id in h.world.stake.queue ==> h.world.stake.queue[id].user != h.world.self)
  }

  lemma PaidInGrows(log: seq<Event>, e: Event)
    ensures forall id :: PaidIn(log + [e], id) <==> PaidIn(log, id) || (e.Claimed? && e.id == id)
  {
    forall id
      ensures PaidIn(log + [e], id) <==> PaidIn(log, id) || (e.Claimed? && e.id == id)
    {
      if PaidIn(log, id) {
        var i :| 0 <= i < |log| && log[i].Claimed? && log[i].id == id;
        assert (log + [e])[i] == log[i];
      }
      if e.Claimed? && e.id == id {
        assert (log + [e])[|log|] == e;
      }
    }
  }

  /** The queue is left alone, gets one more request, or has an open one claimed, as the event says. */
  ghost predicate QueueChange(s: Stake, s': Stake, e: Event) {
    if e.Delayed? then
      && 0 < e.amount && s'.counter == s.counter + 1
      && s'.queue == s.queue[s.counter := Request(s.counter, e.user, e.amount, e.unlock, false)]
    else if e.Claimed? then
      && e.id in s.queue && !s.queue[e.id].claimed && s'.counter == s.counter
      && s.queue[e.id].user == e.user && s.queue[e.id].amount == e.amount && s.queue[e.id].unlock <= e.at
      && s'.queue == s.queue[e.id := s.queue[e.id].(claimed := true)]
    else s'.queue == s.queue && s'.counter == s.counter
  }

  lemma CallChangesQueue(w: World, c: Call)
    requires Exec(w, c).Done?
    ensures QueueChange(w.stake, Exec(w, c).state.stake, Exec(w, c).value)
    ensures Exec(w, c).state.self == w.self && (Exec(w, c).value.Delayed? ==> Exec(w, c).value.user != w.self)
  {
  }

  lemma PaidAsRequestedKept(s: Stake, log: seq<Event>, s': Stake, e: Event)
    requires WellNumbered(s) && PaidAsRequested(s.queue, log) && QueueChange(s, s', e)
    ensures PaidAsRequested(s'.queue, log + [e])
  {
    PaidInGrows(log, e);
    if e.Delayed? { assert !PaidIn(log, s.counter); }
    forall i | 0 <= i < |log + [e]| && (log + [e])[i].Claimed?
      ensures Pays(s'.queue, (log + [e])[i])
    {
      if i < |log| { assert (log + [e])[i] == log[i] && Pays(s.queue, log[i]); }
    }
  }

  lemma ClaimTotalKept(s: Stake, s': Stake, e: Event)
    requires WellNumbered(s) && QueueChange(s, s', e)
    ensures Sum(ClaimedAmounts(s'.queue)) == Sum(ClaimedAmounts(s.queue)) + Part(ClaimPayouts, e)
  {
    var amounts := ClaimedAmounts(s.queue);
    if e.Delayed? {
      assert ClaimedAmounts(s'.queue) == amounts[s.counter := 0];
      SumUpdate(amounts, s.counter, 0);
    } else if e.Claimed? {
      assert ClaimedAmounts(s'.queue) == amounts[e.id := e.amount];
      SumUpdate(amounts, e.id, e.amount);
    }
  }

  lemma QueueOkKept(s: Stake, log: seq<Event>, s': Stake, e: Event)
    requires QueueOk(s, log) && QueueChange(s, s', e)
    ensures QueueOk(s', log + [e])
  {
    PaidAsRequestedKept(s, log, s', e);
    ClaimTotalKept(s, s', e);
    TotalGrows(ClaimPayouts, log, e);
  }

  lemma StepKeepsQueue(h: History, c: Call)
    requires QueueInv(h)
    ensures QueueInv(Step(h, c))
  {
    var o := Exec(h.world, c);
    if o.Done? {
      CallChangesQueue(h.world, c);
      QueueOkKept(h.world.stake, h.log, o.state.stake, o.value);
    }
  }

  lemma {:induction false} RunKeepsQueue(h: History, calls: seq<Call>)
    requires QueueInv(h)
    ensures QueueInv(Run(h, calls))
    decreases calls
  {
    if calls != [] {
      StepKeepsQueue(h, calls[0]);
      RunKeepsQueue(Step(h, calls[0]), calls[1..]);
    }
  }

  lemma InitialInv(h: History)
    requires Initial(h)
    ensures SupplyInv(h.world) && BooksInv(h) && QueueInv(h)
  {
    assert ClaimedAmounts(h.world.stake.queue).Keys == {};
    assert h.world.sxlm.balances.Keys == {};
  }

  /** All three hold in every reachable state. */
  lemma Reachable(h: History, calls: seq<Call>)
    requires Initial(h)
    ensures SupplyInv(Run(h, calls).world) && BooksInv(Run(h, calls)) && QueueInv(Run(h, calls))
  {
    InitialInv(h);
    RunKeepsSupply(h, calls);
    RunKeepsBooks(h, calls);
    RunKeepsQueue(h, calls);
  }

  /** Requests never disappear, and nothing about them changes but `claimed`, from false to true. */
  ghost predicate QueueKept(q: map<nat, Request>, q': map<nat, Request>) {
    forall id :: id in q ==>
      && id in q'
      && q'[id] == q[id].(claimed := q'[id].claimed)
      && (q[id].claimed ==> q'[id].claimed)
  }

  lemma StepKeepsRequests(h: History, c: Call)
    requires WellNumbered(h.world.stake)
    ensures WellNumbered(Step(h, c).world.stake)
    ensures QueueKept(h.world.stake.queue, Step(h, c).world.stake.queue)
  {
    if Exec(h.world, c).Done? { CallChangesQueue(h.world, c); }
  }

  lemma {:induction false} RunKeepsRequests(h: History, calls: seq<Call>)
    requires WellNumbered(h.world.stake)
    ensures QueueKept(h.world.stake.queue, Run(h, calls).world.stake.queue)
    decreases calls
  {
    if calls != [] {
      StepKeepsRequests(h, calls[0]);
      RunKeepsRequests(Step(h, calls[0]), calls[1..]);
    }
  }

  /** While the contract is paused nobody changes the supply or enters the queue. */
  lemma {:induction false} PausedFreezes(h: History, calls: seq<Call>)
    requires h.world.stake.paused && PauseCall(false) !in calls
    ensures var s, s' := h.world.stake, Run(h, calls).world.stake;
      s'.paused && s'.totalSupply == s.totalSupply && s'.queue.Keys == s.queue.Keys && s'.counter == s.counter
    decreases calls
  {
    if calls != [] {
      var s, s' := h.world.stake, Step(h, calls[0]).world.stake;
      assert calls[0] != PauseCall(false);
      assert s'.paused && s'.totalSupply == s.totalSupply && s'.counter == s.counter;
      assert s'.queue.Keys == s.queue.Keys;
      PausedFreezes(Step(h, calls[0]), calls[1..]);
    }
  }
}
