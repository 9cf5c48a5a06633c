/** Everybody leaves: the contract pays out exactly what is staked. */
module StakingUnwind {
  import opened Prelude
  import opened Sums
  import opened Tokens
  import opened Stakes
  import opened StakingRuns
  import opened StakingRate
  import opened Arith

  /** Each holder redeems the balance it has now, one after another. */
  function RedeemAll(l: Ledger, holders: seq<Address>): seq<Call> {
    if holders == [] then [] else
      [RequestCall(holders[0], Balance(l, holders[0]))] + RedeemAll(l, holders[1..])
  }

  /** `holders` lists, in any order and once each, exactly the addresses that hold sXLM. */
  ghost predicate ListsHolders(l: Ledger, holders: seq<Address>) {
    && (forall a :: a in holders <==> 0 < Balance(l, a))
    && (forall i, j :: 0 <= i < j < |holders| ==> holders[i] != holders[j])
  }

  /** Nothing is left behind without sXLM, and both the buffer and the contract's native balance
      cover what is staked. The contract itself holds no sXLM. */
  ghost predicate Funded(w: World) {
    var s := w.stake;
    && SupplyInv(w) && !s.paused
    && 0 <= s.totalStaked && (s.totalSupply == 0 ==> s.totalStaked == 0)
    && s.totalStaked <= s.buffer && s.totalStaked <= Balance(w.native, w.self)
    && Balance(w.sxlm, w.self) == 0
  }

  /** Besides, what every holder has is worth at least one unit of XLM. */
  ghost predicate Covered(w: World) {
    Funded(w) && forall a :: 0 < Balance(w.sxlm, a) ==> WorthOne(w.stake, Balance(w.sxlm, a))
  }

  ghost predicate WorthOne(s: Stake, amount: int) {
    0 < s.totalSupply && 1 <= Worth(s, amount)
  }

  /** At a rate of one or more it always is. */
  lemma ParCovers(w: World)
    requires Funded(w) && w.stake.totalSupply <= w.stake.totalStaked
    ensures Covered(w)
  {
    var s := w.stake;
    forall a | 0 < Balance(w.sxlm, a) ensures WorthOne(s, Balance(w.sxlm, a)) {
      var amount := Balance(w.sxlm, a);
      EntryAtMostSum(w.sxlm.balances, a);
      MulLe(s.totalSupply, s.totalStaked, amount);
      MulNonNegative(amount, s.totalStaked);
      FloorAtLeast(amount, amount * s.totalStaked, s.totalSupply);
    }
  }

  /** A holder can redeem everything it has exactly when that is worth one unit. */
  lemma CanLeaveExactly(w: World, user: Address)
    requires Funded(w) && 0 < Balance(w.sxlm, user)
    ensures RequestWithdrawal(w, user, Balance(w.sxlm, user)).Done? <==> WorthOne(w.stake, Balance(w.sxlm, user))
  {
    EntryAtMostSum(w.sxlm.balances, user);
    WorthBounds(w.stake, Balance(w.sxlm, user));
  }

  lemma {:induction false} NoHoldersNoSupply(keys: set<Address>, m: map<Address, int>)
    requires forall a :: Get(m, a) == 0
    ensures SumOver(keys, m) == 0
  {
    if keys != {} {
      var k :| k in keys && SumOver(keys, m) == Get(m, k) + SumOver(keys - {k}, m);
      NoHoldersNoSupply(keys - {k}, m);
    }
  }

  lemma {:induction false} RedeemAllDependsOnHolders(l: Ledger, l': Ledger, holders: seq<Address>)
    requires forall a :: a in holders ==> Balance(l, a) == Balance(l', a)
    ensures RedeemAll(l, holders) == RedeemAll(l', holders)
  {
    if holders != [] {
      RedeemAllDependsOnHolders(l, l', holders[1..]);
    }
  }

  lemma WorthMonotone(s: Stake, s': Stake, amount: int)
    requires 0 < s.totalSupply && 0 < s'.totalSupply && 0 <= s.totalStaked && 0 <= s'.totalStaked && 0 <= amount
    requires NoLower(s, s')
    ensures Worth(s, amount) <= Worth(s', amount)
  {
    MulNonNegative(amount, s.totalStaked);
    MulNonNegative(amount, s'.totalStaked);
    Floor(amount * s.totalStaked, s.totalSupply);
    var q := Worth(s, amount);
    MulLe(q * s.totalSupply, amount * s.totalStaked, s'.totalSupply);
    MulLe(s.totalStaked * s'.totalSupply, s'.totalStaked * s.totalSupply, amount);
    assert q * s.totalSupply * s'.totalSupply == q * s'.totalSupply * s.totalSupply;
    assert amount * s.totalStaked * s'.totalSupply == s.totalStaked * s'.totalSupply * amount;
    assert s'.totalStaked * s.totalSupply * amount == amount * s'.totalStaked * s.totalSupply;
    CancelLe(q * s'.totalSupply, amount * s'.totalStaked, s.totalSupply);
    FloorAtLeast(q, amount * s'.totalStaked, s'.totalSupply);
  }

  /** One holder redeems everything: it is paid instantly, and the rest is still covered. */
  lemma OneLeaves(h: History, user: Address)
    requires Covered(h.world) && 0 < Balance(h.world.sxlm, user)
    ensures var s, amount := h.world.stake, Balance(h.world.sxlm, user);
      var h' := Step(h, RequestCall(user, amount));
      && 0 < s.totalSupply && amount <= s.totalSupply
      && h'.log == h.log + [PaidInstantly(user, Worth(s, amount))]
      && Covered(h'.world) && NoLower(s, h'.world.stake)
      && h'.world.stake.totalStaked == s.totalStaked - Worth(s, amount)
      && (forall a :: Balance(h'.world.sxlm, a) == if a == user then 0 else Balance(h.world.sxlm, a))
  {
    var w, s, amount := h.world, h.world.stake, Balance(h.world.sxlm, user);
    EntryAtMostSum(w.sxlm.balances, user);
    WorthBounds(s, amount);
    assert WorthOne(s, amount);
    TransferMoves(w.native, w.self, user, Worth(s, amount));
    BurnKeepsSolvent(w.sxlm, w.self, user, amount);
    StillWorthOne(w, Step(h, RequestCall(user, amount)).world, user);
  }

  lemma StillWorthOne(w: World, w': World, user: Address)
    requires Covered(w) && SupplyInv(w') && 0 <= w'.stake.totalStaked
    requires 0 < w.stake.totalSupply && NoLower(w.stake, w'.stake)
    requires forall a :: Balance(w'.sxlm, a) == if a == user then 0 else Balance(w.sxlm, a)
    ensures forall a :: 0 < Balance(w'.sxlm, a) ==> WorthOne(w'.stake, Balance(w'.sxlm, a))
  {
    forall a | 0 < Balance(w'.sxlm, a) ensures WorthOne(w'.stake, Balance(w'.sxlm, a)) {
      EntryAtMostSum(w'.sxlm.balances, a);
      assert WorthOne(w.stake, Balance(w.sxlm, a));
      WorthMonotone(w.stake, w'.stake, Balance(w.sxlm, a));
    }
  }

  /** The event pays `holder` instantly, at least what its balance in `l` is worth in `s`. */
  ghost predicate PaysOne(s: Stake, l: Ledger, holder: Address, e: Event)
    requires 0 < s.totalSupply
  {
    e.PaidInstantly? && e.user == holder && Worth(s, Balance(l, holder)) <= e.amount
  }

  /** `log'` continues `log` with one such payout to each holder. */
  ghost predicate PaysAll(s: Stake, l: Ledger, log: seq<Event>, holders: seq<Address>, log': seq<Event>) {
    && (holders != [] ==> 0 < s.totalSupply)
    && |log'| == |log| + |holders| && log'[..|log|] == log
    && (forall i :: 0 <= i < |holders| ==> PaysOne(s, l, holders[i], log'[|log| + i]))
  }

  /** Full unwinding. If all holders redeem their whole balance one after another, in any
      order, every redemption is paid instantly; each holder gets at least what its balance was
      worth at the start; the payouts add up to exactly what was staked; nothing remains. */
  lemma {:induction false} Unwind(h: History, holders: seq<Address>)
    requires Covered(h.world) && ListsHolders(h.world.sxlm, holders)
    ensures var s, h' := h.world.stake, Run(h, RedeemAll(h.world.sxlm, holders));
      && PaysAll(s, h.world.sxlm, h.log, holders, h'.log)
      && Total(InstantPayouts, h'.log) == Total(InstantPayouts, h.log) + s.totalStaked
      && h'.world.stake.totalStaked == 0 && h'.world.stake.totalSupply == 0
    decreases |holders|
  {
    var w, s := h.world, h.world.stake;
    if holders == [] {
      NobodyLeft(w, holders);
    } else {
      var user, rest := holders[0], holders[1..];
      var h1 := Step(h, RequestCall(user, Balance(w.sxlm, user)));
      assert user in holders;
      OneLeaves(h, user);
      var e := PaidInstantly(user, Worth(s, Balance(w.sxlm, user)));
      TotalGrows(InstantPayouts, h.log, e);
      RestListsHolders(w.sxlm, h1.world.sxlm, holders);
      RedeemAllDependsOnHolders(w.sxlm, h1.world.sxlm, rest);
      Unwind(h1, rest);
      var h' := Run(h1, RedeemAll(h1.world.sxlm, rest));
      RunFirst(h, RequestCall(user, Balance(w.sxlm, user)), RedeemAll(w.sxlm, rest));
      FirstPayout(s, h1.world.stake, w.sxlm, h1.world.sxlm, h.log, e, holders, h'.log);
    }
  }

  lemma RunFirst(h: History, c: Call, calls: seq<Call>)
    ensures Run(h, [c] + calls) == Run(Step(h, c), calls)
  {
    assert ([c] + calls)[1..] == calls;
  }

  lemma NobodyLeft(w: World, holders: seq<Address>)
    requires Covered(w) && ListsHolders(w.sxlm, holders) && holders == []
    ensures w.stake.totalStaked == 0 && w.stake.totalSupply == 0
  {
    forall a ensures Get(w.sxlm.balances, a) == 0 {
      assert a !in holders && !(0 < Balance(w.sxlm, a));
      EntryAtMostSum(w.sxlm.balances, a);
    }
    NoHoldersNoSupply(w.sxlm.balances.Keys, w.sxlm.balances);
  }

  lemma FirstPayout(s: Stake, s1: Stake, l: Ledger, l1: Ledger,
                    log: seq<Event>, e: Event, holders: seq<Address>, log': seq<Event>)
    requires holders != [] && 0 < s.totalSupply && 0 <= s.totalStaked && 0 <= s1.totalStaked && NoLower(s, s1)
    requires forall a :: a in holders ==> 0 < Balance(l, a)
    requires forall a :: a in holders[1..] ==> Balance(l1, a) == Balance(l, a)
    requires e == PaidInstantly(holders[0], Worth(s, Balance(l, holders[0])))
    requires PaysAll(s1, l1, log + [e], holders[1..], log')
    ensures PaysAll(s, l, log, holders, log')
  {
    var rest, log1 := holders[1..], log + [e];
    assert log'[..|log|] == log1[..|log|] == log;
    assert log'[|log|] == log'[..|log1|][|log|] == e;
    forall i | 0 <= i < |holders|
      ensures PaysOne(s, l, holders[i], log'[|log| + i])
    {
      if 0 < i {
        assert rest[i - 1] == holders[i] && holders[i] in holders && holders[i] in rest;
        assert PaysOne(s1, l1, rest[i - 1], log'[|log1| + (i - 1)]);
        WorthMonotone(s, s1, Balance(l, holders[i]));
      }
    }
  }

  lemma RestListsHolders(l: Ledger, l': Ledger, holders: seq<Address>)
    requires ListsHolders(l, holders) && holders != []
    requires forall a :: Balance(l', a) == if a == holders[0] then 0 else Balance(l, a)
    ensures ListsHolders(l', holders[1..])
    ensures forall a :: a in holders[1..] ==> a != holders[0]
  {
    var rest := holders[1..];
    forall a ensures a in rest <==> (a in holders && a != holders[0]) {
      if a in holders && a != holders[0] {
        var i :| 0 <= i < |holders| && holders[i] == a;
        assert rest[i - 1] == a;
      }
    }
  }

  // --- Pending claims ---

  /** What the unclaimed requests amount to, request by request. */
  ghost function PendingAmounts(queue: map<nat, Request>): map<nat, int> {
    map id | id in queue :: if queue[id].claimed then 0 else queue[id].amount
  }

  ghost function Pending(s: Stake): int {
    Sum(PendingAmounts(s.queue))
  }

  /** A delayed request leaves its XLM staked, so as long as sXLM is left the rate rises and no
      remaining balance is worth less. */
  lemma DelayedRequestRaisesWorth(w: World, user: Address, amount: int, balance: int)
    requires SupplyInv(w) && 0 <= w.stake.totalStaked && 0 <= balance
    requires RequestWithdrawal(w, user, amount).Done? && RequestWithdrawal(w, user, amount).value.Delayed?
    requires 0 < RequestWithdrawal(w, user, amount).state.stake.totalSupply
    ensures var s, s' := w.stake, RequestWithdrawal(w, user, amount).state.stake;
      && s'.totalStaked == s.totalStaked && Worth(s, balance) <= Worth(s', balance)
      && s.totalStaked * s'.totalSupply < s'.totalStaked * s.totalSupply
  {
    var s, s' := w.stake, RequestWithdrawal(w, user, amount).state.stake;
    RequestRate(w, user, amount);
    RequestTotals(w, user, amount);
    WorthMonotone(s, s', balance);
    MulLt(s'.totalSupply, s.totalSupply, s.totalStaked);
  }

  /** A fresh contract with an empty buffer that was sent 100 XLM; user 1 has 100 XLM, user 2 has 1. */
  function Start(): History {
    History(World(0, 0, Ledger(9, map[0 := 100, 1 := 100, 2 := 1], map[], 201),
                  Ledger(0, map[], map[], 0), Fresh(5, 0)), [], 100)
  }

  /** User 1 deposits 100 and asks for all of it back: nothing is issued, and 100 is staked. */
  function Emptied(h: History): History {
    Step(Step(h, DepositCall(1, 100)), RequestCall(1, 100))
  }

  /** What matters of the states on the way: the stake, the native balances of the contract and
      the two users, and the users' sXLM. */
  ghost predicate Looks(w: World, stake: Stake, held: int, native1: int, native2: int, sxlm1: int, sxlm2: int) {
    && w.self == 0 && w.now == 0 && w.sxlm.minter == 0 && w.stake == stake
    && Balance(w.native, 0) == held && Balance(w.native, 1) == native1 && Balance(w.native, 2) == native2
    && Balance(w.sxlm, 1) == sxlm1 && Balance(w.sxlm, 2) == sxlm2
  }

  function OneOpen(): map<nat, Request> {
    map[0 := Request(0, 1, 100, 0, false)]
  }

  lemma DepositOfHundred(h: History)
    requires Looks(h.world, Fresh(5, 0), 100, 100, 1, 0, 0)
    ensures Looks(Step(h, DepositCall(1, 100)).world,
                  Fresh(5, 0).(totalStaked := 100, totalSupply := 100), 200, 0, 1, 100, 0)
  {
  }

  lemma RequestForAll(h: History)
    requires Looks(h.world, Fresh(5, 0).(totalStaked := 100, totalSupply := 100), 200, 0, 1, 100, 0)
    ensures Looks(Step(h, RequestCall(1, 100)).world,
                  Fresh(5, 0).(totalStaked := 100, counter := 1, queue := OneOpen()), 200, 0, 1, 0, 0)
  {
  }

  lemma StartLooks()
    ensures Initial(Start())
    ensures Looks(Start().world, Fresh(5, 0), 100, 100, 1, 0, 0)
  {
  }

  lemma DepositAndRequest(h: History)
    requires Looks(h.world, Fresh(5, 0), 100, 100, 1, 0, 0)
    ensures Looks(Emptied(h).world,
                  Fresh(5, 0).(totalStaked := 100, counter := 1, queue := OneOpen()), 200, 0, 1, 0, 0)
  {
    DepositOfHundred(h);
    RequestForAll(Step(h, DepositCall(1, 100)));
  }

  lemma StrandedWhenEmptied(w: World)
    requires Looks(w, Fresh(5, 0).(totalStaked := 100, counter := 1, queue := OneOpen()), 200, 0, 1, 0, 0)
    ensures Stranded(w.stake)
  {
  }

  /** A stake can be stranded: two calls from a fresh contract. */
  lemma EmptiedIsStranded(h: History)
    requires h == Start()
    ensures Initial(h) && Stranded(Emptied(h).world.stake)
    ensures Looks(Emptied(h).world, Fresh(5, 0).(totalStaked := 100, counter := 1, queue := OneOpen()),
                  200, 0, 1, 0, 0)
  {
    StartLooks();
    DepositAndRequest(h);
    StrandedWhenEmptied(Emptied(h).world);
  }

  lemma DepositOfOne(h: History)
    requires Looks(h.world, Fresh(5, 0).(totalStaked := 100, counter := 1, queue := OneOpen()), 200, 0, 1, 0, 0)
    ensures Exec(h.world, DepositCall(2, 1)).Done? && Exec(h.world, DepositCall(2, 1)).value == Deposited(2, 1, 1)
    ensures Looks(Step(h, DepositCall(2, 1)).world,
                  Fresh(5, 0).(totalStaked := 101, totalSupply := 1, counter := 1, queue := OneOpen()), 201, 0, 0, 0, 1)
  {
  }

  lemma RequestForOne(h: History)
    requires Looks(h.world, Fresh(5, 0).(totalStaked := 101, totalSupply := 1, counter := 1, queue := OneOpen()),
                   201, 0, 0, 0, 1)
    ensures Exec(h.world, RequestCall(2, 1)).Done? && Exec(h.world, RequestCall(2, 1)).value == Delayed(2, 101, 1, 0)
    ensures Looks(Step(h, RequestCall(2, 1)).world,
                  Fresh(5, 0).(totalStaked := 101, counter := 2, queue := OneOpen()[1 := Request(1, 2, 101, 0, false)]),
                  201, 0, 0, 0, 0)
  {
  }

  /** User 2 deposits 1, redeems it at once and is answered with 101. */
  ghost predicate OneBuysAll(h: History) {
    var h1 := Step(h, DepositCall(2, 1));
    && Exec(h.world, DepositCall(2, 1)).Done? && Exec(h1.world, RequestCall(2, 1)).Done?
    && Exec(h1.world, RequestCall(2, 1)).value == Delayed(2, 101, 1, 0)
  }

  lemma EmptiedSellsAll(h: History)
    requires Looks(h.world, Fresh(5, 0).(totalStaked := 100, counter := 1, queue := OneOpen()), 200, 0, 1, 0, 0)
    ensures OneBuysAll(h)
  {
    DepositOfOne(h);
    RequestForOne(Step(h, DepositCall(2, 1)));
  }

  /** A stranded stake goes to the next depositor: four calls from a fresh contract. */
  lemma NextDepositorGains(h: History)
    requires h == Start()
    ensures Initial(h) && Stranded(Emptied(h).world.stake) && OneBuysAll(Emptied(h))
  {
    EmptiedIsStranded(h);
    EmptiedSellsAll(Emptied(h));
  }

  lemma BothAreClaimed(h: History)
    requires Looks(h.world,
                   Fresh(5, 0).(totalStaked := 101, counter := 2,
                                queue := OneOpen()[1 := Request(1, 2, 101, 0, false)]),
                   201, 0, 0, 0, 0)
    ensures Step(Step(h, ClaimCall(1, 0)), ClaimCall(2, 1)).world.stake.totalStaked == -100
  {
    var first := Step(h, ClaimCall(1, 0)).world;
    assert first.stake.totalStaked == 1 && Balance(first.native, 0) == 101;
    assert first.stake.queue[1] == Request(1, 2, 101, 0, false);
  }

  /** The emptied contract after user 2 deposits 1 and asks for it back, and both are claimed. */
  function BothClaimed(h: History): History {
    var asked := Step(Step(h, DepositCall(2, 1)), RequestCall(2, 1));
    Step(Step(asked, ClaimCall(1, 0)), ClaimCall(2, 1))
  }

  lemma ClaimsExceedStake(h: History)
    requires Looks(h.world, Fresh(5, 0).(totalStaked := 100, counter := 1, queue := OneOpen()), 200, 0, 1, 0, 0)
    ensures BothClaimed(h).world.stake.totalStaked == -100
  {
    var deposited := Step(h, DepositCall(2, 1));
    DepositOfOne(h);
    RequestForOne(deposited);
    BothAreClaimed(Step(deposited, RequestCall(2, 1)));
  }

  /** The staked total does not always cover the pending claims: six calls from a fresh contract
      pay both requests and leave it negative. */
  lemma StakedTotalCanGoNegative(h: History)
    requires h == Start()
    ensures Initial(h) && BothClaimed(Emptied(h)).world.stake.totalStaked == -100
  {
    EmptiedIsStranded(h);
    ClaimsExceedStake(Emptied(h));
  }

  /** What a call takes out of the staked total, or promises to, without a pending claim for it. */
  function Takes(s: Stake, c: Call): int {
    match c
    case RequestCall(_, amount) => if s.totalSupply == 0 then 0 else Worth(s, amount)
    case SlashCall(amount) => amount
    case _ => 0
  }

  /** A completed call keeps the pending claims covered exactly when it redeems or slashes no
      more than what is staked beyond them. Deposits, claims and all other calls always do. */
  lemma CoverKeptExactly(h: History, c: Call)
    requires QueueInv(h) && Pending(h.world.stake) <= h.world.stake.totalStaked && Exec(h.world, c).Done?
    ensures var s, s' := h.world.stake, Step(h, c).world.stake;
      Pending(s') <= s'.totalStaked <==> Takes(s, c) <= s.totalStaked - Pending(s)
  {
    var s, o := h.world.stake, Exec(h.world, c);
    CallChangesQueue(h.world, c);
    PendingChange(s, o.state.stake, o.value);
    if c.RewardCall? { RewardSplits(h.world, c.amount); }
  }

  lemma PendingChange(s: Stake, s': Stake, e: Event)
    requires WellNumbered(s) && QueueChange(s, s', e)
    ensures Pending(s') == Pending(s) + (if e.Delayed? then e.amount else if e.Claimed? then -e.amount else 0)
  {
    var amounts := PendingAmounts(s.queue);
    if e.Delayed? {
      assert PendingAmounts(s'.queue) == amounts[s.counter := e.amount];
      SumUpdate(amounts, s.counter, e.amount);
    } else if e.Claimed? {
      assert PendingAmounts(s'.queue) == amounts[e.id := 0];
      SumUpdate(amounts, e.id, 0);
    }
  }

  /** A matured claim can be paid. If the pending claims are covered by what is staked, and the
      rewards credited so far are within the instant payouts, the slashes and the gifts, then
      an open request can be claimed by its user as soon as it unlocks. */
  lemma MaturedClaimCompletes(h: History, id: nat)
    requires BooksInv(h) && QueueInv(h) && id in h.world.stake.queue
    requires Pending(h.world.stake) <= h.world.stake.totalStaked
    requires Total(Rewards, h.log) <= Total(InstantPayouts, h.log) + Total(Slashes, h.log) + h.gifts
    ensures var r := h.world.stake.queue[id];
      Exec(h.world, ClaimCall(r.user, id)).Done? <==> !r.claimed && r.unlock <= h.world.now
  {
    var s, r := h.world.stake, h.world.stake.queue[id];
    var amounts := PendingAmounts(s.queue);
    EntryAtMostSum(amounts, id);
    if !r.claimed {
      assert Get(amounts, id) == r.amount;
      assert r.amount <= Balance(h.world.native, h.world.self);
    }
  }
}
