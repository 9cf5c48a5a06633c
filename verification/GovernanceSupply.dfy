/** What a tally can add up to, compared with the sXLM there is. */
module GovernanceSupply {
  import opened Prelude
  import opened Sums
  import opened Tokens
  import opened Governing
  import opened GovernanceRuns
  import TokenRuns

  ghost function Voters(g: Council, id: nat): set<Address> {
    set vote | vote in g.voted && vote.0 == id :: vote.1
  }

  /** The two tallies of a proposal together; nothing before it exists. */
  function Votes(g: Council, id: nat): int {
    if id in g.proposals then g.proposals[id].votesFor + g.proposals[id].votesAgainst else 0
  }

  /** The sXLM that the voters on a proposal hold between them now. */
  ghost function Held(w: World, id: nat): int {
    SumOver(Voters(w.council, id), w.sxlm.balances)
  }

  /** By how much the tallies exceed that. A caller reads it off the votes and the balances. */
  ghost function Excess(w: World, id: nat): int {
    Votes(w.council, id) - Held(w, id)
  }

  // --- Calls of the council ---

  predicate TokenFree(calls: seq<Call>) {
    forall c :: c in calls ==> !c.OnToken? && !c.Outside?
  }

  /** A vote adds the same amount to the tallies and to what the voters hold, and no other
      call of the council touches either. */
  lemma CouncilKeepsExcess(w: World, c: Call, id: nat)
    requires Numbered(w.council) && !c.OnToken? && !c.Outside?
    ensures var w' := Exec(w, c).After(w); Excess(w', id) == Excess(w, id) && w'.sxlm == w.sxlm
  {
    var w', voters := Exec(w, c).After(w), Voters(w.council, id);
    if c.VoteCall? && c.id == id && Exec(w, c).Done? {
      assert Voters(w'.council, id) == voters + {c.voter};
      SumWithout(voters + {c.voter}, w.sxlm.balances, c.voter);
      assert voters + {c.voter} - {c.voter} == voters;
    } else {
      assert Voters(w'.council, id) == voters;
    }
  }

  // --- Calls of the token ---

  /** What a call takes out of the joint holdings of a group, net of what it brings in. */
  function Outflow(l: Ledger, c: TokenRuns.Call, group: set<Address>): int {
    if TokenRuns.Exec(l, c).Aborted? then 0 else
      match c
      case MintCall(_, to, amount) => -Part(to, amount, group)
      case BurnCall(_, from, amount) => Part(from, amount, group)
      case TransferCall(from, to, amount) => Part(from, amount, group) - Part(to, amount, group)
      case ApproveCall(_, _, _) => 0
      case TransferFromCall(_, from, to, amount) => Part(from, amount, group) - Part(to, amount, group)
  }

  function Part(who: Address, amount: int, group: set<Address>): int {
    if who in group then amount else 0
  }

  lemma HeldAfterWrite(group: set<Address>, m: map<Address, int>, who: Address, change: int)
    ensures SumOver(group, m[who := Get(m, who) + change]) == SumOver(group, m) + Part(who, change, group)
  {
    var m' := m[who := Get(m, who) + change];
    if who in group {
      SumWithout(group, m, who);
      SumWithout(group, m', who);
      SumAgrees(group - {who}, m, m');
    } else {
      SumAgrees(group, m, m');
    }
  }

  lemma HeldAfterTransfer(group: set<Address>, l: Ledger, from: Address, to: Address, amount: int)
    requires Transfer(l, from, to, amount).Done?
    ensures SumOver(group, Transfer(l, from, to, amount).state.balances) ==
      SumOver(group, l.balances) - Part(from, amount, group) + Part(to, amount, group)
  {
    HeldAfterWrite(group, l.balances, from, -amount);
    HeldAfterWrite(group, l.balances[from := Balance(l, from) - amount], to, amount);
  }

  lemma HeldAfterTransferFrom(group: set<Address>, l: Ledger, spender: Address, from: Address, to: Address, amount: int)
    requires TransferFrom(l, spender, from, to, amount).Done?
    ensures SumOver(group, TransferFrom(l, spender, from, to, amount).state.balances) ==
      SumOver(group, l.balances) - Part(from, amount, group) + Part(to, amount, group)
  {
    var spent := l.allowances[(from, spender) := Allowance(l, from, spender) - amount];
    HeldAfterTransfer(group, l.(allowances := spent), from, to, amount);
  }

  lemma TokenMovesHeld(group: set<Address>, l: Ledger, c: TokenRuns.Call)
    ensures SumOver(group, TokenRuns.Step(l, c).balances) == SumOver(group, l.balances) - Outflow(l, c, group)
  {
    if TokenRuns.Exec(l, c).Done? {
      match c
      case MintCall(_, to, amount) => HeldAfterWrite(group, l.balances, to, amount);
      case BurnCall(_, from, amount) => HeldAfterWrite(group, l.balances, from, -amount);
      case TransferCall(from, to, amount) => HeldAfterTransfer(group, l, from, to, amount);
      case ApproveCall(_, _, _) =>
      case TransferFromCall(spender, from, to, amount) => HeldAfterTransferFrom(group, l, spender, from, to, amount);
    }
  }

  /** Moves sXLM out of the joint holdings of a group: from a member to somebody outside, or
      burnt. */
  predicate TakesOut(c: TokenRuns.Call, group: set<Address>) {
    match c
    case BurnCall(_, from, amount) => from in group && amount != 0
    case TransferCall(from, to, amount) => from in group && to !in group && amount != 0
    case TransferFromCall(_, from, to, amount) => from in group && to !in group && amount != 0
    case _ => false
  }

  /** A call of the token raises the excess exactly when it completes and takes sXLM out of the
      voters' joint holdings. */
  lemma OnlyTakingOutRaises(w: World, c: TokenRuns.Call, id: nat)
    ensures var w' := Exec(w, OnToken(c)).After(w);
      && Excess(w', id) == Excess(w, id) + Outflow(w.sxlm, c, Voters(w.council, id))
      && (Excess(w, id) < Excess(w', id) <==>
            TokenRuns.Exec(w.sxlm, c).Done? && TakesOut(c, Voters(w.council, id)))
  {
    TokenMovesHeld(Voters(w.council, id), w.sxlm, c);
  }

  // --- Runs ---

  /** What the token calls of a run took out of the joint holdings of those who had then voted. */
  ghost function TakenOut(h: History, calls: seq<Call>, id: nat): int
    decreases calls
  {
    if calls == [] then 0 else
      var c := calls[0];
      (if c.OnToken? then Outflow(h.world.sxlm, c.call, Voters(h.world.council, id)) else 0)
      + TakenOut(Step(h, c), calls[1..], id)
  }

  lemma {:induction false} RunMovesExcess(h: History, calls: seq<Call>, id: nat)
    requires Inv(h) && Solvent(h.world.sxlm) && (forall c :: c in calls ==> !c.Outside?)
    ensures Inv(Run(h, calls)) && Solvent(Run(h, calls).world.sxlm)
    ensures Excess(Run(h, calls).world, id) == Excess(h.world, id) + TakenOut(h, calls, id)
    decreases calls
  {
    if calls != [] {
      var c, h' := calls[0], Step(h, calls[0]);
      RunKeeps(h, [c]);
      assert Run(h, [c]) == h';
      if c.OnToken? {
        OnlyTakingOutRaises(h.world, c.call, id);
        TokenRuns.StepKeepsSolvent(h.world.sxlm, c.call);
      } else {
        CouncilKeepsExcess(h.world, c, id);
      }
      RunMovesExcess(h', calls[1..], id);
    }
  }

  /** From before a proposal exists, over any calls of the council and the token, the excess is
      exactly what was taken out of the voters' joint holdings after they had voted. */
  lemma ExcessIsTakenOut(h: History, calls: seq<Call>, id: nat)
    requires Inv(h) && Solvent(h.world.sxlm) && id !in h.world.council.proposals
    requires forall c :: c in calls ==> !c.Outside?
    ensures Inv(Run(h, calls)) && Solvent(Run(h, calls).world.sxlm)
    ensures Excess(Run(h, calls).world, id) == TakenOut(h, calls, id)
  {
    forall voter: Address ensures (id, voter) !in h.world.council.voted {
      assert (id, voter) in h.world.council.voted <==> VotedIn(h.log, id, voter);
    }
    assert Voters(h.world.council, id) == {};
    RunMovesExcess(h, calls, id);
  }

  /** So once voting is over the two tallies together are, for good and whatever happens later,
      what the voters hold at that moment and the excess. They are within the supply of that
      moment exactly when the excess is within what the others hold, and so whenever no more
      was taken out of the voters' holdings than came back. */
  lemma TallyWithinSupply(h: History, calls: seq<Call>, id: nat, later: seq<Call>)
    requires Inv(h) && Solvent(h.world.sxlm) && id !in h.world.council.proposals
    requires forall c :: c in calls ==> !c.Outside?
    requires var w := Run(h, calls).world; id in w.council.proposals && w.council.proposals[id].end < w.now
    ensures var w, votes := Run(h, calls).world, Votes(Run(Run(h, calls), later).world.council, id);
      && votes == Held(w, id) + Excess(w, id) && Excess(w, id) == TakenOut(h, calls, id)
      && (votes <= w.sxlm.totalSupply <==> Excess(w, id) <= w.sxlm.totalSupply - Held(w, id))
      && (Excess(w, id) <= 0 ==> votes <= w.sxlm.totalSupply)
  {
    ExcessIsTakenOut(h, calls, id);
    var w := Run(h, calls).world;
    PartAtMostSum(Voters(w.council, id), w.sxlm.balances.Keys, w.sxlm.balances);
    TallyIsFinal(Run(h, calls), later, id);
  }

  // --- How high a tally can go ---

  /** The contract's own address signs nothing, so it never votes. */
  lemma {:induction false} SelfNeverVotes(h: History, calls: seq<Call>, id: nat)
    requires (id, h.world.self) !in h.world.council.voted
    ensures Run(h, calls).world.self == h.world.self
    ensures (id, h.world.self) !in Run(h, calls).world.council.voted
    decreases calls
  {
    if calls != [] {
      SelfNeverVotes(Step(h, calls[0]), calls[1..], id);
    }
  }

  lemma {:induction false} TokenFreeRun(h: History, calls: seq<Call>, id: nat)
    requires Numbered(h.world.council) && TokenFree(calls)
    ensures var w, w' := h.world, Run(h, calls).world; Excess(w', id) == Excess(w, id) && w'.sxlm == w.sxlm
    decreases calls
  {
    if calls != [] {
      CouncilKeepsExcess(h.world, calls[0], id);
      TokenFreeRun(Step(h, calls[0]), calls[1..], id);
    }
  }

  /** Everybody in `rest` votes, one after another. */
  lemma {:induction false} AllVote(h: History, id: nat, rest: set<Address>) returns (calls: seq<Call>)
    requires id in h.world.council.proposals && h.world.now <= h.world.council.proposals[id].end
    requires forall a :: a in rest ==>
      a != h.world.self && 0 < Balance(h.world.sxlm, a) && (id, a) !in h.world.council.voted
    ensures TokenFree(calls)
    ensures forall a :: a in rest || (id, a) in h.world.council.voted ==> (id, a) in Run(h, calls).world.council.voted
    decreases rest
  {
    calls := [];
    if rest != {} {
      var a :| a in rest;
      var tail := AllVote(Step(h, VoteCall(a, id, true)), id, rest - {a});
      calls := [VoteCall(a, id, true)] + tail;
      assert calls[1..] == tail;
    }
  }

  /** All that anybody but the contract holds. */
  ghost function Votable(w: World): int {
    Sum(w.sxlm.balances) - Balance(w.sxlm, w.self)
  }

  lemma SumOfOthers(w: World)
    ensures SumOver(w.sxlm.balances.Keys - {w.self}, w.sxlm.balances) == Votable(w)
  {
    var m := w.sxlm.balances;
    if w.self in m {
      SumWithout(m.Keys, m, w.self);
    } else {
      assert m.Keys - {w.self} == m.Keys;
    }
  }

  /** Without calls of the token no tally goes beyond the excess and all that can vote ... */
  lemma TallyCeiling(h: History, calls: seq<Call>, id: nat)
    requires Numbered(h.world.council) && NonNegative(h.world.sxlm.balances)
    requires TokenFree(calls) && (id, h.world.self) !in h.world.council.voted
    ensures Votes(Run(h, calls).world.council, id) <= Excess(h.world, id) + Votable(h.world)
  {
    var w' := Run(h, calls).world;
    TokenFreeRun(h, calls, id);
    SelfNeverVotes(h, calls, id);
    SumOfOthers(w');
    PartAtMostSum(Voters(w'.council, id), w'.sxlm.balances.Keys - {w'.self}, w'.sxlm.balances);
  }

  /** ... and while voting is open, some run reaches that. */
  lemma CeilingReached(h: History, id: nat) returns (calls: seq<Call>)
    requires Numbered(h.world.council) && NonNegative(h.world.sxlm.balances)
    requires id in h.world.council.proposals && h.world.now <= h.world.council.proposals[id].end
    requires (id, h.world.self) !in h.world.council.voted
    ensures TokenFree(calls)
    ensures Votes(Run(h, calls).world.council, id) == Excess(h.world, id) + Votable(h.world)
  {
    var m, self, voted := h.world.sxlm.balances, h.world.self, h.world.council.voted;
    var rest := set a | a in m && a != self && 0 < m[a] && (id, a) !in voted;
    calls := AllVote(h, id, rest);
    var w' := Run(h, calls).world;
    TokenFreeRun(h, calls, id);
    SelfNeverVotes(h, calls, id);
    TallyCeiling(h, calls, id);
    SumOfOthers(w');
    forall a | a in m.Keys - {self} && a !in Voters(w'.council, id) ensures Get(m, a) == 0 {
      assert a !in rest && (id, a) !in w'.council.voted;
    }
    PartAtMostSum(m.Keys - {self}, Voters(w'.council, id), m);
  }

  /** While voting is open, votes alone can take the tallies beyond all the sXLM there is
      exactly when they exceed what the voters now hold by more than the contract holds, which
      can never vote. */
  lemma ExceedsSupplyExactly(h: History, id: nat)
    requires Numbered(h.world.council) && NonNegative(h.world.sxlm.balances)
    requires id in h.world.council.proposals && h.world.now <= h.world.council.proposals[id].end
    requires (id, h.world.self) !in h.world.council.voted
    ensures (exists calls :: TokenFree(calls)
               && Sum(h.world.sxlm.balances) < Votes(Run(h, calls).world.council, id)) <==>
      Balance(h.world.sxlm, h.world.self) < Excess(h.world, id)
  {
    var most := CeilingReached(h, id);
    forall calls | TokenFree(calls)
      ensures Votes(Run(h, calls).world.council, id) <= Excess(h.world, id) + Votable(h.world)
    {
      TallyCeiling(h, calls, id);
    }
  }

  // --- A case ---

  /** A council on which user 1 holds all 100 sXLM and proposal 0 is open. */
  function OpenProposal(): World {
    var p := Proposal(0, 1, "fee", "500", 0, 0, 0, 100, false);
    World(0, 0, Ledger(9, map[1 := MIN_PROPOSAL_BALANCE], map[], MIN_PROPOSAL_BALANCE),
          Fresh(5, 100, 1000).(count := 1, proposals := map[0 := p]))
  }

  /** A vote counts the voter's balance of that moment, so sXLM that moves out of the voters'
      holdings counts again: a tally of twice the supply, reached from a fresh council. */
  lemma MovedTokensCountAgain()
    ensures var start := OpenProposal().(council := Fresh(5, 100, 1000));
      CreateProposal(start, 1, "fee", "500").Done? && CreateProposal(start, 1, "fee", "500").state == OpenProposal()
    ensures var w := OpenProposal();
      var voted := Vote(w, 1, 0, true);
      var moved := Transfer(w.sxlm, 1, 2, MIN_PROPOSAL_BALANCE);
      && voted.Done? && moved.Done?
      && var again := Vote(voted.state.(sxlm := moved.state), 2, 0, true);
        again.Done? && again.state.council.proposals[0].votesFor == 2 * w.sxlm.totalSupply
  {
  }
}
