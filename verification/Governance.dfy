/** The governance contract as a function on values: what each call does. */
module Governing {
  import opened Prelude
  import opened Tokens

  const MIN_PROPOSAL_BALANCE: int := 100_0000000

  datatype Proposal = Proposal(
    id: nat,
    proposer: Address,
    key: string,
    value: string,
    votesFor: int,
    votesAgainst: int,
    start: nat,
    end: nat,
    executed: bool)

  datatype Council = Council(
    admin: Address,
    votingPeriod: nat,
    quorumBps: nat,
    referenceSupply: int,
    count: nat,
    proposals: map<nat, Proposal>,
    voted: set<(nat, Address)>,
    params: map<string, string>)

  /** Everything a call of the contract reads and writes. `self` is the contract's address and
      `now` the ledger sequence number. */
  datatype World = World(self: Address, now: nat, sxlm: Ledger, council: Council)

  /** What a completed call reports. */
  datatype Event =
    | Proposed(id: nat)
    | Voted(id: nat, voter: Address, support: bool, weight: int, at: nat)
    | Executed(id: nat, key: string, value: string, at: nat, reference: int)
    | NoEvent

  /** The state `initialize` leaves. */
  function Fresh(admin: Address, votingPeriod: nat, quorumBps: nat): Council {
    Council(admin, votingPeriod, quorumBps, 0, 0, map[], {}, map[])
  }

  function SetReferenceSupply(w: World, supply: int): Outcome<World, Event> {
    if w.council.admin == w.self then Aborted(NotAuthorised)
    else if supply < 0 then Aborted(InvalidParameter)
    else Done(w.(council := w.council.(referenceSupply := supply)), NoEvent)
  }

  function CreateProposal(w: World, proposer: Address, key: string, value: string): Outcome<World, Event> {
    var g := w.council;
    if proposer == w.self then Aborted(NotAuthorised)
    else if Balance(w.sxlm, proposer) < MIN_PROPOSAL_BALANCE then Aborted(InsufficientBalance)
    else
      var p := Proposal(g.count, proposer, key, value, 0, 0, w.now, w.now + g.votingPeriod, false);
      Done(w.(council := g.(count := g.count + 1, proposals := g.proposals[g.count := p])), Proposed(g.count))
  }

  /** A vote weighs the voter's sXLM balance at this moment. */
  function Vote(w: World, voter: Address, id: nat, support: bool): Outcome<World, Event> {
    var g, weight := w.council, Balance(w.sxlm, voter);
    if voter == w.self then Aborted(NotAuthorised)
    else if id !in g.proposals then Aborted(NoSuchProposal)
    else
      var p := g.proposals[id];
      if w.now > p.end then Aborted(VotingEnded)
      else if (id, voter) in g.voted then Aborted(AlreadyVoted)
      else if weight <= 0 then Aborted(NoVotes)
      else
        var p' := if support then p.(votesFor := p.votesFor + weight) else p.(votesAgainst := p.votesAgainst + weight);
        Done(w.(council := g.(voted := g.voted + {(id, voter)}, proposals := g.proposals[id := p'])),
             Voted(id, voter, support, weight, w.now))
  }

  /** The votes a proposal needs, given the reference supply. */
  function Quorum(quorumBps: nat, reference: int): int {
    Div(reference * quorumBps, BPS)
  }

  function ExecuteProposal(w: World, id: nat): Outcome<World, Event> {
    var g := w.council;
    if id !in g.proposals then Aborted(NoSuchProposal)
    else
      var p := g.proposals[id];
      var votes := p.votesFor + p.votesAgainst;
      if p.executed then Aborted(AlreadyExecuted)
      else if w.now <= p.end then Aborted(VotingNotEnded)
      else if votes <= 0 then Aborted(NoVotes)
      else if g.referenceSupply > 0 && votes < Quorum(g.quorumBps, g.referenceSupply) then Aborted(QuorumNotMet)
      else if p.votesFor <= p.votesAgainst then Aborted(NotPassed)
      else
        Done(w.(council := g.(params := g.params[p.key := p.value],
                              proposals := g.proposals[id := p.(executed := true)])),
             Executed(id, p.key, p.value, w.now, g.referenceSupply))
  }

  function Param(g: Council, key: string): string {
    if key in g.params then g.params[key] else ""
  }
}

/** The governance contract, storage entry by storage entry. */
module GovernanceContracts {
  import opened Prelude
  import opened TokenContracts
  import Governing

  class GovernanceContract {
    const self: Address
    const sxlm: TokenContract
    const admin: Address
    const votingPeriod: nat
    const quorumBps: nat
    var referenceSupply: int
    var count: nat
    var proposals: map<nat, Governing.Proposal>
    var voted: set<(nat, Address)>
    var params: map<string, string>

    function View(now: nat): Governing.World
      reads this, sxlm
    {
      Governing.World(self, now, sxlm.View(),
        Governing.Council(admin, votingPeriod, quorumBps, referenceSupply, count, proposals, voted, params))
    }

    constructor (self: Address, sxlm: TokenContract, admin: Address, votingPeriod: nat, quorumBps: nat)
      ensures this.sxlm == sxlm
      ensures View(0) == Governing.World(self, 0, sxlm.View(), Governing.Fresh(admin, votingPeriod, quorumBps))
    {
      this.self, this.sxlm, this.admin := self, sxlm, admin;
      this.votingPeriod, this.quorumBps := votingPeriod, quorumBps;
      referenceSupply, count, proposals, voted, params := 0, 0, map[], {}, map[];
    }

    method SetReferenceSupply(now: nat, supply: int) returns (r: Answer<Governing.Event>)
      modifies this
      ensures var o := Governing.SetReferenceSupply(old(View(now)), supply);
        View(now) == o.After(old(View(now))) && r == o.Answer()
    {
      if admin == self { return Panicked(NotAuthorised); }
      if supply < 0 { return Panicked(InvalidParameter); }
      referenceSupply := supply;
      return Returned(Governing.NoEvent);
    }

    /** `next_proposal_id`: ids count up from zero. */
    method NextProposalId() returns (id: nat)
      modifies `count
      ensures id == old(count) && count == old(count) + 1
    {
      id := count;
      count := id + 1;
    }

    method CreateProposal(now: nat, proposer: Address, key: string, value: string) returns (r: Answer<Governing.Event>)
      modifies this
      ensures var o := Governing.CreateProposal(old(View(now)), proposer, key, value);
        View(now) == o.After(old(View(now))) && r == o.Answer()
    {
      if proposer == self { return Panicked(NotAuthorised); }
      var balance := sxlm.BalanceOf(proposer);
      if balance < Governing.MIN_PROPOSAL_BALANCE { return Panicked(InsufficientBalance); }
      var id := NextProposalId();
      proposals := proposals[id := Governing.Proposal(id, proposer, key, value, 0, 0, now, now + votingPeriod, false)];
      return Returned(Governing.Proposed(id));
    }

    method Vote(now: nat, voter: Address, id: nat, support: bool) returns (r: Answer<Governing.Event>)
      modifies this
      ensures var o := Governing.Vote(old(View(now)), voter, id, support);
        View(now) == o.After(old(View(now))) && r == o.Answer()
    {
      if voter == self { return Panicked(NotAuthorised); }
      if id !in proposals { return Panicked(NoSuchProposal); }
      var proposal := proposals[id];
      if now > proposal.end { return Panicked(VotingEnded); }
      if (id, voter) in voted { return Panicked(AlreadyVoted); }
      var weight := sxlm.BalanceOf(voter);
      if weight <= 0 { return Panicked(NoVotes); }
      if support {
        proposal := proposal.(votesFor := proposal.votesFor + weight);
      } else {
        proposal := proposal.(votesAgainst := proposal.votesAgainst + weight);
      }
      voted := voted + {(id, voter)};
      proposals := proposals[id := proposal];
      return Returned(Governing.Voted(id, voter, support, weight, now));
    }

    method ExecuteProposal(now: nat, id: nat) returns (r: Answer<Governing.Event>)
      modifies this
      ensures var o := Governing.ExecuteProposal(old(View(now)), id);
        View(now) == o.After(old(View(now))) && r == o.Answer()
    {
      if id !in proposals { return Panicked(NoSuchProposal); }
      var proposal := proposals[id];
      if proposal.executed { return Panicked(AlreadyExecuted); }
      if now <= proposal.end { return Panicked(VotingNotEnded); }
      var totalVotes := proposal.votesFor + proposal.votesAgainst;
      if totalVotes <= 0 { return Panicked(NoVotes); }
      if referenceSupply > 0 {
        var required := Div(referenceSupply * quorumBps, BPS);
        if totalVotes < required { return Panicked(QuorumNotMet); }
      }
      if proposal.votesFor <= proposal.votesAgainst { return Panicked(NotPassed); }
      params := params[proposal.key := proposal.value];
      proposals := proposals[id := proposal.(executed := true)];
      return Returned(Governing.Executed(id, proposal.key, proposal.value, now, referenceSupply));
    }

    method GetParam(key: string) returns (r: string)
      ensures r == Governing.Param(View(0).council, key)
    {
      r := if key in params then params[key] else "";
    }
  }
}
