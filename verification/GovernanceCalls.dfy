/** What each call of the governance contract does, said without the functions that model it:
    when it completes, what it answers and everything it changes. */
module GovernanceCalls {
  import opened Prelude
  import opened Tokens
  import opened Governing
  import opened GovernanceRuns

  /** A proposal without votes, open from one ledger to another. */
  ghost predicate NewlyOpened(p: Proposal, id: nat, proposer: Address, key: string, value: string, from: nat, to: nat) {
    && p.id == id && p.proposer == proposer && p.key == key && p.value == value
    && p.votesFor == 0 && p.votesAgainst == 0 && !p.executed
    && p.start == from && p.end == to
  }

  /** Whoever holds 100 sXLM can propose. The proposal takes the next id, says what the proposer
      said, and is open from now for the whole voting period. Nothing else changes. */
  lemma CreateExactly(w: World, proposer: Address, key: string, value: string)
    ensures CreateProposal(w, proposer, key, value).Done? <==>
      proposer != w.self && 100_0000000 <= Balance(w.sxlm, proposer)
    ensures var g, o := w.council, CreateProposal(w, proposer, key, value); o.Done? ==>
      var g' := o.state.council;
      && o.value == Proposed(g.count) && g.count in g'.proposals
      && NewlyOpened(g'.proposals[g.count], g.count, proposer, key, value, w.now, w.now + g.votingPeriod)
      && g'.proposals.Keys == g.proposals.Keys + {g.count}
      && (forall other :: other in g.proposals && other != g.count ==> g'.proposals[other] == g.proposals[other])
      && o.state == w.(council := g.(count := g.count + 1, proposals := g'.proposals))
  {
  }

  /** A vote completes exactly up to the end of the proposal, once, with some sXLM. */
  lemma VoteExactly(w: World, voter: Address, id: nat, support: bool)
    ensures Vote(w, voter, id, support).Done? <==>
      (voter != w.self && id in w.council.proposals && w.now <= w.council.proposals[id].end
       && (id, voter) !in w.council.voted && 0 < Balance(w.sxlm, voter))
    ensures var g, o, weight := w.council, Vote(w, voter, id, support), Balance(w.sxlm, voter); o.Done? ==>
      var g' := o.state.council;
      var p, p' := g.proposals[id], g'.proposals[id];
      && o.value == Voted(id, voter, support, weight, w.now)
      && p'.votesFor - p.votesFor == (if support then weight else 0)
      && p'.votesAgainst - p.votesAgainst == (if support then 0 else weight)
      && p' == p.(votesFor := p'.votesFor, votesAgainst := p'.votesAgainst)
      && g'.proposals == g.proposals[id := p']
      && (forall i: nat, v: Address :: (i, v) in g'.voted <==> (i, v) in g.voted || (i == id && v == voter))
      && o.state == w.(council := g.(proposals := g'.proposals, voted := g'.voted))
  {
  }

  /** A vote counts from the ledger in which the proposal is made. */
  lemma ProposalIsOpen(w: World, proposer: Address, key: string, value: string, support: bool, later: nat)
    requires CreateProposal(w, proposer, key, value).Done? && (w.council.count, proposer) !in w.council.voted
    ensures var w' := CreateProposal(w, proposer, key, value).state;
      Vote(w'.(now := w.now + later), proposer, w.council.count, support).Done? <==> later <= w.council.votingPeriod
  {
    var w' := CreateProposal(w, proposer, key, value).state;
    CreateExactly(w, proposer, key, value);
    VoteExactly(w'.(now := w.now + later), proposer, w.council.count, support);
  }

  /** An execution sets the parameter the proposal names and marks the proposal; `ExecutableExactly`
      says when it completes. */
  lemma ExecuteExactly(w: World, id: nat)
    requires ExecuteProposal(w, id).Done?
    ensures var g, o := w.council, ExecuteProposal(w, id);
      var p, g' := g.proposals[id], o.state.council;
      && o.value == Executed(id, p.key, p.value, w.now, g.referenceSupply)
      && Param(g', p.key) == p.value && (forall key :: key != p.key ==> Param(g', key) == Param(g, key))
      && g'.proposals == g.proposals[id := p.(executed := true)]
      && o.state == w.(council := g.(proposals := g'.proposals, params := g'.params))
  {
    ExecutableExactly(w, id);
  }

  /** The reference supply is the admin's to set; it changes nothing else. */
  lemma ReferenceExactly(w: World, supply: int)
    ensures SetReferenceSupply(w, supply).Done? <==> w.council.admin != w.self && 0 <= supply
    ensures SetReferenceSupply(w, supply).Done? ==>
      SetReferenceSupply(w, supply).state == w.(council := w.council.(referenceSupply := supply))
  {
  }
}
