/** Governance over whole runs: votes, final tallies and executions. */
module GovernanceRuns {
  import opened Prelude
  import opened Sums
  import opened Tokens
  import opened Governing
  import Arith
  import TokenRuns

  /** `OnToken` is a call of the sXLM token, `Outside` stands for anything at all that happens to
      it, `Wait` for ledgers passing. */
  datatype Call =
    | ProposeCall(proposer: Address, key: string, value: string)
    | VoteCall(voter: Address, id: nat, support: bool)
    | ExecuteCall(id: nat)
    | ReferenceCall(supply: int)
    | OnToken(call: TokenRuns.Call)
    | Outside(sxlm: Ledger)
    | Wait(ledgers: nat)

  /** A world with the events of the calls completed so far; the log is not contract storage. */
  datatype History = History(world: World, log: seq<Event>)

  function Exec(w: World, c: Call): Outcome<World, Event> {
    match c
    case ProposeCall(proposer, key, value) => CreateProposal(w, proposer, key, value)
    case VoteCall(voter, id, support) => Vote(w, voter, id, support)
    case ExecuteCall(id) => ExecuteProposal(w, id)
    case ReferenceCall(supply) => SetReferenceSupply(w, supply)
    case OnToken(call) => Done(w.(sxlm := TokenRuns.Step(w.sxlm, call)), NoEvent)
    case Outside(sxlm) => Done(w.(sxlm := sxlm), NoEvent)
    case Wait(ledgers) => Done(w.(now := w.now + ledgers), NoEvent)
  }

  function Step(h: History, c: Call): History {
    match Exec(h.world, c)
    case Aborted(_) => h
    case Done(w, e) => History(w, h.log + [e])
  }

  function Run(h: History, calls: seq<Call>): History
    decreases calls
  {
    if calls == [] then h else Run(Step(h, calls[0]), calls[1..])
  }

  ghost predicate Initial(h: History) {
    var g := h.world.council;
    g == Fresh(g.admin, g.votingPeriod, g.quorumBps) && h.log == []
  }

  // --- Tallies ---

  /** The weight of the recorded votes on a proposal, for or against. */
  function Cast(log: seq<Event>, id: nat, support: bool): int {
    if log == [] then 0 else
      var e := log[|log| - 1];
      Cast(log[..|log| - 1], id, support) + Weight(e, id, support)
  }

  function Weight(e: Event, id: nat, support: bool): int {
    if e.Voted? && e.id == id && e.support == support then e.weight else 0
  }

  lemma CastGrows(log: seq<Event>, e: Event, id: nat, support: bool)
    ensures Cast(log + [e], id, support) == Cast(log, id, support) + Weight(e, id, support)
  {
    assert (log + [e])[..|log|] == log;
  }

  ghost predicate VotedIn(log: seq<Event>, id: nat, voter: Address) {
    exists i :: 0 <= i < |log| && log[i].Voted? && log[i].id == id && log[i].voter == voter
  }

  ghost predicate Numbered(g: Council) {
    && (forall id: nat :: id in g.proposals <==> id < g.count)
    && (forall id :: id in g.proposals ==> g.proposals[id].id == id)
  }

  /** Each tally is the sum of the recorded weights of that side. */
  ghost predicate TallyInv(h: History) {
    var g := h.world.council;
    && Numbered(g)
    && (forall id: nat, support :: id !in g.proposals ==> Cast(h.log, id, support) == 0)
    && (forall id :: id in g.proposals ==>
          g.proposals[id].votesFor == Cast(h.log, id, true) && g.proposals[id].votesAgainst == Cast(h.log, id, false))
  }

  /** Each recorded vote is positive, on an existing proposal, within its voting period; nobody
      is recorded twice on a proposal; and the vote flags are exactly the recorded votes. */
  ghost predicate VotersInv(h: History) {
    var g := h.world.council;
    && (forall i :: 0 <= i < |h.log| && h.log[i].Voted? ==>
          var e := h.log[i];
          0 < e.weight && e.id in g.proposals && g.proposals[e.id].start <= e.at <= g.proposals[e.id].end)
    && (forall i, j :: 0 <= i < j < |h.log| && h.log[i].Voted? && h.log[j].Voted? && h.log[i].id == h.log[j].id ==>
          h.log[i].voter != h.log[j].voter)
    && (forall id: nat, voter: Address :: (id, voter) in g.voted <==> VotedIn(h.log, id, voter))
  }

  lemma StepKeepsTally(h: History, c: Call)
    requires TallyInv(h)
    ensures TallyInv(Step(h, c))
  {
    var o := Exec(h.world, c);
    if o.Done? {
      TallyGrows(h, o.state, o.value);
    }
  }

  /** What a call does to the tallies, seen from the event it reports. */
  ghost predicate TallyChange(g: Council, g': Council, e: Event) {
    && Numbered(g')
    && g.proposals.Keys <= g'.proposals.Keys
    && (e.Voted? ==> e.id in g.proposals)
    && (forall id :: id in g'.proposals ==>
          TallyOf(g', id, true) == TallyOf(g, id, true) + Weight(e, id, true)
          && TallyOf(g', id, false) == TallyOf(g, id, false) + Weight(e, id, false))
  }

  function TallyOf(g: Council, id: nat, support: bool): int {
    if id !in g.proposals then 0 else if support then g.proposals[id].votesFor else g.proposals[id].votesAgainst
  }

  lemma TallyGrows(h: History, w': World, e: Event)
    requires TallyInv(h) && TallyChange(h.world.council, w'.council, e)
    ensures TallyInv(History(w', h.log + [e]))
  {
    forall id: nat, support {
      CastGrows(h.log, e, id, support);
    }
  }

  lemma VotedInGrows(log: seq<Event>, e: Event)
    ensures forall id, voter :: VotedIn(log + [e], id, voter) <==>
      VotedIn(log, id, voter) || (e.Voted? && e.id == id && e.voter == voter)
  {
    forall id, voter
      ensures VotedIn(log + [e], id, voter) <==> VotedIn(log, id, voter) || (e.Voted? && e.id == id && e.voter == voter)
    {
      if VotedIn(log, id, voter) {
        var i :| 0 <= i < |log| && log[i].Voted? && log[i].id == id && log[i].voter == voter;
        assert (log + [e])[i] == log[i];
      }
      if e.Voted? && e.id == id && e.voter == voter {
        assert (log + [e])[|log|] == e;
      }
    }
  }

  /** Proposals were opened in the past, and each has the whole voting period. */
  ghost predicate Opened(w: World) {
    forall id :: id in w.council.proposals ==>
      var p := w.council.proposals[id]; p.start <= w.now && p.end == p.start + w.council.votingPeriod
  }

  /** A vote adds the voter's balance of that moment to the side it supports, and changes no
      other tally. */
  lemma VoteCounts(w: World, voter: Address, id: nat, support: bool)
    requires Vote(w, voter, id, support).Done?
    ensures var g, g', weight := w.council, Vote(w, voter, id, support).state.council, Balance(w.sxlm, voter);
      && 0 < weight && Vote(w, voter, id, support).value == Voted(id, voter, support, weight, w.now)
      && g'.proposals[id].votesFor - g.proposals[id].votesFor == (if support then weight else 0)
      && g'.proposals[id].votesAgainst - g.proposals[id].votesAgainst == (if support then 0 else weight)
      && g'.proposals.Keys == g.proposals.Keys
      && (forall other :: other in g.proposals && other != id ==> g'.proposals[other] == g.proposals[other])
  {
  }

  /** What a call does to the vote flags and the voting periods, seen from the event it reports. */
  ghost predicate VoterChange(g: Council, g': Council, e: Event) {
    && (forall id :: id in g.proposals ==>
          && id in g'.proposals
          && g'.proposals[id].start == g.proposals[id].start && g'.proposals[id].end == g.proposals[id].end)
    && (e.Voted? ==>
          && 0 < e.weight && e.id in g.proposals && g.proposals[e.id].start <= e.at <= g.proposals[e.id].end
          && (e.id, e.voter) !in g.voted && g'.voted == g.voted + {(e.id, e.voter)})
    && (!e.Voted? ==> g'.voted == g.voted)
  }

  lemma VotersGrow(h: History, w': World, e: Event)
    requires VotersInv(h) && VoterChange(h.world.council, w'.council, e)
    ensures VotersInv(History(w', h.log + [e]))
  {
    VotedInGrows(h.log, e);
    forall i | 0 <= i < |h.log| && h.log[i].Voted? ensures VotedIn(h.log, h.log[i].id, h.log[i].voter) {}
    assert e.Voted? ==> !VotedIn(h.log, e.id, e.voter);
  }

  lemma CallChangesVoters(w: World, c: Call)
    requires Numbered(w.council) && Opened(w) && Exec(w, c).Done?
    ensures VoterChange(w.council, Exec(w, c).state.council, Exec(w, c).value)
  {
  }

  lemma CallKeepsOpened(w: World, c: Call)
    requires Opened(w) && Exec(w, c).Done?
    ensures Opened(Exec(w, c).state)
  {
  }

  lemma StepKeepsVoters(h: History, c: Call)
    requires Numbered(h.world.council) && Opened(h.world) && VotersInv(h)
    ensures Opened(Step(h, c).world) && VotersInv(Step(h, c))
  {
    var o := Exec(h.world, c);
    if o.Done? {
      CallKeepsOpened(h.world, c);
      CallChangesVoters(h.world, c);
      VotersGrow(h, o.state, o.value);
    }
  }

  // --- Executions ---

  /** The tally passes and, given a reference supply, reaches the floor of its quorum share. */
  ghost predicate Passes(p: Proposal, quorumBps: nat, reference: int) {
    var votes := p.votesFor + p.votesAgainst;
    p.votesAgainst < p.votesFor && 0 < votes && (0 < reference ==> reference * quorumBps < (votes + 1) * BPS)
  }

  lemma QuorumReached(quorumBps: nat, reference: int, votes: int)
    requires 0 < reference
    ensures Quorum(quorumBps, reference) <= votes <==> reference * quorumBps < (votes + 1) * BPS
  {
    Arith.MulNonNegative(reference, quorumBps);
    Arith.Floor(reference * quorumBps, BPS);
  }

  /** A proposal can be executed exactly when its period is over, it was not executed before
      and its tally passes. */
  lemma ExecutableExactly(w: World, id: nat)
    ensures ExecuteProposal(w, id).Done? <==>
      (id in w.council.proposals && !w.council.proposals[id].executed && w.council.proposals[id].end < w.now
       && Passes(w.council.proposals[id], w.council.quorumBps, w.council.referenceSupply))
  {
    if id in w.council.proposals && 0 < w.council.referenceSupply {
      var p := w.council.proposals[id];
      QuorumReached(w.council.quorumBps, w.council.referenceSupply, p.votesFor + p.votesAgainst);
    }
  }

  /** The execution the event reports was due: the voting period was over, and on the tally
      that stands the proposal passes, with the quorum of that moment. */
  ghost predicate Due(g: Council, e: Event)
    requires e.Executed?
  {
    && e.id in g.proposals
    && var p := g.proposals[e.id];
      && p.executed && p.key == e.key && p.value == e.value && p.end < e.at
      && Passes(p, g.quorumBps, e.reference)
  }

  /** The value that the last execution for a key gave it. */
  function Latest(log: seq<Event>, key: string): Option<string> {
    if log == [] then None else
      var e := log[|log| - 1];
      if e.Executed? && e.key == key then Some(e.value) else Latest(log[..|log| - 1], key)
  }

  lemma LatestGrows(log: seq<Event>, e: Event, key: string)
    ensures Latest(log + [e], key) == if e.Executed? && e.key == key then Some(e.value) else Latest(log, key)
  {
    assert (log + [e])[..|log|] == log;
  }

  ghost predicate ExecutedIn(log: seq<Event>, id: nat) {
    exists i :: 0 <= i < |log| && log[i].Executed? && log[i].id == id
  }

  /** Every execution in the log was due and stays due, no proposal is executed twice, the
      executed proposals are exactly those in the log, and the log is not ahead of time. */
  ghost predicate ExecutionInv(h: History) {
    var g := h.world.council;
    && (forall i :: 0 <= i < |h.log| && h.log[i].Executed? ==> Due(g, h.log[i]) && h.log[i].at <= h.world.now)
    && (forall i, j :: 0 <= i < j < |h.log| && h.log[i].Executed? && h.log[j].Executed? ==> h.log[i].id != h.log[j].id)
    && (forall id :: id in g.proposals ==> (g.proposals[id].executed <==> ExecutedIn(h.log, id)))
  }

  /** A parameter is what the last execution for its key made it. */
  ghost predicate ParamInv(h: History) {
    forall key :: if key in h.world.council.params then Latest(h.log, key) == Some(h.world.council.params[key])
                  else Latest(h.log, key) == None
  }

  lemma ExecutedInGrows(log: seq<Event>, e: Event)
    ensures forall id :: ExecutedIn(log + [e], id) <==> ExecutedIn(log, id) || (e.Executed? && e.id == id)
  {
    forall id
      ensures ExecutedIn(log + [e], id) <==> ExecutedIn(log, id) || (e.Executed? && e.id == id)
    {
      if ExecutedIn(log, id) {
        var i :| 0 <= i < |log| && log[i].Executed? && log[i].id == id;
        assert (log + [e])[i] == log[i];
      }
      if e.Executed? && e.id == id {
        assert (log + [e])[|log|] == e;
      }
    }
  }

  /** What a call does to the executions, seen from the event it reports: an executed proposal
      no longer changes, and the one the event names is due. */
  ghost predicate ExecutionChange(g: Council, g': Council, e: Event) {
    && g'.quorumBps == g.quorumBps
    && (forall id :: id in g.proposals && g.proposals[id].executed ==>
          id in g'.proposals && g'.proposals[id] == g.proposals[id])
    && (forall id :: id in g'.proposals ==>
          (g'.proposals[id].executed <==> WasExecuted(g, id) || (e.Executed? && e.id == id)))
    && (e.Executed? ==> Due(g', e) && e.id in g.proposals && !g.proposals[e.id].executed)
  }

  predicate WasExecuted(g: Council, id: nat) {
    id in g.proposals && g.proposals[id].executed
  }

  /** An executed proposal stays as it is: it cannot be voted on, having ended. */
  lemma CallChangesExecutions(w: World, c: Call)
    requires Numbered(w.council) && Exec(w, c).Done?
    requires forall id :: id in w.council.proposals && w.council.proposals[id].executed ==>
      w.council.proposals[id].end < w.now
    ensures var o := Exec(w, c);
      && ExecutionChange(w.council, o.state.council, o.value)
      && w.now <= o.state.now && (o.value.Executed? ==> o.value.at == w.now)
  {
    if c.ExecuteCall? { ExecutableExactly(w, c.id); }
  }

  lemma ExecutionsGrow(h: History, w': World, e: Event)
    requires ExecutionInv(h) && ExecutionChange(h.world.council, w'.council, e)
    requires h.world.council.proposals.Keys <= w'.council.proposals.Keys
    requires h.world.now <= w'.now && (e.Executed? ==> e.at <= w'.now)
    requires forall id :: ExecutedIn(h.log, id) ==> id in h.world.council.proposals
    ensures ExecutionInv(History(w', h.log + [e]))
  {
    ExecutedInGrows(h.log, e);
    forall i | 0 <= i < |h.log| && h.log[i].Executed?
      ensures ExecutedIn(h.log, h.log[i].id) && Due(w'.council, h.log[i])
    {
      assert Due(h.world.council, h.log[i]);
    }
  }

  lemma StepKeepsExecutions(h: History, c: Call)
    requires Numbered(h.world.council) && ExecutionInv(h)
    ensures ExecutionInv(Step(h, c))
  {
    var o, g := Exec(h.world, c), h.world.council;
    if o.Done? {
      forall id | ExecutedIn(h.log, id)
        ensures id in g.proposals && g.proposals[id].end < h.world.now
      {
        var i :| 0 <= i < |h.log| && h.log[i].Executed? && h.log[i].id == id;
        assert Due(g, h.log[i]);
      }
      CallChangesExecutions(h.world, c);
      ExecutionsGrow(h, o.state, o.value);
    }
  }

  lemma StepKeepsParams(h: History, c: Call)
    requires ParamInv(h)
    ensures ParamInv(Step(h, c))
  {
    var o := Exec(h.world, c);
    if o.Done? {
      forall key: string {
        LatestGrows(h.log, o.value, key);
      }
    }
  }

  ghost predicate Inv(h: History) {
    TallyInv(h) && Opened(h.world) && VotersInv(h) && ExecutionInv(h) && ParamInv(h)
  }

  lemma {:induction false} RunKeeps(h: History, calls: seq<Call>)
    requires Inv(h)
    ensures Inv(Run(h, calls))
    decreases calls
  {
    if calls != [] {
      StepKeepsTally(h, calls[0]);
      StepKeepsVoters(h, calls[0]);
      StepKeepsExecutions(h, calls[0]);
      StepKeepsParams(h, calls[0]);
      RunKeeps(Step(h, calls[0]), calls[1..]);
    }
  }

  /** In every reachable state all of this holds; in particular `get_param` answers the value
      of the latest executed proposal for the key, and the empty string before there is one. */
  lemma Reachable(h: History, calls: seq<Call>, key: string)
    requires Initial(h)
    ensures Inv(Run(h, calls))
    ensures Param(Run(h, calls).world.council, key) ==
      match Latest(Run(h, calls).log, key) { case Some(value) => value case None => "" }
  {
    RunKeeps(h, calls);
  }

  /** Once the ledger has passed a proposal's end nothing about it changes any more, except
      that it may be executed; and nobody's vote on it is recorded any more. */
  lemma {:induction false} TallyIsFinal(h: History, calls: seq<Call>, id: nat)
    requires Numbered(h.world.council) && id in h.world.council.proposals
    requires h.world.council.proposals[id].end < h.world.now
    ensures var g, g' := h.world.council, Run(h, calls).world.council;
      && id in g'.proposals
      && g'.proposals[id] == g.proposals[id].(executed := g'.proposals[id].executed)
      && (g.proposals[id].executed ==> g'.proposals[id].executed)
      && (forall voter: Address :: (id, voter) in g'.voted <==> (id, voter) in g.voted)
    decreases calls
  {
    if calls != [] {
      StepKeepsFinalTally(h, calls[0], id);
      TallyIsFinal(Step(h, calls[0]), calls[1..], id);
    }
  }

  lemma StepKeepsFinalTally(h: History, c: Call, id: nat)
    requires Numbered(h.world.council) && id in h.world.council.proposals
    requires h.world.council.proposals[id].end < h.world.now
    ensures var g, w' := h.world.council, Step(h, c).world;
      var g' := w'.council;
      && Numbered(g') && h.world.now <= w'.now && id in g'.proposals
      && g'.proposals[id] == g.proposals[id].(executed := g'.proposals[id].executed)
      && (g.proposals[id].executed ==> g'.proposals[id].executed)
      && (forall voter: Address :: (id, voter) in g'.voted <==> (id, voter) in g.voted)
  {
  }

  /** No execution precedes the final tally: a proposal that can be executed can no longer be voted on. */
  lemma VotingAndExecutionExclude(w: World, id: nat, voter: Address, support: bool)
    requires ExecuteProposal(w, id).Done?
    ensures voter != w.self ==> Vote(w, voter, id, support) == Aborted(VotingEnded)
    ensures Vote(w, voter, id, support).Aborted?
    ensures ExecuteProposal(ExecuteProposal(w, id).state, id) == Aborted(AlreadyExecuted)
  {
  }
}
