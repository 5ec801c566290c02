/** Properties of whole call sequences: a registry driven by any sequence of
    transactions hands out dense ids, logs exactly one event per successful
    call, never reopens or rewrites a closed bounty, and keeps its invariant. */
module BountyRuns {
  import opened Bounties
  import opened BountyInvariants

  /** The final state after a sequence of calls, and each call's outcome. */
  datatype Trace = Trace(state: State, outcomes: seq<Outcome>)

  /** Executes the transactions one after another, in the order given. */
  function Run(s: State, txs: seq<Tx>): Trace
    decreases |txs|
  {
    if txs == [] then Trace(s, [])
    else
      var r := Apply(s, txs[0]);
      var t := Run(r.state, txs[1..]);
      Trace(t.state, [r.outcome] + t.outcomes)
  }

  /** The events of the successful outcomes, in order. */
  function Events(outs: seq<Outcome>): seq<Event>
  {
    if outs == [] then []
    else (if outs[0].Succeeded? then [outs[0].event] else []) + Events(outs[1..])
  }

  predicate IsIssuance(o: Outcome)
  {
    o.Succeeded? && o.event.BountyIssued?
  }

  predicate IsFulfillmentOf(o: Outcome, bountyId: nat)
  {
    o.Succeeded? && o.event.BountyFulfilled? && o.event.bountyId == bountyId
  }

  /** The ids returned by the successful issuances, in call order. */
  function IssuedIds(outs: seq<Outcome>): seq<nat>
  {
    if outs == [] then []
    else (if IsIssuance(outs[0]) then [outs[0].id] else []) + IssuedIds(outs[1..])
  }

  /** The fulfilment ids returned for bounty `bountyId`, in call order. */
  function FulfilledIds(outs: seq<Outcome>, bountyId: nat): seq<nat>
  {
    if outs == [] then []
    else (if IsFulfillmentOf(outs[0], bountyId) then [outs[0].id] else []) + FulfilledIds(outs[1..], bountyId)
  }

  /** lo, lo + 1, ..., hi - 1 */
  function Range(lo: nat, hi: nat): seq<nat>
    requires lo <= hi
    decreases hi - lo
  {
    if lo == hi then [] else [lo] + Range(lo + 1, hi)
  }

  /** How many fulfilments bounty `bountyId` has (none if it is not issued yet). */
  function FulfillmentCount(s: State, bountyId: nat): nat
  {
    if bountyId < |s.bounties| then |s.bounties[bountyId].fulfillments| else 0
  }

  /** How a stored bounty may change: its issuer, payload, deadline and
      reward never do, its fulfilments are only appended to, and once it has
      left Open nothing about it changes again. */
  predicate Evolves(b: Bounty, b': Bounty)
  {
    && b'.issuer == b.issuer
    && b'.data == b.data
    && b'.deadline == b.deadline
    && b'.amount == b.amount
    && b.fulfillments <= b'.fulfillments
    && (b.status != Open ==> b' == b)
  }

  /** `s'` is a later state of the registry `s`: no bounty and no event is lost. */
  predicate Extends(s: State, s': State)
  {
    && |s.bounties| <= |s'.bounties|
    && s.log <= s'.log
    && forall i :: 0 <= i < |s.bounties| ==> Evolves(s.bounties[i], s'.bounties[i])
  }

  /** What one call does to ids, counts and the log, whichever call it is. */
  lemma StepShape(s: State, tx: Tx, bountyId: nat)
    ensures var r := Apply(s, tx);
      && r.state.log == s.log + (if r.outcome.Succeeded? then [r.outcome.event] else [])
      && |r.state.bounties| == |s.bounties| + (if IsIssuance(r.outcome) then 1 else 0)
      && (IsIssuance(r.outcome) ==> r.outcome.id == |s.bounties|)
      && FulfillmentCount(r.state, bountyId) == FulfillmentCount(s, bountyId) + (if IsFulfillmentOf(r.outcome, bountyId) then 1 else 0)
      && (IsFulfillmentOf(r.outcome, bountyId) ==> r.outcome.id == FulfillmentCount(s, bountyId))
      && Extends(s, r.state)
  {
    match tx.call
    case IssueCall(value, data, deadline) =>
    case FulfillCall(id, data) =>
    case AcceptCall(id, fulfillmentId) =>
    case CancelCall(id) =>
  }

  lemma ExtendsTransitive(s: State, s': State, s'': State)
    requires Extends(s, s') && Extends(s', s'')
    ensures Extends(s, s'')
  {
    forall i | 0 <= i < |s.bounties|
      ensures Evolves(s.bounties[i], s''.bounties[i])
    {
      assert Evolves(s'.bounties[i], s''.bounties[i]);
    }
  }

  /** Any sequence of calls only extends the registry. */
  lemma {:induction false} RunExtends(s: State, txs: seq<Tx>)
    ensures Extends(s, Run(s, txs).state)
    decreases |txs|
  {
    if txs != [] {
      var r := Apply(s, txs[0]);
      StepShape(s, txs[0], 0);
      RunExtends(r.state, txs[1..]);
      ExtendsTransitive(s, r.state, Run(s, txs).state);
    }
  }

  /** A bounty that has been accepted or cancelled stays exactly as it is,
      whatever calls follow: it can never be both accepted and cancelled,
      and its reward cannot leave custody a second time. */
  lemma TerminalIsFinal(s: State, txs: seq<Tx>, bountyId: nat)
    requires bountyId < |s.bounties| && s.bounties[bountyId].status != Open
    ensures bountyId < |Run(s, txs).state.bounties|
    ensures Run(s, txs).state.bounties[bountyId] == s.bounties[bountyId]
  {
    RunExtends(s, txs);
  }

  /** The log grows by exactly the events of the successful calls, in call
      order: one event per success, none per revert. */
  lemma {:induction false} RunLogsEvents(s: State, txs: seq<Tx>)
    ensures Run(s, txs).state.log == s.log + Events(Run(s, txs).outcomes)
    decreases |txs|
  {
    if txs != [] {
      var r := Apply(s, txs[0]);
      var t := Run(r.state, txs[1..]);
      StepShape(s, txs[0], 0);
      RunLogsEvents(r.state, txs[1..]);
      assert ([r.outcome] + t.outcomes)[1..] == t.outcomes;
    }
  }

  /** Successful issuances return consecutive ids, continuing from the
      number of bounties already issued. */
  lemma {:induction false} IssuedIdsAreDense(s: State, txs: seq<Tx>)
    ensures |s.bounties| <= |Run(s, txs).state.bounties|
    ensures IssuedIds(Run(s, txs).outcomes) == Range(|s.bounties|, |Run(s, txs).state.bounties|)
    decreases |txs|
  {
    if txs != [] {
      var r := Apply(s, txs[0]);
      var t := Run(r.state, txs[1..]);
      StepShape(s, txs[0], 0);
      IssuedIdsAreDense(r.state, txs[1..]);
      assert ([r.outcome] + t.outcomes)[1..] == t.outcomes;
    }
  }

  /** On a freshly deployed registry the issued ids are 0, 1, 2, ... in call order. */
  lemma IssuedIdsFromZero(txs: seq<Tx>)
    ensures IssuedIds(Run(Empty, txs).outcomes) == Range(0, |Run(Empty, txs).state.bounties|)
  {
    IssuedIdsAreDense(Empty, txs);
  }

  /** Successful fulfilments of one bounty return consecutive ids, continuing
      from the number of fulfilments it already has (0 for a bounty issued
      during the run). */
  lemma {:induction false} FulfilledIdsAreDense(s: State, txs: seq<Tx>, bountyId: nat)
    ensures FulfillmentCount(s, bountyId) <= FulfillmentCount(Run(s, txs).state, bountyId)
    ensures FulfilledIds(Run(s, txs).outcomes, bountyId)
         == Range(FulfillmentCount(s, bountyId), FulfillmentCount(Run(s, txs).state, bountyId))
    decreases |txs|
  {
    if txs != [] {
      var r := Apply(s, txs[0]);
      var t := Run(r.state, txs[1..]);
      StepShape(s, txs[0], bountyId);
      FulfilledIdsAreDense(r.state, txs[1..], bountyId);
      assert ([r.outcome] + t.outcomes)[1..] == t.outcomes;
    }
  }

  /** Any sequence of calls keeps the registry invariant. */
  lemma {:induction false} RunPreservesValid(s: State, txs: seq<Tx>)
    requires Valid(s)
    ensures Valid(Run(s, txs).state)
    decreases |txs|
  {
    if txs != [] {
      StepPreservesValid(s, txs[0]);
      RunPreservesValid(Apply(s, txs[0]).state, txs[1..]);
    }
  }

  /** From deployment on, no bounty is ever both paid out and refunded, nor
      paid out or refunded twice, and the balance the events report never
      goes negative. */
  lemma AtMostOneClosing(txs: seq<Tx>, bountyId: nat)
    ensures Acceptances(Run(Empty, txs).state.log, bountyId) + Cancellations(Run(Empty, txs).state.log, bountyId) <= 1
    ensures Escrow(Run(Empty, txs).state.log) >= 0
  {
    var s := Run(Empty, txs).state;
    EmptyValid();
    RunPreservesValid(Empty, txs);
    if bountyId >= |s.bounties| {
      NoClosingsBeyond(s.log, bountyId);
    }
  }
}
