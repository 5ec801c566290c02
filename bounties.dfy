/** The Bounties escrow contract: its records, its events, its failures, and
    the four public operations as pure transitions of the registry state.

    A caller posts a reward (issueBounty), other callers submit work
    (fulfillBounty), and the poster either releases the reward to one
    submission (acceptFulfillment) or takes it back (cancelBounty). Every
    operation either reverts, leaving the state as it was, or succeeds,
    changes the state and logs exactly one event. */
module Bounties {

  /** The caller's account address, opaque to the contract. */
  type Address = nat

  /** Ledger time in seconds, as the block timestamp reports it. */
  type Time = nat

  /** The opaque payload of a bounty or a fulfilment (an IPFS hash in practice). */
  type Data = seq<char>

  /** Open is the only state that accepts fulfilments or a cancellation;
      Accepted (with the id of the fulfilment paid) and Cancelled are terminal. */
  datatype Status = Open | Accepted(fulfillmentId: nat) | Cancelled

  datatype Fulfillment = Fulfillment(fulfiller: Address, data: Data)

  /** A bounty's id is its index in the registry; a fulfilment's id is its
      index in its bounty's list. */
  datatype Bounty = Bounty(
    issuer: Address,
    data: Data,
    deadline: Time,
    amount: nat,
    status: Status,
    fulfillments: seq<Fulfillment>)

  /** The four events the contract logs, with the fields the tests read. */
  datatype Event =
    | BountyIssued(bountyId: nat, issuer: Address, amount: nat, data: Data)
    | BountyFulfilled(bountyId: nat, fulfiller: Address, fulfillmentId: nat)
    | FulfillmentAccepted(bountyId: nat, issuer: Address, fulfiller: Address, fulfillmentId: nat, amount: nat)
    | BountyCancelled(bountyId: nat, issuer: Address, amount: nat)

  /** Why a call reverted. */
  datatype Error =
    | InsufficientValue
    | InvalidDeadline
    | UnknownBounty
    | UnknownFulfillment
    | NotOpen
    | DeadlineExpired
    | Unauthorized

  /** What a caller observes: a revert, or success with the id of the record
      created (issue, fulfil) or closed (accept, cancel) and the one event logged. */
  datatype Outcome = Reverted(error: Error) | Succeeded(id: nat, event: Event)

  /** The registry: every bounty ever issued, and the event log. */
  datatype State = State(bounties: seq<Bounty>, log: seq<Event>)

  /** The state after a call, and what the caller observed. */
  datatype Receipt = Receipt(state: State, outcome: Outcome)

  /** A freshly deployed registry. */
  const Empty: State := State([], [])

  /** issueBounty(data, deadline) sent by `caller` at time `now` with `value` attached. */
  function Issue(s: State, caller: Address, now: Time, value: nat, data: Data, deadline: Time): (r: Receipt)
    ensures r.outcome.Succeeded? <==> value > 0 && now < deadline
    ensures r.outcome == Reverted(InsufficientValue) <==> value == 0
    ensures r.outcome == Reverted(InvalidDeadline) <==> value > 0 && deadline <= now
    ensures r.outcome.Reverted? ==> r.state == s
    ensures r.outcome.Succeeded? ==>
      && r.outcome.id == |s.bounties|
      && r.outcome.event == BountyIssued(|s.bounties|, caller, value, data)
      && r.state.bounties == s.bounties + [Bounty(caller, data, deadline, value, Open, [])]
      && r.state.log == s.log + [r.outcome.event]
  {
    if value == 0 then
      Receipt(s, Reverted(InsufficientValue))
    else if deadline <= now then
      Receipt(s, Reverted(InvalidDeadline))
    else
      var id := |s.bounties|;
      var e := BountyIssued(id, caller, value, data);
      Receipt(State(s.bounties + [Bounty(caller, data, deadline, value, Open, [])], s.log + [e]), Succeeded(id, e))
  }

  /** fulfillBounty(bountyId, data) sent by `caller` at time `now`. */
  function Fulfill(s: State, caller: Address, now: Time, bountyId: nat, data: Data): (r: Receipt)
    ensures r.outcome.Succeeded? <==>
      && bountyId < |s.bounties|
      && s.bounties[bountyId].status == Open
      && caller != s.bounties[bountyId].issuer
      && now < s.bounties[bountyId].deadline
    ensures r.outcome == Reverted(UnknownBounty) <==> bountyId >= |s.bounties|
    ensures r.outcome == Reverted(NotOpen) <==>
      bountyId < |s.bounties| && s.bounties[bountyId].status != Open
    ensures r.outcome == Reverted(Unauthorized) <==>
      bountyId < |s.bounties| && s.bounties[bountyId].status == Open && caller == s.bounties[bountyId].issuer
    ensures r.outcome == Reverted(DeadlineExpired) <==>
      && bountyId < |s.bounties|
      && s.bounties[bountyId].status == Open
      && caller != s.bounties[bountyId].issuer
      && s.bounties[bountyId].deadline <= now
    ensures r.outcome.Reverted? ==> r.state == s
    ensures r.outcome.Succeeded? ==>
      var b := s.bounties[bountyId];
      && r.outcome.id == |b.fulfillments|
      && r.outcome.event == BountyFulfilled(bountyId, caller, |b.fulfillments|)
      && r.state.bounties == s.bounties[bountyId := b.(fulfillments := b.fulfillments + [Fulfillment(caller, data)])]
      && r.state.log == s.log + [r.outcome.event]
  {
    if bountyId >= |s.bounties| then
      Receipt(s, Reverted(UnknownBounty))
    else
      var b := s.bounties[bountyId];
      if b.status != Open then
        Receipt(s, Reverted(NotOpen))
      else if caller == b.issuer then
        Receipt(s, Reverted(Unauthorized))
      else if b.deadline <= now then
        Receipt(s, Reverted(DeadlineExpired))
      else
        var id := |b.fulfillments|;
        var e := BountyFulfilled(bountyId, caller, id);
        var b' := b.(fulfillments := b.fulfillments + [Fulfillment(caller, data)]);
        Receipt(State(s.bounties[bountyId := b'], s.log + [e]), Succeeded(id, e))
  }

  /** acceptFulfillment(bountyId, fulfillmentId) sent by `caller`. */
  function Accept(s: State, caller: Address, bountyId: nat, fulfillmentId: nat): (r: Receipt)
    ensures r.outcome.Succeeded? <==>
      && bountyId < |s.bounties|
      && s.bounties[bountyId].status == Open
      && fulfillmentId < |s.bounties[bountyId].fulfillments|
      && caller == s.bounties[bountyId].issuer
    ensures r.outcome == Reverted(UnknownBounty) <==> bountyId >= |s.bounties|
    ensures r.outcome == Reverted(NotOpen) <==>
      bountyId < |s.bounties| && s.bounties[bountyId].status != Open
    ensures r.outcome == Reverted(UnknownFulfillment) <==>
      && bountyId < |s.bounties|
      && s.bounties[bountyId].status == Open
      && fulfillmentId >= |s.bounties[bountyId].fulfillments|
    ensures r.outcome == Reverted(Unauthorized) <==>
      && bountyId < |s.bounties|
      && s.bounties[bountyId].status == Open
      && fulfillmentId < |s.bounties[bountyId].fulfillments|
      && caller != s.bounties[bountyId].issuer
    ensures r.outcome.Reverted? ==> r.state == s
    ensures r.outcome.Succeeded? ==>
      var b := s.bounties[bountyId];
      && r.outcome.id == bountyId
      && r.outcome.event == FulfillmentAccepted(bountyId, b.issuer, b.fulfillments[fulfillmentId].fulfiller, fulfillmentId, b.amount)
      && r.state.bounties == s.bounties[bountyId := b.(status := Accepted(fulfillmentId))]
      && r.state.log == s.log + [r.outcome.event]
  {
    if bountyId >= |s.bounties| then
      Receipt(s, Reverted(UnknownBounty))
    else
      var b := s.bounties[bountyId];
      if b.status != Open then
        Receipt(s, Reverted(NotOpen))
      else if fulfillmentId >= |b.fulfillments| then
        Receipt(s, Reverted(UnknownFulfillment))
      else if caller != b.issuer then
        Receipt(s, Reverted(Unauthorized))
      else
        var e := FulfillmentAccepted(bountyId, b.issuer, b.fulfillments[fulfillmentId].fulfiller, fulfillmentId, b.amount);
        Receipt(State(s.bounties[bountyId := b.(status := Accepted(fulfillmentId))], s.log + [e]), Succeeded(bountyId, e))
  }

  /** cancelBounty(bountyId) sent by `caller`. */
  function Cancel(s: State, caller: Address, bountyId: nat): (r: Receipt)
    ensures r.outcome.Succeeded? <==>
      && bountyId < |s.bounties|
      && s.bounties[bountyId].status == Open
      && caller == s.bounties[bountyId].issuer
    ensures r.outcome == Reverted(UnknownBounty) <==> bountyId >= |s.bounties|
    ensures r.outcome == Reverted(NotOpen) <==>
      bountyId < |s.bounties| && s.bounties[bountyId].status != Open
    ensures r.outcome == Reverted(Unauthorized) <==>
      bountyId < |s.bounties| && s.bounties[bountyId].status == Open && caller != s.bounties[bountyId].issuer
    ensures r.outcome.Reverted? ==> r.state == s
    ensures r.outcome.Succeeded? ==>
      var b := s.bounties[bountyId];
      && r.outcome.id == bountyId
      && r.outcome.event == BountyCancelled(bountyId, b.issuer, b.amount)
      && r.state.bounties == s.bounties[bountyId := b.(status := Cancelled)]
      && r.state.log == s.log + [r.outcome.event]
  {
    if bountyId >= |s.bounties| then
      Receipt(s, Reverted(UnknownBounty))
    else
      var b := s.bounties[bountyId];
      if b.status != Open then
        Receipt(s, Reverted(NotOpen))
      else if caller != b.issuer then
        Receipt(s, Reverted(Unauthorized))
      else
        var e := BountyCancelled(bountyId, b.issuer, b.amount);
        Receipt(State(s.bounties[bountyId := b.(status := Cancelled)], s.log + [e]), Succeeded(bountyId, e))
  }

  /** One of the four public calls, with its arguments and attached value. */
  datatype Call =
    | IssueCall(value: nat, data: Data, deadline: Time)
    | FulfillCall(bountyId: nat, data: Data)
    | AcceptCall(bountyId: nat, fulfillmentId: nat)
    | CancelCall(bountyId: nat)

  /** A transaction: who sends the call, and the ledger time it executes at. */
  datatype Tx = Tx(caller: Address, now: Time, call: Call)

  /** Executes one transaction against the registry. */
  function Apply(s: State, tx: Tx): Receipt
  {
    match tx.call
    case IssueCall(value, data, deadline) => Issue(s, tx.caller, tx.now, value, data, deadline)
    case FulfillCall(bountyId, data) => Fulfill(s, tx.caller, tx.now, bountyId, data)
    case AcceptCall(bountyId, fulfillmentId) => Accept(s, tx.caller, bountyId, fulfillmentId)
    case CancelCall(bountyId) => Cancel(s, tx.caller, bountyId)
  }
}
