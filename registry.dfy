/** The deployed Bounties contract: one object whose storage (the bounty
    array and the event log) each call updates in place. The caller's
    address, the block time and the value sent are parameters of each call. */
module BountyRegistry {
  import opened Bounties
  import opened BountyInvariants

  class Registry {
    var bounties: seq<Bounty>
    var log: seq<Event>

    /** The storage as a value of the pure model. */
    function Snapshot(): State
      reads this
    {
      State(bounties, log)
    }

    ghost predicate Valid()
      reads this
    {
      BountyInvariants.Valid(Snapshot())
    }

    /** Deployment: no bounties, no events. */
    constructor ()
      ensures Valid()
      ensures bounties == [] && log == []
    {
      bounties := [];
      log := [];
      EmptyValid();
    }

    method IssueBounty(caller: Address, now: Time, value: nat, data: Data, deadline: Time) returns (r: Outcome)
      requires Valid()
      modifies this
      ensures Valid()
      ensures Receipt(Snapshot(), r) == Issue(old(Snapshot()), caller, now, value, data, deadline)
      ensures r.Reverted? ==> bounties == old(bounties) && log == old(log)
      ensures r.Succeeded? ==> log == old(log) + [r.event]
    {
      IssuePreservesValid(Snapshot(), caller, now, value, data, deadline);
      if value == 0 {
        return Reverted(InsufficientValue);
      }
      if deadline <= now {
        return Reverted(InvalidDeadline);
      }
      var id := |bounties|;
      bounties := bounties + [Bounty(caller, data, deadline, value, Open, [])];
      var e := BountyIssued(id, caller, value, data);
      log := log + [e];
      r := Succeeded(id, e);
    }

    method FulfillBounty(caller: Address, now: Time, bountyId: nat, data: Data) returns (r: Outcome)
      requires Valid()
      modifies this
      ensures Valid()
      ensures Receipt(Snapshot(), r) == Fulfill(old(Snapshot()), caller, now, bountyId, data)
      ensures r.Reverted? ==> bounties == old(bounties) && log == old(log)
      ensures r.Succeeded? ==> log == old(log) + [r.event]
    {
      FulfillPreservesValid(Snapshot(), caller, now, bountyId, data);
      if bountyId >= |bounties| {
        return Reverted(UnknownBounty);
      }
      var b := bounties[bountyId];
      if b.status != Open {
        return Reverted(NotOpen);
      }
      if caller == b.issuer {
        return Reverted(Unauthorized);
      }
      if b.deadline <= now {
        return Reverted(DeadlineExpired);
      }
      var id := |b.fulfillments|;
      bounties := bounties[bountyId := b.(fulfillments := b.fulfillments + [Fulfillment(caller, data)])];
      var e := BountyFulfilled(bountyId, caller, id);
      log := log + [e];
      r := Succeeded(id, e);
    }

    method AcceptFulfillment(caller: Address, bountyId: nat, fulfillmentId: nat) returns (r: Outcome)
      requires Valid()
      modifies this
      ensures Valid()
      ensures Receipt(Snapshot(), r) == Accept(old(Snapshot()), caller, bountyId, fulfillmentId)
      ensures r.Reverted? ==> bounties == old(bounties) && log == old(log)
      ensures r.Succeeded? ==> log == old(log) + [r.event]
    {
      AcceptPreservesValid(Snapshot(), caller, bountyId, fulfillmentId);
      if bountyId >= |bounties| {
        return Reverted(UnknownBounty);
      }
      var b := bounties[bountyId];
      if b.status != Open {
        return Reverted(NotOpen);
      }
      if fulfillmentId >= |b.fulfillments| {
        return Reverted(UnknownFulfillment);
      }
      if caller != b.issuer {
        return Reverted(Unauthorized);
      }
      bounties := bounties[bountyId := b.(status := Accepted(fulfillmentId))];
      var e := FulfillmentAccepted(bountyId, b.issuer, b.fulfillments[fulfillmentId].fulfiller, fulfillmentId, b.amount);
      log := log + [e];
      r := Succeeded(bountyId, e);
    }

    method CancelBounty(caller: Address, bountyId: nat) returns (r: Outcome)
      requires Valid()
      modifies this
      ensures Valid()
      ensures Receipt(Snapshot(), r) == Cancel(old(Snapshot()), caller, bountyId)
      ensures r.Reverted? ==> bounties == old(bounties) && log == old(log)
      ensures r.Succeeded? ==> log == old(log) + [r.event]
    {
      CancelPreservesValid(Snapshot(), caller, bountyId);
      if bountyId >= |bounties| {
        return Reverted(UnknownBounty);
      }
      var b := bounties[bountyId];
      if b.status != Open {
        return Reverted(NotOpen);
      }
      if caller != b.issuer {
        return Reverted(Unauthorized);
      }
      bounties := bounties[bountyId := b.(status := Cancelled)];
      var e := BountyCancelled(bountyId, b.issuer, b.amount);
      log := log + [e];
      r := Succeeded(bountyId, e);
    }
  }
}
