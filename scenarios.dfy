/** The test cases of the two test suites, each replayed on a freshly
    deployed registry. `issuer` and `other` stand for accounts[0] and
    accounts[1], `now` for the block time the test reads before its calls.
    Each method states the outcome the test asserts, and the storage left
    behind where the test relies on it. */
module BountyScenarios {
  import opened Bounties
  import opened BountyRegistry

  const Day: nat := 86400

  /** 0.5 ether in wei, the value every test sends. */
  const Reward: nat := 500000000000000000

  /** The bounty every test issues: "data", due two days after `now`. */
  function Posted(issuer: Address, now: Time): Bounty
  {
    Bounty(issuer, "data", now + 2 * Day, Reward, Open, [])
  }

  /** The test bounty after `fulfiller` has submitted work once. */
  function Submitted(issuer: Address, fulfiller: Address, now: Time): Bounty
  {
    Posted(issuer, now).(fulfillments := [Fulfillment(fulfiller, "data")])
  }

  /** Set-up shared by most tests: deploy, then issue the test bounty. */
  method DeployWithBounty(issuer: Address, now: Time) returns (registry: Registry)
    ensures fresh(registry) && registry.Valid()
    ensures registry.bounties == [Posted(issuer, now)]
  {
    registry := new Registry();
    var _ := registry.IssueBounty(issuer, now, Reward, "data", now + 2 * Day);
  }

  /** Set-up of the acceptance tests: then `other` fulfils it. */
  method DeployWithFulfilment(issuer: Address, other: Address, now: Time) returns (registry: Registry)
    requires issuer != other
    ensures fresh(registry) && registry.Valid()
    ensures registry.bounties == [Submitted(issuer, other, now)]
  {
    registry := DeployWithBounty(issuer, now);
    var _ := registry.FulfillBounty(other, now, 0, "data");
    assert [] + [Fulfillment(other, "data")] == [Fulfillment(other, "data")];
  }

  /** Set-up of the tests on an accepted bounty: then the issuer accepts fulfilment 0. */
  method DeployWithAcceptance(issuer: Address, other: Address, now: Time) returns (registry: Registry)
    requires issuer != other
    ensures fresh(registry) && registry.Valid()
    ensures registry.bounties == [Submitted(issuer, other, now).(status := Accepted(0))]
  {
    registry := DeployWithFulfilment(issuer, other, now);
    var _ := registry.AcceptFulfillment(issuer, 0, 0);
  }

  /** Issuing a bounty returns id 0 and logs one BountyIssued with the
      caller, the value sent and the bounty's data. */
  method IssueNewBounty(issuer: Address, now: Time) returns (r: Outcome, after: State)
    ensures r == Succeeded(0, BountyIssued(0, issuer, Reward, "data"))
    ensures after == State([Posted(issuer, now)], [BountyIssued(0, issuer, Reward, "data")])
  {
    var registry := new Registry();
    r := registry.IssueBounty(issuer, now, Reward, "data", now + 2 * Day);
    after := registry.Snapshot();
  }

  /** Issuing without value, or with a value of 0 (the same thing on the
      ledger), reverts and stores nothing. */
  method IssueWithoutValue(issuer: Address, now: Time) returns (r: Outcome, after: State)
    ensures r == Reverted(InsufficientValue)
    ensures after == Empty
  {
    var registry := new Registry();
    r := registry.IssueBounty(issuer, now, 0, "data", now + 2 * Day);
    after := registry.Snapshot();
  }

  /** The deadline tests as written: a deadline of now - 1 or of now, with a
      value of 0 attached. Both revert and store nothing. */
  method IssueWithPastOrPresentDeadline(issuer: Address, now: Time) returns (past: Outcome, present: Outcome, after: State)
    requires now >= 1
    ensures past.Reverted? && present.Reverted?
    ensures after == Empty
  {
    var registry := new Registry();
    past := registry.IssueBounty(issuer, now, 0, "data", now - 1);
    present := registry.IssueBounty(issuer, now, 0, "data", now);
    after := registry.Snapshot();
  }

  /** The same deadlines with a positive value: the deadline alone makes
      both revert, since it must lie strictly after `now`. */
  method IssueWithDeadlineNotAfterNow(issuer: Address, now: Time) returns (past: Outcome, present: Outcome, after: State)
    requires now >= 1
    ensures past == Reverted(InvalidDeadline) && present == Reverted(InvalidDeadline)
    ensures after == Empty
  {
    var registry := new Registry();
    past := registry.IssueBounty(issuer, now, Reward, "data", now - 1);
    present := registry.IssueBounty(issuer, now, Reward, "data", now);
    after := registry.Snapshot();
  }

  /** Another account fulfils the bounty: fulfilment id 0, one BountyFulfilled. */
  method FulfilExistingBounty(issuer: Address, other: Address, now: Time) returns (r: Outcome, after: State)
    requires issuer != other
    ensures r == Succeeded(0, BountyFulfilled(0, other, 0))
    ensures after.bounties == [Submitted(issuer, other, now)]
  {
    var registry := DeployWithBounty(issuer, now);
    r := registry.FulfillBounty(other, now, 0, "data");
    assert [] + [Fulfillment(other, "data")] == [Fulfillment(other, "data")];
    after := registry.Snapshot();
  }

  /** With one bounty issued, id 1 does not exist. */
  method FulfilNonExistentBounty(issuer: Address, other: Address, now: Time) returns (r: Outcome, after: State)
    ensures r == Reverted(UnknownBounty)
    ensures after.bounties == [Posted(issuer, now)]
  {
    var registry := DeployWithBounty(issuer, now);
    r := registry.FulfillBounty(other, now, 1, "data");
    after := registry.Snapshot();
  }

  /** The issuer may not fulfil their own bounty. */
  method IssuerFulfilsOwnBounty(issuer: Address, now: Time) returns (r: Outcome, after: State)
    ensures r == Reverted(Unauthorized)
    ensures after.bounties == [Posted(issuer, now)]
  {
    var registry := DeployWithBounty(issuer, now);
    r := registry.FulfillBounty(issuer, now, 0, "data");
    after := registry.Snapshot();
  }

  /** Two days and one second later the deadline has passed. */
  method FulfilAfterDeadline(issuer: Address, other: Address, now: Time) returns (r: Outcome, after: State)
    requires issuer != other
    ensures r == Reverted(DeadlineExpired)
    ensures after.bounties == [Posted(issuer, now)]
  {
    var registry := DeployWithBounty(issuer, now);
    r := registry.FulfillBounty(other, now + 2 * Day + 1, 0, "data");
    after := registry.Snapshot();
  }

  /** The issuer accepts fulfilment 0: one FulfillmentAccepted carrying the
      fulfiller and the full reward, and the bounty is Accepted. */
  method AcceptExistingFulfilment(issuer: Address, other: Address, now: Time) returns (r: Outcome, after: State)
    requires issuer != other
    ensures r == Succeeded(0, FulfillmentAccepted(0, issuer, other, 0, Reward))
    ensures after.bounties == [Submitted(issuer, other, now).(status := Accepted(0))]
  {
    var registry := DeployWithFulfilment(issuer, other, now);
    r := registry.AcceptFulfillment(issuer, 0, 0);
    after := registry.Snapshot();
  }

  /** With only fulfilment 0, fulfilment 1 does not exist. */
  method AcceptNonExistentFulfilment(issuer: Address, other: Address, now: Time) returns (r: Outcome)
    requires issuer != other
    ensures r == Reverted(UnknownFulfillment)
  {
    var registry := DeployWithFulfilment(issuer, other, now);
    r := registry.AcceptFulfillment(issuer, 0, 1);
  }

  /** Only the issuer may accept. */
  method NonIssuerAccepts(issuer: Address, other: Address, now: Time) returns (r: Outcome)
    requires issuer != other
    ensures r == Reverted(Unauthorized)
  {
    var registry := DeployWithFulfilment(issuer, other, now);
    r := registry.AcceptFulfillment(other, 0, 0);
  }

  /** Once accepted, the bounty takes no more fulfilments. */
  method FulfilAcceptedBounty(issuer: Address, other: Address, now: Time) returns (r: Outcome)
    requires issuer != other
    ensures r == Reverted(NotOpen)
  {
    var registry := DeployWithAcceptance(issuer, other, now);
    r := registry.FulfillBounty(other, now, 0, "data");
  }

  /** The issuer cancels: one BountyCancelled carrying the full reward. */
  method CancelExistingBounty(issuer: Address, now: Time) returns (r: Outcome, after: State)
    ensures r == Succeeded(0, BountyCancelled(0, issuer, Reward))
    ensures after.bounties == [Posted(issuer, now).(status := Cancelled)]
  {
    var registry := DeployWithBounty(issuer, now);
    r := registry.CancelBounty(issuer, 0);
    after := registry.Snapshot();
  }

  /** With one bounty issued, id 1 cannot be cancelled. */
  method CancelNonExistentBounty(issuer: Address, now: Time) returns (r: Outcome)
    ensures r == Reverted(UnknownBounty)
  {
    var registry := DeployWithBounty(issuer, now);
    r := registry.CancelBounty(issuer, 1);
  }

  /** An accepted bounty cannot be cancelled. */
  method CancelAcceptedBounty(issuer: Address, other: Address, now: Time) returns (r: Outcome)
    requires issuer != other
    ensures r == Reverted(NotOpen)
  {
    var registry := DeployWithAcceptance(issuer, other, now);
    r := registry.CancelBounty(issuer, 0);
  }

  /** Only the issuer may cancel. */
  method NonIssuerCancels(issuer: Address, other: Address, now: Time) returns (r: Outcome)
    requires issuer != other
    ensures r == Reverted(Unauthorized)
  {
    var registry := DeployWithBounty(issuer, now);
    r := registry.CancelBounty(other, 0);
  }

  /** A cancelled bounty takes no fulfilment and cannot be cancelled again. */
  method CancelThenRetry(issuer: Address, other: Address, now: Time) returns (fulfil: Outcome, cancelAgain: Outcome)
    requires issuer != other
    ensures fulfil == Reverted(NotOpen) && cancelAgain == Reverted(NotOpen)
  {
    var registry := DeployWithBounty(issuer, now);
    var _ := registry.CancelBounty(issuer, 0);
    fulfil := registry.FulfillBounty(other, now, 0, "data");
    cancelAgain := registry.CancelBounty(issuer, 0);
  }
}
