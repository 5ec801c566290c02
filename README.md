# Bounties escrow contract, modelled in Dafny

The repository's test suites (Truffle and Embark) drive a ledger contract
called `Bounties`. With it, one account posts a reward for a task
(`issueBounty`, paid for with the value attached to the call). Other accounts
submit work (`fulfillBounty`). The poster then either releases the whole reward
to one submission (`acceptFulfillment`) or takes it back (`cancelBounty`).
A call either reverts and leaves storage as it was, or succeeds and logs
exactly one event: `BountyIssued`, `BountyFulfilled`, `FulfillmentAccepted` or
`BountyCancelled`.

The contract's Solidity source is not part of this model. Its behaviour is
taken from what the three test files assert.

- `bounties.dfy` (module `Bounties`) holds the data model and the four calls as
  pure transitions. The data model has bounties, fulfilments, a status of
  `Open`, `Accepted(fulfillmentId)` or `Cancelled`, the events, the revert
  reasons, and an `Outcome` that is either `Reverted(error)` or
  `Succeeded(id, event)`. The calls are `Issue`, `Fulfill`, `Accept` and
  `Cancel`, each a function from the old state to the new state and the
  outcome. The caller's address, the block time `now` and the value sent are
  explicit parameters.
- `registry.dfy` (module `BountyRegistry`) holds the deployed contract as a
  class, `Registry`. Its storage is the `bounties` sequence and the event
  `log`, and every call updates them in place. Each method is proved to do
  exactly what the pure transition does. Each also keeps the registry
  invariant.
- `invariants.dfy` (module `BountyInvariants`) holds the invariant.
  - Every stored reward is positive.
  - No issuer is ever a fulfiller of their own bounty.
  - An accepted bounty names a fulfilment it has.
  - Every event names an issued bounty.
  - A bounty has one `FulfillmentAccepted` event exactly when it is Accepted.
    It has one `BountyCancelled` event exactly when it is Cancelled.
  - The balance computed from the amounts in the events equals the value the
    open bounties hold in custody.
- `runs.dfy` (module `BountyRuns`) covers arbitrary sequences of calls.
  - Bounty ids and each bounty's fulfilment ids are handed out densely.
  - The log is exactly the events of the successful calls, in order.
  - A closed bounty never changes again.
  - The invariant survives every sequence of calls.
- `scenarios.dfy` (module `BountyScenarios`) replays each test case on a
  freshly deployed `Registry`. Each method states the outcome the test asserts.

Revert reasons are checked in this order: the bounty exists, the bounty is
Open, the fulfilment exists, the caller is authorised, and then the deadline.
Issuance checks the value before the deadline. The tests only observe
"revert", so this order is the model's choice. Every contract states exactly
when each reason is reported.

## Model

| member | source | states |
|---|---|---|
| `Bounties.Issue` | embark-writing-tests/test/bounties_complete_spec.js:25-76 | issueBounty succeeds iff the value sent is positive and the deadline is strictly after `now`. A zero value reverts with InsufficientValue, and otherwise a deadline at or before `now` reverts with InvalidDeadline. A revert leaves the state unchanged. A success returns the next bounty id and appends an Open bounty owned by the caller with the value as reward and no fulfilments. It also logs exactly one `BountyIssued{id, caller, value, data}`, carrying the bounty's payload as the frontend's event table shows it. |
| `Bounties.Fulfill` | embark-writing-tests/test/bounties_complete_spec.js:78-125 | fulfillBounty succeeds iff the bounty exists, is Open, the caller is not its issuer and `now` is before its deadline. Each failing condition has its own revert reason, and a revert changes nothing. A success appends the caller's fulfilment and returns its id, which is the number of earlier fulfilments. It logs exactly one `BountyFulfilled{bountyId, caller, id}`. |
| `Bounties.Accept` | embark-writing-tests/test/bounties_complete_spec.js:127-170 | acceptFulfillment succeeds iff the bounty exists, is Open, the fulfilment id exists under it and the caller is the issuer. Each failing condition has its own revert reason, and a revert changes nothing. A success marks the bounty Accepted with that fulfilment. It logs exactly one `FulfillmentAccepted{bountyId, issuer, fulfiller, fulfillmentId, amount}` carrying the full issued amount. |
| `Bounties.Cancel` | embark-writing-tests/test/bounties_complete_spec.js:186-235 | cancelBounty succeeds iff the bounty exists, is Open and the caller is the issuer, with one revert reason per failing condition. A revert changes nothing. A success marks the bounty Cancelled and logs exactly one `BountyCancelled{bountyId, issuer, amount}` carrying the full issued amount. |
| `BountyInvariants.EmptyValid` | embark-writing-tests/test/bounties_complete_spec.js:20-23 | A freshly deployed registry satisfies the registry invariant. |
| `BountyInvariants.IssuePreservesValid` | embark-writing-tests/test/bounties_complete_spec.js:25-36 | After any issuance the invariant still holds. The value reported by `BountyIssued` enters custody, and the new bounty has no terminal event yet. |
| `BountyInvariants.FulfillPreservesValid` | embark-writing-tests/test/bounties_complete_spec.js:104-112 | After any fulfilment the invariant still holds. In particular, the issuer never becomes a fulfiller of their own bounty, and custody is unchanged. |
| `BountyInvariants.AcceptPreservesValid` | embark-writing-tests/test/bounties_complete_spec.js:127-146 | After any acceptance the invariant still holds. The amount `FulfillmentAccepted` reports is exactly what leaves custody, and the bounty's single acceptance is recorded in the log. |
| `BountyInvariants.CancelPreservesValid` | embark-writing-tests/test/bounties_complete_spec.js:186-200 | After any cancellation the invariant still holds. The amount `BountyCancelled` reports is exactly what is refunded from custody, and the bounty's single cancellation is recorded in the log. |
| `BountyInvariants.StepPreservesValid` | embark-writing-tests/test/bounties_complete_spec.js:15-238 | Any of the four calls, successful or reverted, keeps the registry invariant. |
| `BountyRuns.RunExtends` | embark-writing-tests/test/bounties_complete_spec.js:172-184 | Over any sequence of calls, no bounty or event is lost. Issuer, payload, deadline and reward never change, and fulfilments are only appended. A bounty that has left Open never changes again. |
| `BountyRuns.TerminalIsFinal` | embark-writing-tests/test/bounties_complete_spec.js:213-225 | Once a bounty is Accepted or Cancelled, no later sequence of calls changes it. It cannot be accepted and then cancelled, or reopened. |
| `BountyRuns.RunLogsEvents` | truffle-writing-tests/test/bounties.js:16-31 | After any sequence of calls, the log is the old log followed by the events of the successful calls, in call order. That is one event per success and none per revert. |
| `BountyRuns.IssuedIdsAreDense` | embark-writing-tests/test/bounties_complete_spec.js:38-45 | The ids returned by successful issuances are consecutive. They continue from the number of bounties already issued and end at the final number of bounties. |
| `BountyRuns.IssuedIdsFromZero` | truffle-writing-tests/test/bounties.js:33-40 | On a freshly deployed registry the issued ids are 0, 1, 2, … in call order. |
| `BountyRuns.FulfilledIdsAreDense` | embark-writing-tests/test/bounties_complete_spec.js:78-92 | For each bounty, the fulfilment ids returned are consecutive. They continue from the bounty's current number of fulfilments, and start at 0 for a bounty issued during the run. |
| `BountyRuns.RunPreservesValid` | embark-writing-tests/test/bounties_complete_spec.js:15-238 | Any sequence of calls from a valid state ends in a valid state. |
| `BountyRuns.AtMostOneClosing` | embark-writing-tests/test/bounties_complete_spec.js:172-235 | From deployment on, each bounty gets at most one `FulfillmentAccepted` or `BountyCancelled` event, never both and never two. The balance the events report never goes negative. |
| `BountyRegistry.Registry.constructor` | embark-writing-tests/test/bounties_complete_spec.js:20-23 | Deployment gives an empty registry (no bounties, no events) that satisfies the invariant. |
| `BountyRegistry.Registry.IssueBounty` | embark-writing-tests/test/bounties_complete_spec.js:25-76 | Updates storage and returns exactly as `Issue` does. It keeps the invariant. A revert leaves `bounties` and `log` unchanged, and a success appends exactly one event to the log. |
| `BountyRegistry.Registry.FulfillBounty` | embark-writing-tests/test/bounties_complete_spec.js:78-125 | Updates storage and returns exactly as `Fulfill` does. It keeps the invariant. A revert leaves storage unchanged, and a success appends exactly one event. |
| `BountyRegistry.Registry.AcceptFulfillment` | embark-writing-tests/test/bounties_complete_spec.js:127-170 | Updates storage and returns exactly as `Accept` does. It keeps the invariant. A revert leaves storage unchanged, and a success appends exactly one event. |
| `BountyRegistry.Registry.CancelBounty` | embark-writing-tests/test/bounties_complete_spec.js:186-235 | Updates storage and returns exactly as `Cancel` does. It keeps the invariant. A revert leaves storage unchanged, and a success appends exactly one event. |
| `BountyScenarios.DeployWithBounty` | embark-writing-tests/test/bounties_complete_spec.js:94-98 | The set-up most tests share: a fresh registry in which the issuer's test bounty is stored Open, with no fulfilments. |
| `BountyScenarios.DeployWithFulfilment` | embark-writing-tests/test/bounties_complete_spec.js:148-154 | The set-up of the acceptance tests: the test bounty, then one fulfilment by another account, stored as fulfilment 0. |
| `BountyScenarios.DeployWithAcceptance` | embark-writing-tests/test/bounties_complete_spec.js:172-180 | The set-up of the tests on an accepted bounty: the issuer has accepted fulfilment 0, so the stored bounty is Accepted(0). |
| `BountyScenarios.IssueNewBounty` | truffle-writing-tests/test/bounties.js:16-40 | On a fresh registry, issuing 0.5 ether due in two days returns id 0 and logs exactly one `BountyIssued{0, caller, 0.5 ether, "data"}`. The bounty is stored Open. |
| `BountyScenarios.IssueWithoutValue` | embark-writing-tests/test/bounties_complete_spec.js:47-61 | Issuing with no value or a value of 0 reverts with InsufficientValue and stores nothing. |
| `BountyScenarios.IssueWithPastOrPresentDeadline` | embark-writing-tests/test/bounties_spec.js:67-84 | The deadline tests as written, with a deadline of `now - 1` or `now` and a value of 0, both revert and store nothing. |
| `BountyScenarios.IssueWithDeadlineNotAfterNow` | truffle-writing-tests/test/bounties.js:58-72 | With a positive value, a deadline of `now - 1` or of `now` reverts with InvalidDeadline, so the comparison is strict. |
| `BountyScenarios.FulfilExistingBounty` | embark-writing-tests/test/bounties_complete_spec.js:78-92 | Another account's fulfilment returns fulfilment id 0 and logs `BountyFulfilled{0, fulfiller, 0}`. The fulfilment is stored on the bounty. |
| `BountyScenarios.FulfilNonExistentBounty` | embark-writing-tests/test/bounties_complete_spec.js:94-102 | With one bounty issued, fulfilling id 1 reverts with UnknownBounty and leaves the stored bounty as it was. |
| `BountyScenarios.IssuerFulfilsOwnBounty` | embark-writing-tests/test/bounties_complete_spec.js:104-112 | The issuer's own fulfilment reverts with Unauthorized and stores nothing. |
| `BountyScenarios.FulfilAfterDeadline` | truffle-writing-tests/test/bounties.js:74-84 | A fulfilment sent two days and one second after issuance reverts with DeadlineExpired and stores nothing. |
| `BountyScenarios.AcceptExistingFulfilment` | embark-writing-tests/test/bounties_complete_spec.js:127-146 | The issuer's acceptance of fulfilment 0 logs `FulfillmentAccepted{0, issuer, fulfiller, 0, 0.5 ether}` and leaves the bounty Accepted. |
| `BountyScenarios.AcceptNonExistentFulfilment` | embark-writing-tests/test/bounties_complete_spec.js:148-158 | Accepting fulfilment 1 when only fulfilment 0 exists reverts with UnknownFulfillment. |
| `BountyScenarios.NonIssuerAccepts` | embark-writing-tests/test/bounties_complete_spec.js:160-170 | Acceptance by an account other than the issuer reverts with Unauthorized. |
| `BountyScenarios.FulfilAcceptedBounty` | embark-writing-tests/test/bounties_complete_spec.js:172-184 | A fulfilment of an accepted bounty reverts with NotOpen. |
| `BountyScenarios.CancelExistingBounty` | embark-writing-tests/test/bounties_complete_spec.js:186-200 | The issuer's cancellation logs `BountyCancelled{0, issuer, 0.5 ether}` and leaves the bounty Cancelled. |
| `BountyScenarios.CancelNonExistentBounty` | embark-writing-tests/test/bounties_complete_spec.js:202-211 | Cancelling id 1 when only id 0 exists reverts with UnknownBounty. |
| `BountyScenarios.CancelAcceptedBounty` | embark-writing-tests/test/bounties_complete_spec.js:213-225 | Cancelling an accepted bounty reverts with NotOpen. |
| `BountyScenarios.NonIssuerCancels` | embark-writing-tests/test/bounties_complete_spec.js:227-235 | Cancellation by an account other than the issuer reverts with Unauthorized. |
| `BountyScenarios.CancelThenRetry` | embark-writing-tests/test/bounties_complete_spec.js:186-235 | After a cancellation, a fulfilment and a second cancellation of the same bounty both revert with NotOpen. No test acts on a cancelled bounty: this applies to cancellation the NotOpen rule that the tests check only on an accepted bounty (lines 172-184 and 213-225). |

## Left out

- The contract's Solidity source is not part of this model. The model follows the test assertions. Where the tests are silent, the model's choices are:
  - the order of revert reasons;
  - the id an accept or cancel reports, which is the bounty's id, since those calls return nothing;
  - keeping the issued `amount` on the record after acceptance, with custody derived from the status.
- Value transfers (sending the reward to the fulfiller or back to the issuer) and account balances outside the registry are not modelled. The value in custody is tracked only as the balance the event amounts imply (`Escrow`), and it is tied to the open bounties' rewards (`Custody`).
- Integer widths (uint256 amounts and ids, the deadline's width) are not modelled. All numbers are unbounded, and the tests stay far from any limit.
- Which reason a revert carries is not observable in the tests: they only match the word "revert". The reasons follow the contract's required checks.
- Bounties.Fulfill: fulfilment succeeds only while `now < deadline`. The tests only show that `deadline + 1` is rejected, so a fulfilment at exactly the deadline is untested.
- The deadline tests for issuance also send a value of 0, so as written they are rejected by the value check. `IssueWithPastOrPresentDeadline` states only that they revert. `IssueWithDeadlineNotAfterNow` isolates the strict deadline check.
- The Embark fulfil-after-deadline tests use a read-only call. Its outcome is `Fulfill`'s outcome without keeping the new state. The Truffle test sends a real transaction, and that is the one `FulfilAfterDeadline` replays.
- Gas, wei/ether unit conversion, the block clock and its advancement (`evm_increaseTime`), and the RPC transport are not modelled. Time is the parameter `now` of each call. Sequences of calls do not assume that `now` never decreases.
- The React frontends, the IPFS helper, the network configuration, the revert-matching helper and the event promise wrapper are not modelled. They are UI, network and test plumbing around the contract. The `data` payloads are opaque strings of any length.
- Every revert test calls `assertRevert(...)` without `await` (embark-writing-tests/test/bounties_complete_spec.js:49,57,65,72,100,110,123,156,168,182,208,223,233; embark-writing-tests/test/bounties_spec.js:51,61,71,80,96; truffle-writing-tests/test/bounties.js:44,52,60,68,82). The revert is checked only after the test body has returned, so the test does not wait for it. The revert behaviour here comes from the tests' names and messages as much as from their assertions.
- truffle-writing-tests/test/bounties.js uses `getCurrentTime()` without `await`, and it returns a Promise (truffle-writing-tests/test/utils/time.js:12-13). At lines 20, 36, 45, 53 and 77 the deadline `getCurrentTime() + (dayInSeconds * 2)` becomes the string "[object Promise]172800". At line 61 `getCurrentTime() - 1` becomes `NaN`. At line 69 the Promise object itself is passed as the deadline. `FulfilAfterDeadline` and the other Truffle scenarios replay the tests as evidently intended, with the current block time, not as written.
