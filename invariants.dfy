/** The registry invariant: what holds after every call, whatever the calls
    were. It ties the stored bounties to the event log, so that an observer
    who only reads events can account for the value in custody and for each
    bounty's one terminal transition. */
module BountyInvariants {
  import opened Bounties

  /** The value the registry still holds for bounty `b`: all of it while the
      bounty is open, none once it has been paid out or refunded. */
  function Held(b: Bounty): nat
  {
    if b.status == Open then b.amount else 0
  }

  /** The value held in custody for all bounties. */
  function Custody(bs: seq<Bounty>): nat
  {
    if bs == [] then 0 else Custody(bs[..|bs| - 1]) + Held(bs[|bs| - 1])
  }

  /** The value an event reports as entering (+) or leaving (-) custody. */
  function Flow(e: Event): int
  {
    match e
    case BountyIssued(_, _, amount, _) => amount
    case BountyFulfilled(_, _, _) => 0
    case FulfillmentAccepted(_, _, _, _, amount) => 0 - amount as int
    case BountyCancelled(_, _, amount) => 0 - amount as int
  }

  /** The balance an observer computes from the event log alone. */
  function Escrow(log: seq<Event>): int
  {
    if log == [] then 0 else Escrow(log[..|log| - 1]) + Flow(log[|log| - 1])
  }

  predicate IsAcceptanceOf(e: Event, id: nat)
  {
    e.FulfillmentAccepted? && e.bountyId == id
  }

  predicate IsCancellationOf(e: Event, id: nat)
  {
    e.BountyCancelled? && e.bountyId == id
  }

  /** How many FulfillmentAccepted events the log holds for bounty `id`. */
  function Acceptances(log: seq<Event>, id: nat): nat
  {
    if log == [] then 0
    else Acceptances(log[..|log| - 1], id) + if IsAcceptanceOf(log[|log| - 1], id) then 1 else 0
  }

  /** How many BountyCancelled events the log holds for bounty `id`. */
  function Cancellations(log: seq<Event>, id: nat): nat
  {
    if log == [] then 0
    else Cancellations(log[..|log| - 1], id) + if IsCancellationOf(log[|log| - 1], id) then 1 else 0
  }

  /** A stored bounty: it holds a positive reward, its issuer never appears
      among its fulfillers, and an accepted bounty names a fulfilment it has. */
  predicate WellFormed(b: Bounty)
  {
    && b.amount > 0
    && (forall j :: 0 <= j < |b.fulfillments| ==> b.fulfillments[j].fulfiller != b.issuer)
    && (b.status.Accepted? ==> b.status.fulfillmentId < |b.fulfillments|)
  }

  /** The registry invariant. Every event names an issued bounty; a bounty has
      logged one FulfillmentAccepted event exactly when it is Accepted and one
      BountyCancelled event exactly when it is Cancelled (so none leaves Open
      twice); and the balance computed from the events equals the value the
      stored bounties hold. */
  predicate Valid(s: State)
  {
    && (forall i :: 0 <= i < |s.bounties| ==> WellFormed(s.bounties[i]))
    && (forall k :: 0 <= k < |s.log| ==> s.log[k].bountyId < |s.bounties|)
    && (forall i :: 0 <= i < |s.bounties| ==>
          Acceptances(s.log, i) == if s.bounties[i].status.Accepted? then 1 else 0)
    && (forall i :: 0 <= i < |s.bounties| ==>
          Cancellations(s.log, i) == if s.bounties[i].status == Cancelled then 1 else 0)
    && Escrow(s.log) == Custody(s.bounties)
  }

  lemma EmptyValid()
    ensures Valid(Empty)
  {
  }

  /** Appending one event changes each count by that event alone. */
  lemma LogAppend(log: seq<Event>, e: Event, id: nat)
    ensures Escrow(log + [e]) == Escrow(log) + Flow(e)
    ensures Acceptances(log + [e], id) == Acceptances(log, id) + if IsAcceptanceOf(e, id) then 1 else 0
    ensures Cancellations(log + [e], id) == Cancellations(log, id) + if IsCancellationOf(e, id) then 1 else 0
  {
    assert (log + [e])[..|log|] == log;
  }

  /** A log whose events all name bounties below `n` records no terminal
      transition of bounty `n`. */
  lemma {:induction false} NoClosingsBeyond(log: seq<Event>, n: nat)
    requires forall k :: 0 <= k < |log| ==> log[k].bountyId < n
    ensures Acceptances(log, n) == 0 && Cancellations(log, n) == 0
  {
    if log != [] {
      NoClosingsBeyond(log[..|log| - 1], n);
    }
  }

  lemma CustodyAppend(bs: seq<Bounty>, b: Bounty)
    ensures Custody(bs + [b]) == Custody(bs) + Held(b)
  {
    assert (bs + [b])[..|bs|] == bs;
  }

  /** Replacing one bounty changes custody by the difference of what the two hold. */
  lemma {:induction false} CustodyUpdate(bs: seq<Bounty>, i: nat, b: Bounty)
    requires i < |bs|
    ensures Custody(bs[i := b]) == Custody(bs) - Held(bs[i]) + Held(b)
  {
    var n := |bs| - 1;
    if i == n {
      assert bs[i := b][..n] == bs[..n];
    } else {
      CustodyUpdate(bs[..n], i, b);
      assert bs[i := b][..n] == bs[..n][i := b];
    }
  }

  lemma {:induction false} IssuePreservesValid(s: State, caller: Address, now: Time, value: nat, data: Data, deadline: Time)
    requires Valid(s)
    ensures Valid(Issue(s, caller, now, value, data, deadline).state)
  {
    var r := Issue(s, caller, now, value, data, deadline);
    if r.outcome.Succeeded? {
      var n := |s.bounties|;
      var e := r.outcome.event;
      var s' := r.state;
      CustodyAppend(s.bounties, s'.bounties[n]);
      LogAppend(s.log, e, 0);
      NoClosingsBeyond(s.log, n);
      forall i | 0 <= i < |s'.bounties|
        ensures Acceptances(s'.log, i) == if s'.bounties[i].status.Accepted? then 1 else 0
        ensures Cancellations(s'.log, i) == if s'.bounties[i].status == Cancelled then 1 else 0
      {
        LogAppend(s.log, e, i);
      }
    }
  }

  lemma {:induction false} FulfillPreservesValid(s: State, caller: Address, now: Time, bountyId: nat, data: Data)
    requires Valid(s)
    ensures Valid(Fulfill(s, caller, now, bountyId, data).state)
  {
    var r := Fulfill(s, caller, now, bountyId, data);
    if r.outcome.Succeeded? {
      var e := r.outcome.event;
      var s' := r.state;
      CustodyUpdate(s.bounties, bountyId, s'.bounties[bountyId]);
      LogAppend(s.log, e, 0);
      assert WellFormed(s.bounties[bountyId]);
      forall i | 0 <= i < |s'.bounties|
        ensures WellFormed(s'.bounties[i])
        ensures Acceptances(s'.log, i) == if s'.bounties[i].status.Accepted? then 1 else 0
        ensures Cancellations(s'.log, i) == if s'.bounties[i].status == Cancelled then 1 else 0
      {
        LogAppend(s.log, e, i);
      }
    }
  }

  lemma {:induction false} AcceptPreservesValid(s: State, caller: Address, bountyId: nat, fulfillmentId: nat)
    requires Valid(s)
    ensures Valid(Accept(s, caller, bountyId, fulfillmentId).state)
  {
    var r := Accept(s, caller, bountyId, fulfillmentId);
    if r.outcome.Succeeded? {
      var e := r.outcome.event;
      var s' := r.state;
      CustodyUpdate(s.bounties, bountyId, s'.bounties[bountyId]);
      LogAppend(s.log, e, 0);
      assert WellFormed(s.bounties[bountyId]);
      forall i | 0 <= i < |s'.bounties|
        ensures WellFormed(s'.bounties[i])
        ensures Acceptances(s'.log, i) == if s'.bounties[i].status.Accepted? then 1 else 0
        ensures Cancellations(s'.log, i) == if s'.bounties[i].status == Cancelled then 1 else 0
      {
        LogAppend(s.log, e, i);
      }
    }
  }

  lemma {:induction false} CancelPreservesValid(s: State, caller: Address, bountyId: nat)
    requires Valid(s)
    ensures Valid(Cancel(s, caller, bountyId).state)
  {
    var r := Cancel(s, caller, bountyId);
    if r.outcome.Succeeded? {
      var e := r.outcome.event;
      var s' := r.state;
      CustodyUpdate(s.bounties, bountyId, s'.bounties[bountyId]);
      LogAppend(s.log, e, 0);
      assert WellFormed(s.bounties[bountyId]);
      forall i | 0 <= i < |s'.bounties|
        ensures WellFormed(s'.bounties[i])
        ensures Acceptances(s'.log, i) == if s'.bounties[i].status.Accepted? then 1 else 0
        ensures Cancellations(s'.log, i) == if s'.bounties[i].status == Cancelled then 1 else 0
      {
        LogAppend(s.log, e, i);
      }
    }
  }

  /** Every call keeps the registry invariant. */
  lemma StepPreservesValid(s: State, tx: Tx)
    requires Valid(s)
    ensures Valid(Apply(s, tx).state)
  {
    match tx.call
    case IssueCall(value, data, deadline) => IssuePreservesValid(s, tx.caller, tx.now, value, data, deadline);
    case FulfillCall(bountyId, data) => FulfillPreservesValid(s, tx.caller, tx.now, bountyId, data);
    case AcceptCall(bountyId, fulfillmentId) => AcceptPreservesValid(s, tx.caller, bountyId, fulfillmentId);
    case CancelCall(bountyId) => CancelPreservesValid(s, tx.caller, bountyId);
  }
}
