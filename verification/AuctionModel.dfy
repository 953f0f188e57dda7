/** The `Auction` contract as values, with each external call as a tree of calls back into it. */
module AuctionModel {
  import opened Evm

  datatype Ledger = Ledger(
    seller: Address, endTime: nat, now: nat,
    highestBidder: Address, highestBid: nat, ended: bool,
    pendingReturns: map<Address, nat>,
    ether: nat,                       // what the contract owns
    bids: seq<nat>,                   // history: accepted bids
    paidIn: map<Address, nat>,        // history: per bidder
    paidOut: map<Address, nat>,       // history: withdrawn, per bidder
    sellerPaid: nat)                  // history

  /** A call from outside. During its external call the callee makes the calls `inner`, in
      order and at the same block time, and then returns `ok`. */
  datatype Call =
    | Bid(sender: Address, value: u256)
    | Withdraw(sender: Address, inner: seq<Call>, ok: bool)
    | EndAuction(sender: Address, inner: seq<Call>, ok: bool)

  datatype Step = Wait(to: nat) | Tx(call: Call)

  predicate Deployed(a: Ledger) {
    && a.now <= a.endTime && a.highestBidder == ZERO_ADDRESS && a.highestBid == 0 && !a.ended
    && a.pendingReturns == map[] && a.ether == 0 && a.bids == []
    && a.paidIn == map[] && a.paidOut == map[] && a.sellerPaid == 0
  }

  /** No account has address zero, so `highestBidder` is zero only before the first bid. */
  predicate AcceptsBid(a: Ledger, sender: Address, value: u256) {
    && sender != ZERO_ADDRESS && a.now < a.endTime && value > a.highestBid
    && (a.highestBidder != ZERO_ADDRESS ==> Fits(Of(a.pendingReturns, a.highestBidder) + a.highestBid))
  }

  function Outbid(a: Ledger, sender: Address, value: u256): Ledger {
    var pending :=
      if a.highestBidder != ZERO_ADDRESS
      then a.pendingReturns[a.highestBidder := Of(a.pendingReturns, a.highestBidder) + a.highestBid]
      else a.pendingReturns;
    a.(pendingReturns := pending, highestBidder := sender, highestBid := value,
       ether := a.ether + value, bids := a.bids + [value],
       paidIn := a.paidIn[sender := Of(a.paidIn, sender) + value])
  }

  /** The guards of a call that makes an external call, its value included. */
  predicate CallsOut(a: Ledger, c: Call) {
    match c
    case Bid(_, _) => false
    case Withdraw(sender, _, _) =>
      Of(a.pendingReturns, sender) > 0 && a.ether >= Of(a.pendingReturns, sender)
    case EndAuction(_, _, _) => a.now >= a.endTime && !a.ended && a.ether >= a.highestBid
  }

  /** The contract as the callee first sees it, the value already sent. */
  function Entered(a: Ledger, c: Call): Ledger
    requires CallsOut(a, c)
  {
    match c
    case Withdraw(sender, _, _) =>
      var amount := Of(a.pendingReturns, sender);
      a.(pendingReturns := a.pendingReturns[sender := 0], ether := a.ether - amount,
         paidOut := a.paidOut[sender := Of(a.paidOut, sender) + amount])
    case EndAuction(_, _, _) =>
      a.(ended := true, ether := a.ether - a.highestBid, sellerPaid := a.sellerPaid + a.highestBid)
  }

  /** The contract after a call; a revert gives back the contract from before it. */
  function After(a: Ledger, c: Call): Ledger
    decreases c, 1
  {
    if c.Bid? then
      if AcceptsBid(a, c.sender, c.value) then Outbid(a, c.sender, c.value) else a
    else if CallsOut(a, c) && c.ok then AfterAll(Entered(a, c), c.inner)
    else a
  }

  function AfterAll(a: Ledger, calls: seq<Call>): Ledger
    decreases calls, 0
  {
    if calls == [] then a else AfterAll(After(a, calls[0]), calls[1..])
  }

  /** Every contract state some callee is shown on the way, whether or not its call ends up
      reverted. */
  function Shown(a: Ledger, c: Call): seq<Ledger>
    decreases c, 1
  {
    if !c.Bid? && CallsOut(a, c) then [Entered(a, c)] + ShownAll(Entered(a, c), c.inner) else []
  }

  function ShownAll(a: Ledger, calls: seq<Call>): seq<Ledger>
    decreases calls, 0
  {
    if calls == [] then [] else Shown(a, calls[0]) + ShownAll(After(a, calls[0]), calls[1..])
  }

  function AfterStep(a: Ledger, s: Step): Ledger {
    match s
    case Wait(to) => if to < a.now then a else a.(now := to)
    case Tx(call) => After(a, call)
  }

  function Run(a: Ledger, steps: seq<Step>): Ledger {
    if steps == [] then a else AfterStep(Run(a, steps[..|steps| - 1]), steps[|steps| - 1])
  }

  // ---- invariants ---------------------------------------------------------

  /** Ether covers what is owed: returns to losers, and the highest bid until the seller has it. */
  ghost predicate Conserves(a: Ledger) {
    a.ether == Total(a.pendingReturns) + if a.ended then 0 else a.highestBid
  }

  predicate Increasing(bids: seq<nat>) {
    forall i, j :: 0 <= i < j < |bids| ==> bids[i] < bids[j]
  }

  /** What `who` paid in is what they took out, can still take out, or have as the highest bid. */
  predicate Accounted(a: Ledger, who: Address) {
    Of(a.paidIn, who) ==
      Of(a.paidOut, who) + Of(a.pendingReturns, who) + if who == a.highestBidder then a.highestBid else 0
  }

  ghost predicate AuctionInv(a: Ledger) {
    && Conserves(a)
    && (a.ended ==> a.now >= a.endTime)
    && (a.highestBidder == ZERO_ADDRESS ==> a.highestBid == 0)
    && Increasing(a.bids) && a.highestBid == (if a.bids == [] then 0 else a.bids[|a.bids| - 1])
    && a.sellerPaid == (if a.ended then a.highestBid else 0)
    && (forall who :: Accounted(a, who))
  }

  lemma BidKeeps(a: Ledger, sender: Address, value: u256)
    requires AuctionInv(a) && AcceptsBid(a, sender, value)
    ensures AuctionInv(Outbid(a, sender, value))
  {
    var a' := Outbid(a, sender, value);
    TotalUpdated(a.pendingReturns, a.highestBidder, Of(a.pendingReturns, a.highestBidder) + a.highestBid);
    forall who ensures Accounted(a', who) {
      assert Accounted(a, who);
    }
  }

  lemma EnteredKeeps(a: Ledger, c: Call)
    requires AuctionInv(a) && CallsOut(a, c)
    ensures AuctionInv(Entered(a, c))
  {
    var a' := Entered(a, c);
    if c.Withdraw? { TotalUpdated(a.pendingReturns, c.sender, 0); }
    forall who ensures Accounted(a', who) {
      assert Accounted(a, who);
    }
  }

  lemma {:induction false} CallKeeps(a: Ledger, c: Call)
    requires AuctionInv(a)
    ensures AuctionInv(After(a, c)) && forall s :: s in Shown(a, c) ==> AuctionInv(s)
    decreases c, 1
  {
    if c.Bid? {
      if AcceptsBid(a, c.sender, c.value) { BidKeeps(a, c.sender, c.value); }
    } else if CallsOut(a, c) {
      EnteredKeeps(a, c);
      CallsKeep(Entered(a, c), c.inner);
    }
  }

  lemma {:induction false} CallsKeep(a: Ledger, calls: seq<Call>)
    requires AuctionInv(a)
    ensures AuctionInv(AfterAll(a, calls)) && forall s :: s in ShownAll(a, calls) ==> AuctionInv(s)
    decreases calls, 0
  {
    if calls != [] {
      CallKeeps(a, calls[0]);
      CallsKeep(After(a, calls[0]), calls[1..]);
    }
  }

  lemma {:induction false} RunKeeps(a: Ledger, steps: seq<Step>)
    requires Deployed(a)
    ensures AuctionInv(Run(a, steps))
  {
    if steps != [] {
      var before, s := Run(a, steps[..|steps| - 1]), steps[|steps| - 1];
      RunKeeps(a, steps[..|steps| - 1]);
      if s.Tx? {
        CallKeeps(before, s.call);
      } else {
        assert forall who :: Accounted(before, who) ==> Accounted(before.(now := s.to), who);
      }
    }
  }

  /** Main result: between transactions and at every external call inside one, re-entrant or
      not, the contract's ether is exactly the pending returns plus the highest bid unless the
      auction has ended; and the accepted bids strictly increase. */
  lemma EtherConserved(a: Ledger, steps: seq<Step>, c: Call)
    requires Deployed(a)
    ensures var b := Run(a, steps);
            && Conserves(b) && Increasing(b.bids)
            && forall s :: s in Shown(b, c) ==> Conserves(s) && Increasing(s.bids)
  {
    RunKeeps(a, steps);
    CallKeeps(Run(a, steps), c);
  }

  /** The money is there: a withdrawal or a closing that passes its checks is never short of
      ether, so it fails only if the callee does. */
  lemma AlwaysSolvent(a: Ledger, steps: seq<Step>, who: Address)
    requires Deployed(a)
    ensures var b := Run(a, steps);
            && Of(b.pendingReturns, who) <= b.ether
            && (!b.ended ==> b.highestBid <= b.ether)
            && (!b.ended ==> Of(b.pendingReturns, who) + b.highestBid <= b.ether)
  {
    RunKeeps(a, steps);
    TotalUpdated(Run(a, steps).pendingReturns, who, 0);
  }

  /** Nobody's money goes missing: an outbid bidder can take out, in all, exactly what they paid
      in, and the seller gets the highest bid once. */
  lemma EveryoneAccounted(a: Ledger, steps: seq<Step>, who: Address)
    requires Deployed(a)
    ensures var b := Run(a, steps);
            && (who != b.highestBidder ==> Of(b.paidIn, who) == Of(b.paidOut, who) + Of(b.pendingReturns, who))
            && Of(b.paidOut, who) <= Of(b.paidIn, who)
            && b.sellerPaid == (if b.ended then b.highestBid else 0)
            && (who != b.highestBidder && Of(b.pendingReturns, who) > 0 ==>
                  Of(After(b, Withdraw(who, [], true)).paidOut, who) == Of(b.paidIn, who))
  {
    RunKeeps(a, steps);
    AlwaysSolvent(a, steps, who);
    assert Accounted(Run(a, steps), who);
  }

  // ---- what each call does ------------------------------------------------

  /** A bid is accepted exactly when it comes before the end, beats the highest bid, and the
      beaten bid still fits its bidder's returns, which it is added to; nobody else's change. */
  lemma BidOutcome(a: Ledger, sender: Address, value: u256)
    ensures var b := After(a, Bid(sender, value)); var returned := Of(a.pendingReturns, a.highestBidder) + a.highestBid;
            && (b != a <==>
                  && sender != 0 && a.now < a.endTime && value > a.highestBid
                  && (a.highestBidder == 0 || returned <= U256_MAX))
            && (b != a ==>
                  && b.highestBidder == sender && b.highestBid == value && b.bids == a.bids + [value]
                  && b.ether == a.ether + value && Of(b.paidIn, sender) == Of(a.paidIn, sender) + value
                  && (a.highestBidder != 0 ==> Of(b.pendingReturns, a.highestBidder) == returned)
                  && (forall who :: who != a.highestBidder || who == 0 ==>
                        Of(b.pendingReturns, who) == Of(a.pendingReturns, who))
                  && (forall who :: who != sender ==> Of(b.paidIn, who) == Of(a.paidIn, who))
                  && b.ended == a.ended && b.now == a.now && b.endTime == a.endTime
                  && b.paidOut == a.paidOut && b.sellerPaid == a.sellerPaid)
  {
  }

  /** A withdrawal takes out the sender's whole entry, if there is one, before the sender is
      called; a failing callee undoes all of it. */
  lemma WithdrawOutcome(a: Ledger, sender: Address, inner: seq<Call>, ok: bool)
    ensures var amount := Of(a.pendingReturns, sender); var b := After(a, Withdraw(sender, inner, ok));
            && (amount == 0 || a.ether < amount || !ok ==> b == a)
            && (amount > 0 && a.ether >= amount ==>
                  var e := Entered(a, Withdraw(sender, inner, ok));
                  && Of(e.pendingReturns, sender) == 0 && e.ether == a.ether - amount
                  && Of(e.paidOut, sender) == Of(a.paidOut, sender) + amount
                  && (forall who :: who != sender ==>
                        && Of(e.pendingReturns, who) == Of(a.pendingReturns, who)
                        && Of(e.paidOut, who) == Of(a.paidOut, who))
                  && e.highestBidder == a.highestBidder && e.highestBid == a.highestBid && e.bids == a.bids
                  && e.ended == a.ended && e.now == a.now && e.endTime == a.endTime
                  && e.paidIn == a.paidIn && e.sellerPaid == a.sellerPaid
                  && Shown(a, Withdraw(sender, inner, ok)) == [e] + ShownAll(e, inner)
                  && (ok ==> b == AfterAll(e, inner)))
  {
  }

  /** The end pays the seller the highest bid, once and not before the end time; the mark is set
      before the seller is called, and a failing seller undoes both. */
  lemma EndOutcome(a: Ledger, sender: Address, inner: seq<Call>, ok: bool)
    ensures var b := After(a, EndAuction(sender, inner, ok));
            && (a.now < a.endTime || a.ended || a.ether < a.highestBid || !ok ==> b == a)
            && (a.now >= a.endTime && !a.ended && a.ether >= a.highestBid ==>
                  var e := Entered(a, EndAuction(sender, inner, ok));
                  && e.ended && e.ether == a.ether - a.highestBid && e.sellerPaid == a.sellerPaid + a.highestBid
                  && e.highestBidder == a.highestBidder && e.highestBid == a.highestBid && e.bids == a.bids
                  && e.pendingReturns == a.pendingReturns && e.now == a.now && e.endTime == a.endTime
                  && e.paidIn == a.paidIn && e.paidOut == a.paidOut
                  && Shown(a, EndAuction(sender, inner, ok)) == [e] + ShownAll(e, inner)
                  && (ok ==> b == AfterAll(e, inner)))
  {
  }

  /** The callee's calls take effect one after the other. */
  lemma {:induction false} CallsInOrder(a: Ledger, calls: seq<Call>, last: Call)
    ensures AfterAll(a, calls + [last]) == After(AfterAll(a, calls), last)
    decreases |calls|
  {
    if calls != [] {
      assert (calls + [last])[1..] == calls[1..] + [last];
      CallsInOrder(After(a, calls[0]), calls[1..], last);
    } else {
      assert [last][1..] == [];
      assert AfterAll(After(a, last), []) == After(a, last);
    }
  }

  // ---- the deadline -------------------------------------------------------

  predicate SameWinner(a: Ledger, b: Ledger) {
    && b.highestBidder == a.highestBidder && b.highestBid == a.highestBid
    && b.bids == a.bids && b.paidIn == a.paidIn && b.endTime == a.endTime && b.now >= a.now
  }

  lemma {:induction false} CallAfterDeadline(a: Ledger, c: Call)
    requires a.now >= a.endTime
    ensures SameWinner(a, After(a, c)) && forall s :: s in Shown(a, c) ==> SameWinner(a, s)
    decreases c, 1
  {
    if !c.Bid? && CallsOut(a, c) {
      CallsAfterDeadline(Entered(a, c), c.inner);
    }
  }

  lemma {:induction false} CallsAfterDeadline(a: Ledger, calls: seq<Call>)
    requires a.now >= a.endTime
    ensures SameWinner(a, AfterAll(a, calls)) && forall s :: s in ShownAll(a, calls) ==> SameWinner(a, s)
    decreases calls, 0
  {
    if calls != [] {
      CallAfterDeadline(a, calls[0]);
      CallsAfterDeadline(After(a, calls[0]), calls[1..]);
    }
  }

  /** From the end time on nothing changes who won: no later transaction, and no call made from
      inside one, gets a bid in, ended or not. */
  lemma {:induction false} WinnerIsFinal(a: Ledger, steps: seq<Step>)
    requires a.now >= a.endTime
    ensures SameWinner(a, Run(a, steps))
  {
    if steps != [] {
      var before, s := Run(a, steps[..|steps| - 1]), steps[|steps| - 1];
      WinnerIsFinal(a, steps[..|steps| - 1]);
      if s.Tx? { CallAfterDeadline(before, s.call); }
    }
  }
}
