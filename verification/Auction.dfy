/** The `Auction` contract: storage updated in place, re-entered from its two payments. */
module Auction {
  import opened Evm
  import opened AuctionModel

  class Auction {
    const seller: Address
    const endTime: nat
    var now: nat
    var highestBidder: Address
    var highestBid: nat
    var ended: bool
    var pendingReturns: map<Address, nat>
    var ether: nat
    var bids: seq<nat>               // history
    var paidIn: map<Address, nat>    // history
    var paidOut: map<Address, nat>   // history
    var sellerPaid: nat              // history

    ghost function State(): Ledger
      reads this
    {
      Ledger(seller, endTime, now, highestBidder, highestBid, ended, pendingReturns, ether,
             bids, paidIn, paidOut, sellerPaid)
    }

    constructor (sender: Address, timestamp: nat, duration: nat)
      requires Fits(timestamp + duration)
      ensures Deployed(State()) && seller == sender && endTime == timestamp + duration && now == timestamp
    {
      seller, endTime, now := sender, timestamp + duration, timestamp;
      highestBidder, highestBid, ended, pendingReturns, ether := ZERO_ADDRESS, 0, false, map[], 0;
      bids, paidIn, paidOut, sellerPaid := [], map[], map[], 0;
    }

    method Restore(a: Ledger)
      requires a.seller == seller && a.endTime == endTime
      modifies this
      ensures State() == a
    {
      now, highestBidder, highestBid, ended := a.now, a.highestBidder, a.highestBid, a.ended;
      pendingReturns, ether := a.pendingReturns, a.ether;
      bids, paidIn, paidOut, sellerPaid := a.bids, a.paidIn, a.paidOut, a.sellerPaid;
    }

    method Bid(sender: Address, value: u256)
      modifies this
      ensures State() == After(old(State()), Call.Bid(sender, value))
    {
      if sender == ZERO_ADDRESS || now >= endTime || value <= highestBid {
        return;
      }
      if highestBidder != ZERO_ADDRESS {
        if !Fits(Of(pendingReturns, highestBidder) + highestBid) {
          return;
        }
        pendingReturns := pendingReturns[highestBidder := Of(pendingReturns, highestBidder) + highestBid];
      }
      highestBidder, highestBid := sender, value;
      ether, bids := ether + value, bids + [value];
      paidIn := paidIn[sender := Of(paidIn, sender) + value];
    }

    /** Zeroes the entry before it pays; the payee re-enters with `inner`. */
    method Withdraw(sender: Address, inner: seq<Call>, ok: bool)
      modifies this
      ensures State() == After(old(State()), Call.Withdraw(sender, inner, ok))
      decreases Call.Withdraw(sender, inner, ok), 0
    {
      var amount := Of(pendingReturns, sender);
      if amount == 0 {
        return;
      }
      var saved := Ledger(seller, endTime, now, highestBidder, highestBid, ended, pendingReturns, ether,
                          bids, paidIn, paidOut, sellerPaid);
      pendingReturns := pendingReturns[sender := 0];
      if ether < amount {
        Restore(saved);
        return;
      }
      ether, paidOut := ether - amount, paidOut[sender := Of(paidOut, sender) + amount];
      Reenter(inner);
      if !ok {
        Restore(saved);
      }
    }

    /** Marks the end before it pays the seller, who re-enters with `inner`. */
    method EndAuction(sender: Address, inner: seq<Call>, ok: bool)
      modifies this
      ensures State() == After(old(State()), Call.EndAuction(sender, inner, ok))
      decreases Call.EndAuction(sender, inner, ok), 0
    {
      if now < endTime || ended {
        return;
      }
      var saved := Ledger(seller, endTime, now, highestBidder, highestBid, ended, pendingReturns, ether,
                          bids, paidIn, paidOut, sellerPaid);
      ended := true;
      if ether < highestBid {
        Restore(saved);
        return;
      }
      ether, sellerPaid := ether - highestBid, sellerPaid + highestBid;
      Reenter(inner);
      if !ok {
        Restore(saved);
      }
    }

    method Reenter(calls: seq<Call>)
      modifies this
      ensures State() == AfterAll(old(State()), calls)
      decreases calls
    {
      if calls != [] {
        match calls[0] {
          case Bid(sender, value) => Bid(sender, value);
          case Withdraw(sender, inner, ok) => Withdraw(sender, inner, ok);
          case EndAuction(sender, inner, ok) => EndAuction(sender, inner, ok);
        }
        Reenter(calls[1..]);
      }
    }
  }
}
