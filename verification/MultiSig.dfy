/** The `MultiSig` contract: storage updated in place, re-entered from `Execute`. */
module MultiSig {
  import opened Machine
  import opened Evm
  import opened MultiSigModel

  class MultiSig {
    const self: Address
    const owners: seq<Address>
    const required: nat
    var txCount: nat
    var transactions: map<nat, Transaction>
    var confirmed: set<(nat, Address)>
    var balance: nat
    var log: seq<Event>   // history

    ghost function State(): Wallet
      reads this
    {
      Wallet(self, owners, required, txCount, transactions, confirmed, balance, log)
    }

    constructor (self: Address, owners: seq<Address>, required: u256)
      requires |owners| > 0 && 0 < required <= |owners|
      ensures Deployed(State()) && this.owners == owners && this.required == required
    {
      this.self, this.owners, this.required := self, owners, required;
      txCount, transactions, confirmed, balance, log := 0, map[], {}, 0, [];
    }

    method OnlyOwner(sender: Address) returns (isOwner: bool)
      ensures isOwner == (sender in owners)
    {
      isOwner := false;
      for i := 0 to |owners|
        invariant !isOwner && sender !in owners[..i]
      {
        if owners[i] == sender {
          return true;
        }
      }
    }

    method Restore(w: Wallet)
      requires w.self == self && w.owners == owners && w.required == required
      modifies this
      ensures State() == w
    {
      txCount, transactions, confirmed, balance, log := w.txCount, w.transactions, w.confirmed, w.balance, w.log;
    }

    method Submit(sender: Address, to: Address, value: u256, data: string) returns (txId: Option<nat>)
      modifies this
      ensures State() == After(old(State()), Call.Submit(sender, to, value, data))
      ensures txId == if sender in owners && Fits(old(txCount) + 1) then Some(old(txCount)) else None
    {
      var isOwner := OnlyOwner(sender);
      if !isOwner || !Fits(txCount + 1) {
        return None;
      }
      txId := Some(txCount);
      transactions := transactions[txCount := Transaction(to, value, data, false, 0)];
      log := log + [Submitted(txCount)];
      txCount := txCount + 1;
    }

    method Confirm(sender: Address, id: nat)
      modifies this
      ensures State() == After(old(State()), Call.Confirm(sender, id))
    {
      var isOwner := OnlyOwner(sender);
      var t := if id in transactions then transactions[id] else BLANK;
      if !isOwner || (id, sender) in confirmed || !Fits(t.confirmations + 1) {
        return;
      }
      confirmed := confirmed + {(id, sender)};
      transactions := transactions[id := t.(confirmations := t.confirmations + 1)];
      log := log + [Confirmed(id, sender)];
    }

    /** Marks before it calls; the callee re-enters with `inner`; a failed call undoes it all. */
    method Execute(sender: Address, id: nat, inner: seq<Call>, ok: bool)
      modifies this
      ensures State() == After(old(State()), Call.Execute(sender, id, inner, ok))
      decreases Call.Execute(sender, id, inner, ok), 0
    {
      var isOwner := OnlyOwner(sender);
      var t := if id in transactions then transactions[id] else BLANK;
      if !isOwner || t.executed || t.confirmations < required {
        return;
      }
      var saved := Wallet(self, owners, required, txCount, transactions, confirmed, balance, log);
      transactions := transactions[id := t.(executed := true)];
      if balance < t.value {
        Restore(saved);
        return;
      }
      if t.to != self {
        balance := balance - t.value;
      }
      log := log + [Ran(id)];
      Reenter(inner);
      if !ok {
        Restore(saved);
      }
    }

    method Reenter(calls: seq<Call>)
      modifies this
      ensures State() == AfterAll(old(State()), calls)
      decreases calls
    {
      if calls != [] {
        match calls[0] {
          case Submit(sender, to, value, data) => var _ := Submit(sender, to, value, data);
          case Confirm(sender, id) => Confirm(sender, id);
          case Execute(sender, id, inner, ok) => Execute(sender, id, inner, ok);
          case Receive(amount) => balance, log := balance + amount, log + [Deposited(amount)];
        }
        Reenter(calls[1..]);
      }
    }
  }
}
