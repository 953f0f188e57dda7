/** Confirmations of an id that has not been submitted yet: `submit` resets the count and not
    the `confirmed` flags. */
module MultiSigEarly {
  import opened Evm
  import opened MultiSigModel

  function OwnerSet(w: Wallet): set<Address> {
    set o | o in w.owners
  }

  /** Owners who can still confirm `id`. */
  function Unconfirmed(w: Wallet, id: nat): set<Address> {
    set o | o in w.owners && (id, o) !in w.confirmed
  }

  // ---- they are lost -------------------------------------------------------

  /** `o` confirmed `id` before it was submitted, and nothing since has counted that. */
  ghost predicate Lost(w: Wallet, id: nat, o: Address) {
    (id, o) in w.confirmed && (id < w.txCount ==> o !in Confirmers(w.log, id))
  }

  lemma {:induction false} LostStays(w: Wallet, c: Call, id: nat, o: Address)
    requires Lost(w, id, o)
    ensures Lost(After(w, c), id, o)
    decreases c, 1
  {
    match c
    case Submit(_, _, _, _) => LogGrows(w.log, Submitted(w.txCount), id);
    case Confirm(sender, x) => LogGrows(w.log, Confirmed(x, sender), id);
    case Execute(sender, x, inner, ok) =>
      if CanExecute(w, sender, x) && ok {
        LogGrows(w.log, Ran(x), id);
        AllLostStays(Entered(w, x), inner, id, o);
      }
    case Receive(amount) => LogGrows(w.log, Deposited(amount), id);
  }

  lemma {:induction false} AllLostStays(w: Wallet, calls: seq<Call>, id: nat, o: Address)
    requires Lost(w, id, o)
    ensures Lost(AfterAll(w, calls), id, o)
    decreases calls, 0
  {
    if calls != [] {
      LostStays(w, calls[0], id, o);
      AllLostStays(After(w, calls[0]), calls[1..], id, o);
    }
  }

  /** A confirmation given before the submission never counts, whatever happens afterwards. */
  lemma EarlyNeverCounts(w: Wallet, after: seq<Call>, id: nat, o: Address)
    requires id >= w.txCount && (id, o) in w.confirmed
    ensures var end := AfterAll(w, after); id < end.txCount ==> o !in Confirmers(end.log, id)
  {
    AllLostStays(w, after, id, o);
  }

  // ---- too few are left ----------------------------------------------------

  ghost predicate Blocked(w: Wallet, id: nat, early: set<Address>) {
    && (forall o :: o in early ==> Lost(w, id, o))
    && (id < w.txCount ==> Runs(w.log, id) == 0)
  }

  lemma SubsetSize(a: set<Address>, b: set<Address>)
    requires a <= b
    ensures |a| <= |b|
  {
    assert b == a + (b - a);
  }

  lemma TooFewLeft(w: Wallet, id: nat, early: set<Address>)
    requires WalletInv(w) && Blocked(w, id, early) && id < w.txCount
    requires |OwnerSet(w) - early| < w.required
    ensures TxOf(w, id).confirmations < w.required
  {
    assert Agrees(w, id);
    var left := OwnerSet(w) - early;
    assert Confirmers(w.log, id) <= left by {
      assert forall o :: o in early ==> Lost(w, id, o);
    }
    SubsetSize(Confirmers(w.log, id), left);
  }

  lemma {:induction false} BlockedStays(w: Wallet, c: Call, id: nat, early: set<Address>)
    requires WalletInv(w) && Blocked(w, id, early)
    requires |OwnerSet(w) - early| < w.required
    ensures Blocked(After(w, c), id, early)
    decreases c, 1
  {
    forall o | o in early ensures Lost(After(w, c), id, o) { LostStays(w, c, id, o); }
    match c
    case Submit(_, _, _, _) => LogGrows(w.log, Submitted(w.txCount), id);
    case Confirm(sender, x) => LogGrows(w.log, Confirmed(x, sender), id);
    case Execute(sender, x, inner, ok) =>
      if CanExecute(w, sender, x) && ok {
        EntryBlocked(w, sender, x, id, early);
        EnteredKeeps(w, sender, x);
        AllBlockedStay(Entered(w, x), inner, id, early);
      }
    case Receive(amount) => LogGrows(w.log, Deposited(amount), id);
  }

  lemma EntryBlocked(w: Wallet, sender: Address, x: nat, id: nat, early: set<Address>)
    requires WalletInv(w) && Blocked(w, id, early) && CanExecute(w, sender, x)
    requires |OwnerSet(w) - early| < w.required
    ensures Blocked(Entered(w, x), id, early)
  {
    LogGrows(w.log, Ran(x), id);
    forall o | o in early ensures Lost(Entered(w, x), id, o) { assert Lost(w, id, o); }
    if id < w.txCount { TooFewLeft(w, id, early); }
  }

  lemma {:induction false} AllBlockedStay(w: Wallet, calls: seq<Call>, id: nat, early: set<Address>)
    requires WalletInv(w) && Blocked(w, id, early)
    requires |OwnerSet(w) - early| < w.required
    ensures Blocked(AfterAll(w, calls), id, early)
    decreases calls, 0
  {
    if calls != [] {
      BlockedStays(w, calls[0], id, early);
      CallKeeps(w, calls[0]);
      CallFrame(w, calls[0]);
      AllBlockedStay(After(w, calls[0]), calls[1..], id, early);
    }
  }

  /** The ids stop where the counter does. */
  lemma {:induction false} CountFits(w: Wallet, c: Call)
    requires Fits(w.txCount)
    ensures Fits(After(w, c).txCount)
    decreases c, 1
  {
    if c.Execute? && CanExecute(w, c.sender, c.id) && c.ok {
      AllCountFit(Entered(w, c.id), c.inner);
    }
  }

  lemma {:induction false} AllCountFit(w: Wallet, calls: seq<Call>)
    requires Fits(w.txCount)
    ensures Fits(AfterAll(w, calls).txCount)
    decreases calls, 0
  {
    if calls != [] {
      CountFits(w, calls[0]);
      AllCountFit(After(w, calls[0]), calls[1..]);
    }
  }

  // ---- enough are left -----------------------------------------------------

  lemma {:induction false} AfterAllSplit(w: Wallet, a: seq<Call>, b: seq<Call>)
    ensures AfterAll(w, a + b) == AfterAll(AfterAll(w, a), b)
    decreases |a|
  {
    if a == [] {
      assert a + b == b;
    } else {
      assert (a + b)[0] == a[0] && (a + b)[1..] == a[1..] + b;
      AfterAllSplit(After(w, a[0]), a[1..], b);
    }
  }

  lemma AfterOne(w: Wallet, calls: seq<Call>, c: Call)
    ensures AfterAll(w, calls + [c]) == After(AfterAll(w, calls), c)
  {
    var mid := AfterAll(w, calls);
    AfterAllSplit(w, calls, [c]);
    assert AfterAll(mid, [c]) == AfterAll(After(mid, c), []);
  }

  /** The same wallet as far as owners and confirmations go. */
  predicate SameConfirmed(w: Wallet, w': Wallet) {
    w'.owners == w.owners && w'.required == w.required && w'.confirmed == w.confirmed
  }

  lemma {:induction false} FillUpTo(w: Wallet, owner: Address, id: nat) returns (calls: seq<Call>)
    requires owner in w.owners && w.txCount <= id && Fits(id)
    ensures AfterAll(w, calls).txCount == id && SameConfirmed(w, AfterAll(w, calls))
    decreases id - w.txCount
  {
    if w.txCount == id {
      calls := [];
    } else {
      var filler := Submit(owner, ZERO_ADDRESS, 0, "");
      var rest := FillUpTo(After(w, filler), owner, id);
      calls := [filler] + rest;
      assert calls[1..] == rest;
    }
  }

  /** What is asked of the transaction: to be submitted with these terms. */
  predicate Awaiting(w: Wallet, id: nat, to: Address, value: u256, data: string, count: nat) {
    id < w.txCount && TxOf(w, id) == Transaction(to, value, data, false, count) && w.balance >= value
  }

  lemma SubmitFunded(w: Wallet, owner: Address, id: nat, to: Address, value: u256, data: string)
    returns (calls: seq<Call>)
    requires owner in w.owners && w.txCount <= id && Fits(id + 1)
    ensures Awaiting(AfterAll(w, calls), id, to, value, data, 0) && SameConfirmed(w, AfterAll(w, calls))
  {
    var fill := FillUpTo(w, owner, id);
    AfterOne(w, fill, Receive(value));
    AfterOne(w, fill + [Receive(value)], Submit(owner, to, value, data));
    calls := fill + [Receive(value)] + [Submit(owner, to, value, data)];
  }

  lemma {:induction false} ConfirmSome(
    w: Wallet, id: nat, to: Address, value: u256, data: string, count: nat, more: nat)
    returns (calls: seq<Call>)
    requires Awaiting(w, id, to, value, data, count) && |Unconfirmed(w, id)| >= more && Fits(count + more)
    ensures Awaiting(AfterAll(w, calls), id, to, value, data, count + more)
    ensures AfterAll(w, calls).owners == w.owners && AfterAll(w, calls).required == w.required
    decreases more
  {
    if more == 0 {
      calls := [];
    } else {
      assert Unconfirmed(w, id) != {};
      var o :| o in Unconfirmed(w, id);
      var w' := After(w, Confirm(o, id));
      assert Unconfirmed(w', id) == Unconfirmed(w, id) - {o};
      var rest := ConfirmSome(w', id, to, value, data, count + 1, more - 1);
      calls := [Confirm(o, id)] + rest;
      assert calls[1..] == rest;
    }
  }

  lemma RunReady(w: Wallet, owner: Address, id: nat, to: Address, value: u256, data: string)
    requires owner in w.owners && Awaiting(w, id, to, value, data, w.required)
    ensures Runs(After(w, Execute(owner, id, [], true)).log, id) > 0
    ensures After(w, Execute(owner, id, [], true)).txCount == w.txCount
    ensures SameTerms(TxOf(After(w, Execute(owner, id, [], true)), id), TxOf(w, id))
  {
    assert After(w, Execute(owner, id, [], true)) == Entered(w, id);
    LogGrows(w.log, Ran(id), id);
  }

  /** These calls leave `id` submitted with these terms and run since. */
  predicate LeadsToRun(w: Wallet, calls: seq<Call>, id: nat, to: Address, value: u256, data: string) {
    var end := AfterAll(w, calls);
    && id < end.txCount && Runs(end.log, id) > 0
    && TxOf(end, id).to == to && TxOf(end, id).value == value && TxOf(end, id).data == data
  }

  ghost predicate CanRun(w: Wallet, id: nat, to: Address, value: u256, data: string) {
    exists calls :: LeadsToRun(w, calls, id, to, value, data)
  }

  lemma EnoughLeftRuns(w: Wallet, id: nat, to: Address, value: u256, data: string) returns (calls: seq<Call>)
    requires id >= w.txCount && Fits(id + 1) && Fits(w.required) && 0 < w.required <= |Unconfirmed(w, id)|
    ensures LeadsToRun(w, calls, id, to, value, data)
  {
    assert Unconfirmed(w, id) != {};
    var owner :| owner in Unconfirmed(w, id);
    var submitted := SubmitFunded(w, owner, id, to, value, data);
    var w1 := AfterAll(w, submitted);
    assert Unconfirmed(w1, id) == Unconfirmed(w, id);
    var confirms := ConfirmSome(w1, id, to, value, data, 0, w.required);
    AfterAllSplit(w, submitted, confirms);
    RunReady(AfterAll(w1, confirms), owner, id, to, value, data);
    AfterOne(w, submitted + confirms, Execute(owner, id, [], true));
    calls := submitted + confirms + [Execute(owner, id, [], true)];
  }

  // ---- main results --------------------------------------------------------

  /** Main result: after any calls, an id not yet submitted can still be submitted, with any
      terms, and run exactly when the counter reaches that far and at least `required` distinct
      owners have not confirmed it yet. Early confirmations only ever use owners up. */
  lemma CanRunIff(w: Wallet, before: seq<Call>, id: nat, to: Address, value: u256, data: string)
    requires Deployed(w) && id >= AfterAll(w, before).txCount
    ensures var mid := AfterAll(w, before);
            CanRun(mid, id, to, value, data) <==> Fits(id + 1) && |Unconfirmed(mid, id)| >= w.required
  {
    var mid := AfterAll(w, before);
    DeployedInv(w);
    CallsKeep(w, before);
    CallsFrame(w, before);
    if Fits(id + 1) && |Unconfirmed(mid, id)| >= w.required {
      var after := EnoughLeftRuns(mid, id, to, value, data);
      assert LeadsToRun(mid, after, id, to, value, data);
    }
    forall after | LeadsToRun(mid, after, id, to, value, data)
      ensures Fits(id + 1) && |Unconfirmed(mid, id)| >= w.required
    {
      RunNeedsOwners(w, mid, after, id, to, value, data);
      AllCountFit(w, before);
      AllCountFit(mid, after);
    }
  }

  lemma RunNeedsOwners(w: Wallet, mid: Wallet, after: seq<Call>, id: nat, to: Address, value: u256, data: string)
    requires WalletInv(mid) && id >= mid.txCount && mid.required == w.required
    requires LeadsToRun(mid, after, id, to, value, data)
    ensures |Unconfirmed(mid, id)| >= w.required
  {
    var early := set o | o in mid.owners && (id, o) in mid.confirmed;
    assert Unconfirmed(mid, id) == OwnerSet(mid) - early;
    if |Unconfirmed(mid, id)| < w.required { AllBlockedStay(mid, after, id, early); }
  }

  /** At an actual input: on a fresh wallet that needs all its owners, one confirmation of the id
      about to be submitted is accepted, and that id can never run. */
  lemma OneEarlyConfirmationBlocks(w: Wallet, owner: Address, to: Address, value: u256, data: string)
    requires Deployed(w) && owner in w.owners && w.required == |OwnerSet(w)|
    ensures var mid := AfterAll(w, [Confirm(owner, 0)]);
            && mid.txCount == 0 && (0, owner) in mid.confirmed
            && !CanRun(mid, 0, to, value, data)
  {
    var before := [Confirm(owner, 0)];
    var mid := AfterAll(w, before);
    AfterOne(w, [], Confirm(owner, 0));
    assert [] + before == before;
    assert mid == After(w, Confirm(owner, 0));
    var all := OwnerSet(w);
    assert Unconfirmed(mid, 0) == all - {owner};
    assert |all - {owner}| == |all| - 1;
    CanRunIff(w, before, 0, to, value, data);
  }
}
