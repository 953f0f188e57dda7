/** What each call of the wallet does when, and where its ether goes. */
module MultiSigMoney {
  import opened Evm
  import opened MultiSigModel

  // ---- one call ------------------------------------------------------------

  /** An owner's submission takes the next id and a fresh entry; nobody else's does anything. */
  lemma SubmitOutcome(w: Wallet, sender: Address, to: Address, value: u256, data: string)
    ensures var w', id := After(w, Call.Submit(sender, to, value, data)), w.txCount;
            if sender in w.owners && id + 1 <= U256_MAX then
              && w'.txCount == id + 1 && TxOf(w', id) == Transaction(to, value, data, false, 0)
              && (forall x :: x != id ==> TxOf(w', x) == TxOf(w, x))
              && w'.confirmed == w.confirmed && w'.balance == w.balance && w'.log == w.log + [Submitted(id)]
            else w' == w
  {
  }

  /** An owner's first confirmation of an id is counted, submitted or not; nothing else is. */
  lemma ConfirmOutcome(w: Wallet, sender: Address, id: nat)
    ensures var w', t := After(w, Call.Confirm(sender, id)), TxOf(w, id);
            if sender in w.owners && (id, sender) !in w.confirmed && t.confirmations + 1 <= U256_MAX then
              && w'.confirmed == w.confirmed + {(id, sender)}
              && TxOf(w', id) == t.(confirmations := t.confirmations + 1)
              && (forall x :: x != id ==> TxOf(w', x) == TxOf(w, x))
              && w'.txCount == w.txCount && w'.balance == w.balance && w'.log == w.log + [Confirmed(id, sender)]
            else w' == w
  {
  }

  /** An execution runs exactly when an owner asks for it, it has not run, enough owners have
      confirmed it, the wallet can pay, and the callee succeeds. Otherwise it changes nothing. If
      the callee does not call back, the value has gone to it and the rest is as it was. */
  lemma ExecuteOutcome(w: Wallet, sender: Address, id: nat, inner: seq<Call>, ok: bool)
    ensures var w', t := After(w, Call.Execute(sender, id, inner, ok)), TxOf(w, id);
            if sender in w.owners && !t.executed && t.confirmations >= w.required && w.balance >= t.value && ok then
              && w.log + [Ran(id)] <= w'.log
              && (inner == [] ==>
                    && w'.balance == (if t.to == w.self then w.balance else w.balance - t.value)
                    && TxOf(w', id) == t.(executed := true) && (forall x :: x != id ==> TxOf(w', x) == TxOf(w, x))
                    && w'.txCount == w.txCount && w'.confirmed == w.confirmed && w'.log == w.log + [Ran(id)])
            else w' == w
  {
    if CanExecute(w, sender, id) && ok { LogOnlyGrows(Entered(w, id), inner); }
  }

  lemma {:induction false} LogOnlyGrows(w: Wallet, calls: seq<Call>)
    ensures w.log <= AfterAll(w, calls).log
    decreases calls, 0
  {
    if calls != [] {
      LogGrowsByCall(w, calls[0]);
      LogOnlyGrows(After(w, calls[0]), calls[1..]);
    }
  }

  lemma {:induction false} LogGrowsByCall(w: Wallet, c: Call)
    ensures w.log <= After(w, c).log
    decreases c, 1
  {
    if c.Execute? && CanExecute(w, c.sender, c.id) && c.ok { LogOnlyGrows(Entered(w, c.id), c.inner); }
  }

  // ---- all calls -----------------------------------------------------------

  /** Ether that came in. */
  function PaidIn(log: seq<Event>): nat {
    if log == [] then 0
    else
      var e := log[|log| - 1];
      PaidIn(log[..|log| - 1]) + if e.Deposited? then e.amount else 0
  }

  /** Ether that went out: for every run of a submitted transaction, the value it was submitted
      with, unless the wallet was its recipient. */
  function PaidOut(log: seq<Event>, w: Wallet): nat {
    if log == [] then 0
    else
      var rest, e := log[..|log| - 1], log[|log| - 1];
      PaidOut(rest, w)
      + if e.Ran? && e.id in Submissions(rest) && TxOf(w, e.id).to != w.self then TxOf(w, e.id).value else 0
  }

  lemma PaidGrows(log: seq<Event>, e: Event, w: Wallet)
    ensures PaidIn(log + [e]) == PaidIn(log) + if e.Deposited? then e.amount else 0
    ensures PaidOut(log + [e], w) ==
            PaidOut(log, w)
            + if e.Ran? && e.id in Submissions(log) && TxOf(w, e.id).to != w.self then TxOf(w, e.id).value else 0
  {
    assert (log + [e])[..|log|] == log;
  }

  lemma {:induction false} PaidOutSame(log: seq<Event>, w: Wallet, w': Wallet)
    requires w'.self == w.self
    requires forall id :: id in Submissions(log) ==> SameTerms(TxOf(w', id), TxOf(w, id))
    ensures PaidOut(log, w') == PaidOut(log, w)
  {
    if log != [] { PaidOutSame(log[..|log| - 1], w, w'); }
  }

  /** An id nobody has submitted has no value to pay. */
  ghost predicate BlankAhead(w: Wallet) {
    forall id: nat :: id >= w.txCount ==> SameTerms(TxOf(w, id), BLANK)
  }

  lemma BlankStays(w: Wallet, w': Wallet)
    requires BlankAhead(w) && w'.txCount >= w.txCount
    requires forall id: nat :: id >= w'.txCount ==> SameTerms(TxOf(w', id), TxOf(w, id))
    ensures BlankAhead(w')
  {
    forall id: nat | id >= w'.txCount ensures SameTerms(TxOf(w', id), BLANK) {
      assert SameTerms(TxOf(w, id), BLANK) && SameTerms(TxOf(w', id), TxOf(w, id));
    }
  }

  ghost predicate Balanced(w: Wallet, opening: nat) {
    BlankAhead(w) && w.balance + PaidOut(w.log, w) == opening + PaidIn(w.log)
  }

  lemma SubmittedBelowCount(w: Wallet, id: nat)
    requires WalletInv(w)
    ensures id in Submissions(w.log) <==> id < w.txCount
  {
    if id < w.txCount { assert seq(w.txCount, i => i)[id] == id; }
  }

  /** A step that logs one event and leaves the terms of submitted transactions alone. */
  lemma OneEvent(w: Wallet, w': Wallet, e: Event)
    requires WalletInv(w) && w'.self == w.self && w'.log == w.log + [e]
    requires forall id: nat :: id < w.txCount ==> SameTerms(TxOf(w', id), TxOf(w, id))
    ensures PaidIn(w'.log) == PaidIn(w.log) + if e.Deposited? then e.amount else 0
    ensures PaidOut(w'.log, w') ==
            PaidOut(w.log, w)
            + if e.Ran? && e.id < w.txCount && TxOf(w, e.id).to != w.self then TxOf(w, e.id).value else 0
  {
    forall id | id in Submissions(w.log) ensures SameTerms(TxOf(w', id), TxOf(w, id)) {
      SubmittedBelowCount(w, id);
    }
    PaidOutSame(w.log, w, w');
    PaidGrows(w.log, e, w');
    if e.Ran? { SubmittedBelowCount(w, e.id); }
  }

  lemma EntryBalanced(w: Wallet, sender: Address, id: nat, opening: nat)
    requires WalletInv(w) && Balanced(w, opening) && CanExecute(w, sender, id)
    ensures Balanced(Entered(w, id), opening)
  {
    OneEvent(w, Entered(w, id), Ran(id));
    BlankStays(w, Entered(w, id));
    if id >= w.txCount { assert SameTerms(TxOf(w, id), BLANK); }
  }

  lemma {:induction false} CallBalanced(w: Wallet, c: Call, opening: nat)
    requires WalletInv(w) && Balanced(w, opening)
    ensures Balanced(After(w, c), opening)
    decreases c, 1
  {
    var w' := After(w, c);
    match c
    case Submit(_, _, _, _) =>
      if w'.log != w.log { OneEvent(w, w', Submitted(w.txCount)); BlankStays(w, w'); }
    case Confirm(sender, id) =>
      if w'.log != w.log { OneEvent(w, w', Confirmed(id, sender)); BlankStays(w, w'); }
    case Receive(amount) =>
      OneEvent(w, w', Deposited(amount));
      BlankStays(w, w');
    case Execute(sender, id, inner, ok) =>
      if CanExecute(w, sender, id) && ok {
        EntryBalanced(w, sender, id, opening);
        EnteredKeeps(w, sender, id);
        CallsBalanced(Entered(w, id), inner, opening);
      }
  }

  lemma {:induction false} CallsBalanced(w: Wallet, calls: seq<Call>, opening: nat)
    requires WalletInv(w) && Balanced(w, opening)
    ensures Balanced(AfterAll(w, calls), opening)
    decreases calls, 0
  {
    if calls != [] {
      CallBalanced(w, calls[0], opening);
      CallKeeps(w, calls[0]);
      CallsBalanced(After(w, calls[0]), calls[1..], opening);
    }
  }

  /** Main result: after any calls, however they re-enter, the wallet holds what it had at first
      and what came in, less the submitted value of every run that paid somebody else. */
  lemma MoneyConserved(w: Wallet, calls: seq<Call>)
    requires Deployed(w)
    ensures var end := AfterAll(w, calls);
            end.balance + PaidOut(end.log, end) == w.balance + PaidIn(end.log)
  {
    DeployedInv(w);
    CallsBalanced(w, calls, w.balance);
  }
}
