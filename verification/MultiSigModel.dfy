/** The `MultiSig` wallet as values, with the external call of `execute` as a tree of calls back
    into the wallet. */
module MultiSigModel {
  import opened Evm

  datatype Transaction = Transaction(to: Address, value: u256, data: string, executed: bool, confirmations: nat)

  const BLANK := Transaction(ZERO_ADDRESS, 0, "", false, 0)

  /** `Ran` is logged when the external call is made, `Deposited` when ether comes in. */
  datatype Event =
    | Submitted(id: nat)
    | Confirmed(id: nat, owner: Address)
    | Ran(id: nat)
    | Deposited(amount: nat)

  datatype Wallet = Wallet(
    self: Address, owners: seq<Address>, required: nat, txCount: nat,
    transactions: map<nat, Transaction>,
    confirmed: set<(nat, Address)>,
    balance: nat,
    log: seq<Event>)

  /** A call into the wallet. While `Execute` is inside its external call, the callee makes the
      calls `inner`, in order, and then returns `ok`. */
  datatype Call =
    | Submit(sender: Address, to: Address, value: u256, data: string)
    | Confirm(sender: Address, id: nat)
    | Execute(sender: Address, id: nat, inner: seq<Call>, ok: bool)
    | Receive(amount: nat)

  function TxOf(w: Wallet, id: nat): Transaction {
    if id in w.transactions then w.transactions[id] else BLANK
  }

  predicate Deployed(w: Wallet) {
    && |w.owners| > 0 && 0 < w.required <= |w.owners| && Fits(w.required)
    && w.txCount == 0 && w.transactions == map[] && w.confirmed == {} && w.log == []
  }

  predicate CanExecute(w: Wallet, sender: Address, id: nat) {
    && sender in w.owners
    && !TxOf(w, id).executed && TxOf(w, id).confirmations >= w.required
    && w.balance >= TxOf(w, id).value
  }

  /** The wallet as the callee of `id` first sees it. */
  function Entered(w: Wallet, id: nat): Wallet
    requires w.balance >= TxOf(w, id).value
  {
    var t := TxOf(w, id);
    w.(transactions := w.transactions[id := t.(executed := true)],
       balance := if t.to == w.self then w.balance else w.balance - t.value,
       log := w.log + [Ran(id)])
  }

  /** The wallet after a call; a revert gives back the wallet from before it. */
  function After(w: Wallet, c: Call): Wallet
    decreases c, 1
  {
    match c
    case Submit(sender, to, value, data) =>
      if sender !in w.owners || !Fits(w.txCount + 1) then w
      else
        w.(txCount := w.txCount + 1,
           transactions := w.transactions[w.txCount := Transaction(to, value, data, false, 0)],
           log := w.log + [Submitted(w.txCount)])
    case Confirm(sender, id) =>
      if sender !in w.owners || (id, sender) in w.confirmed || !Fits(TxOf(w, id).confirmations + 1) then w
      else
        var t := TxOf(w, id);
        w.(confirmed := w.confirmed + {(id, sender)},
           transactions := w.transactions[id := t.(confirmations := t.confirmations + 1)],
           log := w.log + [Confirmed(id, sender)])
    case Execute(sender, id, inner, ok) =>
      if !CanExecute(w, sender, id) || !ok then w else AfterAll(Entered(w, id), inner)
    case Receive(amount) => w.(balance := w.balance + amount, log := w.log + [Deposited(amount)])
  }

  function AfterAll(w: Wallet, calls: seq<Call>): Wallet
    decreases calls, 0
  {
    if calls == [] then w else AfterAll(After(w, calls[0]), calls[1..])
  }

  // ---- reading the log ----------------------------------------------------

  /** Owners who confirmed `id` since it was last submitted. */
  function Confirmers(log: seq<Event>, id: nat): set<Address> {
    if log == [] then {}
    else
      var rest, e := log[..|log| - 1], log[|log| - 1];
      if e == Submitted(id) then {}
      else if e.Confirmed? && e.id == id then Confirmers(rest, id) + {e.owner}
      else Confirmers(rest, id)
  }

  /** Times `id` ran since it was last submitted. */
  function Runs(log: seq<Event>, id: nat): nat {
    if log == [] then 0
    else
      var rest, e := log[..|log| - 1], log[|log| - 1];
      if e == Submitted(id) then 0 else Runs(rest, id) + if e == Ran(id) then 1 else 0
  }

  /** The ids submitted, in order. */
  function Submissions(log: seq<Event>): seq<nat> {
    if log == [] then []
    else
      var e := log[|log| - 1];
      Submissions(log[..|log| - 1]) + if e.Submitted? then [e.id] else []
  }

  /** Each run is the first since the last submission of its id and has its confirmers; and
      only owners confirm. */
  ghost predicate LogSound(log: seq<Event>, owners: seq<Address>, required: nat) {
    && (forall j :: 0 <= j < |log| && log[j].Ran? ==>
          Runs(log[..j], log[j].id) == 0 && |Confirmers(log[..j], log[j].id)| >= required)
    && (forall j :: 0 <= j < |log| && log[j].Confirmed? ==> log[j].owner in owners)
  }

  lemma LogGrows(log: seq<Event>, e: Event, id: nat)
    ensures Confirmers(log + [e], id) ==
            if e == Submitted(id) then {}
            else if e.Confirmed? && e.id == id then Confirmers(log, id) + {e.owner}
            else Confirmers(log, id)
    ensures Runs(log + [e], id) == if e == Submitted(id) then 0 else Runs(log, id) + if e == Ran(id) then 1 else 0
    ensures Submissions(log + [e]) == Submissions(log) + if e.Submitted? then [e.id] else []
  {
    assert (log + [e])[..|log|] == log;
  }

  lemma SoundGrows(log: seq<Event>, e: Event, owners: seq<Address>, required: nat)
    requires LogSound(log, owners, required)
    requires e.Ran? ==> Runs(log, e.id) == 0 && |Confirmers(log, e.id)| >= required
    requires e.Confirmed? ==> e.owner in owners
    ensures LogSound(log + [e], owners, required)
  {
    var log' := log + [e];
    forall j | 0 <= j < |log'|
      ensures log'[j].Ran? ==> Runs(log'[..j], log'[j].id) == 0 && |Confirmers(log'[..j], log'[j].id)| >= required
      ensures log'[j].Confirmed? ==> log'[j].owner in owners
    {
      assert log'[..j] == log[..j];
      if j == |log| { assert log[..j] == log; }
    }
  }

  // ---- the invariant ------------------------------------------------------

  /** Storage of `id` agrees with the log, whether or not `id` has been submitted. */
  ghost predicate Agrees(w: Wallet, id: nat) {
    && TxOf(w, id).confirmations == |Confirmers(w.log, id)|
    && Runs(w.log, id) == (if TxOf(w, id).executed then 1 else 0)
    && (forall o :: o in Confirmers(w.log, id) ==> o in w.owners && (id, o) in w.confirmed)
  }

  ghost predicate WalletInv(w: Wallet) {
    && (forall id :: Agrees(w, id))
    && LogSound(w.log, w.owners, w.required)
    && Submissions(w.log) == seq(w.txCount, i => i)
  }

  lemma SubmitAgrees(w: Wallet, c: Call, id: nat)
    requires Agrees(w, id) && c.Submit?
    ensures Agrees(After(w, c), id)
  {
    LogGrows(w.log, Submitted(w.txCount), id);
  }

  lemma SubmitKeeps(w: Wallet, c: Call)
    requires WalletInv(w) && c.Submit?
    ensures WalletInv(After(w, c))
  {
    var w' := After(w, c);
    if w' != w {
      var e := Submitted(w.txCount);
      forall id ensures Agrees(w', id) {
        SubmitAgrees(w, c, id);
      }
      LogGrows(w.log, e, 0);
      SoundGrows(w.log, e, w.owners, w.required);
      assert seq(w.txCount + 1, i => i) == seq(w.txCount, i => i) + [w.txCount];
    }
  }

  lemma ConfirmKeeps(w: Wallet, c: Call)
    requires WalletInv(w) && c.Confirm?
    ensures WalletInv(After(w, c))
  {
    var w' := After(w, c);
    if w'.log != w.log {
      var e := Confirmed(c.id, c.sender);
      forall id ensures Agrees(w', id) {
        LogGrows(w.log, e, id);
        assert Agrees(w, id);
      }
      LogGrows(w.log, e, 0);
      SoundGrows(w.log, e, w.owners, w.required);
    }
  }

  lemma EnteredKeeps(w: Wallet, sender: Address, id: nat)
    requires WalletInv(w) && CanExecute(w, sender, id)
    ensures WalletInv(Entered(w, id))
  {
    var w' := Entered(w, id);
    forall i ensures Agrees(w', i) {
      LogGrows(w.log, Ran(id), i);
      assert Agrees(w, i);
    }
    assert Agrees(w, id);
    LogGrows(w.log, Ran(id), 0);
    SoundGrows(w.log, Ran(id), w.owners, w.required);
  }

  lemma ReceiveKeeps(w: Wallet, amount: nat)
    requires WalletInv(w)
    ensures WalletInv(After(w, Receive(amount)))
  {
    var w', e := After(w, Receive(amount)), Deposited(amount);
    forall id ensures Agrees(w', id) {
      LogGrows(w.log, e, id);
      assert Agrees(w, id);
    }
    LogGrows(w.log, e, 0);
    SoundGrows(w.log, e, w.owners, w.required);
  }

  /** Every call keeps the invariant, however deep the re-entrance. */
  lemma {:induction false} CallKeeps(w: Wallet, c: Call)
    requires WalletInv(w)
    ensures WalletInv(After(w, c))
    decreases c, 1
  {
    match c
    case Submit(_, _, _, _) => SubmitKeeps(w, c);
    case Confirm(_, _) => ConfirmKeeps(w, c);
    case Execute(sender, id, inner, ok) =>
      if CanExecute(w, sender, id) && ok {
        EnteredKeeps(w, sender, id);
        CallsKeep(Entered(w, id), inner);
      }
    case Receive(amount) => ReceiveKeeps(w, amount);
  }

  lemma {:induction false} CallsKeep(w: Wallet, calls: seq<Call>)
    requires WalletInv(w)
    ensures WalletInv(AfterAll(w, calls))
    decreases calls, 0
  {
    if calls != [] {
      CallKeeps(w, calls[0]);
      CallsKeep(After(w, calls[0]), calls[1..]);
    }
  }

  // ---- what the log says --------------------------------------------------

  lemma {:induction false} ConfirmersMeaning(log: seq<Event>, id: nat, o: Address)
    ensures o in Confirmers(log, id) <==>
            exists i :: 0 <= i < |log| && log[i] == Confirmed(id, o)
                        && forall k :: i < k < |log| ==> log[k] != Submitted(id)
  {
    if log != [] {
      var rest, n := log[..|log| - 1], |log| - 1;
      ConfirmersMeaning(rest, id, o);
      if o in Confirmers(rest, id) && log[n] != Submitted(id) {
        var i :| 0 <= i < n && rest[i] == Confirmed(id, o) && forall k :: i < k < n ==> rest[k] != Submitted(id);
        assert log[i] == Confirmed(id, o) && forall k :: i < k < |log| ==> log[k] != Submitted(id);
      }
    }
  }

  lemma {:induction false} RunsMeaning(log: seq<Event>, id: nat, i: nat)
    requires i < |log| && log[i] == Ran(id) && Runs(log, id) == 0
    ensures exists k :: i < k < |log| && log[k] == Submitted(id)
  {
    var n := |log| - 1;
    if log[n] != Submitted(id) {
      RunsMeaning(log[..n], id, i);
      var k :| i < k < n && log[..n][k] == Submitted(id);
      assert log[k] == Submitted(id);
    }
  }

  lemma {:induction false} SubmissionListed(log: seq<Event>, i: nat)
    requires i < |log| && log[i].Submitted?
    ensures log[i].id in Submissions(log)
  {
    if i < |log| - 1 {
      SubmissionListed(log[..|log| - 1], i);
    }
  }

  lemma {:induction false} SubmittedOnce(log: seq<Event>, i: nat, j: nat)
    requires i < j < |log| && log[i].Submitted? && log[j].Submitted?
    requires forall a, b :: 0 <= a < b < |Submissions(log)| ==> Submissions(log)[a] != Submissions(log)[b]
    ensures log[i].id != log[j].id
  {
    var rest, n := log[..|log| - 1], |log| - 1;
    var all := Submissions(log);
    if j == n {
      SubmissionListed(rest, i);
      var a :| 0 <= a < |Submissions(rest)| && Submissions(rest)[a] == log[i].id;
      assert all[a] == log[i].id && all[|all| - 1] == log[j].id;
    } else {
      assert forall a :: 0 <= a < |Submissions(rest)| ==> Submissions(rest)[a] == all[a];
      SubmittedOnce(rest, i, j);
    }
  }

  // ---- main results -------------------------------------------------------

  lemma DeployedInv(w: Wallet)
    requires Deployed(w)
    ensures WalletInv(w)
  {
  }

  lemma {:induction false} CallsFrame(w: Wallet, calls: seq<Call>)
    ensures AfterAll(w, calls).owners == w.owners && AfterAll(w, calls).required == w.required
    ensures AfterAll(w, calls).self == w.self
    decreases calls, 0
  {
    if calls != [] {
      CallFrame(w, calls[0]);
      CallsFrame(After(w, calls[0]), calls[1..]);
    }
  }

  lemma {:induction false} CallFrame(w: Wallet, c: Call)
    ensures After(w, c).owners == w.owners && After(w, c).required == w.required
    ensures After(w, c).self == w.self
    decreases c, 1
  {
    if c.Execute? && CanExecute(w, c.sender, c.id) && c.ok {
      CallsFrame(Entered(w, c.id), c.inner);
    }
  }

  predicate SameTerms(t: Transaction, u: Transaction) {
    t.to == u.to && t.value == u.value && t.data == u.data
  }

  /** What was submitted is what runs: no later call, re-entrant or not, changes the recipient,
      the value or the data of a submitted transaction, or takes its executed mark away. */
  lemma {:induction false} TermsFixed(w: Wallet, calls: seq<Call>, id: nat)
    requires id < w.txCount
    ensures var w' := AfterAll(w, calls);
            && id < w'.txCount && SameTerms(TxOf(w', id), TxOf(w, id))
            && (TxOf(w, id).executed ==> TxOf(w', id).executed)
    decreases calls, 0
  {
    if calls != [] {
      TermsFixedByCall(w, calls[0], id);
      TermsFixed(After(w, calls[0]), calls[1..], id);
    }
  }

  lemma {:induction false} TermsFixedByCall(w: Wallet, c: Call, id: nat)
    requires id < w.txCount
    ensures var w' := After(w, c);
            && id < w'.txCount && SameTerms(TxOf(w', id), TxOf(w, id))
            && (TxOf(w, id).executed ==> TxOf(w', id).executed)
    decreases c, 1
  {
    if c.Execute? && CanExecute(w, c.sender, c.id) && c.ok {
      TermsFixed(Entered(w, c.id), c.inner, id);
    }
  }

  /** Once submitted, a transaction runs at most once, whatever calls re-enter the wallet. */
  lemma RunsAtMostOnceAfterSubmit(w: Wallet, calls: seq<Call>, id: nat, i: nat, j: nat, k: nat)
    requires Deployed(w)
    requires var log := AfterAll(w, calls).log;
             i < j < k < |log| && log[i] == Submitted(id) && log[j] == Ran(id)
    ensures AfterAll(w, calls).log[k] != Ran(id)
  {
    DeployedInv(w);
    CallsKeep(w, calls);
    var w' := AfterAll(w, calls);
    if w'.log[k] == Ran(id) {
      RunsMeaning(w'.log[..k], id, j);
      var again :| j < again < k && w'.log[..k][again] == Submitted(id);
      SubmittedOnce(w'.log, i, again);
    }
  }

  /** A submitted transaction runs only with `required` distinct owners each of whom confirmed
      it after its submission and before the run. */
  lemma RunsWithConfirmersAfterSubmit(w: Wallet, calls: seq<Call>, id: nat, i: nat, j: nat)
    requires Deployed(w)
    requires var log := AfterAll(w, calls).log;
             i < j < |log| && log[i] == Submitted(id) && log[j] == Ran(id)
    ensures var log := AfterAll(w, calls).log;
            exists who: set<Address> ::
              && |who| >= w.required
              && forall o :: o in who ==> o in w.owners && exists c :: i < c < j && log[c] == Confirmed(id, o)
  {
    DeployedInv(w);
    CallsKeep(w, calls);
    CallsFrame(w, calls);
    var log := AfterAll(w, calls).log;
    var who := Confirmers(log[..j], id);
    assert |who| >= w.required;
    forall o | o in who
      ensures o in w.owners && exists c :: i < c < j && log[c] == Confirmed(id, o)
    {
      ConfirmersMeaning(log[..j], id, o);
      var c :| 0 <= c < j && log[..j][c] == Confirmed(id, o) && forall k :: c < k < j ==> log[..j][k] != Submitted(id);
      assert log[c] == Confirmed(id, o) && log[..j][i] == Submitted(id);
    }
  }
}
