/** What each operation does to the reconciliation figures: which
    operations keep the ledger Balanced (globally and per user), and the
    invariant tying each phone's running charge to its settled sales. */
module Invariants {
  import opened UserModels
  import opened ChargeModels
  import opened LedgerState
  import opened Reconciliation
  import RouterOps
  import ViewsOps

  /** The settled sales charged to one phone number. */
  function PhoneTotal(sales: seq<ChargeSale>, phone: PhoneId): (total: int)
    ensures (forall i :: 0 <= i < |sales| ==> TransactionValid(sales[i].txn)) ==> total >= 0
  {
    if sales == [] then 0
    else
      var last := sales[|sales| - 1];
      PhoneTotal(sales[..|sales| - 1], phone)
        + (if last.phone == phone && Settled(last.txn) then last.txn.amount else 0)
  }

  lemma PhoneTotalAppend(sales: seq<ChargeSale>, sale: ChargeSale, phone: PhoneId)
    ensures PhoneTotal(sales + [sale], phone)
         == PhoneTotal(sales, phone) + (if sale.phone == phone && Settled(sale.txn) then sale.txn.amount else 0)
  {
    assert (sales + [sale])[..|sales|] == sales;
  }

  /** Every phone's current_charge is the total of the settled sales charged to it. */
  ghost predicate PhoneChargesMatch(s: State) {
    forall p :: p in s.phones ==> s.phones[p].currentCharge == PhoneTotal(s.sales, p)
  }

  /** Appending a request that is not settled changes no settled total. */
  lemma AppendUnsettledKeepsTotals(ts: seq<Transaction>, t: Transaction)
    requires !Settled(t)
    ensures forall scope :: SettledTotal(ts + [t], scope) == SettledTotal(ts, scope)
  {
    forall scope ensures SettledTotal(ts + [t], scope) == SettledTotal(ts, scope) {
      SettledTotalAppend(ts, t, scope);
    }
  }

  /** A new credit request, through either path, moves no reconciliation figure. */
  lemma CreateCreditRequestKeepsInvariants(s: State, caller: UserId, amount: int, viaView: bool)
    ensures var s' := if viaView then ViewsOps.CreateCreditRequest(s, caller, amount).state
                      else RouterOps.CreateCreditRequest(s, caller, amount).state;
      && s'.credit == s.credit
      && (Balanced(s) ==> Balanced(s'))
      && (forall u :: u in s.credit && UserBalanced(s, u) ==> UserBalanced(s', u))
      && (PhoneChargesMatch(s) ==> PhoneChargesMatch(s'))
  {
    var r := if viaView then ViewsOps.CreateCreditRequest(s, caller, amount)
             else RouterOps.CreateCreditRequest(s, caller, amount);
    if r.outcome.Ok? {
      AppendUnsettledKeepsTotals(s.requests, NewTransaction(r.outcome.id, caller, amount));
    }
  }

  /** Approval keeps the whole ledger Balanced whoever approves: the
      approved total and the credit total rise by the same amount. */
  lemma ApproveKeepsBalance(s: State, approver: UserId, requestId: int)
    requires approver in s.credit
    ensures var s' := RouterOps.ApproveTransaction(s, approver, requestId).state;
      && (Balanced(s) ==> Balanced(s'))
      && (PhoneChargesMatch(s) ==> PhoneChargesMatch(s'))
  {
    var r := RouterOps.ApproveTransaction(s, approver, requestId);
    if r.outcome.Ok? {
      var i := requestId - 1;
      var t := s.requests[i];
      SettledTotalUpdate(s.requests, i, t.(status := Approved, processed := true), Everyone);
      CreditTotalUpdate(s.credit, approver, s.credit[approver] + t.amount);
    }
  }

  /** Approval keeps every user Balanced when the approver owns the
      request; then the owner's approved total and credit rise together. */
  lemma ApproveByOwnerKeepsUserBalance(s: State, approver: UserId, requestId: int, u: UserId)
    requires approver in s.credit && u in s.credit
    requires 1 <= requestId <= |s.requests| ==> s.requests[requestId - 1].user == approver
    requires UserBalanced(s, u)
    ensures var s' := RouterOps.ApproveTransaction(s, approver, requestId).state;
      u in s'.credit && UserBalanced(s', u)
  {
    var r := RouterOps.ApproveTransaction(s, approver, requestId);
    if r.outcome.Ok? {
      var i := requestId - 1;
      SettledTotalUpdate(s.requests, i, s.requests[i].(status := Approved, processed := true), OwnedBy(u));
    }
  }

  /** A router charge keeps the ledger Balanced, keeps every user
      Balanced, and keeps every phone's running charge equal to its
      settled sales. */
  lemma CreateChargeKeepsInvariants(s: State, caller: UserId, amount: int, phone: PhoneId)
    requires caller in s.credit
    ensures var s' := RouterOps.CreateCharge(s, caller, amount, phone).state;
      && s'.credit.Keys == s.credit.Keys
      && (Balanced(s) ==> Balanced(s'))
      && (forall u :: u in s.credit && UserBalanced(s, u) ==> UserBalanced(s', u))
      && (PhoneChargesMatch(s) ==> PhoneChargesMatch(s'))
  {
    var r := RouterOps.CreateCharge(s, caller, amount, phone);
    var s' := r.state;
    if r.outcome.Ok? {
      var sale := ChargeSale(Transaction(r.outcome.id, caller, amount, Approved, true), phone);
      CreditTotalUpdate(s.credit, caller, s.credit[caller] - amount);
      assert s'.credit == s.credit[caller := s.credit[caller] - amount];
      SalesTotalAppend(s.sales, sale, Everyone);
      forall u | u in s.credit
        ensures SalesTotal(s'.sales, OwnedBy(u))
             == SalesTotal(s.sales, OwnedBy(u)) + (if u == caller then amount else 0)
      {
        SalesTotalAppend(s.sales, sale, OwnedBy(u));
      }
      forall p | p in s.phones
        ensures PhoneTotal(s'.sales, p) == PhoneTotal(s.sales, p) + (if p == phone then amount else 0)
      {
        PhoneTotalAppend(s.sales, sale, p);
      }
    }
  }

  /** A sale made through the view is never counted by the reconciliation
      (it is COMPLETED and unprocessed) although it debits the caller. So on
      a Balanced ledger it leaves the ledger Balanced exactly when nothing
      was debited, and the same holds for the caller's own figures. */
  lemma ViewChargeSaleUnbalances(s: State, caller: UserId, amount: int, phone: PhoneId)
    requires caller in s.credit
    ensures var r := ViewsOps.CreateChargeSale(s, caller, amount, phone);
      && (Balanced(s) ==> (Balanced(r.state) <==> !r.outcome.Ok? || amount == 0))
      && (UserBalanced(s, caller) ==> (UserBalanced(r.state, caller) <==> !r.outcome.Ok? || amount == 0))
      && (PhoneChargesMatch(s) ==> PhoneChargesMatch(r.state))
  {
    var r := ViewsOps.CreateChargeSale(s, caller, amount, phone);
    if r.outcome.Ok? {
      var sale := ChargeSale(Transaction(r.outcome.id, caller, amount, Completed, false), phone);
      CreditTotalUpdate(s.credit, caller, s.credit[caller] - amount);
      assert r.state.credit == s.credit[caller := s.credit[caller] - amount];
      SalesTotalAppend(s.sales, sale, Everyone);
      SalesTotalAppend(s.sales, sale, OwnedBy(caller));
      forall p | p in s.phones ensures PhoneTotal(r.state.sales, p) == PhoneTotal(s.sales, p) {
        PhoneTotalAppend(s.sales, sale, p);
      }
    }
  }

  /** A view sale leaves every other user's figures as they were. */
  lemma ViewChargeSaleKeepsOtherUsers(s: State, caller: UserId, amount: int, phone: PhoneId, u: UserId)
    requires caller in s.credit && u in s.credit && u != caller
    requires UserBalanced(s, u)
    ensures var s' := ViewsOps.CreateChargeSale(s, caller, amount, phone).state;
      u in s'.credit && UserBalanced(s', u)
  {
    var r := ViewsOps.CreateChargeSale(s, caller, amount, phone);
    if r.outcome.Ok? {
      SalesTotalAppend(s.sales, ChargeSale(Transaction(r.outcome.id, caller, amount, Completed, false), phone), OwnedBy(u));
    }
  }

  /** Approving another user's request leaves the whole ledger Balanced but
      puts both users out of balance: the example of two users at credit 0
      where user 2 approves user 1's request of 50. */
  lemma ApproveByOtherUnbalancesBothUsers()
    ensures var s := State(map[1 := 0, 2 := 0], map[], [NewTransaction(1, 1, 50)], []);
      var s' := RouterOps.ApproveTransaction(s, 2, 1).state;
      && Balanced(s) && UserBalanced(s, 1) && UserBalanced(s, 2)
      && Balanced(s') && !UserBalanced(s', 1) && !UserBalanced(s', 2)
  {
    var s := State(map[1 := 0, 2 := 0], map[], [NewTransaction(1, 1, 50)], []);
    CreditTotalZero(s.credit);
    ApproveKeepsBalance(s, 2, 1);
    var s' := RouterOps.ApproveTransaction(s, 2, 1).state;
    assert s'.requests[..0] == [];
    assert SettledTotal(s'.requests, OwnedBy(1)) == 50;
    assert SettledTotal(s'.requests, OwnedBy(2)) == 0;
  }
}
