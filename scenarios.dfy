/** Sequences of endpoint calls, one after another, and what holds after
    any of them: the reconciliation stays consistent through every call but
    the view's charge sale, approvals apply at most once, and each phone's
    running charge stays equal to its settled sales. */
module Scenarios {
  import opened UserModels
  import opened ChargeModels
  import opened LedgerState
  import opened Reconciliation
  import RouterOps
  import ViewsOps
  import opened Invariants

  /** One request to one of the state-changing endpoints, by the user its
      bearer token (or session) identifies. */
  datatype Call =
    | CreateCreditRequest(caller: UserId, amount: int)
    | ApproveTransaction(caller: UserId, requestId: int)
    | CreateCharge(caller: UserId, amount: int, phone: PhoneId)
    | CreateChargeThreaded(caller: UserId, amount: int, phone: PhoneId)
    | CreditRequestViewCreate(caller: UserId, amount: int)
    | CreditRequestViewApprove(caller: UserId, requestId: int)
    | ChargeSaleViewCreate(caller: UserId, amount: int, phone: PhoneId)

  predicate ThroughRouter(c: Call) {
    c.CreateCreditRequest? || c.ApproveTransaction? || c.CreateCharge? || c.CreateChargeThreaded?
  }

  /** Every call but the view's charge sale keeps the ledger Balanced. */
  predicate KeepsReconciliation(c: Call) {
    !c.ChargeSaleViewCreate?
  }

  /** One call: refused by authentication when the caller is no user,
      otherwise the endpoint's atomic block. */
  function Apply(s: State, c: Call): (r: Step)
    ensures c.caller !in s.credit ==> r == Step(s, Unauthenticated)
    ensures r.state.credit.Keys == s.credit.Keys
    ensures WellFormed(s) ==> WellFormed(r.state)
    ensures |r.state.requests| >= |s.requests| && |r.state.sales| >= |s.sales|
    ensures forall i :: 0 <= i < |s.requests| && s.requests[i].processed ==> r.state.requests[i] == s.requests[i]
  {
    if c.caller !in s.credit then Step(s, Unauthenticated)
    else
      match c
      case CreateCreditRequest(caller, amount) => RouterOps.CreateCreditRequest(s, caller, amount)
      case ApproveTransaction(caller, requestId) => RouterOps.ApproveTransaction(s, caller, requestId)
      case CreateCharge(caller, amount, phone) => RouterOps.CreateCharge(s, caller, amount, phone)
      case CreateChargeThreaded(caller, amount, phone) => RouterOps.CreateCharge(s, caller, amount, phone)
      case CreditRequestViewCreate(caller, amount) => ViewsOps.CreateCreditRequest(s, caller, amount)
      case CreditRequestViewApprove(caller, requestId) => ViewsOps.Approve(s, caller, requestId)
      case ChargeSaleViewCreate(caller, amount, phone) => ViewsOps.CreateChargeSale(s, caller, amount, phone)
  }

  /** The calls applied in order. */
  function Run(s: State, calls: seq<Call>): (t: State)
    ensures t.credit.Keys == s.credit.Keys
    ensures WellFormed(s) ==> WellFormed(t)
    ensures |t.requests| >= |s.requests| && |t.sales| >= |s.sales|
    decreases |calls|
  {
    if calls == [] then s else Run(Apply(s, calls[0]).state, calls[1..])
  }

  /** Running two sequences of calls one after the other is running their
      concatenation. */
  lemma {:induction false} RunSplit(s: State, first: seq<Call>, second: seq<Call>)
    ensures Run(s, first + second) == Run(Run(s, first), second)
    decreases |first|
  {
    if first != [] {
      assert (first + second)[0] == first[0];
      assert (first + second)[1..] == first[1..] + second;
      RunSplit(Apply(s, first[0]).state, first[1..], second);
    } else {
      assert first + second == second;
    }
  }

  lemma ApplyKeepsBalance(s: State, c: Call)
    requires KeepsReconciliation(c)
    requires Balanced(s)
    ensures Balanced(Apply(s, c).state)
  {
    if c.caller in s.credit {
      match c
      case CreateCreditRequest(caller, amount) =>
        CreateCreditRequestKeepsInvariants(s, caller, amount, false);
      case ApproveTransaction(caller, requestId) =>
        ApproveKeepsBalance(s, caller, requestId);
      case CreateCharge(caller, amount, phone) =>
        CreateChargeKeepsInvariants(s, caller, amount, phone);
      case CreateChargeThreaded(caller, amount, phone) =>
        CreateChargeKeepsInvariants(s, caller, amount, phone);
      case CreditRequestViewCreate(caller, amount) =>
        CreateCreditRequestKeepsInvariants(s, caller, amount, true);
      case CreditRequestViewApprove(caller, requestId) =>
        ViewsOps.ApproveAgreesWithRouter(s, caller, requestId);
        ApproveKeepsBalance(s, caller, requestId);
    }
  }

  /** The reconciliation invariant survives any sequence of calls that
      avoids the view's charge sale, whoever approves what. */
  lemma {:induction false} RunKeepsBalance(s: State, calls: seq<Call>)
    requires forall i :: 0 <= i < |calls| ==> KeepsReconciliation(calls[i])
    requires Balanced(s)
    ensures Balanced(Run(s, calls))
    decreases |calls|
  {
    if calls != [] {
      ApplyKeepsBalance(s, calls[0]);
      RunKeepsBalance(Apply(s, calls[0]).state, calls[1..]);
    }
  }

  /** A fresh ledger (every user at credit 0, no transactions) is Balanced,
      every user in it is Balanced, and every phone's charge matches. */
  lemma FreshLedgerBalanced(s: State)
    requires Fresh(s)
    ensures Balanced(s)
    ensures PhoneChargesMatch(s)
    ensures forall u :: u in s.credit ==> UserBalanced(s, u)
  {
    CreditTotalZero(s.credit);
  }

  /** Starting from all-zero credits, any sequence of calls to the router's
      endpoints (and to the view's credit-request create and approve) leaves
      validate_transactions reporting consistent, with non-negative figures. */
  lemma ConsistentAfterAnyRun(s: State, calls: seq<Call>)
    requires Fresh(s)
    requires forall i :: 0 <= i < |calls| ==> KeepsReconciliation(calls[i])
    ensures var r := ValidateTransactions(Run(s, calls));
      && r.isConsistent && r.details == CONSISTENT_DETAILS
      && r.totalSpentCredits == r.totalChargeSales
      && r.totalApprovedCredits >= 0 && r.currentUserCredits >= 0 && r.totalChargeSales >= 0
  {
    FreshLedgerBalanced(s);
    RunFromBalancedIsConsistent(s, calls);
  }

  lemma RunFromBalancedIsConsistent(s: State, calls: seq<Call>)
    requires WellFormed(s) && Balanced(s)
    requires forall i :: 0 <= i < |calls| ==> KeepsReconciliation(calls[i])
    ensures var r := ValidateTransactions(Run(s, calls));
      && r.isConsistent && r.details == CONSISTENT_DETAILS
      && r.totalSpentCredits == r.totalChargeSales
      && r.totalApprovedCredits >= 0 && r.currentUserCredits >= 0 && r.totalChargeSales >= 0
  {
    RunKeepsBalance(s, calls);
  }

  /** Every approval in the run is made by the owner of the request it
      approves (the condition under which crediting the caller credits the
      owner). */
  predicate SelfApproving(s: State, calls: seq<Call>)
    decreases |calls|
  {
    calls == [] || (ApprovesOwn(s, calls[0]) && SelfApproving(Apply(s, calls[0]).state, calls[1..]))
  }

  /** The call is no approval, or approves an unknown id, or a request the caller owns. */
  predicate ApprovesOwn(s: State, c: Call) {
    ((c.ApproveTransaction? || c.CreditRequestViewApprove?) && 1 <= c.requestId <= |s.requests|)
    ==> s.requests[c.requestId - 1].user == c.caller
  }

  lemma ApplyKeepsUserBalance(s: State, c: Call, u: UserId)
    requires KeepsReconciliation(c)
    requires u in s.credit && UserBalanced(s, u)
    requires ApprovesOwn(s, c)
    ensures u in Apply(s, c).state.credit && UserBalanced(Apply(s, c).state, u)
  {
    if c.caller in s.credit {
      match c
      case CreateCreditRequest(caller, amount) =>
        CreateCreditRequestKeepsInvariants(s, caller, amount, false);
      case ApproveTransaction(caller, requestId) =>
        ApproveByOwnerKeepsUserBalance(s, caller, requestId, u);
      case CreateCharge(caller, amount, phone) =>
        CreateChargeKeepsInvariants(s, caller, amount, phone);
      case CreateChargeThreaded(caller, amount, phone) =>
        CreateChargeKeepsInvariants(s, caller, amount, phone);
      case CreditRequestViewCreate(caller, amount) =>
        CreateCreditRequestKeepsInvariants(s, caller, amount, true);
      case CreditRequestViewApprove(caller, requestId) =>
        ViewsOps.ApproveAgreesWithRouter(s, caller, requestId);
        ApproveByOwnerKeepsUserBalance(s, caller, requestId, u);
    }
  }

  lemma {:induction false} RunKeepsUserBalance(s: State, calls: seq<Call>, u: UserId)
    requires forall i :: 0 <= i < |calls| ==> KeepsReconciliation(calls[i])
    requires SelfApproving(s, calls)
    requires u in s.credit && UserBalanced(s, u)
    ensures u in Run(s, calls).credit && UserBalanced(Run(s, calls), u)
    decreases |calls|
  {
    if calls != [] {
      ApplyKeepsUserBalance(s, calls[0], u);
      RunKeepsUserBalance(Apply(s, calls[0]).state, calls[1..], u);
    }
  }

  /** Starting from all-zero credits, when every user approves only their
      own requests through the router, both validate_transactions and
      validate_user_transactions for every user report consistent after any
      sequence of router calls. */
  lemma RouterRunsStayConsistent(s: State, calls: seq<Call>)
    requires Fresh(s)
    requires forall i :: 0 <= i < |calls| ==> ThroughRouter(calls[i])
    requires SelfApproving(s, calls)
    ensures ValidateTransactions(Run(s, calls)).isConsistent
    ensures forall u :: u in s.credit ==>
      var r := ValidateUserTransactions(Run(s, calls), u);
      r.Report? && r.result.isConsistent
  {
    FreshLedgerBalanced(s);
    SelfApprovingRunsStayConsistent(s, calls);
  }

  lemma SelfApprovingRunsStayConsistent(s: State, calls: seq<Call>)
    requires Balanced(s) && forall u :: u in s.credit ==> UserBalanced(s, u)
    requires forall i :: 0 <= i < |calls| ==> ThroughRouter(calls[i])
    requires SelfApproving(s, calls)
    ensures ValidateTransactions(Run(s, calls)).isConsistent
    ensures forall u :: u in s.credit ==>
      var r := ValidateUserTransactions(Run(s, calls), u);
      r.Report? && r.result.isConsistent
  {
    RunKeepsBalance(s, calls);
    forall u | u in s.credit
      ensures var r := ValidateUserTransactions(Run(s, calls), u); r.Report? && r.result.isConsistent
    {
      RunKeepsUserBalance(s, calls, u);
    }
  }

  lemma ApplyKeepsPhoneCharges(s: State, c: Call)
    requires PhoneChargesMatch(s)
    ensures PhoneChargesMatch(Apply(s, c).state)
  {
    if c.caller in s.credit {
      match c
      case CreateCreditRequest(caller, amount) =>
        CreateCreditRequestKeepsInvariants(s, caller, amount, false);
      case ApproveTransaction(caller, requestId) =>
        ApproveKeepsBalance(s, caller, requestId);
      case CreateCharge(caller, amount, phone) =>
        CreateChargeKeepsInvariants(s, caller, amount, phone);
      case CreateChargeThreaded(caller, amount, phone) =>
        CreateChargeKeepsInvariants(s, caller, amount, phone);
      case CreditRequestViewCreate(caller, amount) =>
        CreateCreditRequestKeepsInvariants(s, caller, amount, true);
      case CreditRequestViewApprove(caller, requestId) =>
        ViewsOps.ApproveAgreesWithRouter(s, caller, requestId);
        ApproveKeepsBalance(s, caller, requestId);
      case ChargeSaleViewCreate(caller, amount, phone) =>
        ViewChargeSaleUnbalances(s, caller, amount, phone);
    }
  }

  /** No call lowers a phone's current_charge or removes a phone: the
      router adds a positive amount, every other call leaves it alone. */
  lemma ApplyPhoneChargeGrows(s: State, c: Call)
    ensures forall p :: p in s.phones ==>
      p in Apply(s, c).state.phones
      && Apply(s, c).state.phones[p].currentCharge >= s.phones[p].currentCharge
  {
  }

  /** Through any sequence of calls, each phone's current_charge only grows. */
  lemma {:induction false} RunPhoneChargeGrows(s: State, calls: seq<Call>, p: PhoneId)
    requires p in s.phones
    ensures p in Run(s, calls).phones
    ensures Run(s, calls).phones[p].currentCharge >= s.phones[p].currentCharge
    decreases |calls|
  {
    if calls != [] {
      ApplyPhoneChargeGrows(s, calls[0]);
      RunPhoneChargeGrows(Apply(s, calls[0]).state, calls[1..], p);
    }
  }

  /** Through any sequence of calls, each phone's current_charge stays the
      total of the settled sales charged to it. */
  lemma {:induction false} RunKeepsPhoneCharges(s: State, calls: seq<Call>)
    requires PhoneChargesMatch(s)
    ensures PhoneChargesMatch(Run(s, calls))
    decreases |calls|
  {
    if calls != [] {
      ApplyKeepsPhoneCharges(s, calls[0]);
      RunKeepsPhoneCharges(Apply(s, calls[0]).state, calls[1..]);
    }
  }

  /** Once processed, a credit request is never written again: the flag
      goes from false to true at most once, and so its amount is credited at
      most once. */
  lemma {:induction false} ProcessedIsFinal(s: State, calls: seq<Call>, i: int)
    requires 0 <= i < |s.requests| && s.requests[i].processed
    ensures i < |Run(s, calls).requests| && Run(s, calls).requests[i] == s.requests[i]
    decreases |calls|
  {
    if calls != [] {
      ProcessedIsFinal(Apply(s, calls[0]).state, calls[1..], i);
    }
  }

  /** A charge the credit does not cover is refused and changes nothing;
      in particular the credit never goes below zero through a router charge. */
  lemma InsufficientChargeChangesNothing(s: State, caller: UserId, amount: int, phone: PhoneId)
    requires caller in s.credit && 0 < amount && s.credit[caller] < amount
    ensures Apply(s, CreateCharge(caller, amount, phone)) == Step(s, InsufficientCredit)
    ensures Apply(s, ChargeSaleViewCreate(caller, amount, phone)).state == s
  {
  }

  /** The worked example's ledger: user 1 at credit 0, phone 7 new, no
      transactions. */
  function ExampleStart(): State {
    State(map[1 := 0], map[7 := NewPhoneNumber("09120000000")], [], [])
  }

  /** The example's ledger after user 1 asked for 100. */
  function ExampleRequested(): State {
    State(map[1 := 0], map[7 := NewPhoneNumber("09120000000")], [NewTransaction(1, 1, 100)], [])
  }

  lemma ExampleStartIsInitial()
    ensures InitialState({1}, map[7 := "09120000000"]) == ExampleStart()
  {
  }

  /** The example's ledger after user 1 asked for 100 and approved it. */
  function ExampleFunded(): State {
    State(map[1 := 100], map[7 := NewPhoneNumber("09120000000")],
          [Transaction(1, 1, 100, Approved, true)], [])
  }

  /** The example's ledger after a further router charge of 30 to phone 7. */
  function ExampleCharged(): State {
    State(map[1 := 70], map[7 := NewPhoneNumber("09120000000").(currentCharge := 30)],
          [Transaction(1, 1, 100, Approved, true)],
          [ChargeSale(Transaction(1, 1, 30, Approved, true), 7)])
  }

  lemma ExampleFunding()
    ensures Run(ExampleStart(), [CreateCreditRequest(1, 100), ApproveTransaction(1, 1)]) == ExampleFunded()
  {
    var calls := [CreateCreditRequest(1, 100), ApproveTransaction(1, 1)];
    assert calls == [calls[0]] + [calls[1]];
    ExampleRequesting();
    ExampleApproving();
    RunSplit(ExampleStart(), [calls[0]], [calls[1]]);
  }

  lemma ExampleRequesting()
    ensures Run(ExampleStart(), [CreateCreditRequest(1, 100)]) == ExampleRequested()
  {
    assert Apply(ExampleStart(), CreateCreditRequest(1, 100)).state == ExampleRequested();
    assert [CreateCreditRequest(1, 100)][1..] == [];
  }

  lemma ExampleApproving()
    ensures Run(ExampleRequested(), [ApproveTransaction(1, 1)]) == ExampleFunded()
  {
    assert Apply(ExampleRequested(), ApproveTransaction(1, 1)).state == ExampleFunded();
    assert [ApproveTransaction(1, 1)][1..] == [];
  }

  lemma ExampleCharging()
    ensures Run(ExampleFunded(), [CreateCharge(1, 30, 7)]) == ExampleCharged()
  {
    var c := Apply(ExampleFunded(), CreateCharge(1, 30, 7)).state;
    assert c == ExampleCharged();
  }

  lemma ExampleChargedFigures()
    ensures ValidateUserTransactions(ExampleCharged(), 1)
         == Report(ValidationResult(100, 70, 30, 30, true, CONSISTENT_DETAILS))
  {
    var s := ExampleCharged();
    assert s.requests[..0] == [];
    assert s.sales[..0] == [];
  }

  /** The worked example: a user at credit 0 asks for 100, approves it,
      charges 30 to a phone, and the per-user figures are 100, 70, 30, 30;
      a further charge of 150 is refused and changes nothing. */
  lemma WorkedExample()
    ensures var s0 := InitialState({1}, map[7 := "09120000000"]);
      var s1 := Run(s0, [CreateCreditRequest(1, 100), ApproveTransaction(1, 1)]);
      var s2 := Run(s1, [CreateCharge(1, 30, 7)]);
      && s1.credit[1] == 100
      && s2.credit[1] == 70 && s2.phones[7].currentCharge == 30
      && ValidateUserTransactions(s2, 1)
         == Report(ValidationResult(100, 70, 30, 30, true, CONSISTENT_DETAILS))
      && Apply(s2, CreateCharge(1, 150, 7)) == Step(s2, InsufficientCredit)
  {
    ExampleStartIsInitial();
    ExampleFunding();
    ExampleCharging();
    ExampleChargedFigures();
  }

  /** The same example with the charge made through the view: the user's
      credit falls to 70 but the sale is never counted, so the global check
      reports a mismatch. */
  lemma ViewChargeIsReportedAsMismatch()
    ensures var s := Run(ExampleStart(), [CreateCreditRequest(1, 100), ApproveTransaction(1, 1), ChargeSaleViewCreate(1, 30, 7)]);
      && s.credit[1] == 70 && s.phones[7].currentCharge == 0
      && !ValidateTransactions(s).isConsistent
  {
    var calls := [CreateCreditRequest(1, 100), ApproveTransaction(1, 1), ChargeSaleViewCreate(1, 30, 7)];
    assert calls == calls[..2] + [calls[2]];
    ExampleFunding();
    RunSplit(ExampleStart(), calls[..2], [calls[2]]);
    ExampleViewCharging();
    ExampleViewChargedUnbalanced();
  }

  /** The funded example's ledger after a view sale of 30 to phone 7. */
  function ExampleViewCharged(): State {
    State(map[1 := 70], map[7 := NewPhoneNumber("09120000000")],
          [Transaction(1, 1, 100, Approved, true)],
          [ChargeSale(Transaction(1, 1, 30, Completed, false), 7)])
  }

  lemma ExampleViewCharging()
    ensures Run(ExampleFunded(), [ChargeSaleViewCreate(1, 30, 7)]) == ExampleViewCharged()
  {
    var call := ChargeSaleViewCreate(1, 30, 7);
    var r := ViewsOps.CreateChargeSale(ExampleFunded(), 1, 30, 7);
    assert r.state == ExampleViewCharged();
    assert [call][1..] == [];
  }

  lemma ExampleViewChargedUnbalanced()
    ensures !Balanced(ExampleViewCharged())
  {
    var c := ExampleViewCharged();
    assert SettledTotal(c.requests, Everyone) == 100 by {
      assert c.requests[..0] == [];
    }
    assert SalesTotal(c.sales, Everyone) == 0 by {
      assert c.sales[..0] == [];
    }
    assert CreditTotal(c.credit) == 70 by {
      CreditTotalRemove(c.credit, 1);
      assert c.credit - {1} == map[];
    }
  }
}
