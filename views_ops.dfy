/** The state-changing actions of tbdl/charge/api/views.py, written in the
    order the view code runs them. These views read the credit request and
    the caller's credit BEFORE their atomic block and write back the
    in-memory values with save(), so two interleaved calls can both pass a
    check or lose one of two updates. A sequential model runs one call at a
    time and cannot show that race: each function below is the effect of one
    call with nothing interleaved. Each function also describes the view's
    body with its `async with transaction.atomic()` working as an atomic
    block, and keeps only the amount and phone rules of the serializers, not
    their `user` field. */
module ViewsOps {
  import opened UserModels
  import opened ChargeModels
  import opened LedgerState
  import RouterOps

  /** The serializers' rule for `amount`, the model's MinValueValidator(0):
      zero passes, unlike the router schemas. */
  predicate SerializerAmountValid(amount: int) {
    amount >= 0
  }

  /** CreditRequestViewSet.create: an invalid payload is answered 400 with
      nothing created; otherwise one request owned by request.user is
      appended with the model defaults. */
  function CreateCreditRequest(s: State, caller: UserId, amount: int): (r: Step)
    ensures r.outcome.Invalid? <==> !SerializerAmountValid(amount)
    ensures r.outcome.Ok? || r.outcome.Invalid?
    ensures r.outcome.Invalid? ==> r.state == s
    ensures r.outcome.Ok? ==>
      && r.outcome.id == |s.requests| + 1
      && r.state.requests == s.requests + [Transaction(r.outcome.id, caller, amount, Pending, false)]
      && r.state.credit == s.credit && r.state.phones == s.phones && r.state.sales == s.sales
    ensures WellFormed(s) && caller in s.credit ==> WellFormed(r.state)
  {
    if !SerializerAmountValid(amount) then Step(s, Invalid)
    else
      var id := |s.requests| + 1;
      Step(s.(requests := s.requests + [NewTransaction(id, caller, amount)]), Ok(id))
  }

  /** CreditRequestViewSet.approve: 404 for an unknown pk, 400 "Already
      processed" for a processed request, both with nothing written;
      otherwise the request is marked APPROVED and processed and the amount
      is added to request.user's credit, the caller's, not the owner's. */
  function Approve(s: State, approver: UserId, requestId: int): (r: Step)
    requires approver in s.credit
    ensures r.outcome.NotFound? <==> !(1 <= requestId <= |s.requests|)
    ensures r.outcome.AlreadyProcessed? <==>
      1 <= requestId <= |s.requests| && s.requests[requestId - 1].processed
    ensures r.outcome.Ok? || r.outcome.NotFound? || r.outcome.AlreadyProcessed?
    ensures !r.outcome.Ok? ==> r.state == s
    ensures r.outcome.Ok? ==>
      var i := requestId - 1;
      && r.outcome.id == requestId
      && r.state.credit.Keys == s.credit.Keys
      && r.state.credit[approver] == s.credit[approver] + s.requests[i].amount
      && (forall u :: u in s.credit && u != approver ==> r.state.credit[u] == s.credit[u])
      && |r.state.requests| == |s.requests|
      && r.state.requests[i] == s.requests[i].(status := Approved, processed := true)
      && Settled(r.state.requests[i])
      && (forall j :: 0 <= j < |s.requests| && j != i ==> r.state.requests[j] == s.requests[j])
      && r.state.phones == s.phones && r.state.sales == s.sales
  {
    if !(1 <= requestId <= |s.requests|) then Step(s, NotFound)
    else
      var creditRequest := s.requests[requestId - 1];
      if creditRequest.processed then Step(s, AlreadyProcessed)
      else
        var saved := creditRequest.(status := Approved, processed := true);
        var afterRequest := s.(requests := s.requests[requestId - 1 := saved]);
        var afterUser := afterRequest.(credit := s.credit[approver := s.credit[approver] + creditRequest.amount]);
        Step(afterUser, Ok(requestId))
  }

  /** Run one at a time, the view's approve has exactly the effect and the
      outcome of the router's approve_transaction, in every state. */
  lemma ApproveAgreesWithRouter(s: State, approver: UserId, requestId: int)
    requires approver in s.credit
    ensures Approve(s, approver, requestId) == RouterOps.ApproveTransaction(s, approver, requestId)
  {
  }

  /** ChargeSaleViewSet.create: an invalid payload (negative amount, or a
      phone_number that names no row) is answered 400; a caller whose credit
      is below the amount gets 400 "Insufficient credit"; both write nothing.
      Otherwise a sale is created with the defaults, the caller's credit
      falls by the amount, and the sale's status is set to COMPLETED. The
      processed flag stays false and the phone's current_charge is not
      touched. */
  function CreateChargeSale(s: State, caller: UserId, amount: int, phone: PhoneId): (r: Step)
    requires caller in s.credit
    ensures r.outcome.Invalid? <==> !SerializerAmountValid(amount) || phone !in s.phones
    ensures r.outcome.InsufficientCredit? <==>
      SerializerAmountValid(amount) && phone in s.phones && s.credit[caller] < amount
    ensures r.outcome.Ok? || r.outcome.Invalid? || r.outcome.InsufficientCredit?
    ensures !r.outcome.Ok? ==> r.state == s
    ensures r.outcome.Ok? ==>
      && r.outcome.id == |s.sales| + 1
      && r.state.credit.Keys == s.credit.Keys
      && r.state.credit[caller] == s.credit[caller] - amount >= 0
      && (forall u :: u in s.credit && u != caller ==> r.state.credit[u] == s.credit[u])
      && r.state.phones == s.phones
      && r.state.sales == s.sales + [ChargeSale(Transaction(r.outcome.id, caller, amount, Completed, false), phone)]
      && r.state.requests == s.requests
    ensures r.outcome.Ok? ==> RouterOps.Last(r.state.sales).txn.status in CHARGE_SALE_STATUS_CHOICES
    ensures r.outcome.Ok? ==> RouterOps.Last(r.state.sales).txn.status !in TRANSACTION_STATUS_CHOICES
    ensures r.outcome.Ok? ==> !Settled(RouterOps.Last(r.state.sales).txn)
    ensures WellFormed(s) ==> WellFormed(r.state)
  {
    if !SerializerAmountValid(amount) || phone !in s.phones then Step(s, Invalid)
    else if s.credit[caller] < amount then Step(s, InsufficientCredit)
    else
      var id := |s.sales| + 1;
      var created := ChargeSale(NewTransaction(id, caller, amount), phone);
      var debited := s.credit[caller := s.credit[caller] - amount];
      var completed := created.(txn := created.txn.(status := Completed));
      Step(State(debited, s.phones, s.requests, s.sales + [completed]), Ok(id))
  }

  /** The serializer's amount rule admits a credit request of amount 0,
      which the router's schema refuses. */
  lemma SerializerAmountRuleAdmitsZero(s: State, caller: UserId)
    ensures RouterOps.CreateCreditRequest(s, caller, 0).outcome.Invalid?
    ensures CreateCreditRequest(s, caller, 0).outcome.Ok?
  {
  }
}
