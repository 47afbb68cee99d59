/** The state-changing endpoints of tbdl/charge/api/router.py, each
    `transaction.atomic()` block as one function from the committed state
    before to the committed state after and the reported outcome. Locking
    (select_for_update) only serialises these blocks, so it leaves no trace
    in a sequential model. The caller is the authenticated user, who exists. */
module RouterOps {
  import opened UserModels
  import opened ChargeModels
  import opened LedgerState

  /** CreditRequestCreateSchema and ChargeSaleCreateSchema: Field(..., gt=0). */
  predicate SchemaAmountValid(amount: int) {
    amount > 0
  }

  /** create_credit_request: a non-positive amount is refused by the schema
      before anything is written; otherwise one new request owned by the
      caller is appended with the model defaults, and no credit moves. */
  function CreateCreditRequest(s: State, caller: UserId, amount: int): (r: Step)
    ensures r.outcome.Invalid? <==> !SchemaAmountValid(amount)
    ensures r.outcome.Ok? || r.outcome.Invalid?
    ensures r.outcome.Invalid? ==> r.state == s
    ensures r.outcome.Ok? ==>
      && r.outcome.id == |s.requests| + 1
      && r.state.requests == s.requests + [Transaction(r.outcome.id, caller, amount, Pending, false)]
      && r.state.credit == s.credit && r.state.phones == s.phones && r.state.sales == s.sales
    ensures WellFormed(s) && caller in s.credit ==> WellFormed(r.state)
  {
    if !SchemaAmountValid(amount) then Step(s, Invalid)
    else
      var id := |s.requests| + 1;
      Step(s.(requests := s.requests + [NewTransaction(id, caller, amount)]), Ok(id))
  }

  /** approve_transaction: an unknown id raises DoesNotExist (nothing is
      written); a processed request is reported "Already processed" and left
      alone; otherwise the request becomes APPROVED and processed, and the
      credit of the APPROVER, the authenticated caller, not of the request's
      owner, rises by the request's amount. */
  function ApproveTransaction(s: State, approver: UserId, requestId: int): (r: Step)
    requires approver in s.credit
    ensures r.outcome.NotFound? <==> !(1 <= requestId <= |s.requests|)
    ensures r.outcome.AlreadyProcessed? <==>
      1 <= requestId <= |s.requests| && s.requests[requestId - 1].processed
    ensures r.outcome.Ok? || r.outcome.NotFound? || r.outcome.AlreadyProcessed?
    ensures !r.outcome.Ok? ==> r.state == s
    ensures r.outcome.Ok? ==>
      var i := requestId - 1;
      && r.outcome.id == requestId
      && r.state.credit.Keys == s.credit.Keys
      && r.state.credit[approver] == s.credit[approver] + s.requests[i].amount
      && (forall u :: u in s.credit && u != approver ==> r.state.credit[u] == s.credit[u])
      && |r.state.requests| == |s.requests|
      && r.state.requests[i] == s.requests[i].(status := Approved, processed := true)
      && (forall j :: 0 <= j < |s.requests| && j != i ==> r.state.requests[j] == s.requests[j])
      && r.state.phones == s.phones && r.state.sales == s.sales
    ensures WellFormed(s) ==> WellFormed(r.state)
  {
    if !(1 <= requestId <= |s.requests|) then Step(s, NotFound)
    else
      var request := s.requests[requestId - 1];
      if request.processed then Step(s, AlreadyProcessed)
      else
        var approved := request.(status := Approved, processed := true);
        Step(s.(requests := s.requests[requestId - 1 := approved],
                credit := s.credit[approver := s.credit[approver] + request.amount]),
             Ok(requestId))
  }

  /** create_charge (and create_charge_threaded, which runs the same block
      on a worker thread): a non-positive amount is refused by the schema;
      the credit is checked under the user's lock and an insufficient one is
      reported with nothing written; a phone id that names no row makes the
      new sale's foreign key fail and the whole block roll back. Otherwise
      the caller's credit falls by the amount, the phone's running charge
      rises by it, and one APPROVED, processed sale is appended. Whether the
      phone is active is not checked. */
  function CreateCharge(s: State, caller: UserId, amount: int, phone: PhoneId): (r: Step)
    requires caller in s.credit
    ensures r.outcome.Invalid? <==> !SchemaAmountValid(amount)
    ensures r.outcome.InsufficientCredit? <==> SchemaAmountValid(amount) && s.credit[caller] < amount
    ensures r.outcome.NotFound? <==>
      SchemaAmountValid(amount) && s.credit[caller] >= amount && phone !in s.phones
    ensures r.outcome.Ok? || r.outcome.Invalid? || r.outcome.InsufficientCredit? || r.outcome.NotFound?
    ensures !r.outcome.Ok? ==> r.state == s
    ensures r.outcome.Ok? ==>
      && r.outcome.id == |s.sales| + 1
      && r.state.credit.Keys == s.credit.Keys
      && r.state.credit[caller] == s.credit[caller] - amount >= 0
      && (forall u :: u in s.credit && u != caller ==> r.state.credit[u] == s.credit[u])
      && r.state.phones.Keys == s.phones.Keys
      && r.state.phones[phone] == s.phones[phone].(currentCharge := s.phones[phone].currentCharge + amount)
      && (forall p :: p in s.phones && p != phone ==> r.state.phones[p] == s.phones[p])
      && r.state.sales == s.sales + [ChargeSale(Transaction(r.outcome.id, caller, amount, Approved, true), phone)]
      && r.state.requests == s.requests
    ensures r.outcome.Ok? ==> Last(r.state.sales).txn.status in TRANSACTION_STATUS_CHOICES
    ensures r.outcome.Ok? ==> Last(r.state.sales).txn.status !in CHARGE_SALE_STATUS_CHOICES
    ensures WellFormed(s) ==> WellFormed(r.state)
  {
    if !SchemaAmountValid(amount) then Step(s, Invalid)
    else if s.credit[caller] < amount then Step(s, InsufficientCredit)
    else if phone !in s.phones then Step(s, NotFound)
    else
      var id := |s.sales| + 1;
      var p := s.phones[phone];
      var sale := ChargeSale(Transaction(id, caller, amount, Approved, true), phone);
      var s' := State(s.credit[caller := s.credit[caller] - amount],
                      s.phones[phone := p.(currentCharge := p.currentCharge + amount)],
                      s.requests,
                      s.sales + [sale]);
      assert NumbersUnique(s.phones) ==> NumbersUnique(s'.phones) by {
        forall q | q in s'.phones ensures s'.phones[q].number == s.phones[q].number { }
      }
      Step(s', Ok(id))
  }

  function Last<T>(xs: seq<T>): T
    requires xs != []
  {
    xs[|xs| - 1]
  }

  /** Approval is applied exactly once: once a request has been approved,
      approving it again, by anyone, reports "Already processed" and changes
      nothing. */
  lemma ApproveTwiceIsNoOp(s: State, approver: UserId, again: UserId, requestId: int)
    requires approver in s.credit && again in s.credit
    requires ApproveTransaction(s, approver, requestId).outcome.Ok?
    ensures var s1 := ApproveTransaction(s, approver, requestId).state;
      && again in s1.credit
      && ApproveTransaction(s1, again, requestId) == Step(s1, AlreadyProcessed)
  {
  }
}
