/** The ledger as the endpoints mutate it: one object holding the rows,
    and one method per `transaction.atomic()` block of
    tbdl/charge/api/router.py and tbdl/charge/api/views.py, each run as an
    indivisible step. Every method is proved to leave exactly the state, and
    report exactly the outcome, that the pure description of its endpoint in
    RouterOps or ViewsOps gives; the properties of those descriptions are
    proved there and in Invariants. */
module LedgerStore {
  import opened UserModels
  import opened ChargeModels
  import opened LedgerState
  import RouterOps
  import ViewsOps

  class Ledger {
    /** users.credit, by user id */
    var credit: map<UserId, int>
    /** the phone_numbers table, by id */
    var phones: map<PhoneId, PhoneNumber>
    /** the credit_requests table; row k has id k + 1 */
    var requests: seq<Transaction>
    /** the charge_sales table; row k has id k + 1 */
    var sales: seq<ChargeSale>

    /** The committed rows as a value. */
    function Snapshot(): State
      reads this
    {
      State(credit, phones, requests, sales)
    }

    ghost predicate Valid()
      reads this
    {
      WellFormed(Snapshot())
    }

    constructor (users: set<UserId>, numbers: map<PhoneId, string>)
      requires NumbersFit(numbers)
      ensures Valid()
      ensures Snapshot() == InitialState(users, numbers)
    {
      credit := map u | u in users :: DEFAULT_CREDIT;
      phones := map p | p in numbers :: NewPhoneNumber(numbers[p]);
      requests := [];
      sales := [];
    }

    /** POST /credit-requests (router): create_credit_request. */
    method CreateCreditRequest(caller: UserId, amount: int) returns (outcome: Outcome)
      requires Valid() && caller in credit
      modifies this
      ensures Valid()
      ensures Step(Snapshot(), outcome) == RouterOps.CreateCreditRequest(old(Snapshot()), caller, amount)
    {
      if amount <= 0 {
        return Invalid;
      }
      var id := |requests| + 1;
      requests := requests + [NewTransaction(id, caller, amount)];
      outcome := Ok(id);
    }

    /** POST /credit-requests/{id}/approve (router): approve_transaction. */
    method ApproveTransaction(approver: UserId, requestId: int) returns (outcome: Outcome)
      requires Valid() && approver in credit
      modifies this
      ensures Valid()
      ensures Step(Snapshot(), outcome) == RouterOps.ApproveTransaction(old(Snapshot()), approver, requestId)
    {
      if !(1 <= requestId <= |requests|) {
        return NotFound;
      }
      var i := requestId - 1;
      var creditRequest := requests[i];
      if creditRequest.processed {
        return AlreadyProcessed;
      }
      creditRequest := creditRequest.(status := Approved);
      creditRequest := creditRequest.(processed := true);
      requests := requests[i := creditRequest];
      // update(credit=F("credit") + amount) on the authenticated caller's row
      credit := credit[approver := credit[approver] + creditRequest.amount];
      outcome := Ok(requestId);
    }

    /** POST /charge-sales (router): create_charge. The two relative
        updates run before the sale row is created; a phone id that names no
        row matches nothing in the second update, and the sale's foreign key
        then fails, which rolls the whole block back. */
    method CreateCharge(caller: UserId, amount: int, phone: PhoneId) returns (outcome: Outcome)
      requires Valid() && caller in credit
      modifies this
      ensures Valid()
      ensures Step(Snapshot(), outcome) == RouterOps.CreateCharge(old(Snapshot()), caller, amount, phone)
    {
      if amount <= 0 {
        return Invalid;
      }
      if credit[caller] < amount {
        return InsufficientCredit;
      }
      var savedCredit, savedPhones := credit, phones;
      credit := credit[caller := credit[caller] - amount];
      if phone in phones {
        phones := phones[phone := phones[phone].(currentCharge := phones[phone].currentCharge + amount)];
      }
      if phone !in phones {
        credit, phones := savedCredit, savedPhones;
        return NotFound;
      }
      var id := |sales| + 1;
      sales := sales + [ChargeSale(Transaction(id, caller, amount, Approved, true), phone)];
      outcome := Ok(id);
      assert NumbersUnique(phones) by {
        forall q | q in phones ensures phones[q].number == savedPhones[q].number { }
      }
    }

    /** POST /charge-sales/threaded (router): create_charge_threaded runs the
        same block as create_charge on a worker of a thread pool and waits
        for it; the pool is the caller's concern, the effect is the same. */
    method CreateChargeThreaded(caller: UserId, amount: int, phone: PhoneId) returns (outcome: Outcome)
      requires Valid() && caller in credit
      modifies this
      ensures Valid()
      ensures Step(Snapshot(), outcome) == RouterOps.CreateCharge(old(Snapshot()), caller, amount, phone)
    {
      outcome := CreateCharge(caller, amount, phone);
    }

    /** CreditRequestViewSet.create. */
    method CreditRequestViewCreate(caller: UserId, amount: int) returns (outcome: Outcome)
      requires Valid() && caller in credit
      modifies this
      ensures Valid()
      ensures Step(Snapshot(), outcome) == ViewsOps.CreateCreditRequest(old(Snapshot()), caller, amount)
    {
      if !ViewsOps.SerializerAmountValid(amount) {
        return Invalid;
      }
      var id := |requests| + 1;
      requests := requests + [NewTransaction(id, caller, amount)];
      outcome := Ok(id);
    }

    /** CreditRequestViewSet.approve. The request and request.user's credit
        are read before the atomic block and the user is saved with the
        in-memory credit plus the amount; run alone, that in-memory value is
        the committed one. */
    method CreditRequestViewApprove(approver: UserId, requestId: int) returns (outcome: Outcome)
      requires Valid() && approver in credit
      modifies this
      ensures Valid()
      ensures Step(Snapshot(), outcome) == ViewsOps.Approve(old(Snapshot()), approver, requestId)
    {
      var userCredit := credit[approver];
      if !(1 <= requestId <= |requests|) {
        return NotFound;
      }
      var creditRequest := requests[requestId - 1];
      if creditRequest.processed {
        return AlreadyProcessed;
      }
      creditRequest := creditRequest.(status := Approved, processed := true);
      requests := requests[requestId - 1 := creditRequest];
      userCredit := userCredit + creditRequest.amount;
      credit := credit[approver := userCredit];
      outcome := Ok(requestId);
    }

    /** ChargeSaleViewSet.create. The caller's credit is checked against the
        in-memory user before the atomic block; the sale is created with the
        defaults, the user saved with the in-memory credit less the amount,
        and the sale saved again as COMPLETED. */
    method ChargeSaleViewCreate(caller: UserId, amount: int, phone: PhoneId) returns (outcome: Outcome)
      requires Valid() && caller in credit
      modifies this
      ensures Valid()
      ensures Step(Snapshot(), outcome) == ViewsOps.CreateChargeSale(old(Snapshot()), caller, amount, phone)
    {
      if !ViewsOps.SerializerAmountValid(amount) || phone !in phones {
        return Invalid;
      }
      var userCredit := credit[caller];
      if userCredit < amount {
        return InsufficientCredit;
      }
      var id := |sales| + 1;
      var chargeSale := ChargeSale(NewTransaction(id, caller, amount), phone);
      sales := sales + [chargeSale];
      userCredit := userCredit - chargeSale.txn.amount;
      credit := credit[caller := userCredit];
      chargeSale := chargeSale.(txn := chargeSale.txn.(status := Completed));
      sales := sales[id - 1 := chargeSale];
      outcome := Ok(id);
    }
  }
}
