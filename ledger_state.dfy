/** The committed contents of the ledger's tables, the outcomes its
    operations report, and the referential rules of the models
    (protect-on-delete). */
module LedgerState {
  import opened UserModels
  import opened ChargeModels

  /** The rows the core reads and writes: each user's credit, the phone
      numbers, and the credit_requests and charge_sales tables in insertion
      order. Primary keys are assigned by auto-increment from 1 and the core
      never deletes a transaction, so the row with id k is the k-th. */
  datatype State = State(
    credit: map<UserId, int>,
    phones: map<PhoneId, PhoneNumber>,
    requests: seq<Transaction>,
    sales: seq<ChargeSale>)

  /** Everything the models declare, plus the positional primary keys:
      credits and charges within their validators, unique numbers, every
      transaction's foreign keys resolving and its amount non-negative. */
  ghost predicate WellFormed(s: State) {
    && (forall u :: u in s.credit ==> CreditValid(s.credit[u]))
    && (forall p :: p in s.phones ==> PhoneNumberValid(s.phones[p]))
    && NumbersUnique(s.phones)
    && (forall i :: 0 <= i < |s.requests| ==>
          s.requests[i].id == i + 1 && s.requests[i].user in s.credit && TransactionValid(s.requests[i]))
    && (forall i :: 0 <= i < |s.sales| ==>
          s.sales[i].txn.id == i + 1 && s.sales[i].txn.user in s.credit && s.sales[i].phone in s.phones
          && TransactionValid(s.sales[i].txn))
  }

  /** What an operation reports. `Ok` carries the primary key of the record
      created or approved; `Invalid` is a rejected payload (422 from a
      schema, 400 from a serializer); `NotFound` a missing row (for a
      router charge, the failed foreign key that rolls the block back);
      `AlreadyProcessed` and `InsufficientCredit` are the two business
      outcomes. The views answer them with 400 and the details "Already
      processed" and "Insufficient credit"; the router returns the same
      details from endpoints whose declared response is the created record,
      so its client sees a server error instead, with nothing written
      either way. `Unauthenticated` is a caller no token resolves to a
      user, refused before any operation runs. */
  datatype Outcome = Ok(id: nat) | Invalid | NotFound | AlreadyProcessed | InsufficientCredit | Unauthenticated

  /** The state after an operation together with what it reported. */
  datatype Step = Step(state: State, outcome: Outcome)

  /** Phone numbers that can be stored: within the column length and
      pairwise distinct. */
  predicate NumbersFit(numbers: map<PhoneId, string>) {
    && (forall p :: p in numbers ==> |numbers[p]| <= MAX_NUMBER_LENGTH)
    && (forall p, q :: p in numbers && q in numbers && p != q ==> numbers[p] != numbers[q])
  }

  /** A ledger as first set up: well formed, every user at the default
      credit, every phone at charge 0, and no transactions. */
  ghost predicate Fresh(s: State) {
    && WellFormed(s)
    && (forall u :: u in s.credit ==> s.credit[u] == DEFAULT_CREDIT)
    && (forall p :: p in s.phones ==> s.phones[p].currentCharge == 0)
    && s.requests == [] && s.sales == []
  }

  /** A ledger with the given users, all at the default credit, the given
      phone numbers, all new, and no transactions. */
  function InitialState(users: set<UserId>, numbers: map<PhoneId, string>): (s: State)
    requires NumbersFit(numbers)
    ensures WellFormed(s) && Fresh(s)
    ensures s.credit.Keys == users && s.phones.Keys == numbers.Keys
    ensures forall u :: u in users ==> s.credit[u] == 0
    ensures forall p :: p in numbers ==> s.phones[p].currentCharge == 0 && s.phones[p].isActive
    ensures forall p :: p in numbers ==> s.phones[p] == NewPhoneNumber(numbers[p])
    ensures s.requests == [] && s.sales == []
  {
    State(map u | u in users :: DEFAULT_CREDIT,
          map p | p in numbers :: NewPhoneNumber(numbers[p]),
          [], [])
  }

  /** Some transaction points at user u. */
  predicate UserReferenced(s: State, u: UserId) {
    || (exists i :: 0 <= i < |s.requests| && s.requests[i].user == u)
    || (exists i :: 0 <= i < |s.sales| && s.sales[i].txn.user == u)
  }

  /** Some charge sale points at phone number p. */
  predicate PhoneReferenced(s: State, p: PhoneId) {
    exists i :: 0 <= i < |s.sales| && s.sales[i].phone == p
  }

  /** The result of deleting a row: the new state, or the ProtectedError
      Django raises when a PROTECT foreign key still points at the row. */
  datatype Deletion = Deleted(state: State) | Protected

  /** Deleting a user: refused while any transaction references it, so a
      deletion never leaves a transaction pointing at a missing user. */
  function DeleteUser(s: State, u: UserId): (r: Deletion)
    requires u in s.credit
    ensures r.Protected? <==> UserReferenced(s, u)
    ensures r.Deleted? ==> r.state.credit == s.credit - {u}
    ensures r.Deleted? ==> r.state.phones == s.phones && r.state.requests == s.requests && r.state.sales == s.sales
    ensures r.Deleted? && WellFormed(s) ==> WellFormed(r.state)
  {
    if UserReferenced(s, u) then Protected
    else Deleted(s.(credit := s.credit - {u}))
  }

  /** Deleting a phone number: refused while any charge sale references it. */
  function DeletePhoneNumber(s: State, p: PhoneId): (r: Deletion)
    requires p in s.phones
    ensures r.Protected? <==> PhoneReferenced(s, p)
    ensures r.Deleted? ==> r.state.phones == s.phones - {p}
    ensures r.Deleted? ==> r.state.credit == s.credit && r.state.requests == s.requests && r.state.sales == s.sales
    ensures r.Deleted? && WellFormed(s) ==> WellFormed(r.state)
  {
    if PhoneReferenced(s, p) then Protected
    else Deleted(s.(phones := s.phones - {p}))
  }
}
