/** The record shapes of tbdl/charge/models.py: phone numbers, and the two
    kinds of transaction (credit requests and charge sales) that share the
    fields of the abstract BaseTransaction. */
module ChargeModels {
  import opened UserModels

  /** Primary key of a PhoneNumber row; a payload may name any integer,
      and one that names no row is simply absent. */
  type PhoneId = int

  /** The values the code stores in a transaction's `status` column. The
      column is a plain CharField, so a value outside its declared choices
      is stored as it is. */
  datatype Status = Pending | Approved | Rejected | Completed | Failed

  /** The choices of the `status` field, declared on BaseTransaction. The
      field is created once, in the abstract base, and both concrete models
      inherit it with this list. */
  const TRANSACTION_STATUS_CHOICES: set<Status> := {Pending, Approved, Rejected}

  /** ChargeSale.STATUS_CHOICES. It rebinds the class attribute only: the
      inherited `status` field keeps the base list above. */
  const CHARGE_SALE_STATUS_CHOICES: set<Status> := {Pending, Completed, Failed}

  /** The default of `status` for a new transaction. */
  const DEFAULT_STATUS: Status := Pending

  /** `number` is a CharField(max_length=20). */
  const MAX_NUMBER_LENGTH: nat := 20

  /** A PhoneNumber row; `title` and the timestamps are not modelled. */
  datatype PhoneNumber = PhoneNumber(number: string, isActive: bool, currentCharge: int)

  /** The declared bounds of a phone number: the length of `number` and
      MinValueValidator(0) on `current_charge`. */
  predicate PhoneNumberValid(p: PhoneNumber) {
    |p.number| <= MAX_NUMBER_LENGTH && p.currentCharge >= 0
  }

  /** A phone number as created with the field defaults. */
  function NewPhoneNumber(number: string): (p: PhoneNumber)
    requires |number| <= MAX_NUMBER_LENGTH
    ensures PhoneNumberValid(p)
    ensures p.number == number && p.isActive && p.currentCharge == 0
  {
    PhoneNumber(number, true, 0)
  }

  /** `number` is unique=True: no two rows share a number. */
  ghost predicate NumbersUnique(phones: map<PhoneId, PhoneNumber>) {
    forall p, q :: p in phones && q in phones && p != q ==> phones[p].number != phones[q].number
  }

  /** The fields of BaseTransaction the ledger uses; `admin_notes` and the
      timestamps are not modelled. `user` is a PROTECT foreign key. */
  datatype Transaction = Transaction(id: nat, user: UserId, amount: int, status: Status, processed: bool)

  /** `amount` declares MinValueValidator(0): zero is allowed by the model
      itself; only the API schemas ask for a positive amount. */
  predicate TransactionValid(t: Transaction) {
    t.amount >= 0
  }

  /** A transaction whose balance effect the reconciliation counts: status
      APPROVED with the processed flag set. */
  predicate Settled(t: Transaction) {
    t.status == Approved && t.processed
  }

  /** A transaction as created with only `user` and `amount` given: the
      defaults make it PENDING and unprocessed, so it is not yet settled. */
  function NewTransaction(id: nat, user: UserId, amount: int): (t: Transaction)
    ensures t.id == id && t.user == user && t.amount == amount
    ensures t.status == DEFAULT_STATUS && t.status in TRANSACTION_STATUS_CHOICES && !t.processed
    ensures !Settled(t)
  {
    Transaction(id, user, amount, DEFAULT_STATUS, false)
  }

  /** A ChargeSale row: the base transaction plus its PROTECT foreign key to
      the phone number; `api_response` is not modelled. */
  datatype ChargeSale = ChargeSale(txn: Transaction, phone: PhoneId)
}
