/** The user record of tbdl/users/models.py as the ledger sees it: a user is
    identified by its primary key and carries an integer credit balance. */
module UserModels {

  /** Primary key of a User row; a path parameter may name any integer,
      and one that names no row is simply absent. */
  type UserId = int

  /** A new user's `credit`. */
  const DEFAULT_CREDIT: int := 0

  /** The lower bound `credit` declares through MinValueValidator(0). Django
      checks it only in form/model validation, never on save() or on an
      update(F(...)), so the ledger has to keep it by its own checks. */
  const MIN_CREDIT: int := 0

  predicate CreditValid(credit: int) {
    MIN_CREDIT <= credit
  }

  /** get_balance: the sum of the amounts of the user's transactions; the
      aggregate of no rows is None, which `or 0` turns into 0. The relation
      it aggregates is given here as the sequence of amounts. */
  function GetBalance(amounts: seq<int>): (balance: int)
    ensures amounts == [] ==> balance == 0
    ensures (forall i :: 0 <= i < |amounts| ==> amounts[i] >= 0) ==> balance >= 0
  {
    if amounts == [] then 0
    else GetBalance(amounts[..|amounts| - 1]) + amounts[|amounts| - 1]
  }

  /** The balance of two batches of transactions is the sum of their balances. */
  lemma {:induction false} GetBalanceAppend(a: seq<int>, b: seq<int>)
    ensures GetBalance(a + b) == GetBalance(a) + GetBalance(b)
    decreases |b|
  {
    if b == [] {
      assert a + b == a;
    } else {
      var last := |b| - 1;
      assert (a + b)[..|a + b| - 1] == a + b[..last];
      GetBalanceAppend(a, b[..last]);
    }
  }
}
