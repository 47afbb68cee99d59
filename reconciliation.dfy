/** validate_transactions and validate_user_transactions of
    tbdl/charge/api/router.py: read-only cross-checks of credit granted,
    credit remaining and credit spent on charge sales. */
module Reconciliation {
  import opened UserModels
  import opened ChargeModels
  import opened LedgerState

  /** Which transactions an aggregate filters for: every user's, or one user's. */
  datatype Scope = Everyone | OwnedBy(user: UserId)

  predicate InScope(t: Transaction, scope: Scope) {
    scope.Everyone? || t.user == scope.user
  }

  /** What one transaction adds to a Sum("amount") over the rows filtered by
      status="APPROVED", processed=True (and user, when scoped). */
  function Contribution(t: Transaction, scope: Scope): int {
    if Settled(t) && InScope(t, scope) then t.amount else 0
  }

  /** The settled total of a sequence of transactions; an empty aggregate
      counts as 0, as the `or 0` makes it. */
  function SettledTotal(ts: seq<Transaction>, scope: Scope): (total: int)
    ensures (forall i :: 0 <= i < |ts| ==> TransactionValid(ts[i])) ==> total >= 0
  {
    if ts == [] then 0
    else SettledTotal(ts[..|ts| - 1], scope) + Contribution(ts[|ts| - 1], scope)
  }

  /** The same aggregate over the charge_sales table. */
  function SalesTotal(sales: seq<ChargeSale>, scope: Scope): (total: int)
    ensures (forall i :: 0 <= i < |sales| ==> TransactionValid(sales[i].txn)) ==> total >= 0
  {
    if sales == [] then 0
    else SalesTotal(sales[..|sales| - 1], scope) + Contribution(sales[|sales| - 1].txn, scope)
  }

  lemma SettledTotalAppend(ts: seq<Transaction>, t: Transaction, scope: Scope)
    ensures SettledTotal(ts + [t], scope) == SettledTotal(ts, scope) + Contribution(t, scope)
  {
    assert (ts + [t])[..|ts|] == ts;
  }

  lemma SalesTotalAppend(sales: seq<ChargeSale>, sale: ChargeSale, scope: Scope)
    ensures SalesTotal(sales + [sale], scope) == SalesTotal(sales, scope) + Contribution(sale.txn, scope)
  {
    assert (sales + [sale])[..|sales|] == sales;
  }

  /** Rewriting one transaction changes the settled total by the difference
      of its old and new contributions. */
  lemma {:induction false} SettledTotalUpdate(ts: seq<Transaction>, i: int, t: Transaction, scope: Scope)
    requires 0 <= i < |ts|
    ensures SettledTotal(ts[i := t], scope)
         == SettledTotal(ts, scope) - Contribution(ts[i], scope) + Contribution(t, scope)
  {
    var last := |ts| - 1;
    if i == last {
      assert ts[i := t][..last] == ts[..last];
    } else {
      assert ts[i := t][..last] == ts[..last][i := t];
      SettledTotalUpdate(ts[..last], i, t, scope);
    }
  }

  /** A key of a non-empty map, chosen once so that every use agrees. */
  ghost function PickUser(m: map<UserId, int>): (u: UserId)
    requires m != map[]
    ensures u in m
  {
    assert exists u :: u in m by {
      if forall u :: u !in m {
        assert false;
      }
    }
    var u :| u in m; u
  }

  /** Sum("credit") over all users; 0 for no users. */
  ghost function CreditTotal(m: map<UserId, int>): (total: int)
    ensures (forall u :: u in m ==> CreditValid(m[u])) ==> total >= 0
    decreases |m|
  {
    if m == map[] then 0
    else
      var u := PickUser(m);
      assert |m - {u}| == |m| - 1;
      m[u] + CreditTotal(m - {u})
  }

  /** The credit total does not depend on which user it adds first. */
  lemma {:induction false} CreditTotalRemove(m: map<UserId, int>, u: UserId)
    requires u in m
    ensures CreditTotal(m) == m[u] + CreditTotal(m - {u})
    decreases |m|
  {
    var v := PickUser(m);
    if v != u {
      assert |m - {v}| == |m| - 1;
      CreditTotalRemove(m - {v}, u);
      assert |m - {u}| == |m| - 1;
      CreditTotalRemove(m - {u}, v);
      assert m - {v} - {u} == m - {u} - {v};
    }
  }

  /** Changing one user's credit changes the total by the same amount. */
  lemma CreditTotalUpdate(m: map<UserId, int>, u: UserId, c: int)
    requires u in m
    ensures CreditTotal(m[u := c]) == CreditTotal(m) - m[u] + c
  {
    CreditTotalRemove(m, u);
    CreditTotalRemove(m[u := c], u);
    assert m[u := c] - {u} == m - {u};
  }

  /** Users who all hold zero credit hold zero in total. */
  lemma {:induction false} CreditTotalZero(m: map<UserId, int>)
    requires forall u :: u in m ==> m[u] == 0
    ensures CreditTotal(m) == 0
    decreases |m|
  {
    if m != map[] {
      var u := PickUser(m);
      assert |m - {u}| == |m| - 1;
      CreditTotalZero(m - {u});
    }
  }

  /** The reconciliation invariant of the whole ledger: credit granted by
      settled requests, less the credit users still hold, equals the total
      of settled charge sales. */
  ghost predicate Balanced(s: State) {
    SettledTotal(s.requests, Everyone) - CreditTotal(s.credit) == SalesTotal(s.sales, Everyone)
  }

  /** The same invariant for one user. */
  predicate UserBalanced(s: State, u: UserId)
    requires u in s.credit
  {
    SettledTotal(s.requests, OwnedBy(u)) - s.credit[u] == SalesTotal(s.sales, OwnedBy(u))
  }

  /** The figures both validation endpoints return. */
  datatype ValidationResult = ValidationResult(
    totalApprovedCredits: int,
    currentUserCredits: int,
    totalSpentCredits: int,
    totalChargeSales: int,
    isConsistent: bool,
    details: string)

  /** The outcome of per-user validation: the figures, or 404 "User not found". */
  datatype UserValidation = Report(result: ValidationResult) | UserNotFound

  const CONSISTENT_DETAILS: string := "All transactions are consistent"

  function Abs(x: int): int {
    if x < 0 then -x else x
  }

  /** The figures and details for a given approved total, credit and sales
      total; `who` is "Users" for the global check and "User" for one user. */
  function Figures(who: string, approved: int, current: int, charged: int): (r: ValidationResult)
    ensures r.totalApprovedCredits == approved && r.currentUserCredits == current
    ensures r.totalChargeSales == charged
    ensures r.totalSpentCredits == approved - current
    ensures r.isConsistent <==> approved - current == charged
    ensures r.details == CONSISTENT_DETAILS <==> r.isConsistent
  {
    var spent := approved - current;
    var consistent := Abs(spent - charged) == 0;
    var details :=
      if consistent then CONSISTENT_DETAILS
      else "Mismatch: " + who + " spent " + DecimalString(spent)
           + " but charge sales total is " + DecimalString(charged);
    ValidationResult(approved, current, spent, charged, consistent, details)
  }

  /** validate_transactions: the system-wide figures. It reports consistent
      exactly when the ledger is Balanced. */
  ghost function ValidateTransactions(s: State): (r: ValidationResult)
    ensures r.totalApprovedCredits == SettledTotal(s.requests, Everyone)
    ensures r.currentUserCredits == CreditTotal(s.credit)
    ensures r.totalChargeSales == SalesTotal(s.sales, Everyone)
    ensures r.totalSpentCredits == r.totalApprovedCredits - r.currentUserCredits
    ensures r.isConsistent <==> r.totalSpentCredits == r.totalChargeSales
    ensures r.isConsistent <==> Balanced(s)
    ensures r.details == CONSISTENT_DETAILS <==> r.isConsistent
    ensures s.requests == [] ==> r.totalApprovedCredits == 0
    ensures s.sales == [] ==> r.totalChargeSales == 0
    ensures s.credit == map[] ==> r.currentUserCredits == 0
    ensures WellFormed(s) ==>
      r.totalApprovedCredits >= 0 && r.currentUserCredits >= 0 && r.totalChargeSales >= 0
  {
    Figures("Users", SettledTotal(s.requests, Everyone), CreditTotal(s.credit), SalesTotal(s.sales, Everyone))
  }

  /** validate_user_transactions: the same figures restricted to one user,
      or UserNotFound for an unknown id. */
  function ValidateUserTransactions(s: State, u: UserId): (r: UserValidation)
    ensures r.UserNotFound? <==> u !in s.credit
    ensures r.Report? ==>
      && r.result.totalApprovedCredits == SettledTotal(s.requests, OwnedBy(u))
      && r.result.currentUserCredits == s.credit[u]
      && r.result.totalChargeSales == SalesTotal(s.sales, OwnedBy(u))
      && r.result.totalSpentCredits == r.result.totalApprovedCredits - r.result.currentUserCredits
      && (r.result.isConsistent <==> UserBalanced(s, u))
      && (r.result.details == CONSISTENT_DETAILS <==> r.result.isConsistent)
  {
    if u !in s.credit then UserNotFound
    else Report(Figures("User", SettledTotal(s.requests, OwnedBy(u)), s.credit[u], SalesTotal(s.sales, OwnedBy(u))))
  }

  // Rendering of integers in the mismatch details, as Python's str() of an int.

  function DigitChar(d: int): char
    requires 0 <= d < 10
  {
    "0123456789"[d]
  }

  function DigitValue(c: char): int {
    if '0' <= c <= '9' then c as int - '0' as int else 0
  }

  /** The decimal digits of n, most significant first, with no leading zero. */
  function NatString(n: nat): (r: string)
    ensures |r| >= 1
    ensures forall i :: 0 <= i < |r| ==> '0' <= r[i] <= '9'
  {
    if n < 10 then [DigitChar(n)] else NatString(n / 10) + [DigitChar(n % 10)]
  }

  function DecimalString(n: int): string {
    if n < 0 then "-" + NatString(-n) else NatString(n)
  }

  /** Reading a string of decimal digits back as a number. */
  function ParseNat(s: string): nat {
    if s == [] then 0 else ParseNat(s[..|s| - 1]) * 10 + DigitValue(s[|s| - 1])
  }

  function ParseDecimal(s: string): int {
    if |s| > 0 && s[0] == '-' then -(ParseNat(s[1..]) as int) else ParseNat(s) as int
  }

  lemma {:induction false} ParseNatString(n: nat)
    ensures ParseNat(NatString(n)) == n
  {
    var r := NatString(n);
    if n >= 10 {
      ParseNatString(n / 10);
      assert r[..|r| - 1] == NatString(n / 10);
      assert DigitValue(r[|r| - 1]) == n % 10;
      assert ParseNat(r) == (n / 10) * 10 + n % 10;
    } else {
      assert r[..|r| - 1] == [];
      assert DigitValue(r[|r| - 1]) == n;
    }
  }

  /** The rendering of a figure in the details can be read back exactly. */
  lemma DecimalStringRoundTrip(n: int)
    ensures ParseDecimal(DecimalString(n)) == n
  {
    ParseNatString(if n < 0 then -n else n);
    if n < 0 {
      assert DecimalString(n)[1..] == NatString(-n);
    }
  }
}
