# Credit and charge ledger

A model of the ledger at the heart of the `tbdl` service. Users hold an
integer `credit`. They ask for more credit with credit requests, and an
approval grants it. They spend credit on charge sales to phone numbers, and
each sale raises the phone's running `current_charge`. Two reconciliation
endpoints check the books: credit granted by approved, processed requests,
less the credit users still hold, must equal the total of approved,
processed charge sales. The first checks all users together and the second
checks one user.

The same operations are reachable two ways. The django-ninja router in
`tbdl/charge/api/router.py` uses row locks and relative `F()` updates. The
DRF view sets in `tbdl/charge/api/views.py` read first and save the
in-memory objects afterwards. The model describes each `transaction.atomic()`
block as one indivisible step:

- `RouterOps` and `ViewsOps` are pure functions from the committed state
  before a step to the state after it and the reported outcome.
- `LedgerStore.Ledger` is a class holding the tables as fields. It has one
  method per endpoint, and each method is proved to do exactly what the
  matching pure function describes.
- `Reconciliation` holds the two validation endpoints. It proves that the
  global one reports consistent exactly when the ledger is `Balanced`, and
  the per-user one exactly when that user is `UserBalanced`.
- `Invariants` and `Scenarios` prove what each operation, and any sequence
  of operations, does to those invariants. The router keeps the ledger
  balanced. The view's charge sale does not: it debits the caller but
  stores the sale as COMPLETED and unprocessed, and the reconciliation
  ignores such sales. An approval credits the approving caller, not the
  owner of the request. That keeps the global books balanced but can
  unbalance two users.

Modules:

- `UserModels`, `ChargeModels`: the two model files.
- `LedgerState`: the tables, well-formedness and protect-on-delete.
- `Reconciliation`: the validation endpoints.
- `RouterOps`, `ViewsOps`: the endpoints as pure step functions.
- `Invariants`: what each step preserves.
- `LedgerStore`: the imperative ledger.
- `Scenarios`: sequences of authenticated calls.

Three behaviours of the code that a reader might not expect, all modelled as written:

- No charge path checks `is_active`, so an inactive phone can be charged.
- A view sale is not counted by the reconciliation.
- Approval credits the approver, not the request's owner.

The view sets are modelled by what their bodies do, not by what they do as
written: as written, no view write takes effect (see "## Left out"). The
serializers' own amount rule, `MinValueValidator(0)`, admits an amount of 0,
which the router's schemas refuse.

## Model

| member | source | states |
|---|---|---|
| UserModels.GetBalance | tbdl/users/models.py:36-43 | the balance of no transactions is 0 (the `or 0` of an empty aggregate); non-negative amounts give a non-negative balance |
| UserModels.GetBalanceAppend | tbdl/users/models.py:36-43 | the balance of two batches of transactions is the sum of their balances |
| ChargeModels.NewPhoneNumber | tbdl/charge/models.py:7-13 | a new phone number is active, has charge 0 and keeps its number within the 20-character column |
| ChargeModels.NewTransaction | tbdl/charge/models.py:26-43 | a transaction created with only user and amount is PENDING (one of the field's choices) and unprocessed, hence not settled |
| LedgerState.InitialState | tbdl/users/models.py:17-21 | a fresh ledger is well formed (`Fresh`) and has no transactions; every user has the default credit 0; every phone is new (active, charge 0) with its given number |
| LedgerState.DeleteUser | tbdl/charge/models.py:33-36 | deleting a user is refused exactly when a transaction references it (PROTECT); otherwise only that user goes, every other row unchanged, and well-formedness is kept |
| LedgerState.DeletePhoneNumber | tbdl/charge/models.py:71-75 | deleting a phone number is refused exactly when a charge sale references it; otherwise only that phone goes, every other row unchanged, and well-formedness is kept |
| Reconciliation.SettledTotal | tbdl/charge/api/router.py:285-289 | the sum of approved, processed amounts in scope is non-negative when every amount is |
| Reconciliation.SalesTotal | tbdl/charge/api/router.py:301-305 | the sum of approved, processed sales in scope is non-negative when every amount is |
| Reconciliation.SettledTotalAppend | tbdl/charge/api/router.py:285-289 | appending a transaction adds its amount exactly when it is settled and in scope |
| Reconciliation.SalesTotalAppend | tbdl/charge/api/router.py:301-305 | appending a sale adds its amount exactly when it is settled and in scope |
| Reconciliation.SettledTotalUpdate | tbdl/charge/api/router.py:285-289 | replacing one transaction changes the settled total by the difference of the two contributions |
| Reconciliation.CreditTotal | tbdl/charge/api/router.py:292-295 | the sum of all credits is non-negative when every credit is valid |
| Reconciliation.CreditTotalRemove | tbdl/charge/api/router.py:292-295 | the credit sum splits as any one user's credit plus the sum over the others, whichever user is chosen |
| Reconciliation.CreditTotalUpdate | tbdl/charge/api/router.py:292-295 | changing one user's credit changes the sum by exactly the difference |
| Reconciliation.CreditTotalZero | tbdl/charge/api/router.py:292-295 | users all at credit 0 sum to 0 |
| Reconciliation.Figures | tbdl/charge/api/router.py:307-325 | spent = approved − current; consistent iff spent equals the sales total; the details read "All transactions are consistent" exactly when consistent |
| Reconciliation.ValidateTransactions | tbdl/charge/api/router.py:278-329 | the four global figures are the three sums and their difference; consistent iff the ledger is Balanced; empty tables give 0; well-formed ledgers give non-negative sums |
| Reconciliation.ValidateUserTransactions | tbdl/charge/api/router.py:332-384 | "User not found" exactly for an unknown id; otherwise the figures for that user, consistent iff the user is Balanced |
| Reconciliation.NatString | tbdl/charge/api/router.py:315 | a rendered figure is a non-empty string of decimal digits |
| Reconciliation.ParseNatString | tbdl/charge/api/router.py:315 | reading a rendered natural number back gives the number |
| Reconciliation.DecimalStringRoundTrip | tbdl/charge/api/router.py:315 | every figure in a mismatch message, negative ones included, reads back as itself |
| RouterOps.CreateCreditRequest | tbdl/charge/api/router.py:119-127 | refused exactly when the amount is not positive, with nothing written; otherwise exactly one PENDING, unprocessed request of the caller is appended with the next id, and nothing else changes |
| RouterOps.ApproveTransaction | tbdl/charge/api/router.py:130-162 | not found iff the id names no request; "Already processed" iff it is processed; both change nothing; otherwise that request alone becomes APPROVED and processed, and the approver's credit alone rises by its amount |
| RouterOps.CreateCharge | tbdl/charge/api/router.py:180-220 | refused for a non-positive amount, then for credit below the amount, then for a missing phone, each changing nothing; otherwise the caller's credit falls by the amount and stays non-negative, that phone's charge rises by it, and one APPROVED, processed sale is appended with a status outside ChargeSale's own choices |
| RouterOps.ApproveTwiceIsNoOp | tbdl/charge/api/router.py:139-141 | once approved, a request approved again by anyone reports "Already processed" and changes nothing |
| ViewsOps.CreateCreditRequest | tbdl/charge/api/views.py:36-51 | refused exactly for a negative amount; otherwise exactly one PENDING, unprocessed request of the caller is appended |
| ViewsOps.Approve | tbdl/charge/api/views.py:58-78 | 404 iff the pk names no request; "Already processed" iff it is processed; neither writes; otherwise that request alone becomes APPROVED and processed and the caller's credit alone rises by its amount; phones and sales are untouched |
| ViewsOps.ApproveAgreesWithRouter | tbdl/charge/api/views.py:58-78 | run alone, the view's approve has the same effect and outcome as the router's in every state |
| ViewsOps.CreateChargeSale | tbdl/charge/api/views.py:82-110 | invalid iff the amount is negative or the phone is missing; insufficient iff the credit is below the amount; neither writes; otherwise the caller is debited, the phones are untouched, and a COMPLETED, unprocessed (never settled) sale is appended |
| ViewsOps.SerializerAmountRuleAdmitsZero | tbdl/charge/api/views.py:36-51 | a credit request of 0 is refused by the router schema, while the serializer's amount rule admits it |
| Invariants.PhoneTotal | tbdl/charge/models.py:11 | the settled sales of a phone total a non-negative amount |
| Invariants.PhoneTotalAppend | tbdl/charge/api/router.py:202-214 | a new sale adds to a phone's total exactly when it is settled and charged to that phone |
| Invariants.AppendUnsettledKeepsTotals | tbdl/charge/api/router.py:285-289 | appending an unsettled transaction changes no settled total in any scope |
| Invariants.CreateCreditRequestKeepsInvariants | tbdl/charge/api/router.py:119-127 | a new credit request, through either path, leaves the credits, the global balance, every user's balance and the phone charges intact |
| Invariants.ApproveKeepsBalance | tbdl/charge/api/router.py:143-151 | approval, by anyone, keeps the ledger Balanced and the phone charges matching |
| Invariants.ApproveByOwnerKeepsUserBalance | tbdl/charge/api/router.py:149-151 | an approval by the request's owner keeps every user Balanced |
| Invariants.CreateChargeKeepsInvariants | tbdl/charge/api/router.py:186-216 | a router charge keeps the users, the global balance, every user's balance, and every phone's charge equal to its settled sales |
| Invariants.ViewChargeSaleUnbalances | tbdl/charge/api/views.py:91-104 | from a Balanced ledger, a view sale leaves it Balanced iff nothing was sold or the amount was 0, and likewise for the caller; phone charges still match |
| Invariants.ViewChargeSaleKeepsOtherUsers | tbdl/charge/api/views.py:91-104 | a view sale leaves every other user's balance intact |
| Invariants.ApproveByOtherUnbalancesBothUsers | tbdl/charge/api/router.py:149-151 | user 2 approving user 1's request of 50 keeps the ledger Balanced but unbalances both users |
| LedgerStore.Ledger.constructor | tbdl/users/models.py:17-21 | the new ledger holds exactly the initial state |
| LedgerStore.Ledger.CreateCreditRequest | tbdl/charge/api/router.py:119-127 | the new rows and outcome are those RouterOps.CreateCreditRequest gives; the ledger stays well formed |
| LedgerStore.Ledger.ApproveTransaction | tbdl/charge/api/router.py:130-162 | the new rows and outcome are those RouterOps.ApproveTransaction gives; the ledger stays well formed |
| LedgerStore.Ledger.CreateCharge | tbdl/charge/api/router.py:180-220 | the two relative updates and the rollback on a missing phone leave the rows and outcome RouterOps.CreateCharge gives |
| LedgerStore.Ledger.CreateChargeThreaded | tbdl/charge/api/router.py:228-275 | the threaded charge has the same effect as RouterOps.CreateCharge |
| LedgerStore.Ledger.CreditRequestViewCreate | tbdl/charge/api/views.py:36-51 | the new rows and outcome are those ViewsOps.CreateCreditRequest gives |
| LedgerStore.Ledger.CreditRequestViewApprove | tbdl/charge/api/views.py:58-78 | the read-then-save approval leaves the rows and outcome ViewsOps.Approve gives |
| LedgerStore.Ledger.ChargeSaleViewCreate | tbdl/charge/api/views.py:82-110 | the create, debit and re-save as COMPLETED leave the rows and outcome ViewsOps.CreateChargeSale gives |
| Scenarios.Apply | tbdl/charge/api/router.py:27-37 | a caller no token resolves is refused with nothing changed; every call keeps the users and well-formedness, never shrinks a table and never rewrites a processed request |
| Scenarios.Run | tbdl/charge/api/router.py:130-275 | a sequence of calls keeps the users and well-formedness and never shrinks a table |
| Scenarios.ApplyKeepsBalance | tbdl/charge/api/router.py:278-329 | every call except the view's charge sale keeps the ledger Balanced |
| Scenarios.RunKeepsBalance | tbdl/charge/api/router.py:278-329 | any sequence of such calls keeps the ledger Balanced |
| Scenarios.FreshLedgerBalanced | tbdl/users/models.py:17-21 | a fresh ledger (the one InitialState builds) is Balanced, every user is Balanced and phone charges match |
| Scenarios.RunFromBalancedIsConsistent | tbdl/charge/api/router.py:278-329 | from a Balanced ledger, after any such sequence, validate_transactions reports consistent with non-negative figures |
| Scenarios.ConsistentAfterAnyRun | tbdl/charge/api/router.py:307-316 | from a fresh ledger, after any sequence avoiding the view's charge sale, validate_transactions reports "All transactions are consistent" |
| Scenarios.ApplyKeepsUserBalance | tbdl/charge/api/router.py:332-384 | a call that is not a view sale and approves only the caller's own request keeps each user Balanced |
| Scenarios.RunKeepsUserBalance | tbdl/charge/api/router.py:332-384 | a self-approving sequence of such calls keeps each user Balanced |
| Scenarios.SelfApprovingRunsStayConsistent | tbdl/charge/api/router.py:332-384 | from a ledger where everyone is Balanced, self-approving router runs leave both validation endpoints reporting consistent for every user |
| Scenarios.RouterRunsStayConsistent | tbdl/charge/api/router.py:332-384 | from a fresh ledger, self-approving router runs leave both validation endpoints reporting consistent for every user |
| Scenarios.ApplyKeepsPhoneCharges | tbdl/charge/api/router.py:202-206 | every call keeps each phone's charge equal to its settled sales |
| Scenarios.RunKeepsPhoneCharges | tbdl/charge/api/router.py:202-206 | any sequence of calls keeps each phone's charge equal to its settled sales |
| Scenarios.ApplyPhoneChargeGrows | tbdl/charge/api/router.py:202-206 | no call removes a phone or lowers its charge |
| Scenarios.RunPhoneChargeGrows | tbdl/charge/api/router.py:202-206 | through any sequence of calls, each phone's charge only grows |
| Scenarios.ProcessedIsFinal | tbdl/charge/api/router.py:139-146 | a processed request is never written again by any later calls, so its amount is credited at most once |
| Scenarios.InsufficientChargeChangesNothing | tbdl/charge/api/router.py:190-195 | a charge above the caller's credit is refused with nothing changed, through the router and through the view |
| Scenarios.WorkedExample | tbdl/charge/api/router.py:336-377 | credit 0, request 100, approve, charge 30: credit 70, phone charge 30, per-user figures 100/70/30/30 consistent; a further charge of 150 is refused with nothing changed |
| Scenarios.ViewChargeIsReportedAsMismatch | tbdl/charge/api/views.py:82-110 | the same example charged through the view leaves credit 70 and phone charge 0, and validate_transactions reports a mismatch |

## Left out

- Locking (`select_for_update`), the thread pool of `create_charge_sale_threaded` and async execution are not modelled. Each atomic block is one indivisible step, and calls run one at a time.
- The views read the request and the caller's credit before their atomic block. Two interleaved view calls can therefore both pass the credit check, or lose one of two credit updates. A sequential model cannot show that race.
- The views as written are not modelled. All three view writes open `async with transaction.atomic()`, which raises before anything is written, because Django's `Atomic` is not an async context manager. The model runs each view block as a working atomic block instead.
- The `user` field of the serializers is not modelled. `CreditRequestSerializer` requires it, and `CreditRequestViewSet.create` passes only `amount`, so as written that view refuses every payload, 0 included. `ChargeSaleViewSet.create` forwards the client's data, which passes when it names an existing user. The model keeps only the amount rule (at least 0) and, for a sale, the rule that the phone exists.
- Model validators are not modelled. `MinValueValidator` does not run on `save()` or `update()`, and the `status` choices are not enforced by the database.
- HTTP transport, status codes, response serialisation, logging and timestamps are not modelled. Outcomes are reduced to `Outcome`.
- Authentication is reduced to whether the caller is a known user (`Scenarios.Apply`).
- The read-only endpoints are not modelled: the phone-number, credit-request and charge-sale list and detail endpoints, in both files. They change nothing.
- Fields no operation reads are not modelled: `title`, `admin_notes`, `api_response`, `created_at` and `updated_at`.
- No code path sets REJECTED, FAILED or `is_active`, so no operation does so in the model.
- Charging an inactive phone number is not refused. No charge path checks `is_active`, although both phone-number list endpoints offer only active numbers (tbdl/charge/api/router.py:98, tbdl/charge/api/views.py:21).
- Database integer limits are not modelled. Every `IntegerField` is an unbounded integer, and Python's integers do not wrap.
- `RouterOps.CreateCharge` reports a missing phone as `NotFound`. In the code this is a foreign-key failure that rolls the block back and is re-raised as a server error; only the rollback is modelled.
- Charge-sale ids are modelled by position: the k-th sale has id k. In the code, a router charge rolled back for a missing phone has already inserted its row, so on PostgreSQL it consumes a sequence value and the next sale's id skips one. Nothing in the core looks a sale up by id.
- UserModels.GetBalance: `get_balance` aggregates `self.transactions`, a relation no model in the repository declares. The model sums a given sequence of amounts instead of rows of any table.
- Reconciliation.ValidateTransactions is a ghost function, because the credit total sums a map in an arbitrary order. `CreditTotalRemove` proves the order does not matter.
