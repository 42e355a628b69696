# Order lifecycle and stock ledger — a Dafny model

This project models the core of a restaurant order system written in Django.
The core has two parts:

- `pedidos/services.py`: the three order transitions. `confirmar_pedido` sends an order to the kitchen and debits stock. `concluir_pedido` completes it. `cancelar_pedido` cancels it and gives back stock by reconciling the stock ledger.
- `pedidos/models.py`: the data rules the transitions rely on. These are the per-day order number `YYYYMMDD-NNNN`, the order total, line validation, one line per product, and the status and movement-kind codes.

The whole database is one immutable value, `Models.State`. It holds:

- a stock count per product (`Produto.estoque`);
- the orders (`Pedido` with its `PedidoItem` lines);
- the append-only ledger of `MovimentoEstoque` entries;
- the set of orders that have a kitchen ticket (`ComandaCozinha`).

Each service is one database transaction. It is modelled as a pure function from a state to `Result<State, Error>`. `Ok` is the committed state. `Err` is the raised exception; the caller keeps its old state, because the transaction rolled back. `Lifecycle.Run` applies a sequence of service calls this way. A call is a confirmation, a completion, a cancellation with its reconciliation running (`Services.Cancel`), or a cancellation as the source is written (`Services.CancelAsWritten`, see Findings).

Modules:

- `Wrappers`: the `Option` and `Result` types.
- `Numbering`: order numbers. The module has both the generator as written (`GenerateNumber`) and a corrected one (`NextNumber`).
- `Models`: entities, codes, line rules, totals, and number assignment in `save`.
- `Ledger`: sums over the ledger, the entries that confirmation and cancellation append, and what an order still owes back.
- `Services`: `Conclude`, `Confirm` and `Cancel`, `CancelAsWritten`, and the invariant `Valid` that sequences of the three services keep. Besides the field rules, `Valid` says that no order is refunded more than it took and that every RASCUNHO or CANCELADO order owes nothing back (`Settled`).
- `Lifecycle`: properties across operations. These are no oversell, exact and idempotent cancellation, ledger conservation, and invariants over runs of calls.

Two behaviours follow from the code although an order workflow would not expect them; the model keeps both:

- `confirmar_pedido` never checks the order's status, so a confirmed, completed or cancelled order can be confirmed again. `Lifecycle.ConfirmTwiceDebitsTwice` states the consequence.
- `cancelar_pedido` takes the refund path for a CONCLUIDO order as well as for an ENVIADO_COZINHA one (`Services.Reconciles`).

## Model

| member | source | states |
|---|---|---|
| Models.ParseStatus | pedidos/models.py:20-24 | A stored status code reads back as the one status whose code it is. Any other text is rejected. |
| Models.ParseKind | pedidos/models.py:78-81 | A stored movement code (SAIDA, ESTORNO) reads back as its kind. Any other text is rejected. |
| Models.CleanLine | pedidos/models.py:69-71 | A line is accepted if and only if its quantity is positive. The accepted line keeps product, quantity and unit price. A rejection carries the offending quantity. |
| Models.AddLine | pedidos/models.py:66-67 | Adding a line fails exactly when the order already has a line for that product. Otherwise the line is appended and nothing else changes, so one line per product is kept. |
| Models.LinesTotalConcat | pedidos/models.py:53-57 | The total of two batches of lines is the sum of their totals. |
| Models.LinesTotalPermutation | pedidos/models.py:53-57 | The total depends only on the multiset of lines, not on their order. |
| Models.RecalculateTotalSpec | pedidos/models.py:53-58 | After recalculating, total = Σ quantity × unit price. Only the total changes. A second recalculation changes nothing, and an already consistent order is left as it is. |
| Models.AddLineTotal | pedidos/models.py:53-57 | Adding a new product's line raises the recalculated total by exactly that line's quantity × unit price. |
| Models.Save | pedidos/models.py:48-51 | An order that has a number keeps it unchanged. An order without one gets a number with today's prefix that no existing order has, and nothing else changes. |
| Models.NewOrder | pedidos/models.py:26-32 | A new order starts as RASCUNHO, with no lines, total 0, no completion time and a fresh number. |
| Numbering.Format04 | pedidos/models.py:46 | `{seq:04d}` gives digits only and denotes `seq`, with exactly four of them below 10000. |
| Numbering.Format04Wide | pedidos/models.py:46 | From 10000 on, `{seq:04d}` writes the plain digits in their own width, with no leading zero. |
| Numbering.DigitsNoLeadingZero | pedidos/models.py:46 | A positive number written in exactly its width does not start with a zero. |
| Numbering.ParseNat | pedidos/models.py:45 | `int()` succeeds on a nonempty digit string and yields its decimal value. Otherwise it fails. |
| Numbering.ParseFormat04 | pedidos/models.py:45-46 | Parsing a formatted sequence number gives the number back. |
| Numbering.SuffixOfDay | pedidos/models.py:45 | `split("-")[1]` of a number `<today>-<digits>` parses to the value of those digits. |
| Numbering.SameDay | pedidos/models.py:44 | The filter keeps exactly the existing numbers that start with today's prefix. |
| Numbering.LexMax | pedidos/models.py:44 | `order_by("numero").last()` returns one of the same-day numbers. |
| Numbering.LexMaxGreatest | pedidos/models.py:44 | That number is the greatest of them in Python's string order. |
| Numbering.LexLessDigits | pedidos/models.py:44-45 | On digit strings of equal length, string order implies numeric order. This is why the generator works while suffixes have four digits. |
| Numbering.FirstNumberOfDay | pedidos/models.py:41-46 | With no same-day number, the generator returns `<today>-0001`. |
| Numbering.NextAfterGreatest | pedidos/models.py:44-46 | Otherwise the result depends only on the string-greatest same-day number g. It is g's suffix + 1, zero-padded, or a ValueError naming g when that suffix is not a number. |
| Numbering.GenerateNumberFresh | pedidos/models.py:44-46 | While every same-day number has a 4-digit suffix below 9999, the generator as written returns the corrected one's result. That result has 13 characters and is not taken. |
| Numbering.MaxSuffixInRange | pedidos/models.py:44-45 | Among same-day numbers with 4-digit suffixes, the string-greatest one has the numerically greatest suffix. |
| Numbering.GenerateNumberRepeats | pedidos/models.py:44-46 | With `-9999` and `-10000` already taken, the generator as written returns `-10000` again. |
| Numbering.MaxSuffix | pedidos/models.py:44-45 | The numerically greatest well-formed suffix bounds every well-formed suffix and is one of them (0 when there is none). |
| Numbering.NextNumber | pedidos/models.py:41-46 | The corrected generator returns a number with today's prefix that no existing number has, whatever the existing numbers are. |
| Ledger.TotalConcat | pedidos/services.py:77-89 | The per-order, per-product, per-kind sum over a ledger that grew is the old sum plus the sum over the new entries. |
| Ledger.MovedConcat | pedidos/models.py:83-87 | The same holds for the per-product sum over all orders. |
| Ledger.MovedOfOneOrder | pedidos/services.py:102-108 | For entries that all belong to one order, the all-orders sum equals that order's sum. |
| Ledger.PositiveSaidaHasEntry | pedidos/services.py:77-82 | A positive SAIDA sum for (order, product) comes from at least one SAIDA entry of that order and product. |
| Ledger.DebitedProducts | pedidos/services.py:77-82 | The grouped SAIDA rows are distinct products: exactly those with a SAIDA entry for the order. |
| Ledger.OwedIsDebited | pedidos/services.py:91-97 | Every product with something owed is among the grouped SAIDA rows, so the loop reaches it. |
| Ledger.LineQtyAbsent | pedidos/services.py:40-43 | A product with no line in the order is debited nothing. |
| Ledger.LineQtyDistinct | pedidos/services.py:40-43 | With one line per product, a product is debited exactly its line's quantity. |
| Ledger.SaidaEntries | pedidos/services.py:44-50 | Confirmation writes one SAIDA entry per line, with the line's product and quantity, in line order. |
| Ledger.SaidaEntriesTotal | pedidos/services.py:44-50 | Those entries add each product's ordered quantity to the order's SAIDA sum and nothing to any other sum. |
| Ledger.RefundEntries | pedidos/services.py:97-108 | Every entry the reconciliation writes is an ESTORNO of this order for a product it walked. |
| Ledger.RefundEntriesTotal | pedidos/services.py:91-108 | Over distinct products, those entries add exactly max(0, ΣSAIDA − ΣESTORNO) to each walked product's ESTORNO sum for the order. Nothing else changes. |
| Services.Conclude | pedidos/services.py:7-15 | Completing succeeds if and only if the order is ENVIADO_COZINHA. Otherwise it fails with NotFound or InvalidTransition. On success the status becomes CONCLUIDO with the completion time, and stock, ledger and tickets are untouched. |
| Services.Shortage | pedidos/services.py:30-37 | The check loop passes if and only if every line's product has at least the line's quantity. Otherwise it reports the first line that fails. |
| Services.ReconcileOne | pedidos/services.py:92-108 | One round of the reconciliation loop fails only for a product with something owed that no longer exists. Otherwise it credits exactly max(0, ΣSAIDA − ΣESTORNO) to that product alone, with one matching ESTORNO entry when that amount is positive. |
| Services.Debit | pedidos/services.py:39-50 | The debit loop lowers each product by its ordered quantity and appends one SAIDA entry per line. Orders and tickets do not change. |
| Services.Confirm | pedidos/services.py:18-57 | Confirming fails for a missing order or one without lines. It succeeds if and only if every line is covered. A failure names the first uncovered line; since the check runs before any debit, the state is kept. On success it debits, appends the SAIDA entries, sets ENVIADO_COZINHA with the recalculated total, and adds one ticket. |
| Services.Reconcile | pedidos/services.py:91-108 | The reconciliation loop credits each walked product with max(0, ΣSAIDA − ΣESTORNO) read before the loop, and appends the matching ESTORNO entries. It fails only when a product with something owed no longer exists. |
| Services.Cancel | pedidos/services.py:59-112 | A cancelled order is returned unchanged. A draft only changes status. Any other order gets each product's owed amount back, with one ESTORNO entry per product with a positive owed amount; this fails, with NotFound, exactly when a product with something owed no longer exists. The status becomes CANCELADO, and tickets and products are untouched. |
| Services.CancelAsWritten | pedidos/services.py:59-89 | Cancel as written fails with a NameError for every ENVIADO_COZINHA or CONCLUIDO order. A missing order fails with NotFound; a RASCUNHO or CANCELADO order is handled exactly as Cancel handles it. |
| Lifecycle.ConfirmDebitsEachLine | pedidos/services.py:39-43 | With one line per product, each ordered product drops by exactly its quantity and stays ≥ 0. Products not ordered keep their stock. |
| Lifecycle.ConfirmTotals | pedidos/services.py:44-50 | Confirming adds the ordered quantities to the order's SAIDA sums. Every other sum, and every ESTORNO sum, is unchanged. |
| Lifecycle.ConfirmPreservesValid | pedidos/services.py:30-50 | No oversell: a successful confirmation keeps every stock count ≥ 0 and the whole invariant. |
| Lifecycle.ConfirmStockNonNegative | pedidos/services.py:30-43 | Because every line passed the stock check, no product ends below zero after the debit. |
| Lifecycle.ConfirmNoOverRefund | pedidos/services.py:44-50 | Confirming only adds SAIDA entries, so no order is left refunded more than it took. |
| Lifecycle.ConfirmSettled | pedidos/services.py:44-56 | After a confirmation, every RASCUNHO or CANCELADO order still has ΣESTORNO = ΣSAIDA per product: the confirmed order becomes ENVIADO_COZINHA, and no other order's sums move. |
| Lifecycle.ConfirmTwiceDebitsTwice | pedidos/services.py:19-28 | Because the status is not checked, confirming an already-sent order with enough stock debits its lines a second time. |
| Lifecycle.CancelTotals | pedidos/services.py:91-108 | A reconciling cancel adds exactly the refund to the order's ESTORNO sums and changes no other sum. |
| Lifecycle.CancelSucceeds | pedidos/services.py:91-100 | On a valid state, cancelling an existing order never fails. |
| Lifecycle.CancelSettles | pedidos/services.py:91-108 | After a reconciling cancel, ΣESTORNO ≥ ΣSAIDA for every product of the order, with equality on a valid state. |
| Lifecycle.CancelPreservesValid | pedidos/services.py:59-112 | Cancellation keeps the invariant, including that no order is refunded more than it took. |
| Lifecycle.CancelNoOverRefund | pedidos/services.py:91-108 | A reconciling cancel never refunds more than was taken, per order and product. |
| Lifecycle.CancelInStock | pedidos/services.py:98-108 | Every ESTORNO entry a cancel writes names an existing product. |
| Lifecycle.CancelSettled | pedidos/services.py:59-112 | After a cancellation, every RASCUNHO or CANCELADO order has ΣESTORNO = ΣSAIDA per product: the cancelled order is refunded exactly what it owed, and a draft owed nothing already. |
| Lifecycle.CancelIdempotent | pedidos/services.py:66-67 | A second cancel returns the same state as the first. |
| Lifecycle.RefundEntriesNone | pedidos/services.py:95-97 | When nothing is owed, the reconciliation writes no entry. |
| Lifecycle.ReconcileNothingOwed | pedidos/services.py:91-108 | A reconciliation over products of which nothing is owed leaves the state exactly as it is. |
| Lifecycle.ReconcileIdempotent | pedidos/services.py:75-108 | Running the reconciliation again on a cancelled order finds nothing owed and changes nothing. This is what makes repeated cancellation safe. |
| Lifecycle.CancelAfterConfirm | pedidos/services.py:39-108 | Cancelling a just-confirmed order returns its debit plus whatever the order owed before. |
| Lifecycle.ConfirmThenCancel | pedidos/services.py:18-112 | On a valid state, confirm then cancel always succeeds. Each product ends at its pre-confirm stock plus what the order owed before. |
| Lifecycle.ConfirmThenCancelRestores | pedidos/services.py:18-112 | On a valid state, confirming a RASCUNHO or CANCELADO order and then cancelling it always succeeds and restores every product's pre-confirm stock exactly. |
| Lifecycle.ConcludePreservesValid | pedidos/services.py:7-15 | Completion keeps the invariant. |
| Lifecycle.StepPreserves | pedidos/services.py:7-112 | Every call, including a cancellation as written, whether it succeeds or rolls back, keeps the invariant and the set of products. It only appends to the ledger. It keeps stock + ΣSAIDA − ΣESTORNO constant per product (ledger conservation). |
| Lifecycle.RunNoOversell | pedidos/services.py:30-50 | Over any sequence of calls, stock stays ≥ 0, the ledger only grows, and conservation holds. The net quantity the ledger records as gone out never exceeds the starting stock. |
| Lifecycle.StepKeepsTotals | pedidos/services.py:52-54 | No service call changes the set of orders or breaks an order whose total matched its lines, and a successful confirmation recalculates the confirmed order's total whatever it was before. |
| Lifecycle.RunKeepsTotals | pedidos/models.py:53-58 | If every order's total matches its lines, it still does after any sequence of service calls. |
| Lifecycle.CancelAsWrittenStrandsStock | pedidos/services.py:77-89 | With the source's missing import, cancelling an order right after a successful confirmation fails, and its first product stays below its pre-confirm stock. |
| Lifecycle.StepAsWrittenKeepsOut | pedidos/services.py:7-89 | Under the services as written, one call keeps an ENVIADO_COZINHA or CONCLUIDO order in one of those two statuses and writes no ESTORNO entry. |
| Lifecycle.RunAsWrittenNeverCancels | pedidos/services.py:7-89 | Under the services as written, an ENVIADO_COZINHA or CONCLUIDO order never becomes CANCELADO over any sequence of calls, and no product's ESTORNO sum ever grows. |

## Left out

- Row locks (`select_for_update`) and transaction isolation: each call is one atomic step, and no interleavings are modelled.
- The Django ORM (`F()` expressions, `aggregate`, `annotate`, querysets): these become sums over the ledger sequence and the maps.
- Clock and calendar: `timezone.now()` is the `now` parameter of `Conclude`, and `timezone.localdate()` is an 8-digit day stamp parameter. `atualizado_em` and `criado_em` are not modelled.
- Decimal prices: unit prices and totals are integer cents with no lower bound, as the DecimalFields have none. The `max_digits`/`max_length` limits of the fields are not modelled.
- The ENTRADA movement kind, which no code path produces, and the SET_NULL/CASCADE delete behaviour.
- A ledger entry's line reference (`item`), the customer name and the product's name, price and active flag: none affects the logic.
- Models.Save: the number is computed by the corrected generator `NextNumber`; the generator as written is `Numbering.GenerateNumber`. Concurrent saves on the same day could race for a number; that is not modelled.
- Models.NewOrder: its fresh number comes from `Models.Save`, so from the corrected generator `NextNumber`; the source's ValueError and repeated number after `-9999` are not reached through it.
- Numbering.LexMax: `order_by("numero")` sorts in the database's collation. The model uses Python's code-point order, which agrees with common collations on digits and dashes.
- Numbering.ParseNat: it accepts only nonempty ASCII digit strings. Python's `int()` also accepts a sign, surrounding whitespace, underscores and non-ASCII Unicode decimal digits; every number the generator writes is plain digits.
- Ledger.DebitedProducts: the grouped SAIDA query has no ORDER BY. The model walks products in order of first appearance. The resulting stock and every per-order, per-product sum do not depend on that order, since `Services.Reconcile` and `Ledger.RefundEntriesTotal` state them for any list of distinct products. The order of the appended ESTORNO entries does depend on it.
- Negative stock: `PositiveIntegerField` would reject a negative stock on save. The stock-check loop of `confirmar_pedido` already guarantees that a debit never goes below zero, so the model keeps stock as an integer and proves it stays ≥ 0 (`Lifecycle.ConfirmPreservesValid`).
- The unit-price snapshot taken when a line is created (in the views) is outside the model: a line carries whatever unit price it was created with.
- Views, forms, URLs, the admin, the stock report and the template context processor. Of these, `criar_pedido` creates orders and lines, `detalhe_pedido` resets an order's total to the sum of its lines, and the admin's default change forms can edit stock, an order's status, total and number, its lines and ledger rows directly. Such direct edits are not modelled, and they can break the invariants proved here (`Services.Valid`, `Lifecycle.TotalsConsistent`, ledger conservation): those hold for sequences of the three services only.

## Findings

| source | as written | input that shows it | evidently intended | confidence | as-written member | corrected member |
|---|---|---|---|---|---|---|
| pedidos/services.py:2 | `Sum` is used at lines 81 and 88 but only `F` is imported, so the reconciliation path raises NameError. | Any ENVIADO_COZINHA or CONCLUIDO order passed to `cancelar_pedido` | Import `Sum` and refund ΣSAIDA − ΣESTORNO per product | not executed | Lifecycle.CancelAsWrittenStrandsStock | Services.Cancel |
| pedidos/models.py:44-46 | The next number comes from the string-greatest same-day number, and "…-9999" sorts after "…-10000". | A day with `-9999` and `-10000` already taken yields `-10000` again, and the unique constraint then fails | One more than the numerically greatest same-day suffix | not executed | Numbering.GenerateNumberRepeats | Numbering.NextNumber |
