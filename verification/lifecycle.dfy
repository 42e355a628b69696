/**
  Properties that relate the services to each other and to the invariant:
  no oversell, no partial debit, ledger conservation, idempotent and exact
  cancellation, the same facts over any sequence of service calls, and what
  a run of the services as written cannot do.
*/
module Lifecycle {
  import opened Wrappers
  import opened Models
  import opened Ledger
  import opened Services

  // ---------------------------------------------------------------------
  // confirmar_pedido
  // ---------------------------------------------------------------------

  /**
    With one line per product, each ordered product's stock drops by exactly
    its line's quantity and stays non-negative; every other product keeps
    its stock.
  */
  lemma ConfirmDebitsEachLine(s: State, o: OrderId)
    requires o in s.orders && LinesDistinct(s.orders[o].lines)
    requires Confirm(s, o).Ok?
    ensures var lines, t := s.orders[o].lines, Confirm(s, o).value;
      && (forall i | 0 <= i < |lines| ::
            t.stock[lines[i].product] == s.stock[lines[i].product] - lines[i].quantity >= 0)
      && (forall p | p in s.stock && !HasLine(lines, p) :: t.stock[p] == s.stock[p])
  {
    var lines := s.orders[o].lines;
    forall i | 0 <= i < |lines| {
      LineQtyDistinct(lines, i);
    }
    forall p | p in s.stock && !HasLine(lines, p) {
      LineQtyAbsent(lines, p);
    }
  }

  /** A confirmation adds LineQty to the order's SAIDA sums and leaves every other sum alone. */
  lemma ConfirmTotals(s: State, o: OrderId)
    requires Confirm(s, o).Ok?
    ensures var lines, t := s.orders[o].lines, Confirm(s, o).value;
      && (forall o', p, k :: (Total(t.ledger, o', p, k) ==
            Total(s.ledger, o', p, k) + if o' == o && k == Saida then LineQty(lines, p) else 0))
      && (forall p, k :: (Moved(t.ledger, p, k) ==
            Moved(s.ledger, p, k) + if k == Saida then LineQty(lines, p) else 0))
  {
    var lines := s.orders[o].lines;
    var e := SaidaEntries(o, lines);
    TotalConcat(s.ledger, e);
    MovedConcat(s.ledger, e);
    SaidaEntriesTotal(o, lines);
    MovedOfOneOrder(e, o);
  }

  /** Every ledger entry names a product of `stock`. */
  ghost predicate InStock(l: seq<Movement>, stock: map<ProductId, int>)
  {
    forall i | 0 <= i < |l| :: l[i].product in stock
  }

  lemma AppendInStock(l: seq<Movement>, e: seq<Movement>, stock: map<ProductId, int>)
    requires InStock(l, stock) && InStock(e, stock)
    ensures InStock(l + e, stock)
  {
    forall i | 0 <= i < |l + e|
      ensures (l + e)[i].product in stock
    {
      if i >= |l| {
        assert (l + e)[i] == e[i - |l|];
      }
    }
  }

  /** Replacing one order by one with the same number and lines, over the same products, keeps every order valid. */
  lemma OrdersStayValid(s: State, t: State, o: OrderId)
    requires o in s.orders && (forall o' | o' in s.orders :: OrderValid(s.orders[o'], s.stock))
    requires t.stock.Keys == s.stock.Keys
    requires t.orders.Keys == s.orders.Keys
    requires forall o' | o' in s.orders && o' != o :: t.orders[o'] == s.orders[o']
    requires t.orders[o].number == s.orders[o].number && t.orders[o].lines == s.orders[o].lines
    ensures forall o' | o' in t.orders :: OrderValid(t.orders[o'], t.stock)
  {
    forall o' | o' in t.orders
      ensures OrderValid(t.orders[o'], t.stock)
    {
      assert OrderValid(s.orders[o'], s.stock);
    }
  }

  /** No oversell: a successful confirmation keeps every stock count non-negative, and the whole invariant. */
  lemma ConfirmPreservesValid(s: State, o: OrderId)
    requires Valid(s) && Confirm(s, o).Ok?
    ensures Valid(Confirm(s, o).value)
  {
    var lines, t := s.orders[o].lines, Confirm(s, o).value;
    assert OrderValid(s.orders[o], s.stock);
    ConfirmStockNonNegative(s, o);
    ConfirmNoOverRefund(s, o);
    OrdersStayValid(s, t, o);
    assert InStock(SaidaEntries(o, lines), s.stock);
    AppendInStock(s.ledger, SaidaEntries(o, lines), s.stock);
    ConfirmSettled(s, o);
  }

  lemma ConfirmStockNonNegative(s: State, o: OrderId)
    requires forall p | p in s.stock :: s.stock[p] >= 0
    requires o in s.orders && LinesDistinct(s.orders[o].lines) && Confirm(s, o).Ok?
    ensures forall p | p in Confirm(s, o).value.stock :: Confirm(s, o).value.stock[p] >= 0
  {
    var lines, t := s.orders[o].lines, Confirm(s, o).value;
    ConfirmDebitsEachLine(s, o);
    forall p | p in t.stock
      ensures t.stock[p] >= 0
    {
      if !HasLine(lines, p) {
        assert t.stock[p] == s.stock[p];
      }
    }
  }

  /** The confirmed order leaves the draft state, and no other order's sums move: draft and cancelled orders still owe nothing. */
  lemma ConfirmSettled(s: State, o: OrderId)
    requires Settled(s) && Confirm(s, o).Ok?
    ensures Settled(Confirm(s, o).value)
  {
    var t := Confirm(s, o).value;
    ConfirmTotals(s, o);
    forall o', p | o' in t.orders && Idle(t.orders[o'].status)
      ensures Owed(t.ledger, o', p) == 0
    {
      assert o' != o;
      assert Owed(s.ledger, o', p) == 0;
    }
  }

  lemma ConfirmNoOverRefund(s: State, o: OrderId)
    requires NoOverRefund(s.ledger) && Confirm(s, o).Ok?
    ensures NoOverRefund(Confirm(s, o).value.ledger)
  {
    ConfirmTotals(s, o);
  }

  /**
    Confirmation ignores the order's status: confirming an order that is
    already in the kitchen, with stock to spare, debits its lines a second
    time.
  */
  lemma ConfirmTwiceDebitsTwice(s: State, o: OrderId)
    requires Confirm(s, o).Ok?
    requires Covered(Confirm(s, o).value.stock, s.orders[o].lines)
    ensures var t := Confirm(s, o).value;
      && Confirm(t, o).Ok?
      && t.orders[o].status == EnviadoCozinha
      && forall p | p in s.stock :: Confirm(t, o).value.stock[p] == s.stock[p] - 2 * LineQty(s.orders[o].lines, p)
  {
  }

  // ---------------------------------------------------------------------
  // cancelar_pedido
  // ---------------------------------------------------------------------

  /** The reconciliation credits exactly Refund to the order's ESTORNO sums, and nothing else moves. */
  lemma CancelTotals(s: State, o: OrderId)
    requires Cancel(s, o).Ok?
    ensures var t, back := Cancel(s, o).value, Reconciles(s.orders[o].status);
      && (forall o', p, k :: (Total(t.ledger, o', p, k) ==
            Total(s.ledger, o', p, k) + if back && o' == o && k == Estorno then Refund(s.ledger, o, p) else 0))
      && (forall p, k :: (Moved(t.ledger, p, k) ==
            Moved(s.ledger, p, k) + if back && k == Estorno then Refund(s.ledger, o, p) else 0))
  {
    if Reconciles(s.orders[o].status) {
      var ps := DebitedProducts(s.ledger, o);
      var e := RefundEntries(s.ledger, o, ps);
      TotalConcat(s.ledger, e);
      MovedConcat(s.ledger, e);
      RefundEntriesTotal(s.ledger, o, ps);
      MovedOfOneOrder(e, o);
      forall p | Refund(s.ledger, o, p) > 0
        ensures p in ps
      {
        OwedIsDebited(s.ledger, o, p);
      }
    }
  }

  /** On a valid state, cancelling an existing order never fails. */
  lemma CancelSucceeds(s: State, o: OrderId)
    requires Valid(s) && o in s.orders
    ensures Cancel(s, o).Ok?
  {
    if Reconciles(s.orders[o].status) {
      var ps := DebitedProducts(s.ledger, o);
      forall i | 0 <= i < |ps|
        ensures ps[i] in s.stock
      {
        assert ps[i] in ps;
        var j :| 0 <= j < |s.ledger| && Matches(s.ledger[j], o, ps[i], Saida);
      }
    }
  }

  /**
    After a cancellation that reconciles, every product's ESTORNO sum for
    the order has caught up with its SAIDA sum (ΣESTORNO ≥ ΣSAIDA), with
    equality when the state was valid.
  */
  lemma CancelSettles(s: State, o: OrderId)
    requires Cancel(s, o).Ok? && Reconciles(s.orders[o].status)
    ensures var t := Cancel(s, o).value;
      && (forall p :: Total(t.ledger, o, p, Saida) <= Total(t.ledger, o, p, Estorno))
      && (NoOverRefund(s.ledger) ==> forall p :: Total(t.ledger, o, p, Saida) == Total(t.ledger, o, p, Estorno))
  {
    CancelTotals(s, o);
  }

  /** Cancellation keeps the invariant. */
  lemma CancelPreservesValid(s: State, o: OrderId)
    requires Valid(s) && Cancel(s, o).Ok?
    ensures Valid(Cancel(s, o).value)
  {
    var t := Cancel(s, o).value;
    CancelNoOverRefund(s, o);
    OrdersStayValid(s, t, o);
    CancelInStock(s, o);
    CancelSettled(s, o);
  }

  /**
    The cancelled order ends settled: a reconciling cancel returns exactly
    what was owed, and a draft owed nothing already. No other order's sums
    move.
  */
  lemma CancelSettled(s: State, o: OrderId)
    requires Settled(s) && NoOverRefund(s.ledger) && Cancel(s, o).Ok?
    ensures Settled(Cancel(s, o).value)
  {
    var t := Cancel(s, o).value;
    var back := Reconciles(s.orders[o].status);
    CancelTotals(s, o);
    if back {
      CancelSettles(s, o);
    }
    forall o', p | o' in t.orders && Idle(t.orders[o'].status)
      ensures Owed(t.ledger, o', p) == 0
    {
      if o' != o || !back {
        assert Idle(s.orders[o'].status);
        assert Owed(s.ledger, o', p) == 0;
      }
    }
  }

  lemma CancelNoOverRefund(s: State, o: OrderId)
    requires NoOverRefund(s.ledger) && Cancel(s, o).Ok?
    ensures NoOverRefund(Cancel(s, o).value.ledger)
  {
    CancelTotals(s, o);
  }

  lemma CancelInStock(s: State, o: OrderId)
    requires InStock(s.ledger, s.stock) && Cancel(s, o).Ok?
    ensures InStock(Cancel(s, o).value.ledger, Cancel(s, o).value.stock)
  {
    var t := Cancel(s, o).value;
    if Reconciles(s.orders[o].status) {
      var ps := DebitedProducts(s.ledger, o);
      var e := RefundEntries(s.ledger, o, ps);
      forall i | 0 <= i < |e|
        ensures e[i].product in s.stock
      {
        assert e[i].product in ps;
        var j :| 0 <= j < |s.ledger| && Matches(s.ledger[j], o, e[i].product, Saida);
      }
      AppendInStock(s.ledger, e, s.stock);
    }
  }

  /** A second cancellation changes nothing. */
  lemma CancelIdempotent(s: State, o: OrderId)
    requires Cancel(s, o).Ok?
    ensures Cancel(Cancel(s, o).value, o) == Cancel(s, o)
  {
  }

  lemma {:induction false} RefundEntriesNone(l0: seq<Movement>, o: OrderId, ps: seq<ProductId>)
    requires forall i | 0 <= i < |ps| :: Refund(l0, o, ps[i]) == 0
    ensures RefundEntries(l0, o, ps) == []
    decreases |ps|
  {
    if |ps| > 0 {
      RefundEntriesNone(l0, o, ps[..|ps| - 1]);
    }
  }

  /** A reconciliation over products of which nothing is owed changes nothing. */
  lemma ReconcileNothingOwed(s: State, l0: seq<Movement>, o: OrderId, ps: seq<ProductId>)
    requires Distinct(ps)
    requires forall i | 0 <= i < |ps| :: Refund(l0, o, ps[i]) == 0
    ensures Reconcile(s, l0, o, ps) == Ok(s)
  {
    RefundEntriesNone(l0, o, ps);
    var r := Reconcile(s, l0, o, ps);
    assert r.Ok?;
    assert r.value.stock == s.stock by {
      forall p | p in s.stock
        ensures r.value.stock[p] == s.stock[p]
      {
        assert Credit(l0, o, ps, p) == 0;
      }
    }
    assert r.value.ledger == s.ledger;
  }

  /**
    What makes repeated cancellation safe: once an order has been
    reconciled, running the reconciliation again from the ledger finds
    nothing owed and leaves the state exactly as it is.
  */
  lemma ReconcileIdempotent(s: State, o: OrderId)
    requires Cancel(s, o).Ok? && Reconciles(s.orders[o].status)
    ensures var t := Cancel(s, o).value;
      Reconcile(t, t.ledger, o, DebitedProducts(t.ledger, o)) == Ok(t)
  {
    var t := Cancel(s, o).value;
    var ps := DebitedProducts(t.ledger, o);
    CancelSettles(s, o);
    assert forall p :: Refund(t.ledger, o, p) == 0;
    ReconcileNothingOwed(t, t.ledger, o, ps);
  }

  /**
    Whenever cancelling a just-confirmed order succeeds, each product gets
    back the confirmation's debit plus what the order owed before.
  */
  lemma CancelAfterConfirm(s: State, o: OrderId)
    requires NoOverRefund(s.ledger) && Confirm(s, o).Ok?
    ensures var t := Confirm(s, o).value;
      Cancel(t, o).Ok? ==> forall p | p in s.stock :: Cancel(t, o).value.stock[p] == s.stock[p] + Owed(s.ledger, o, p)
  {
    var t := Confirm(s, o).value;
    var lines := s.orders[o].lines;
    if Cancel(t, o).Ok? {
      ConfirmTotals(s, o);
      var u := Cancel(t, o).value;
      assert Reconciles(t.orders[o].status);
      forall p | p in s.stock
        ensures u.stock[p] == s.stock[p] + Owed(s.ledger, o, p)
      {
        assert Owed(t.ledger, o, p) == Owed(s.ledger, o, p) + LineQty(lines, p);
        assert Owed(s.ledger, o, p) >= 0;
        assert u.stock[p] == t.stock[p] + Refund(t.ledger, o, p);
      }
    }
  }

  /**
    Confirm followed by cancel gives every product back what the
    confirmation took: the final stock is the pre-confirm stock plus what
    the order still owed before (nothing, for an order never confirmed).
  */
  lemma ConfirmThenCancel(s: State, o: OrderId)
    requires Valid(s) && Confirm(s, o).Ok?
    ensures var t := Confirm(s, o).value;
      && Cancel(t, o).Ok?
      && (forall p | p in s.stock :: Cancel(t, o).value.stock[p] == s.stock[p] + Owed(s.ledger, o, p))
  {
    var t := Confirm(s, o).value;
    ConfirmPreservesValid(s, o);
    CancelSucceeds(t, o);
    CancelAfterConfirm(s, o);
  }

  /**
    Confirming a draft (or a cancelled order, since confirmation ignores the
    status) and then cancelling it restores the stock exactly: such an order
    owes nothing beforehand.
  */
  lemma ConfirmThenCancelRestores(s: State, o: OrderId)
    requires Valid(s) && Confirm(s, o).Ok? && Idle(s.orders[o].status)
    ensures Cancel(Confirm(s, o).value, o).Ok?
    ensures Cancel(Confirm(s, o).value, o).value.stock == s.stock
  {
    assert forall p :: Owed(s.ledger, o, p) == 0;
    ConfirmThenCancel(s, o);
    var t := Confirm(s, o).value;
    var u := Cancel(t, o).value;
    assert u.stock.Keys == t.stock.Keys == s.stock.Keys;
    SameStock(u.stock, s.stock);
  }

  lemma SameStock(a: map<ProductId, int>, b: map<ProductId, int>)
    requires a.Keys == b.Keys && forall p | p in a :: a[p] == b[p]
    ensures a == b
  {
  }

  // ---------------------------------------------------------------------
  // concluir_pedido
  // ---------------------------------------------------------------------

  lemma ConcludePreservesValid(s: State, o: OrderId, now: int)
    requires Valid(s) && Conclude(s, o, now).Ok?
    ensures Valid(Conclude(s, o, now).value)
  {
    var t := Conclude(s, o, now).value;
    forall o' | o' in t.orders
      ensures OrderValid(t.orders[o'], t.stock)
    {
      assert OrderValid(s.orders[o'], s.stock);
    }
  }

  // ---------------------------------------------------------------------
  // Ledger conservation and runs of service calls
  // ---------------------------------------------------------------------

  /** Stock on hand plus what the ledger says is out: constant for every product. */
  function Level(s: State, p: ProductId): int
    requires p in s.stock
  {
    s.stock[p] + Moved(s.ledger, p, Saida) - Moved(s.ledger, p, Estorno)
  }

  /** One service call, as the caller sees it: on failure the transaction rolls back. */
  datatype Call =
    | ConfirmCall(o: OrderId)
    | ConcludeCall(o: OrderId, now: int)
    | CancelCall(o: OrderId)          // cancelar_pedido with its reconciliation running
    | CancelAsWrittenCall(o: OrderId) // cancelar_pedido as written, stopped by the NameError

  function Apply(s: State, c: Call): Result<State, Error>
  {
    match c
    case ConfirmCall(o) => Confirm(s, o)
    case ConcludeCall(o, now) => Conclude(s, o, now)
    case CancelCall(o) => Cancel(s, o)
    case CancelAsWrittenCall(o) => CancelAsWritten(s, o)
  }

  function Step(s: State, c: Call): State
  {
    match Apply(s, c)
    case Ok(t) => t
    case Err(_) => s
  }

  function Run(s: State, calls: seq<Call>): State
  {
    if |calls| == 0 then s else Step(Run(s, calls[..|calls| - 1]), calls[|calls| - 1])
  }

  /** Every service call keeps the invariant, the products, every product's Level, and appends to the ledger. */
  lemma StepPreserves(s: State, c: Call)
    requires Valid(s)
    ensures var t := Step(s, c);
      && Valid(t)
      && t.stock.Keys == s.stock.Keys
      && s.ledger <= t.ledger
      && forall p | p in s.stock :: Level(t, p) == Level(s, p)
  {
    match c
    case ConfirmCall(o) =>
      if Confirm(s, o).Ok? {
        ConfirmPreservesValid(s, o);
        ConfirmTotals(s, o);
      }
    case ConcludeCall(o, now) =>
      if Conclude(s, o, now).Ok? {
        ConcludePreservesValid(s, o, now);
      }
    case CancelCall(o) =>
      if Cancel(s, o).Ok? {
        CancelPreservesValid(s, o);
        CancelTotals(s, o);
      }
    case CancelAsWrittenCall(o) =>
      if CancelAsWritten(s, o).Ok? {
        CancelPreservesValid(s, o);
        CancelTotals(s, o);
      }
  }

  /**
    No oversell over any sequence of calls: stock stays non-negative, the
    ledger only grows, and the net quantity the ledger records as gone out
    never exceeds the stock there was at the start.
  */
  lemma {:induction false} RunNoOversell(s: State, calls: seq<Call>)
    requires Valid(s)
    ensures var t := Run(s, calls);
      && Valid(t)
      && t.stock.Keys == s.stock.Keys
      && s.ledger <= t.ledger
      && (forall p | p in s.stock :: t.stock[p] >= 0 && Level(t, p) == Level(s, p))
      && (forall p | p in s.stock ::
            (Moved(t.ledger, p, Saida) - Moved(s.ledger, p, Saida))
            - (Moved(t.ledger, p, Estorno) - Moved(s.ledger, p, Estorno)) <= s.stock[p])
    decreases |calls|
  {
    if |calls| > 0 {
      var mid := Run(s, calls[..|calls| - 1]);
      RunNoOversell(s, calls[..|calls| - 1]);
      StepPreserves(mid, calls[|calls| - 1]);
    }
  }

  /** Every order's stored total is the sum of its lines (Pedido.recalcular_total). */
  predicate TotalsConsistent(s: State)
  {
    forall o | o in s.orders :: TotalConsistent(s.orders[o])
  }

  /**
    No service call breaks an order's total: an order whose total matched
    its lines still does afterwards, and a confirmed order's total is
    recalculated whatever it was.
  */
  lemma StepKeepsTotals(s: State, c: Call)
    ensures var t := Step(s, c);
      && t.orders.Keys == s.orders.Keys
      && (forall o | o in s.orders && TotalConsistent(s.orders[o]) :: TotalConsistent(t.orders[o]))
      && (c.ConfirmCall? && Confirm(s, c.o).Ok? ==> TotalConsistent(t.orders[c.o]))
  {
  }

  /** Over any sequence of service calls, every order's total keeps matching its lines. */
  lemma {:induction false} RunKeepsTotals(s: State, calls: seq<Call>)
    requires TotalsConsistent(s)
    ensures Run(s, calls).orders.Keys == s.orders.Keys
    ensures TotalsConsistent(Run(s, calls))
    decreases |calls|
  {
    if |calls| > 0 {
      RunKeepsTotals(s, calls[..|calls| - 1]);
      StepKeepsTotals(Run(s, calls[..|calls| - 1]), calls[|calls| - 1]);
    }
  }

  // ---------------------------------------------------------------------
  // The source's cancel, as written
  // ---------------------------------------------------------------------

  /**
    With the NameError, an order that was confirmed can never be cancelled:
    cancel fails and the stock its lines took stays debited.
  */
  lemma CancelAsWrittenStrandsStock(s: State, o: OrderId)
    requires Valid(s) && Confirm(s, o).Ok?
    ensures var t, p := Confirm(s, o).value, s.orders[o].lines[0].product;
      && CancelAsWritten(t, o) == Err(SumUndefined)
      && p in s.stock && t.stock[p] < s.stock[p]
  {
    ConfirmDebitsEachLine(s, o);
    assert OrderValid(s.orders[o], s.stock);
  }

  /** A run of the services as written: cancellation only ever goes through the NameError path. */
  predicate AsWritten(calls: seq<Call>)
  {
    forall i | 0 <= i < |calls| :: !calls[i].CancelCall?
  }

  /**
    One call of the services as written keeps an order that is in the
    kitchen or completed in one of those two statuses, and writes no
    ESTORNO entry for any product.
  */
  lemma StepAsWrittenKeepsOut(s: State, c: Call, o: OrderId)
    requires !c.CancelCall?
    requires o in s.orders && Reconciles(s.orders[o].status)
    ensures var t := Step(s, c);
      && o in t.orders && Reconciles(t.orders[o].status)
      && forall p :: Moved(t.ledger, p, Estorno) == Moved(s.ledger, p, Estorno)
  {
    match c
    case ConfirmCall(o') =>
      if Confirm(s, o').Ok? {
        ConfirmTotals(s, o');
      }
    case ConcludeCall(o', now) =>
    case CancelAsWrittenCall(o') =>
  }

  /**
    Under the services as written, an order that has reached the kitchen
    is never cancelled, whatever calls follow, and no stock ever comes back
    through an ESTORNO entry.
  */
  lemma {:induction false} RunAsWrittenNeverCancels(s: State, calls: seq<Call>, o: OrderId)
    requires AsWritten(calls)
    requires o in s.orders && Reconciles(s.orders[o].status)
    ensures var t := Run(s, calls);
      && o in t.orders && Reconciles(t.orders[o].status) && t.orders[o].status != Cancelado
      && forall p :: Moved(t.ledger, p, Estorno) == Moved(s.ledger, p, Estorno)
    decreases |calls|
  {
    if |calls| > 0 {
      var init := calls[..|calls| - 1];
      assert AsWritten(init) by {
        forall i | 0 <= i < |init|
          ensures !init[i].CancelCall?
        {
          assert init[i] == calls[i];
        }
      }
      RunAsWrittenNeverCancels(s, init, o);
      StepAsWrittenKeepsOut(Run(s, init), calls[|calls| - 1], o);
    }
  }
}
