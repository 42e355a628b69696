/**
  The three services of pedidos/services.py as transitions of the whole
  state. Each service runs in one database transaction, so it either
  commits a new state (Ok) or raises, and then nothing it did is kept (Err,
  and the caller's state stands). Row locks only serialise concurrent calls;
  here every call is one atomic step.
*/
module Services {
  import opened Wrappers
  import opened Models
  import opened Ledger

  // ---------------------------------------------------------------------
  // The invariant that sequences of the three services keep (direct edits
  // through the admin or the views are outside the model and can break it)
  // ---------------------------------------------------------------------

  /** Field and line rules of one order: a number, positive quantities, one line per product, existing products. */
  predicate OrderValid(ord: Order, stock: map<ProductId, int>)
  {
    && ord.number != ""
    && LinesDistinct(ord.lines)
    && (forall i | 0 <= i < |ord.lines| :: ord.lines[i].quantity > 0 && ord.lines[i].product in stock)
  }

  /** Every order ever returns at most what it took, per product. */
  ghost predicate NoOverRefund(l: seq<Movement>)
  {
    forall o, p :: Total(l, o, p, Estorno) <= Total(l, o, p, Saida)
  }

  /** The statuses in which an order holds no stock: a draft, or a cancelled order. */
  predicate Idle(st: Status)
  {
    st == Rascunho || st == Cancelado
  }

  /**
    A draft or cancelled order owes nothing back: for every product its
    ESTORNO entries balance its SAIDA entries. Only confirmar_pedido writes
    SAIDA, and it leaves the draft state; cancelar_pedido settles the order
    as it cancels it.
  */
  ghost predicate Settled(s: State)
  {
    forall o, p | o in s.orders && Idle(s.orders[o].status) :: Owed(s.ledger, o, p) == 0
  }

  /**
    Stock is never negative (PositiveIntegerField), orders satisfy their
    rules, ledger entries name existing products, tickets belong to orders,
    no order has been refunded more than it was debited, and draft or
    cancelled orders owe nothing.
  */
  ghost predicate Valid(s: State)
  {
    && (forall p | p in s.stock :: s.stock[p] >= 0)
    && (forall o | o in s.orders :: OrderValid(s.orders[o], s.stock))
    && (forall i | 0 <= i < |s.ledger| :: s.ledger[i].product in s.stock)
    && s.tickets <= s.orders.Keys
    && NoOverRefund(s.ledger)
    && Settled(s)
  }

  // ---------------------------------------------------------------------
  // concluir_pedido
  // ---------------------------------------------------------------------

  /** concluir_pedido: ENVIADO_COZINHA -> CONCLUIDO, stamping the completion time `now`. */
  function Conclude(s: State, o: OrderId, now: int): (r: Result<State, Error>)
    ensures o !in s.orders ==> r == Err(NotFound)
    ensures o in s.orders ==> (r.Ok? <==> s.orders[o].status == EnviadoCozinha)
    ensures o in s.orders && r.Err? ==> r.error == InvalidTransition(s.orders[o].status)
    ensures r.Ok? ==> r.value.stock == s.stock && r.value.ledger == s.ledger && r.value.tickets == s.tickets
    ensures r.Ok? ==> r.value.orders == s.orders[o := s.orders[o].(status := Concluido, finishedAt := Some(now))]
  {
    if o !in s.orders then Err(NotFound)
    else
      var ord := s.orders[o];
      if ord.status != EnviadoCozinha then Err(InvalidTransition(ord.status))
      else Ok(s.(orders := s.orders[o := ord.(status := Concluido, finishedAt := Some(now))]))
  }

  // ---------------------------------------------------------------------
  // confirmar_pedido
  // ---------------------------------------------------------------------

  /** Every line's product exists and has at least the line's quantity in stock. */
  predicate Covered(stock: map<ProductId, int>, lines: seq<Line>)
  {
    forall i | 0 <= i < |lines| :: lines[i].product in stock && lines[i].quantity <= stock[lines[i].product]
  }

  /** `e` is the error the check loop raises for a line it cannot cover. */
  predicate FailsOn(stock: map<ProductId, int>, ln: Line, e: Error)
  {
    if ln.product !in stock then e == NotFound
    else ln.quantity > stock[ln.product] && e == InsufficientStock(ln.product, ln.quantity, stock[ln.product])
  }

  /**
    The check loop of confirmar_pedido: None when every line is covered,
    otherwise the error for the FIRST line that is not.
  */
  function Shortage(stock: map<ProductId, int>, lines: seq<Line>): (r: Option<Error>)
    ensures r.None? <==> Covered(stock, lines)
    ensures r.Some? ==> exists i | 0 <= i < |lines| :: Covered(stock, lines[..i]) && FailsOn(stock, lines[i], r.value)
  {
    if |lines| == 0 then None
    else
      var init, ln := lines[..|lines| - 1], lines[|lines| - 1];
      assert forall i | 0 <= i < |init| :: init[i] == lines[i];
      assert forall i | 0 <= i <= |init| :: lines[..i] == init[..i];
      match Shortage(stock, init)
      case Some(e) => Some(e)
      case None =>
        if ln.product !in stock then Some(NotFound)
        else if ln.quantity > stock[ln.product] then Some(InsufficientStock(ln.product, ln.quantity, stock[ln.product]))
        else None
  }

  /**
    The debit loop of confirmar_pedido: line by line, the product's stock
    drops by the line's quantity and one SAIDA entry is appended.
  */
  function Debit(s: State, o: OrderId, lines: seq<Line>): (r: State)
    requires forall i | 0 <= i < |lines| :: lines[i].product in s.stock
    ensures r.stock.Keys == s.stock.Keys
    ensures forall p | p in s.stock :: r.stock[p] == s.stock[p] - LineQty(lines, p)
    ensures r.ledger == s.ledger + SaidaEntries(o, lines)
    ensures r.orders == s.orders && r.tickets == s.tickets
  {
    if |lines| == 0 then s
    else
      var init, ln := lines[..|lines| - 1], lines[|lines| - 1];
      var s1 := Debit(s, o, init);
      assert SaidaEntries(o, lines) == SaidaEntries(o, init) + [Movement(ln.product, o, Saida, ln.quantity)];
      s1.(stock := s1.stock[ln.product := s1.stock[ln.product] - ln.quantity],
          ledger := s1.ledger + [Movement(ln.product, o, Saida, ln.quantity)])
  }

  /**
    confirmar_pedido: rejects an order without lines, checks every line
    against stock before debiting any, then debits, recalculates the total,
    marks the order ENVIADO_COZINHA and makes sure it has a kitchen ticket.
    The order's status is not checked.
  */
  function Confirm(s: State, o: OrderId): (r: Result<State, Error>)
    ensures o !in s.orders ==> r == Err(NotFound)
    ensures o in s.orders && |s.orders[o].lines| == 0 ==> r == Err(EmptyOrder)
    ensures r.Ok? <==> o in s.orders && |s.orders[o].lines| > 0 && Covered(s.stock, s.orders[o].lines)
    ensures r.Err? && o in s.orders && |s.orders[o].lines| > 0 ==>
      var lines := s.orders[o].lines;
      exists i | 0 <= i < |lines| :: Covered(s.stock, lines[..i]) && FailsOn(s.stock, lines[i], r.error)
    ensures r.Ok? ==>
      var lines := s.orders[o].lines;
      && r.value.stock.Keys == s.stock.Keys
      && (forall p | p in s.stock :: r.value.stock[p] == s.stock[p] - LineQty(lines, p))
      && r.value.ledger == s.ledger + SaidaEntries(o, lines)
      && r.value.orders == s.orders[o := s.orders[o].(status := EnviadoCozinha, total := LinesTotal(lines))]
      && r.value.tickets == s.tickets + {o}
  {
    if o !in s.orders then Err(NotFound)
    else
      var ord := s.orders[o];
      if |ord.lines| == 0 then Err(EmptyOrder)
      else
        match Shortage(s.stock, ord.lines)
        case Some(e) => Err(e)
        case None =>
          var s1 := Debit(s, o, ord.lines);
          Ok(s1.(orders := s1.orders[o := RecalculateTotal(ord).(status := EnviadoCozinha)],
                 tickets := s1.tickets + {o}))
  }

  // ---------------------------------------------------------------------
  // cancelar_pedido
  // ---------------------------------------------------------------------

  /**
    One round of the reconciliation loop, for product `p`: a positive amount
    owed (computed from the ledger `l0`) is credited to the product and
    recorded as one ESTORNO entry; a product that no longer exists fails the
    `.get`.
  */
  function ReconcileOne(s: State, l0: seq<Movement>, o: OrderId, p: ProductId): (r: Result<State, Error>)
    ensures r.Err? <==> Refund(l0, o, p) > 0 && p !in s.stock
    ensures r.Err? ==> r.error == NotFound
    ensures r.Ok? ==> r.value.stock.Keys == s.stock.Keys
    ensures r.Ok? ==> forall q | q in s.stock :: (r.value.stock[q] == s.stock[q] + if q == p then Refund(l0, o, p) else 0)
    ensures r.Ok? ==> r.value.ledger == s.ledger + RefundEntry(l0, o, p)
    ensures r.Ok? ==> r.value.orders == s.orders && r.value.tickets == s.tickets
  {
    var owed := Owed(l0, o, p);
    if owed > 0 then
      if p !in s.stock then Err(NotFound)
      else Ok(s.(stock := s.stock[p := s.stock[p] + owed], ledger := s.ledger + [Movement(p, o, Estorno, owed)]))
    else Ok(s)
  }

  /**
    The reconciliation loop of cancelar_pedido over the grouped SAIDA rows
    `ps`: every product is credited what it is owed, computed from the ledger
    `l0` as read before the loop, with one ESTORNO entry each.
  */
  function Reconcile(s: State, l0: seq<Movement>, o: OrderId, ps: seq<ProductId>): (r: Result<State, Error>)
    requires Distinct(ps)
    ensures r.Err? <==> exists i | 0 <= i < |ps| :: Refund(l0, o, ps[i]) > 0 && ps[i] !in s.stock
    ensures r.Err? ==> r.error == NotFound
    ensures r.Ok? ==> r.value.stock.Keys == s.stock.Keys
    ensures r.Ok? ==> forall p | p in s.stock :: r.value.stock[p] == s.stock[p] + Credit(l0, o, ps, p)
    ensures r.Ok? ==> r.value.ledger == s.ledger + RefundEntries(l0, o, ps)
    ensures r.Ok? ==> r.value.orders == s.orders && r.value.tickets == s.tickets
  {
    if |ps| == 0 then Ok(s)
    else
      var init, p := ps[..|ps| - 1], ps[|ps| - 1];
      assert forall i | 0 <= i < |init| :: init[i] == ps[i];
      assert p !in init;
      assert Distinct(init);
      assert forall q :: Credit(l0, o, ps, q) == Credit(l0, o, init, q) + if q == p then Refund(l0, o, p) else 0;
      assert RefundEntries(l0, o, ps) == RefundEntries(l0, o, init) + RefundEntry(l0, o, p);
      match Reconcile(s, l0, o, init)
      case Err(e) => Err(e)
      case Ok(s1) =>
        assert s.ledger + RefundEntries(l0, o, ps) == s1.ledger + RefundEntry(l0, o, p);
        ReconcileOne(s1, l0, o, p)
  }

  /** The statuses for which cancelar_pedido takes the reconciliation path. */
  predicate Reconciles(st: Status)
  {
    st == EnviadoCozinha || st == Concluido
  }

  /**
    cancelar_pedido with its reconciliation running: a cancelled order is
    left alone, a draft only changes status, and any other order (sent to
    the kitchen or completed) gets back, per product, whatever its SAIDA
    entries took and its ESTORNO entries have not yet returned.
  */
  function Cancel(s: State, o: OrderId): (r: Result<State, Error>)
    ensures o !in s.orders ==> r == Err(NotFound)
    ensures o in s.orders && s.orders[o].status == Cancelado ==> r == Ok(s)
    ensures o in s.orders && s.orders[o].status == Rascunho ==>
      r == Ok(s.(orders := s.orders[o := s.orders[o].(status := Cancelado)]))
    ensures r.Ok? ==> r.value.orders == s.orders[o := s.orders[o].(status := Cancelado)]
    ensures r.Ok? ==> r.value.tickets == s.tickets && r.value.stock.Keys == s.stock.Keys
    ensures r.Ok? ==> forall p | p in s.stock ::
      (r.value.stock[p] == s.stock[p] + if Reconciles(s.orders[o].status) then Refund(s.ledger, o, p) else 0)
    ensures r.Ok? && Reconciles(s.orders[o].status) ==>
      r.value.ledger == s.ledger + RefundEntries(s.ledger, o, DebitedProducts(s.ledger, o))
    ensures r.Ok? && !Reconciles(s.orders[o].status) ==> r.value.ledger == s.ledger
    ensures o in s.orders && Reconciles(s.orders[o].status) ==>
      (r.Err? <==> exists p :: Refund(s.ledger, o, p) > 0 && p !in s.stock)
    ensures r.Err? ==> r.error == NotFound
  {
    if o !in s.orders then Err(NotFound)
    else
      var ord := s.orders[o];
      if ord.status == Cancelado then
        assert s.orders[o := ord.(status := Cancelado)] == s.orders;
        Ok(s)
      else if ord.status == Rascunho then Ok(s.(orders := s.orders[o := ord.(status := Cancelado)]))
      else
        var ps := DebitedProducts(s.ledger, o);
        assert ord.status == EnviadoCozinha || ord.status == Concluido;
        assert forall p :: Credit(s.ledger, o, ps, p) == Refund(s.ledger, o, p) by {
          forall p | Refund(s.ledger, o, p) > 0
            ensures p in ps
          {
            OwedIsDebited(s.ledger, o, p);
          }
        }
        match Reconcile(s, s.ledger, o, ps)
        case Err(e) => Err(e)
        case Ok(s1) =>
          assert forall p | p in s.stock :: s1.stock[p] == s.stock[p] + Refund(s.ledger, o, p);
          Ok(s1.(orders := s1.orders[o := ord.(status := Cancelado)]))
  }

  /**
    cancelar_pedido as written: the module imports F but not Sum, so the
    grouped query raises NameError before any stock moves, and every
    ENVIADO_COZINHA or CONCLUIDO order fails to cancel. A missing order, a
    draft and a cancelled order take the paths before the query and behave
    as in Cancel.
  */
  function CancelAsWritten(s: State, o: OrderId): (r: Result<State, Error>)
    ensures r.Ok? ==> r == Cancel(s, o)
    ensures o !in s.orders ==> r == Err(NotFound)
    ensures o in s.orders && !Reconciles(s.orders[o].status) ==> r == Cancel(s, o)
    ensures o in s.orders && Reconciles(s.orders[o].status) ==> r == Err(SumUndefined)
  {
    if o !in s.orders then Err(NotFound)
    else
      var ord := s.orders[o];
      if ord.status == Cancelado then Ok(s)
      else if ord.status == Rascunho then Ok(s.(orders := s.orders[o := ord.(status := Cancelado)]))
      else Err(SumUndefined)
  }
}
