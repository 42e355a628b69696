/**
  The data rules of pedidos/models.py: products' stock, orders and their
  lines, stock movements and kitchen tickets, plus the order-level rules
  (line validation, one line per product, total, number assignment).

  Prices and totals are integer cents; the source's DecimalFields hold two
  decimal places, so nothing is lost. Like those fields, they carry no
  lower bound.
*/
module Models {
  import opened Wrappers
  import Numbering

  type ProductId = nat
  type OrderId = nat

  /** Pedido.Status. */
  datatype Status = Rascunho | EnviadoCozinha | Concluido | Cancelado

  /** MovimentoEstoque.Tipo, without ENTRADA, which nothing produces. */
  datatype Kind = Saida | Estorno

  /** PedidoItem: a product, a quantity and the unit price captured at creation. */
  datatype Line = Line(product: ProductId, quantity: nat, unitPrice: int)

  /** Pedido. `finishedAt` is finalizado_em, set when the order is completed. */
  datatype Order = Order(
    number: string,
    status: Status,
    lines: seq<Line>,
    total: int,
    finishedAt: Option<int>)

  /** MovimentoEstoque: a ledger entry for one product, caused by one order. */
  datatype Movement = Movement(product: ProductId, order: OrderId, kind: Kind, quantity: nat)

  /**
    The whole database as the services see it: Produto.estoque per product,
    the orders, the append-only ledger and the orders with a ComandaCozinha.
    Stock is an `int` so that "never negative" is something to prove.
  */
  datatype State = State(
    stock: map<ProductId, int>,
    orders: map<OrderId, Order>,
    ledger: seq<Movement>,
    tickets: set<OrderId>)

  /** The conditions the services and models raise, one constructor each. */
  datatype Error =
    | NotFound                       // DoesNotExist from .get(pk=...)
    | EmptyOrder                     // "Pedido sem itens."
    | InsufficientStock(product: ProductId, requested: nat, available: int)
    | InvalidTransition(status: Status)
    | InvalidQuantity(quantity: int) // PedidoItem.clean
    | DuplicateLine(product: ProductId) // unique_together (pedido, produto)
    | SumUndefined                   // NameError: `Sum` is not imported by the services

  // ---------------------------------------------------------------------
  // Stored codes of the two enumerations
  // ---------------------------------------------------------------------

  function StatusCode(s: Status): string
  {
    match s
    case Rascunho => "RASC"
    case EnviadoCozinha => "ENVC"
    case Concluido => "CONC"
    case Cancelado => "CANC"
  }

  /** Reads a stored status code; unknown codes are rejected. */
  function ParseStatus(code: string): (r: Option<Status>)
    ensures r.Some? ==> StatusCode(r.value) == code
    ensures forall s: Status :: StatusCode(s) == code ==> r == Some(s)
  {
    if code == "RASC" then Some(Rascunho)
    else if code == "ENVC" then Some(EnviadoCozinha)
    else if code == "CONC" then Some(Concluido)
    else if code == "CANC" then Some(Cancelado)
    else None
  }

  function KindCode(k: Kind): string
  {
    match k
    case Saida => "SAIDA"
    case Estorno => "ESTORNO"
  }

  function ParseKind(code: string): (r: Option<Kind>)
    ensures r.Some? ==> KindCode(r.value) == code
    ensures forall k: Kind :: KindCode(k) == code ==> r == Some(k)
  {
    if code == "SAIDA" then Some(Saida)
    else if code == "ESTORNO" then Some(Estorno)
    else None
  }

  // ---------------------------------------------------------------------
  // Lines
  // ---------------------------------------------------------------------

  /**
    PedidoItem.clean together with construction: a quantity of zero or less
    is rejected, anything else yields the line.
  */
  function CleanLine(product: ProductId, quantity: int, unitPrice: int): (r: Result<Line, Error>)
    ensures r.Ok? <==> quantity > 0
    ensures r.Ok? ==> r.value.product == product && r.value.quantity == quantity && r.value.unitPrice == unitPrice
    ensures r.Err? ==> r.error == InvalidQuantity(quantity)
  {
    if quantity <= 0 then Err(InvalidQuantity(quantity)) else Ok(Line(product, quantity, unitPrice))
  }

  predicate HasLine(lines: seq<Line>, p: ProductId)
  {
    exists i | 0 <= i < |lines| :: lines[i].product == p
  }

  /** unique_together (pedido, produto): at most one line per product. */
  predicate LinesDistinct(lines: seq<Line>)
  {
    forall i, j | 0 <= i < j < |lines| :: lines[i].product != lines[j].product
  }

  /**
    Saving a new line into an order: the database refuses a second line for
    a product the order already has.
  */
  function AddLine(o: Order, ln: Line): (r: Result<Order, Error>)
    ensures r.Err? <==> HasLine(o.lines, ln.product)
    ensures r.Err? ==> r.error == DuplicateLine(ln.product)
    ensures r.Ok? ==> r.value == o.(lines := o.lines + [ln])
    ensures r.Ok? && LinesDistinct(o.lines) ==> LinesDistinct(r.value.lines)
  {
    if HasLine(o.lines, ln.product) then Err(DuplicateLine(ln.product))
    else Ok(o.(lines := o.lines + [ln]))
  }

  // ---------------------------------------------------------------------
  // Totals
  // ---------------------------------------------------------------------

  /** The sum of quantity times unit price over the lines, 0 for none. */
  function LinesTotal(lines: seq<Line>): int
  {
    if |lines| == 0 then 0
    else LinesTotal(lines[..|lines| - 1]) + lines[|lines| - 1].quantity * lines[|lines| - 1].unitPrice
  }

  lemma {:induction false} LinesTotalConcat(a: seq<Line>, b: seq<Line>)
    ensures LinesTotal(a + b) == LinesTotal(a) + LinesTotal(b)
    decreases |b|
  {
    if |b| > 0 {
      assert (a + b)[..|a + b| - 1] == a + b[..|b| - 1];
      assert (a + b)[|a + b| - 1] == b[|b| - 1];
      LinesTotalConcat(a, b[..|b| - 1]);
    } else {
      assert a + b == a;
    }
  }

  /** The total depends on which lines there are, not on their order. */
  lemma {:induction false} LinesTotalPermutation(a: seq<Line>, b: seq<Line>)
    requires multiset(a) == multiset(b)
    ensures LinesTotal(a) == LinesTotal(b)
    decreases |a|
  {
    if |a| > 0 {
      var last := a[|a| - 1];
      assert a == a[..|a| - 1] + [last];
      assert last in multiset(b);
      var k :| 0 <= k < |b| && b[k] == last;
      assert b == b[..k] + [last] + b[k + 1..];
      var rest := b[..k] + b[k + 1..];
      assert multiset(a[..|a| - 1]) == multiset(rest) by {
        assert multiset(a) == multiset(a[..|a| - 1]) + multiset([last]);
        assert multiset(b) == multiset(b[..k]) + multiset([last]) + multiset(b[k + 1..]);
        assert multiset(rest) == multiset(b[..k]) + multiset(b[k + 1..]);
        assert multiset(a[..|a| - 1]) == multiset(a) - multiset([last]);
        assert multiset(rest) == multiset(b) - multiset([last]);
      }
      LinesTotalPermutation(a[..|a| - 1], rest);
      LinesTotalConcat(b[..k] + [last], b[k + 1..]);
      LinesTotalConcat(b[..k], [last]);
      LinesTotalConcat(b[..k], b[k + 1..]);
      assert LinesTotal([last]) == last.quantity * last.unitPrice by {
        assert [last][..0] == [];
      }
    } else {
      assert b == [];
    }
  }

  predicate TotalConsistent(o: Order)
  {
    o.total == LinesTotal(o.lines)
  }

  /** Pedido.recalcular_total. */
  function RecalculateTotal(o: Order): Order
  {
    o.(total := LinesTotal(o.lines))
  }

  /** Recalculating makes the total consistent, changes nothing else, and a second time changes nothing. */
  lemma RecalculateTotalSpec(o: Order)
    ensures TotalConsistent(RecalculateTotal(o))
    ensures RecalculateTotal(o).(total := o.total) == o
    ensures RecalculateTotal(RecalculateTotal(o)) == RecalculateTotal(o)
    ensures TotalConsistent(o) ==> RecalculateTotal(o) == o
  {
  }

  /** Adding a line and recalculating raises the total by that line's subtotal. */
  lemma AddLineTotal(o: Order, ln: Line)
    requires !HasLine(o.lines, ln.product)
    ensures AddLine(o, ln).Ok?
    ensures RecalculateTotal(AddLine(o, ln).value).total == LinesTotal(o.lines) + ln.quantity * ln.unitPrice
  {
    assert (o.lines + [ln])[..|o.lines|] == o.lines;
  }

  // ---------------------------------------------------------------------
  // Creation and numbering
  // ---------------------------------------------------------------------

  /**
    Pedido.save's numbering step: a number is assigned only when the order
    has none, and an assigned number is never changed. The number comes from
    the per-day generator with the numeric greatest suffix (see Numbering).
  */
  function Save(o: Order, today: string, existing: seq<string>): (r: Order)
    requires Numbering.IsDayStamp(today)
    ensures o.number != "" ==> r == o
    ensures o.number == "" ==> r == o.(number := r.number)
    ensures o.number == "" ==> r.number !in existing && today + "-" <= r.number
    ensures r.number != ""
  {
    if o.number == "" then o.(number := Numbering.NextNumber(today, existing)) else o
  }

  /** A freshly created order: a draft with no lines, total 0 and a fresh number. */
  function NewOrder(today: string, existing: seq<string>): (r: Order)
    requires Numbering.IsDayStamp(today)
    ensures r.status == Rascunho && r.lines == [] && r.total == 0 && r.finishedAt == None
    ensures r.number != "" && r.number !in existing
    ensures TotalConsistent(r)
  {
    Save(Order("", Rascunho, [], 0, None), today, existing)
  }
}
