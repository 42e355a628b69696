/**
  The stock ledger (MovimentoEstoque) as a sequence of entries, and the sums
  the services take over it: per order and product (the grouped aggregates
  of pedidos/services.py) and per product over all orders.
*/
module Ledger {
  import opened Models

  predicate Matches(m: Movement, o: OrderId, p: ProductId, k: Kind)
  {
    m.order == o && m.product == p && m.kind == k
  }

  /** Σ quantity over the entries of order `o`, product `p` and kind `k`. */
  function Total(l: seq<Movement>, o: OrderId, p: ProductId, k: Kind): nat
  {
    if |l| == 0 then 0
    else Total(l[..|l| - 1], o, p, k) + (if Matches(l[|l| - 1], o, p, k) then l[|l| - 1].quantity else 0)
  }

  /** Σ quantity over the entries of product `p` and kind `k`, whatever their order. */
  function Moved(l: seq<Movement>, p: ProductId, k: Kind): nat
  {
    if |l| == 0 then 0
    else
      var m := l[|l| - 1];
      Moved(l[..|l| - 1], p, k) + (if m.product == p && m.kind == k then m.quantity else 0)
  }

  lemma {:induction false} TotalConcat(a: seq<Movement>, b: seq<Movement>)
    ensures forall o, p, k :: Total(a + b, o, p, k) == Total(a, o, p, k) + Total(b, o, p, k)
    decreases |b|
  {
    if |b| == 0 {
      assert a + b == a;
    } else {
      assert (a + b)[..|a + b| - 1] == a + b[..|b| - 1];
      assert (a + b)[|a + b| - 1] == b[|b| - 1];
      TotalConcat(a, b[..|b| - 1]);
    }
  }

  lemma {:induction false} MovedConcat(a: seq<Movement>, b: seq<Movement>)
    ensures forall p, k :: Moved(a + b, p, k) == Moved(a, p, k) + Moved(b, p, k)
    decreases |b|
  {
    if |b| == 0 {
      assert a + b == a;
    } else {
      assert (a + b)[..|a + b| - 1] == a + b[..|b| - 1];
      assert (a + b)[|a + b| - 1] == b[|b| - 1];
      MovedConcat(a, b[..|b| - 1]);
    }
  }

  /** For entries of a single order, the all-orders sum is that order's sum. */
  lemma {:induction false} MovedOfOneOrder(l: seq<Movement>, o: OrderId)
    requires forall i | 0 <= i < |l| :: l[i].order == o
    ensures forall p, k :: Moved(l, p, k) == Total(l, o, p, k)
    decreases |l|
  {
    if |l| > 0 {
      MovedOfOneOrder(l[..|l| - 1], o);
    }
  }

  // ---------------------------------------------------------------------
  // What an order still owes back
  // ---------------------------------------------------------------------

  /** ΣSAIDA − ΣESTORNO of order `o` for product `p`: stock taken and not yet returned. */
  function Owed(l: seq<Movement>, o: OrderId, p: ProductId): int
  {
    Total(l, o, p, Saida) - Total(l, o, p, Estorno)
  }

  /** The amount a reconciliation credits back: max(0, Owed). */
  function Refund(l: seq<Movement>, o: OrderId, p: ProductId): nat
  {
    if Owed(l, o, p) > 0 then Owed(l, o, p) else 0
  }

  predicate HasSaida(l: seq<Movement>, o: OrderId, p: ProductId)
  {
    exists i | 0 <= i < |l| :: Matches(l[i], o, p, Saida)
  }

  lemma {:induction false} PositiveSaidaHasEntry(l: seq<Movement>, o: OrderId, p: ProductId)
    requires Total(l, o, p, Saida) > 0
    ensures HasSaida(l, o, p)
    decreases |l|
  {
    if !Matches(l[|l| - 1], o, p, Saida) {
      PositiveSaidaHasEntry(l[..|l| - 1], o, p);
      var i :| 0 <= i < |l| - 1 && Matches(l[..|l| - 1][i], o, p, Saida);
      assert Matches(l[i], o, p, Saida);
    }
  }

  predicate Distinct(ps: seq<ProductId>)
  {
    forall i, j | 0 <= i < j < |ps| :: ps[i] != ps[j]
  }

  /**
    The products of order `o`'s SAIDA entries, each once, in order of first
    appearance: the rows of the grouped SAIDA query of cancelar_pedido.
  */
  function DebitedProducts(l: seq<Movement>, o: OrderId): (ps: seq<ProductId>)
    ensures Distinct(ps)
    ensures forall p :: p in ps <==> HasSaida(l, o, p)
  {
    if |l| == 0 then []
    else
      var init, m := l[..|l| - 1], l[|l| - 1];
      var ps := DebitedProducts(init, o);
      assert forall p :: HasSaida(l, o, p) <==> HasSaida(init, o, p) || Matches(m, o, p, Saida) by {
        forall p | HasSaida(l, o, p) && !Matches(m, o, p, Saida)
          ensures HasSaida(init, o, p)
        {
          var i :| 0 <= i < |l| && Matches(l[i], o, p, Saida);
          assert init[i] == l[i];
        }
        forall p | HasSaida(init, o, p)
          ensures HasSaida(l, o, p)
        {
          var i :| 0 <= i < |init| && Matches(init[i], o, p, Saida);
          assert l[i] == init[i];
        }
      }
      if m.order == o && m.kind == Saida && m.product !in ps then ps + [m.product] else ps
  }

  /** Every product with something owed appears among the debited products. */
  lemma OwedIsDebited(l: seq<Movement>, o: OrderId, p: ProductId)
    requires Refund(l, o, p) > 0
    ensures p in DebitedProducts(l, o)
  {
    PositiveSaidaHasEntry(l, o, p);
  }

  // ---------------------------------------------------------------------
  // The entries the two stock-moving services append
  // ---------------------------------------------------------------------

  /** Σ quantity over the lines for product `p`. */
  function LineQty(lines: seq<Line>, p: ProductId): nat
  {
    if |lines| == 0 then 0
    else LineQty(lines[..|lines| - 1], p) + (if lines[|lines| - 1].product == p then lines[|lines| - 1].quantity else 0)
  }

  lemma {:induction false} LineQtyAbsent(lines: seq<Line>, p: ProductId)
    requires !HasLine(lines, p)
    ensures LineQty(lines, p) == 0
    decreases |lines|
  {
    if |lines| > 0 {
      var init := lines[..|lines| - 1];
      assert forall i | 0 <= i < |init| :: init[i] == lines[i];
      LineQtyAbsent(init, p);
    }
  }

  /** With one line per product, a product's quantity is its line's quantity. */
  lemma {:induction false} LineQtyDistinct(lines: seq<Line>, i: nat)
    requires LinesDistinct(lines) && i < |lines|
    ensures LineQty(lines, lines[i].product) == lines[i].quantity
    decreases |lines|
  {
    var init, last := lines[..|lines| - 1], lines[|lines| - 1];
    if i == |lines| - 1 {
      assert forall j | 0 <= j < |init| :: init[j] == lines[j];
      LineQtyAbsent(init, last.product);
    } else {
      assert init[i] == lines[i];
      LineQtyDistinct(init, i);
    }
  }

  /** One SAIDA entry per line, with that line's product and quantity, in line order. */
  function SaidaEntries(o: OrderId, lines: seq<Line>): (r: seq<Movement>)
    ensures |r| == |lines|
    ensures forall i | 0 <= i < |lines| :: r[i] == Movement(lines[i].product, o, Saida, lines[i].quantity)
  {
    seq(|lines|, i requires 0 <= i < |lines| => Movement(lines[i].product, o, Saida, lines[i].quantity))
  }

  lemma {:induction false} SaidaEntriesTotal(o: OrderId, lines: seq<Line>)
    ensures forall o', p, k :: (Total(SaidaEntries(o, lines), o', p, k) ==
                                if o' == o && k == Saida then LineQty(lines, p) else 0)
    decreases |lines|
  {
    if |lines| > 0 {
      var e := SaidaEntries(o, lines);
      assert e[..|e| - 1] == SaidaEntries(o, lines[..|lines| - 1]);
      SaidaEntriesTotal(o, lines[..|lines| - 1]);
    }
  }

  /**
    The ESTORNO entries a reconciliation appends while walking `ps`: one for
    each product whose refund, computed from the ledger `l0` read before the
    walk, is positive.
  */
  function RefundEntries(l0: seq<Movement>, o: OrderId, ps: seq<ProductId>): (r: seq<Movement>)
    ensures forall i | 0 <= i < |r| :: r[i].order == o && r[i].kind == Estorno && r[i].product in ps
  {
    if |ps| == 0 then []
    else
      RefundEntries(l0, o, ps[..|ps| - 1]) + RefundEntry(l0, o, ps[|ps| - 1])
  }

  /** The single ESTORNO entry for product `p`, or none when nothing is owed. */
  function RefundEntry(l0: seq<Movement>, o: OrderId, p: ProductId): seq<Movement>
  {
    if Refund(l0, o, p) > 0 then [Movement(p, o, Estorno, Refund(l0, o, p))] else []
  }

  /** What a walk over `ps` credits product `p`. */
  function Credit(l0: seq<Movement>, o: OrderId, ps: seq<ProductId>, p: ProductId): nat
  {
    if p in ps then Refund(l0, o, p) else 0
  }

  lemma {:induction false} RefundEntriesTotal(l0: seq<Movement>, o: OrderId, ps: seq<ProductId>)
    requires Distinct(ps)
    ensures forall o', p, k :: (Total(RefundEntries(l0, o, ps), o', p, k) ==
                                if o' == o && k == Estorno then Credit(l0, o, ps, p) else 0)
    decreases |ps|
  {
    if |ps| > 0 {
      var init, q := ps[..|ps| - 1], ps[|ps| - 1];
      assert ps == init + [q];
      RefundEntriesTotal(l0, o, init);
      var tail := RefundEntry(l0, o, q);
      TotalConcat(RefundEntries(l0, o, init), tail);
      if |tail| > 0 {
        assert tail[..0] == [];
      }
      assert forall j | 0 <= j < |init| :: init[j] == ps[j];
      assert q !in init;
    }
  }
}
