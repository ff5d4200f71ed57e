/**
  The two routes to a completed sale, quick sale and cart, compared on the same list of
  items: what they charge and what they take from stock.
*/
module SaleRoutes {
  import opened Amounts
  import opened Wrappers
  import opened StockLedger
  import opened SaleInvariants
  import opened Sales

  predicate AllKnown(catalogue: map<Id, Product>, tenant: Tenant, items: seq<CartItem>) {
    forall i | 0 <= i < |items| :: KnownProduct(catalogue, tenant, items[i].productId)
  }

  /** The lines of a cart after adding the items one by one. */
  function AddAll(catalogue: map<Id, Product>, tenant: Tenant, items: seq<CartItem>): seq<Line>
    requires AllKnown(catalogue, tenant, items)
  {
    if items == [] then []
    else
      var n := |items| - 1;
      Added(AddAll(catalogue, tenant, items[..n]), items[n], catalogue[items[n].productId])
  }

  /** The same items as a quick sale would receive them. */
  function AsQuick(items: seq<CartItem>): (quick: seq<QuickItem>)
    ensures |quick| == |items|
    ensures forall i | 0 <= i < |items| ::
      quick[i] == QuickItem(items[i].lineId, items[i].productId, items[i].quantity as real, items[i].unitPrice,
                            items[i].discountAmount)
  {
    seq(|items|, i requires 0 <= i < |items| =>
      QuickItem(items[i].lineId, items[i].productId, items[i].quantity as real, items[i].unitPrice,
                items[i].discountAmount))
  }

  // ----- Net unit prices -----------------------------------------------------------------------

  function CartNet(catalogue: map<Id, Product>, item: CartItem): Money
    requires item.productId in catalogue
  {
    OrElse(item.unitPrice, MinPrice(catalogue[item.productId])) - OrElse(item.discountAmount, 0)
  }

  function QuickNet(catalogue: map<Id, Product>, item: CartItem): Money
    requires item.productId in catalogue
  {
    QuickPrice(item.unitPrice, catalogue[item.productId]) - OrElse(item.discountAmount, 0)
  }

  predicate Mentions(items: seq<CartItem>, p: Id) { exists i | 0 <= i < |items| :: items[i].productId == p }

  /** The net unit price at which a product was first put into the cart. */
  function FirstNet(catalogue: map<Id, Product>, tenant: Tenant, items: seq<CartItem>, p: Id): Money
    requires AllKnown(catalogue, tenant, items)
  {
    if items == [] then 0
    else
      var n := |items| - 1;
      if Mentions(items[..n], p) || items[n].productId != p then FirstNet(catalogue, tenant, items[..n], p)
      else CartNet(catalogue, items[n])
  }

  /** Every item at the price its product was first added with. */
  function AtFirstPrices(catalogue: map<Id, Product>, tenant: Tenant, items: seq<CartItem>): Money
    requires AllKnown(catalogue, tenant, items)
  {
    if items == [] then 0
    else
      var n := |items| - 1;
      AtFirstPrices(catalogue, tenant, items[..n])
        + FirstNet(catalogue, tenant, items, items[n].productId) * items[n].quantity
  }

  /** Every item at its own price. */
  function AtOwnPrices(catalogue: map<Id, Product>, tenant: Tenant, items: seq<CartItem>): Money
    requires AllKnown(catalogue, tenant, items)
  {
    if items == [] then 0
    else
      var n := |items| - 1;
      AtOwnPrices(catalogue, tenant, items[..n]) + QuickNet(catalogue, items[n]) * items[n].quantity
  }

  function QuantityOf(items: seq<CartItem>, p: Id): nat {
    if items == [] then 0
    else
      QuantityOf(items[..|items| - 1], p)
        + if items[|items| - 1].productId == p then items[|items| - 1].quantity else 0
  }

  // ----- What a cart holds ---------------------------------------------------------------------

  predicate HasProduct(lines: seq<Line>, p: Id) { exists j | 0 <= j < |lines| :: lines[j].productId == p }

  /** A line of a product in the list, at the product's first price. */
  predicate AtFirstPrice(catalogue: map<Id, Product>, tenant: Tenant, items: seq<CartItem>, l: Line)
    requires AllKnown(catalogue, tenant, items)
  {
    && l.unitPrice - l.discountAmount == FirstNet(catalogue, tenant, items, l.productId)
    && l.lineTotal == (l.unitPrice - l.discountAmount) * l.quantity
  }

  /** One line for each product of the list and no other. */
  ghost predicate CartShape(catalogue: map<Id, Product>, tenant: Tenant, items: seq<CartItem>, lines: seq<Line>)
    requires AllKnown(catalogue, tenant, items)
  {
    && (forall i | 0 <= i < |lines| ::
          Mentions(items, lines[i].productId) && AtFirstPrice(catalogue, tenant, items, lines[i]))
    && (forall p | Mentions(items, p) :: HasProduct(lines, p))
  }

  lemma {:induction false} CartChargesFirstPrices(catalogue: map<Id, Product>, tenant: Tenant, items: seq<CartItem>)
    requires AllKnown(catalogue, tenant, items)
    ensures CartShape(catalogue, tenant, items, AddAll(catalogue, tenant, items))
    ensures SumTotals(AddAll(catalogue, tenant, items)) == AtFirstPrices(catalogue, tenant, items)
  {
    if items != [] {
      var n := |items| - 1;
      var before := AddAll(catalogue, tenant, items[..n]);
      CartChargesFirstPrices(catalogue, tenant, items[..n]);
      MentionsSnoc(items);
      match FindProduct(before, items[n].productId) {
        case Some(i) => ItemGrowsLine(catalogue, tenant, items, before, i);
        case None => ItemOpensLine(catalogue, tenant, items, before);
      }
    }
  }

  lemma MentionsSnoc(items: seq<CartItem>)
    requires items != []
    ensures forall p :: Mentions(items, p) <==> Mentions(items[..|items| - 1], p) || items[|items| - 1].productId == p
  {
    var n := |items| - 1;
    forall p ensures Mentions(items, p) <==> Mentions(items[..n], p) || items[n].productId == p {
      if Mentions(items[..n], p) {
        var i :| 0 <= i < n && items[..n][i].productId == p;
        assert items[i].productId == p;
      }
      if Mentions(items, p) && items[n].productId != p {
        var i :| 0 <= i < |items| && items[i].productId == p;
        assert items[..n][i].productId == p;
      }
    }
  }

  /** A grown line keeps its net price, and the totals grow by that price times the added quantity. */
  lemma GrownTotals(before: seq<Line>, i: nat, item: CartItem, product: Product)
    requires FindProduct(before, item.productId) == Some(i)
    requires before[i].lineTotal == (before[i].unitPrice - before[i].discountAmount) * before[i].quantity
    ensures var after := Added(before, item, product);
            && |after| == |before| && (forall j | 0 <= j < |before| && j != i :: after[j] == before[j])
            && after[i].productId == item.productId
            && after[i].unitPrice == before[i].unitPrice && after[i].discountAmount == before[i].discountAmount
            && after[i].lineTotal == (after[i].unitPrice - after[i].discountAmount) * after[i].quantity
            && SumTotals(after) == SumTotals(before) + (before[i].unitPrice - before[i].discountAmount) * item.quantity
  {
    SumTotalsUpdate(before, i, Added(before, item, product)[i]);
    Distribute(before[i].unitPrice, before[i].discountAmount, before[i].quantity, item.quantity);
  }

  lemma ItemGrowsLine(catalogue: map<Id, Product>, tenant: Tenant, items: seq<CartItem>, before: seq<Line>, i: nat)
    requires items != [] && AllKnown(catalogue, tenant, items)
    requires CartShape(catalogue, tenant, items[..|items| - 1], before)
    requires FindProduct(before, items[|items| - 1].productId) == Some(i)
    requires forall p :: Mentions(items, p) <==> Mentions(items[..|items| - 1], p) || items[|items| - 1].productId == p
    ensures var item := items[|items| - 1];
            var after := Added(before, item, catalogue[item.productId]);
            && CartShape(catalogue, tenant, items, after)
            && SumTotals(after) == SumTotals(before)
               + FirstNet(catalogue, tenant, items, item.productId) * item.quantity
  {
    var item := items[|items| - 1];
    var after := Added(before, item, catalogue[item.productId]);
    GrownTotals(before, i, item, catalogue[item.productId]);
    assert AtFirstPrice(catalogue, tenant, items[..|items| - 1], before[i]);
    forall j | 0 <= j < |after|
      ensures Mentions(items, after[j].productId) && AtFirstPrice(catalogue, tenant, items, after[j])
    {
      assert after[j].productId == before[j].productId
          && AtFirstPrice(catalogue, tenant, items[..|items| - 1], before[j]);
    }
    forall p | Mentions(items, p) ensures HasProduct(after, p) {
      var j :| 0 <= j < |before| && before[j].productId == p;
      assert after[j].productId == p;
    }
  }

  lemma ItemOpensLine(catalogue: map<Id, Product>, tenant: Tenant, items: seq<CartItem>, before: seq<Line>)
    requires items != [] && AllKnown(catalogue, tenant, items)
    requires CartShape(catalogue, tenant, items[..|items| - 1], before)
    requires FindProduct(before, items[|items| - 1].productId) == None
    requires forall p :: Mentions(items, p) <==> Mentions(items[..|items| - 1], p) || items[|items| - 1].productId == p
    ensures var item := items[|items| - 1];
            var after := Added(before, item, catalogue[item.productId]);
            && CartShape(catalogue, tenant, items, after)
            && SumTotals(after) == SumTotals(before)
               + FirstNet(catalogue, tenant, items, item.productId) * item.quantity
  {
    var item := items[|items| - 1];
    var after := Added(before, item, catalogue[item.productId]);
    var line := after[|before|];
    assert after == before + [line] && after[..|after| - 1] == before;
    assert !Mentions(items[..|items| - 1], item.productId) by { assert !HasProduct(before, item.productId); }
    Distribute(line.unitPrice, line.discountAmount, 0, item.quantity);
    forall j | 0 <= j < |after|
      ensures Mentions(items, after[j].productId) && AtFirstPrice(catalogue, tenant, items, after[j])
    {
      if j < |before| { assert AtFirstPrice(catalogue, tenant, items[..|items| - 1], before[j]); }
    }
    forall p | Mentions(items, p) ensures HasProduct(after, p) {
      if p == item.productId {
        assert after[|before|].productId == p;
      } else {
        var j :| 0 <= j < |before| && before[j].productId == p;
        assert after[j].productId == p;
      }
    }
  }

  lemma Distribute(unitPrice: Money, discountAmount: Money, q: nat, more: nat)
    ensures LineTotal(unitPrice, discountAmount, q + more)
         == (unitPrice - discountAmount) * q + (unitPrice - discountAmount) * more
    ensures LineTotal(unitPrice, discountAmount, q + more) == (unitPrice - discountAmount) * (q + more)
  {
    LineTotalIsProduct(unitPrice, discountAmount, q + more);
  }

  /** The lines a quick sale makes of the items. */
  function QuickLines(catalogue: map<Id, Product>, costs: map<Id, Money>, tenant: Tenant,
                      items: seq<CartItem>): (lines: seq<Line>)
    requires AllKnown(catalogue, tenant, items)
    ensures |lines| == |items|
    ensures forall i | 0 <= i < |items| ::
      && lines[i].productId == items[i].productId && lines[i].quantity == items[i].quantity
      && lines[i].lineTotal == QuickNet(catalogue, items[i]) * items[i].quantity
  {
    assert Acceptable(catalogue, tenant, AsQuick(items));
    var lines := ProcessItems(catalogue, costs, tenant, AsQuick(items));
    assert forall i | 0 <= i < |items| ::
      && lines[i].productId == items[i].productId && lines[i].quantity == items[i].quantity
      && lines[i].lineTotal == QuickNet(catalogue, items[i]) * items[i].quantity
    by {
      forall i | 0 <= i < |items|
        ensures lines[i].productId == items[i].productId && lines[i].quantity == items[i].quantity
        ensures lines[i].lineTotal == QuickNet(catalogue, items[i]) * items[i].quantity
      {
        assert (items[i].quantity as real).Floor == items[i].quantity;
        Distribute(QuickPrice(items[i].unitPrice, catalogue[items[i].productId]), OrElse(items[i].discountAmount, 0),
                   0, items[i].quantity);
      }
    }
    lines
  }

  lemma {:induction false} OwnPricesSum(catalogue: map<Id, Product>, tenant: Tenant, items: seq<CartItem>,
                                        lines: seq<Line>)
    requires AllKnown(catalogue, tenant, items) && |lines| == |items|
    requires forall i | 0 <= i < |items| :: lines[i].lineTotal == QuickNet(catalogue, items[i]) * items[i].quantity
    ensures SumTotals(lines) == AtOwnPrices(catalogue, tenant, items)
  {
    if items != [] {
      var n := |items| - 1;
      forall i | 0 <= i < n
        ensures lines[..n][i].lineTotal == QuickNet(catalogue, items[..n][i]) * items[..n][i].quantity
      {
        assert lines[..n][i] == lines[i] && items[..n][i] == items[i];
      }
      OwnPricesSum(catalogue, tenant, items[..n], lines[..n]);
    }
  }

  // ----- Stock: both routes take the same, repeated products included ------------------------------

  lemma {:induction false} CartTakes(catalogue: map<Id, Product>, tenant: Tenant, items: seq<CartItem>, p: Id)
    requires AllKnown(catalogue, tenant, items)
    ensures Quantity(StockItems(AddAll(catalogue, tenant, items)), p) == QuantityOf(items, p)
  {
    if items != [] {
      var n := |items| - 1;
      CartTakes(catalogue, tenant, items[..n], p);
      AddedTakes(AddAll(catalogue, tenant, items[..n]), items[n], catalogue[items[n].productId], p);
    }
  }

  /** Lists that agree in products and quantities, position by position, take the same. */
  lemma {:induction false} SameTakes(stockItems: seq<StockItem>, items: seq<CartItem>, p: Id)
    requires |stockItems| == |items|
    requires forall i | 0 <= i < |items| :: stockItems[i] == StockItem(items[i].productId, items[i].quantity)
    ensures Quantity(stockItems, p) == QuantityOf(items, p)
  {
    if items != [] { SameTakes(stockItems[..|items| - 1], items[..|items| - 1], p); }
  }

  // ----- Agreement ---------------------------------------------------------------------------------

  function CartSale(catalogue: map<Id, Product>, tenant: Tenant, locationId: Id, items: seq<CartItem>): Sale
    requires AllKnown(catalogue, tenant, items)
  {
    Recalculated(EmptyCartRow(tenant, locationId), AddAll(catalogue, tenant, items))
  }

  function QuickRouteSale(catalogue: map<Id, Product>, costs: map<Id, Money>, tenant: Tenant, locationId: Id,
                          items: seq<CartItem>, payments: seq<Money>): Sale
    requires AllKnown(catalogue, tenant, items)
  {
    QuickSaleRow(tenant, locationId, QuickLines(catalogue, costs, tenant, items), None, payments)
  }

  function CartRouteSale(catalogue: map<Id, Product>, tenant: Tenant, locationId: Id, items: seq<CartItem>,
                         payments: seq<Money>): Sale
    requires AllKnown(catalogue, tenant, items)
  {
    CompletedSale(CartSale(catalogue, tenant, locationId, items), payments)
  }

  /** Whatever the prices, both routes take the same quantity of every product from stock. */
  lemma RoutesTakeTheSame(catalogue: map<Id, Product>, costs: map<Id, Money>, tenant: Tenant, locationId: Id,
                          items: seq<CartItem>, payments: seq<Money>, p: Id)
    requires AllKnown(catalogue, tenant, items)
    ensures Quantity(StockItems(QuickRouteSale(catalogue, costs, tenant, locationId, items, payments).lines), p)
         == Quantity(StockItems(CartRouteSale(catalogue, tenant, locationId, items, payments).lines), p)
  {
    CartTakes(catalogue, tenant, items, p);
    SameTakes(StockItems(QuickLines(catalogue, costs, tenant, items)), items, p);
  }

  /** The routes' totals differ by exactly what repricing a product already in the cart would have added. */
  lemma RoutesDifferByRepricing(catalogue: map<Id, Product>, costs: map<Id, Money>, tenant: Tenant, locationId: Id,
                                items: seq<CartItem>, payments: seq<Money>)
    requires AllKnown(catalogue, tenant, items)
    ensures QuickRouteSale(catalogue, costs, tenant, locationId, items, payments).totalAmount
            - CartRouteSale(catalogue, tenant, locationId, items, payments).totalAmount
         == AtOwnPrices(catalogue, tenant, items) - AtFirstPrices(catalogue, tenant, items)
  {
    RouteTotals(catalogue, costs, tenant, locationId, items, payments);
  }

  lemma RouteTotals(catalogue: map<Id, Product>, costs: map<Id, Money>, tenant: Tenant, locationId: Id,
                    items: seq<CartItem>, payments: seq<Money>)
    requires AllKnown(catalogue, tenant, items)
    ensures QuickRouteSale(catalogue, costs, tenant, locationId, items, payments).totalAmount
         == AtOwnPrices(catalogue, tenant, items)
    ensures CartRouteSale(catalogue, tenant, locationId, items, payments).totalAmount
         == AtFirstPrices(catalogue, tenant, items)
  {
    CartChargesFirstPrices(catalogue, tenant, items);
    OwnPricesSum(catalogue, tenant, items, QuickLines(catalogue, costs, tenant, items));
  }

  /** The stored amounts of the two rows of one subtotal and one list of payments. */
  lemma AmountsFollowSubtotal(tenant: Tenant, locationId: Id, quick: seq<Line>, cart: seq<Line>, payments: seq<Money>)
    requires SumTotals(quick) == SumTotals(cart) <= Sum(payments)
    ensures var q, c := QuickSaleRow(tenant, locationId, quick, None, payments),
                        CompletedSale(Recalculated(EmptyCartRow(tenant, locationId), cart), payments);
            q.(lines := c.lines) == c
  {
    assert [] + payments == payments;
  }

  /**
    For one list of items and sufficient payments the two routes store the same amounts,
    payments and status exactly when the items' own prices sum up to what first prices do.
  */
  lemma RoutesAgreeIff(catalogue: map<Id, Product>, costs: map<Id, Money>, tenant: Tenant, locationId: Id,
                       items: seq<CartItem>, payments: seq<Money>)
    requires AllKnown(catalogue, tenant, items)
    requires Sum(payments) >= AtFirstPrices(catalogue, tenant, items)
    ensures var quick := QuickRouteSale(catalogue, costs, tenant, locationId, items, payments);
            var cart := CartRouteSale(catalogue, tenant, locationId, items, payments);
            quick.(lines := cart.lines) == cart
            <==> AtOwnPrices(catalogue, tenant, items) == AtFirstPrices(catalogue, tenant, items)
  {
    var quickLines, cartLines := QuickLines(catalogue, costs, tenant, items), AddAll(catalogue, tenant, items);
    RoutesDifferByRepricing(catalogue, costs, tenant, locationId, items, payments);
    CartChargesFirstPrices(catalogue, tenant, items);
    OwnPricesSum(catalogue, tenant, items, quickLines);
    if AtOwnPrices(catalogue, tenant, items) == AtFirstPrices(catalogue, tenant, items) {
      AmountsFollowSubtotal(tenant, locationId, quickLines, cartLines, payments);
    }
  }

  /** One piece at a price of 1 and another of the same product at a price of 2. */
  function TwoPrices(p: Id): seq<CartItem> {
    [CartItem(1, p, 1, Some(1), None), CartItem(2, p, 1, Some(2), None)]
  }

  lemma OneItemSum(catalogue: map<Id, Product>, tenant: Tenant, item: CartItem)
    requires KnownProduct(catalogue, tenant, item.productId) && item.quantity == 1
    ensures AtOwnPrices(catalogue, tenant, [item]) == QuickNet(catalogue, item)
    ensures FirstNet(catalogue, tenant, [item], item.productId) == CartNet(catalogue, item)
    ensures AtFirstPrices(catalogue, tenant, [item]) == CartNet(catalogue, item)
  {
    assert [item][..0] == [] && AtOwnPrices(catalogue, tenant, []) == 0 == AtFirstPrices(catalogue, tenant, []);
  }

  lemma TwoPricesSum(catalogue: map<Id, Product>, tenant: Tenant, p: Id, items: seq<CartItem>)
    requires KnownProduct(catalogue, tenant, p) && items == TwoPrices(p)
    ensures AtOwnPrices(catalogue, tenant, items) == 3 && AtFirstPrices(catalogue, tenant, items) == 2
  {
    OneItemSum(catalogue, tenant, items[0]);
    assert items[..1] == [items[0]];
    assert Mentions([items[0]], p) by { assert [items[0]][0].productId == p; }
    assert AtOwnPrices(catalogue, tenant, items) == AtOwnPrices(catalogue, tenant, [items[0]]) + 2;
    assert FirstNet(catalogue, tenant, items, p) == FirstNet(catalogue, tenant, [items[0]], p) == 1;
  }

  /** An input on which the routes part: the quick sale charges 3, the cart 2. */
  lemma TwoPricesPartTheRoutes(catalogue: map<Id, Product>, costs: map<Id, Money>, tenant: Tenant, locationId: Id,
                               p: Id, payments: seq<Money>)
    requires KnownProduct(catalogue, tenant, p)
    ensures QuickRouteSale(catalogue, costs, tenant, locationId, TwoPrices(p), payments).totalAmount == 3
    ensures CartRouteSale(catalogue, tenant, locationId, TwoPrices(p), payments).totalAmount == 2
  {
    var items := TwoPrices(p);
    TwoPricesSum(catalogue, tenant, p, items);
    RouteTotals(catalogue, costs, tenant, locationId, items, payments);
  }

  /** `CartSale` is what a run builds: open a cart, add every item. */
  function CartRequests(catalogue: map<Id, Product>, tenant: Tenant, id: Id, locationId: Id,
                        items: seq<CartItem>): seq<Request> {
    if items == [] then [CreateCart(tenant, id, locationId)]
    else
      var n := |items| - 1;
      CartRequests(catalogue, tenant, id, locationId, items[..n]) + [AddItem(tenant, id, items[n], catalogue, true)]
  }

  function WithSale(st: Store, id: Id, s: Sale): Store { st.(sales := st.sales[id := s]) }

  lemma AddItemStep(st: Store, catalogue: map<Id, Product>, tenant: Tenant, id: Id, item: CartItem)
    requires IsCart(st, tenant, id) && KnownProduct(catalogue, tenant, item.productId)
    ensures Step(st, AddItem(tenant, id, item, catalogue, true))
         == WithSale(st, id, Recalculated(st.sales[id], Added(st.sales[id].lines, item, catalogue[item.productId])))
  {
    AddItemOutcome(st, AddItem(tenant, id, item, catalogue, true));
  }

  lemma WrittenTwice(st: Store, id: Id, s: Sale, s': Sale)
    ensures WithSale(WithSale(st, id, s), id, s') == WithSale(st, id, s')
  {
    assert st.sales[id := s][id := s'] == st.sales[id := s'];
  }

  lemma RunSnoc(st: Store, front: seq<Request>, r: Request)
    ensures Run(st, front + [r]) == Step(Run(st, front), r)
  {
    assert (front + [r])[..|front|] == front;
  }

  lemma ItemToSaleStep(st: Store, catalogue: map<Id, Product>, tenant: Tenant, id: Id, cart: Sale, item: CartItem)
    requires cart.tenant == tenant && cart.status == Draft && KnownProduct(catalogue, tenant, item.productId)
    ensures Step(WithSale(st, id, cart), AddItem(tenant, id, item, catalogue, true))
         == WithSale(st, id, Recalculated(cart, Added(cart.lines, item, catalogue[item.productId])))
  {
    AddItemStep(WithSale(st, id, cart), catalogue, tenant, id, item);
    WrittenTwice(st, id, cart, Recalculated(cart, Added(cart.lines, item, catalogue[item.productId])));
  }

  lemma NextCartSale(catalogue: map<Id, Product>, tenant: Tenant, locationId: Id, items: seq<CartItem>)
    requires items != [] && AllKnown(catalogue, tenant, items)
    ensures var n := |items| - 1;
            var cart := CartSale(catalogue, tenant, locationId, items[..n]);
            Recalculated(cart, Added(cart.lines, items[n], catalogue[items[n].productId]))
            == CartSale(catalogue, tenant, locationId, items)
  {
  }

  lemma NextItemStep(st: Store, catalogue: map<Id, Product>, tenant: Tenant, id: Id, locationId: Id,
                     items: seq<CartItem>)
    requires items != [] && AllKnown(catalogue, tenant, items)
    ensures var n := |items| - 1;
            Step(WithSale(st, id, CartSale(catalogue, tenant, locationId, items[..n])),
                 AddItem(tenant, id, items[n], catalogue, true))
            == WithSale(st, id, CartSale(catalogue, tenant, locationId, items))
  {
    var n := |items| - 1;
    NextCartSale(catalogue, tenant, locationId, items);
    ItemToSaleStep(st, catalogue, tenant, id, CartSale(catalogue, tenant, locationId, items[..n]), items[n]);
  }

  lemma EmptyCartStep(st: Store, catalogue: map<Id, Product>, tenant: Tenant, id: Id, locationId: Id)
    requires id !in st.sales
    ensures Step(st, CreateCart(tenant, id, locationId))
        == WithSale(st, id, CartSale(catalogue, tenant, locationId, []))
  {
  }

  lemma {:induction false} CartRunBuildsCartSale(st: Store, catalogue: map<Id, Product>, tenant: Tenant, id: Id,
                                                 locationId: Id, items: seq<CartItem>)
    requires id !in st.sales && AllKnown(catalogue, tenant, items)
    ensures Run(st, CartRequests(catalogue, tenant, id, locationId, items))
         == WithSale(st, id, CartSale(catalogue, tenant, locationId, items))
  {
    if items == [] {
      var create := CreateCart(tenant, id, locationId);
      RunSnoc(st, [], create);
      assert [] + [create] == [create];
      EmptyCartStep(st, catalogue, tenant, id, locationId);
    } else {
      var n := |items| - 1;
      var front := CartRequests(catalogue, tenant, id, locationId, items[..n]);
      CartRunBuildsCartSale(st, catalogue, tenant, id, locationId, items[..n]);
      RunSnoc(st, front, AddItem(tenant, id, items[n], catalogue, true));
      NextItemStep(st, catalogue, tenant, id, locationId, items);
    }
  }

  lemma CompleteStep(st: Store, r: Request)
    requires r.Complete? && IsCart(st, r.tenant, r.id) && st.sales[r.id].lines != [] && r.stockAllowed
    requires Sum(r.payments) >= CompletionTotal(st.sales[r.id])
    requires Available(st.stock.onHand, r.reserved, st.sales[r.id].locationId, StockItems(st.sales[r.id].lines))
    ensures Step(st, r).sales == st.sales[r.id := CompletedSale(st.sales[r.id], r.payments)]
  {
    CompleteOutcome(st, r);
  }

  lemma CartIsNotEmpty(catalogue: map<Id, Product>, tenant: Tenant, items: seq<CartItem>)
    requires AllKnown(catalogue, tenant, items) && items != []
    ensures AddAll(catalogue, tenant, items) != []
  {
  }

  /** The cart route as a run: open a cart, add every item, complete it. */
  lemma CartRunStoresCartRoute(st: Store, catalogue: map<Id, Product>, tenant: Tenant, id: Id, locationId: Id,
                               items: seq<CartItem>, payments: seq<Money>, reserved: map<Key, nat>)
    requires id !in st.sales && AllKnown(catalogue, tenant, items) && items != []
    requires Sum(payments) >= AtFirstPrices(catalogue, tenant, items)
    requires Available(st.stock.onHand, reserved, locationId, StockItems(AddAll(catalogue, tenant, items)))
    ensures var after := Run(st, CartRequests(catalogue, tenant, id, locationId, items)
                                 + [Complete(tenant, id, payments, reserved, true)]);
            id in after.sales && after.sales[id] == CartRouteSale(catalogue, tenant, locationId, items, payments)
  {
    var front, r := CartRequests(catalogue, tenant, id, locationId, items),
      Complete(tenant, id, payments, reserved, true);
    var st' := WithSale(st, id, CartSale(catalogue, tenant, locationId, items));
    CartRunBuildsCartSale(st, catalogue, tenant, id, locationId, items);
    RunSnoc(st, front, r);
    CartChargesFirstPrices(catalogue, tenant, items);
    CartIsNotEmpty(catalogue, tenant, items);
    CompleteStep(st', r);
  }

  /** On whole quantities the two stock checks of a quick sale coincide. */
  lemma ChecksCoincide(st: Store, catalogue: map<Id, Product>, costs: map<Id, Money>, tenant: Tenant, locationId: Id,
                       items: seq<CartItem>, reserved: map<Key, nat>)
    requires AllKnown(catalogue, tenant, items)
    requires Available(st.stock.onHand, reserved, locationId, StockItems(QuickLines(catalogue, costs, tenant, items)))
    ensures AvailableForQuickSale(st, reserved, locationId, AsQuick(items))
  {
    var lines := QuickLines(catalogue, costs, tenant, items);
    forall i | 0 <= i < |items|
      ensures var k := Key(items[i].productId, locationId);
              (OnHand(st.stock.onHand, k) - Reserved(reserved, k)) as real >= AsQuick(items)[i].quantity
    {
      assert StockItems(lines)[i] == StockItem(items[i].productId, items[i].quantity);
    }
  }

  lemma QuickSaleStep(st: Store, r: Request)
    requires r.QuickSale? && r.id !in st.sales && QuickSaleAccepted(st, r)
    ensures Step(st, r).sales
         == st.sales[r.id := QuickSaleRow(r.tenant, r.locationId, ProcessItems(r.catalogue, r.costs, r.tenant, r.items),
                                          r.discount, r.quickPayments)]
  {
    QuickSaleOutcome(st, r);
  }

  function QuickRequest(catalogue: map<Id, Product>, costs: map<Id, Money>, tenant: Tenant, id: Id, locationId: Id,
                        items: seq<CartItem>, payments: seq<Money>, reserved: map<Key, nat>): Request {
    QuickSale(tenant, id, locationId, true, AsQuick(items), None, payments, catalogue, costs, reserved, true)
  }

  lemma QuickItemsAreAcceptable(catalogue: map<Id, Product>, tenant: Tenant, items: seq<CartItem>)
    requires AllKnown(catalogue, tenant, items) && forall i | 0 <= i < |items| :: items[i].quantity > 0
    ensures Acceptable(catalogue, tenant, AsQuick(items))
    ensures forall i | 0 <= i < |items| :: AsQuick(items)[i].quantity >= 0.0001
  {
    forall i | 0 <= i < |items| ensures KnownProduct(catalogue, tenant, AsQuick(items)[i].productId) {
      assert KnownProduct(catalogue, tenant, items[i].productId);
    }
  }

  /** What the quick route's lines are and come to. */
  lemma QuickLinesSum(catalogue: map<Id, Product>, costs: map<Id, Money>, tenant: Tenant, items: seq<CartItem>)
    requires AllKnown(catalogue, tenant, items) && Acceptable(catalogue, tenant, AsQuick(items))
    ensures QuickLines(catalogue, costs, tenant, items) == ProcessItems(catalogue, costs, tenant, AsQuick(items))
    ensures SumTotals(QuickLines(catalogue, costs, tenant, items)) == AtOwnPrices(catalogue, tenant, items)
  {
    OwnPricesSum(catalogue, tenant, items, QuickLines(catalogue, costs, tenant, items));
  }

  lemma AcceptedWhen(st: Store, r: Request, lines: seq<Line>)
    requires r.QuickSale? && r.locationKnown && r.items != [] && r.quickPayments != [] && r.stockAllowed
    requires forall i | 0 <= i < |r.items| :: r.items[i].quantity >= 0.0001
    requires Acceptable(r.catalogue, r.tenant, r.items) && AvailableForQuickSale(st, r.reserved, r.locationId, r.items)
    requires lines == ProcessItems(r.catalogue, r.costs, r.tenant, r.items)
    requires Available(st.stock.onHand, r.reserved, r.locationId, StockItems(lines))
    requires Sum(r.quickPayments) >= SumTotals(lines) - OrElse(r.discount, 0)
    ensures QuickSaleAccepted(st, r)
  {
  }

  lemma QuickRequestIsAccepted(st: Store, catalogue: map<Id, Product>, costs: map<Id, Money>, tenant: Tenant, id: Id,
                               locationId: Id, items: seq<CartItem>, payments: seq<Money>, reserved: map<Key, nat>)
    requires AllKnown(catalogue, tenant, items) && items != [] && payments != []
    requires forall i | 0 <= i < |items| :: items[i].quantity > 0
    requires Sum(payments) >= AtOwnPrices(catalogue, tenant, items)
    requires Available(st.stock.onHand, reserved, locationId, StockItems(QuickLines(catalogue, costs, tenant, items)))
    ensures QuickSaleAccepted(st, QuickRequest(catalogue, costs, tenant, id, locationId, items, payments, reserved))
  {
    QuickItemsAreAcceptable(catalogue, tenant, items);
    QuickLinesSum(catalogue, costs, tenant, items);
    ChecksCoincide(st, catalogue, costs, tenant, locationId, items, reserved);
    AcceptedWhen(st, QuickRequest(catalogue, costs, tenant, id, locationId, items, payments, reserved),
                 ProcessItems(catalogue, costs, tenant, AsQuick(items)));
  }

  /** The quick route as one request; its two stock checks coincide on whole quantities. */
  lemma QuickRunStoresQuickRoute(st: Store, catalogue: map<Id, Product>, costs: map<Id, Money>, tenant: Tenant, id: Id,
                                 locationId: Id, items: seq<CartItem>, payments: seq<Money>, reserved: map<Key, nat>)
    requires id !in st.sales && AllKnown(catalogue, tenant, items) && items != [] && payments != []
    requires forall i | 0 <= i < |items| :: items[i].quantity > 0
    requires Sum(payments) >= AtOwnPrices(catalogue, tenant, items)
    requires Available(st.stock.onHand, reserved, locationId, StockItems(QuickLines(catalogue, costs, tenant, items)))
    ensures var after := Step(st, QuickRequest(catalogue, costs, tenant, id, locationId, items, payments, reserved));
            id in after.sales && after.sales[id]
                == QuickRouteSale(catalogue, costs, tenant, locationId, items, payments)
  {
    QuickRequestIsAccepted(st, catalogue, costs, tenant, id, locationId, items, payments, reserved);
    QuickSaleStep(st, QuickRequest(catalogue, costs, tenant, id, locationId, items, payments, reserved));
  }
}
