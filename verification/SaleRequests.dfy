/**
  What each request makes of the store of sales, said in the request's own terms: its items,
  prices, payments and quantities.
*/
module SaleRequests {
  import opened Amounts
  import opened SaleInvariants
  import opened Sales
  import opened StockLedger
  import opened Wrappers

  /** Only one sale is written. */
  predicate OnlyWrites(st: Store, after: Store, id: Id) {
    id in after.sales && after.sales.Keys == st.sales.Keys + {id}
    && forall x <- st.sales | x != id :: after.sales[x] == st.sales[x]
  }

  // ----- Refunds ------------------------------------------------------------------------------

  /** The first of the lines with that key is one of product p. */
  predicate NamesProduct(lines: seq<Line>, lineId: Id, p: Id) {
    exists i | 0 <= i < |lines| ::
      lines[i].id == lineId && lines[i].productId == p && forall j | 0 <= j < i :: lines[j].id != lineId
  }

  predicate NamesNoLine(lines: seq<Line>, item: RefundItem) {
    forall i | 0 <= i < |lines| :: lines[i].id != item.saleItemId
  }

  /** The quantities asked back of a product, summed over the request's own items. */
  function AskedBack(lines: seq<Line>, items: seq<RefundItem>, p: Id): nat {
    if items == [] then 0
    else
      var last := items[|items| - 1];
      AskedBack(lines, items[..|items| - 1], p) + if NamesProduct(lines, last.saleItemId, p) then last.quantity else 0
  }

  lemma {:induction false} FindsTheFirst(lines: seq<Line>, id: Id)
    ensures match FindLine(lines, id)
            case Some(i) => i < |lines| && lines[i].id == id && forall j | 0 <= j < i :: lines[j].id != id
            case None => true
  {
    if lines != [] {
      FindsTheFirst(lines[..|lines| - 1], id);
      assert forall j | 0 <= j < |lines| - 1 :: lines[..|lines| - 1][j] == lines[j];
    }
  }

  lemma FoundProduct(lines: seq<Line>, id: Id, p: Id)
    requires FindLine(lines, id).Some?
    ensures NamesProduct(lines, id, p) <==> lines[FindLine(lines, id).value].productId == p
  {
    FindsTheFirst(lines, id);
  }

  lemma {:induction false} StocksWhatWasAsked(lines: seq<Line>, items: seq<RefundItem>, p: Id)
    ensures RefundStock(lines, items).None? <==> exists i | 0 <= i < |items| :: NamesNoLine(lines, items[i])
    ensures RefundStock(lines, items).Some? ==>
              Quantity(RefundStock(lines, items).value, p) == AskedBack(lines, items, p)
  {
    if items != [] {
      var n := |items| - 1;
      StocksWhatWasAsked(lines, items[..n], p);
      assert forall i | 0 <= i < n :: items[..n][i] == items[i];
      if RefundStock(lines, items).Some? {
        FoundProduct(lines, items[n].saleItemId, p);
        var front, all := RefundStock(lines, items[..n]).value, RefundStock(lines, items).value;
        assert all[..|front|] == front;
      }
      if FindLine(lines, items[n].saleItemId).None? { assert NamesNoLine(lines, items[n]); }
    }
  }

  /** All the checks of a refund but the last two, on its items and by the stock service. */
  predicate Refundable(st: Store, r: Request)
    requires r.Refund?
  {
    && r.id in st.sales && st.sales[r.id].tenant == r.tenant
    && st.sales[r.id].status in {Completed, PartiallyRefunded}
    && Sum(st.sales[r.id].refunds) + r.amount <= st.sales[r.id].paidAmount - st.sales[r.id].changeAmount
  }

  /** Beyond that it fails for an item exactly when one names no line of the sale. */
  lemma RefundFailsForItemIff(st: Store, r: Request)
    requires r.Refund? && Refundable(st, r)
    ensures Outcome(st, r) == Err(ItemNotFound)
       <==> exists i | 0 <= i < |r.returned| :: NamesNoLine(st.sales[r.id].lines, r.returned[i])
    ensures Outcome(st, r).Err? ==>
              Outcome(st, r).error == ItemNotFound || (Outcome(st, r).error == StockRefused && !r.stockAllowed)
  {
    StocksWhatWasAsked(st.sales[r.id].lines, r.returned, 0);
    RefundOutcome(st, r);
  }

  lemma RefundOutcome(st: Store, r: Request)
    requires r.Refund?
    ensures Outcome(st, r) == SaleRefunded(st, r)
  {
    match r case Refund(_, _, _, _, _) =>
  }

  /**
    A refund puts back, of each product, exactly the quantities asked back: on hand at the
    sale's location and in its movements, and nothing anywhere else. Its amount is recorded.
  */
  lemma RefundIsExact(st: Store, r: Request, k: Key)
    requires r.Refund? && Outcome(st, r).Ok?
    ensures Refundable(st, r)
    ensures var s, after := st.sales[r.id], Step(st, r);
            && OnHand(after.stock.onHand, k)
               == OnHand(st.stock.onHand, k)
                  + (if k.locationId == s.locationId then AskedBack(s.lines, r.returned, k.productId) else 0)
            && OnlyWrites(st, after, r.id) && after.sales[r.id].refunds == s.refunds + [r.amount]
    ensures forall kind: Kind, id: Id, p: Id ::
              Moved(Step(st, r).stock.movements, kind, id, p)
              == Moved(st.stock.movements, kind, id, p)
                 + if kind == Return && id == r.id then AskedBack(st.sales[r.id].lines, r.returned, p) else 0
  {
    RefundOutcome(st, r);
    var s := st.sales[r.id];
    var items := RefundStock(s.lines, r.returned).value;
    assert Step(st, r).stock == Post(st.stock, Return, r.id, s.locationId, items);
    StocksWhatWasAsked(s.lines, r.returned, k.productId);
    PostPuts(st.stock, Return, r.id, s.locationId, items, k);
    forall kind: Kind, id: Id, p: Id
      ensures Moved(Step(st, r).stock.movements, kind, id, p)
           == Moved(st.stock.movements, kind, id, p)
              + if kind == Return && id == r.id then AskedBack(s.lines, r.returned, p) else 0
    {
      StocksWhatWasAsked(s.lines, r.returned, p);
      PostMoves(st.stock, Return, r.id, s.locationId, items, kind, id, p);
    }
  }

  // ----- Carts ----------------------------------------------------------------------------------

  /** `subtotal` and `totalAmount` follow the lines; nothing but lines and these two changes. */
  predicate Retotalled(s: Sale, after: Sale) {
    && after == s.(lines := after.lines, subtotal := after.subtotal, totalAmount := after.totalAmount)
    && after.subtotal == SumTotals(after.lines) && after.totalAmount == after.subtotal - s.discountAmount
  }

  /** Line `i` is the first with that key. */
  predicate IsFirst(lines: seq<Line>, lineId: Id, i: nat) {
    i < |lines| && lines[i].id == lineId && forall j | 0 <= j < i :: lines[j].id != lineId
  }

  predicate IsFirstOf(lines: seq<Line>, p: Id, i: nat) {
    i < |lines| && lines[i].productId == p && forall j | 0 <= j < i :: lines[j].productId != p
  }

  lemma {:induction false} FindsTheFirstOf(lines: seq<Line>, p: Id)
    ensures FindProduct(lines, p).Some? ==> IsFirstOf(lines, p, FindProduct(lines, p).value)
  {
    if lines != [] {
      FindsTheFirstOf(lines[..|lines| - 1], p);
      assert forall j | 0 <= j < |lines| - 1 :: lines[..|lines| - 1][j] == lines[j];
    }
  }

  /** What a price is when none is given: the least selling price, or nothing. */
  function ListPrice(given: Option<Money>, p: Product): Money {
    match given
    case Some(price) => price
    case None => match p.minSellingPrice case Some(least) => least case None => 0
  }

  /** A product in the cart grows by the quantity, at its own price; a new one gets a line of its own. */
  lemma AdditionIsExact(st: Store, r: Request, i: nat)
    requires r.AddItem? && Outcome(st, r).Ok?
    ensures r.id in st.sales && st.sales[r.id].tenant == r.tenant && st.sales[r.id].status == Draft
    ensures OnlyWrites(st, Step(st, r), r.id) && Step(st, r).stock == st.stock
    ensures var s, after := st.sales[r.id], Step(st, r).sales[r.id];
            var p := r.item.productId;
            && Retotalled(s, after)
            && (IsFirstOf(s.lines, p, i) ==>
                  && |after.lines| == |s.lines| && Priced(after.lines[i])
                  && after.lines[i] == s.lines[i].(quantity := s.lines[i].quantity + r.item.quantity,
                                                   lineTotal := after.lines[i].lineTotal)
                  && forall j | 0 <= j < |s.lines| && j != i :: after.lines[j] == s.lines[j])
            && ((forall j | 0 <= j < |s.lines| :: s.lines[j].productId != p) ==>
                  && p in r.catalogue && |after.lines| == |s.lines| + 1 && after.lines[..|s.lines|] == s.lines
                  && var l := after.lines[|s.lines|];
                     && Priced(l) && l.id == r.item.lineId && l.productId == p && l.quantity == r.item.quantity
                     && l.unitPrice == ListPrice(r.item.unitPrice, r.catalogue[p])
                     && l.discountAmount == OrElse(r.item.discountAmount, 0))
  {
    AddItemOutcome(st, r);
    var s, product := st.sales[r.id], r.catalogue[r.item.productId];
    FindsTheFirstOf(s.lines, r.item.productId);
    var after := Added(s.lines, r.item, product);
    match FindProduct(s.lines, r.item.productId)
    case Some(j) => ComputedIsPriced(after[j]);
    case None => ComputedIsPriced(after[|s.lines|]);
  }

  lemma ComputedIsPriced(l: Line)
    requires l.lineTotal == LineTotal(l.unitPrice, l.discountAmount, l.quantity)
    ensures Priced(l)
  {
    LineTotalIsProduct(l.unitPrice, l.discountAmount, l.quantity);
  }

  /** An update gives the line the new quantity, and the new price and discount where there are any. */
  lemma UpdateIsExact(st: Store, r: Request, i: nat)
    requires r.UpdateItem? && Outcome(st, r).Ok?
    ensures r.id in st.sales && st.sales[r.id].tenant == r.tenant && st.sales[r.id].status == Draft
    ensures OnlyWrites(st, Step(st, r), r.id) && Step(st, r).stock == st.stock
    ensures var s, after := st.sales[r.id], Step(st, r).sales[r.id];
            && Retotalled(s, after)
            && (IsFirst(s.lines, r.lineId, i) ==>
                  && |after.lines| == |s.lines| && Priced(after.lines[i])
                  && (forall j | 0 <= j < |s.lines| && j != i :: after.lines[j] == s.lines[j])
                  && var l, l' := s.lines[i], after.lines[i];
                     && l'.id == l.id && l'.productId == l.productId && l'.unitCost == l.unitCost
                     && l'.quantity == r.quantity
                     && l'.unitPrice == (if r.unitPrice.Some? then r.unitPrice.value else l.unitPrice)
                     && l'.discountAmount == if r.discountAmount.Some? then r.discountAmount.value
                        else l.discountAmount)
  {
    var s := st.sales[r.id];
    FindsTheFirst(s.lines, r.lineId);
    ComputedIsPriced(Changed(s.lines[FindLine(s.lines, r.lineId).value], r.quantity, r.unitPrice, r.discountAmount));
  }

  lemma TakenOut(lines: seq<Line>, i: nat, after: seq<Line>)
    requires i < |lines| && after == lines[..i] + lines[i + 1..]
    ensures |after| == |lines| - 1 && lines == after[..i] + [lines[i]] + after[i..]
  {
    assert after[..i] == lines[..i] && after[i..] == lines[i + 1..];
    assert lines == lines[..i] + [lines[i]] + lines[i + 1..];
  }

  /** A removal takes out exactly the first line with the key. */
  lemma RemovalIsExact(st: Store, r: Request, i: nat)
    requires r.RemoveItem? && Outcome(st, r).Ok?
    ensures r.id in st.sales && st.sales[r.id].tenant == r.tenant && st.sales[r.id].status == Draft
    ensures OnlyWrites(st, Step(st, r), r.id) && Step(st, r).stock == st.stock
    ensures var s, after := st.sales[r.id], Step(st, r).sales[r.id];
            && Retotalled(s, after)
            && (IsFirst(s.lines, r.lineId, i) ==>
                  |after.lines| == |s.lines| - 1 && s.lines == after.lines[..i] + [s.lines[i]] + after.lines[i..])
  {
    var s := st.sales[r.id];
    FindsTheFirst(s.lines, r.lineId);
    var j := FindLine(s.lines, r.lineId).value;
    TakenOut(s.lines, j, s.lines[..j] + s.lines[j + 1..]);
  }

  // ----- Completion and void ---------------------------------------------------------------------

  /** What is on hand of the items' products goes down by their quantities, at one location only. */
  ghost predicate TakesOut(st: Store, after: Store, locationId: Id, items: seq<StockItem>) {
    forall k: Key ::
      OnHand(after.stock.onHand, k)
      == OnHand(st.stock.onHand, k) - if k.locationId == locationId then Quantity(items, k.productId) else 0
  }

  lemma TakesOutByPosting(st: Store, after: Store, kind: Kind, reference: Id, reserved: map<Key, nat>, locationId: Id,
                          items: seq<StockItem>)
    requires Takes(kind) && Available(st.stock.onHand, reserved, locationId, items)
    requires after.stock == Post(st.stock, kind, reference, locationId, items)
    ensures TakesOut(st, after, locationId, items)
  {
    AvailableHasRows(st.stock, kind, reserved, locationId, items);
    forall k: Key ensures OnHand(after.stock.onHand, k)
        == OnHand(st.stock.onHand, k) - if k.locationId == locationId then Quantity(items, k.productId) else 0
    {
      PostTakes(st.stock, kind, reference, locationId, items, k);
    }
  }

  /** Each line alone fits into what is on hand less what is reserved. */
  predicate LinesFit(st: Store, reserved: map<Key, nat>, s: Sale) {
    forall i | 0 <= i < |s.lines| ::
      OnHand(st.stock.onHand, Key(s.lines[i].productId, s.locationId))
        - Reserved(reserved, Key(s.lines[i].productId, s.locationId)) >= s.lines[i].quantity
  }

  /**
    A cart is completed exactly when it is a draft of the tenant with lines that fit and a
    payment that covers lines less discount plus tax. The payments are recorded as given, the
    change is what they exceed that by, and the lines' quantities leave the stock.
  */
  lemma CompletionIsExact(st: Store, r: Request)
    requires r.Complete?
    ensures Outcome(st, r).Ok?
       <==> && r.id in st.sales && st.sales[r.id].tenant == r.tenant && st.sales[r.id].status == Draft
            && var s := st.sales[r.id];
               && s.lines != [] && Sum(r.payments) >= SumTotals(s.lines) - s.discountAmount + s.taxAmount
               && r.stockAllowed && LinesFit(st, r.reserved, s)
    ensures Outcome(st, r).Ok? ==>
              var s, after := st.sales[r.id], Step(st, r);
              && OnlyWrites(st, after, r.id)
              && after.sales[r.id]
                 == s.(status := Completed, payments := s.payments + r.payments, paidAmount := Sum(r.payments),
                       changeAmount := Sum(r.payments) - (SumTotals(s.lines) - s.discountAmount + s.taxAmount))
              && TakesOut(st, after, s.locationId, StockItems(s.lines))
  {
    CompleteOutcome(st, r);
    if r.id in st.sales {
      var s := st.sales[r.id];
      assert LinesFit(st, r.reserved, s)
        <==> Available(st.stock.onHand, r.reserved, s.locationId, StockItems(s.lines));
      if Outcome(st, r).Ok? {
        TakesOutByPosting(st, Step(st, r), Out, r.id, r.reserved, s.locationId, StockItems(s.lines));
      }
    }
  }

  /**
    A void is accepted exactly for a completed sale of the tenant, and changes nothing but
    its status and the stock.
  */
  lemma VoidIsExact(st: Store, r: Request)
    requires r.Void?
    ensures Outcome(st, r).Ok?
       <==> r.id in st.sales && st.sales[r.id].tenant == r.tenant && st.sales[r.id].status == Completed
    ensures Outcome(st, r).Ok? ==>
              OnlyWrites(st, Step(st, r), r.id) && Step(st, r).sales[r.id] == st.sales[r.id].(status := Voided)
  {
    match r case Void(_, _) =>
  }

  // ----- Quick sales -------------------------------------------------------------------------------

  /** The price of a quick sale's item: a given one that is not zero, otherwise the list price. */
  function ItemPrice(item: QuickItem, p: Product): Money {
    if item.unitPrice.Some? && item.unitPrice.value != 0 then item.unitPrice.value else ListPrice(None, p)
  }

  predicate AllListed(catalogue: map<Id, Product>, items: seq<QuickItem>) {
    forall i | 0 <= i < |items| :: items[i].productId in catalogue
  }

  /** Every item at its price less its discount, for its quantity rounded down. */
  function Charged(catalogue: map<Id, Product>, items: seq<QuickItem>): Money
    requires AllListed(catalogue, items)
  {
    if items == [] then 0
    else
      var last := items[|items| - 1];
      Charged(catalogue, items[..|items| - 1])
        + (ItemPrice(last, catalogue[last.productId]) - OrElse(last.discountAmount, 0)) * last.quantity.Floor
  }

  /** The line stored for an item. */
  predicate LineFor(catalogue: map<Id, Product>, costs: map<Id, Money>, item: QuickItem, l: Line)
    requires item.productId in catalogue
  {
    && Priced(l) && l.id == item.lineId && l.productId == item.productId && l.quantity == item.quantity.Floor
    && l.unitPrice == ItemPrice(item, catalogue[item.productId]) && l.discountAmount == OrElse(item.discountAmount, 0)
    && l.unitCost == if item.productId in costs then costs[item.productId] else 0
  }

  lemma ProcessedIsExact(catalogue: map<Id, Product>, costs: map<Id, Money>, tenant: Tenant, items: seq<QuickItem>)
    requires Acceptable(catalogue, tenant, items)
    ensures var lines := ProcessItems(catalogue, costs, tenant, items);
            && |lines| == |items| && forall i | 0 <= i < |items| :: LineFor(catalogue, costs, items[i], lines[i])
  {
    var lines := ProcessItems(catalogue, costs, tenant, items);
    forall i | 0 <= i < |items| ensures LineFor(catalogue, costs, items[i], lines[i]) { ComputedIsPriced(lines[i]); }
  }

  lemma {:induction false} ChargedIsTheirSum(catalogue: map<Id, Product>, costs: map<Id, Money>,
                                             items: seq<QuickItem>, lines: seq<Line>)
    requires AllListed(catalogue, items) && |lines| == |items|
    requires forall i | 0 <= i < |items| :: LineFor(catalogue, costs, items[i], lines[i])
    ensures SumTotals(lines) == Charged(catalogue, items)
  {
    if items != [] {
      var n := |items| - 1;
      ChargedIsTheirSum(catalogue, costs, items[..n], lines[..n]);
      assert LineFor(catalogue, costs, items[n], lines[n]);
    }
  }

  /** An item of the tenant's that fits alone, at its quantity before rounding. */
  predicate ItemFits(st: Store, r: Request, item: QuickItem)
    requires r.QuickSale?
  {
    var k := Key(item.productId, r.locationId);
    && item.quantity >= 0.0001
    && item.productId in r.catalogue && r.catalogue[item.productId].tenant == r.tenant
    && (OnHand(st.stock.onHand, k) - Reserved(r.reserved, k)) as real >= item.quantity
  }

  /** All that is asked of a quick sale; that rounded quantities fit is implied. */
  predicate CanSell(st: Store, r: Request)
    requires r.QuickSale?
  {
    && r.id !in st.sales && r.locationKnown && r.items != [] && r.quickPayments != [] && r.stockAllowed
    && (forall i | 0 <= i < |r.items| :: ItemFits(st, r, r.items[i]))
    && AllListed(r.catalogue, r.items)
    && Sum(r.quickPayments) >= Charged(r.catalogue, r.items) - OrElse(r.discount, 0)
  }

  lemma ItemsFitIff(st: Store, r: Request)
    requires r.QuickSale?
    ensures (forall i | 0 <= i < |r.items| :: ItemFits(st, r, r.items[i]))
       <==> && (forall i | 0 <= i < |r.items| :: r.items[i].quantity >= 0.0001)
            && Acceptable(r.catalogue, r.tenant, r.items)
            && AvailableForQuickSale(st, r.reserved, r.locationId, r.items)
  {
    if (forall i | 0 <= i < |r.items| :: r.items[i].quantity >= 0.0001)
       && Acceptable(r.catalogue, r.tenant, r.items) && AvailableForQuickSale(st, r.reserved, r.locationId, r.items) {
      forall i | 0 <= i < |r.items| ensures ItemFits(st, r, r.items[i]) {
        assert KnownProduct(r.catalogue, r.tenant, r.items[i].productId);
      }
    }
    if forall i | 0 <= i < |r.items| :: ItemFits(st, r, r.items[i]) {
      assert forall i | 0 <= i < |r.items| :: KnownProduct(r.catalogue, r.tenant, r.items[i].productId);
    }
  }

  lemma RoundedFits(st: Store, r: Request)
    requires r.QuickSale? && Acceptable(r.catalogue, r.tenant, r.items)
    requires AvailableForQuickSale(st, r.reserved, r.locationId, r.items)
    ensures Available(st.stock.onHand, r.reserved, r.locationId,
                      StockItems(ProcessItems(r.catalogue, r.costs, r.tenant, r.items)))
  {
    var lines := ProcessItems(r.catalogue, r.costs, r.tenant, r.items);
    forall i | 0 <= i < |r.items|
      ensures var k := Key(lines[i].productId, r.locationId);
              OnHand(st.stock.onHand, k) - Reserved(r.reserved, k) >= lines[i].quantity
    {
      assert lines[i].quantity as real <= r.items[i].quantity;
    }
  }

  /**
    A quick sale is accepted exactly when every item is one of the tenant's products and fits
    alone, and the payments cover the items at their prices less the discount.
  */
  lemma SaleAcceptedIff(st: Store, r: Request)
    requires r.QuickSale?
    ensures Outcome(st, r).Ok? <==> CanSell(st, r)
  {
    if r.id !in st.sales { QuickSaleOutcome(st, r); }
    QuickSaleAcceptedIff(st, r);
    ItemsFitIff(st, r);
    if Acceptable(r.catalogue, r.tenant, r.items) {
      var lines := ProcessItems(r.catalogue, r.costs, r.tenant, r.items);
      ProcessedIsExact(r.catalogue, r.costs, r.tenant, r.items);
      AcceptedItemsAreListed(r);
      ChargedIsTheirSum(r.catalogue, r.costs, r.items, lines);
      if AvailableForQuickSale(st, r.reserved, r.locationId, r.items) { RoundedFits(st, r); }
    }
  }

  /** The row a quick sale stores. */
  predicate SoldAs(r: Request, s: Sale)
    requires r.QuickSale? && AllListed(r.catalogue, r.items)
  {
    var total := Charged(r.catalogue, r.items) - OrElse(r.discount, 0);
    && s.tenant == r.tenant && s.locationId == r.locationId && s.status == Completed
    && |s.lines| == |r.items|
    && (forall i | 0 <= i < |r.items| :: LineFor(r.catalogue, r.costs, r.items[i], s.lines[i]))
    && s.subtotal == Charged(r.catalogue, r.items) && s.discountAmount == OrElse(r.discount, 0) && s.taxAmount == 0
    && s.totalAmount == total && s.payments == r.quickPayments && s.paidAmount == Sum(r.quickPayments)
    && s.changeAmount == Sum(r.quickPayments) - total && s.refunds == []
  }

  lemma SoldRow(r: Request)
    requires r.QuickSale? && Acceptable(r.catalogue, r.tenant, r.items) && AllListed(r.catalogue, r.items)
    ensures SoldAs(r, QuickSaleRow(r.tenant, r.locationId, ProcessItems(r.catalogue, r.costs, r.tenant, r.items),
                                   r.discount, r.quickPayments))
  {
    ProcessedIsExact(r.catalogue, r.costs, r.tenant, r.items);
    ChargedIsTheirSum(r.catalogue, r.costs, r.items, ProcessItems(r.catalogue, r.costs, r.tenant, r.items));
  }

  lemma SoldStore(st: Store, r: Request)
    requires r.QuickSale? && Outcome(st, r).Ok?
    ensures r.id !in st.sales && Acceptable(r.catalogue, r.tenant, r.items)
    ensures var lines := ProcessItems(r.catalogue, r.costs, r.tenant, r.items);
            && Available(st.stock.onHand, r.reserved, r.locationId, StockItems(lines))
            && Step(st, r).sales
               == st.sales[r.id := QuickSaleRow(r.tenant, r.locationId, lines, r.discount, r.quickPayments)]
            && Step(st, r).stock == Post(st.stock, Out, r.id, r.locationId, StockItems(lines))
  {
    if r.id !in st.sales { QuickSaleOutcome(st, r); }
  }

  lemma WrittenRow(st: Store, after: Store, id: Id, row: Sale)
    requires after.sales == st.sales[id := row]
    ensures OnlyWrites(st, after, id) && after.sales[id] == row
  {
  }

  lemma AcceptedItemsAreListed(r: Request)
    requires r.QuickSale? && Acceptable(r.catalogue, r.tenant, r.items)
    ensures AllListed(r.catalogue, r.items)
  {
    assert forall i | 0 <= i < |r.items| :: KnownProduct(r.catalogue, r.tenant, r.items[i].productId);
  }

  /** An accepted quick sale stores a line for each item, and the rounded quantities leave the stock. */
  lemma SaleIsExact(st: Store, r: Request)
    requires r.QuickSale? && Outcome(st, r).Ok?
    ensures AllListed(r.catalogue, r.items) && OnlyWrites(st, Step(st, r), r.id)
    ensures SoldAs(r, Step(st, r).sales[r.id])
    ensures TakesOut(st, Step(st, r), r.locationId, StockItems(Step(st, r).sales[r.id].lines))
  {
    SoldStore(st, r);
    AcceptedItemsAreListed(r);
    SoldRow(r);
    var lines, after := ProcessItems(r.catalogue, r.costs, r.tenant, r.items), Step(st, r);
    WrittenRow(st, after, r.id, QuickSaleRow(r.tenant, r.locationId, lines, r.discount, r.quickPayments));
    TakesOutByPosting(st, after, Out, r.id, r.reserved, r.locationId, StockItems(lines));
  }

  // ----- Stock requests ------------------------------------------------------------------------------

  /** Each item alone fits into what is on hand less what is reserved. */
  predicate ItemsFit(st: Store, reserved: map<Key, nat>, locationId: Id, items: seq<StockItem>) {
    forall i | 0 <= i < |items| ::
      OnHand(st.stock.onHand, Key(items[i].productId, locationId))
        - Reserved(reserved, Key(items[i].productId, locationId)) >= items[i].quantity
  }

  lemma IssueIsExact(st: Store, r: Request)
    requires r.StockOut?
    ensures Outcome(st, r).Ok? <==> r.stockAllowed && ItemsFit(st, r.reserved, r.locationId, r.stockItems)
    ensures Outcome(st, r).Ok? ==> TakesOut(st, Step(st, r), r.locationId, r.stockItems)
    ensures Step(st, r).sales == st.sales
  {
    match r case StockOut(reference, locationId, items, reserved, _) =>
      if Outcome(st, r).Ok? {
        TakesOutByPosting(st, Step(st, r), Issued, reference, reserved, locationId, items);
      }
  }

  lemma ReceiptIsExact(st: Store, r: Request, k: Key)
    requires r.StockIn?
    ensures Outcome(st, r).Ok? <==> r.stockAllowed
    ensures Outcome(st, r).Ok? ==>
              OnHand(Step(st, r).stock.onHand, k)
              == OnHand(st.stock.onHand, k)
                 + if k.locationId == r.locationId then Quantity(r.stockItems, k.productId) else 0
    ensures Step(st, r).sales == st.sales
  {
    match r case StockIn(reference, locationId, items, _) =>
      PostPuts(st.stock, Received, reference, locationId, items, k);
  }

  // ----- Tenants ----------------------------------------------------------------------------------------

  /** A request a tenant makes of a sale of its own. */
  predicate OfTenant(r: Request) {
    r.QuickSale? || r.CreateCart? || r.AddItem? || r.UpdateItem? || r.RemoveItem? || r.Complete? || r.Void? || r.Refund?
  }

  /** Nobody else's request changes a tenant's sale; only the cleanup may delete it. */
  lemma ForeignSalesAreUntouched(st: Store, r: Request, id: Id)
    requires id in st.sales && !r.DeleteDrafts?
    requires OfTenant(r) ==> r.tenant != st.sales[id].tenant
    ensures id in Step(st, r).sales && Step(st, r).sales[id] == st.sales[id]
  {
  }

  /** So over every run of other tenants' requests and of stock requests a sale stays as it is. */
  lemma {:induction false} TenantsAreIsolated(st: Store, requests: seq<Request>, id: Id)
    requires id in st.sales
    requires forall n | 0 <= n < |requests| ::
               !requests[n].DeleteDrafts? && (OfTenant(requests[n]) ==> requests[n].tenant != st.sales[id].tenant)
    ensures id in Run(st, requests).sales && Run(st, requests).sales[id] == st.sales[id]
    decreases |requests|
  {
    if requests != [] {
      TenantsAreIsolated(st, requests[..|requests| - 1], id);
      ForeignSalesAreUntouched(Run(st, requests[..|requests| - 1]), requests[|requests| - 1], id);
    }
  }
}
