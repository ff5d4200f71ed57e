/**
  What the requests of the point of sale make of its sales and stock, through the whole
  system: reservations, checks and writes together.
*/
module DeskRequests {
  import R = Reservations
  import opened Amounts
  import opened CartGuarantees
  import opened PosDesk
  import opened PosDeskInvariants
  import opened SaleInvariants
  import opened SaleRequests
  import opened Sales
  import opened StockLedger
  import opened Wrappers

  lemma TookItsRequest(shop: Shop, c: Command) returns (r: Request)
    requires Answered(shop, c).failure == None && SalesRequest(shop, c).Some?
    ensures SalesRequest(shop, c) == Some(r) && Outcome(shop.store, r).Ok?
    ensures After(shop, c).store == Step(shop.store, r)
  {
    r := SalesRequest(shop, c).value;
    StoreSteps(shop, c);
    AcceptedStep(shop, c);
  }

  /** A refund puts exactly the quantities asked back on hand, records its amount, and reserves nothing. */
  lemma RefundAtTheDesk(shop: Shop, c: Command, k: Key)
    requires c.RefundSale? && Answered(shop, c).failure == None
    ensures c.id in shop.store.sales && shop.store.sales[c.id].tenant == c.tenant
    ensures var s, after := shop.store.sales[c.id], After(shop, c);
            && OnHand(after.store.stock.onHand, k)
               == OnHand(shop.store.stock.onHand, k)
                  + (if k.locationId == s.locationId then AskedBack(s.lines, c.returned, k.productId) else 0)
            && OnlyWrites(shop.store, after.store, c.id) && after.store.sales[c.id].refunds == s.refunds + [c.amount]
            && after.desk == shop.desk
  {
    var r := TookItsRequest(shop, c);
    RefundIsExact(shop.store, r, k);
  }

  /** An update that succeeds leaves the line with the new quantity, price and discount, and exactly that reserved. */
  lemma UpdateAtTheDesk(shop: Shop, c: Command, i: nat)
    requires HoldsSound(shop) && c.ChangeInCart? && Answered(shop, c).failure == None
    requires c.id in shop.store.sales && IsFirst(shop.store.sales[c.id].lines, c.lineId, i)
    ensures var l, lines := shop.store.sales[c.id].lines[i], After(shop, c).store.sales[c.id].lines;
            && i < |lines| && Priced(lines[i]) && lines[i].productId == l.productId && lines[i].quantity == c.quantity
            && lines[i].unitPrice == (if c.unitPrice.Some? then c.unitPrice.value else l.unitPrice)
            && lines[i].discountAmount == (if c.discountAmount.Some? then c.discountAmount.value else l.discountAmount)
            && R.HeldBy(After(shop, c).desk.reservations, {c.id}, SlotOf(shop.store, c.id, l.productId)) == c.quantity
  {
    var r := TookItsRequest(shop, c);
    UpdateIsExact(shop.store, r, i);
    UpdateHolds(shop, c, i);
  }

  lemma UpdateHolds(shop: Shop, c: Command, i: nat)
    requires HoldsSound(shop) && c.ChangeInCart? && Answered(shop, c).failure == None
    requires c.id in shop.store.sales && IsFirst(shop.store.sales[c.id].lines, c.lineId, i)
    ensures var l := shop.store.sales[c.id].lines[i];
            R.HeldBy(After(shop, c).desk.reservations, {c.id}, SlotOf(shop.store, c.id, l.productId)) == c.quantity
  {
    var s := shop.store.sales[c.id];
    FindsTheFirst(s.lines, c.lineId);
    var product := s.lines[i].productId;
    var slot := SlotOf(shop.store, c.id, product);
    ChangeEffect(shop, c, i);
    assert LinesSound(shop.desk.owners, s) && Owns(shop.desk.owners, c.tenant, product);
    HeldOnceReleased(shop.desk, c.tenant, c.id, product, c.id, slot);
    HeldSnoc(AllReleased(shop.desk, c.tenant, c.id, product).reservations, Hold(s, c.id, product, c.quantity, c.now),
             c.id, slot);
  }

  /**
    A completion records the payments, takes the lines' quantities from the stock, and
    fulfils the cart's reservations.
  */
  lemma CompletionAtTheDesk(shop: Shop, c: Command, i: nat)
    requires Coupled(shop) && c.CompleteCart? && Answered(shop, c).failure == None
    ensures IsDraft(shop.store, c.id) && shop.store.sales[c.id].tenant == c.tenant
    ensures var s, after := shop.store.sales[c.id], After(shop, c);
            && OnlyWrites(shop.store, after.store, c.id)
            && after.store.sales[c.id].payments == s.payments + c.payments
            && after.store.sales[c.id].paidAmount == Sum(c.payments) && after.store.sales[c.id].lines == s.lines
            && after.store.sales[c.id].changeAmount == Sum(c.payments) - CompletionTotal(s)
            && TakesOut(shop.store, after.store, s.locationId, StockItems(s.lines))
            && after.desk.balances == shop.desk.balances
            && (i < |shop.desk.reservations| ==>
                  var held := shop.desk.reservations[i];
                  && |after.desk.reservations| == |shop.desk.reservations|
                  && after.desk.reservations[i]
                     == if held.status == R.Active && held.saleId == Some(c.id) then held.(status := R.Fulfilled)
                         else held)
  {
    var r := TookItsRequest(shop, c);
    CompletionIsExact(shop.store, r);
    DeskSteps(shop, c);
    if i < |shop.desk.reservations| { R.CompletionFulfils(shop.desk, c.id, i); }
  }

  /** A new cart is an empty draft of the tenant at the location, as old as the request for the cleanup. */
  lemma OpeningAtTheDesk(shop: Shop, c: Command)
    requires Coupled(shop) && c.OpenCart?
    ensures Answered(shop, c).failure == None
       <==> c.id !in shop.store.sales && forall i | 0 <= i < |shop.desk.reservations| ::
                                           shop.desk.reservations[i].saleId != Some(c.id)
    ensures Answered(shop, c).failure == None ==>
              var after := After(shop, c);
              && OnlyWrites(shop.store, after.store, c.id)
              && after.store.sales[c.id] == Sale(c.tenant, c.locationId, Draft, [], 0, 0, 0, 0, 0, 0, [], [])
              && after.store.stock == shop.store.stock
              && after.desk == shop.desk.(sales := shop.desk.sales[c.id := R.CartRow(c.tenant, true, c.now)])
  {
  }

  /** A quick sale stores what it was asked for, takes it from the stock, and reserves nothing. */
  lemma SaleAtTheDesk(shop: Shop, c: Command)
    requires c.Sell? && Answered(shop, c).failure == None
    ensures AllListed(c.catalogue, c.items) && OnlyWrites(shop.store, After(shop, c).store, c.id)
    ensures var s := After(shop, c).store.sales[c.id];
            && s.tenant == c.tenant && s.locationId == c.locationId && s.payments == c.payments
            && |s.lines| == |c.items|
            && (forall i | 0 <= i < |c.items| :: LineFor(c.catalogue, c.costs, c.items[i], s.lines[i]))
            && s.totalAmount == Charged(c.catalogue, c.items) - OrElse(c.discount, 0) <= s.paidAmount
            && TakesOut(shop.store, After(shop, c).store, c.locationId, StockItems(s.lines))
    ensures After(shop, c).desk.reservations == shop.desk.reservations
         && After(shop, c).desk.balances == shop.desk.balances
  {
    var r := TookItsRequest(shop, c);
    SaleAcceptedIff(shop.store, r);
    SaleIsExact(shop.store, r);
  }
}
