/**
  The cart, sale, refund and reservation services, updating their tables in place. Every
  method is proved to answer what `PosDesk.Answered` specifies, and so to keep the point of
  sale sound.
*/
module PosService {
  import R = Reservations
  import opened Amounts
  import opened PosDesk
  import opened PosDeskInvariants
  import opened Sales
  import opened SaleInvariants
  import opened StockLedger
  import opened Wrappers

  /** So every method moves the shop by one command and keeps it sound. */
  lemma AnsweredKeepsSound(c: Command, before: Shop, after: Shop, failure: Option<Error>)
    requires ShopSound(before) && Answer(after, failure) == Answered(before, c)
    ensures after == After(before, c) && ShopSound(after)
  {
    CommandKeepsSound(before, c);
  }

  class Pos {
    var sales: map<Id, Sale>
    var onHand: map<Key, int>
    var movements: seq<Movement>
    var rows: map<Id, R.CartRow>  // the columns of the sale table that reservations and cleanup look at
    var reservations: seq<R.Reservation>
    var balances: map<Key, R.Balance>
    const owners: map<Id, Tenant>

    ghost function Desk(): R.Desk
      reads this
    {
      R.Desk(owners, rows, reservations, balances)
    }

    ghost function State(): Shop
      reads this
    {
      Shop(Store(sales, Stock(onHand, movements)), Desk())
    }

    constructor (stock: map<Key, int>, owners: map<Id, Tenant>)
      ensures State() == Shop(Store(map[], Stock(stock, [])), R.Desk(owners, map[], [], map[])) && ShopSound(State())
    {
      sales, onHand, movements := map[], stock, [];
      rows, reservations, balances := map[], [], map[];
      this.owners := owners;
      new;
      NewShopIsSound(stock, owners);
    }

    // ----- Helpers with loops ---------------------------------------------------------------

    /** Sum the line totals anew and store subtotal and total. */
    method RecalculateCart(cartId: Id)
      requires cartId in sales
      modifies this`sales
      ensures sales == old(sales)[cartId := Recalculated(old(sales)[cartId], old(sales)[cartId].lines)]
    {
      var items := sales[cartId].lines;
      var subtotal := 0;
      for i := 0 to |items|
        invariant subtotal == SumTotals(items[..i])
      {
        subtotal := subtotal + items[i].lineTotal;
        assert items[..i + 1][..i] == items[..i];
      }
      assert items[..|items|] == items;
      var taxAmount := 0;
      var s := sales[cartId];
      sales := sales[cartId := s.(subtotal := subtotal, totalAmount := subtotal - s.discountAmount + taxAmount)];
    }

    method AggregateSaleItems(items: seq<Line>) returns (subtotal: Money, stockOutItems: seq<StockItem>)
      ensures subtotal == SumTotals(items)
      ensures stockOutItems == StockItems(items)
    {
      subtotal, stockOutItems := 0, [];
      for i := 0 to |items|
        invariant subtotal == SumTotals(items[..i])
        invariant stockOutItems == StockItems(items[..i])
      {
        subtotal := subtotal + items[i].lineTotal;
        stockOutItems := stockOutItems + [StockItem(items[i].productId, items[i].quantity)];
        assert items[..i + 1][..i] == items[..i];
      }
      assert items[..|items|] == items;
    }

    /** One payment row each; the answer is their sum. */
    method ProcessPayments(saleId: Id, payments: seq<Money>) returns (totalPaid: Money)
      requires saleId in sales
      modifies this`sales
      ensures totalPaid == Sum(payments)
      ensures sales == old(sales)[saleId := old(sales)[saleId].(payments := old(sales)[saleId].payments + payments)]
    {
      totalPaid := 0;
      ghost var before := sales[saleId];
      assert before.payments + payments[..0] == before.payments;
      for i := 0 to |payments|
        invariant totalPaid == Sum(payments[..i])
        invariant sales == old(sales)[saleId := before.(payments := before.payments + payments[..i])]
      {
        totalPaid := totalPaid + payments[i];
        assert payments[..i + 1][..i] == payments[..i];
        assert (before.payments + payments[..i]) + [payments[i]] == before.payments + payments[..i + 1];
        sales := sales[saleId := sales[saleId].(payments := sales[saleId].payments + [payments[i]])];
      }
      assert payments[..|payments|] == payments;
    }

    /** The stock service's `stockOut` and `stockIn`: a movement and a balance update per item. */
    method MoveStock(kind: Kind, saleId: Id, locationId: Id, items: seq<StockItem>)
      requires kind != Reversal  // a void increments existing balances instead
      modifies this`onHand, this`movements
      ensures Stock(onHand, movements) == Post(Stock(old(onHand), old(movements)), kind, saleId, locationId, items)
    {
      ghost var before := Stock(onHand, movements);
      for i := 0 to |items|
        invariant Stock(onHand, movements) == Post(before, kind, saleId, locationId, items[..i])
      {
        var k := Key(items[i].productId, locationId);
        movements := movements + [Movement(kind, saleId, k, items[i].quantity)];
        onHand := UpdateBalance(onHand, k, if Takes(kind) then 0 - items[i].quantity else items[i].quantity);
        assert items[..i + 1][..i] == items[..i];
      }
      assert items[..|items|] == items;
    }

    // ----- Reservations ---------------------------------------------------------------------

    /** The row of a balance is created when it is missing. */
    method ChangeReserved(tenant: Tenant, slot: Key, change: int)
      modifies this`balances
      ensures balances == R.Reserve(old(balances), tenant, slot, change)
    {
      if slot in balances {
        balances := balances[slot := balances[slot].(reserved := balances[slot].reserved + change)];
      } else {
        balances := balances[slot := R.Balance(tenant, change)];
      }
    }

    /** `create`: the checks first, then the reservation and the balance in one transaction. */
    method Reserve(tenant: Tenant, slot: Key, quantity: nat, expiresAt: Time, saleId: Option<Id>, live: bool,
                   now: Time)
      returns (ok: bool)
      modifies this`reservations, this`balances
      ensures var hold := R.Reservation(tenant, slot, quantity, R.Active, expiresAt, saleId);
              && ok == CanHold(old(State()).store, old(Desk()), hold, live, now)
              && Desk() == (if ok then Held(old(Desk()), hold) else old(Desk()))
    {
      if slot.productId !in owners || owners[slot.productId] != tenant || !live {
        return false;
      }
      var stock := if slot in onHand then onHand[slot] else 0;
      var reserved := if slot in balances then balances[slot].reserved else 0;
      var available := stock - reserved;
      if available < quantity || expiresAt <= now {
        return false;
      }
      reservations := reservations + [R.Reservation(tenant, slot, quantity, R.Active, expiresAt, saleId)];
      ChangeReserved(tenant, slot, quantity);
      return true;
    }

    /** The same request made directly, in the name of whatever it says. */
    method ReserveForAnything(tenant: Tenant, slot: Key, quantity: nat, expiresAt: Time, saleId: Option<Id>,
                              live: bool, now: Time)
      returns (ok: bool)
      modifies this`reservations, this`balances
      ensures var hold := R.Reservation(tenant, slot, quantity, R.Active, expiresAt, saleId);
              && ok == CanHold(old(State()).store, old(Desk()), hold, live, now)
              && Answer(State(), None) == Answered(old(State()), ReserveDirect(hold, live, now))
    {
      ok := Reserve(tenant, slot, quantity, expiresAt, saleId, live, now);
    }

    /** `update`: only growth is checked, and only a changed quantity touches the balance. */
    method UpdateReservation(tenant: Tenant, index: nat, patch: R.Patch, now: Time) returns (ok: bool)
      modifies this`reservations, this`balances
      ensures Answer(State(), None) == Answered(old(State()), PatchHold(tenant, index, patch, now))
      ensures ok == R.Patchable(old(Desk()), tenant, index, patch, now, OnHandAt(old(State()), index))
    {
      if R.Empty(patch) || index >= |reservations| || reservations[index].tenant != tenant
         || reservations[index].status != R.Active {
        return false;
      }
      if patch.expiresAt.Some? && patch.expiresAt.value <= now {
        return false;
      }
      var r := reservations[index];
      var quantityDiff := if patch.quantity.Some? then patch.quantity.value as int - r.quantity else 0;
      if quantityDiff > 0 {
        var stock := if r.slot in onHand then onHand[r.slot] else 0;
        var reserved := if r.slot in balances then balances[r.slot].reserved else 0;
        if stock - reserved < quantityDiff {
          return false;
        }
      }
      var quantity := if patch.quantity.Some? then patch.quantity.value else r.quantity;
      var expiresAt := if patch.expiresAt.Some? then patch.expiresAt.value else r.expiresAt;
      var saleId := if patch.reference.Some? then patch.reference.value else r.saleId;
      reservations := reservations[index := r.(quantity := quantity, expiresAt := expiresAt, saleId := saleId)];
      if quantityDiff != 0 {
        ChangeReserved(tenant, r.slot, quantityDiff);
      }
      return true;
    }

    /** `release`: the active quantity is given back once. */
    method Release(tenant: Tenant, index: nat) returns (ok: bool)
      modifies this`reservations, this`balances
      ensures Answer(State(), None) == Answered(old(State()), ReleaseHold(tenant, index))
      ensures Desk() == R.Ended(old(Desk()), tenant, index, R.Released)
      ensures ok
         <==> (index < |old(reservations)| && old(reservations)[index].tenant == tenant
               && old(reservations)[index].status == R.Active)
    {
      if index >= |reservations| || reservations[index].tenant != tenant || reservations[index].status != R.Active {
        return false;
      }
      var r := reservations[index];
      reservations := reservations[index := r.(status := R.Released)];
      ChangeReserved(tenant, r.slot, -(r.quantity as int));
      return true;
    }

    /** The expiry job: it looks at the status and the time again before it gives the quantity back. */
    method Expire(tenant: Tenant, index: nat, now: Time)
      modifies this`reservations, this`balances
      ensures Answer(State(), None) == Answered(old(State()), ExpireHold(tenant, index, now))
    {
      if index >= |reservations| || reservations[index].tenant != tenant || reservations[index].status != R.Active
         || reservations[index].expiresAt > now {
        return;
      }
      var r := reservations[index];
      reservations := reservations[index := r.(status := R.Expired)];
      ChangeReserved(tenant, r.slot, -(r.quantity as int));
    }

    /** Every active reservation of the cart and product, one `release` each. */
    method ReleaseReservations(tenant: Tenant, cartId: Id, productId: Id)
      modifies this`reservations, this`balances
      ensures Desk() == AllReleased(old(Desk()), tenant, cartId, productId)
    {
      ghost var before := Desk();
      var found := reservations;
      for i := 0 to |found|
        invariant |reservations| == |found|
        invariant Desk() == Released(before, tenant, cartId, productId, i)
      {
        if IsHoldOf(found[i], tenant, cartId, productId) {
          var _ := Release(tenant, i);
        }
      }
    }

    // ----- Carts ----------------------------------------------------------------------------

    method NewCart(tenant: Tenant, id: Id, locationId: Id, now: Time) returns (failure: Option<Error>)
      requires id !in sales && Unused(reservations, id)  // a new row's key
      modifies this
      ensures Answer(State(), failure) == Answered(old(State()), OpenCart(tenant, id, locationId, now))
    {
      sales := sales[id := Sale(tenant, locationId, Draft, [], 0, 0, 0, 0, 0, 0, [], [])];
      rows := rows[id := R.CartRow(tenant, true, now)];
      return None;
    }

    method AddItem(tenant: Tenant, id: Id, item: CartItem, catalogue: map<Id, Product>, live: bool, now: Time)
      returns (failure: Option<Error>)
      modifies this
      ensures Answer(State(), failure) == Answered(old(State()), AddToCart(tenant, id, item, catalogue, live, now))
    {
      AddAnswer(State(), AddToCart(tenant, id, item, catalogue, live, now));
      if id !in sales || sales[id].tenant != tenant || sales[id].status != Draft {
        return Some(NotFound);
      }
      if item.productId !in catalogue || catalogue[item.productId].tenant != tenant {
        return Some(ProductNotFound);
      }
      failure := ReserveAndWrite(id, item, catalogue[item.productId], live, now);
    }

    /** Reserve, then write the item and the totals. */
    method ReserveAndWrite(id: Id, item: CartItem, product: Product, live: bool, now: Time)
      returns (failure: Option<Error>)
      requires id in sales
      modifies this`sales, this`reservations, this`balances
      ensures var s := old(sales)[id];
              var hold := Hold(s, id, item.productId, item.quantity, now);
              if CanHold(old(State()).store, old(Desk()), hold, live, now) then
                && failure == None && Desk() == Held(old(Desk()), hold)
                && sales == old(sales)[id := Recalculated(s, Added(s.lines, item, product))]
              else failure == Some(ReservationFailed) && sales == old(sales) && Desk() == old(Desk())
    {
      var sale := sales[id];
      var reserved := Reserve(sale.tenant, Key(item.productId, sale.locationId), item.quantity, now + HOLD_TIME,
                              Some(id), live, now);
      if !reserved {
        return Some(ReservationFailed);
      }
      WriteNewItem(id, item, product);
      return None;
    }

    method WriteNewItem(id: Id, item: CartItem, product: Product)
      requires id in sales
      modifies this`sales
      ensures sales == old(sales)[id := Recalculated(old(sales)[id], Added(old(sales)[id].lines, item, product))]
    {
      var lines := AddOrGrow(sales[id].lines, item, product);
      sales := sales[id := sales[id].(lines := lines)];
      RecalculateCart(id);
    }

    /** The item's row is updated when the product is in the cart already, else created. */
    method AddOrGrow(lines: seq<Line>, item: CartItem, product: Product) returns (after: seq<Line>)
      ensures after == Added(lines, item, product)
    {
      var unitPrice := if item.unitPrice.Some? then item.unitPrice.value else MinPrice(product);
      var discountAmount := if item.discountAmount.Some? then item.discountAmount.value else 0;
      var lineTotal := unitPrice * item.quantity - discountAmount * item.quantity;
      LineTotalIsProduct(unitPrice, discountAmount, item.quantity);
      var existing := FindProduct(lines, item.productId);
      if existing.Some? {
        var line := lines[existing.value];
        var newQty := line.quantity + item.quantity;
        var newTotal := line.unitPrice * newQty - line.discountAmount * newQty;
        LineTotalIsProduct(line.unitPrice, line.discountAmount, newQty);
        after := lines[existing.value := line.(quantity := newQty, lineTotal := newTotal)];
      } else {
        after := lines + [Line(item.lineId, item.productId, item.quantity, unitPrice, 0, discountAmount, lineTotal)];
      }
    }

    method UpdateItem(tenant: Tenant, id: Id, lineId: Id, quantity: nat, unitPrice: Option<Money>,
                      discountAmount: Option<Money>, live: bool, now: Time)
      returns (failure: Option<Error>)
      modifies this
      ensures Answer(State(), failure)
           == Answered(old(State()), ChangeInCart(tenant, id, lineId, quantity, unitPrice, discountAmount, live, now))
    {
      if id !in sales || sales[id].tenant != tenant || sales[id].status != Draft {
        return Some(NotFound);
      }
      var found := FindLine(sales[id].lines, lineId);
      if found.None? {
        return Some(ItemNotFound);
      }
      ChangeEffect(State(), ChangeInCart(tenant, id, lineId, quantity, unitPrice, discountAmount, live, now),
                   found.value);
      failure := ReserveAnew(id, found.value, quantity, unitPrice, discountAmount, live, now);
    }

    /** Release the product's reservations, reserve the new quantity, then write the item and the totals. */
    method ReserveAnew(id: Id, i: nat, quantity: nat, unitPrice: Option<Money>, discountAmount: Option<Money>,
                       live: bool, now: Time)
      returns (failure: Option<Error>)
      requires id in sales && i < |sales[id].lines|
      modifies this`sales, this`reservations, this`balances
      ensures var s := old(sales)[id];
              var released := AllReleased(old(Desk()), s.tenant, id, s.lines[i].productId);
              var hold := Hold(s, id, s.lines[i].productId, quantity, now);
              if CanHold(old(State()).store, released, hold, live, now) then
                && failure == None && Desk() == Held(released, hold)
                && sales == old(sales)[id :=
                     Recalculated(s, s.lines[i := Changed(s.lines[i], quantity, unitPrice, discountAmount)])]
              else failure == Some(ReservationFailed) && sales == old(sales) && Desk() == released
    {
      var productId := sales[id].lines[i].productId;
      ReleaseIsExact(Desk(), sales[id].tenant, id, productId, |reservations|);
      ReleaseReservations(sales[id].tenant, id, productId);
      var reserved := Reserve(sales[id].tenant, Key(productId, sales[id].locationId), quantity, now + HOLD_TIME,
                              Some(id), live, now);
      if !reserved {
        return Some(ReservationFailed);
      }
      WriteChangedItem(id, i, quantity, unitPrice, discountAmount);
      return None;
    }

    method WriteChangedItem(id: Id, i: nat, quantity: nat, unitPrice: Option<Money>, discountAmount: Option<Money>)
      requires id in sales && i < |sales[id].lines|
      modifies this`sales
      ensures var s := old(sales)[id];
              sales == old(sales)[id :=
                Recalculated(s, s.lines[i := Changed(s.lines[i], quantity, unitPrice, discountAmount)])]
    {
      var line := sales[id].lines[i];
      var price := if unitPrice.Some? then unitPrice.value else line.unitPrice;
      var discount := if discountAmount.Some? then discountAmount.value else line.discountAmount;
      var lineTotal := price * quantity - discount * quantity;
      LineTotalIsProduct(price, discount, quantity);
      var lines := sales[id].lines[i :=
        line.(quantity := quantity, unitPrice := price, discountAmount := discount, lineTotal := lineTotal)];
      sales := sales[id := sales[id].(lines := lines)];
      RecalculateCart(id);
    }

    method RemoveItem(tenant: Tenant, id: Id, lineId: Id) returns (failure: Option<Error>)
      modifies this
      ensures Answer(State(), failure) == Answered(old(State()), RemoveFromCart(tenant, id, lineId))
    {
      RemoveAnswer(State(), RemoveFromCart(tenant, id, lineId));
      if id !in sales || sales[id].tenant != tenant || sales[id].status != Draft {
        return Some(NotFound);
      }
      var found := FindLine(sales[id].lines, lineId);
      if found.None? {
        return Some(ItemNotFound);
      }
      ReleaseAndDelete(tenant, id, found.value);
      return None;
    }

    /** Release the product's reservations, then delete the item and write the totals. */
    method ReleaseAndDelete(tenant: Tenant, id: Id, i: nat)
      requires id in sales && i < |sales[id].lines|
      modifies this`sales, this`reservations, this`balances
      ensures var s := old(sales)[id];
              && Desk() == AllReleased(old(Desk()), tenant, id, s.lines[i].productId)
              && sales == old(sales)[id := Recalculated(s, s.lines[..i] + s.lines[i + 1..])]
    {
      var lines := sales[id].lines;
      ReleaseReservations(tenant, id, lines[i].productId);
      sales := sales[id := sales[id].(lines := lines[..i] + lines[i + 1..])];
      RecalculateCart(id);
    }

    // ----- Sales ----------------------------------------------------------------------------

    method CompleteSale(tenant: Tenant, id: Id, payments: seq<Money>, stockAllowed: bool)
      returns (failure: Option<Error>)
      requires Coupled(State())
      modifies this
      ensures Answer(State(), failure) == Answered(old(State()), CompleteCart(tenant, id, payments, stockAllowed))
    {
      CompleteAnswer(State(), CompleteCart(tenant, id, payments, stockAllowed));
      if id !in sales || sales[id].tenant != tenant {
        return Some(NotFound);
      }
      var sale := sales[id];
      if sale.status != Draft {
        return Some(WrongStatus);
      }
      if sale.lines == [] {
        return Some(EmptyCart);
      }
      var subtotal, stockOutItems := AggregateSaleItems(sale.lines);
      var totalAmount := subtotal - sale.discountAmount + sale.taxAmount;
      var paidAmount := SumPayments(payments);
      if paidAmount < totalAmount {
        return Some(InsufficientPayment);
      }
      if !stockAllowed {
        return Some(StockRefused);
      }
      var available := ValidateAvailability(sale.locationId, stockOutItems);
      if !available {
        return Some(InsufficientStock);
      }
      ExecuteCompletion(id, payments, stockOutItems, paidAmount, CalculateChange(totalAmount, paidAmount));
      return None;
    }

    /** The completion transaction: payment rows, stock out, reservations fulfilled, then status and amounts. */
    method ExecuteCompletion(id: Id, payments: seq<Money>, stockOutItems: seq<StockItem>, paidAmount: Money,
                             changeAmount: Money)
      requires id in sales && id in rows && rows[id].draft
      modifies this
      ensures var s := old(sales)[id];
              sales == old(sales)[id := s.(status := Completed, payments := s.payments + payments,
                                           paidAmount := paidAmount, changeAmount := changeAmount)]
      ensures Stock(onHand, movements)
           == Post(Stock(old(onHand), old(movements)), Out, id, old(sales)[id].locationId, stockOutItems)
      ensures Desk() == R.SaleFulfilled(old(Desk()), id)
    {
      var locationId := sales[id].locationId;
      var _ := ProcessPayments(id, payments);
      MoveStock(Out, id, locationId, stockOutItems);
      reservations := R.WithStatus(reservations, {id}, R.Fulfilled);
      rows := rows[id := rows[id].(draft := false)];
      sales := sales[id := sales[id].(status := Completed, paidAmount := paidAmount, changeAmount := changeAmount)];
    }

    /** The stock service's check: each item alone, against on-hand minus reserved. */
    method ValidateAvailability(locationId: Id, items: seq<StockItem>) returns (enough: bool)
      ensures enough == Available(onHand, ReservedOf(Desk()), locationId, items)
    {
      for i := 0 to |items|
        invariant forall j | 0 <= j < i ::
          var k := Key(items[j].productId, locationId);
          OnHand(onHand, k) - Reserved(ReservedOf(Desk()), k) >= items[j].quantity
      {
        var k := Key(items[i].productId, locationId);
        var stock := if k in onHand then onHand[k] else 0;
        var reserved := if k in balances && balances[k].reserved >= 0 then balances[k].reserved else 0;
        if stock - reserved < items[i].quantity {
          return false;
        }
      }
      return true;
    }

    method SellNow(tenant: Tenant, id: Id, locationId: Id, locationKnown: bool, items: seq<QuickItem>,
                   discount: Option<Money>, payments: seq<Money>, catalogue: map<Id, Product>,
                   costs: map<Id, Money>, stockAllowed: bool, now: Time)
      returns (failure: Option<Error>)
      requires id !in sales
      requires forall i | 0 <= i < |items| :: items[i].quantity >= 0.0001  // checked on the request's body
      modifies this
      ensures Answer(State(), failure)
           == Answered(old(State()), Sell(tenant, id, locationId, locationKnown, items, discount, payments,
                                          catalogue, costs, stockAllowed, now))
    {
      SellAnswer(State(), Sell(tenant, id, locationId, locationKnown, items, discount, payments, catalogue, costs,
                               stockAllowed, now));
      if !locationKnown {
        return Some(NotFound);
      }
      if items == [] {
        return Some(EmptyItems);
      }
      if payments == [] {
        return Some(NoPayments);
      }
      var loaded := LoadProducts(catalogue, tenant, items);
      if !loaded {
        return Some(ProductNotFound);
      }
      failure := SellKnown(tenant, id, locationId, items, discount, payments, catalogue, costs, stockAllowed, now);
    }

    /** Every item's product must be one of the tenant's. */
    method LoadProducts(catalogue: map<Id, Product>, tenant: Tenant, items: seq<QuickItem>) returns (loaded: bool)
      requires forall i | 0 <= i < |items| :: items[i].quantity >= 0.0001
      ensures loaded == Acceptable(catalogue, tenant, items)
    {
      for i := 0 to |items|
        invariant forall j | 0 <= j < i :: KnownProduct(catalogue, tenant, items[j].productId)
      {
        if items[i].productId !in catalogue || catalogue[items[i].productId].tenant != tenant {
          return false;
        }
      }
      return true;
    }

    /** The rest of a quick sale, its products known: stock, rows and totals, then the sale itself. */
    method SellKnown(tenant: Tenant, id: Id, locationId: Id, items: seq<QuickItem>, discount: Option<Money>,
                     payments: seq<Money>, catalogue: map<Id, Product>, costs: map<Id, Money>, stockAllowed: bool,
                     now: Time)
      returns (failure: Option<Error>)
      requires Acceptable(catalogue, tenant, items)
      modifies this`sales, this`rows, this`onHand, this`movements
      ensures var sale := QuickSaleRow(tenant, locationId, ProcessItems(catalogue, costs, tenant, items), discount,
                                       payments);
              var stockItems := StockItems(sale.lines);
              && failure == (if !AvailableForQuickSale(old(State()).store, ReservedOf(old(Desk())), locationId, items)
                             then Some(InsufficientStock)
                             else if sale.paidAmount < sale.totalAmount then Some(InsufficientPayment)
                             else if !stockAllowed then Some(StockRefused)
                             else if !Available(old(onHand), ReservedOf(old(Desk())), locationId, stockItems)
                             then Some(InsufficientStock)
                             else None)
              && State() == if failure != None then old(State())
                            else Shop(Store(old(sales)[id := sale],
                                            Post(Stock(old(onHand), old(movements)), Out, id, locationId, stockItems)),
                                      old(Desk()).(sales := old(rows)[id := R.CartRow(tenant, false, now)]))
    {
      var enough := HasStockFor(items, locationId);
      if !enough {
        return Some(InsufficientStock);
      }
      var lines := ProcessRows(catalogue, costs, tenant, items);
      var sale := CalculateTotals(tenant, locationId, lines, discount, payments);
      failure := ExecuteSale(id, sale, stockAllowed, now);
    }

    /** `processItems`: a row for each item, its quantity rounded down. */
    method ProcessRows(catalogue: map<Id, Product>, costs: map<Id, Money>, tenant: Tenant, items: seq<QuickItem>)
      returns (rows: seq<Line>)
      requires Acceptable(catalogue, tenant, items)
      ensures rows == ProcessItems(catalogue, costs, tenant, items)
    {
      rows := [];
      for i := 0 to |items|
        invariant rows == ProcessItems(catalogue, costs, tenant, items[..i])
      {
        var item, product := items[i], catalogue[items[i].productId];
        var unitCost := if item.productId in costs then costs[item.productId] else 0;
        var unitPrice := if item.unitPrice.Some? && item.unitPrice.value != 0 then item.unitPrice.value
                         else if product.minSellingPrice.Some? then product.minSellingPrice.value
                         else 0;
        var discountAmount := if item.discountAmount.Some? then item.discountAmount.value else 0;
        var quantity := item.quantity.Floor;
        var lineTotal := unitPrice * quantity - discountAmount * quantity;
        LineTotalIsProduct(unitPrice, discountAmount, quantity);
        rows := rows + [Line(item.lineId, item.productId, quantity, unitPrice, unitCost, discountAmount, lineTotal)];
        assert items[..i + 1][..i] == items[..i];
      }
      assert items[..|items|] == items;
    }

    method SumPayments(payments: seq<Money>) returns (paidAmount: Money)
      ensures paidAmount == Sum(payments)
    {
      paidAmount := 0;
      for i := 0 to |payments|
        invariant paidAmount == Sum(payments[..i])
      {
        paidAmount := paidAmount + payments[i];
        assert payments[..i + 1][..i] == payments[..i];
      }
      assert payments[..|payments|] == payments;
    }

    /** `calculateTotals`, and the sale's row with them. */
    method CalculateTotals(tenant: Tenant, locationId: Id, lines: seq<Line>, discount: Option<Money>,
                           payments: seq<Money>)
      returns (sale: Sale)
      ensures sale == QuickSaleRow(tenant, locationId, lines, discount, payments)
    {
      var subtotal, _ := AggregateSaleItems(lines);
      var discountAmount := if discount.Some? then discount.value else 0;
      var taxAmount := 0;
      var totalAmount := subtotal - discountAmount + taxAmount;
      var paidAmount := SumPayments(payments);
      sale := Sale(tenant, locationId, Completed, lines, subtotal, discountAmount, taxAmount, totalAmount, paidAmount,
                   paidAmount - totalAmount, payments, []);
    }

    /** Payment and stock are checked, then the sale is written and its stock taken. */
    method ExecuteSale(id: Id, sale: Sale, stockAllowed: bool, now: Time) returns (failure: Option<Error>)
      modifies this`sales, this`rows, this`onHand, this`movements
      ensures var items := StockItems(sale.lines);
              && failure == (if sale.paidAmount < sale.totalAmount then Some(InsufficientPayment)
                             else if !stockAllowed then Some(StockRefused)
                             else if !Available(old(onHand), ReservedOf(old(Desk())), sale.locationId, items)
                                 then Some(InsufficientStock)
                             else None)
              && State() == if failure != None then old(State())
                            else Shop(Store(old(sales)[id := sale],
                                            Post(Stock(old(onHand), old(movements)), Out, id, sale.locationId, items)),
                                      old(Desk()).(sales := old(rows)[id := R.CartRow(sale.tenant, false, now)]))
    {
      if sale.paidAmount < sale.totalAmount {
        return Some(InsufficientPayment);
      }
      if !stockAllowed {
        return Some(StockRefused);
      }
      var _, stockItems := AggregateSaleItems(sale.lines);
      var available := ValidateAvailability(sale.locationId, stockItems);
      if !available {
        return Some(InsufficientStock);
      }
      sales := sales[id := sale];
      rows := rows[id := R.CartRow(sale.tenant, false, now)];
      MoveStock(Out, id, sale.locationId, stockItems);
      return None;
    }

    /** Each item alone, by its quantity before rounding, against on-hand minus reserved. */
    method HasStockFor(items: seq<QuickItem>, locationId: Id) returns (enough: bool)
      ensures enough == AvailableForQuickSale(State().store, ReservedOf(Desk()), locationId, items)
    {
      for i := 0 to |items|
        invariant forall j | 0 <= j < i ::
          var k := Key(items[j].productId, locationId);
          (OnHand(onHand, k) - Reserved(ReservedOf(Desk()), k)) as real >= items[j].quantity
      {
        var k := Key(items[i].productId, locationId);
        var stock := if k in onHand then onHand[k] else 0;
        var reserved := if k in balances && balances[k].reserved >= 0 then balances[k].reserved else 0;
        if (stock - reserved) as real < items[i].quantity {
          return false;
        }
      }
      return true;
    }

    /** The status first, then one reversal movement and one balance increment per line. */
    method Void(tenant: Tenant, id: Id) returns (failure: Option<Error>)
      modifies this
      ensures Answer(State(), failure) == Answered(old(State()), VoidSale(tenant, id))
    {
      VoidAnswer(State(), VoidSale(tenant, id));
      if id !in sales || sales[id].tenant != tenant {
        return Some(NotFound);
      }
      var sale := sales[id];
      if sale.status != Completed {
        return Some(WrongStatus);
      }
      sales := sales[id := sale.(status := Voided)];
      PutBack(id, sale);
      return None;
    }

    method PutBack(id: Id, sale: Sale)
      modifies this`onHand, this`movements
      ensures Stock(onHand, movements)
           == Post(Stock(old(onHand), old(movements)), Reversal, id, sale.locationId, StockItems(sale.lines))
    {
      ghost var before := Stock(onHand, movements);
      ghost var items := StockItems(sale.lines);
      for i := 0 to |sale.lines|
        invariant Stock(onHand, movements) == Post(before, Reversal, id, sale.locationId, items[..i])
      {
        var k := Key(sale.lines[i].productId, sale.locationId);
        movements := movements + [Movement(Reversal, id, k, sale.lines[i].quantity)];
        if k in onHand {
          onHand := onHand[k := onHand[k] + sale.lines[i].quantity];
        }
        assert items[..i + 1][..i] == items[..i];
      }
      assert items[..|sale.lines|] == items;
    }

    // ----- Stock requests --------------------------------------------------------------------

    method ReceiveItems(reference: Id, locationId: Id, items: seq<StockItem>, stockAllowed: bool)
      returns (failure: Option<Error>)
      modifies this`onHand, this`movements
      ensures Answer(State(), failure)
           == Answered(old(State()), ReceiveStock(reference, locationId, items, stockAllowed))
    {
      if !stockAllowed {
        return Some(StockRefused);
      }
      MoveStock(Received, reference, locationId, items);
      return None;
    }

    method IssueItems(reference: Id, locationId: Id, items: seq<StockItem>, stockAllowed: bool)
      returns (failure: Option<Error>)
      modifies this`onHand, this`movements
      ensures Answer(State(), failure) == Answered(old(State()), IssueStock(reference, locationId, items, stockAllowed))
    {
      if !stockAllowed {
        return Some(StockRefused);
      }
      var available := ValidateAvailability(locationId, items);
      if !available {
        return Some(InsufficientStock);
      }
      MoveStock(Issued, reference, locationId, items);
      return None;
    }

    /** The items that lower stock, with their absolute quantities. */
    method NegativeItems(changes: seq<Change>) returns (items: seq<StockItem>)
      ensures items == Lowered(changes)
    {
      items := [];
      for i := 0 to |changes|
        invariant items == Lowered(changes[..i])
      {
        assert changes[..i + 1][..i] == changes[..i];
        if changes[i].amount < 0 {
          items := items + [StockItem(changes[i].productId, -changes[i].amount)];
        }
      }
      assert changes[..|changes|] == changes;
    }

    method AdjustItems(reference: Id, locationId: Id, changes: seq<Change>, stockAllowed: bool)
      returns (failure: Option<Error>)
      modifies this`onHand, this`movements
      ensures Answer(State(), failure)
           == Answered(old(State()), AdjustStock(reference, locationId, changes, stockAllowed))
    {
      if !stockAllowed {
        return Some(StockRefused);
      }
      var negativeItems := NegativeItems(changes);
      var available := ValidateAvailability(locationId, negativeItems);
      if !available {
        return Some(InsufficientStock);
      }
      PostChanges(reference, locationId, changes);
      return None;
    }

    /** A movement and a balance update per item; an amount of zero is an issue of nothing. */
    method PostChanges(reference: Id, locationId: Id, changes: seq<Change>)
      modifies this`onHand, this`movements
      ensures Stock(onHand, movements) == Adjusted(Stock(old(onHand), old(movements)), reference, locationId, changes)
    {
      ghost var before := Stock(onHand, movements);
      for i := 0 to |changes|
        invariant Stock(onHand, movements) == Adjusted(before, reference, locationId, changes[..i])
      {
        var k := Key(changes[i].productId, locationId);
        if changes[i].amount > 0 {
          movements := movements + [Movement(Received, reference, k, changes[i].amount)];
          onHand := UpdateBalance(onHand, k, changes[i].amount);
        } else {
          movements := movements + [Movement(Issued, reference, k, -changes[i].amount)];
          onHand := UpdateBalance(onHand, k, changes[i].amount);
        }
        assert changes[..i + 1][..i] == changes[..i];
      }
      assert changes[..|changes|] == changes;
    }

    // ----- Refunds --------------------------------------------------------------------------

    method CreateRefund(tenant: Tenant, id: Id, amount: Money, returned: seq<RefundItem>, stockAllowed: bool)
      returns (failure: Option<Error>)
      modifies this
      ensures Answer(State(), failure) == Answered(old(State()), RefundSale(tenant, id, amount, returned, stockAllowed))
    {
      if id !in sales || sales[id].tenant != tenant {
        return Some(NotFound);
      }
      var sale := sales[id];
      if sale.status != Completed && sale.status != PartiallyRefunded {
        return Some(WrongStatus);
      }
      var totalRefunded := Sum(sale.refunds);
      var maxRefundable := sale.paidAmount - totalRefunded - sale.changeAmount;
      if amount > maxRefundable {
        return Some(ExceedsRefundable);
      }
      var stockInItems := CollectReturns(sale.lines, returned);
      if stockInItems.None? {
        return Some(ItemNotFound);
      }
      if stockInItems.value != [] && !stockAllowed {
        return Some(StockRefused);
      }
      MoveStock(Return, id, sale.locationId, stockInItems.value);
      var newTotalRefunded := totalRefunded + amount;
      var newStatus := if newTotalRefunded >= sale.paidAmount - sale.changeAmount then Refunded else PartiallyRefunded;
      sales := sales[id := sale.(refunds := sale.refunds + [amount], status := newStatus)];
      return None;
    }

    /** Each returned item must be a line of the sale; its quantity is taken as given. */
    method CollectReturns(lines: seq<Line>, returned: seq<RefundItem>) returns (stockInItems: Option<seq<StockItem>>)
      ensures stockInItems == RefundStock(lines, returned)
    {
      var items: seq<StockItem> := [];
      for i := 0 to |returned|
        invariant RefundStock(lines, returned[..i]) == Some(items)
      {
        var found := FindLine(lines, returned[i].saleItemId);
        assert returned[..i + 1][..i] == returned[..i];
        if found.None? {
          RefundStockStaysNone(lines, returned, i + 1);
          return None;
        }
        items := items + [StockItem(lines[found.value].productId, returned[i].quantity)];
      }
      assert returned[..|returned|] == returned;
      return Some(items);
    }
  }

  lemma {:induction false} RefundStockStaysNone(lines: seq<Line>, returned: seq<RefundItem>, i: nat)
    requires i <= |returned| && RefundStock(lines, returned[..i]) == None
    ensures RefundStock(lines, returned) == None
    decreases |returned|
  {
    if i < |returned| {
      assert returned[..|returned| - 1][..i] == returned[..i];
      RefundStockStaysNone(lines, returned[..|returned| - 1], i);
    } else {
      assert returned[..i] == returned;
    }
  }
}
