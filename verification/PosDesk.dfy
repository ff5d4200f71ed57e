/**
  The point of sale as one system: carts, sales and stock requests together with the
  reservations, so that what `Sales` takes as given is what `Reservations` answers.

  Each request is one atomic step. A request that fails changes nothing, except that a cart
  update whose new reservation is refused has already released the old ones.
*/
module PosDesk {
  import R = Reservations
  import opened Amounts
  import opened Sales
  import opened StockLedger
  import opened Wrappers

  type Time = R.Time

  datatype Shop = Shop(store: Store, desk: R.Desk)

  /** A cart's reservation lasts thirty minutes. */
  const HOLD_TIME: Time := 30 * 60 * 1000

  /** `live`: the product is not deleted and the location known. */
  datatype Command =
    | OpenCart(tenant: Tenant, id: Id, locationId: Id, now: Time)
    | AddToCart(tenant: Tenant, id: Id, item: CartItem, catalogue: map<Id, Product>, live: bool, now: Time)
    | ChangeInCart(tenant: Tenant, id: Id, lineId: Id, quantity: nat, unitPrice: Option<Money>,
                   discountAmount: Option<Money>, live: bool, now: Time)
    | RemoveFromCart(tenant: Tenant, id: Id, lineId: Id)
    | CompleteCart(tenant: Tenant, id: Id, payments: seq<Money>, stockAllowed: bool)
    | Sell(tenant: Tenant, id: Id, locationId: Id, locationKnown: bool, items: seq<QuickItem>, discount: Option<Money>,
           payments: seq<Money>, catalogue: map<Id, Product>, costs: map<Id, Money>, stockAllowed: bool, now: Time)
    | VoidSale(tenant: Tenant, id: Id)
    | RefundSale(tenant: Tenant, id: Id, amount: Money, returned: seq<RefundItem>, stockAllowed: bool)
    | ReceiveStock(reference: Id, locationId: Id, received: seq<StockItem>, stockAllowed: bool)
    | IssueStock(reference: Id, locationId: Id, issued: seq<StockItem>, stockAllowed: bool)
    | AdjustStock(reference: Id, locationId: Id, changes: seq<Change>, stockAllowed: bool)
    | ReserveDirect(hold: R.Reservation, live: bool, now: Time)
    | PatchHold(tenant: Tenant, index: nat, patch: R.Patch, now: Time)
    | ReleaseHold(tenant: Tenant, index: nat)
    | ExpireHold(tenant: Tenant, index: nat, now: Time)
    | CleanUpCarts(now: Time)

  datatype Answer = Answer(after: Shop, failure: Option<Error>)

  // ----- Reservations of a cart ---------------------------------------------------------------

  function Hold(s: Sale, id: Id, productId: Id, quantity: nat, now: Time): R.Reservation {
    R.Reservation(s.tenant, Key(productId, s.locationId), quantity, R.Active, now + HOLD_TIME, Some(id))
  }

  predicate CanHold(st: Store, d: R.Desk, hold: R.Reservation, live: bool, now: Time) {
    R.Reservable(d, hold, live, now, OnHand(st.stock.onHand, hold.slot))
  }

  function Held(d: R.Desk, hold: R.Reservation): R.Desk {
    d.(reservations := d.reservations + [hold],
       balances := R.Reserve(d.balances, hold.tenant, hold.slot, hold.quantity))
  }

  predicate IsHoldOf(r: R.Reservation, tenant: Tenant, id: Id, productId: Id) {
    r.tenant == tenant && r.saleId == Some(id) && r.slot.productId == productId && r.status == R.Active
  }

  /** `releaseReservations`, up to the n-th row: each active reservation of the cart and product in turn. */
  function Released(d: R.Desk, tenant: Tenant, id: Id, productId: Id, n: nat): R.Desk
    requires n <= |d.reservations|
  {
    if n == 0 then d
    else
      var before := Released(d, tenant, id, productId, n - 1);
      if IsHoldOf(d.reservations[n - 1], tenant, id, productId)
      then R.Ended(before, tenant, n - 1, R.Released)
      else before
  }

  function AllReleased(d: R.Desk, tenant: Tenant, id: Id, productId: Id): R.Desk {
    Released(d, tenant, id, productId, |d.reservations|)
  }

  /** The reserved quantities the stock service compares with. */
  function ReservedOf(d: R.Desk): map<Key, nat> {
    map k <- d.balances | d.balances[k].reserved >= 0 :: d.balances[k].reserved
  }

  // ----- Requests -------------------------------------------------------------------------------

  /** A request that touches the sales, with what it makes of the reservations when it succeeds. */
  function Taken(shop: Shop, r: Request, desk: R.Desk): Answer {
    match Outcome(shop.store, r)
    case Ok(st) => Answer(Shop(st, desk), None)
    case Err(e) => Answer(shop, Some(e))
  }

  /** A new cart's key is one nothing refers to yet. */
  predicate Unused(rs: seq<R.Reservation>, id: Id) { forall i | 0 <= i < |rs| :: rs[i].saleId != Some(id) }

  function CartOpened(shop: Shop, c: Command): Answer
    requires c.OpenCart?
  {
    if !Unused(shop.desk.reservations, c.id) then Answer(shop, Some(NotFound))
    else Taken(shop, CreateCart(c.tenant, c.id, c.locationId),
          shop.desk.(sales := shop.desk.sales[c.id := R.CartRow(c.tenant, true, c.now)]))
  }

  /** Stock is reserved before the item is written. */
  function ItemAdded(shop: Shop, c: Command): Answer
    requires c.AddToCart?
  {
    if !IsCart(shop.store, c.tenant, c.id) then Answer(shop, Some(NotFound))
    else
      var hold := Hold(shop.store.sales[c.id], c.id, c.item.productId, c.item.quantity, c.now);
      Taken(shop, AddItem(c.tenant, c.id, c.item, c.catalogue, CanHold(shop.store, shop.desk, hold, c.live, c.now)),
            Held(shop.desk, hold))
  }

  /** The product's reservations are released, then the new quantity is reserved, then the item is written. */
  function ItemChanged(shop: Shop, c: Command): Answer
    requires c.ChangeInCart?
  {
    if !IsCart(shop.store, c.tenant, c.id) then Answer(shop, Some(NotFound))
    else
      var s := shop.store.sales[c.id];
      match FindLine(s.lines, c.lineId)
      case None => Answer(shop, Some(ItemNotFound))
      case Some(i) =>
        var released := AllReleased(shop.desk, c.tenant, c.id, s.lines[i].productId);
        var hold := Hold(s, c.id, s.lines[i].productId, c.quantity, c.now);
        if !CanHold(shop.store, released, hold, c.live, c.now)
        then Answer(shop.(desk := released), Some(ReservationFailed))
        else Taken(shop, UpdateItem(c.tenant, c.id, c.lineId, c.quantity, c.unitPrice, c.discountAmount, true),
                   Held(released, hold))
  }

  function ItemRemoved(shop: Shop, c: Command): Answer
    requires c.RemoveFromCart?
  {
    if !IsCart(shop.store, c.tenant, c.id) then Answer(shop, Some(NotFound))
    else
      var s := shop.store.sales[c.id];
      match FindLine(s.lines, c.lineId)
      case None => Answer(shop, Some(ItemNotFound))
      case Some(i) => Taken(shop, RemoveItem(c.tenant, c.id, c.lineId),
                            AllReleased(shop.desk, c.tenant, c.id, s.lines[i].productId))
  }

  /** What is on hand where a stored reservation is. */
  function OnHandAt(shop: Shop, index: nat): int {
    if index < |shop.desk.reservations| then OnHand(shop.store.stock.onHand, shop.desk.reservations[index].slot) else 0
  }

  /** Requests that concern a cart's lines. */
  predicate OfLines(c: Command) { c.AddToCart? || c.ChangeInCart? || c.RemoveFromCart? }

  /** Requests made to the reservation component directly. */
  predicate OfHolds(c: Command) { c.ReserveDirect? || c.PatchHold? || c.ReleaseHold? || c.ExpireHold? }

  /** The event of the reservation component behind such a request. */
  function HoldEvent(shop: Shop, c: Command): R.Event
    requires OfHolds(c)
  {
    match c
    case ReserveDirect(hold, live, now) =>
      R.MakeReservation(hold, live, now, OnHand(shop.store.stock.onHand, hold.slot))
    case PatchHold(tenant, i, patch, now) => R.PatchReservation(tenant, i, patch, now, OnHandAt(shop, i))
    case ReleaseHold(tenant, i) => R.ReleaseReservation(tenant, i)
    case ExpireHold(tenant, i, now) => R.ExpireReservation(tenant, i, now)
  }

  function HoldsChanged(shop: Shop, c: Command): Answer
    requires OfHolds(c)
  {
    Answer(shop.(desk := R.Step(shop.desk, HoldEvent(shop, c))), None)
  }

  function Answered(shop: Shop, c: Command): Answer {
    match c
    case OpenCart(_, _, _, _) => CartOpened(shop, c)
    case AddToCart(_, _, _, _, _, _) => ItemAdded(shop, c)
    case ChangeInCart(_, _, _, _, _, _, _, _) => ItemChanged(shop, c)
    case RemoveFromCart(_, _, _) => ItemRemoved(shop, c)
    case CompleteCart(tenant, id, payments, stockAllowed) =>
      Taken(shop, Complete(tenant, id, payments, ReservedOf(shop.desk), stockAllowed), R.SaleFulfilled(shop.desk, id))
    case Sell(tenant, id, locationId, known, items, discount, payments, catalogue, costs, stockAllowed, now) =>
      Taken(shop, QuickSale(tenant, id, locationId, known, items, discount, payments, catalogue, costs,
                            ReservedOf(shop.desk), stockAllowed),
            shop.desk.(sales := shop.desk.sales[id := R.CartRow(tenant, false, now)]))
    case VoidSale(tenant, id) => Taken(shop, Void(tenant, id), shop.desk)
    case RefundSale(tenant, id, amount, returned, stockAllowed) =>
      Taken(shop, Refund(tenant, id, amount, returned, stockAllowed), shop.desk)
    case ReceiveStock(reference, locationId, items, stockAllowed) =>
      Taken(shop, StockIn(reference, locationId, items, stockAllowed), shop.desk)
    case IssueStock(reference, locationId, items, stockAllowed) =>
      Taken(shop, StockOut(reference, locationId, items, ReservedOf(shop.desk), stockAllowed), shop.desk)
    case AdjustStock(reference, locationId, changes, stockAllowed) =>
      Taken(shop, Adjust(reference, locationId, changes, ReservedOf(shop.desk), stockAllowed), shop.desk)
    case ReserveDirect(_, _, _) => HoldsChanged(shop, c)
    case PatchHold(_, _, _, _) => HoldsChanged(shop, c)
    case ReleaseHold(_, _) => HoldsChanged(shop, c)
    case ExpireHold(_, _, _) => HoldsChanged(shop, c)
    case CleanUpCarts(now) =>
      Taken(shop, DeleteDrafts(R.AbandonedCarts(shop.desk.sales, now)), R.CleanedUp(shop.desk, now))
  }

  function After(shop: Shop, c: Command): Shop { Answered(shop, c).after }

  function RunAll(shop: Shop, commands: seq<Command>): Shop {
    if commands == [] then shop else After(RunAll(shop, commands[..|commands| - 1]), commands[|commands| - 1])
  }
}
