/**
  What every reachable point of sale satisfies: the sales and the reservations stay valid
  together, and exactly how each command moves what a cart holds against what its lines ask for.
*/
module PosDeskInvariants {
  import R = Reservations
  import opened Amounts
  import opened PosDesk
  import opened Sales
  import opened SaleInvariants
  import opened StockLedger
  import opened Wrappers

  // ----- Invariant ----------------------------------------------------------------------------

  /** Both components show the same sales. */
  predicate Coupled(shop: Shop) {
    && shop.desk.sales.Keys == shop.store.sales.Keys
    && forall id <- shop.store.sales ::
         && shop.desk.sales[id].tenant == shop.store.sales[id].tenant
         && (shop.desk.sales[id].draft <==> shop.store.sales[id].status == Draft)
  }

  predicate IsDraft(st: Store, id: Id) { id in st.sales && st.sales[id].status == Draft }

  /** How far what a sale's active reservations hold of a product falls short of what its lines ask for. */
  function Gap(lines: seq<Line>, rs: seq<R.Reservation>, id: Id, slot: Key): int {
    Quantity(StockItems(lines), slot.productId) - R.HeldBy(rs, {id}, slot)
  }

  function SlotOf(st: Store, id: Id, p: Id): Key
    requires id in st.sales
  {
    Key(p, st.sales[id].locationId)
  }

  function Short(shop: Shop, id: Id, p: Id): int
    requires id in shop.store.sales
  {
    Gap(shop.store.sales[id].lines, shop.desk.reservations, id, SlotOf(shop.store, id, p))
  }

  ghost predicate DeskSound(d: R.Desk) { R.WellKept(d) && forall slot :: R.Drift(d, slot) >= 0 }

  predicate Owns(owners: map<Id, Tenant>, tenant: Tenant, p: Id) { p in owners && owners[p] == tenant }

  /** Every product of the sale belongs to its tenant. */
  predicate LinesOwned(owners: map<Id, Tenant>, s: Sale) {
    forall i | 0 <= i < |s.lines| :: Owns(owners, s.tenant, s.lines[i].productId)
  }

  /** What is known of a cart's lines. */
  predicate LinesSound(owners: map<Id, Tenant>, s: Sale) { OneLineEach(s.lines) && LinesOwned(owners, s) }

  ghost predicate CartsSound(shop: Shop) {
    forall id <- shop.store.sales | IsDraft(shop.store, id) ::
      LinesSound(shop.desk.owners, shop.store.sales[id])
  }

  ghost predicate HoldsSound(shop: Shop) { DeskSound(shop.desk) && Coupled(shop) && CartsSound(shop) }

  ghost predicate ShopSound(shop: Shop) { Valid(shop.store) && HoldsSound(shop) }

  // ----- Quantities held ------------------------------------------------------------------------

  /** What a reservation counts for a sale at a slot. */
  function Counts(r: R.Reservation, id: Id, slot: Key): nat {
    if R.OfSales(r, {id}) && r.slot == slot then r.quantity else 0
  }

  lemma HeldSnoc(rs: seq<R.Reservation>, r: R.Reservation, id: Id, slot: Key)
    ensures R.HeldBy(rs + [r], {id}, slot) == R.HeldBy(rs, {id}, slot) + Counts(r, id, slot)
  {
    assert (rs + [r])[..|rs|] == rs;
  }

  lemma {:induction false} HeldReplace(rs: seq<R.Reservation>, i: nat, r: R.Reservation, id: Id, slot: Key)
    requires i < |rs|
    ensures R.HeldBy(rs[i := r], {id}, slot)
         == R.HeldBy(rs, {id}, slot) - Counts(rs[i], id, slot) + Counts(r, id, slot)
  {
    var n := |rs| - 1;
    if i < n {
      assert rs[i := r][..n] == rs[..n][i := r];
      HeldReplace(rs[..n], i, r, id, slot);
    } else {
      assert rs[i := r][..n] == rs[..n];
    }
  }

  /** Ending the reservations of some sales leaves those of every other sale. */
  lemma {:induction false} HeldAfterStatus(rs: seq<R.Reservation>, gone: set<Id>, status: R.ReservationStatus, id: Id,
                                           slot: Key)
    requires status != R.Active && id !in gone
    ensures R.HeldBy(R.WithStatus(rs, gone, status), {id}, slot) == R.HeldBy(rs, {id}, slot)
  {
    if rs != [] {
      var n := |rs| - 1;
      HeldAfterStatus(rs[..n], gone, status, id, slot);
      assert R.WithStatus(rs, gone, status)[..n] == R.WithStatus(rs[..n], gone, status);
    }
  }

  lemma EventKeepsDesk(d: R.Desk, e: R.Event)
    requires DeskSound(d)
    ensures DeskSound(R.Step(d, e))
  {
    R.StepKeepsWellKept(d, e);
    forall slot ensures R.Drift(R.Step(d, e), slot) >= 0 {
      assert R.Drift(d, slot) >= 0;
      R.StepDrift(d, e, slot);
    }
  }

  predicate RowsReleased(rs: seq<R.Reservation>, after: seq<R.Reservation>, tenant: Tenant, id: Id, p: Id, n: nat) {
    && |after| == |rs|
    && forall i | 0 <= i < |rs| ::
         after[i] == if i < n && IsHoldOf(rs[i], tenant, id, p) then rs[i].(status := R.Released) else rs[i]
  }

  lemma {:induction false} ReleaseKeepsDesk(d: R.Desk, tenant: Tenant, id: Id, p: Id, n: nat)
    requires DeskSound(d) && n <= |d.reservations|
    ensures DeskSound(Released(d, tenant, id, p, n))
  {
    if n > 0 {
      ReleaseKeepsDesk(d, tenant, id, p, n - 1);
      EventKeepsDesk(Released(d, tenant, id, p, n - 1), R.ReleaseReservation(tenant, n - 1));
    }
  }

  /** The release loop ends exactly the cart's reservations of the product. */
  lemma {:induction false} ReleaseIsExact(d: R.Desk, tenant: Tenant, id: Id, p: Id, n: nat)
    requires n <= |d.reservations|
    ensures var after := Released(d, tenant, id, p, n);
            && after.sales == d.sales && after.owners == d.owners
            && RowsReleased(d.reservations, after.reservations, tenant, id, p, n)
  {
    if n > 0 { ReleaseIsExact(d, tenant, id, p, n - 1); }
  }

  lemma {:induction false} HeldWhenReleased(rs: seq<R.Reservation>, after: seq<R.Reservation>, tenant: Tenant, id: Id,
                                            p: Id,
                                            other: Id, slot: Key)
    requires RowsReleased(rs, after, tenant, id, p, |rs|)
    requires forall i | 0 <= i < |rs| && rs[i].slot.productId == p :: rs[i].tenant == tenant
    ensures R.HeldBy(after, {other}, slot)
         == if other == id && slot.productId == p then 0 else R.HeldBy(rs, {other}, slot)
  {
    if rs != [] {
      var n := |rs| - 1;
      assert forall i | 0 <= i < n :: rs[..n][i] == rs[i] && after[..n][i] == after[i];
      HeldWhenReleased(rs[..n], after[..n], tenant, id, p, other, slot);
    }
  }

  // ----- Gaps -----------------------------------------------------------------------------------

  /** A reservation of a sale at a slot. */
  predicate Holds(r: R.Reservation, id: Id, slot: Key, quantity: nat) {
    r.status == R.Active && r.saleId == Some(id) && r.slot == slot && r.quantity == quantity
  }

  lemma GapOfOthers(lines: seq<Line>, rs: seq<R.Reservation>, hold: R.Reservation, id: Id, slot: Key)
    requires hold.saleId != Some(id)
    ensures Gap(lines, rs + [hold], id, slot) == Gap(lines, rs, id, slot)
  {
    HeldSnoc(rs, hold, id, slot);
  }

  lemma GapWhenAdded(lines: seq<Line>, rs: seq<R.Reservation>, item: CartItem, product: Product, hold: R.Reservation,
                     id: Id, slot: Key)
    requires Holds(hold, id, Key(item.productId, slot.locationId), item.quantity)
    ensures Gap(Added(lines, item, product), rs + [hold], id, slot) == Gap(lines, rs, id, slot)
  {
    HeldSnoc(rs, hold, id, slot);
    AddedTakes(lines, item, product, slot.productId);
  }

  lemma GapWhenChanged(lines: seq<Line>, rs: seq<R.Reservation>, i: nat, quantity: nat, unitPrice: Option<Money>,
                       discountAmount: Option<Money>, hold: R.Reservation, id: Id, slot: Key)
    requires i < |lines| && OneLineEach(lines) && Holds(hold, id, Key(lines[i].productId, slot.locationId), quantity)
    requires lines[i].productId == slot.productId ==> R.HeldBy(rs, {id}, slot) == 0
    ensures Gap(lines[i := Changed(lines[i], quantity, unitPrice, discountAmount)], rs + [hold], id, slot)
         == if lines[i].productId == slot.productId then 0 else Gap(lines, rs, id, slot)
  {
    HeldSnoc(rs, hold, id, slot);
    OnlyLineTakes(lines, i);
    ChangedTakes(lines, i, quantity, unitPrice, discountAmount, slot.productId);
  }

  lemma GapWhenRemoved(lines: seq<Line>, rs: seq<R.Reservation>, i: nat, id: Id, slot: Key)
    requires i < |lines| && OneLineEach(lines)
    requires lines[i].productId == slot.productId ==> R.HeldBy(rs, {id}, slot) == 0
    ensures Gap(lines[..i] + lines[i + 1..], rs, id, slot)
         == if lines[i].productId == slot.productId then 0 else Gap(lines, rs, id, slot)
  {
    OnlyLineTakes(lines, i);
    RemovedTakes(lines, i, slot.productId);
  }

  // ----- What each command does to one cart and product ---------------------------------------------

  /** The command changes or removes the cart's line of the product. */
  predicate Edits(st: Store, c: Command, id: Id, p: Id) {
    && (c.ChangeInCart? || c.RemoveFromCart?) && c.id == id && IsCart(st, c.tenant, id)
    && var i := FindLine(st.sales[id].lines, c.lineId);
       i.Some? && st.sales[id].lines[i.value].productId == p
  }

  /** The line a cart edit is about. */
  function EditedLine(st: Store, c: Command): Line
    requires (c.ChangeInCart? || c.RemoveFromCart?) && IsCart(st, c.tenant, c.id)
    requires FindLine(st.sales[c.id].lines, c.lineId).Some?
  {
    st.sales[c.id].lines[FindLine(st.sales[c.id].lines, c.lineId).value]
  }

  /** With the old reservations released, the new quantity cannot be reserved. */
  predicate RefusedOnce(shop: Shop, c: Command)
    requires c.ChangeInCart? && IsCart(shop.store, c.tenant, c.id)
    requires FindLine(shop.store.sales[c.id].lines, c.lineId).Some?
  {
    var product := EditedLine(shop.store, c).productId;
    !CanHold(shop.store, AllReleased(shop.desk, c.tenant, c.id, product),
             Hold(shop.store.sales[c.id], c.id, product, c.quantity, c.now), c.live, c.now)
  }

  /** By how much a request made to the reservations directly changes what a sale holds at a slot. */
  function Gained(shop: Shop, c: Command, id: Id, slot: Key): int {
    var rs := shop.desk.reservations;
    match c
    case ReserveDirect(hold, live, now) =>
      if CanHold(shop.store, shop.desk, hold, live, now) then Counts(hold, id, slot) else 0
    case PatchHold(tenant, i, patch, now) =>
      if R.Patchable(shop.desk, tenant, i, patch, now, OnHandAt(shop, i))
      then Counts(R.Rewritten(rs[i], patch), id, slot) - Counts(rs[i], id, slot) else 0
    case ReleaseHold(tenant, i) =>
      if i < |rs| && rs[i].tenant == tenant then 0 - Counts(rs[i], id, slot) else 0
    case ExpireHold(tenant, i, now) =>
      if i < |rs| && rs[i].tenant == tenant && rs[i].expiresAt <= now then 0 - Counts(rs[i], id, slot) else 0
    case _ => 0
  }

  /**
    The shortfall after a command, for a cart that is there before and after it, told from
    the checks the command makes.
  */
  function ShortAfter(shop: Shop, c: Command, id: Id, p: Id): int
    requires id in shop.store.sales
  {
    if !Edits(shop.store, c, id, p) then Short(shop, id, p) - Gained(shop, c, id, SlotOf(shop.store, id, p))
    else if c.ChangeInCart? && RefusedOnce(shop, c) then EditedLine(shop.store, c).quantity
    else 0
  }

  lemma AddEffect(shop: Shop, c: Command)
    requires c.AddToCart? && Answered(shop, c).failure == None
    ensures IsCart(shop.store, c.tenant, c.id) && c.item.productId in c.catalogue
    ensures var s, after := shop.store.sales[c.id], After(shop, c);
            && after.store.sales
               == shop.store.sales[c.id := Recalculated(s, Added(s.lines, c.item, c.catalogue[c.item.productId]))]
            && after.store.stock == shop.store.stock
            && after.desk == Held(shop.desk, Hold(s, c.id, c.item.productId, c.item.quantity, c.now))
            && CanHold(shop.store, shop.desk, Hold(s, c.id, c.item.productId, c.item.quantity, c.now), c.live, c.now)
  {
  }

  /** What an addition to a cart answers, in the order of its checks. */
  lemma AddAnswer(shop: Shop, c: Command)
    requires c.AddToCart?
    ensures !IsCart(shop.store, c.tenant, c.id) ==> Answered(shop, c) == Answer(shop, Some(NotFound))
    ensures IsCart(shop.store, c.tenant, c.id) ==>
            var s := shop.store.sales[c.id];
            var hold := Hold(s, c.id, c.item.productId, c.item.quantity, c.now);
            Answered(shop, c)
            == if !KnownProduct(c.catalogue, c.tenant, c.item.productId) then Answer(shop, Some(ProductNotFound))
               else if !CanHold(shop.store, shop.desk, hold, c.live, c.now) then Answer(shop, Some(ReservationFailed))
               else Answer(Shop(shop.store.(sales := shop.store.sales[c.id :=
                                  Recalculated(s, Added(s.lines, c.item, c.catalogue[c.item.productId]))]),
                                Held(shop.desk, hold)), None)
  {
  }

  /** What a completion answers. */
  lemma CompleteAnswer(shop: Shop, c: Command)
    requires c.CompleteCart?
    ensures var r := Complete(c.tenant, c.id, c.payments, ReservedOf(shop.desk), c.stockAllowed);
            Answered(shop, c)
            == match SaleCompleted(shop.store, r)
               case Ok(st) => Answer(Shop(st, R.SaleFulfilled(shop.desk, c.id)), None)
               case Err(e) => Answer(shop, Some(e))
  {
    CompleteOutcome(shop.store, Complete(c.tenant, c.id, c.payments, ReservedOf(shop.desk), c.stockAllowed));
  }

  /** What a removal answers, in the order of its checks. */
  lemma RemoveAnswer(shop: Shop, c: Command)
    requires c.RemoveFromCart?
    ensures !IsCart(shop.store, c.tenant, c.id) ==> Answered(shop, c) == Answer(shop, Some(NotFound))
    ensures IsCart(shop.store, c.tenant, c.id) ==>
            var s := shop.store.sales[c.id];
            Answered(shop, c)
            == match FindLine(s.lines, c.lineId)
               case None => Answer(shop, Some(ItemNotFound))
               case Some(i) =>
                 Answer(Shop(shop.store.(sales := shop.store.sales[c.id :=
                               Recalculated(s, s.lines[..i] + s.lines[i + 1..])]),
                             AllReleased(shop.desk, c.tenant, c.id, s.lines[i].productId)), None)
  {
  }

  /** What a void answers. */
  lemma VoidAnswer(shop: Shop, c: Command)
    requires c.VoidSale?
    ensures Answered(shop, c)
         == match SaleVoided(shop.store, Void(c.tenant, c.id))
            case Ok(st) => Answer(Shop(st, shop.desk), None)
            case Err(e) => Answer(shop, Some(e))
  {
  }

  /** What a quick sale answers. */
  lemma SellAnswer(shop: Shop, c: Command)
    requires c.Sell? && c.id !in shop.store.sales
    ensures var r := QuickSale(c.tenant, c.id, c.locationId, c.locationKnown, c.items, c.discount, c.payments,
                               c.catalogue,
                               c.costs, ReservedOf(shop.desk), c.stockAllowed);
            Answered(shop, c)
            == match QuickSold(shop.store, r)
               case Ok(st) =>
                 Answer(Shop(st, shop.desk.(sales := shop.desk.sales[c.id := R.CartRow(c.tenant, false, c.now)])), None)
               case Err(e) => Answer(shop, Some(e))
  {
    QuickSaleOutcome(shop.store, QuickSale(c.tenant, c.id, c.locationId, c.locationKnown, c.items, c.discount,
                                           c.payments,
                                           c.catalogue, c.costs, ReservedOf(shop.desk), c.stockAllowed));
  }

  lemma ChangeEffect(shop: Shop, c: Command, i: nat)
    requires c.ChangeInCart? && IsCart(shop.store, c.tenant, c.id)
        && FindLine(shop.store.sales[c.id].lines, c.lineId) == Some(i)
    ensures var s, after := shop.store.sales[c.id], After(shop, c);
            var released := AllReleased(shop.desk, c.tenant, c.id, s.lines[i].productId);
            var hold := Hold(s, c.id, s.lines[i].productId, c.quantity, c.now);
            if CanHold(shop.store, released, hold, c.live, c.now) then
              && Answered(shop, c).failure == None && after.store.stock == shop.store.stock
              && after.store.sales == shop.store.sales[c.id :=
                   Recalculated(s, s.lines[i := Changed(s.lines[i], c.quantity, c.unitPrice, c.discountAmount)])]
              && after.desk == Held(released, hold)
            else Answered(shop, c) == Answer(shop.(desk := released), Some(ReservationFailed))
  {
  }

  lemma RemoveEffect(shop: Shop, c: Command, i: nat)
    requires c.RemoveFromCart? && IsCart(shop.store, c.tenant, c.id)
        && FindLine(shop.store.sales[c.id].lines, c.lineId) == Some(i)
    ensures var s, after := shop.store.sales[c.id], After(shop, c);
            && Answered(shop, c).failure == None && after.store.stock == shop.store.stock
            && after.store.sales == shop.store.sales[c.id := Recalculated(s, s.lines[..i] + s.lines[i + 1..])]
            && after.desk == AllReleased(shop.desk, c.tenant, c.id, s.lines[i].productId)
  {
  }

  lemma AddShort(shop: Shop, c: Command, id: Id, p: Id)
    requires c.AddToCart? && Answered(shop, c).failure == None && IsDraft(shop.store, id)
    ensures Short(After(shop, c), id, p) == Short(shop, id, p)
  {
    AddEffect(shop, c);
    var s, rs, slot := shop.store.sales[c.id], shop.desk.reservations, SlotOf(shop.store, id, p);
    var hold := Hold(s, c.id, c.item.productId, c.item.quantity, c.now);
    if id == c.id {
      GapWhenAdded(s.lines, rs, c.item, c.catalogue[c.item.productId], hold, id, slot);
    } else {
      GapOfOthers(shop.store.sales[id].lines, rs, hold, id, slot);
    }
  }

  /** Releasing a cart's product leaves nothing held of it, and everything else as it was. */
  predicate ReleasesOnly(d: R.Desk, tenant: Tenant, cart: Id, product: Id, id: Id, slot: Key) {
    R.HeldBy(AllReleased(d, tenant, cart, product).reservations, {id}, slot)
    == if id == cart && slot.productId == product then 0 else R.HeldBy(d.reservations, {id}, slot)
  }

  lemma HeldOnceReleased(d: R.Desk, tenant: Tenant, cart: Id, product: Id, id: Id, slot: Key)
    requires DeskSound(d) && Owns(d.owners, tenant, product)
    ensures ReleasesOnly(d, tenant, cart, product, id, slot)
  {
    var rs := d.reservations;
    ReleaseIsExact(d, tenant, cart, product, |rs|);
    forall i | 0 <= i < |rs| && rs[i].slot.productId == product ensures rs[i].tenant == tenant {
      assert R.Housed(d, rs[i]);
    }
    HeldWhenReleased(rs, AllReleased(d, tenant, cart, product).reservations, tenant, cart, product, id, slot);
  }

  /** The line rewritten and the new reservation made. */
  lemma ChangedShort(shop: Shop, after: Shop, c: Command, i: nat, rs: seq<R.Reservation>, id: Id, p: Id)
    requires c.ChangeInCart? && c.id in shop.store.sales && id in shop.store.sales && i < |shop.store.sales[c.id].lines|
    requires var s := shop.store.sales[c.id];
             && OneLineEach(s.lines)
             && after.store.sales == shop.store.sales[c.id :=
                  Recalculated(s, s.lines[i := Changed(s.lines[i], c.quantity, c.unitPrice, c.discountAmount)])]
             && after.desk.reservations == rs + [Hold(s, c.id, s.lines[i].productId, c.quantity, c.now)]
             && R.HeldBy(rs, {id}, SlotOf(shop.store, id, p))
                == if id == c.id && p == s.lines[i].productId then 0
                   else R.HeldBy(shop.desk.reservations, {id}, SlotOf(shop.store, id, p))
    ensures Short(after, id, p)
         == if id == c.id && p == shop.store.sales[c.id].lines[i].productId then 0 else Short(shop, id, p)
  {
    var s, slot := shop.store.sales[c.id], SlotOf(shop.store, id, p);
    var hold := Hold(s, c.id, s.lines[i].productId, c.quantity, c.now);
    if id == c.id {
      GapWhenChanged(s.lines, rs, i, c.quantity, c.unitPrice, c.discountAmount, hold, id, slot);
    } else {
      GapOfOthers(shop.store.sales[id].lines, rs, hold, id, slot);
    }
  }

  /** What an update is to lead to, by the line it names. */
  lemma ShortAfterChange(shop: Shop, c: Command, i: nat, id: Id, p: Id)
    requires c.ChangeInCart? && IsCart(shop.store, c.tenant, c.id) && IsDraft(shop.store, id)
    requires FindLine(shop.store.sales[c.id].lines, c.lineId) == Some(i)
    ensures var s := shop.store.sales[c.id];
            var hold := Hold(s, c.id, s.lines[i].productId, c.quantity, c.now);
            ShortAfter(shop, c, id, p)
            == if id != c.id || p != s.lines[i].productId then Short(shop, id, p)
               else if CanHold(shop.store, AllReleased(shop.desk, c.tenant, c.id, p), hold, c.live, c.now) then 0
               else s.lines[i].quantity
  {
  }

  lemma RefusedShort(shop: Shop, released: R.Desk, cart: Id, i: nat, id: Id, p: Id)
    requires IsDraft(shop.store, cart) && IsDraft(shop.store, id)
    requires var lines := shop.store.sales[cart].lines; i < |lines| && OneLineEach(lines)
    requires R.HeldBy(released.reservations, {id}, SlotOf(shop.store, id, p))
          == if id == cart && p == shop.store.sales[cart].lines[i].productId then 0
             else R.HeldBy(shop.desk.reservations, {id}, SlotOf(shop.store, id, p))
    ensures var lines := shop.store.sales[cart].lines;
            Short(shop.(desk := released), id, p)
            == if id == cart && p == lines[i].productId then lines[i].quantity else Short(shop, id, p)
  {
    OnlyLineTakes(shop.store.sales[cart].lines, i);
  }

  lemma ChangeShort(shop: Shop, c: Command, i: nat, id: Id, p: Id)
    requires c.ChangeInCart? && IsCart(shop.store, c.tenant, c.id) && IsDraft(shop.store, id)
    requires var lines := shop.store.sales[c.id].lines; FindLine(lines, c.lineId) == Some(i) && OneLineEach(lines)
    requires ReleasesOnly(shop.desk, c.tenant, c.id, shop.store.sales[c.id].lines[i].productId, id,
                          SlotOf(shop.store, id, p))
    ensures id in After(shop, c).store.sales
    ensures Short(After(shop, c), id, p) == ShortAfter(shop, c, id, p)
  {
    var s := shop.store.sales[c.id];
    var released := AllReleased(shop.desk, c.tenant, c.id, s.lines[i].productId);
    ChangeEffect(shop, c, i);
    ShortAfterChange(shop, c, i, id, p);
    if CanHold(shop.store, released, Hold(s, c.id, s.lines[i].productId, c.quantity, c.now), c.live, c.now) {
      ChangedShort(shop, After(shop, c), c, i, released.reservations, id, p);
    } else {
      RefusedShort(shop, released, c.id, i, id, p);
    }
  }

  lemma RemoveShort(shop: Shop, c: Command, i: nat, id: Id, p: Id)
    requires c.RemoveFromCart? && IsCart(shop.store, c.tenant, c.id) && IsDraft(shop.store, id)
    requires var lines := shop.store.sales[c.id].lines; FindLine(lines, c.lineId) == Some(i) && OneLineEach(lines)
    requires ReleasesOnly(shop.desk, c.tenant, c.id, shop.store.sales[c.id].lines[i].productId, id,
                          SlotOf(shop.store, id, p))
    ensures id in After(shop, c).store.sales
    ensures Short(After(shop, c), id, p) == ShortAfter(shop, c, id, p)
  {
    var s, slot := shop.store.sales[c.id], SlotOf(shop.store, id, p);
    RemoveEffect(shop, c, i);
    if id == c.id {
      GapWhenRemoved(s.lines, AllReleased(shop.desk, c.tenant, c.id, s.lines[i].productId).reservations, i, id, slot);
    }
  }

  /** A request made to the reservations directly touches no sale. */
  lemma HoldsEffect(shop: Shop, c: Command)
    requires OfHolds(c)
    ensures var after := After(shop, c);
            && after.store == shop.store && Answered(shop, c).failure == None
            && after.desk == R.Step(shop.desk, HoldEvent(shop, c))
            && after.desk.sales == shop.desk.sales && after.desk.owners == shop.desk.owners
  {
  }

  lemma PatchGain(shop: Shop, c: Command, id: Id, slot: Key)
    requires c.PatchHold?
    ensures R.HeldBy(R.Patched(shop.desk, c.tenant, c.index, c.patch, c.now, OnHandAt(shop, c.index)).reservations,
                     {id}, slot)
         == R.HeldBy(shop.desk.reservations, {id}, slot) + Gained(shop, c, id, slot)
  {
    var rs := shop.desk.reservations;
    if R.Patchable(shop.desk, c.tenant, c.index, c.patch, c.now, OnHandAt(shop, c.index)) {
      HeldReplace(rs, c.index, R.Rewritten(rs[c.index], c.patch), id, slot);
    }
  }

  lemma EndGain(d: R.Desk, tenant: Tenant, i: nat, status: R.ReservationStatus, id: Id, slot: Key)
    requires status != R.Active
    ensures R.HeldBy(R.Ended(d, tenant, i, status).reservations, {id}, slot)
         == R.HeldBy(d.reservations, {id}, slot)
            - if i < |d.reservations| && d.reservations[i].tenant == tenant then Counts(d.reservations[i], id, slot)
              else 0
  {
    if i < |d.reservations| { HeldReplace(d.reservations, i, d.reservations[i].(status := status), id, slot); }
  }

  lemma HoldsGain(shop: Shop, c: Command, id: Id, slot: Key)
    requires OfHolds(c)
    ensures R.HeldBy(R.Step(shop.desk, HoldEvent(shop, c)).reservations, {id}, slot)
         == R.HeldBy(shop.desk.reservations, {id}, slot) + Gained(shop, c, id, slot)
  {
    match c
    case ReserveDirect(hold, _, _) => HeldSnoc(shop.desk.reservations, hold, id, slot);
    case PatchHold(_, _, _, _) => PatchGain(shop, c, id, slot);
    case ReleaseHold(tenant, i) => EndGain(shop.desk, tenant, i, R.Released, id, slot);
    case ExpireHold(tenant, i, _) => EndGain(shop.desk, tenant, i, R.Expired, id, slot);
  }

  lemma HoldsShort(shop: Shop, c: Command, id: Id, p: Id)
    requires OfHolds(c) && IsDraft(shop.store, id)
    ensures Short(After(shop, c), id, p) == ShortAfter(shop, c, id, p)
  {
    HoldsEffect(shop, c);
    HoldsGain(shop, c, id, SlotOf(shop.store, id, p));
  }

  /** What the remaining commands make of the drafts that stay drafts. */
  lemma OtherEffect(shop: Shop, c: Command, id: Id)
    requires IsDraft(shop.store, id) && IsDraft(After(shop, c).store, id)
    requires !OfLines(c) && !OfHolds(c)
    ensures After(shop, c).store.sales[id] == shop.store.sales[id]
    ensures c.CleanUpCarts? && Answered(shop, c).failure == None ==> id !in R.AbandonedCarts(shop.desk.sales, c.now)
    ensures c.CompleteCart? && Answered(shop, c).failure == None ==> c.id != id
  {
    StoreSteps(shop, c);
    if Answered(shop, c).failure == None { DraftsAreTheirOwn(shop.store, SalesRequest(shop, c).value, id); }
  }

  /** And of the reservations. */
  lemma OtherEnds(shop: Shop, c: Command)
    requires !OfLines(c) && !OfHolds(c)
    ensures After(shop, c).desk.reservations == OthersEnded(shop, c)
  {
  }

  function OthersEnded(shop: Shop, c: Command): seq<R.Reservation> {
    if Answered(shop, c).failure != None then shop.desk.reservations
    else if c.CompleteCart? then R.SaleFulfilled(shop.desk, c.id).reservations
    else if c.CleanUpCarts? then R.WithStatus(shop.desk.reservations, R.AbandonedCarts(shop.desk.sales, c.now),
                                              R.Expired)
    else shop.desk.reservations
  }

  /** Commands that leave every reservation alone, or end only those of other sales. */
  lemma OtherShort(shop: Shop, c: Command, id: Id, p: Id)
    requires IsDraft(shop.store, id) && IsDraft(After(shop, c).store, id)
    requires !OfLines(c) && !OfHolds(c)
    ensures Short(After(shop, c), id, p) == Short(shop, id, p)
  {
    var rs, slot := shop.desk.reservations, SlotOf(shop.store, id, p);
    OtherEffect(shop, c, id);
    OtherEnds(shop, c);
    if Answered(shop, c).failure == None {
      if c.CompleteCart? { HeldAfterStatus(rs, {c.id}, R.Fulfilled, id, slot); }
      if c.CleanUpCarts? { HeldAfterStatus(rs, R.AbandonedCarts(shop.desk.sales, c.now), R.Expired, id, slot); }
    }
  }

  /** Exactly how one command moves the shortfall of one cart and product. */
  lemma StepShort(shop: Shop, c: Command, id: Id, p: Id)
    requires HoldsSound(shop) && IsDraft(shop.store, id) && IsDraft(After(shop, c).store, id)
    ensures Short(After(shop, c), id, p) == ShortAfter(shop, c, id, p)
  {
    if c.ChangeInCart? || c.RemoveFromCart? {
      if IsCart(shop.store, c.tenant, c.id) && FindLine(shop.store.sales[c.id].lines, c.lineId).Some? {
        EditShort(shop, c, FindLine(shop.store.sales[c.id].lines, c.lineId).value, id, p);
      } else {
        NoSuchLine(shop, c, id, p);
      }
    } else if OfHolds(c) {
      HoldsShort(shop, c, id, p);
    } else {
      UneditedShort(shop, c, id, p);
    }
  }

  lemma EditShort(shop: Shop, c: Command, i: nat, id: Id, p: Id)
    requires HoldsSound(shop) && (c.ChangeInCart? || c.RemoveFromCart?) && IsDraft(shop.store, id)
    requires IsCart(shop.store, c.tenant, c.id) && FindLine(shop.store.sales[c.id].lines, c.lineId) == Some(i)
    ensures id in After(shop, c).store.sales
    ensures Short(After(shop, c), id, p) == ShortAfter(shop, c, id, p)
  {
    var lines, slot := shop.store.sales[c.id].lines, SlotOf(shop.store, id, p);
    assert OneLineEach(lines) && Owns(shop.desk.owners, c.tenant, lines[i].productId);
    HeldOnceReleased(shop.desk, c.tenant, c.id, lines[i].productId, id, slot);
    if c.ChangeInCart? { ChangeShort(shop, c, i, id, p); } else { RemoveShort(shop, c, i, id, p); }
  }

  /** An edit of a line that is not there changes nothing. */
  lemma NoSuchLine(shop: Shop, c: Command, id: Id, p: Id)
    requires (c.ChangeInCart? || c.RemoveFromCart?) && IsDraft(shop.store, id)
    requires !(IsCart(shop.store, c.tenant, c.id) && FindLine(shop.store.sales[c.id].lines, c.lineId).Some?)
    ensures After(shop, c) == shop && ShortAfter(shop, c, id, p) == Short(shop, id, p)
  {
  }

  /** Commands that neither edit a line nor speak to the reservations directly. */
  lemma UneditedShort(shop: Shop, c: Command, id: Id, p: Id)
    requires IsDraft(shop.store, id) && IsDraft(After(shop, c).store, id)
    requires !c.ChangeInCart? && !c.RemoveFromCart? && !OfHolds(c)
    ensures Short(After(shop, c), id, p) == Short(shop, id, p) == ShortAfter(shop, c, id, p)
  {
    if !c.AddToCart? {
      OtherShort(shop, c, id, p);
    } else if Answered(shop, c).failure == None {
      AddShort(shop, c, id, p);
    } else {
      FailureChangesNothing(shop, c);
    }
  }

  // ----- Every command keeps the shop sound ---------------------------------------------------------

  /** A sale's row is nothing to the reservations. */
  lemma NewSaleKeepsDesk(d: R.Desk, id: Id, row: R.CartRow)
    requires DeskSound(d)
    ensures DeskSound(d.(sales := d.sales[id := row]))
  {
    var after := d.(sales := d.sales[id := row]);
    forall i | 0 <= i < |d.reservations| ensures R.Housed(after, after.reservations[i]) {
      assert R.Housed(d, d.reservations[i]);
    }
    forall slot ensures R.Drift(after, slot) >= 0 { assert R.Drift(d, slot) >= 0; }
  }

  lemma HoldKeepsDesk(st: Store, d: R.Desk, hold: R.Reservation, live: bool, now: Time)
    requires DeskSound(d) && CanHold(st, d, hold, live, now)
    ensures DeskSound(Held(d, hold))
  {
    EventKeepsDesk(d, R.MakeReservation(hold, live, now, OnHand(st.stock.onHand, hold.slot)));
  }

  lemma EditKeepsDesk(shop: Shop, c: Command, i: nat)
    requires DeskSound(shop.desk) && (c.ChangeInCart? || c.RemoveFromCart?)
    requires IsCart(shop.store, c.tenant, c.id) && FindLine(shop.store.sales[c.id].lines, c.lineId) == Some(i)
    ensures DeskSound(After(shop, c).desk)
  {
    var s, d := shop.store.sales[c.id], shop.desk;
    var product := s.lines[i].productId;
    var released := AllReleased(d, c.tenant, c.id, product);
    ReleaseKeepsDesk(d, c.tenant, c.id, product, |d.reservations|);
    if c.ChangeInCart? {
      ChangeEffect(shop, c, i);
      var hold := Hold(s, c.id, product, c.quantity, c.now);
      if CanHold(shop.store, released, hold, c.live, c.now) {
        HoldKeepsDesk(shop.store, released, hold, c.live, c.now);
      }
    } else {
      RemoveEffect(shop, c, i);
    }
  }

  lemma AddKeepsDesk(shop: Shop, c: Command)
    requires DeskSound(shop.desk) && c.AddToCart? && Answered(shop, c).failure == None
    ensures DeskSound(After(shop, c).desk)
  {
    AddEffect(shop, c);
    var hold := Hold(shop.store.sales[c.id], c.id, c.item.productId, c.item.quantity, c.now);
    HoldKeepsDesk(shop.store, shop.desk, hold, c.live, c.now);
  }

  /** The reservation event behind each remaining command that has one. */
  function DeskEvent(shop: Shop, c: Command): Option<R.Event> {
    match c
    case OpenCart(tenant, id, _, now) => Some(R.OpenCart(id, tenant, now))
    case CompleteCart(_, id, _, _) => Some(R.CompleteSale(id))
    case CleanUpCarts(now) => Some(R.CleanUp(now))
    case _ => if OfHolds(c) then Some(HoldEvent(shop, c)) else None
  }

  lemma DeskSteps(shop: Shop, c: Command)
    requires Coupled(shop) && DeskEvent(shop, c).Some? && Answered(shop, c).failure == None
    ensures After(shop, c).desk == R.Step(shop.desk, DeskEvent(shop, c).value)
  {
  }

  lemma CommandKeepsDesk(shop: Shop, c: Command)
    requires DeskSound(shop.desk) && Coupled(shop)
    ensures DeskSound(After(shop, c).desk)
  {
    if c.ChangeInCart? || c.RemoveFromCart? {
      if IsCart(shop.store, c.tenant, c.id) && FindLine(shop.store.sales[c.id].lines, c.lineId).Some? {
        EditKeepsDesk(shop, c, FindLine(shop.store.sales[c.id].lines, c.lineId).value);
      }
    } else if Answered(shop, c).failure == None {
      if c.AddToCart? {
        AddKeepsDesk(shop, c);
      } else if c.Sell? {
        NewSaleKeepsDesk(shop.desk, c.id, R.CartRow(c.tenant, false, c.now));
      } else if DeskEvent(shop, c).Some? {
        DeskSteps(shop, c);
        EventKeepsDesk(shop.desk, DeskEvent(shop, c).value);
      }
    }
  }

  // ----- The sales component ------------------------------------------------------------------------

  /** The request of the sales component behind a successful command. */
  function SalesRequest(shop: Shop, c: Command): Option<Request> {
    match c
    case OpenCart(tenant, id, locationId, _) => Some(CreateCart(tenant, id, locationId))
    case AddToCart(tenant, id, item, catalogue, _, _) => Some(AddItem(tenant, id, item, catalogue, true))
    case ChangeInCart(tenant, id, lineId, quantity, unitPrice, discountAmount, _, _) =>
      Some(UpdateItem(tenant, id, lineId, quantity, unitPrice, discountAmount, true))
    case RemoveFromCart(tenant, id, lineId) => Some(RemoveItem(tenant, id, lineId))
    case CompleteCart(tenant, id, payments, stockAllowed) =>
        Some(Complete(tenant, id, payments, ReservedOf(shop.desk), stockAllowed))
    case Sell(tenant, id, locationId, known, items, discount, payments, catalogue, costs, stockAllowed, _) =>
      Some(QuickSale(tenant, id, locationId, known, items, discount, payments, catalogue, costs,
                     ReservedOf(shop.desk), stockAllowed))
    case VoidSale(tenant, id) => Some(Void(tenant, id))
    case RefundSale(tenant, id, amount, returned, stockAllowed) =>
        Some(Refund(tenant, id, amount, returned, stockAllowed))
    case ReceiveStock(reference, locationId, items, stockAllowed) =>
      Some(StockIn(reference, locationId, items, stockAllowed))
    case IssueStock(reference, locationId, items, stockAllowed) =>
      Some(StockOut(reference, locationId, items, ReservedOf(shop.desk), stockAllowed))
    case AdjustStock(reference, locationId, changes, stockAllowed) =>
      Some(Adjust(reference, locationId, changes, ReservedOf(shop.desk), stockAllowed))
    case CleanUpCarts(now) => Some(DeleteDrafts(R.AbandonedCarts(shop.desk.sales, now)))
    case _ => None
  }

  /** The sales component takes exactly its own step, or none. */
  lemma StoreSteps(shop: Shop, c: Command)
    ensures After(shop, c).store ==
      match SalesRequest(shop, c)
      case Some(r) => if Answered(shop, c).failure == None then Step(shop.store, r) else shop.store
      case None => shop.store
  {
  }

  lemma EditKeepsCoupled(shop: Shop, c: Command, i: nat)
    requires DeskSound(shop.desk) && Coupled(shop) && (c.ChangeInCart? || c.RemoveFromCart?)
    requires IsCart(shop.store, c.tenant, c.id) && FindLine(shop.store.sales[c.id].lines, c.lineId) == Some(i)
    ensures Coupled(After(shop, c))
  {
    ReleaseIsExact(shop.desk, c.tenant, c.id, shop.store.sales[c.id].lines[i].productId, |shop.desk.reservations|);
    if c.ChangeInCart? { ChangeEffect(shop, c, i); } else { RemoveEffect(shop, c, i); }
  }

  /** A sale's row is written and its cart row follows, or neither. */
  lemma WriteKeepsCoupled(shop: Shop, after: Shop, id: Id, s: Sale, row: R.CartRow)
    requires Coupled(shop) && row.tenant == s.tenant && (row.draft <==> s.status == Draft)
    requires after.store.sales == shop.store.sales[id := s] && after.desk.sales == shop.desk.sales[id := row]
    ensures Coupled(after)
  {
  }

  lemma NewSaleKeepsCoupled(shop: Shop, c: Command)
    requires Coupled(shop) && (c.OpenCart? || c.Sell?) && Answered(shop, c).failure == None
    ensures Coupled(After(shop, c))
  {
    var after := After(shop, c);
    WriteKeepsCoupled(shop, after, c.id, after.store.sales[c.id], R.CartRow(c.tenant, c.OpenCart?, c.now));
  }

  lemma FinishKeepsCoupled(shop: Shop, c: Command)
    requires Coupled(shop) && (c.CompleteCart? || c.VoidSale? || c.RefundSale?) && Answered(shop, c).failure == None
    ensures Coupled(After(shop, c))
  {
    var after := After(shop, c);
    WriteKeepsCoupled(shop, after, c.id, after.store.sales[c.id], shop.desk.sales[c.id].(draft := false));
  }

  lemma CleanUpKeepsCoupled(shop: Shop, c: Command)
    requires Coupled(shop) && c.CleanUpCarts?
    ensures Coupled(After(shop, c))
  {
  }

  lemma FailureChangesNothing(shop: Shop, c: Command)
    requires Answered(shop, c).failure != None && !c.ChangeInCart?
    ensures After(shop, c) == shop
  {
  }

  lemma AddKeepsCoupled(shop: Shop, c: Command)
    requires Coupled(shop) && c.AddToCart? && Answered(shop, c).failure == None
    ensures Coupled(After(shop, c))
  {
    AddEffect(shop, c);
  }

  lemma StockKeepsCoupled(shop: Shop, c: Command)
    requires Coupled(shop) && (c.ReceiveStock? || c.IssueStock? || c.AdjustStock?) && Answered(shop, c).failure == None
    ensures Coupled(After(shop, c))
  {
    var after := After(shop, c);
    assert after.store.sales == shop.store.sales && after.desk == shop.desk;
  }

  lemma CommandKeepsCoupled(shop: Shop, c: Command)
    requires DeskSound(shop.desk) && Coupled(shop)
    ensures Coupled(After(shop, c))
  {
    if c.ChangeInCart? || c.RemoveFromCart? {
      if IsCart(shop.store, c.tenant, c.id) && FindLine(shop.store.sales[c.id].lines, c.lineId).Some? {
        EditKeepsCoupled(shop, c, FindLine(shop.store.sales[c.id].lines, c.lineId).value);
      }
    } else if Answered(shop, c).failure != None {
      FailureChangesNothing(shop, c);
    } else if OfHolds(c) {
      HoldsEffect(shop, c);
    } else if c.AddToCart? {
      AddKeepsCoupled(shop, c);
    } else if c.OpenCart? || c.Sell? {
      NewSaleKeepsCoupled(shop, c);
    } else if c.CleanUpCarts? {
      CleanUpKeepsCoupled(shop, c);
    } else if c.ReceiveStock? || c.IssueStock? || c.AdjustStock? {
      StockKeepsCoupled(shop, c);
    } else {
      FinishKeepsCoupled(shop, c);
    }
  }

  // ----- Lines and their owners -----------------------------------------------------------------------

  lemma OwnersStay(shop: Shop, c: Command)
    ensures After(shop, c).desk.owners == shop.desk.owners
  {
    if c.ChangeInCart? || c.RemoveFromCart? {
      if IsCart(shop.store, c.tenant, c.id) && FindLine(shop.store.sales[c.id].lines, c.lineId).Some? {
        var i := FindLine(shop.store.sales[c.id].lines, c.lineId).value;
        ReleaseIsExact(shop.desk, c.tenant, c.id, shop.store.sales[c.id].lines[i].productId, |shop.desk.reservations|);
        if c.ChangeInCart? { ChangeEffect(shop, c, i); } else { RemoveEffect(shop, c, i); }
      }
    } else if Answered(shop, c).failure != None {
      FailureChangesNothing(shop, c);
    } else if OfHolds(c) {
      HoldsEffect(shop, c);
    } else if c.AddToCart? {
      AddEffect(shop, c);
    }
  }

  lemma AddedStaysSound(owners: map<Id, Tenant>, s: Sale, item: CartItem, product: Product)
    requires LinesSound(owners, s) && Owns(owners, s.tenant, item.productId)
    ensures LinesSound(owners, Recalculated(s, Added(s.lines, item, product)))
  {
    var after := Added(s.lines, item, product);
    forall i | 0 <= i < |after| ensures Owns(owners, s.tenant, after[i].productId) {
      if i < |s.lines| { assert Owns(owners, s.tenant, s.lines[i].productId); }
    }
  }

  lemma EditKeepsLines(shop: Shop, c: Command, i: nat, id: Id)
    requires (c.ChangeInCart? || c.RemoveFromCart?) && IsDraft(shop.store, id)
    requires LinesSound(shop.desk.owners, shop.store.sales[id])
    requires IsCart(shop.store, c.tenant, c.id) && FindLine(shop.store.sales[c.id].lines, c.lineId) == Some(i)
    ensures id in After(shop, c).store.sales && LinesSound(shop.desk.owners, After(shop, c).store.sales[id])
  {
    var s := shop.store.sales[c.id];
    if c.ChangeInCart? { ChangeEffect(shop, c, i); } else { RemoveEffect(shop, c, i); }
    if id == c.id {
      assert forall j | 0 <= j < |s.lines| :: Owns(shop.desk.owners, s.tenant, s.lines[j].productId);
    }
  }

  /** Only edits of the cart itself change its lines: one line for each product, of the tenant's products. */
  lemma CommandKeepsLines(shop: Shop, c: Command, id: Id)
    requires IsDraft(shop.store, id) && LinesSound(shop.desk.owners, shop.store.sales[id])
    requires IsDraft(After(shop, c).store, id)
    ensures LinesSound(shop.desk.owners, After(shop, c).store.sales[id])
  {
    StoreSteps(shop, c);
    if c.AddToCart? && Answered(shop, c).failure == None {
      AddEffect(shop, c);
      if c.id == id {
        AddedStaysSound(shop.desk.owners, shop.store.sales[id], c.item, c.catalogue[c.item.productId]);
      }
    } else if c.ChangeInCart? || c.RemoveFromCart? {
      if IsCart(shop.store, c.tenant, c.id) && FindLine(shop.store.sales[c.id].lines, c.lineId).Some? {
        EditKeepsLines(shop, c, FindLine(shop.store.sales[c.id].lines, c.lineId).value, id);
      }
    } else if SalesRequest(shop, c).Some? && Answered(shop, c).failure == None {
      DraftsAreTheirOwn(shop.store, SalesRequest(shop, c).value, id);
    }
  }

  lemma {:induction false} NothingHeld(rs: seq<R.Reservation>, id: Id, slot: Key)
    requires forall i | 0 <= i < |rs| :: !R.OfSales(rs[i], {id})
    ensures R.HeldBy(rs, {id}, slot) == 0
  {
    if rs != [] { NothingHeld(rs[..|rs| - 1], id, slot); }
  }

  lemma NewDraftIsOpened(shop: Shop, c: Command, id: Id)
    requires !IsDraft(shop.store, id) && IsDraft(After(shop, c).store, id)
    ensures c.OpenCart? && c.id == id && id !in shop.store.sales && Unused(shop.desk.reservations, id)
    ensures After(shop, c).store.sales[id].lines == [] && After(shop, c).desk.reservations == shop.desk.reservations
  {
    StoreSteps(shop, c);
  }

  /** A new cart holds nothing and asks for nothing. */
  lemma NewDraftIsEmpty(shop: Shop, c: Command, id: Id, p: Id)
    requires !IsDraft(shop.store, id) && IsDraft(After(shop, c).store, id)
    ensures After(shop, c).store.sales[id].lines == [] && Short(After(shop, c), id, p) == 0
  {
    NewDraftIsOpened(shop, c, id);
    NothingHeld(shop.desk.reservations, id, SlotOf(After(shop, c).store, id, p));
  }

  lemma CommandKeepsCarts(shop: Shop, c: Command)
    requires CartsSound(shop)
    ensures CartsSound(After(shop, c))
  {
    var after := After(shop, c);
    OwnersStay(shop, c);
    forall id <- after.store.sales | IsDraft(after.store, id)
      ensures LinesSound(after.desk.owners, after.store.sales[id])
    {
      if IsDraft(shop.store, id) { CommandKeepsLines(shop, c, id); } else { NewDraftIsOpened(shop, c, id); }
    }
  }

  lemma CommandKeepsSound(shop: Shop, c: Command)
    requires ShopSound(shop)
    ensures ShopSound(After(shop, c))
  {
    StoreSteps(shop, c);
    if SalesRequest(shop, c).Some? { StepKeepsValid(shop.store, SalesRequest(shop, c).value); }
    CommandKeepsDesk(shop, c);
    CommandKeepsCoupled(shop, c);
    CommandKeepsCarts(shop, c);
  }

  /**
    Over every run, whatever fails, lapses or is cleaned up in between: sales and
    reservations stay valid together, reserved quantities cover the active reservations, and
    every cart has one line for each product, of its own tenant's products.
  */
  lemma {:induction false} EveryRunIsSound(shop: Shop, commands: seq<Command>)
    requires ShopSound(shop)
    ensures ShopSound(RunAll(shop, commands))
    decreases |commands|
  {
    if commands != [] {
      EveryRunIsSound(shop, commands[..|commands| - 1]);
      CommandKeepsSound(RunAll(shop, commands[..|commands| - 1]), commands[|commands| - 1]);
    }
  }

  /** Any stock, nothing sold and nothing reserved yet. */
  lemma NewShopIsSound(onHand: map<Key, int>, owners: map<Id, Tenant>)
    ensures ShopSound(Shop(Store(map[], Stock(onHand, [])), R.Desk(owners, map[], [], map[])))
  {
    EmptyStoreIsValid(onHand);
  }
}
