/**
  What the point of sale as one system guarantees its carts, and where it falls short:
  when a cart stays fully reserved, when it can be completed, when stock stays non-negative.
*/
module CartGuarantees {
  import R = Reservations
  import opened Amounts
  import opened PosDesk
  import opened PosDeskInvariants
  import opened Sales
  import opened SaleInvariants
  import opened StockLedger
  import opened Wrappers

  // ----- Reservations against lines -------------------------------------------------------------

  /**
    What ends full reservation: an update that gives the old reservations up and is refused
    its new one, or a request made to the reservations directly that changes what the cart holds.
  */
  predicate PartsHolds(shop: Shop, c: Command, id: Id, p: Id)
    requires id in shop.store.sales
  {
    if Edits(shop.store, c, id, p)
    then c.ChangeInCart? && RefusedOnce(shop, c) && EditedLine(shop.store, c).quantity > 0
    else Gained(shop, c, id, SlotOf(shop.store, id, p)) != 0
  }

  /**
    A fully reserved cart line stays so exactly unless a reservation of it is released,
    expired, resized, renamed or added by a request of its own, or an update is refused its
    new reservation: then the old ones, released in a transaction of their own, are gone.
  */
  lemma StaysReservedIff(shop: Shop, c: Command, id: Id, p: Id)
    requires HoldsSound(shop) && IsDraft(shop.store, id) && IsDraft(After(shop, c).store, id) && Short(shop, id, p) == 0
    ensures Short(After(shop, c), id, p) == 0 <==> !PartsHolds(shop, c, id, p)
  {
    StepShort(shop, c, id, p);
  }

  /** Whatever was lost before, a successful update or removal of the line sets it right again. */
  lemma EditRestores(shop: Shop, c: Command, id: Id, p: Id)
    requires HoldsSound(shop) && Edits(shop.store, c, id, p) && Answered(shop, c).failure == None
    ensures IsDraft(After(shop, c).store, id) && Short(After(shop, c), id, p) == 0
  {
    var i := FindLine(shop.store.sales[id].lines, c.lineId).value;
    if c.ChangeInCart? { ChangeEffect(shop, c, i); } else { RemoveEffect(shop, c, i); }
    StepShort(shop, c, id, p);
  }

  lemma StepStaysReserved(shop: Shop, c: Command, id: Id, p: Id)
    requires HoldsSound(shop) && IsDraft(After(shop, c).store, id)
    requires IsDraft(shop.store, id) ==> Short(shop, id, p) == 0 && !PartsHolds(shop, c, id, p)
    ensures Short(After(shop, c), id, p) == 0
  {
    if IsDraft(shop.store, id) { StaysReservedIff(shop, c, id, p); } else { NewDraftIsEmpty(shop, c, id, p); }
  }

  predicate LosesNothing(shop: Shop, c: Command, id: Id, p: Id) {
    IsDraft(shop.store, id) ==> !PartsHolds(shop, c, id, p)
  }

  /** Every command of a run meets a condition on the shop it comes to. */
  ghost predicate Throughout(shop: Shop, commands: seq<Command>, condition: (Shop, Command) -> bool) {
    forall n | 0 <= n < |commands| :: condition(RunAll(shop, commands[..n]), commands[n])
  }

  lemma ThroughoutBefore(shop: Shop, commands: seq<Command>, condition: (Shop, Command) -> bool)
    requires commands != [] && Throughout(shop, commands, condition)
    ensures Throughout(shop, commands[..|commands| - 1], condition)
    ensures condition(RunAll(shop, commands[..|commands| - 1]), commands[|commands| - 1])
  {
    var front := commands[..|commands| - 1];
    forall m | 0 <= m < |front| ensures condition(RunAll(shop, front[..m]), front[m]) {
      assert front[..m] == commands[..m] && front[m] == commands[m];
    }
  }

  /** The same over a run: a cart opened in it holds what its lines ask for, as long as nothing is lost. */
  lemma {:induction false} RunStaysReserved(shop: Shop, commands: seq<Command>, id: Id, p: Id)
    requires ShopSound(shop) && !IsDraft(shop.store, id) && IsDraft(RunAll(shop, commands).store, id)
    requires Throughout(shop, commands, (s, c) => LosesNothing(s, c, id, p))
    ensures Short(RunAll(shop, commands), id, p) == 0
    decreases |commands|
  {
    if commands != [] {
      var n := |commands| - 1;
      var before := RunAll(shop, commands[..n]);
      EveryRunIsSound(shop, commands[..n]);
      ThroughoutBefore(shop, commands, (s, c) => LosesNothing(s, c, id, p));
      if IsDraft(before.store, id) { RunStaysReserved(shop, commands[..n], id, p); }
      StepStaysReserved(before, commands[n], id, p);
    }
  }

  // ----- No more than the lines ask for -----------------------------------------------------------

  /** The command gives the cart more of a product than its line still lacks. */
  predicate Overholds(shop: Shop, c: Command, id: Id, p: Id)
    requires id in shop.store.sales
  {
    !Edits(shop.store, c, id, p) && Gained(shop, c, id, SlotOf(shop.store, id, p)) > Short(shop, id, p)
  }

  /** Exactly when a cart holds no more of a product than its line asks for. */
  lemma HoldsNoMoreIff(shop: Shop, c: Command, id: Id, p: Id)
    requires HoldsSound(shop) && IsDraft(shop.store, id) && IsDraft(After(shop, c).store, id)
    ensures Short(After(shop, c), id, p) >= 0 <==> !Overholds(shop, c, id, p)
  {
    StepShort(shop, c, id, p);
  }

  /** Only a reservation made for the cart directly, or the update of one, gives it any. */
  lemma OnlyDirectRequestsGain(shop: Shop, c: Command, id: Id, slot: Key)
    requires !c.ReserveDirect? && !c.PatchHold?
    ensures Gained(shop, c, id, slot) <= 0
  {
  }

  /**
    Over every run without those two requests, whatever fails, lapses or is cleaned up in
    between, no cart holds more of a product than its line asks for.
  */
  lemma {:induction false} CartsAloneHoldNoMore(shop: Shop, commands: seq<Command>, id: Id, p: Id)
    requires ShopSound(shop) && !IsDraft(shop.store, id) && IsDraft(RunAll(shop, commands).store, id)
    requires forall n | 0 <= n < |commands| :: !commands[n].ReserveDirect? && !commands[n].PatchHold?
    ensures Short(RunAll(shop, commands), id, p) >= 0
    decreases |commands|
  {
    if commands != [] {
      var n := |commands| - 1;
      var before := RunAll(shop, commands[..n]);
      EveryRunIsSound(shop, commands[..n]);
      if IsDraft(before.store, id) {
        CartsAloneHoldNoMore(shop, commands[..n], id, p);
        OnlyDirectRequestsGain(before, commands[n], id, SlotOf(before.store, id, p));
        HoldsNoMoreIff(before, commands[n], id, p);
      } else {
        NewDraftIsEmpty(before, commands[n], id, p);
      }
    }
  }

  // ----- What a cart reserves -----------------------------------------------------------------------

  /** An item goes into a cart when the cart and the product are the tenant's and what is on hand is left for it. */
  predicate HasRoomFor(shop: Shop, c: Command)
    requires c.AddToCart?
  {
    && c.id in shop.store.sales && shop.store.sales[c.id].tenant == c.tenant
    && shop.store.sales[c.id].status == Draft
    && c.item.productId in c.catalogue && c.catalogue[c.item.productId].tenant == c.tenant
    && Owns(shop.desk.owners, c.tenant, c.item.productId) && c.live
    && var slot := SlotOf(shop.store, c.id, c.item.productId);
       R.ReservedAt(shop.desk, slot) + c.item.quantity <= OnHand(shop.store.stock.onHand, slot)
  }

  /** Exactly then, and a reservation for half an hour is made for it in the cart's name. */
  lemma AdditionReserves(shop: Shop, c: Command)
    requires c.AddToCart?
    ensures Answered(shop, c).failure == None <==> HasRoomFor(shop, c)
    ensures HasRoomFor(shop, c) ==>
              After(shop, c).desk.reservations
              == shop.desk.reservations
                 + [R.Reservation(c.tenant, SlotOf(shop.store, c.id, c.item.productId), c.item.quantity, R.Active,
                                  c.now + 30 * 60 * 1000, Some(c.id))]
  {
    AddAnswer(shop, c);
  }

  // ----- Completion --------------------------------------------------------------------------------

  /** What is reserved at a slot by anything but the sale itself. */
  function OthersReserved(shop: Shop, id: Id, slot: Key): int {
    R.ReservedAt(shop.desk, slot) - R.HeldBy(shop.desk.reservations, {id}, slot)
  }

  lemma {:induction false} HeldIsActive(rs: seq<R.Reservation>, id: Id, slot: Key)
    ensures R.HeldBy(rs, {id}, slot) <= R.ActiveQuantity(rs, slot)
  {
    if rs != [] { HeldIsActive(rs[..|rs| - 1], id, slot); }
  }

  lemma ReservedIsRead(shop: Shop, id: Id, slot: Key)
    requires DeskSound(shop.desk)
    ensures Reserved(ReservedOf(shop.desk), slot) == R.ReservedAt(shop.desk, slot)
    ensures OthersReserved(shop, id, slot) >= 0
  {
    assert R.Drift(shop.desk, slot) >= 0;
    HeldIsActive(shop.desk.reservations, id, slot);
  }

  /** The cart can be completed but for the stock. */
  predicate ReadyToComplete(shop: Shop, c: Command)
    requires c.CompleteCart?
  {
    && IsCart(shop.store, c.tenant, c.id) && shop.store.sales[c.id].lines != []
    && Sum(c.payments) >= CompletionTotal(shop.store.sales[c.id]) && c.stockAllowed
  }

  lemma CompletesIffAvailable(shop: Shop, c: Command)
    requires c.CompleteCart? && ReadyToComplete(shop, c)
    ensures var s := shop.store.sales[c.id];
            Answered(shop, c).failure
            == if Available(shop.store.stock.onHand, ReservedOf(shop.desk), s.locationId, StockItems(s.lines)) then None
               else Some(InsufficientStock)
  {
    var s := shop.store.sales[c.id];
    var r := Complete(c.tenant, c.id, c.payments, ReservedOf(shop.desk), c.stockAllowed);
    CompleteOutcome(shop.store, r);
  }

  predicate Suffices(shop: Shop, id: Id, l: Line)
    requires id in shop.store.sales
  {
    var slot := SlotOf(shop.store, id, l.productId);
    OnHand(shop.store.stock.onHand, slot) - OthersReserved(shop, id, slot)
        >= 2 * l.quantity - Short(shop, id, l.productId)
  }

  /**
    Exactly when a cart can be completed: its own reservation still counts against it, so a
    fully reserved line needs its quantity on hand twice over, beside what others reserved.
  */
  lemma CompletionNeedsItsStockTwice(shop: Shop, c: Command)
    requires HoldsSound(shop) && c.CompleteCart? && ReadyToComplete(shop, c)
    ensures var s := shop.store.sales[c.id];
            Answered(shop, c).failure == None <==> forall i | 0 <= i < |s.lines| :: Suffices(shop, c.id, s.lines[i])
  {
    var s := shop.store.sales[c.id];
    CompletesIffAvailable(shop, c);
    forall i | 0 <= i < |s.lines|
      ensures Suffices(shop, c.id, s.lines[i])
         <==> OnHand(shop.store.stock.onHand, SlotOf(shop.store, c.id, s.lines[i].productId))
              - Reserved(ReservedOf(shop.desk), SlotOf(shop.store, c.id, s.lines[i].productId))
                  >= StockItems(s.lines)[i].quantity
    {
      ReservedIsRead(shop, c.id, SlotOf(shop.store, c.id, s.lines[i].productId));
      assert OneLineEach(s.lines);
      OnlyLineTakes(s.lines, i);
    }
  }

  /** So a cart that has reserved all there is of a product can never be completed as it stands. */
  lemma LastPiecesCannotBeSold(shop: Shop, c: Command, i: nat)
    requires HoldsSound(shop) && c.CompleteCart? && ReadyToComplete(shop, c)
    requires var s := shop.store.sales[c.id];
             && i < |s.lines| && s.lines[i].quantity > 0 && Short(shop, c.id, s.lines[i].productId) == 0
             && OnHand(shop.store.stock.onHand, SlotOf(shop.store, c.id, s.lines[i].productId)) == s.lines[i].quantity
    ensures Answered(shop, c) == Answer(shop, Some(InsufficientStock))
  {
    var s := shop.store.sales[c.id];
    CompletesIffAvailable(shop, c);
    CompletionNeedsItsStockTwice(shop, c);
    ReservedIsRead(shop, c.id, SlotOf(shop.store, c.id, s.lines[i].productId));
    assert !Suffices(shop, c.id, s.lines[i]);
  }

  /** A new shop with one piece of one product. */
  function OnePieceShop(p: Id, locationId: Id, tenant: Tenant): Shop {
    Shop(Store(map[], Stock(map[Key(p, locationId) := 1], [])), R.Desk(map[p := tenant], map[], [], map[]))
  }

  lemma OnePieceCart(tenant: Tenant, id: Id, locationId: Id, item: CartItem, catalogue: map<Id, Product>, now: Time)
    returns (empty: Shop, filled: Shop)
    requires KnownProduct(catalogue, tenant, item.productId) && item.quantity == 1
    ensures var shop := OnePieceShop(item.productId, locationId, tenant);
            && empty == After(shop, OpenCart(tenant, id, locationId, now))
            && filled == After(empty, AddToCart(tenant, id, item, catalogue, true, now))
    ensures ShopSound(filled) && IsCart(filled.store, tenant, id) && Short(filled, id, item.productId) == 0
    ensures filled.store.sales[id]
         == Recalculated(EmptyCartRow(tenant, locationId), Added([], item, catalogue[item.productId]))
    ensures OnHand(filled.store.stock.onHand, Key(item.productId, locationId)) == 1
  {
    var shop := OnePieceShop(item.productId, locationId, tenant);
    var open, add := OpenCart(tenant, id, locationId, now), AddToCart(tenant, id, item, catalogue, true, now);
    NewShopIsSound(map[Key(item.productId, locationId) := 1], map[item.productId := tenant]);
    empty := After(shop, open);
    CommandKeepsSound(shop, open);
    NewDraftIsEmpty(shop, open, id, item.productId);
    AddAnswer(empty, add);
    filled := After(empty, add);
    CommandKeepsSound(empty, add);
    AddShort(empty, add, id, item.productId);
  }

  lemma RunOfTwo(shop: Shop, first: Command, second: Command)
    ensures RunAll(shop, [first, second]) == After(After(shop, first), second)
  {
    assert [first, second][..1] == [first] && [first][..0] == [];
    assert RunAll(shop, [first]) == After(RunAll(shop, []), first);
  }

  /** The smallest such case, from an empty shop: one piece in stock, put into a cart, paid for, refused. */
  lemma OnePieceCannotBeSold(tenant: Tenant, id: Id, locationId: Id, item: CartItem, catalogue: map<Id, Product>,
                             payments: seq<Money>, now: Time)
    requires KnownProduct(catalogue, tenant, item.productId) && item.quantity == 1
    requires Sum(payments) >= OrElse(item.unitPrice, MinPrice(catalogue[item.productId]))
        - OrElse(item.discountAmount, 0)
    ensures var filled := RunAll(OnePieceShop(item.productId, locationId, tenant),
                                 [OpenCart(tenant, id, locationId, now),
                                  AddToCart(tenant, id, item, catalogue, true, now)]);
            && IsCart(filled.store, tenant, id)
            && Answered(filled, CompleteCart(tenant, id, payments, true)) == Answer(filled, Some(InsufficientStock))
  {
    var shop := OnePieceShop(item.productId, locationId, tenant);
    var open, add := OpenCart(tenant, id, locationId, now), AddToCart(tenant, id, item, catalogue, true, now);
    var empty, filled := OnePieceCart(tenant, id, locationId, item, catalogue, now);
    RunOfTwo(shop, open, add);
    OnePieceTotal(filled.store.sales[id], item, catalogue[item.productId]);
    LastPiecesCannotBeSold(filled, CompleteCart(tenant, id, payments, true), 0);
  }

  lemma OnePieceTotal(s: Sale, item: CartItem, product: Product)
    requires s.lines == Added([], item, product) && item.quantity == 1
    requires s.discountAmount == s.taxAmount == 0
    ensures |s.lines| == 1 && s.lines[0].productId == item.productId && s.lines[0].quantity == 1
    ensures CompletionTotal(s) == OrElse(item.unitPrice, MinPrice(product)) - OrElse(item.discountAmount, 0)
  {
    assert FindProduct([], item.productId) == None;
    LineTotalIsProduct(s.lines[0].unitPrice, s.lines[0].discountAmount, 1);
    assert SumTotals(s.lines) == SumTotals(s.lines[..0]) + s.lines[0].lineTotal;
  }

  // ----- What completions leave reserved ----------------------------------------------------------------

  lemma {:induction false} ReleaseKeepsDrift(d: R.Desk, tenant: Tenant, id: Id, p: Id, n: nat, slot: Key)
    requires DeskSound(d) && n <= |d.reservations|
    ensures R.Drift(Released(d, tenant, id, p, n), slot) == R.Drift(d, slot)
  {
    if n > 0 {
      ReleaseKeepsDrift(d, tenant, id, p, n - 1, slot);
      ReleaseKeepsDesk(d, tenant, id, p, n - 1);
      R.EndedKeepsDrift(Released(d, tenant, id, p, n - 1), tenant, n - 1, R.Released, slot);
    }
  }

  lemma HoldKeepsDrift(st: Store, d: R.Desk, hold: R.Reservation, live: bool, now: Time, slot: Key)
    requires DeskSound(d) && CanHold(st, d, hold, live, now)
    ensures R.Drift(Held(d, hold), slot) == R.Drift(d, slot)
  {
    R.StepDrift(d, R.MakeReservation(hold, live, now, OnHand(st.stock.onHand, hold.slot)), slot);
  }

  lemma EditKeepsDrift(shop: Shop, c: Command, i: nat, slot: Key)
    requires DeskSound(shop.desk) && (c.ChangeInCart? || c.RemoveFromCart?) && IsCart(shop.store, c.tenant, c.id)
    requires FindLine(shop.store.sales[c.id].lines, c.lineId) == Some(i)
    ensures R.Drift(After(shop, c).desk, slot) == R.Drift(shop.desk, slot)
  {
    var s, d := shop.store.sales[c.id], shop.desk;
    var product := s.lines[i].productId;
    ReleaseKeepsDrift(d, c.tenant, c.id, product, |d.reservations|, slot);
    ReleaseKeepsDesk(d, c.tenant, c.id, product, |d.reservations|);
    if c.ChangeInCart? {
      ChangeEffect(shop, c, i);
      var released, hold := AllReleased(d, c.tenant, c.id, product), Hold(s, c.id, product, c.quantity, c.now);
      if CanHold(shop.store, released, hold, c.live, c.now) {
        HoldKeepsDrift(shop.store, released, hold, c.live, c.now, slot);
      }
    } else {
      RemoveEffect(shop, c, i);
    }
  }

  lemma AddKeepsDrift(shop: Shop, c: Command, slot: Key)
    requires DeskSound(shop.desk) && c.AddToCart? && Answered(shop, c).failure == None
    ensures R.Drift(After(shop, c).desk, slot) == R.Drift(shop.desk, slot)
  {
    AddEffect(shop, c);
    var hold := Hold(shop.store.sales[c.id], c.id, c.item.productId, c.item.quantity, c.now);
    HoldKeepsDrift(shop.store, shop.desk, hold, c.live, c.now, slot);
  }

  /** What a command leaves reserved with no active reservation behind it. */
  function LeakedNow(shop: Shop, c: Command, slot: Key): nat {
    if c.CompleteCart? && Answered(shop, c).failure == None then R.HeldBy(shop.desk.reservations, {c.id}, slot) else 0
  }

  lemma DeskEventDrift(shop: Shop, c: Command, slot: Key)
    requires DeskSound(shop.desk) && Coupled(shop) && DeskEvent(shop, c).Some? && Answered(shop, c).failure == None
    ensures R.Drift(After(shop, c).desk, slot) == R.Drift(shop.desk, slot) + LeakedNow(shop, c, slot)
  {
    DeskSteps(shop, c);
    R.StepDrift(shop.desk, DeskEvent(shop, c).value, slot);
    if c.CompleteCart? { CompletesDraft(shop, c); }
  }

  lemma CompletesDraft(shop: Shop, c: Command)
    requires c.CompleteCart? && Answered(shop, c).failure == None
    ensures IsDraft(shop.store, c.id)
  {
    CompleteAnswer(shop, c);
  }

  /** Only completions part reserved quantities from the active reservations, and by what the sale held. */
  lemma CommandDrift(shop: Shop, c: Command, slot: Key)
    requires DeskSound(shop.desk) && Coupled(shop)
    ensures R.Drift(After(shop, c).desk, slot) == R.Drift(shop.desk, slot) + LeakedNow(shop, c, slot)
  {
    if c.ChangeInCart? || c.RemoveFromCart? {
      if IsCart(shop.store, c.tenant, c.id) && FindLine(shop.store.sales[c.id].lines, c.lineId).Some? {
        EditKeepsDrift(shop, c, FindLine(shop.store.sales[c.id].lines, c.lineId).value, slot);
      }
    } else if Answered(shop, c).failure != None {
      FailureChangesNothing(shop, c);
    } else if c.AddToCart? {
      AddKeepsDrift(shop, c, slot);
    } else if DeskEvent(shop, c).Some? {
      DeskEventDrift(shop, c, slot);
    }
  }

  function LeakedBy(shop: Shop, commands: seq<Command>, slot: Key): nat {
    if commands == [] then 0
    else
      var n := |commands| - 1;
      LeakedBy(shop, commands[..n], slot) + LeakedNow(RunAll(shop, commands[..n]), commands[n], slot)
  }

  /** Over every run: what is reserved is what is actively reserved and what completions left behind. */
  lemma {:induction false} RunDrift(shop: Shop, commands: seq<Command>, slot: Key)
    requires ShopSound(shop)
    ensures R.Drift(RunAll(shop, commands).desk, slot) == R.Drift(shop.desk, slot) + LeakedBy(shop, commands, slot)
    decreases |commands|
  {
    if commands != [] {
      var n := |commands| - 1;
      RunDrift(shop, commands[..n], slot);
      EveryRunIsSound(shop, commands[..n]);
      CommandDrift(RunAll(shop, commands[..n]), commands[n], slot);
    }
  }

  /** So a completed cart keeps its own lines reserved for ever, as far as they were reserved. */
  lemma CompletionLeaksItsLines(shop: Shop, c: Command, p: Id)
    requires HoldsSound(shop) && c.CompleteCart? && Answered(shop, c).failure == None
    ensures IsDraft(shop.store, c.id)
    ensures var slot := SlotOf(shop.store, c.id, p);
            R.Drift(After(shop, c).desk, slot) - R.Drift(shop.desk, slot)
            == Quantity(StockItems(shop.store.sales[c.id].lines), p) - Short(shop, c.id, p)
  {
    CompletesDraft(shop, c);
    CommandDrift(shop, c, SlotOf(shop.store, c.id, p));
  }

  // ----- Stock that stays non-negative ---------------------------------------------------------------

  ghost predicate AllNonNegative(onHand: map<Key, int>) { forall k :: OnHand(onHand, k) >= 0 }

  ghost predicate NoneNegative(st: Store) { AllNonNegative(st.stock.onHand) }

  /** The items sum up to at most what is on hand of each product. */
  predicate CoveredBy(onHand: map<Key, int>, locationId: Id, items: seq<StockItem>) {
    forall i | 0 <= i < |items| :: Quantity(items, items[i].productId)
        <= OnHand(onHand, Key(items[i].productId, locationId))
  }

  /**
    Taking items that were found available one by one keeps stock non-negative exactly when
    each product's lines together are covered.
  */
  lemma TakingKeepsNonNegativeIff(stock: Stock, kind: Kind, reserved: map<Key, nat>, reference: Id, locationId: Id,
                                  items: seq<StockItem>)
    requires Takes(kind) && Available(stock.onHand, reserved, locationId, items)
    requires AllNonNegative(stock.onHand)
    ensures AllNonNegative(Post(stock, kind, reference, locationId, items).onHand)
       <==> CoveredBy(stock.onHand, locationId, items)
  {
    var after := Post(stock, kind, reference, locationId, items);
    AvailableHasRows(stock, kind, reserved, locationId, items);
    forall k ensures OnHand(after.onHand, k)
                  == OnHand(stock.onHand, k) - if k.locationId == locationId then Quantity(items, k.productId) else 0
    {
      PostTakes(stock, kind, reference, locationId, items, k);
    }
    if CoveredBy(stock.onHand, locationId, items) {
      forall k ensures OnHand(after.onHand, k) >= 0 {
        if forall i | 0 <= i < |items| :: items[i].productId != k.productId { NoRowNoQuantity(items, k.productId); }
      }
    } else {
      var i :| 0 <= i < |items| && Quantity(items, items[i].productId)
        > OnHand(stock.onHand, Key(items[i].productId, locationId));
      assert OnHand(after.onHand, Key(items[i].productId, locationId)) < 0;
    }
  }

  /** With one line for each product the check of each line alone is enough. */
  lemma OneLineEachIsCovered(onHand: map<Key, int>, reserved: map<Key, nat>, locationId: Id, lines: seq<Line>)
    requires OneLineEach(lines) && Available(onHand, reserved, locationId, StockItems(lines))
    ensures CoveredBy(onHand, locationId, StockItems(lines))
  {
    forall i | 0 <= i < |lines|
      ensures Quantity(StockItems(lines), lines[i].productId) <= OnHand(onHand, Key(lines[i].productId, locationId))
    {
      OnlyLineTakes(lines, i);
      assert StockItems(lines)[i].productId == lines[i].productId;
    }
  }

  /** An adjustment leaves none of its products below zero. */
  predicate CoveredChanges(onHand: map<Key, int>, locationId: Id, changes: seq<Change>) {
    forall i | 0 <= i < |changes| ::
      OnHand(onHand, Key(changes[i].productId, locationId)) + NetChange(changes, changes[i].productId) >= 0
  }

  /**
    A quick sale or stock-out that passes its checks, with items of some product that together
    exceed what is on hand, or an adjustment that does so on balance.
  */
  predicate Overdraws(st: Store, r: Request) {
    match r
    case QuickSale(tenant, id, locationId, _, items, _, _, catalogue, costs, _, _) =>
      && id !in st.sales && QuickSaleAccepted(st, r)
      && !CoveredBy(st.stock.onHand, locationId, StockItems(ProcessItems(catalogue, costs, tenant, items)))
    case StockOut(_, locationId, items, reserved, stockAllowed) =>
      && stockAllowed && Available(st.stock.onHand, reserved, locationId, items)
      && !CoveredBy(st.stock.onHand, locationId, items)
    case Adjust(_, locationId, changes, reserved, stockAllowed) =>
      && stockAllowed && Available(st.stock.onHand, reserved, locationId, Lowered(changes))
      && !CoveredChanges(st.stock.onHand, locationId, changes)
    case _ => false
  }

  lemma QuickSaleKeepsNonNegativeIff(st: Store, r: Request)
    requires NoneNegative(st) && r.QuickSale? && Outcome(st, r).Ok?
    ensures NoneNegative(Step(st, r)) <==> !Overdraws(st, r)
  {
    if r.id !in st.sales { QuickSaleOutcome(st, r); }
    QuickSaleAcceptedIff(st, r);
    var sold := StockItems(ProcessItems(r.catalogue, r.costs, r.tenant, r.items));
    assert Step(st, r).stock == Post(st.stock, Out, r.id, r.locationId, sold);
    TakingKeepsNonNegativeIff(st.stock, Out, r.reserved, r.id, r.locationId, sold);
  }

  lemma StockOutKeepsNonNegativeIff(st: Store, r: Request)
    requires NoneNegative(st) && r.StockOut? && Outcome(st, r).Ok?
    ensures NoneNegative(Step(st, r)) <==> !Overdraws(st, r)
  {
    match r case StockOut(reference, locationId, items, reserved, _) =>
      assert Step(st, r).stock == Post(st.stock, Issued, reference, locationId, items);
      TakingKeepsNonNegativeIff(st.stock, Issued, reserved, reference, locationId, items);
  }

  lemma {:induction false} NoChangeNoNet(changes: seq<Change>, p: Id)
    requires forall i | 0 <= i < |changes| :: changes[i].productId != p
    ensures NetChange(changes, p) == 0
  {
    if changes != [] { NoChangeNoNet(changes[..|changes| - 1], p); }
  }

  lemma AdjustmentKeepsNonNegativeIff(stock: Stock, reserved: map<Key, nat>, reference: Id, locationId: Id,
                                      changes: seq<Change>)
    requires Available(stock.onHand, reserved, locationId, Lowered(changes))
    requires AllNonNegative(stock.onHand)
    ensures AllNonNegative(Adjusted(stock, reference, locationId, changes).onHand)
       <==> CoveredChanges(stock.onHand, locationId, changes)
  {
    var after := Adjusted(stock, reference, locationId, changes);
    AvailableLoweredHaveRows(stock.onHand, reserved, locationId, changes);
    forall k ensures OnHand(after.onHand, k)
                  == OnHand(stock.onHand, k)
                     + if k.locationId == locationId then NetChange(changes, k.productId) else 0
    {
      AdjustedIsNet(stock, reference, locationId, changes, k);
    }
    if CoveredChanges(stock.onHand, locationId, changes) {
      forall k ensures OnHand(after.onHand, k) >= 0 {
        if forall i | 0 <= i < |changes| :: changes[i].productId != k.productId { NoChangeNoNet(changes, k.productId); }
      }
    } else {
      var i :| 0 <= i < |changes|
        && OnHand(stock.onHand, Key(changes[i].productId, locationId)) + NetChange(changes, changes[i].productId) < 0;
      assert OnHand(after.onHand, Key(changes[i].productId, locationId)) < 0;
    }
  }

  lemma AdjustKeepsNonNegativeIff(st: Store, r: Request)
    requires NoneNegative(st) && r.Adjust? && Outcome(st, r).Ok?
    ensures NoneNegative(Step(st, r)) <==> !Overdraws(st, r)
  {
    match r case Adjust(reference, locationId, changes, reserved, _) =>
      assert Step(st, r).stock == Adjusted(st.stock, reference, locationId, changes);
      AdjustmentKeepsNonNegativeIff(st.stock, reserved, reference, locationId, changes);
  }

  lemma ReceiptKeepsNonNegative(st: Store, r: Request)
    requires NoneNegative(st) && r.StockIn? && Outcome(st, r).Ok?
    ensures NoneNegative(Step(st, r))
  {
    match r case StockIn(reference, locationId, items, _) =>
      forall k ensures OnHand(Step(st, r).stock.onHand, k) >= 0 {
        PuttingBackRaises(st.stock, Received, reference, locationId, items, k);
      }
  }

  lemma CompletionKeepsNonNegative(st: Store, r: Request)
    requires NoneNegative(st) && r.Complete? && Outcome(st, r).Ok? && OneLineEach(st.sales[r.id].lines)
    ensures NoneNegative(Step(st, r))
  {
    var s := st.sales[r.id];
    CompleteOutcome(st, r);
    assert Step(st, r).stock == Post(st.stock, Out, r.id, s.locationId, StockItems(s.lines));
    OneLineEachIsCovered(st.stock.onHand, r.reserved, s.locationId, s.lines);
    TakingKeepsNonNegativeIff(st.stock, Out, r.reserved, r.id, s.locationId, StockItems(s.lines));
  }

  lemma PuttingBackKeepsNonNegative(st: Store, r: Request)
    requires NoneNegative(st) && (r.Void? || r.Refund?) && Outcome(st, r).Ok?
    ensures NoneNegative(Step(st, r))
  {
    var s := st.sales[r.id];
    var kind := if r.Void? then Reversal else Return;
    var items := if r.Void? then StockItems(s.lines) else RefundStock(s.lines, r.returned).value;
    assert Step(st, r).stock == Post(st.stock, kind, r.id, s.locationId, items);
    forall k ensures OnHand(Step(st, r).stock.onHand, k) >= 0 {
      PuttingBackRaises(st.stock, kind, r.id, s.locationId, items, k);
    }
  }

  lemma RequestKeepsNonNegativeIff(st: Store, r: Request)
    requires NoneNegative(st) && Outcome(st, r).Ok?
    requires r.Complete? ==> OneLineEach(st.sales[r.id].lines)
    ensures NoneNegative(Step(st, r)) <==> !Overdraws(st, r)
  {
    if r.QuickSale? {
      QuickSaleKeepsNonNegativeIff(st, r);
    } else if r.StockOut? {
      StockOutKeepsNonNegativeIff(st, r);
    } else if r.Adjust? {
      AdjustKeepsNonNegativeIff(st, r);
    } else if r.StockIn? {
      ReceiptKeepsNonNegative(st, r);
    } else if r.Complete? {
      CompletionKeepsNonNegative(st, r);
    } else if r.Void? || r.Refund? {
      PuttingBackKeepsNonNegative(st, r);
    }
  }

  predicate OverdrawsNow(shop: Shop, c: Command) {
    SalesRequest(shop, c).Some? && Overdraws(shop.store, SalesRequest(shop, c).value)
  }

  lemma SoldIsAccepted(shop: Shop, c: Command)
    requires c.Sell? && OverdrawsNow(shop, c)
    ensures Answered(shop, c).failure == None
  {
    match SalesRequest(shop, c).value
    case QuickSale(_, _, _, _, _, _, _, _, _, _, _) =>
      var r := SellRequest(shop, c);
      AcceptedSaleTakes(shop.store, r);
  }

  lemma IssuedIsAccepted(shop: Shop, c: Command)
    requires c.IssueStock? && c.stockAllowed
    requires Available(shop.store.stock.onHand, ReservedOf(shop.desk), c.locationId, c.issued)
    ensures Answered(shop, c).failure == None
  {
  }

  lemma AdjustedIsAccepted(shop: Shop, c: Command)
    requires c.AdjustStock? && c.stockAllowed
    requires Available(shop.store.stock.onHand, ReservedOf(shop.desk), c.locationId, Lowered(c.changes))
    ensures Answered(shop, c).failure == None
  {
  }

  /** Such a request is accepted. */
  lemma OverdraftIsAccepted(shop: Shop, c: Command)
    requires OverdrawsNow(shop, c)
    ensures Answered(shop, c).failure == None
  {
    match c
    case Sell(_, _, _, _, _, _, _, _, _, _, _) => SoldIsAccepted(shop, c);
    case IssueStock(_, _, _, _) => IssuedIsAccepted(shop, c);
    case AdjustStock(_, _, _, _) => AdjustedIsAccepted(shop, c);
    case _ =>
  }

  /**
    Exactly when a command takes some balance below zero: a quick sale, a stock-out or an
    adjustment whose items are each available but of some product together more than there is.
  */
  lemma StockStaysNonNegativeIff(shop: Shop, c: Command)
    requires ShopSound(shop) && NoneNegative(shop.store)
    ensures NoneNegative(After(shop, c).store) <==> !OverdrawsNow(shop, c)
  {
    StoreSteps(shop, c);
    if Answered(shop, c).failure == None && SalesRequest(shop, c).Some? {
      if c.CompleteCart? { CompletesDraft(shop, c); }
      AcceptedStep(shop, c);
      RequestKeepsNonNegativeIff(shop.store, SalesRequest(shop, c).value);
    } else if OverdrawsNow(shop, c) {
      OverdraftIsAccepted(shop, c);
    }
  }

  lemma AcceptedStep(shop: Shop, c: Command)
    requires Answered(shop, c).failure == None && SalesRequest(shop, c).Some?
    ensures Outcome(shop.store, SalesRequest(shop, c).value).Ok?
  {
  }

  /** Over every run in which no request overdraws, no balance goes negative. */
  lemma {:induction false} RunKeepsNonNegative(shop: Shop, commands: seq<Command>)
    requires ShopSound(shop) && NoneNegative(shop.store) && Throughout(shop, commands, (s, c) => !OverdrawsNow(s, c))
    ensures NoneNegative(RunAll(shop, commands).store)
    decreases |commands|
  {
    if commands != [] {
      var n := |commands| - 1;
      ThroughoutBefore(shop, commands, (s, c) => !OverdrawsNow(s, c));
      RunKeepsNonNegative(shop, commands[..n]);
      EveryRunIsSound(shop, commands[..n]);
      StockStaysNonNegativeIff(RunAll(shop, commands[..n]), commands[n]);
    }
  }

  lemma TwoPieces(items: seq<StockItem>, p: Id)
    requires |items| == 2 && items[0] == items[1] == StockItem(p, 1)
    ensures Quantity(items, p) == 2
  {
    assert Quantity(items, p) == Quantity(items[..1], p) + 1;
    assert Quantity(items[..1], p) == Quantity(items[..1][..0], p) + 1;
  }

  /** Two lines of one piece each, sold as a quick sale. */
  function TwiceTheLastPiece(tenant: Tenant, id: Id, locationId: Id, p: Id, product: Product, now: Time): Command {
    Sell(tenant, id, locationId, true, [QuickItem(1, p, 1.0, None, None), QuickItem(2, p, 1.0, None, None)], None,
         [MinPrice(product) + MinPrice(product)], map[p := product], map[], true, now)
  }

  lemma TwoLines(lines: seq<Line>, price: Money)
    requires |lines| == 2 && lines[0].lineTotal == lines[1].lineTotal == price
    ensures SumTotals(lines) == price + price
  {
    assert SumTotals(lines) == SumTotals(lines[..1]) + price;
    assert SumTotals(lines[..1]) == SumTotals(lines[..1][..0]) + price;
  }

  /** It passes every check of a quick sale. */
  lemma LastPieceIsAccepted(shop: Shop, c: Command, p: Id, product: Product)
    requires c.Sell? && c == TwiceTheLastPiece(c.tenant, c.id, c.locationId, p, product, c.now)
    requires product.tenant == c.tenant && shop == OnePieceShop(p, c.locationId, c.tenant)
    ensures QuickSaleAccepted(shop.store, SalesRequest(shop, c).value)
  {
    var lines := ProcessItems(c.catalogue, c.costs, c.tenant, c.items);
    forall i | 0 <= i < 2 ensures lines[i].quantity == 1 && lines[i].lineTotal == MinPrice(product) {
      LineTotalIsProduct(lines[i].unitPrice, lines[i].discountAmount, 1);
    }
    TwoLines(lines, MinPrice(product));
    assert Sum(c.payments) == Sum(c.payments[..0]) + c.payments[0];
  }

  lemma AcceptedSaleTakes(st: Store, r: Request)
    requires r.QuickSale? && QuickSaleAccepted(st, r)
    ensures var items := StockItems(ProcessItems(r.catalogue, r.costs, r.tenant, r.items));
            && QuickSold(st, r).Ok? && Available(st.stock.onHand, r.reserved, r.locationId, items)
            && QuickSold(st, r).value.stock == Post(st.stock, Out, r.id, r.locationId, items)
  {
  }

  /** The request a quick sale makes. */
  lemma SellRequest(shop: Shop, c: Command) returns (r: Request)
    requires c.Sell? && c.id !in shop.store.sales
    ensures r == QuickSale(c.tenant, c.id, c.locationId, c.locationKnown, c.items, c.discount, c.payments, c.catalogue,
                           c.costs, ReservedOf(shop.desk), c.stockAllowed)
    ensures SalesRequest(shop, c) == Some(r)
    ensures QuickSold(shop.store, r).Ok? ==>
              Answered(shop, c).failure == None && After(shop, c).store == QuickSold(shop.store, r).value
  {
    SellAnswer(shop, c);
    match c case Sell(tenant, id, locationId, known, items, discount, payments, catalogue, costs, stockAllowed, _) =>
      r := QuickSale(tenant, id, locationId, known, items, discount, payments, catalogue, costs, ReservedOf(shop.desk),
                     stockAllowed);
  }

  lemma LastPieceTakes(stock: Stock, reserved: map<Key, nat>, id: Id, locationId: Id, p: Id, items: seq<StockItem>)
    requires OnHand(stock.onHand, Key(p, locationId)) == 1 && Available(stock.onHand, reserved, locationId, items)
    requires |items| == 2 && items[0] == items[1] == StockItem(p, 1)
    ensures OnHand(Post(stock, Out, id, locationId, items).onHand, Key(p, locationId)) == -1
  {
    TwoPieces(items, p);
    AvailableHasRows(stock, Out, reserved, locationId, items);
    PostTakes(stock, Out, id, locationId, items, Key(p, locationId));
  }

  /** An input: the last piece of a product, listed twice in a quick sale, is sold twice. */
  lemma LastPieceSoldTwice(tenant: Tenant, id: Id, locationId: Id, p: Id, product: Product, now: Time)
    requires product.tenant == tenant
    ensures var shop, c := OnePieceShop(p, locationId, tenant),
                           TwiceTheLastPiece(tenant, id, locationId, p, product, now);
            && Answered(shop, c).failure == None
            && OnHand(After(shop, c).store.stock.onHand, Key(p, locationId)) == -1
  {
    var shop, c := OnePieceShop(p, locationId, tenant), TwiceTheLastPiece(tenant, id, locationId, p, product, now);
    var r := SellRequest(shop, c);
    LastPieceIsAccepted(shop, c, p, product);
    AcceptedSaleTakes(shop.store, r);
    LastPieceTakes(shop.store.stock, r.reserved, id, locationId, p,
                   StockItems(ProcessItems(c.catalogue, c.costs, tenant, c.items)));
  }

  /** An input: a reservation made directly in the name of an empty cart is more than it asks for. */
  lemma DirectReservationOverholds(tenant: Tenant, id: Id, locationId: Id, p: Id, now: Time)
    ensures var open := OpenCart(tenant, id, locationId, now);
            var direct := ReserveDirect(R.Reservation(tenant, Key(p, locationId), 1, R.Active, now + 1, Some(id)), true,
                                        now);
            var cart := After(OnePieceShop(p, locationId, tenant), open);
            && IsCart(cart.store, tenant, id) && Short(cart, id, p) == 0
            && IsCart(After(cart, direct).store, tenant, id) && Short(After(cart, direct), id, p) == -1
  {
    var shop, open := OnePieceShop(p, locationId, tenant), OpenCart(tenant, id, locationId, now);
    var direct := ReserveDirect(R.Reservation(tenant, Key(p, locationId), 1, R.Active, now + 1, Some(id)), true, now);
    var cart := After(shop, open);
    NewDraftIsEmpty(shop, open, id, p);
    HoldsEffect(cart, direct);
    HoldsShort(cart, direct, id, p);
  }
}
