/**
  What every reachable store of sales satisfies: settled amounts, bounded refunds, and
  stock movements that agree with the sale lines.
*/
module SaleInvariants {
  import opened Amounts
  import opened Wrappers
  import opened StockLedger
  import opened Sales

  // ----- One sale -----------------------------------------------------------------------------

  predicate Priced(l: Line) {
    l.lineTotal == (l.unitPrice - l.discountAmount) * l.quantity
  }

  predicate AllPriced(lines: seq<Line>) { forall i | 0 <= i < |lines| :: Priced(lines[i]) }

  /** The stored totals follow from the lines; a finished sale is paid for exactly, net of change. */
  predicate Settled(s: Sale) {
    && AllPriced(s.lines)
    && s.subtotal == SumTotals(s.lines)
    && s.totalAmount == s.subtotal - s.discountAmount + s.taxAmount
    && s.paidAmount == Sum(s.payments)
    && (if s.status == Draft then s.taxAmount == 0 && s.payments == [] && s.changeAmount == 0
        else s.paidAmount - s.changeAmount == s.totalAmount && s.changeAmount >= 0)
  }

  /** The refunds of a sale against what was kept of its payment. */
  predicate RefundsBounded(s: Sale) {
    && (s.refunds != [] ==> Sum(s.refunds) <= Limit(s))
    && (s.status == Refunded <==> s.refunds != [] && Sum(s.refunds) == Limit(s))
    && (s.status == PartiallyRefunded <==> s.refunds != [] && Sum(s.refunds) < Limit(s))
  }

  predicate Sound(s: Sale) { Settled(s) && RefundsBounded(s) }

  lemma AddedIsPriced(lines: seq<Line>, item: CartItem, p: Product)
    requires AllPriced(lines)
    ensures AllPriced(Added(lines, item, p))
  {
    var added := Added(lines, item, p);
    forall i | 0 <= i < |added| ensures Priced(added[i]) {
      LineTotalIsProduct(added[i].unitPrice, added[i].discountAmount, added[i].quantity);
      assert i < |lines| && added[i] == lines[i] ==> Priced(lines[i]);
    }
  }

  lemma ChangedIsPriced(lines: seq<Line>, i: nat, quantity: nat, unitPrice: Option<Money>,
                        discountAmount: Option<Money>)
    requires AllPriced(lines) && i < |lines|
    ensures AllPriced(lines[i := Changed(lines[i], quantity, unitPrice, discountAmount)])
  {
    var line := Changed(lines[i], quantity, unitPrice, discountAmount);
    LineTotalIsProduct(line.unitPrice, line.discountAmount, quantity);
  }

  lemma CompletedIsSound(s: Sale, payments: seq<Money>)
    requires Sound(s) && s.status == Draft && Sum(payments) >= CompletionTotal(s)
    ensures Sound(CompletedSale(s, payments))
  {
    assert s.payments + payments == payments;
  }

  lemma RefundedIsSound(s: Sale, amount: Money)
    requires Sound(s) && (s.status == Completed || s.status == PartiallyRefunded)
    requires amount <= s.paidAmount - Sum(s.refunds) - s.changeAmount
    ensures Sound(RefundedSale(s, amount))
  {
    assert (s.refunds + [amount])[..|s.refunds|] == s.refunds;
  }

  /**
    The two routes' change agree on every sale either route accepts: the plain difference of
    a quick sale is what `calculateChange` answers exactly when the payment covers the total.
  */
  lemma ChangeFormulasAgree(totalAmount: Money, paidAmount: Money)
    ensures CalculateChange(totalAmount, paidAmount) == paidAmount - totalAmount <==> paidAmount >= totalAmount
  {
  }

  // ----- What the lines of a cart ask for -------------------------------------------------------

  lemma AddedTakes(lines: seq<Line>, item: CartItem, product: Product, p: Id)
    ensures Quantity(StockItems(Added(lines, item, product)), p)
         == Quantity(StockItems(lines), p) + if item.productId == p then item.quantity else 0
  {
    var after := StockItems(Added(lines, item, product));
    match FindProduct(lines, item.productId)
    case Some(i) =>
      var quantity := lines[i].quantity + item.quantity;
      assert after == StockItems(lines)[i := StockItems(lines)[i].(quantity := quantity)];
      QuantityUpdate(StockItems(lines), i, quantity, p);
    case None =>
      assert after == StockItems(lines) + [StockItem(item.productId, item.quantity)];
      assert after[..|lines|] == StockItems(lines);
  }

  lemma ChangedTakes(lines: seq<Line>, i: nat, quantity: nat, unitPrice: Option<Money>, discountAmount: Option<Money>,
                     p: Id)
    requires i < |lines|
    ensures Quantity(StockItems(lines[i := Changed(lines[i], quantity, unitPrice, discountAmount)]), p)
         == Quantity(StockItems(lines), p) + if lines[i].productId == p then quantity - lines[i].quantity else 0
  {
    var items := StockItems(lines);
    assert StockItems(lines[i := Changed(lines[i], quantity, unitPrice, discountAmount)])
        == items[i := items[i].(quantity := quantity)];
    QuantityUpdate(items, i, quantity, p);
  }

  lemma RemovedTakes(lines: seq<Line>, i: nat, p: Id)
    requires i < |lines|
    ensures Quantity(StockItems(lines[..i] + lines[i + 1..]), p)
         == Quantity(StockItems(lines), p) - if lines[i].productId == p then lines[i].quantity else 0
  {
    var items := StockItems(lines);
    assert StockItems(lines[..i] + lines[i + 1..]) == items[..i] + items[i + 1..];
    QuantityRemove(items, i, p);
  }

  /** Each product has at most one line. */
  predicate OneLineEach(lines: seq<Line>) {
    forall i, j | 0 <= i < j < |lines| :: lines[i].productId != lines[j].productId
  }

  lemma {:induction false} OnlyLineTakes(lines: seq<Line>, i: nat)
    requires OneLineEach(lines) && i < |lines|
    ensures Quantity(StockItems(lines), lines[i].productId) == lines[i].quantity
  {
    var n := |lines| - 1;
    assert StockItems(lines)[..n] == StockItems(lines[..n]);
    if i < n {
      OnlyLineTakes(lines[..n], i);
    } else {
      NoRowNoQuantity(StockItems(lines[..n]), lines[n].productId);
    }
  }

  // ----- The store ------------------------------------------------------------------------------

  predicate Taken(s: Sale) { s.status != Draft }

  function QuantityIf(counts: bool, s: Sale, p: Id): nat {
    if counts then Quantity(StockItems(s.lines), p) else 0
  }

  /** Movements of one sale and product: taken once on completion, put back once by a void. */
  predicate MatchAt(sales: map<Id, Sale>, movements: seq<Movement>, id: Id, p: Id) {
    if id in sales then
      var s := sales[id];
      && Moved(movements, Out, id, p) == QuantityIf(Taken(s), s, p)
      && Moved(movements, Reversal, id, p) == QuantityIf(s.status == Voided, s, p)
      && (s.status in {Draft, Completed, Voided} ==> Moved(movements, Return, id, p) == 0)
    else
      forall kind: Kind | OfSale(kind) :: Moved(movements, kind, id, p) == 0
  }

  ghost predicate MovementsMatch(st: Store) {
    forall id: Id, p: Id :: MatchAt(st.sales, st.stock.movements, id, p)
  }

  /** A sale that took stock still finds a balance row for each of its products. */
  ghost predicate RowsKept(st: Store) {
    forall id <- st.sales | Taken(st.sales[id]) ::
      Stocked(st.stock.onHand, st.sales[id].locationId, StockItems(st.sales[id].lines))
  }

  ghost predicate Valid(st: Store) {
    && (forall id <- st.sales :: Sound(st.sales[id]))
    && MovementsMatch(st)
    && RowsKept(st)
  }

  lemma RowsSurvive(st: Store, onHand: map<Key, int>)
    requires RowsKept(st) && st.stock.onHand.Keys <= onHand.Keys
    ensures forall id <- st.sales | Taken(st.sales[id]) ::
              Stocked(onHand, st.sales[id].locationId, StockItems(st.sales[id].lines))
  {
  }

  /** Which movements go with which change of a sale. */
  predicate Fits(sales: map<Id, Sale>, id: Id, after: Sale, kind: Kind, items: seq<StockItem>) {
    && (id in sales ==> after.locationId == sales[id].locationId)
    && match kind
       case Out =>
         (id in sales ==> sales[id].status == Draft) && after.status == Completed && items == StockItems(after.lines)
       case Reversal =>
         id in sales && sales[id].status == Completed && after.status == Voided
         && after.lines == sales[id].lines && items == StockItems(after.lines)
       case Return =>
         id in sales && sales[id].status in {Completed, PartiallyRefunded}
         && after.status in {PartiallyRefunded, Refunded} && after.lines == sales[id].lines
       case _ => false
  }

  lemma PostingMatches(st: Store, id: Id, after: Sale, kind: Kind, items: seq<StockItem>, s: Id, p: Id)
    requires MatchAt(st.sales, st.stock.movements, s, p) && Fits(st.sales, id, after, kind, items)
    ensures MatchAt(st.sales[id := after], Post(st.stock, kind, id, after.locationId, items).movements, s, p)
  {
    PostMoves(st.stock, kind, id, after.locationId, items, Out, s, p);
    PostMoves(st.stock, kind, id, after.locationId, items, Reversal, s, p);
    PostMoves(st.stock, kind, id, after.locationId, items, Return, s, p);
    if s !in st.sales[id := after] {
      forall kind': Kind | OfSale(kind') ensures Moved(Post(st.stock, kind, id, after.locationId, items).movements,
                                                       kind', s, p) == 0 {
        PostMoves(st.stock, kind, id, after.locationId, items, kind', s, p);
      }
    }
  }

  lemma PostingKeepsRows(st: Store, id: Id, after: Sale, kind: Kind, items: seq<StockItem>)
    requires RowsKept(st) && Fits(st.sales, id, after, kind, items)
    ensures RowsKept(Store(st.sales[id := after], Post(st.stock, kind, id, after.locationId, items)))
  {
    PostKeepsRows(st.stock, kind, id, after.locationId, items);
    RowsSurvive(st, Post(st.stock, kind, id, after.locationId, items).onHand);
  }

  /** Writing a sale and posting its movements keeps the store valid when the two fit. */
  lemma PostingKeepsValid(st: Store, id: Id, after: Sale, kind: Kind, items: seq<StockItem>)
    requires Valid(st) && Sound(after) && Fits(st.sales, id, after, kind, items)
    ensures Valid(Store(st.sales[id := after], Post(st.stock, kind, id, after.locationId, items)))
  {
    PostingKeepsRows(st, id, after, kind, items);
    var sales, movements := st.sales[id := after], Post(st.stock, kind, id, after.locationId, items).movements;
    forall s: Id, p: Id ensures MatchAt(sales, movements, s, p) {
      PostingMatches(st, id, after, kind, items, s, p);
    }
  }

  /** An edit of a draft touches no movement. */
  lemma DraftEditKeepsValid(st: Store, id: Id, after: Sale)
    requires Valid(st) && Sound(after) && after.status == Draft
    requires id !in st.sales || st.sales[id].status == Draft
    ensures Valid(st.(sales := st.sales[id := after]))
  {
    var sales := st.sales[id := after];
    forall s: Id, p: Id ensures MatchAt(sales, st.stock.movements, s, p) {
      assert MatchAt(st.sales, st.stock.movements, s, p);
    }
  }

  /** A draft has moved nothing, so it can go. */
  lemma DeletionKeepsValid(st: Store, gone: set<Id>)
    requires Valid(st) && AreDrafts(st, gone)
    ensures Valid(st.(sales := st.sales - gone))
  {
    forall s: Id, p: Id ensures MatchAt(st.sales - gone, st.stock.movements, s, p) {
      assert MatchAt(st.sales, st.stock.movements, s, p);
      forall kind: Kind | OfSale(kind) && s in gone ensures Moved(st.stock.movements, kind, s, p) == 0 {}
    }
  }

  /** Stock requests touch no sale's movements and delete no balance row. */
  lemma StockOnlyKeepsValid(st: Store, stock: Stock)
    requires Valid(st) && st.stock.onHand.Keys <= stock.onHand.Keys
    requires forall kind: Kind, s: Id, p: Id | OfSale(kind) ::
               Moved(stock.movements, kind, s, p) == Moved(st.stock.movements, kind, s, p)
    ensures Valid(st.(stock := stock))
  {
    forall s: Id, p: Id ensures MatchAt(st.sales, stock.movements, s, p) {
      assert MatchAt(st.sales, st.stock.movements, s, p);
    }
    RowsSurvive(st, stock.onHand);
  }

  lemma StockPostingKeepsValid(st: Store, kind: Kind, reference: Id, locationId: Id, items: seq<StockItem>)
    requires Valid(st) && !OfSale(kind)
    ensures Valid(st.(stock := Post(st.stock, kind, reference, locationId, items)))
  {
    var stock := Post(st.stock, kind, reference, locationId, items);
    PostKeepsRows(st.stock, kind, reference, locationId, items);
    forall other: Kind, s: Id, p: Id | OfSale(other)
      ensures Moved(stock.movements, other, s, p) == Moved(st.stock.movements, other, s, p)
    {
      PostMoves(st.stock, kind, reference, locationId, items, other, s, p);
    }
    StockOnlyKeepsValid(st, stock);
  }

  lemma AdjustmentKeepsValid(st: Store, reference: Id, locationId: Id, changes: seq<Change>)
    requires Valid(st)
    ensures Valid(st.(stock := Adjusted(st.stock, reference, locationId, changes)))
  {
    var stock := Adjusted(st.stock, reference, locationId, changes);
    AdjustedKeepsRows(st.stock, reference, locationId, changes);
    forall kind: Kind, s: Id, p: Id | OfSale(kind)
      ensures Moved(stock.movements, kind, s, p) == Moved(st.stock.movements, kind, s, p)
    {
      AdjustedMoves(st.stock, reference, locationId, changes, kind, s, p);
    }
    StockOnlyKeepsValid(st, stock);
  }

  lemma QuickSaleKeepsValid(st: Store, r: Request)
    requires Valid(st) && r.QuickSale? && Outcome(st, r).Ok?
    ensures Valid(Step(st, r))
  {
    var lines := ProcessItems(r.catalogue, r.costs, r.tenant, r.items);
    var sale := QuickSaleRow(r.tenant, r.locationId, lines, r.discount, r.quickPayments);
    if r.id !in st.sales { QuickSaleOutcome(st, r); }
    forall i | 0 <= i < |lines| ensures Priced(lines[i]) {
      LineTotalIsProduct(lines[i].unitPrice, lines[i].discountAmount, lines[i].quantity);
    }
    PostingKeepsValid(st, r.id, sale, Out, StockItems(lines));
  }

  lemma CartEditKeepsValid(st: Store, r: Request)
    requires Valid(st) && (r.AddItem? || r.UpdateItem? || r.RemoveItem?) && Outcome(st, r).Ok?
    ensures Valid(Step(st, r))
  {
    var s := st.sales[r.id];
    match r {
      case AddItem(_, _, item, catalogue, _) =>
        AddedIsPriced(s.lines, item, catalogue[item.productId]);
        DraftEditKeepsValid(st, r.id, Recalculated(s, Added(s.lines, item, catalogue[item.productId])));
      case UpdateItem(_, _, lineId, quantity, unitPrice, discountAmount, _) =>
        var i := FindLine(s.lines, lineId).value;
        ChangedIsPriced(s.lines, i, quantity, unitPrice, discountAmount);
        var lines := s.lines[i := Changed(s.lines[i], quantity, unitPrice, discountAmount)];
        DraftEditKeepsValid(st, r.id, Recalculated(s, lines));
      case RemoveItem(_, _, lineId) =>
        var i := FindLine(s.lines, lineId).value;
        DraftEditKeepsValid(st, r.id, Recalculated(s, s.lines[..i] + s.lines[i + 1..]));
    }
  }

  lemma StepKeepsValid(st: Store, r: Request)
    requires Valid(st)
    ensures Valid(Step(st, r))
  {
    if Outcome(st, r).Ok? {
      match r {
        case QuickSale(_, _, _, _, _, _, _, _, _, _, _) => QuickSaleKeepsValid(st, r);
        case CreateCart(tenant, id, locationId) => DraftEditKeepsValid(st, id, EmptyCartRow(tenant, locationId));
        case AddItem(_, _, _, _, _) => CartEditKeepsValid(st, r);
        case UpdateItem(_, _, _, _, _, _, _) => CartEditKeepsValid(st, r);
        case RemoveItem(_, _, _) => CartEditKeepsValid(st, r);
        case Complete(_, id, payments, _, _) =>
          var s := st.sales[id];
          CompletedIsSound(s, payments);
          PostingKeepsValid(st, id, CompletedSale(s, payments), Out, StockItems(s.lines));
        case Void(_, id) =>
          var s := st.sales[id];
          PostingKeepsValid(st, id, s.(status := Voided), Reversal, StockItems(s.lines));
        case Refund(_, id, amount, returned, _) =>
          var s := st.sales[id];
          RefundedIsSound(s, amount);
          PostingKeepsValid(st, id, RefundedSale(s, amount), Return, RefundStock(s.lines, returned).value);
        case DeleteDrafts(gone) => DeletionKeepsValid(st, gone);
        case StockIn(reference, locationId, items, _) =>
            StockPostingKeepsValid(st, Received, reference, locationId, items);
        case StockOut(reference, locationId, items, _, _) =>
            StockPostingKeepsValid(st, Issued, reference, locationId, items);
        case Adjust(reference, locationId, changes, _, _) => AdjustmentKeepsValid(st, reference, locationId, changes);
      }
    }
  }

  /** Every store reachable by any sequence of requests is valid. */
  lemma {:induction false} EveryRunIsValid(st: Store, requests: seq<Request>)
    requires Valid(st)
    ensures Valid(Run(st, requests))
    decreases |requests|
  {
    if requests != [] {
      EveryRunIsValid(st, requests[..|requests| - 1]);
      StepKeepsValid(Run(st, requests[..|requests| - 1]), requests[|requests| - 1]);
    }
  }

  /** Whatever balances the stock service starts from. */
  lemma EmptyStoreIsValid(onHand: map<Key, int>)
    ensures Valid(Store(map[], Stock(onHand, [])))
  {
  }

  /** Only the three cart edits change the lines of a sale that stays a draft, and only of their own. */
  lemma DraftsAreTheirOwn(st: Store, r: Request, id: Id)
    requires id in st.sales && st.sales[id].status == Draft && id in Step(st, r).sales
        && Step(st, r).sales[id].status == Draft
    requires !((r.AddItem? || r.UpdateItem? || r.RemoveItem?) && r.id == id)
    ensures Step(st, r).sales[id] == st.sales[id]
  {
  }

  // ----- What that means to a caller ---------------------------------------------------------------

  /**
    Every completed sale of every run, by whichever route and after whatever edits: its lines
    are priced, its stored totals follow from them, and what it kept of the payment is its total.
  */
  lemma CompletedSalesAreSettled(st: Store, requests: seq<Request>, id: Id)
    requires Valid(st) && id in Run(st, requests).sales && Run(st, requests).sales[id].status != Draft
    ensures var s := Run(st, requests).sales[id];
            && (forall i | 0 <= i < |s.lines| ::
                  s.lines[i].lineTotal == (s.lines[i].unitPrice - s.lines[i].discountAmount) * s.lines[i].quantity)
            && s.subtotal == SumTotals(s.lines) && s.totalAmount == s.subtotal - s.discountAmount + s.taxAmount
            && s.paidAmount == Sum(s.payments) && s.paidAmount - s.changeAmount == s.totalAmount && s.changeAmount >= 0
  {
    EveryRunIsValid(st, requests);
    var s := Run(st, requests).sales[id];
    assert Sound(s);
    forall i | 0 <= i < |s.lines|
      ensures s.lines[i].lineTotal == (s.lines[i].unitPrice - s.lines[i].discountAmount) * s.lines[i].quantity
    {
      assert Priced(s.lines[i]);
    }
  }

  /**
    `complete` charges the lines and the sale's tax anew, the cart shows its stored total:
    in every reachable store they are the same for every draft.
  */
  lemma DraftsAreChargedTheirTotal(st: Store, requests: seq<Request>, id: Id)
    requires Valid(st) && id in Run(st, requests).sales && Run(st, requests).sales[id].status == Draft
    ensures CompletionTotal(Run(st, requests).sales[id]) == Run(st, requests).sales[id].totalAmount
  {
    EveryRunIsValid(st, requests);
    assert Sound(Run(st, requests).sales[id]);
  }

  /**
    Over every run of positive refunds the refunded sum never passes the sale's total, and the
    status says where it stands.
  */
  lemma RefundStatusIsExact(st: Store, requests: seq<Request>, id: Id)
    requires Valid(st) && id in Run(st, requests).sales
    requires var s := Run(st, requests).sales[id]; forall i | 0 <= i < |s.refunds| :: s.refunds[i] > 0
    ensures var s := Run(st, requests).sales[id];
            && (Sum(s.refunds) <= s.totalAmount || s.refunds == [])
            && (s.status == Refunded <==> s.refunds != [] && Sum(s.refunds) == s.totalAmount)
            && (s.status == PartiallyRefunded <==> 0 < Sum(s.refunds) < s.totalAmount)
  {
    EveryRunIsValid(st, requests);
    var s := Run(st, requests).sales[id];
    assert Sound(s);
    PositiveSum(s.refunds);
    if s.refunds == [] { assert Sum(s.refunds) == 0; }
  }

  /**
    In every reachable store: a voided sale has put back, product by product, exactly what it
    took, was never refunded, and no other sale has put anything back by a void.
  */
  lemma VoidReturnsWhatWasTaken(st: Store, requests: seq<Request>, id: Id, p: Id)
    requires Valid(st)
    ensures var after := Run(st, requests);
            && (id in after.sales && after.sales[id].status == Voided ==>
                  && Moved(after.stock.movements, Reversal, id, p) == Moved(after.stock.movements, Out, id, p)
                  && after.sales[id].refunds == [] && Moved(after.stock.movements, Return, id, p) == 0)
            && (id !in after.sales || after.sales[id].status != Voided
                ==> Moved(after.stock.movements, Reversal, id, p) == 0)
  {
    EveryRunIsValid(st, requests);
    var after := Run(st, requests);
    assert MatchAt(after.sales, after.stock.movements, id, p);
    if id in after.sales { assert Sound(after.sales[id]); }
  }

  /** A void really raises each on-hand balance by what the sale had taken: no row is missing. */
  lemma VoidRestoresOnHand(st: Store, r: Request, k: Key)
    requires Valid(st) && r.Void? && Outcome(st, r).Ok?
    ensures OnHand(Step(st, r).stock.onHand, k)
         == OnHand(st.stock.onHand, k)
            + if k.locationId == st.sales[r.id].locationId then Moved(st.stock.movements, Out, r.id, k.productId) else 0
  {
    var s := st.sales[r.id];
    var items := StockItems(s.lines);
    assert MatchAt(st.sales, st.stock.movements, r.id, k.productId);
    ReversalPutsBack(st.stock, r.id, s.locationId, items, k);
    if k.locationId == s.locationId && k !in st.stock.onHand {
      assert Stocked(st.stock.onHand, s.locationId, items);
      NoRowNoQuantity(items, k.productId);
    }
  }

  /** VOIDED and REFUNDED are final, and a finished sale's lines and amounts never change. */
  lemma FinishedSalesAreFrozen(st: Store, r: Request, id: Id)
    requires id in st.sales && st.sales[id].status != Draft
    ensures id in Step(st, r).sales
    ensures var s, s' := st.sales[id], Step(st, r).sales[id];
            && s'.(status := s.status, refunds := s.refunds) == s
            && s.refunds <= s'.refunds
            && (s.status in {Voided, Refunded} ==> s' == s)
            && (s.status == PartiallyRefunded ==> s'.status in {PartiallyRefunded, Refunded})
  {
  }

  /** The requests that post one list of items of one kind. */
  predicate Posts(r: Request) { r.QuickSale? || r.Complete? || r.Void? || r.Refund? || r.StockIn? || r.StockOut? }

  function ReferenceOf(r: Request): Id
    requires Posts(r)
  {
    if r.StockIn? || r.StockOut? then r.reference else r.id
  }

  /** Only items with a balance row, or nothing to move, are posted. */
  lemma RequestPosts(st: Store, r: Request) returns (kind: Kind, items: seq<StockItem>, locationId: Id)
    requires RowsKept(st) && Outcome(st, r).Ok? && Posts(r)
    ensures Step(st, r).stock == Post(st.stock, kind, ReferenceOf(r), locationId, items)
    ensures forall i | 0 <= i < |items| :: RowOrNothing(st.stock, kind, locationId, items[i])
  {
    match r
    case QuickSale(tenant, _, location, _, quickItems, _, _, catalogue, costs, reserved, _) =>
      kind, items, locationId := Out, StockItems(ProcessItems(catalogue, costs, tenant, quickItems)), location;
      AvailableHasRows(st.stock, kind, reserved, locationId, items);
    case Complete(_, id, _, reserved, _) =>
      kind, items, locationId := Out, StockItems(st.sales[id].lines), st.sales[id].locationId;
      AvailableHasRows(st.stock, kind, reserved, locationId, items);
    case Void(_, id) =>
      kind, items, locationId := Reversal, StockItems(st.sales[id].lines), st.sales[id].locationId;
      assert Stocked(st.stock.onHand, locationId, items);
    case Refund(_, id, _, returned, _) =>
      kind, items, locationId := Return, RefundStock(st.sales[id].lines, returned).value, st.sales[id].locationId;
    case StockIn(_, location, stockItems, _) =>
      kind, items, locationId := Received, stockItems, location;
    case StockOut(_, location, stockItems, reserved, _) =>
      kind, items, locationId := Issued, stockItems, location;
      AvailableHasRows(st.stock, kind, reserved, locationId, items);
  }

  lemma AdjustmentConservesStock(st: Store, r: Request, k: Key)
    requires r.Adjust? && Outcome(st, r).Ok?
    ensures var after := Step(st, r);
            OnHand(after.stock.onHand, k) - Net(after.stock.movements, k)
            == OnHand(st.stock.onHand, k) - Net(st.stock.movements, k)
  {
    match r
    case Adjust(reference, locationId, changes, reserved, _) =>
      AvailableLoweredHaveRows(st.stock.onHand, reserved, locationId, changes);
      AdjustedIsNet(st.stock, reference, locationId, changes, k);
  }

  /** On-hand stock is conserved by every request: it changes by what is recorded, no more. */
  lemma StepConservesStock(st: Store, r: Request, k: Key)
    requires Valid(st)
    ensures var after := Step(st, r);
            OnHand(after.stock.onHand, k) - Net(after.stock.movements, k)
            == OnHand(st.stock.onHand, k) - Net(st.stock.movements, k)
  {
    if Outcome(st, r).Ok? {
      if Posts(r) {
        var kind, items, locationId := RequestPosts(st, r);
        PostConserves(st.stock, kind, ReferenceOf(r), locationId, items, k);
      } else if r.Adjust? {
        AdjustmentConservesStock(st, r, k);
      }
    }
  }

  lemma {:induction false} EveryRunConservesStock(st: Store, requests: seq<Request>, k: Key)
    requires Valid(st)
    ensures var after := Run(st, requests);
            OnHand(after.stock.onHand, k) - Net(after.stock.movements, k)
            == OnHand(st.stock.onHand, k) - Net(st.stock.movements, k)
    decreases |requests|
  {
    if requests != [] {
      EveryRunConservesStock(st, requests[..|requests| - 1], k);
      EveryRunIsValid(st, requests[..|requests| - 1]);
      StepConservesStock(Run(st, requests[..|requests| - 1]), requests[|requests| - 1], k);
    }
  }
}
