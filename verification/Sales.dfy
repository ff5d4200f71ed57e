/**
  Carts, sales, voids and refunds, and the stock requests beside them: what each makes of the
  store of sales and stock movements.

  Money is an exact integer number of 1/10000 units. Each request is one atomic step; a
  request that fails leaves the store as it was.
*/
module Sales {
  import opened Amounts
  import opened StockLedger
  import opened Wrappers

  datatype Status = Draft | Completed | Voided | PartiallyRefunded | Refunded

  datatype Line = Line(id: Id, productId: Id, quantity: nat, unitPrice: Money, unitCost: Money,
                       discountAmount: Money, lineTotal: Money)

  datatype Sale = Sale(
    tenant: Tenant, locationId: Id, status: Status, lines: seq<Line>,
    subtotal: Money, discountAmount: Money, taxAmount: Money, totalAmount: Money,
    paidAmount: Money, changeAmount: Money, payments: seq<Money>, refunds: seq<Money>)

  datatype Product = Product(tenant: Tenant, minSellingPrice: Option<Money>)

  datatype Store = Store(sales: map<Id, Sale>, stock: Stock)

  datatype Error =
    | NotFound
    | InvalidQuantity
    | EmptyItems
    | NoPayments
    | ProductNotFound
    | ReservationFailed
    | InsufficientStock
    | StockRefused
    | InsufficientPayment
    | WrongStatus
    | EmptyCart
    | ItemNotFound
    | ExceedsRefundable

  // ----- Sums over unbounded lists ----------------------------------------------------------

  function SumTotals(lines: seq<Line>): Money {
    if lines == [] then 0 else SumTotals(lines[..|lines| - 1]) + lines[|lines| - 1].lineTotal
  }

  /** What a sale hands to `stockOut`, and what a void walks through. */
  function StockItems(lines: seq<Line>): (items: seq<StockItem>)
    ensures |items| == |lines|
    ensures forall i | 0 <= i < |lines| :: items[i] == StockItem(lines[i].productId, lines[i].quantity)
  {
    if lines == [] then []
    else
      var last := lines[|lines| - 1];
      StockItems(lines[..|lines| - 1]) + [StockItem(last.productId, last.quantity)]
  }

  lemma {:induction false} SumTotalsUpdate(lines: seq<Line>, i: nat, line: Line)
    requires i < |lines|
    ensures SumTotals(lines[i := line]) == SumTotals(lines) - lines[i].lineTotal + line.lineTotal
  {
    var n := |lines| - 1;
    if i < n {
      assert lines[i := line][..n] == lines[..n][i := line];
      SumTotalsUpdate(lines[..n], i, line);
    } else {
      assert lines[i := line][..n] == lines[..n];
    }
  }

  // ----- Pricing one line -------------------------------------------------------------------

  /** `amount.mul(n)`, as repeated addition: only the lemmas about prices have to meet products. */
  function Times(amount: Money, n: nat): Money {
    if n == 0 then 0 else Times(amount, n - 1) + amount
  }

  lemma {:induction false} TimesIsProduct(amount: Money, n: nat)
    ensures Times(amount, n) == amount * n
  {
    if n > 0 { TimesIsProduct(amount, n - 1); }
  }

  function LineTotal(unitPrice: Money, discountAmount: Money, quantity: nat): Money {
    Times(unitPrice, quantity) - Times(discountAmount, quantity)
  }

  /** Price and discount both count for each piece. */
  lemma LineTotalIsProduct(unitPrice: Money, discountAmount: Money, quantity: nat)
    ensures LineTotal(unitPrice, discountAmount, quantity) == unitPrice * quantity - discountAmount * quantity
    ensures LineTotal(unitPrice, discountAmount, quantity) == (unitPrice - discountAmount) * quantity
  {
    TimesIsProduct(unitPrice, quantity);
    TimesIsProduct(discountAmount, quantity);
  }

  function MinPrice(p: Product): Money {
    if p.minSellingPrice.Some? then p.minSellingPrice.value else 0
  }

  /** A quick-sale override counts only when it is truthy: a price of zero is ignored. */
  function QuickPrice(unitPrice: Option<Money>, p: Product): Money {
    if unitPrice.Some? && unitPrice.value != 0 then unitPrice.value else MinPrice(p)
  }

  // ----- Cart edits -------------------------------------------------------------------------

  function FindProduct(lines: seq<Line>, productId: Id): (i: Option<nat>)
    ensures i.Some? ==> i.value < |lines| && lines[i.value].productId == productId
    ensures i.None? ==> forall j | 0 <= j < |lines| :: lines[j].productId != productId
  {
    if lines == [] then None
    else
      match FindProduct(lines[..|lines| - 1], productId)
      case Some(j) => Some(j)
      case None => if lines[|lines| - 1].productId == productId then Some(|lines| - 1) else None
  }

  function FindLine(lines: seq<Line>, id: Id): (i: Option<nat>)
    ensures i.Some? ==> i.value < |lines| && lines[i.value].id == id
    ensures i.None? ==> forall j | 0 <= j < |lines| :: lines[j].id != id
  {
    if lines == [] then None
    else
      match FindLine(lines[..|lines| - 1], id)
      case Some(j) => Some(j)
      case None => if lines[|lines| - 1].id == id then Some(|lines| - 1) else None
  }

  /** `addItem`: `lineId` is the key the database would give a new row. */
  datatype CartItem = CartItem(lineId: Id, productId: Id, quantity: nat, unitPrice: Option<Money>,
                               discountAmount: Option<Money>)

  /** A product already in the cart grows at the price and discount it was first added with. */
  function Added(lines: seq<Line>, item: CartItem, p: Product): seq<Line> {
    match FindProduct(lines, item.productId)
    case Some(i) =>
      var old' := lines[i];
      var quantity := old'.quantity + item.quantity;
      lines[i := old'.(quantity := quantity, lineTotal := LineTotal(old'.unitPrice, old'.discountAmount, quantity))]
    case None =>
      var unitPrice, discountAmount := OrElse(item.unitPrice, MinPrice(p)), OrElse(item.discountAmount, 0);
      lines + [Line(item.lineId, item.productId, item.quantity, unitPrice, 0, discountAmount,
                    LineTotal(unitPrice, discountAmount, item.quantity))]
  }

  function Changed(line: Line, quantity: nat, unitPrice: Option<Money>, discountAmount: Option<Money>): Line {
    var price, discount := OrElse(unitPrice, line.unitPrice), OrElse(discountAmount, line.discountAmount);
    line.(quantity := quantity, unitPrice := price, discountAmount := discount,
          lineTotal := LineTotal(price, discount, quantity))
  }

  /** `recalculateCart`: tax is a constant zero here, whatever the sale's own tax is. */
  function Recalculated(s: Sale, lines: seq<Line>): Sale {
    s.(lines := lines, subtotal := SumTotals(lines), totalAmount := SumTotals(lines) - s.discountAmount + 0)
  }

  function EmptyCartRow(tenant: Tenant, locationId: Id): Sale {
    Sale(tenant, locationId, Draft, [], 0, 0, 0, 0, 0, 0, [], [])
  }

  // ----- Payment ----------------------------------------------------------------------------

  function CalculateChange(totalAmount: Money, paidAmount: Money): Money {
    if paidAmount > totalAmount then paidAmount - totalAmount else 0
  }

  function CompletionTotal(s: Sale): Money {
    SumTotals(s.lines) - s.discountAmount + s.taxAmount
  }

  /** `complete` writes what was paid and the change, not the subtotal or the total. */
  function CompletedSale(s: Sale, payments: seq<Money>): Sale {
    s.(status := Completed, payments := s.payments + payments, paidAmount := Sum(payments),
       changeAmount := CalculateChange(CompletionTotal(s), Sum(payments)))
  }

  datatype QuickItem = QuickItem(lineId: Id, productId: Id, quantity: real, unitPrice: Option<Money>,
                                 discountAmount: Option<Money>)

  function QuickLine(item: QuickItem, p: Product, unitCost: Money): Line
    requires item.quantity >= 0.0
  {
    var unitPrice, discountAmount := QuickPrice(item.unitPrice, p), OrElse(item.discountAmount, 0);
    var quantity := item.quantity.Floor;
    Line(item.lineId, item.productId, quantity, unitPrice, unitCost, discountAmount,
         LineTotal(unitPrice, discountAmount, quantity))
  }

  predicate KnownProduct(catalogue: map<Id, Product>, tenant: Tenant, productId: Id) {
    productId in catalogue && catalogue[productId].tenant == tenant
  }

  /** The validated item list of a quick sale. */
  predicate Acceptable(catalogue: map<Id, Product>, tenant: Tenant, items: seq<QuickItem>) {
    forall i | 0 <= i < |items| :: items[i].quantity >= 0.0 && KnownProduct(catalogue, tenant, items[i].productId)
  }

  function ProcessItems(catalogue: map<Id, Product>, costs: map<Id, Money>, tenant: Tenant,
                        items: seq<QuickItem>): (lines: seq<Line>)
    requires Acceptable(catalogue, tenant, items)
    ensures |lines| == |items|
    ensures forall i | 0 <= i < |items| ::
      lines[i] == QuickLine(items[i], catalogue[items[i].productId],
                            if items[i].productId in costs then costs[items[i].productId] else 0)
  {
    if items == [] then []
    else
      var item := items[|items| - 1];
      ProcessItems(catalogue, costs, tenant, items[..|items| - 1])
        + [QuickLine(item, catalogue[item.productId], if item.productId in costs then costs[item.productId] else 0)]
  }

  /** `calculateTotals`: the change is a plain difference here. */
  function QuickSaleRow(tenant: Tenant, locationId: Id, lines: seq<Line>, discount: Option<Money>,
                        payments: seq<Money>): Sale {
    var subtotal, discountAmount, paidAmount := SumTotals(lines), OrElse(discount, 0), Sum(payments);
    var totalAmount := subtotal - discountAmount + 0;
    Sale(tenant, locationId, Completed, lines, subtotal, discountAmount, 0, totalAmount,
         paidAmount, paidAmount - totalAmount, payments, [])
  }

  // ----- Refunds ----------------------------------------------------------------------------

  function Limit(s: Sale): Money { s.paidAmount - s.changeAmount }

  function RefundedSale(s: Sale, amount: Money): Sale {
    s.(refunds := s.refunds + [amount],
       status := if Sum(s.refunds) + amount >= Limit(s) then Refunded else PartiallyRefunded)
  }

  datatype RefundItem = RefundItem(saleItemId: Id, quantity: nat)

  /** The lines to stock back in; None when an item is not one of the sale's. */
  function RefundStock(lines: seq<Line>, items: seq<RefundItem>): Option<seq<StockItem>> {
    if items == [] then Some([])
    else
      var last := items[|items| - 1];
      match (RefundStock(lines, items[..|items| - 1]), FindLine(lines, last.saleItemId))
      case (Some(stockItems), Some(i)) => Some(stockItems + [StockItem(lines[i].productId, last.quantity)])
      case _ => None
  }

  // ----- Requests on the store ----------------------------------------------------------------

  /** What the surroundings answer: known location, reservations, and the stock service's own checks. */
  datatype Request =
    | QuickSale(tenant: Tenant, id: Id, locationId: Id, locationKnown: bool, items: seq<QuickItem>,
                discount: Option<Money>, quickPayments: seq<Money>, catalogue: map<Id, Product>,
                costs: map<Id, Money>, reserved: map<Key, nat>, stockAllowed: bool)
    | CreateCart(tenant: Tenant, id: Id, locationId: Id)
    | AddItem(tenant: Tenant, id: Id, item: CartItem, catalogue: map<Id, Product>, reservationMade: bool)
    | UpdateItem(tenant: Tenant, id: Id, lineId: Id, quantity: nat, unitPrice: Option<Money>,
                 discountAmount: Option<Money>, reservationMade: bool)
    | RemoveItem(tenant: Tenant, id: Id, lineId: Id)
    | Complete(tenant: Tenant, id: Id, payments: seq<Money>, reserved: map<Key, nat>, stockAllowed: bool)
    | Void(tenant: Tenant, id: Id)
    | Refund(tenant: Tenant, id: Id, amount: Money, returned: seq<RefundItem>, stockAllowed: bool)
    | DeleteDrafts(gone: set<Id>)
    | StockIn(reference: Id, locationId: Id, stockItems: seq<StockItem>, stockAllowed: bool)
    | StockOut(reference: Id, locationId: Id, stockItems: seq<StockItem>, reserved: map<Key, nat>, stockAllowed: bool)
    | Adjust(reference: Id, locationId: Id, changes: seq<Change>, reserved: map<Key, nat>, stockAllowed: bool)

  predicate Owned(st: Store, tenant: Tenant, id: Id) { id in st.sales && st.sales[id].tenant == tenant }

  /** `getCartOrThrow`: a draft sale of the tenant. */
  predicate IsCart(st: Store, tenant: Tenant, id: Id) { Owned(st, tenant, id) && st.sales[id].status == Draft }

  function AvailableForQuickSale(st: Store, reserved: map<Key, nat>, locationId: Id, items: seq<QuickItem>): bool {
    forall i | 0 <= i < |items| ::
      var k := Key(items[i].productId, locationId);
      (OnHand(st.stock.onHand, k) - Reserved(reserved, k)) as real >= items[i].quantity
  }

  function QuickSold(st: Store, r: Request): Result<Store, Error>
    requires r.QuickSale?
  {
    if exists i | 0 <= i < |r.items| :: r.items[i].quantity < 0.0001 then Err(InvalidQuantity)
    else if !r.locationKnown then Err(NotFound)
    else if r.items == [] then Err(EmptyItems)
    else if r.quickPayments == [] then Err(NoPayments)
    else if !Acceptable(r.catalogue, r.tenant, r.items) then Err(ProductNotFound)
    else if !AvailableForQuickSale(st, r.reserved, r.locationId, r.items) then Err(InsufficientStock)
    else
      var lines := ProcessItems(r.catalogue, r.costs, r.tenant, r.items);
      var sale := QuickSaleRow(r.tenant, r.locationId, lines, r.discount, r.quickPayments);
      if sale.paidAmount < sale.totalAmount then Err(InsufficientPayment)
      else if !r.stockAllowed then Err(StockRefused)
      else if !Available(st.stock.onHand, r.reserved, r.locationId, StockItems(lines)) then Err(InsufficientStock)
      else Ok(Store(st.sales[r.id := sale], Post(st.stock, Out, r.id, r.locationId, StockItems(lines))))
  }

  /** The guards of a quick sale, together. */
  predicate QuickSaleAccepted(st: Store, r: Request)
    requires r.QuickSale?
  {
    && (forall i | 0 <= i < |r.items| :: r.items[i].quantity >= 0.0001)
    && r.locationKnown && r.items != [] && r.quickPayments != [] && Acceptable(r.catalogue, r.tenant, r.items)
    && AvailableForQuickSale(st, r.reserved, r.locationId, r.items)
    && var lines := ProcessItems(r.catalogue, r.costs, r.tenant, r.items);
       && Sum(r.quickPayments) >= SumTotals(lines) - OrElse(r.discount, 0)
       && r.stockAllowed && Available(st.stock.onHand, r.reserved, r.locationId, StockItems(lines))
  }

  lemma QuickSaleAcceptedIff(st: Store, r: Request)
    requires r.QuickSale?
    ensures QuickSold(st, r).Ok? <==> QuickSaleAccepted(st, r)
  {
  }

  function CartItemAdded(st: Store, r: Request): Result<Store, Error>
    requires r.AddItem?
  {
    if !IsCart(st, r.tenant, r.id) then Err(NotFound)
    else if !KnownProduct(r.catalogue, r.tenant, r.item.productId) then Err(ProductNotFound)
    else if !r.reservationMade then Err(ReservationFailed)
    else
      var s := st.sales[r.id];
      Ok(st.(sales := st.sales[r.id := Recalculated(s, Added(s.lines, r.item, r.catalogue[r.item.productId]))]))
  }

  function CartItemUpdated(st: Store, r: Request): Result<Store, Error>
    requires r.UpdateItem?
  {
    if !IsCart(st, r.tenant, r.id) then Err(NotFound)
    else
      var s := st.sales[r.id];
      match FindLine(s.lines, r.lineId)
      case None => Err(ItemNotFound)
      case Some(i) =>
        if !r.reservationMade then Err(ReservationFailed)
        else Ok(st.(sales := st.sales[r.id :=
                      Recalculated(s, s.lines[i := Changed(s.lines[i], r.quantity, r.unitPrice, r.discountAmount)])]))
  }

  function CartItemRemoved(st: Store, r: Request): Result<Store, Error>
    requires r.RemoveItem?
  {
    if !IsCart(st, r.tenant, r.id) then Err(NotFound)
    else
      var s := st.sales[r.id];
      match FindLine(s.lines, r.lineId)
      case None => Err(ItemNotFound)
      case Some(i) => Ok(st.(sales := st.sales[r.id := Recalculated(s, s.lines[..i] + s.lines[i + 1..])]))
  }

  function SaleCompleted(st: Store, r: Request): Result<Store, Error>
    requires r.Complete?
  {
    if !Owned(st, r.tenant, r.id) then Err(NotFound)
    else
      var s := st.sales[r.id];
      if s.status != Draft then Err(WrongStatus)
      else if s.lines == [] then Err(EmptyCart)
      else if Sum(r.payments) < CompletionTotal(s) then Err(InsufficientPayment)
      else if !r.stockAllowed then Err(StockRefused)
      else if !Available(st.stock.onHand, r.reserved, s.locationId, StockItems(s.lines)) then Err(InsufficientStock)
      else Ok(Store(st.sales[r.id := CompletedSale(s, r.payments)],
                    Post(st.stock, Out, r.id, s.locationId, StockItems(s.lines))))
  }

  function SaleVoided(st: Store, r: Request): Result<Store, Error>
    requires r.Void?
  {
    if !Owned(st, r.tenant, r.id) then Err(NotFound)
    else
      var s := st.sales[r.id];
      if s.status != Completed then Err(WrongStatus)
      else Ok(Store(st.sales[r.id := s.(status := Voided)],
                    Post(st.stock, Reversal, r.id, s.locationId, StockItems(s.lines))))
  }

  function SaleRefunded(st: Store, r: Request): Result<Store, Error>
    requires r.Refund?
  {
    if !Owned(st, r.tenant, r.id) then Err(NotFound)
    else
      var s := st.sales[r.id];
      if s.status != Completed && s.status != PartiallyRefunded then Err(WrongStatus)
      else if r.amount > s.paidAmount - Sum(s.refunds) - s.changeAmount then Err(ExceedsRefundable)
      else
        match RefundStock(s.lines, r.returned)
        case None => Err(ItemNotFound)
        case Some(items) =>
          if items != [] && !r.stockAllowed then Err(StockRefused)
          else Ok(Store(st.sales[r.id := RefundedSale(s, r.amount)],
                        Post(st.stock, Return, r.id, s.locationId, items)))
  }

  /** `stockIn`, and a transfer's receipt or cancellation. */
  function StockReceived(st: Store, r: Request): Result<Store, Error>
    requires r.StockIn?
  {
    if !r.stockAllowed then Err(StockRefused)
    else Ok(st.(stock := Post(st.stock, Received, r.reference, r.locationId, r.stockItems)))
  }

  /** `stockOut` on its own, and a transfer's shipment. */
  function StockIssued(st: Store, r: Request): Result<Store, Error>
    requires r.StockOut?
  {
    if !r.stockAllowed then Err(StockRefused)
    else if !Available(st.stock.onHand, r.reserved, r.locationId, r.stockItems) then Err(InsufficientStock)
    else Ok(st.(stock := Post(st.stock, Issued, r.reference, r.locationId, r.stockItems)))
  }

  /** `adjust`: only the items that take are checked for availability. */
  function StockAdjusted(st: Store, r: Request): Result<Store, Error>
    requires r.Adjust?
  {
    if !r.stockAllowed then Err(StockRefused)
    else if !Available(st.stock.onHand, r.reserved, r.locationId, Lowered(r.changes)) then Err(InsufficientStock)
    else Ok(st.(stock := Adjusted(st.stock, r.reference, r.locationId, r.changes)))
  }

  predicate AreDrafts(st: Store, gone: set<Id>) { forall id <- gone :: id in st.sales && st.sales[id].status == Draft }

  /** A new row's key is one the table does not hold. */
  function Outcome(st: Store, r: Request): Result<Store, Error> {
    match r
    case QuickSale(_, id, _, _, _, _, _, _, _, _, _) => if id in st.sales then Err(NotFound) else QuickSold(st, r)
    case CreateCart(tenant, id, locationId) =>
      if id in st.sales then Err(NotFound)
      else Ok(st.(sales := st.sales[id := EmptyCartRow(tenant, locationId)]))
    case AddItem(_, _, _, _, _) => CartItemAdded(st, r)
    case UpdateItem(_, _, _, _, _, _, _) => CartItemUpdated(st, r)
    case RemoveItem(_, _, _) => CartItemRemoved(st, r)
    case Complete(_, _, _, _, _) => SaleCompleted(st, r)
    case Void(_, _) => SaleVoided(st, r)
    case Refund(_, _, _, _, _) => SaleRefunded(st, r)
    case StockIn(_, _, _, _) => StockReceived(st, r)
    case StockOut(_, _, _, _, _) => StockIssued(st, r)
    case Adjust(_, _, _, _, _) => StockAdjusted(st, r)
    case DeleteDrafts(gone) => if AreDrafts(st, gone) then Ok(st.(sales := st.sales - gone)) else Err(NotFound)
  }

  lemma QuickSaleOutcome(st: Store, r: Request)
    requires r.QuickSale? && r.id !in st.sales
    ensures Outcome(st, r) == QuickSold(st, r)
  {
    match r case QuickSale(_, _, _, _, _, _, _, _, _, _, _) =>
  }

  lemma AddItemOutcome(st: Store, r: Request)
    requires r.AddItem?
    ensures Outcome(st, r) == CartItemAdded(st, r)
  {
    match r case AddItem(_, _, _, _, _) =>
  }

  lemma CompleteOutcome(st: Store, r: Request)
    requires r.Complete?
    ensures Outcome(st, r) == SaleCompleted(st, r)
  {
    match r case Complete(_, _, _, _, _) =>
  }

  function Step(st: Store, r: Request): Store {
    match Outcome(st, r)
    case Ok(after) => after
    case Err(_) => st
  }

  function Run(st: Store, requests: seq<Request>): Store {
    if requests == [] then st else Step(Run(st, requests[..|requests| - 1]), requests[|requests| - 1])
  }
}
