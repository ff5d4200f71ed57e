/**
  The stock ledger: the movements that sales and stock requests post, and the on-hand balances
  they change.

  A movement's quantity is stored as given; its direction follows from its kind.
*/
module StockLedger {

  type Id = nat
  type Tenant = nat

  datatype Key = Key(productId: Id, locationId: Id)

  /**
    Taken by a sale, put back by a void, put back by a refund; issued or received by a stock
    request of its own, an adjustment or a transfer.
  */
  datatype Kind = Out | Reversal | Return | Issued | Received

  predicate Takes(kind: Kind) { kind == Out || kind == Issued }

  predicate OfSale(kind: Kind) { kind != Issued && kind != Received }

  datatype StockItem = StockItem(productId: Id, quantity: nat)

  /** `saleId` is the sale of a sale's movement, and the free reference of any other. */
  datatype Movement = Movement(kind: Kind, saleId: Id, key: Key, quantity: nat)

  datatype Stock = Stock(onHand: map<Key, int>, movements: seq<Movement>)

  function OnHand(onHand: map<Key, int>, k: Key): int {
    if k in onHand then onHand[k] else 0
  }

  function Reserved(reserved: map<Key, nat>, k: Key): nat {
    if k in reserved then reserved[k] else 0
  }

  /** `upsert`: a missing balance is created, never below zero. */
  function UpdateBalance(onHand: map<Key, int>, k: Key, change: int): map<Key, int> {
    onHand[k := if k in onHand then onHand[k] + change else if change > 0 then change else 0]
  }

  /** `updateMany({ increment })`: a missing balance stays missing. */
  function Increment(onHand: map<Key, int>, k: Key, change: int): map<Key, int> {
    if k in onHand then onHand[k := onHand[k] + change] else onHand
  }

  function PostOne(stock: Stock, kind: Kind, saleId: Id, locationId: Id, item: StockItem): Stock {
    var k := Key(item.productId, locationId);
    var onHand :=
      match kind
      case Out => UpdateBalance(stock.onHand, k, 0 - item.quantity)
      case Issued => UpdateBalance(stock.onHand, k, 0 - item.quantity)
      case Return => UpdateBalance(stock.onHand, k, item.quantity)
      case Received => UpdateBalance(stock.onHand, k, item.quantity)
      case Reversal => Increment(stock.onHand, k, item.quantity);
    Stock(onHand, stock.movements + [Movement(kind, saleId, k, item.quantity)])
  }

  /** All items of one call, in order. */
  function Post(stock: Stock, kind: Kind, saleId: Id, locationId: Id, items: seq<StockItem>): Stock {
    if items == [] then stock
    else
      var n := |items| - 1;
      PostOne(Post(stock, kind, saleId, locationId, items[..n]), kind, saleId, locationId, items[n])
  }

  /** `validateStockAvailability`: each item alone against on-hand minus reserved. */
  predicate Available(onHand: map<Key, int>, reserved: map<Key, nat>, locationId: Id, items: seq<StockItem>) {
    forall i | 0 <= i < |items| ::
      var k := Key(items[i].productId, locationId);
      OnHand(onHand, k) - Reserved(reserved, k) >= items[i].quantity
  }

  // ----- Sums -----------------------------------------------------------------------------

  function Quantity(items: seq<StockItem>, productId: Id): nat {
    if items == [] then 0
    else
      var n := |items| - 1;
      Quantity(items[..n], productId) + (if items[n].productId == productId then items[n].quantity else 0)
  }

  lemma {:induction false} QuantityUpdate(items: seq<StockItem>, i: nat, quantity: nat, p: Id)
    requires i < |items|
    ensures Quantity(items[i := items[i].(quantity := quantity)], p)
         == Quantity(items, p) + if items[i].productId == p then quantity - items[i].quantity else 0
  {
    var n := |items| - 1;
    var after := items[i := items[i].(quantity := quantity)];
    if i < n {
      assert after[..n] == items[..n][i := items[i].(quantity := quantity)];
      QuantityUpdate(items[..n], i, quantity, p);
    } else {
      assert after[..n] == items[..n];
    }
  }

  lemma {:induction false} QuantityRemove(items: seq<StockItem>, i: nat, p: Id)
    requires i < |items|
    ensures Quantity(items[..i] + items[i + 1..], p)
         == Quantity(items, p) - if items[i].productId == p then items[i].quantity else 0
  {
    var n := |items| - 1;
    var after := items[..i] + items[i + 1..];
    if i < n {
      assert after[..n - 1] == items[..n][..i] + items[..n][i + 1..];
      QuantityRemove(items[..n], i, p);
    } else {
      assert after == items[..n];
    }
  }

  lemma {:induction false} NoRowNoQuantity(items: seq<StockItem>, p: Id)
    requires forall i | 0 <= i < |items| :: items[i].productId != p
    ensures Quantity(items, p) == 0
  {
    if items != [] {
      assert forall i | 0 <= i < |items| - 1 :: items[..|items| - 1][i] == items[i];
      NoRowNoQuantity(items[..|items| - 1], p);
    }
  }

  /** What a sale moved of a product, by movements of one kind. */
  function Moved(movements: seq<Movement>, kind: Kind, saleId: Id, productId: Id): nat {
    if movements == [] then 0
    else
      var n := |movements| - 1;
      var m := movements[n];
      Moved(movements[..n], kind, saleId, productId)
        + (if m.kind == kind && m.saleId == saleId && m.key.productId == productId then m.quantity else 0)
  }

  /** The net effect all movements claim to have had on one balance. */
  function Net(movements: seq<Movement>, k: Key): int {
    if movements == [] then 0
    else
      var n := |movements| - 1;
      var m := movements[n];
      Net(movements[..n], k) + (if m.key != k then 0 else if Takes(m.kind) then 0 - m.quantity else m.quantity)
  }

  /** Every product of the items has a balance row at the location. */
  predicate Stocked(onHand: map<Key, int>, locationId: Id, items: seq<StockItem>) {
    forall i | 0 <= i < |items| :: Key(items[i].productId, locationId) in onHand
  }

  lemma {:induction false} PostMoves(stock: Stock, kind: Kind, saleId: Id, locationId: Id, items: seq<StockItem>,
                                     k: Kind, s: Id, p: Id)
    ensures Moved(Post(stock, kind, saleId, locationId, items).movements, k, s, p)
         == Moved(stock.movements, k, s, p) + if k == kind && s == saleId then Quantity(items, p) else 0
  {
    if items != [] {
      var n := |items| - 1;
      var before := Post(stock, kind, saleId, locationId, items[..n]).movements;
      PostMoves(stock, kind, saleId, locationId, items[..n], k, s, p);
      var after := Post(stock, kind, saleId, locationId, items).movements;
      assert after[..|after| - 1] == before;
    }
  }

  lemma {:induction false} PostKeepsRows(stock: Stock, kind: Kind, saleId: Id, locationId: Id, items: seq<StockItem>)
    ensures stock.onHand.Keys <= Post(stock, kind, saleId, locationId, items).onHand.Keys
    ensures kind != Reversal ==> Stocked(Post(stock, kind, saleId, locationId, items).onHand, locationId, items)
  {
    if items != [] {
      var n := |items| - 1;
      PostKeepsRows(stock, kind, saleId, locationId, items[..n]);
      if kind != Reversal {
        var mid, after := Post(stock, kind, saleId, locationId, items[..n]),
          Post(stock, kind, saleId, locationId, items);
        forall i | 0 <= i < |items| ensures Key(items[i].productId, locationId) in after.onHand {
          if i < n { assert items[..n][i] == items[i]; }
        }
      }
    }
  }

  /** Stock taken from, or restored to, a product without a balance row must be a quantity of zero. */
  predicate RowOrNothing(stock: Stock, kind: Kind, locationId: Id, item: StockItem) {
    kind == Return || kind == Received || Key(item.productId, locationId) in stock.onHand || item.quantity == 0
  }

  lemma PostOneConserves(stock: Stock, kind: Kind, saleId: Id, locationId: Id, item: StockItem, k: Key)
    requires RowOrNothing(stock, kind, locationId, item)
    ensures var after := PostOne(stock, kind, saleId, locationId, item);
            OnHand(after.onHand, k) - Net(after.movements, k) == OnHand(stock.onHand, k) - Net(stock.movements, k)
  {
    var after := PostOne(stock, kind, saleId, locationId, item);
    assert after.movements[..|after.movements| - 1] == stock.movements;
  }

  /**
    Conservation: posting changes a balance by exactly what its movements record, whenever
    taken stock was available and restored stock has its balance row.
  */
  lemma {:induction false} PostConserves(stock: Stock, kind: Kind, saleId: Id, locationId: Id, items: seq<StockItem>,
                                         k: Key)
    requires forall i | 0 <= i < |items| :: RowOrNothing(stock, kind, locationId, items[i])
    ensures var after := Post(stock, kind, saleId, locationId, items);
            OnHand(after.onHand, k) - Net(after.movements, k) == OnHand(stock.onHand, k) - Net(stock.movements, k)
  {
    if items != [] {
      var n := |items| - 1;
      assert forall i | 0 <= i < n :: items[..n][i] == items[i];
      PostConserves(stock, kind, saleId, locationId, items[..n], k);
      PostKeepsRows(stock, kind, saleId, locationId, items[..n]);
      PostOneConserves(Post(stock, kind, saleId, locationId, items[..n]), kind, saleId, locationId, items[n], k);
    }
  }

  lemma AvailableHasRows(stock: Stock, kind: Kind, reserved: map<Key, nat>, locationId: Id, items: seq<StockItem>)
    requires Available(stock.onHand, reserved, locationId, items)
    ensures forall i | 0 <= i < |items| :: RowOrNothing(stock, kind, locationId, items[i])
  {
  }

  /** What is taken from a balance: the whole quantity of the product, however many items name it. */
  lemma {:induction false} PostTakes(stock: Stock, kind: Kind, saleId: Id, locationId: Id, items: seq<StockItem>,
                                     k: Key)
    requires Takes(kind) && forall i | 0 <= i < |items| :: RowOrNothing(stock, kind, locationId, items[i])
    ensures OnHand(Post(stock, kind, saleId, locationId, items).onHand, k)
         == OnHand(stock.onHand, k) - if k.locationId == locationId then Quantity(items, k.productId) else 0
  {
    if items != [] {
      var n := |items| - 1;
      assert forall i | 0 <= i < n :: items[..n][i] == items[i];
      PostTakes(stock, kind, saleId, locationId, items[..n], k);
      PostKeepsRows(stock, kind, saleId, locationId, items[..n]);
    }
  }

  lemma {:induction false} PuttingBackRaises(stock: Stock, kind: Kind, saleId: Id, locationId: Id,
                                             items: seq<StockItem>, k: Key)
    requires !Takes(kind)
    ensures OnHand(Post(stock, kind, saleId, locationId, items).onHand, k) >= OnHand(stock.onHand, k)
  {
    if items != [] { PuttingBackRaises(stock, kind, saleId, locationId, items[..|items| - 1], k); }
  }

  /** What is received or returned: the whole quantity of the product, with or without a balance row before. */
  lemma {:induction false} PostPuts(stock: Stock, kind: Kind, saleId: Id, locationId: Id, items: seq<StockItem>, k: Key)
    requires kind == Return || kind == Received
    ensures OnHand(Post(stock, kind, saleId, locationId, items).onHand, k)
         == OnHand(stock.onHand, k) + if k.locationId == locationId then Quantity(items, k.productId) else 0
  {
    if items != [] { PostPuts(stock, kind, saleId, locationId, items[..|items| - 1], k); }
  }

  // ----- Adjustments ----------------------------------------------------------------------

  /** A signed item: above zero it is received, otherwise its absolute quantity is issued. */
  datatype Change = Change(productId: Id, amount: int)

  function ChangeKind(c: Change): Kind { if c.amount > 0 then Received else Issued }

  function ChangeItem(c: Change): StockItem {
    StockItem(c.productId, if c.amount < 0 then -c.amount else c.amount)
  }

  /** All items of one adjustment, in order. */
  function Adjusted(stock: Stock, reference: Id, locationId: Id, changes: seq<Change>): Stock {
    if changes == [] then stock
    else
      var n := |changes| - 1;
      PostOne(Adjusted(stock, reference, locationId, changes[..n]), ChangeKind(changes[n]), reference, locationId,
              ChangeItem(changes[n]))
  }

  /** The items that take: only these are checked for availability. */
  function Lowered(changes: seq<Change>): (items: seq<StockItem>)
    ensures forall i | 0 <= i < |changes| && changes[i].amount < 0 :: ChangeItem(changes[i]) in items
  {
    if changes == [] then []
    else
      var n := |changes| - 1;
      assert forall i | 0 <= i < n :: changes[..n][i] == changes[i];
      Lowered(changes[..n]) + if changes[n].amount < 0 then [ChangeItem(changes[n])] else []
  }

  function NetChange(changes: seq<Change>, p: Id): int {
    if changes == [] then 0
    else
      var n := |changes| - 1;
      NetChange(changes[..n], p) + if changes[n].productId == p then changes[n].amount else 0
  }

  /** Products that are lowered have a balance row. */
  predicate LoweredHaveRows(onHand: map<Key, int>, locationId: Id, changes: seq<Change>) {
    forall i | 0 <= i < |changes| && changes[i].amount < 0 :: Key(changes[i].productId, locationId) in onHand
  }

  lemma AvailableLoweredHaveRows(onHand: map<Key, int>, reserved: map<Key, nat>, locationId: Id, changes: seq<Change>)
    requires Available(onHand, reserved, locationId, Lowered(changes))
    ensures LoweredHaveRows(onHand, locationId, changes)
  {
    forall i | 0 <= i < |changes| && changes[i].amount < 0 ensures Key(changes[i].productId, locationId) in onHand {
      var items := Lowered(changes);
      assert ChangeItem(changes[i]) in items;
      var j :| 0 <= j < |items| && items[j] == ChangeItem(changes[i]);
    }
  }

  /** An adjustment moves no sale's stock. */
  lemma {:induction false} AdjustedMoves(stock: Stock, reference: Id, locationId: Id, changes: seq<Change>,
                                         kind: Kind, s: Id, p: Id)
    requires OfSale(kind)
    ensures Moved(Adjusted(stock, reference, locationId, changes).movements, kind, s, p)
        == Moved(stock.movements, kind, s, p)
  {
    if changes != [] {
      var n := |changes| - 1;
      AdjustedMoves(stock, reference, locationId, changes[..n], kind, s, p);
      var after := Adjusted(stock, reference, locationId, changes).movements;
      assert after[..|after| - 1] == Adjusted(stock, reference, locationId, changes[..n]).movements;
    }
  }

  lemma AdjustOne(stock: Stock, reference: Id, locationId: Id, c: Change, k: Key)
    requires c.amount < 0 ==> Key(c.productId, locationId) in stock.onHand
    ensures var after := PostOne(stock, ChangeKind(c), reference, locationId, ChangeItem(c));
            && OnHand(after.onHand, k) == OnHand(stock.onHand, k)
               + (if k == Key(c.productId, locationId) then c.amount else 0)
            && OnHand(after.onHand, k) - Net(after.movements, k) == OnHand(stock.onHand, k) - Net(stock.movements, k)
  {
    PostOneConserves(stock, ChangeKind(c), reference, locationId, ChangeItem(c), k);
  }

  lemma {:induction false} AdjustedKeepsRows(stock: Stock, reference: Id, locationId: Id, changes: seq<Change>)
    ensures stock.onHand.Keys <= Adjusted(stock, reference, locationId, changes).onHand.Keys
  {
    if changes != [] { AdjustedKeepsRows(stock, reference, locationId, changes[..|changes| - 1]); }
  }

  /** It changes each balance by its net amount, and records exactly that. */
  lemma {:induction false} AdjustedIsNet(stock: Stock, reference: Id, locationId: Id, changes: seq<Change>, k: Key)
    requires LoweredHaveRows(stock.onHand, locationId, changes)
    ensures var after := Adjusted(stock, reference, locationId, changes);
            && OnHand(after.onHand, k)
               == OnHand(stock.onHand, k) + (if k.locationId == locationId then NetChange(changes, k.productId) else 0)
            && OnHand(after.onHand, k) - Net(after.movements, k) == OnHand(stock.onHand, k) - Net(stock.movements, k)
  {
    if changes != [] {
      var n := |changes| - 1;
      assert forall i | 0 <= i < n :: changes[..n][i] == changes[i];
      AdjustedIsNet(stock, reference, locationId, changes[..n], k);
      AdjustedKeepsRows(stock, reference, locationId, changes[..n]);
      AdjustOne(Adjusted(stock, reference, locationId, changes[..n]), reference, locationId, changes[n], k);
    }
  }

  /** What a restore really puts back: the quantity where a balance row exists, else nothing. */
  lemma {:induction false} ReversalPutsBack(stock: Stock, saleId: Id, locationId: Id, items: seq<StockItem>, k: Key)
    ensures OnHand(Post(stock, Reversal, saleId, locationId, items).onHand, k)
         == OnHand(stock.onHand, k)
            + if k in stock.onHand && k.locationId == locationId then Quantity(items, k.productId) else 0
    ensures Post(stock, Reversal, saleId, locationId, items).onHand.Keys == stock.onHand.Keys
  {
    if items != [] { ReversalPutsBack(stock, saleId, locationId, items[..|items| - 1], k); }
  }
}
