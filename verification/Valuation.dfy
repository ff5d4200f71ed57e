/**
  Valuation layers: what stock receipts leave behind for later issues to consume, and how far
  a balance's on-hand quantity runs away from them.
*/
module Valuation {
  import opened Sales
  import opened SaleInvariants
  import opened StockLedger
  import opened Wrappers

  /** One receipt of a product at a location, the list in order of creation. */
  datatype Layer = Layer(remaining: nat, unitCost: real)

  datatype PricingMethod = Fifo | Lifo | MovingAverage

  function Min(a: nat, b: nat): nat { if a <= b then a else b }

  /** `unitCost.mul(quantity)`, as repeated addition. */
  function Cost(unitCost: real, quantity: nat): real {
    if quantity == 0 then 0.0 else Cost(unitCost, quantity - 1) + unitCost
  }

  lemma {:induction false} CostIsProduct(unitCost: real, quantity: nat)
    ensures Cost(unitCost, quantity) == unitCost * quantity as real
  {
    if quantity > 0 { CostIsProduct(unitCost, quantity - 1); }
  }

  function Remaining(layers: seq<Layer>): nat {
    if layers == [] then 0 else Remaining(layers[..|layers| - 1]) + layers[|layers| - 1].remaining
  }

  function Worth(layers: seq<Layer>): real {
    if layers == [] then 0.0
    else
      var last := layers[|layers| - 1];
      Worth(layers[..|layers| - 1]) + Cost(last.unitCost, last.remaining)
  }

  /** `calculateWAC`. */
  function Average(layers: seq<Layer>): real {
    if Remaining(layers) == 0 then 0.0 else Worth(layers) / Remaining(layers) as real
  }

  // ----- Consumption ----------------------------------------------------------------------------

  function Lessened(layer: Layer, quantity: nat): Layer
    requires quantity <= layer.remaining
  {
    layer.(remaining := layer.remaining - quantity)
  }

  /** What a layer gives up after those in front of it. */
  function Share(front: seq<Layer>, layer: Layer, quantity: nat): nat {
    Min(quantity - Min(quantity, Remaining(front)), layer.remaining)
  }

  /** Layers consumed in the order of the list, each as far as the ones before it leave something to consume. */
  function InOrder(layers: seq<Layer>, quantity: nat): (after: seq<Layer>)
    ensures |after| == |layers|
  {
    if layers == [] then []
    else
      var front, last := layers[..|layers| - 1], layers[|layers| - 1];
      InOrder(front, quantity) + [Lessened(last, Share(front, last, quantity))]
  }

  function Reversed(layers: seq<Layer>): (r: seq<Layer>)
    ensures |r| == |layers|
    ensures forall i | 0 <= i < |layers| :: r[i] == layers[|layers| - 1 - i]
  {
    seq(|layers|, i requires 0 <= i < |layers| => layers[|layers| - 1 - i])
  }

  /** Oldest first, but newest first under LIFO. */
  function Consumed(layers: seq<Layer>, quantity: nat, pricing: PricingMethod): seq<Layer> {
    if pricing == Lifo then Reversed(InOrder(Reversed(layers), quantity)) else InOrder(layers, quantity)
  }

  lemma {:induction false} CostAdds(unitCost: real, a: nat, b: nat)
    ensures Cost(unitCost, a + b) == Cost(unitCost, a) + Cost(unitCost, b)
  {
    if b > 0 { CostAdds(unitCost, a, b - 1); }
  }

  lemma {:induction false} TotalsConcat(a: seq<Layer>, b: seq<Layer>)
    ensures Remaining(a + b) == Remaining(a) + Remaining(b)
    ensures Worth(a + b) == Worth(a) + Worth(b)
  {
    if b == [] {
      assert a + b == a;
    } else {
      assert (a + b)[..|a + b| - 1] == a + b[..|b| - 1];
      TotalsConcat(a, b[..|b| - 1]);
    }
  }

  lemma {:induction false} TotalsReversed(layers: seq<Layer>)
    ensures Remaining(Reversed(layers)) == Remaining(layers)
    ensures Worth(Reversed(layers)) == Worth(layers)
  {
    if layers != [] {
      var front, last := layers[..|layers| - 1], layers[|layers| - 1];
      TotalsReversed(front);
      assert Reversed(layers) == [last] + Reversed(front);
      TotalsConcat([last], Reversed(front));
      TotalsConcat([], [last]);
      assert [] + [last] == [last];
    }
  }

  lemma {:induction false} InOrderTakes(layers: seq<Layer>, quantity: nat)
    ensures Remaining(InOrder(layers, quantity)) == Remaining(layers) - Min(quantity, Remaining(layers))
  {
    if layers != [] {
      var front := layers[..|layers| - 1];
      InOrderTakes(front, quantity);
      assert InOrder(layers, quantity)[..|front|] == InOrder(front, quantity);
    }
  }

  /** Whatever the method, all there is is consumed before anything is left unmet, and nothing fails. */
  lemma ConsumptionTakes(layers: seq<Layer>, quantity: nat, pricing: PricingMethod)
    ensures Remaining(Consumed(layers, quantity, pricing)) == Remaining(layers) - Min(quantity, Remaining(layers))
  {
    InOrderTakes(layers, quantity);
    InOrderTakes(Reversed(layers), quantity);
    TotalsReversed(layers);
    TotalsReversed(InOrder(Reversed(layers), quantity));
  }

  /** A later layer of the order is touched only when every earlier one is used up. */
  predicate OneAfterTheOther(layers: seq<Layer>, after: seq<Layer>) {
    && |after| == |layers|
    && (forall i | 0 <= i < |layers| ::
          after[i].unitCost == layers[i].unitCost && after[i].remaining <= layers[i].remaining)
    && (forall i, j | 0 <= i < j < |layers| :: after[j] != layers[j] ==> after[i].remaining == 0)
  }

  lemma {:induction false} NothingLeft(layers: seq<Layer>, i: nat)
    requires Remaining(layers) == 0 && i < |layers|
    ensures layers[i].remaining == 0
  {
    var n := |layers| - 1;
    if i < n { NothingLeft(layers[..n], i); }
  }

  lemma OrderedSnoc(front: seq<Layer>, after: seq<Layer>, last: Layer, n: nat)
    requires OneAfterTheOther(front, after) && n <= last.remaining
    requires n > 0 ==> forall i | 0 <= i < |after| :: after[i].remaining == 0
    ensures OneAfterTheOther(front + [last], after + [Lessened(last, n)])
  {
  }

  lemma {:induction false} InOrderIsOrdered(layers: seq<Layer>, quantity: nat)
    ensures OneAfterTheOther(layers, InOrder(layers, quantity))
  {
    if layers != [] {
      var front, last := layers[..|layers| - 1], layers[|layers| - 1];
      var after, n := InOrder(front, quantity), Share(front, last, quantity);
      InOrderIsOrdered(front, quantity);
      InOrderTakes(front, quantity);
      if n > 0 {
        forall i | 0 <= i < |after| ensures after[i].remaining == 0 { NothingLeft(after, i); }
      }
      OrderedSnoc(front, after, last, n);
      assert layers == front + [last];
    }
  }

  /** FIFO and moving average use up older layers first, LIFO newer ones. */
  lemma LayersGoInOrder(layers: seq<Layer>, quantity: nat, pricing: PricingMethod)
    ensures var after := Consumed(layers, quantity, pricing);
            if pricing == Lifo then OneAfterTheOther(Reversed(layers), Reversed(after))
            else OneAfterTheOther(layers, after)
  {
    InOrderIsOrdered(layers, quantity);
    InOrderIsOrdered(Reversed(layers), quantity);
    assert Reversed(Reversed(InOrder(Reversed(layers), quantity))) == InOrder(Reversed(layers), quantity);
  }

  // ----- The service ------------------------------------------------------------------------------

  function LayersAt(layers: map<Key, seq<Layer>>, k: Key): seq<Layer> { if k in layers then layers[k] else [] }

  class ValuationService {
    var layers: map<Key, seq<Layer>>

    constructor ()
      ensures layers == map[]
    {
      layers := map[];
    }

    method CreateLayer(k: Key, quantity: nat, unitCost: real)
      modifies this
      ensures layers == old(layers)[k := LayersAt(old(layers), k) + [Layer(quantity, unitCost)]]
    {
      layers := layers[k := LayersAt(layers, k) + [Layer(quantity, unitCost)]];
    }

    method CalculateWac(k: Key) returns (wac: real)
      ensures wac == Average(LayersAt(layers, k))
    {
      var found := LayersAt(layers, k);
      var totalValue, totalQty := 0.0, 0;
      for i := 0 to |found|
        invariant totalValue == Worth(found[..i]) && totalQty == Remaining(found[..i])
      {
        CostIsProduct(found[i].unitCost, found[i].remaining);
        totalValue := totalValue + found[i].unitCost * found[i].remaining as real;
        totalQty := totalQty + found[i].remaining;
        assert found[..i + 1][..i] == found[..i];
      }
      assert found[..|found|] == found;
      return if totalQty > 0 then totalValue / totalQty as real else 0.0;
    }

    /**
      Under FIFO and LIFO the cost answered is exactly what the layers lose in worth; under
      moving average it is the consumed quantity at the average of all layers.
    */
    method ConsumeLayers(k: Key, quantity: nat, pricing: PricingMethod) returns (totalCost: real)
      modifies this
      ensures var before := LayersAt(old(layers), k);
              var after := Consumed(before, quantity, pricing);
              && layers == old(layers)[k := after]
              && totalCost == if pricing == MovingAverage
                              then Cost(Average(before), Min(quantity, Remaining(before)))
                              else Worth(before) - Worth(after)
    {
      var average: Option<real> := None;
      if pricing == MovingAverage {
        var wac := CalculateWac(k);
        average := Some(wac);
      }
      var found := LayersAt(layers, k);
      var ordered := if pricing == Lifo then Reversed(found) else found;
      var after;
      after, totalCost := WalkLayers(ordered, quantity, average);
      TotalsReversed(found);
      TotalsReversed(InOrder(Reversed(found), quantity));
      layers := layers[k := if pricing == Lifo then Reversed(after) else after];
    }

    /** The loop over the layers in their order; those already used up are passed over. */
    method WalkLayers(ordered: seq<Layer>, quantity: nat, average: Option<real>)
      returns (after: seq<Layer>, totalCost: real)
      ensures after == InOrder(ordered, quantity) && totalCost == Bill(ordered, quantity, average)
    {
      after, totalCost := [], 0.0;
      var remainingToConsume := quantity;
      for i := 0 to |ordered|
        invariant after == InOrder(ordered[..i], quantity)
        invariant remainingToConsume == quantity - Min(quantity, Remaining(ordered[..i]))
        invariant totalCost == Bill(ordered[..i], quantity, average)
      {
        var layer := ordered[i];
        var consumeQty := Min(remainingToConsume, layer.remaining);
        assert ordered[..i + 1] == ordered[..i] + [layer];
        StepTakes(ordered[..i], layer, quantity);
        StepBills(ordered[..i], layer, quantity, average);
        totalCost := totalCost + Cost(OrElse(average, layer.unitCost), consumeQty);
        remainingToConsume := remainingToConsume - consumeQty;
        after := after + [Lessened(layer, consumeQty)];
      }
      assert ordered[..|ordered|] == ordered;
    }
  }

  /** One turn of the loop: what it consumes, */
  lemma StepTakes(front: seq<Layer>, layer: Layer, quantity: nat)
    ensures var n := Share(front, layer, quantity);
            && InOrder(front + [layer], quantity) == InOrder(front, quantity) + [Lessened(layer, n)]
            && Min(quantity, Remaining(front + [layer])) == Min(quantity, Remaining(front)) + n
  {
    assert (front + [layer])[..|front|] == front;
  }

  /** What is charged for consuming: at the average if there is one, otherwise what the layers lose in worth. */
  function Bill(ordered: seq<Layer>, quantity: nat, average: Option<real>): real {
    match average
    case Some(unitCost) => Cost(unitCost, Min(quantity, Remaining(ordered)))
    case None => Worth(ordered) - Worth(InOrder(ordered, quantity))
  }

  lemma StepCosts(front: seq<Layer>, after: seq<Layer>, layer: Layer, n: nat)
    requires n <= layer.remaining
    ensures Worth(front + [layer]) - Worth(after + [Lessened(layer, n)])
         == Worth(front) - Worth(after) + Cost(layer.unitCost, n)
  {
    assert (front + [layer])[..|front|] == front;
    assert (after + [Lessened(layer, n)])[..|after|] == after;
    CostAdds(layer.unitCost, layer.remaining - n, n);
  }

  /** and what that costs. */
  lemma StepBills(front: seq<Layer>, layer: Layer, quantity: nat, average: Option<real>)
    ensures Bill(front + [layer], quantity, average)
         == Bill(front, quantity, average) + Cost(OrElse(average, layer.unitCost), Share(front, layer, quantity))
  {
    match average
    case Some(unitCost) => StepAtAverage(front, layer, quantity, unitCost);
    case None => StepAtCost(front, layer, quantity);
  }

  lemma StepAtAverage(front: seq<Layer>, layer: Layer, quantity: nat, unitCost: real)
    ensures Cost(unitCost, Min(quantity, Remaining(front + [layer])))
         == Cost(unitCost, Min(quantity, Remaining(front))) + Cost(unitCost, Share(front, layer, quantity))
  {
    StepTakes(front, layer, quantity);
    CostAdds(unitCost, Min(quantity, Remaining(front)), Share(front, layer, quantity));
  }

  lemma StepAtCost(front: seq<Layer>, layer: Layer, quantity: nat)
    ensures Worth(front + [layer]) - Worth(InOrder(front + [layer], quantity))
         == Worth(front) - Worth(InOrder(front, quantity)) + Cost(layer.unitCost, Share(front, layer, quantity))
  {
    StepTakes(front, layer, quantity);
    StepCosts(front, InOrder(front, quantity), layer, Share(front, layer, quantity));
  }

  // ----- Layers against balances ----------------------------------------------------------------------

  /** How a movement was valued: its unit cost when received, the product's method when issued. */
  datatype Valued = Valued(unitCost: real, pricing: PricingMethod)

  /** Receipts and returns make a layer, issues consume; a void's reversal does neither. */
  function LayersAfter(movements: seq<Movement>, valued: seq<Valued>, k: Key): seq<Layer>
    requires |valued| == |movements|
  {
    if movements == [] then []
    else
      var n := |movements| - 1;
      var before, m := LayersAfter(movements[..n], valued[..n], k), movements[n];
      if m.key != k || m.kind == Reversal then before
      else if Takes(m.kind) then Consumed(before, m.quantity, valued[n].pricing)
      else before + [Layer(m.quantity, valued[n].unitCost)]
  }

  /** What the layers hold, told from the movements alone. */
  function LayerQuantity(movements: seq<Movement>, k: Key): nat {
    if movements == [] then 0
    else
      var n := |movements| - 1;
      var before, m := LayerQuantity(movements[..n], k), movements[n];
      if m.key != k || m.kind == Reversal then before
      else if Takes(m.kind) then before - Min(m.quantity, before)
      else before + m.quantity
  }

  /** What voids put back on hand without a layer. */
  function Restored(movements: seq<Movement>, k: Key): nat {
    if movements == [] then 0
    else
      var n := |movements| - 1;
      Restored(movements[..n], k)
        + if movements[n].key == k && movements[n].kind == Reversal then movements[n].quantity else 0
  }

  /** What was taken although no layer was left to consume. */
  function Uncovered(movements: seq<Movement>, k: Key): nat {
    if movements == [] then 0
    else
      var n := |movements| - 1;
      var held, m := LayerQuantity(movements[..n], k), movements[n];
      Uncovered(movements[..n], k) + if m.key == k && Takes(m.kind) then m.quantity - Min(m.quantity, held) else 0
  }

  /** However issues are costed, the layers hold that quantity. */
  lemma {:induction false} LayersHold(movements: seq<Movement>, valued: seq<Valued>, k: Key)
    requires |valued| == |movements|
    ensures Remaining(LayersAfter(movements, valued, k)) == LayerQuantity(movements, k)
  {
    if movements != [] {
      var n := |movements| - 1;
      var before := LayersAfter(movements[..n], valued[..n], k);
      LayersHold(movements[..n], valued[..n], k);
      ConsumptionTakes(before, movements[n].quantity, valued[n].pricing);
      assert (before + [Layer(movements[n].quantity, valued[n].unitCost)])[..|before|] == before;
    }
  }

  lemma {:induction false} LogDrift(movements: seq<Movement>, k: Key)
    ensures Net(movements, k) - LayerQuantity(movements, k) == Restored(movements, k) - Uncovered(movements, k)
  {
    if movements != [] { LogDrift(movements[..|movements| - 1], k); }
  }

  /** By how much on-hand stock is ahead of the layers. */
  function Ahead(st: Store, k: Key): int { OnHand(st.stock.onHand, k) - LayerQuantity(st.stock.movements, k) }

  /**
    Over every run: on-hand stock runs ahead of the layers by exactly what voids put back, and
    behind by exactly what was taken with no layer left.
  */
  lemma LayersDriftExactly(st: Store, requests: seq<Request>, k: Key)
    requires Valid(st)
    ensures var after := Run(st, requests);
            Ahead(after, k) - Ahead(st, k)
            == (Restored(after.stock.movements, k) - Restored(st.stock.movements, k))
               - (Uncovered(after.stock.movements, k) - Uncovered(st.stock.movements, k))
  {
    EveryRunConservesStock(st, requests, k);
    LogDrift(st.stock.movements, k);
    LogDrift(Run(st, requests).stock.movements, k);
  }

  /** So from an empty store on, layers and balance agree exactly when those two are equal. */
  lemma LayersAgreeIff(requests: seq<Request>, k: Key)
    ensures var after := Run(Store(map[], Stock(map[], [])), requests);
            OnHand(after.stock.onHand, k) == LayerQuantity(after.stock.movements, k)
            <==> Restored(after.stock.movements, k) == Uncovered(after.stock.movements, k)
  {
    EmptyStoreIsValid(map[]);
    LayersDriftExactly(Store(map[], Stock(map[], [])), requests, k);
  }

  /** Without voids, and never below zero in between, they agree. */
  lemma {:induction false} InStepWithoutVoids(movements: seq<Movement>, k: Key)
    requires Restored(movements, k) == 0
    requires forall n | 0 <= n <= |movements| :: Net(movements[..n], k) >= 0
    ensures LayerQuantity(movements, k) == Net(movements, k)
  {
    if movements != [] {
      var front := movements[..|movements| - 1];
      forall n | 0 <= n <= |front| ensures Net(front[..n], k) >= 0 { assert front[..n] == movements[..n]; }
      InStepWithoutVoids(front, k);
      assert movements[..|movements|] == movements;
    }
  }

  lemma {:induction false} ReversalAddsNoLayer(stock: Stock, saleId: Id, locationId: Id, items: seq<StockItem>, k: Key)
    ensures LayerQuantity(Post(stock, Reversal, saleId, locationId, items).movements, k)
         == LayerQuantity(stock.movements, k)
  {
    if items != [] {
      var n := |items| - 1;
      ReversalAddsNoLayer(stock, saleId, locationId, items[..n], k);
      var after := Post(stock, Reversal, saleId, locationId, items).movements;
      assert after[..|after| - 1] == Post(stock, Reversal, saleId, locationId, items[..n]).movements;
    }
  }

  /** Every void parts them by exactly what its sale had taken. */
  lemma VoidLeavesLayersBehind(st: Store, r: Request, k: Key)
    requires Valid(st) && r.Void? && Outcome(st, r).Ok?
    ensures Ahead(Step(st, r), k) - Ahead(st, k)
         == if k.locationId == st.sales[r.id].locationId then Moved(st.stock.movements, Out, r.id, k.productId) else 0
  {
    var s := st.sales[r.id];
    VoidRestoresOnHand(st, r, k);
    ReversalAddsNoLayer(st.stock, r.id, s.locationId, StockItems(s.lines), k);
    assert Step(st, r).stock == Post(st.stock, Reversal, r.id, s.locationId, StockItems(s.lines));
  }
}
