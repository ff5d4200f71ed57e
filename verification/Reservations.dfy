/**
  Stock reservations and the cleanup of abandoned carts: the reserved quantity kept on each
  inventory balance against the reservations that are still active.

  A reservation's key is its position: rows are only ever appended. Times are milliseconds.
*/
module Reservations {
  import opened Wrappers
  import opened StockLedger

  type Time = int

  datatype ReservationStatus = Active | Released | Expired | Fulfilled

  datatype Reservation = Reservation(tenant: Tenant, slot: Key, quantity: nat, status: ReservationStatus,
                                     expiresAt: Time, saleId: Option<Id>)

  datatype Balance = Balance(tenant: Tenant, reserved: int)

  datatype CartRow = CartRow(tenant: Tenant, draft: bool, createdAt: Time)

  datatype Desk = Desk(
    owners: map<Id, Tenant>,          // products and the tenants they belong to
    sales: map<Id, CartRow>,
    reservations: seq<Reservation>,
    balances: map<Key, Balance>)

  // ----- Active quantities --------------------------------------------------------------------

  function ActiveQuantity(rs: seq<Reservation>, slot: Key): nat {
    if rs == [] then 0
    else
      var r := rs[|rs| - 1];
      ActiveQuantity(rs[..|rs| - 1], slot) + (if r.status == Active && r.slot == slot then r.quantity else 0)
  }

  /** How far a balance's reserved quantity is ahead of its active reservations. */
  function Drift(d: Desk, slot: Key): int {
    ReservedAt(d, slot) - ActiveQuantity(d.reservations, slot)
  }

  lemma {:induction false} ReplaceReservation(rs: seq<Reservation>, i: nat, r: Reservation, slot: Key)
    requires i < |rs|
    ensures ActiveQuantity(rs[i := r], slot)
         == ActiveQuantity(rs, slot)
            - (if rs[i].status == Active && rs[i].slot == slot then rs[i].quantity else 0)
            + (if r.status == Active && r.slot == slot then r.quantity else 0)
  {
    var n := |rs| - 1;
    if i < n {
      assert rs[i := r][..n] == rs[..n][i := r];
      ReplaceReservation(rs[..n], i, r, slot);
    } else {
      assert rs[i := r][..n] == rs[..n];
    }
  }

  // ----- Invariant ----------------------------------------------------------------------------

  /** Reservations and balances carry their product's tenant, and an active reservation has its balance row. */
  predicate Housed(d: Desk, r: Reservation) {
    && r.slot.productId in d.owners && r.tenant == d.owners[r.slot.productId]
    && (r.status == Active ==> r.slot in d.balances)
  }

  predicate WellKept(d: Desk) {
    && (forall i | 0 <= i < |d.reservations| :: Housed(d, d.reservations[i]))
    && (forall slot <- d.balances :: slot.productId in d.owners && d.balances[slot].tenant == d.owners[slot.productId])
  }

  // ----- Single reservations ----------------------------------------------------------------------

  function Reserve(balances: map<Key, Balance>, tenant: Tenant, slot: Key, change: int): map<Key, Balance> {
    balances[slot := if slot in balances then balances[slot].(reserved := balances[slot].reserved + change)
                     else Balance(tenant, change)]
  }

  function ReservedAt(d: Desk, slot: Key): int {
    if slot in d.balances then d.balances[slot].reserved else 0
  }

  /**
    The checks of `create`. What the reservation refers to is free text: no sale is looked up.
    `live` says that the product is not deleted and the location known; `onHand` is the
    balance's on-hand quantity.
  */
  predicate Reservable(d: Desk, r: Reservation, live: bool, now: Time, onHand: int) {
    && r.status == Active
    && r.slot.productId in d.owners && d.owners[r.slot.productId] == r.tenant && live
    && onHand - ReservedAt(d, r.slot) >= r.quantity && r.expiresAt > now
  }

  function Created(d: Desk, r: Reservation, live: bool, now: Time, onHand: int): Desk {
    if !Reservable(d, r, live, now, onHand) then d
    else d.(reservations := d.reservations + [r], balances := Reserve(d.balances, r.tenant, r.slot, r.quantity))
  }

  /** `release` and the expiry job: the active quantity is given back once. */
  function Ended(d: Desk, tenant: Tenant, i: nat, status: ReservationStatus): Desk {
    if i >= |d.reservations| then d
    else
      var r := d.reservations[i];
      if r.tenant != tenant || r.status != Active then d
      else d.(reservations := d.reservations[i := r.(status := status)],
              balances := Reserve(d.balances, tenant, r.slot, -(r.quantity as int)))
  }

  /** What `update` is given: a new quantity, expiry or reference. */
  datatype Patch = Patch(quantity: Option<nat>, expiresAt: Option<Time>, reference: Option<Option<Id>>)

  /** A quantity of zero counts as none. */
  predicate Empty(patch: Patch) {
    (patch.quantity == None || patch.quantity == Some(0)) && patch.expiresAt == None && patch.reference == None
  }

  function Rewritten(r: Reservation, patch: Patch): Reservation {
    r.(quantity := OrElse(patch.quantity, r.quantity), expiresAt := OrElse(patch.expiresAt, r.expiresAt),
       saleId := OrElse(patch.reference, r.saleId))
  }

  /** The checks of `update`: only what the quantity grows by must still be available. */
  predicate Patchable(d: Desk, tenant: Tenant, i: nat, patch: Patch, now: Time, onHand: int) {
    && !Empty(patch) && i < |d.reservations|
    && var r := d.reservations[i];
       && r.tenant == tenant && r.status == Active
       && (patch.expiresAt.Some? ==> patch.expiresAt.value > now)
       && var diff := Rewritten(r, patch).quantity as int - r.quantity;
          diff > 0 ==> onHand - ReservedAt(d, r.slot) >= diff
  }

  function Patched(d: Desk, tenant: Tenant, i: nat, patch: Patch, now: Time, onHand: int): Desk {
    if !Patchable(d, tenant, i, patch, now, onHand) then d
    else
      var r, r' := d.reservations[i], Rewritten(d.reservations[i], patch);
      d.(reservations := d.reservations[i := r'],
         balances := if r'.quantity == r.quantity then d.balances
                     else Reserve(d.balances, tenant, r.slot, r'.quantity as int - r.quantity))
  }

  // ----- Completion -------------------------------------------------------------------------------

  predicate OfSales(r: Reservation, saleIds: set<Id>) {
    r.status == Active && r.saleId.Some? && r.saleId.value in saleIds
  }

  function WithStatus(rs: seq<Reservation>, saleIds: set<Id>, status: ReservationStatus): (after: seq<Reservation>)
    ensures |after| == |rs|
    ensures forall i | 0 <= i < |rs| :: after[i] == if OfSales(rs[i], saleIds) then rs[i].(status := status) else rs[i]
  {
    if rs == [] then []
    else
      var r := rs[|rs| - 1];
      WithStatus(rs[..|rs| - 1], saleIds, status) + [if OfSales(r, saleIds) then r.(status := status) else r]
  }

  /** `updateMany` of a completing sale: its reservations become FULFILLED, and nothing else. */
  function SaleFulfilled(d: Desk, saleId: Id): Desk {
    if saleId !in d.sales || !d.sales[saleId].draft then d
    else d.(sales := d.sales[saleId := d.sales[saleId].(draft := false)],
            reservations := WithStatus(d.reservations, {saleId}, Fulfilled))
  }

  /** What a set of sales holds of a slot in active reservations. */
  function HeldBy(rs: seq<Reservation>, saleIds: set<Id>, slot: Key): nat {
    if rs == [] then 0
    else
      var r := rs[|rs| - 1];
      HeldBy(rs[..|rs| - 1], saleIds, slot) + (if OfSales(r, saleIds) && r.slot == slot then r.quantity else 0)
  }

  lemma {:induction false} EndingSalesFreesWhatTheyHeld(rs: seq<Reservation>, saleIds: set<Id>,
        status: ReservationStatus, slot: Key)
    requires status != Active
    ensures ActiveQuantity(WithStatus(rs, saleIds, status), slot)
        == ActiveQuantity(rs, slot) - HeldBy(rs, saleIds, slot)
  {
    if rs != [] {
      var n := |rs| - 1;
      EndingSalesFreesWhatTheyHeld(rs[..n], saleIds, status, slot);
      assert WithStatus(rs, saleIds, status)[..n] == WithStatus(rs[..n], saleIds, status);
    }
  }

  // ----- Cleanup: the reference -----------------------------------------------------------------------

  const CART_MAX_AGE: Time := 24 * 60 * 60 * 1000

  function AbandonedCarts(sales: map<Id, CartRow>, now: Time): set<Id> {
    set id <- sales | sales[id].draft && sales[id].createdAt < now - CART_MAX_AGE
  }

  function Selected(rs: seq<Reservation>, saleIds: set<Id>): seq<Reservation> {
    if rs == [] then []
    else Selected(rs[..|rs| - 1], saleIds) + if OfSales(rs[|rs| - 1], saleIds) then [rs[|rs| - 1]] else []
  }

  /** `updateMany({ where: { productId, locationId, tenantId }, decrement })`. */
  function Decremented(balances: map<Key, Balance>, slot: Key, tenant: Tenant, quantity: int): map<Key, Balance> {
    if slot in balances && balances[slot].tenant == tenant
    then balances[slot := balances[slot].(reserved := balances[slot].reserved - quantity)]
    else balances
  }

  /** One decrement for each reservation, in turn. */
  function OneByOne(balances: map<Key, Balance>, selected: seq<Reservation>): map<Key, Balance> {
    if selected == [] then balances
    else
      var r := selected[|selected| - 1];
      Decremented(OneByOne(balances, selected[..|selected| - 1]), r.slot, r.tenant, r.quantity)
  }

  function CleanedUp(d: Desk, now: Time): Desk {
    var carts := AbandonedCarts(d.sales, now);
    Desk(d.owners, d.sales - carts, WithStatus(d.reservations, carts, Expired),
         OneByOne(d.balances, Selected(d.reservations, carts)))
  }

  // ----- Runs -------------------------------------------------------------------------------------

  datatype Event =
    | OpenCart(id: Id, tenant: Tenant, createdAt: Time)
    | MakeReservation(reservation: Reservation, live: bool, now: Time, onHand: int)
    | ReleaseReservation(tenant: Tenant, index: nat)
    | ExpireReservation(tenant: Tenant, index: nat, now: Time)
    | PatchReservation(tenant: Tenant, index: nat, patch: Patch, now: Time, onHand: int)
    | CompleteSale(completed: Id)
    | CleanUp(now: Time)

  function Step(d: Desk, e: Event): Desk {
    match e
    case OpenCart(id, tenant, createdAt) => if id in d.sales then d
        else d.(sales := d.sales[id := CartRow(tenant, true, createdAt)])
    case MakeReservation(r, live, now, onHand) => Created(d, r, live, now, onHand)
    case ReleaseReservation(tenant, i) => Ended(d, tenant, i, Released)
    case ExpireReservation(tenant, i, now) =>
      if i < |d.reservations| && d.reservations[i].expiresAt > now then d else Ended(d, tenant, i, Expired)
    case PatchReservation(tenant, i, patch, now, onHand) => Patched(d, tenant, i, patch, now, onHand)
    case CompleteSale(saleId) => SaleFulfilled(d, saleId)
    case CleanUp(now) => CleanedUp(d, now)
  }

  function Run(d: Desk, events: seq<Event>): Desk {
    if events == [] then d else Step(Run(d, events[..|events| - 1]), events[|events| - 1])
  }

  /** What completing sales left reserved over a run although no reservation stands behind it. */
  function Leaked(d: Desk, events: seq<Event>, slot: Key): nat {
    if events == [] then 0
    else
      var before := Run(d, events[..|events| - 1]);
      Leaked(d, events[..|events| - 1], slot) + LeakOf(before, events[|events| - 1], slot)
  }

  function LeakOf(d: Desk, e: Event, slot: Key): nat {
    if e.CompleteSale? && e.completed in d.sales && d.sales[e.completed].draft
    then HeldBy(d.reservations, {e.completed}, slot) else 0
  }

  // ----- Cleanup keeps the balances in step ---------------------------------------------------------

  lemma {:induction false} SelectedIsWellOwned(d: Desk, rs: seq<Reservation>, saleIds: set<Id>)
    requires forall i | 0 <= i < |rs| :: Housed(d, rs[i])
    ensures forall i | 0 <= i < |Selected(rs, saleIds)| ::
              Housed(d, Selected(rs, saleIds)[i]) && Selected(rs, saleIds)[i].status == Active
  {
    if rs != [] { SelectedIsWellOwned(d, rs[..|rs| - 1], saleIds); }
  }

  /** Total of the chosen reservations on one slot. */
  function Total(selected: seq<Reservation>, slot: Key): nat {
    if selected == [] then 0
    else
      var r := selected[|selected| - 1];
      Total(selected[..|selected| - 1], slot) + if r.slot == slot then r.quantity else 0
  }

  lemma {:induction false} SelectedTotal(rs: seq<Reservation>, saleIds: set<Id>, slot: Key)
    ensures Total(Selected(rs, saleIds), slot) == HeldBy(rs, saleIds, slot)
  {
    if rs != [] {
      SelectedTotal(rs[..|rs| - 1], saleIds, slot);
      var front, s := Selected(rs[..|rs| - 1], saleIds), Selected(rs, saleIds);
      if OfSales(rs[|rs| - 1], saleIds) {
        assert s[..|s| - 1] == front;
      } else {
        assert s == front;
      }
    }
  }

  /** Reservations and balances that agree about the tenant of every slot. */
  predicate SameTenants(balances: map<Key, Balance>, selected: seq<Reservation>) {
    forall i | 0 <= i < |selected| ::
      selected[i].slot in balances && balances[selected[i].slot].tenant == selected[i].tenant
  }

  lemma {:induction false} OneByOneIsPointwise(balances: map<Key, Balance>, selected: seq<Reservation>)
    requires SameTenants(balances, selected)
    ensures OneByOne(balances, selected)
         == map slot <- balances :: balances[slot].(reserved := balances[slot].reserved - Total(selected, slot))
  {
    if selected != [] {
      assert forall i | 0 <= i < |selected| - 1 :: selected[..|selected| - 1][i] == selected[i];
      OneByOneIsPointwise(balances, selected[..|selected| - 1]);
    }
  }

  lemma SelectedHasSameTenants(d: Desk, saleIds: set<Id>)
    requires WellKept(d)
    ensures SameTenants(d.balances, Selected(d.reservations, saleIds))
  {
    SelectedIsWellOwned(d, d.reservations, saleIds);
  }

  lemma CleanUpKeepsDrift(d: Desk, now: Time, slot: Key)
    requires WellKept(d)
    ensures Drift(CleanedUp(d, now), slot) == Drift(d, slot)
  {
    var carts := AbandonedCarts(d.sales, now);
    var selected := Selected(d.reservations, carts);
    SelectedHasSameTenants(d, carts);
    OneByOneIsPointwise(d.balances, selected);
    SelectedTotal(d.reservations, carts, slot);
    EndingSalesFreesWhatTheyHeld(d.reservations, carts, Expired, slot);
    if slot !in d.balances { NothingWithoutARow(selected, slot); }
  }

  lemma {:induction false} NothingWithoutARow(selected: seq<Reservation>, slot: Key)
    requires forall i | 0 <= i < |selected| :: selected[i].slot != slot
    ensures Total(selected, slot) == 0
  {
    if selected != [] { NothingWithoutARow(selected[..|selected| - 1], slot); }
  }

  /**
    What a cleanup deletes and spares: exactly the old drafts go, no active reservation
    refers to a deleted cart, and every other reservation is as it was.
  */
  lemma CleanUpIsExact(d: Desk, now: Time, i: nat)
    requires i < |d.reservations|
    ensures var after := CleanedUp(d, now);
            var r, r' := d.reservations[i], after.reservations[i];
            && (forall id <- d.sales ::
                  id !in after.sales <==> d.sales[id].draft && d.sales[id].createdAt < now - CART_MAX_AGE)
            && (forall id <- after.sales :: id in d.sales && after.sales[id] == d.sales[id])
            && (r'.status == Active && r'.saleId.Some? && r'.saleId.value in d.sales ==> r'.saleId.value in after.sales)
            && (r' != r ==>
                  && r.status == Active && r' == r.(status := Expired)
                  && r.saleId.value in d.sales && r.saleId.value !in after.sales)
  {
  }

  // ----- Every step, every run ------------------------------------------------------------------------

  lemma CleanUpKeepsWellKept(d: Desk, now: Time)
    requires WellKept(d)
    ensures WellKept(CleanedUp(d, now))
  {
    var carts := AbandonedCarts(d.sales, now);
    SelectedHasSameTenants(d, carts);
    OneByOneIsPointwise(d.balances, Selected(d.reservations, carts));
    var after := CleanedUp(d, now);
    forall i | 0 <= i < |after.reservations| ensures Housed(after, after.reservations[i]) {
      assert Housed(d, d.reservations[i]);
    }
  }

  lemma StepKeepsWellKept(d: Desk, e: Event)
    requires WellKept(d)
    ensures WellKept(Step(d, e))
  {
    if e.CleanUp? {
      CleanUpKeepsWellKept(d, e.now);
    } else {
      var after := Step(d, e);
      forall i | 0 <= i < |after.reservations| ensures Housed(after, after.reservations[i]) {
        if i < |d.reservations| { assert Housed(d, d.reservations[i]); }
      }
    }
  }

  /** Every step but a completion leaves the drift of every slot alone. */
  lemma StepDrift(d: Desk, e: Event, slot: Key)
    requires WellKept(d)
    ensures Drift(Step(d, e), slot) == Drift(d, slot) + LeakOf(d, e, slot)
  {
    match e
    case OpenCart(_, _, _) =>
    case MakeReservation(r, live, now, onHand) => CreatedKeepsDrift(d, r, live, now, onHand, slot);
    case ReleaseReservation(tenant, i) => EndedKeepsDrift(d, tenant, i, Released, slot);
    case ExpireReservation(tenant, i, _) => EndedKeepsDrift(d, tenant, i, Expired, slot);
    case PatchReservation(tenant, i, patch, now, onHand) => PatchedKeepsDrift(d, tenant, i, patch, now, onHand, slot);
    case CompleteSale(saleId) => EndingSalesFreesWhatTheyHeld(d.reservations, {saleId}, Fulfilled, slot);
    case CleanUp(now) => CleanUpKeepsDrift(d, now, slot);
  }

  lemma CreatedKeepsDrift(d: Desk, r: Reservation, live: bool, now: Time, onHand: int, slot: Key)
    ensures Drift(Created(d, r, live, now, onHand), slot) == Drift(d, slot)
  {
    assert (d.reservations + [r])[..|d.reservations|] == d.reservations;
  }

  lemma EndedKeepsDrift(d: Desk, tenant: Tenant, i: nat, status: ReservationStatus, slot: Key)
    requires WellKept(d) && status != Active
    ensures Drift(Ended(d, tenant, i, status), slot) == Drift(d, slot)
  {
    if i < |d.reservations| {
      assert Housed(d, d.reservations[i]);
      ReplaceReservation(d.reservations, i, d.reservations[i].(status := status), slot);
    }
  }

  lemma PatchedKeepsDrift(d: Desk, tenant: Tenant, i: nat, patch: Patch, now: Time, onHand: int, slot: Key)
    requires WellKept(d)
    ensures Drift(Patched(d, tenant, i, patch, now, onHand), slot) == Drift(d, slot)
  {
    if i < |d.reservations| {
      assert Housed(d, d.reservations[i]);
      ReplaceReservation(d.reservations, i, Rewritten(d.reservations[i], patch), slot);
    }
  }

  /**
    Over every run the reserved quantity of a slot is its active reservations plus what
    completed sales held of it when they were completed: cleanup, expiry and release keep
    the two in step, completion alone parts them.
  */
  lemma {:induction false} ReservedIsActivePlusLeaked(d: Desk, events: seq<Event>, slot: Key)
    requires WellKept(d)
    ensures WellKept(Run(d, events))
    ensures Drift(Run(d, events), slot) == Drift(d, slot) + Leaked(d, events, slot)
    decreases |events|
  {
    if events != [] {
      var before := Run(d, events[..|events| - 1]);
      ReservedIsActivePlusLeaked(d, events[..|events| - 1], slot);
      StepKeepsWellKept(before, events[|events| - 1]);
      StepDrift(before, events[|events| - 1], slot);
    }
  }

  /** A completion keeps reserved == active exactly when the sale held nothing of the slot. */
  lemma CompletionLeaksIffHeld(d: Desk, saleId: Id, slot: Key)
    requires WellKept(d) && Drift(d, slot) == 0
    requires saleId in d.sales && d.sales[saleId].draft
    ensures Drift(SaleFulfilled(d, saleId), slot) == 0 <==> HeldBy(d.reservations, {saleId}, slot) == 0
  {
    EndingSalesFreesWhatTheyHeld(d.reservations, {saleId}, Fulfilled, slot);
  }

  // ----- What one event does -------------------------------------------------------------------------

  /** One balance's reserved quantity moves, and no other. */
  ghost predicate MovesReserved(d: Desk, after: Desk, slot: Key, change: int) {
    forall k: Key :: ReservedAt(after, k) == ReservedAt(d, k) + if k == slot then change else 0
  }

  /**
    A reservation is made exactly when the product is the tenant's own, product and location
    are live, it ends in the future, and what is on hand covers it beside all that is reserved.
  */
  lemma ReservationIsExact(d: Desk, r: Reservation, live: bool, now: Time, onHand: int)
    requires r.status == Active
    ensures var after := Step(d, MakeReservation(r, live, now, onHand));
            if r.slot.productId in d.owners && d.owners[r.slot.productId] == r.tenant && live && r.expiresAt > now
               && ReservedAt(d, r.slot) + r.quantity <= onHand
            then after.reservations == d.reservations + [r] && MovesReserved(d, after, r.slot, r.quantity)
                 && ReservedAt(after, r.slot) <= onHand && after.sales == d.sales
            else after == d
  {
  }

  /** An active reservation of the tenant is ended, once, and what it reserved given back; any other is left alone. */
  lemma EndingIsExact(d: Desk, e: Event)
    requires e.ReleaseReservation? || e.ExpireReservation?
    ensures var after := Step(d, e);
            if e.index < |d.reservations| && d.reservations[e.index].tenant == e.tenant
               && d.reservations[e.index].status == Active
               && (e.ExpireReservation? ==> d.reservations[e.index].expiresAt <= e.now)
            then var r := d.reservations[e.index];
                 && after.reservations
                    == d.reservations[e.index := r.(status := if e.ReleaseReservation? then Released else Expired)]
                 && MovesReserved(d, after, r.slot, 0 - r.quantity) && after.sales == d.sales
            else after == d
  {
  }

  /** What an update leaves of a field that is or is not given. */
  predicate Given<T(==)>(patch: Option<T>, before: T, after: T) {
    match patch
    case Some(value) => after == value
    case None => after == before
  }

  /**
    An update is accepted exactly when it gives something, for an active reservation of the
    tenant, with an expiry to come, and when what is on hand covers the growth. It gives the
    reservation what it names, keeps the rest, and moves the balance by what the quantity does.
  */
  lemma PatchIsExact(d: Desk, tenant: Tenant, i: nat, patch: Patch, now: Time, onHand: int)
    requires WellKept(d)
    ensures var after := Step(d, PatchReservation(tenant, i, patch, now, onHand));
            if i < |d.reservations| && d.reservations[i].tenant == tenant && d.reservations[i].status == Active
               && (patch.quantity !in {None, Some(0)} || patch.expiresAt.Some? || patch.reference.Some?)
               && (patch.expiresAt.Some? ==> patch.expiresAt.value > now)
               && (patch.quantity.Some? && patch.quantity.value > d.reservations[i].quantity ==>
                     ReservedAt(d, d.reservations[i].slot) + patch.quantity.value - d.reservations[i].quantity
                         <= onHand)
            then
              && |after.reservations| == |d.reservations| && after.sales == d.sales
              && (forall j | 0 <= j < |d.reservations| && j != i :: after.reservations[j] == d.reservations[j])
              && var r, r' := d.reservations[i], after.reservations[i];
                 && r'.tenant == tenant && r'.status == Active && r'.slot == r.slot
                 && Given(patch.quantity, r.quantity, r'.quantity) && Given(patch.expiresAt, r.expiresAt, r'.expiresAt)
                 && Given(patch.reference, r.saleId, r'.saleId)
                 && MovesReserved(d, after, r.slot, r'.quantity as int - r.quantity)
            else after == d
  {
    if i < |d.reservations| { assert Housed(d, d.reservations[i]); }
  }

  /** Completing a sale fulfils exactly its active reservations, and gives none of their quantity back. */
  lemma CompletionFulfils(d: Desk, saleId: Id, i: nat)
    requires saleId in d.sales && d.sales[saleId].draft && i < |d.reservations|
    ensures var after, r := Step(d, CompleteSale(saleId)), d.reservations[i];
            && after.balances == d.balances && |after.reservations| == |d.reservations|
            && after.reservations[i]
               == if r.status == Active && r.saleId == Some(saleId) then r.(status := Fulfilled) else r
  {
  }

  // ----- The batched release refines one decrement per reservation -------------------------------------

  /** The text of a product's or location's identifier has one fixed width. */
  const UUID_WIDTH: nat := 36
  type Uuid = s: string | |s| == UUID_WIDTH witness seq(UUID_WIDTH, _ => '0')

  predicate ToldApart(text: Id -> Uuid, a: Id, b: Id) { text(a) == text(b) ==> a == b }

  ghost predicate Injective(text: Id -> Uuid) { forall a, b :: ToldApart(text, a, b) }

  /** The grouping key. */
  function KeyOf(text: Id -> Uuid, slot: Key): string { text(slot.productId) + "-" + text(slot.locationId) }

  lemma KeysAreInjective(text: Id -> Uuid, a: Key, b: Key)
    requires Injective(text) && KeyOf(text, a) == KeyOf(text, b)
    ensures a == b
  {
    assert ToldApart(text, a.productId, b.productId) && ToldApart(text, a.locationId, b.locationId);
    assert KeyOf(text, a)[..UUID_WIDTH] == text(a.productId) && KeyOf(text, b)[..UUID_WIDTH] == text(b.productId);
    assert KeyOf(text, a)[UUID_WIDTH + 1..] == text(a.locationId)
        && KeyOf(text, b)[UUID_WIDTH + 1..] == text(b.locationId);
  }

  datatype Update = Update(slot: Key, tenant: Tenant, quantity: nat)

  /** Each group adds up one slot; its tenant is that of any of its reservations. */
  predicate Grouped(text: Id -> Uuid, groups: map<string, Update>, balances: map<Key, Balance>,
                    selected: seq<Reservation>) {
    && (forall k <- groups ::
          var u := groups[k];
          k == KeyOf(text, u.slot) && u.quantity == Total(selected, u.slot)
          && u.slot in balances && balances[u.slot].tenant == u.tenant)
    && (forall i | 0 <= i < |selected| :: KeyOf(text, selected[i].slot) in groups)
  }

  class CartCleanupService {
    var sales: map<Id, CartRow>
    var reservations: seq<Reservation>
    var balances: map<Key, Balance>
    const owners: map<Id, Tenant>
    const text: Id -> Uuid

    ghost function State(): Desk
      reads this
    {
      Desk(owners, sales, reservations, balances)
    }

    constructor (d: Desk, text: Id -> Uuid)
      ensures State() == d && this.text == text
    {
      this.text := text;
      owners, sales, reservations, balances := d.owners, d.sales, d.reservations, d.balances;
    }

    /** First loop: add each reservation to its group, opening the group if need be. */
    method GroupBySlot(selected: seq<Reservation>) returns (groups: map<string, Update>)
      requires Injective(text) && SameTenants(balances, selected)
      ensures Grouped(text, groups, balances, selected)
    {
      groups := map[];
      for i := 0 to |selected|
        invariant Grouped(text, groups, balances, selected[..i])
      {
        var res := selected[i];
        var key := KeyOf(text, res.slot);
        assert selected[..i + 1][..i] == selected[..i];
        GroupStep(text, groups, balances, selected[..i], res);
        if key in groups {
          groups := groups[key := groups[key].(quantity := groups[key].quantity + res.quantity)];
        } else {
          groups := groups[key := Update(res.slot, res.tenant, res.quantity)];
        }
        assert selected[..i] + [res] == selected[..i + 1];
      }
      assert selected[..|selected|] == selected;
    }

    /** Second loop: one decrement per group, in whatever order the groups come. */
    method ReleaseReservedQuantities(selected: seq<Reservation>)
      requires Injective(text) && SameTenants(balances, selected)
      modifies this`balances
      ensures balances == OneByOne(old(balances), selected)
    {
      ghost var before, done: set<Key> := balances, {};
      var groups := GroupBySlot(selected);
      var pending := groups.Keys;
      while pending != {}
        invariant pending <= groups.Keys
        invariant forall k <- groups | k !in pending :: groups[k].slot in done
        invariant forall slot <- done :: KeyOf(text, slot) !in pending
        invariant balances == PartlyReleased(before, selected, done)
        decreases |pending|
      {
        var k :| k in pending;
        var update := groups[k];
        assert k == KeyOf(text, update.slot);
        balances := Decremented(balances, update.slot, update.tenant, update.quantity);
        ReleaseStep(before, selected, update, done);
        done := done + {update.slot};
        pending := pending - {k};
      }
      AllReleased(text, before, selected, groups, done);
    }

    /** The cleanup job: select, mark expired, release, delete. */
    method CleanupAbandonedCarts(now: Time) returns (cartsDeleted: nat)
      requires Injective(text) && WellKept(State())
      modifies this
      ensures State() == CleanedUp(old(State()), now) && WellKept(State())
      ensures cartsDeleted == |AbandonedCarts(old(sales), now)|
    {
      CleanUpKeepsWellKept(State(), now);
      var cartIds := AbandonedCarts(sales, now);
      if cartIds == {} {
        NothingSelected(reservations);
        return 0;
      }
      var selected := Selected(reservations, cartIds);
      SelectedHasSameTenants(State(), cartIds);
      reservations := WithStatus(reservations, cartIds, Expired);
      ReleaseReservedQuantities(selected);
      sales := sales - cartIds;
      return |cartIds|;
    }
  }

  lemma {:induction false} NothingSelected(rs: seq<Reservation>)
    ensures Selected(rs, {}) == [] && WithStatus(rs, {}, Expired) == rs
  {
    if rs != [] { NothingSelected(rs[..|rs| - 1]); }
  }

  lemma TotalSnoc(done: seq<Reservation>, res: Reservation, slot: Key)
    ensures Total(done + [res], slot) == Total(done, slot) + if res.slot == slot then res.quantity else 0
  {
    assert (done + [res])[..|done|] == done;
  }

  /** The group a reservation joins. */
  function Joined(text: Id -> Uuid, groups: map<string, Update>, res: Reservation): Update {
    var key := KeyOf(text, res.slot);
    if key in groups then groups[key].(quantity := groups[key].quantity + res.quantity)
    else Update(res.slot, res.tenant, res.quantity)
  }

  /** It is the slot's own group and holds the slot's total. */
  lemma JoinedIsRight(text: Id -> Uuid, groups: map<string, Update>, balances: map<Key, Balance>,
                      done: seq<Reservation>, res: Reservation)
    requires Injective(text) && Grouped(text, groups, balances, done)
    requires res.slot in balances && balances[res.slot].tenant == res.tenant
    ensures var u := Joined(text, groups, res);
            u.slot == res.slot && u.tenant == res.tenant && u.quantity == Total(done + [res], res.slot)
  {
    TotalSnoc(done, res, res.slot);
    if KeyOf(text, res.slot) in groups {
      KeysAreInjective(text, groups[KeyOf(text, res.slot)].slot, res.slot);
    } else {
      NothingWithoutARow(done, res.slot);
    }
  }

  lemma GroupStep(text: Id -> Uuid, groups: map<string, Update>, balances: map<Key, Balance>, done: seq<Reservation>,
                  res: Reservation)
    requires Injective(text) && Grouped(text, groups, balances, done)
    requires res.slot in balances && balances[res.slot].tenant == res.tenant
    ensures Grouped(text, groups[KeyOf(text, res.slot) := Joined(text, groups, res)], balances, done + [res])
  {
    var key := KeyOf(text, res.slot);
    JoinedIsRight(text, groups, balances, done, res);
    forall k <- groups | k != key ensures Total(done + [res], groups[k].slot) == Total(done, groups[k].slot) {
      TotalSnoc(done, res, groups[k].slot);
    }
  }

  /** The balances after some slots have been released. */
  function PartlyReleased(balances: map<Key, Balance>, selected: seq<Reservation>, done: set<Key>): map<Key, Balance> {
    map slot <- balances ::
      balances[slot].(reserved := balances[slot].reserved - if slot in done then Total(selected, slot) else 0)
  }

  lemma ReleaseStep(before: map<Key, Balance>, selected: seq<Reservation>, u: Update, done: set<Key>)
    requires u.slot !in done && u.slot in before && before[u.slot].tenant == u.tenant
        && u.quantity == Total(selected, u.slot)
    ensures Decremented(PartlyReleased(before, selected, done), u.slot, u.tenant, u.quantity)
         == PartlyReleased(before, selected, done + {u.slot})
  {
  }

  /** Releasing every slot that has a reservation is releasing them all. */
  lemma ReleasedEverywhere(before: map<Key, Balance>, selected: seq<Reservation>, done: set<Key>)
    requires SameTenants(before, selected)
    requires forall i | 0 <= i < |selected| :: selected[i].slot in done
    ensures PartlyReleased(before, selected, done) == OneByOne(before, selected)
  {
    OneByOneIsPointwise(before, selected);
    forall slot <- before | slot !in done ensures Total(selected, slot) == 0 {
      NothingWithoutARow(selected, slot);
    }
  }

  lemma AllReleased(text: Id -> Uuid, before: map<Key, Balance>, selected: seq<Reservation>,
                    groups: map<string, Update>, done: set<Key>)
    requires Injective(text) && Grouped(text, groups, before, selected) && SameTenants(before, selected)
    requires forall k <- groups :: groups[k].slot in done
    ensures PartlyReleased(before, selected, done) == OneByOne(before, selected)
  {
    forall i | 0 <= i < |selected| ensures selected[i].slot in done {
      KeysAreInjective(text, groups[KeyOf(text, selected[i].slot)].slot, selected[i].slot);
    }
    ReleasedEverywhere(before, selected, done);
  }
}
