/**
  The category table of a tenant: a map of parent pointers that create, update and
  remove keep acyclic, and the upward walk that guards every re-parenting.

  Rows are never removed physically: a soft-deleted row keeps its parent pointer.
*/
module CategoryForest {
  import opened Wrappers

  type Id = nat      // a UUID; only equality matters
  type Tenant = nat

  datatype Category = Category(tenant: Tenant, parent: Option<Id>, deleted: bool)

  type Table = map<Id, Category>

  datatype Error =
    | NotFound
    | ParentNotFound
    | SelfParent
    | CircularReference
    | HasChildren
    | HasProducts

  /** The `parentId` of an update: absent, an explicit null, or a new parent. */
  datatype ParentChange = Keep | Clear | MoveTo(id: Id)

  // ----- Reading the table ------------------------------------------------------------

  /** `findFirst({ id, tenantId, deletedAt: null })` succeeds. */
  predicate Live(rows: Table, tenant: Tenant, id: Id) {
    id in rows && rows[id].tenant == tenant && !rows[id].deleted
  }

  /** One step of the walk: the parent pointer of a live row of the tenant. */
  function LiveParent(rows: Table, tenant: Tenant, id: Id): Option<Id> {
    if Live(rows, tenant, id) then rows[id].parent else None
  }

  predicate HasLiveChild(rows: Table, id: Id) {
    exists c <- rows :: rows[c].parent == Some(id) && !rows[c].deleted
  }

  // ----- Ancestors --------------------------------------------------------------------

  /** The n-th ancestor of `id`, over all rows, live or deleted. */
  ghost function Up(rows: Table, id: Id, n: nat): Option<Id>
    decreases n
  {
    if n == 0 then Some(id)
    else if id in rows && rows[id].parent.Some? then Up(rows, rows[id].parent.value, n - 1)
    else None
  }

  /** The same, seeing only the live rows of one tenant, as the walk does. */
  ghost function Climb(rows: Table, tenant: Tenant, id: Id, n: nat): Option<Id>
    decreases n
  {
    if n == 0 then Some(id)
    else
      match LiveParent(rows, tenant, id)
      case Some(p) => Climb(rows, tenant, p, n - 1)
      case None => None
  }

  ghost predicate AncestorOrSelf(rows: Table, a: Id, id: Id) {
    exists n: nat :: Up(rows, id, n) == Some(a)
  }

  /** No category is a proper ancestor of itself; deleted rows count too. */
  ghost predicate Acyclic(rows: Table) {
    forall id: Id, n: nat | n > 0 :: Up(rows, id, n) != Some(id)
  }

  /**
    Every category is a root or hangs under a stored category of its own tenant, and a
    live category hangs under a live one.
  */
  ghost predicate LiveParents(rows: Table) {
    forall id <- rows | rows[id].parent.Some? ::
      var p := rows[id].parent.value;
      p in rows && rows[p].tenant == rows[id].tenant && (rows[p].deleted ==> rows[id].deleted)
  }

  ghost predicate Forest(rows: Table) {
    Acyclic(rows) && LiveParents(rows)
  }

  lemma {:induction false} UpComposes(rows: Table, id: Id, m: nat, n: nat)
    requires Up(rows, id, m).Some?
    ensures Up(rows, id, m + n) == Up(rows, Up(rows, id, m).value, n)
    decreases m
  {
    if m > 0 {
      UpComposes(rows, rows[id].parent.value, m - 1, n);
    }
  }

  lemma {:induction false} UpPrefix(rows: Table, id: Id, m: nat, n: nat)
    requires m <= n && Up(rows, id, n).Some?
    ensures Up(rows, id, m).Some?
    decreases m
  {
    if m > 0 {
      UpPrefix(rows, rows[id].parent.value, m - 1, n - 1);
    }
  }

  lemma {:induction false} ClimbIsUp(rows: Table, tenant: Tenant, id: Id, n: nat)
    requires Climb(rows, tenant, id, n).Some?
    ensures Up(rows, id, n) == Climb(rows, tenant, id, n)
    decreases n
  {
    if n > 0 {
      ClimbIsUp(rows, tenant, rows[id].parent.value, n - 1);
    }
  }

  lemma {:induction false} ClimbStep(rows: Table, tenant: Tenant, id: Id, n: nat)
    requires Climb(rows, tenant, id, n).Some?
    ensures Climb(rows, tenant, id, n + 1) == LiveParent(rows, tenant, Climb(rows, tenant, id, n).value)
    decreases n
  {
    if n > 0 {
      ClimbStep(rows, tenant, LiveParent(rows, tenant, id).value, n - 1);
    }
  }

  lemma {:induction false} ClimbEnds(rows: Table, tenant: Tenant, id: Id, m: nat, n: nat)
    requires m <= n && Climb(rows, tenant, id, m) == None
    ensures Climb(rows, tenant, id, n) == None
    decreases m
  {
    if m > 0 && LiveParent(rows, tenant, id).Some? {
      ClimbEnds(rows, tenant, LiveParent(rows, tenant, id).value, m - 1, n - 1);
    }
  }

  /** From a live row the tenant's walk sees exactly the stored ancestors. */
  lemma {:induction false} LiveClimbIsUp(rows: Table, tenant: Tenant, id: Id, n: nat)
    requires LiveParents(rows) && Live(rows, tenant, id)
    ensures Climb(rows, tenant, id, n) == Up(rows, id, n)
    decreases n
  {
    if n > 0 && rows[id].parent.Some? {
      LiveClimbIsUp(rows, tenant, rows[id].parent.value, n - 1);
    }
  }

  // ----- Re-parenting -----------------------------------------------------------------

  function WithParent(rows: Table, id: Id, parent: Option<Id>): Table
    requires id in rows
  {
    rows[id := rows[id].(parent := parent)]
  }

  /** A walk that has not yet left `id` is the same before and after `id` is re-parented. */
  lemma {:induction false} UpUnchanged(rows: Table, id: Id, parent: Option<Id>, x: Id, n: nat)
    requires id in rows
    requires forall k: nat | k < n :: Up(rows, x, k) != Some(id)
    ensures Up(WithParent(rows, id, parent), x, n) == Up(rows, x, n)
    decreases n
  {
    if n > 0 {
      assert Up(rows, x, 0) == Some(x);
      if x in rows && rows[x].parent.Some? {
        var p := rows[x].parent.value;
        forall k: nat | k < n - 1 ensures Up(rows, p, k) != Some(id) {
          assert Up(rows, x, k + 1) == Up(rows, p, k);
        }
        UpUnchanged(rows, id, parent, p, n - 1);
      }
    }
  }

  /** The first arrival at `a` on a walk known to reach it. */
  lemma FirstArrival(rows: Table, x: Id, a: Id, n: nat) returns (m: nat)
    requires Up(rows, x, n) == Some(a)
    ensures m <= n && Up(rows, x, m) == Some(a)
    ensures forall k: nat | k < m :: Up(rows, x, k) != Some(a)
  {
    m := 0;
    while Up(rows, x, m) != Some(a)
      invariant m <= n
      invariant forall k: nat | k < m :: Up(rows, x, k) != Some(a)
      decreases n - m
    {
      m := m + 1;
    }
  }

  /** Moving `id` under a parent that is not below it creates no cycle. */
  lemma MoveKeepsAcyclic(rows: Table, id: Id, parent: Option<Id>)
    requires Acyclic(rows) && id in rows
    requires parent.Some? ==> !AncestorOrSelf(rows, id, parent.value)
    ensures Acyclic(WithParent(rows, id, parent))
  {
    var after := WithParent(rows, id, parent);
    assert rows == WithParent(after, id, rows[id].parent);
    forall x: Id, n: nat | n > 0 ensures Up(after, x, n) != Some(x) {
      if Up(after, x, n) == Some(x) {
        if k: nat :| k < n && Up(after, x, k) == Some(id) {
          // The cycle runs through `id`: turn it so that it starts there.
          UpComposes(after, x, k, n);
          UpComposes(after, x, n, k);
          assert Up(after, id, n) == Some(id);
          var p := parent.value;
          assert Up(after, p, n - 1) == Some(id);
          var m := FirstArrival(after, p, id, n - 1);
          UpUnchanged(after, id, rows[id].parent, p, m);
          assert Up(rows, p, m) == Some(id);
          assert false;
        } else {
          UpUnchanged(after, id, rows[id].parent, x, n);
          assert false;
        }
      }
    }
  }

  /**
    The guard is exact: moving a live category under a live parent would close a cycle
    precisely when the category is an ancestor-or-self of that parent.
  */
  lemma GuardIsExact(rows: Table, id: Id, parent: Id)
    requires Acyclic(rows) && id in rows
    ensures AncestorOrSelf(rows, id, parent) <==> !Acyclic(WithParent(rows, id, Some(parent)))
  {
    var after := WithParent(rows, id, Some(parent));
    if AncestorOrSelf(rows, id, parent) {
      var n: nat :| Up(rows, parent, n) == Some(id);
      var m := FirstArrival(rows, parent, id, n);
      UpUnchanged(rows, id, Some(parent), parent, m);
      assert Up(after, id, m + 1) == Some(id);
    } else {
      MoveKeepsAcyclic(rows, id, Some(parent));
    }
  }

  // ----- Specification of the three requests --------------------------------------------

  /** The answer the walk must give, wherever it starts. */
  ghost predicate Circular(rows: Table, tenant: Tenant, id: Id, start: Id) {
    exists n: nat :: Climb(rows, tenant, start, n) == Some(id)
  }

  lemma CircularIsAncestry(rows: Table, tenant: Tenant, id: Id, start: Id)
    requires LiveParents(rows) && Live(rows, tenant, start)
    ensures Circular(rows, tenant, id, start) <==> AncestorOrSelf(rows, id, start)
  {
    forall n: nat ensures Climb(rows, tenant, start, n) == Up(rows, start, n) {
      LiveClimbIsUp(rows, tenant, start, n);
    }
  }

  /** `create`: the new row, or why there is none. */
  function Created(rows: Table, tenant: Tenant, id: Id, parent: Option<Id>): Result<Table, Error> {
    if parent.Some? && !Live(rows, tenant, parent.value) then Err(ParentNotFound)
    else Ok(rows[id := Category(tenant, parent, false)])
  }

  /** `update`, in the order of the source's checks. */
  ghost function Updated(rows: Table, tenant: Tenant, id: Id, change: ParentChange): Result<Table, Error> {
    if !Live(rows, tenant, id) then Err(NotFound)
    else
      match change
      case Keep => Ok(rows)
      case Clear => Ok(WithParent(rows, id, None))
      case MoveTo(p) =>
        if p == id then Err(SelfParent)
        else if !Live(rows, tenant, p) then Err(ParentNotFound)
        else if Circular(rows, tenant, id, p) then Err(CircularReference)
        else Ok(WithParent(rows, id, Some(p)))
  }

  /** `remove`; `liveProducts` counts the non-deleted products assigned to the category. */
  function Removed(rows: Table, tenant: Tenant, id: Id, liveProducts: nat): Result<Table, Error> {
    if !Live(rows, tenant, id) then Err(NotFound)
    else if HasLiveChild(rows, id) then Err(HasChildren)
    else if liveProducts > 0 then Err(HasProducts)
    else Ok(rows[id := rows[id].(deleted := true)])
  }

  // ----- Invariant --------------------------------------------------------------------

  lemma {:induction false} UpInExtension(rows: Table, after: Table, id: Id, x: Id, n: nat)
    requires id in after && rows == after - {id}
    requires Up(after, x, n).Some?
    requires forall k: nat | k < n :: Up(after, x, k) != Some(id)
    ensures Up(rows, x, n) == Up(after, x, n)
    decreases n
  {
    if n > 0 {
      assert Up(after, x, 0) == Some(x);
      var p := after[x].parent.value;
      forall k: nat | k < n - 1 ensures Up(after, p, k) != Some(id) {
        assert Up(after, x, k + 1) == Up(after, p, k);
      }
      UpInExtension(rows, after, id, p, n - 1);
    }
  }

  lemma CreateKeepsForest(rows: Table, tenant: Tenant, id: Id, parent: Option<Id>)
    requires Forest(rows) && id !in rows
    requires Created(rows, tenant, id, parent).Ok?
    ensures Forest(Created(rows, tenant, id, parent).value)
  {
    var after := Created(rows, tenant, id, parent).value;
    forall x: Id, n: nat | n > 0 ensures Up(after, x, n) != Some(x) {
      if Up(after, x, n) == Some(x) {
        if k: nat :| k < n && Up(after, x, k) == Some(id) {
          UpComposes(after, x, k, n);
          UpComposes(after, x, n, k);
          assert Up(after, id, n) == Some(id);
          UpPrefix(after, id, n - 1, n);
          UpComposes(after, id, n - 1, 1);
          assert false;
        } else {
          assert rows == after - {id};
          UpInExtension(rows, after, id, x, n);
          assert false;
        }
      }
    }
  }

  lemma UpdateKeepsForest(rows: Table, tenant: Tenant, id: Id, change: ParentChange)
    requires Forest(rows)
    requires Updated(rows, tenant, id, change).Ok?
    ensures Forest(Updated(rows, tenant, id, change).value)
  {
    match change
    case Keep =>
    case Clear => MoveKeepsAcyclic(rows, id, None);
    case MoveTo(p) =>
      CircularIsAncestry(rows, tenant, id, p);
      MoveKeepsAcyclic(rows, id, Some(p));
  }

  lemma {:induction false} UpIgnoresDeletion(rows: Table, id: Id, x: Id, n: nat)
    requires id in rows
    ensures Up(rows[id := rows[id].(deleted := true)], x, n) == Up(rows, x, n)
    decreases n
  {
    if n > 0 && x in rows && rows[x].parent.Some? {
      UpIgnoresDeletion(rows, id, rows[x].parent.value, n - 1);
    }
  }

  lemma RemoveKeepsForest(rows: Table, tenant: Tenant, id: Id, liveProducts: nat)
    requires Forest(rows)
    requires Removed(rows, tenant, id, liveProducts).Ok?
    ensures Forest(Removed(rows, tenant, id, liveProducts).value)
  {
    var after := Removed(rows, tenant, id, liveProducts).value;
    forall x: Id, n: nat | n > 0
      ensures Up(after, x, n) != Some(x)
    {
      UpIgnoresDeletion(rows, id, x, n);
    }
  }

  /** The checks of `update` refuse no harmless move: accepted exactly when a forest results. */
  lemma MoveAcceptedIffForest(rows: Table, tenant: Tenant, id: Id, parent: Id)
    requires Forest(rows) && Live(rows, tenant, id)
    ensures Updated(rows, tenant, id, MoveTo(parent)).Ok? <==> Forest(WithParent(rows, id, Some(parent)))
  {
    var after := WithParent(rows, id, Some(parent));
    if parent == id {
      assert Up(after, id, 1) == Some(id) by { assert Up(after, id, 0) == Some(id); }
    } else if Live(rows, tenant, parent) {
      CircularIsAncestry(rows, tenant, id, parent);
      GuardIsExact(rows, id, parent);
    } else {
      assert after[id].parent == Some(parent);
    }
  }

  /** `remove` is refused for its children exactly when deleting would orphan one of them. */
  lemma RemovalAcceptedIffForest(rows: Table, tenant: Tenant, id: Id)
    requires Forest(rows) && Live(rows, tenant, id)
    ensures Removed(rows, tenant, id, 0).Ok? <==> Forest(rows[id := rows[id].(deleted := true)])
  {
    if HasLiveChild(rows, id) {
      var c :| c in rows && rows[c].parent == Some(id) && !rows[c].deleted;
      if c == id {
        assert Up(rows, id, 1) == Some(id) by { assert Up(rows, id, 0) == Some(id); }
      }
      assert rows[id := rows[id].(deleted := true)][c].parent == Some(id);
    } else {
      RemoveKeepsForest(rows, tenant, id, 0);
    }
  }

  // ----- Whole runs -------------------------------------------------------------------

  datatype Request =
    | Create(tenant: Tenant, id: Id, parent: Option<Id>)
    | Update(tenant: Tenant, id: Id, change: ParentChange)
    | Remove(tenant: Tenant, id: Id, liveProducts: nat)

  /** A refused request leaves the table as it was; a new UUID is one the table never saw. */
  ghost function Step(rows: Table, r: Request): Table {
    var result :=
      match r
      case Create(t, id, p) =>
        if id in rows then Err(NotFound) else Created(rows, t, id, p)
      case Update(t, id, c) => Updated(rows, t, id, c)
      case Remove(t, id, n) => Removed(rows, t, id, n);
    match result
    case Ok(after) => after
    case Err(_) => rows
  }

  ghost function Run(rows: Table, requests: seq<Request>): Table
    decreases |requests|
  {
    if requests == [] then rows else Run(Step(rows, requests[0]), requests[1..])
  }

  // ----- What one request does ----------------------------------------------------------

  /** Rows of another table with the same parents above `x` have the same ancestors. */
  lemma {:induction false} UpAgrees(rows: Table, after: Table, x: Id, n: nat)
    requires LiveParents(rows) && x in rows
    requires forall y <- rows :: y in after && after[y].parent == rows[y].parent
    ensures Up(after, x, n) == Up(rows, x, n)
    decreases n
  {
    if n > 0 && rows[x].parent.Some? { UpAgrees(rows, after, rows[x].parent.value, n - 1); }
  }

  /**
    A creation is accepted without a parent or under a live one. It adds one live category of
    the tenant, whose ancestors are the parent and the parent's, and changes no other row.
  */
  lemma CreationIsExact(rows: Table, tenant: Tenant, id: Id, parent: Option<Id>, n: nat)
    requires Forest(rows) && id !in rows
    ensures var after := Step(rows, Create(tenant, id, parent));
            if parent.Some? && !Live(rows, tenant, parent.value) then after == rows
            else
              && Live(after, tenant, id) && after - {id} == rows
              && Up(after, id, n + 1) == if parent.Some? then Up(rows, parent.value, n) else None
    ensures forall x <- rows :: Up(Step(rows, Create(tenant, id, parent)), x, n) == Up(rows, x, n)
  {
    var after := Step(rows, Create(tenant, id, parent));
    forall x <- rows ensures Up(after, x, n) == Up(rows, x, n) { UpAgrees(rows, after, x, n); }
  }

  /**
    A change of parent is accepted exactly for a live category and, when there is a new
    parent, if a forest results. The category then hangs where it was asked to, with everything
    else about it and every other row as before.
  */
  lemma ReparentingIsExact(rows: Table, tenant: Tenant, id: Id, change: ParentChange, n: nat)
    requires Forest(rows)
    ensures var after := Step(rows, Update(tenant, id, change));
            var accepted := Live(rows, tenant, id)
              && (change.MoveTo? ==> Forest(WithParent(rows, id, Some(change.id))));
            if !accepted || change.Keep? then after == rows
            else
              && after.Keys == rows.Keys && Live(after, tenant, id)
              && (forall x <- rows | x != id :: after[x] == rows[x])
              && Up(after, id, n + 1) == if change.MoveTo? then Up(rows, change.id, n) else None
  {
    var after := Step(rows, Update(tenant, id, change));
    if Live(rows, tenant, id) && change.MoveTo? {
      MoveAcceptedIffForest(rows, tenant, id, change.id);
      if Updated(rows, tenant, id, change).Ok? { MovedUnder(rows, tenant, id, change.id, n); }
    }
  }

  /** The ancestors of the new parent are not changed by the move. */
  lemma MovedUnder(rows: Table, tenant: Tenant, id: Id, parent: Id, n: nat)
    requires Forest(rows) && Updated(rows, tenant, id, MoveTo(parent)).Ok?
    ensures Up(WithParent(rows, id, Some(parent)), id, n + 1) == Up(rows, parent, n)
  {
    CircularIsAncestry(rows, tenant, id, parent);
    UpUnchanged(rows, id, Some(parent), parent, n);
  }

  /**
    A removal is accepted exactly for a live category without live children and products. It
    is no longer live afterwards, nothing else changes, and nobody's ancestors do.
  */
  lemma RemovalIsExact(rows: Table, tenant: Tenant, id: Id, liveProducts: nat, x: Id, n: nat)
    ensures var after := Step(rows, Remove(tenant, id, liveProducts));
            && (if Live(rows, tenant, id) && liveProducts == 0
                    && (forall c <- rows :: rows[c].parent == Some(id) ==> rows[c].deleted)
                then !Live(after, tenant, id) && after.Keys == rows.Keys
                     && (forall y <- rows | y != id :: after[y] == rows[y])
                     && after[id].tenant == tenant && after[id].parent == rows[id].parent
                else after == rows)
            && Up(after, x, n) == Up(rows, x, n)
  {
    if id in rows { UpIgnoresDeletion(rows, id, x, n); }
  }

  /** Every table reachable by any sequence of requests is a forest. */
  lemma {:induction false} EveryRunIsAForest(rows: Table, requests: seq<Request>)
    requires Forest(rows)
    ensures Forest(Run(rows, requests))
    decreases |requests|
  {
    if requests != [] {
      match requests[0] {
        case Create(t, id, p) =>
          if id !in rows && Created(rows, t, id, p).Ok? {
            CreateKeepsForest(rows, t, id, p);
          }
        case Update(t, id, c) =>
          if Updated(rows, t, id, c).Ok? { UpdateKeepsForest(rows, t, id, c); }
        case Remove(t, id, n) =>
          if Removed(rows, t, id, n).Ok? { RemoveKeepsForest(rows, t, id, n); }
      }
      EveryRunIsAForest(Step(rows, requests[0]), requests[1..]);
    }
  }

  // ----- The service ------------------------------------------------------------------

  class CategoryService {
    var rows: Table

    constructor ()
      ensures rows == map[] && Forest(rows)
    {
      rows := map[];
    }

    /** The upward walk: it ends because acyclic tables never show it a row twice. */
    method CheckCircularReference(tenant: Tenant, categoryId: Id, newParentId: Id) returns (circular: bool)
      requires Acyclic(rows)
      ensures circular <==> Circular(rows, tenant, categoryId, newParentId)
    {
      var currentId: Option<Id> := Some(newParentId);
      ghost var n: nat := 0;
      ghost var seen: set<Id> := {};
      while currentId.Some?
        invariant Climb(rows, tenant, newParentId, n) == currentId
        invariant forall k: nat | k < n :: Climb(rows, tenant, newParentId, k) != Some(categoryId)
        invariant seen <= rows.Keys
        invariant forall x <- seen :: exists k: nat :: k < n && Climb(rows, tenant, newParentId, k) == Some(x)
        decreases rows.Keys - seen, currentId.Some?
      {
        if currentId.value == categoryId {
          return true;
        }
        ClimbStep(rows, tenant, newParentId, n);
        ghost var here := currentId.value;
        if Live(rows, tenant, here) {
          if here in seen {
            var k: nat :| k < n && Climb(rows, tenant, newParentId, k) == Some(here);
            ClimbIsUp(rows, tenant, newParentId, k);
            ClimbIsUp(rows, tenant, newParentId, n);
            UpComposes(rows, newParentId, k, n - k);
            assert false;
          }
          assert rows.Keys - (seen + {here}) < rows.Keys - seen by { assert here in rows.Keys - seen; }
          seen := seen + {here};
        }
        currentId := LiveParent(rows, tenant, currentId.value);
        n := n + 1;
      }
      forall k: nat ensures Climb(rows, tenant, newParentId, k) != Some(categoryId) {
        if k >= n { ClimbEnds(rows, tenant, newParentId, n, k); }
      }
      return false;
    }

    method CreateCategory(tenant: Tenant, id: Id, parent: Option<Id>) returns (result: Result<Id, Error>)
      requires Forest(rows)
      requires id !in rows  // a fresh UUID
      modifies this
      ensures Forest(rows)
      ensures rows == Step(old(rows), Create(tenant, id, parent))
      ensures result == if parent.Some? && !Live(old(rows), tenant, parent.value) then Err(ParentNotFound) else Ok(id)
      ensures result.Ok? ==> rows == old(rows)[id := Category(tenant, parent, false)]
    {
      if parent.Some? && !Live(rows, tenant, parent.value) {
        return Err(ParentNotFound);
      }
      CreateKeepsForest(rows, tenant, id, parent);
      rows := rows[id := Category(tenant, parent, false)];
      return Ok(id);
    }

    method UpdateCategory(tenant: Tenant, id: Id, change: ParentChange) returns (result: Result<Id, Error>)
      requires Forest(rows)
      modifies this
      ensures Forest(rows)
      ensures rows == Step(old(rows), Update(tenant, id, change))
      ensures result.Err? ==> Updated(old(rows), tenant, id, change) == Err(result.error)
      ensures result.Ok? ==> Updated(old(rows), tenant, id, change).Ok? && result.value == id
    {
      if !Live(rows, tenant, id) {
        return Err(NotFound);
      }
      if change.MoveTo? {
        if change.id == id {
          return Err(SelfParent);
        }
        if !Live(rows, tenant, change.id) {
          return Err(ParentNotFound);
        }
        var isCircular := CheckCircularReference(tenant, id, change.id);
        if isCircular {
          return Err(CircularReference);
        }
      }
      UpdateKeepsForest(rows, tenant, id, change);
      match change {
        case Keep =>
        case Clear => rows := rows[id := rows[id].(parent := None)];
        case MoveTo(p) => rows := rows[id := rows[id].(parent := Some(p))];
      }
      return Ok(id);
    }

    method RemoveCategory(tenant: Tenant, id: Id, liveProducts: nat) returns (result: Result<Id, Error>)
      requires Forest(rows)
      modifies this
      ensures Forest(rows)
      ensures rows == Step(old(rows), Remove(tenant, id, liveProducts))
      ensures result.Err? ==> Removed(old(rows), tenant, id, liveProducts) == Err(result.error)
      ensures result.Ok? ==> Removed(old(rows), tenant, id, liveProducts).Ok? && result.value == id
    {
      if !Live(rows, tenant, id) {
        return Err(NotFound);
      }
      if HasLiveChild(rows, id) {
        return Err(HasChildren);
      }
      if liveProducts > 0 {
        return Err(HasProducts);
      }
      RemoveKeepsForest(rows, tenant, id, liveProducts);
      rows := rows[id := rows[id].(deleted := true)];
      return Ok(id);
    }
  }
}
