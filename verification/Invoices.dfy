/**
  Quotes, proformas and invoices: totals, payments, status, and the conversion of a quote.

  Money is an exact integer number of 1/10000 units; each request is one atomic step and a
  refused request changes nothing.
*/
module Invoices {
  import opened Amounts
  import opened DocumentTypes
  import opened Wrappers

  type Id = nat
  type Tenant = nat

  datatype Status = Draft | Sent | Accepted | Rejected | Expired | Paid | PartiallyPaid | Overdue | Cancelled

  datatype Item = Item(productId: Id, quantity: nat, unitPrice: Money, discountAmount: Option<Money>,
                       taxAmount: Option<Money>, sortOrder: Option<nat>)

  datatype Line = Line(productId: Id, quantity: nat, unitPrice: Money, discountAmount: Money,
                       taxAmount: Money, lineTotal: Money, sortOrder: nat)

  datatype Document = Document(
    tenant: Tenant, documentType: DocumentType, status: Status, lines: seq<Line>,
    subtotal: Money, discountAmount: Money, taxAmount: Money, totalAmount: Money,
    paidAmount: Money, dueAmount: Money, payments: seq<Money>, source: Option<Id>)

  type Table = map<Id, Document>

  datatype Error =
    | NotFound | ProductsNotFound | NotDraft | NotAQuote | NotConvertible | IsAQuote | NotCancellable | InvalidAmount

  /** The least payment a request may carry: 0.01. */
  const MIN_PAYMENT: Money := 100

  // ----- Sums ---------------------------------------------------------------------------------

  function LineTotals(lines: seq<Line>): seq<Money> {
    seq(|lines|, i requires 0 <= i < |lines| => lines[i].lineTotal)
  }

  // ----- Products -----------------------------------------------------------------------------

  /** `findMany({ id: { in: ids } })` answers each known product once, however often it is listed. */
  function Found(known: set<Id>, items: seq<Item>): set<Id> {
    if items == [] then {}
    else
      var last := items[|items| - 1].productId;
      Found(known, items[..|items| - 1]) + if last in known then {last} else {}
  }

  /** The count of products found is compared with the count of items. */
  predicate ProductsLoad(known: set<Id>, items: seq<Item>) { |Found(known, items)| == |items| }

  lemma {:induction false} FoundMembers(known: set<Id>, items: seq<Item>, p: Id)
    ensures p in Found(known, items) <==> p in known && exists i | 0 <= i < |items| :: items[i].productId == p
  {
    if items != [] {
      var n := |items| - 1;
      FoundMembers(known, items[..n], p);
      if i :| 0 <= i < |items| && items[i].productId == p && i != n { assert items[..n][i].productId == p; }
    }
  }

  predicate AllDifferent(items: seq<Item>) {
    forall i, j | 0 <= i < j < |items| :: items[i].productId != items[j].productId
  }

  lemma AllDifferentSnoc(items: seq<Item>)
    requires items != []
    ensures var n := |items| - 1;
            AllDifferent(items)
            <==> AllDifferent(items[..n]) && forall i | 0 <= i < n :: items[i].productId != items[n].productId
  {
    var n := |items| - 1;
    assert forall i | 0 <= i < n :: items[..n][i] == items[i];
    if AllDifferent(items[..n]) && forall i | 0 <= i < n :: items[i].productId != items[n].productId {
      forall i, j | 0 <= i < j < |items| ensures items[i].productId != items[j].productId {
        if j < n { assert items[..n][i].productId != items[..n][j].productId; }
      }
    }
  }

  /** Comparing counts refuses every list that names a product twice, not only unknown ones. */
  lemma {:induction false} ProductsLoadIffDistinct(known: set<Id>, items: seq<Item>)
    ensures |Found(known, items)| <= |items|
    ensures ProductsLoad(known, items)
       <==> (forall i | 0 <= i < |items| :: items[i].productId in known) && AllDifferent(items)
  {
    if items != [] {
      var n := |items| - 1;
      var front, last := items[..n], items[n].productId;
      ProductsLoadIffDistinct(known, front);
      FoundMembers(known, front, last);
      AllDifferentSnoc(items);
      assert forall i | 0 <= i < n :: front[i] == items[i];
      if last in Found(known, front) {
        assert Found(known, items) == Found(known, front);
      } else if last in known {
        assert |Found(known, items)| == |Found(known, front)| + 1;
        if ProductsLoad(known, front) {
          forall i | 0 <= i < n ensures items[i].productId != last { assert front[i].productId in known; }
        }
      }
    }
  }

  // ----- The requests -------------------------------------------------------------------------

  /** Line discount and tax apply once to the line, not per unit. */
  function LineOf(item: Item, index: nat): Line {
    var discount, tax := OrElse(item.discountAmount, 0), OrElse(item.taxAmount, 0);
    Line(item.productId, item.quantity, item.unitPrice, discount, tax,
         item.unitPrice * item.quantity - discount + tax,
         if item.sortOrder.Some? then item.sortOrder.value else index)
  }

  function LinesOf(items: seq<Item>): (lines: seq<Line>)
    ensures |lines| == |items| && forall i | 0 <= i < |items| :: lines[i] == LineOf(items[i], i)
  {
    if items == [] then [] else LinesOf(items[..|items| - 1]) + [LineOf(items[|items| - 1], |items| - 1)]
  }

  datatype Request =
    | Create(tenant: Tenant, id: Id, documentType: DocumentType, partiesKnown: bool, known: set<Id>,
             items: seq<Item>, discountAmount: Option<Money>)
    | Update(tenant: Tenant, id: Id, discountAmount: Option<Money>)
    | Send(tenant: Tenant, id: Id)
    | Convert(tenant: Tenant, id: Id, newId: Id)
    | Pay(tenant: Tenant, id: Id, amount: Money)
    | Cancel(tenant: Tenant, id: Id)

  predicate Owned(docs: Table, tenant: Tenant, id: Id) { id in docs && docs[id].tenant == tenant }

  function NewDocument(tenant: Tenant, documentType: DocumentType, items: seq<Item>,
                       discount: Option<Money>): Document {
    var lines := LinesOf(items);
    var subtotal, discountAmount := Sum(LineTotals(lines)), OrElse(discount, 0);
    var totalAmount := subtotal - discountAmount + 0;
    Document(tenant, documentType, Draft, lines, subtotal, discountAmount, 0, totalAmount, 0, totalAmount, [], None)
  }

  function ConvertedFrom(quote: Document, quoteId: Id): Document {
    quote.(documentType := Invoice, status := Draft, paidAmount := 0, dueAmount := quote.totalAmount,
           payments := [], source := Some(quoteId))
  }

  /** The quote accepted, and its invoice under a new key. */
  function Converted(docs: Table, id: Id, newId: Id): Table
    requires id in docs
  {
    docs[id := docs[id].(status := Accepted)][newId := ConvertedFrom(docs[id], id)]
  }

  function WithPayment(d: Document, amount: Money): Document {
    var paid := d.paidAmount + amount;
    var due := d.totalAmount - paid;
    d.(payments := d.payments + [amount], paidAmount := paid, dueAmount := if due < 0 then 0 else due,
       status := if due <= 0 then Paid else if paid > 0 then PartiallyPaid else d.status)
  }

  /** A new row's key is one the table never held. */
  function Outcome(docs: Table, r: Request): Result<Table, Error> {
    if r.Create? then
      if !r.partiesKnown || r.id in docs then Err(NotFound)
      else if !ProductsLoad(r.known, r.items) then Err(ProductsNotFound)
      else Ok(docs[r.id := NewDocument(r.tenant, r.documentType, r.items, r.discountAmount)])
    else if !Owned(docs, r.tenant, r.id) then Err(NotFound)
    else
      var d := docs[r.id];
      match r
      case Update(_, id, discount) =>
        if d.status != Draft then Err(NotDraft)
        else Ok(docs[id := d.(discountAmount := OrElse(discount, d.discountAmount))])
      case Send(_, id) =>
        if d.status != Draft then Err(NotDraft) else Ok(docs[id := d.(status := Sent)])
      case Convert(_, id, newId) =>
        if d.documentType != Quote then Err(NotAQuote)
        else if d.status != Draft && d.status != Sent then Err(NotConvertible)
        else if newId in docs then Err(NotFound)
        else Ok(Converted(docs, id, newId))
      case Pay(_, id, amount) =>
        if amount < MIN_PAYMENT then Err(InvalidAmount)
        else if d.documentType == Quote then Err(IsAQuote)
        else Ok(docs[id := WithPayment(d, amount)])
      case Cancel(_, id) =>
        if d.status == Paid || d.status == Cancelled then Err(NotCancellable)
        else Ok(docs[id := d.(status := Cancelled)])
  }

  function Step(docs: Table, r: Request): Table {
    match Outcome(docs, r)
    case Ok(after) => after
    case Err(_) => docs
  }

  function Run(docs: Table, requests: seq<Request>): Table {
    if requests == [] then docs else Step(Run(docs, requests[..|requests| - 1]), requests[|requests| - 1])
  }

  // ----- The ledger invariant -------------------------------------------------------------------

  /** A line is worth price times quantity, less its own discount, plus its own tax, each of them once. */
  predicate AddsUp(l: Line) { l.lineTotal == l.unitPrice * l.quantity - l.discountAmount + l.taxAmount }

  predicate AllAddUp(lines: seq<Line>) { forall i | 0 <= i < |lines| :: AddsUp(lines[i]) }

  /** What every document of every reachable table satisfies. */
  predicate InLedger(d: Document) {
    && AllAddUp(d.lines)
    && d.subtotal == Sum(LineTotals(d.lines))
    && d.paidAmount == Sum(d.payments)
    && (d.payments != [] ==> d.paidAmount > 0)
    && d.dueAmount == (if d.payments == [] || d.totalAmount > d.paidAmount then d.totalAmount - d.paidAmount else 0)
    && (d.status in {Draft, Sent, Accepted} ==> d.payments == [])
    && (d.status == PartiallyPaid ==> 0 < d.paidAmount < d.totalAmount)
    && (d.status == Paid ==> d.payments != [] && d.paidAmount >= d.totalAmount)
    && (d.documentType == Quote ==> d.payments == [])
    && (d.status == Accepted ==> d.documentType == Quote)
    && d.status !in {Rejected, Expired, Overdue}
  }

  /** An invoice made from a quote still shows the quote's lines and totals. */
  predicate FromItsQuote(docs: Table, d: Document) {
    d.source.Some? ==>
      && d.source.value in docs
      && var q := docs[d.source.value];
         && q.documentType == Quote && q.status in {Accepted, Cancelled} && d.documentType == Invoice
         && d.tenant == q.tenant && d.lines == q.lines
         && d.subtotal == q.subtotal && d.taxAmount == q.taxAmount && d.totalAmount == q.totalAmount
  }

  /** One quote, one invoice. */
  predicate SingleSource(docs: Table) {
    forall a <- docs, b <- docs | docs[a].source.Some? && docs[a].source == docs[b].source :: a == b
  }

  /** An accepted quote has its invoice. */
  ghost predicate AcceptedIsConverted(docs: Table) {
    forall q <- docs | docs[q].status == Accepted :: exists i <- docs :: docs[i].source == Some(q)
  }

  ghost predicate Valid(docs: Table) {
    && (forall id <- docs :: InLedger(docs[id]) && FromItsQuote(docs, docs[id]))
    && SingleSource(docs)
    && AcceptedIsConverted(docs)
  }

  lemma PaymentStaysInLedger(d: Document, amount: Money)
    requires InLedger(d) && amount > 0 && d.documentType != Quote
    ensures InLedger(WithPayment(d, amount))
  {
    assert (d.payments + [amount])[..|d.payments|] == d.payments;
  }

  /** What a quote and its invoice rely on in each other. */
  predicate KeepsLinks(d: Document, after: Document) {
    && after.source == d.source && after.documentType == d.documentType && after.tenant == d.tenant
    && after.lines == d.lines && after.subtotal == d.subtotal && after.taxAmount == d.taxAmount
    && after.totalAmount == d.totalAmount
    && (after.status == Accepted ==> d.status == Accepted)
    && (d.status in {Accepted, Cancelled} && d.documentType == Quote ==> after.status in {Accepted, Cancelled})
  }

  lemma EditKeepsAccepted(docs: Table, id: Id, after: Document)
    requires AcceptedIsConverted(docs) && id in docs && KeepsLinks(docs[id], after)
    ensures AcceptedIsConverted(docs[id := after])
  {
    var docs' := docs[id := after];
    forall q <- docs' | docs'[q].status == Accepted ensures exists i <- docs' :: docs'[i].source == Some(q) {
      assert docs[q].status == Accepted;
      var i :| i in docs && docs[i].source == Some(q);
      assert docs'[i].source == Some(q);
    }
  }

  /** Rewriting one document, keeping what its quote or its invoice relies on. */
  lemma EditKeepsValid(docs: Table, id: Id, after: Document)
    requires Valid(docs) && id in docs && InLedger(after) && KeepsLinks(docs[id], after)
    ensures Valid(docs[id := after])
  {
    var docs' := docs[id := after];
    EditKeepsAccepted(docs, id, after);
    forall x <- docs' ensures FromItsQuote(docs', docs'[x]) { assert FromItsQuote(docs, docs[x]); }
  }

  lemma CreateKeepsValid(docs: Table, id: Id, d: Document)
    requires Valid(docs) && id !in docs && InLedger(d) && d.source == None && d.status == Draft
    ensures Valid(docs[id := d])
  {
    var docs' := docs[id := d];
    forall q <- docs' | docs'[q].status == Accepted ensures exists i <- docs' :: docs'[i].source == Some(q) {
      var i :| i in docs && docs[i].source == Some(q);
      assert docs'[i].source == Some(q);
    }
    forall x <- docs' ensures FromItsQuote(docs', docs'[x]) { if x != id { assert FromItsQuote(docs, docs[x]); } }
  }

  predicate Convertible(docs: Table, id: Id, newId: Id) {
    id in docs && newId !in docs && docs[id].documentType == Quote && docs[id].status in {Draft, Sent}
  }

  lemma ConvertibleHasNoInvoice(docs: Table, id: Id, newId: Id, x: Id)
    requires Valid(docs) && Convertible(docs, id, newId) && x in docs
    ensures docs[x].source != Some(id) && FromItsQuote(Converted(docs, id, newId), docs[x])
  {
    assert FromItsQuote(docs, docs[x]);
  }

  lemma ConvertKeepsSources(docs: Table, id: Id, newId: Id)
    requires Valid(docs) && Convertible(docs, id, newId)
    ensures SingleSource(Converted(docs, id, newId))
  {
    forall x <- docs ensures docs[x].source != Some(id) { ConvertibleHasNoInvoice(docs, id, newId, x); }
  }

  lemma ConvertKeepsAccepted(docs: Table, id: Id, newId: Id)
    requires AcceptedIsConverted(docs) && Convertible(docs, id, newId)
    ensures AcceptedIsConverted(Converted(docs, id, newId))
  {
    var docs' := Converted(docs, id, newId);
    forall q <- docs' | docs'[q].status == Accepted ensures exists i <- docs' :: docs'[i].source == Some(q) {
      if q == id {
        assert docs'[newId].source == Some(q);
      } else {
        var i :| i in docs && docs[i].source == Some(q);
        assert docs'[i].source == Some(q);
      }
    }
  }

  lemma ConvertKeepsValid(docs: Table, id: Id, newId: Id)
    requires Valid(docs) && Convertible(docs, id, newId)
    ensures Valid(Converted(docs, id, newId))
  {
    var docs' := Converted(docs, id, newId);
    ConvertKeepsSources(docs, id, newId);
    ConvertKeepsAccepted(docs, id, newId);
    forall x <- docs' ensures InLedger(docs'[x]) && FromItsQuote(docs', docs'[x]) {
      if x in docs { ConvertibleHasNoInvoice(docs, id, newId, x); }
    }
  }

  lemma StepKeepsValid(docs: Table, r: Request)
    requires Valid(docs)
    ensures Valid(Step(docs, r))
  {
    if Outcome(docs, r).Ok? {
      match r {
        case Create(tenant, id, documentType, _, _, items, discount) =>
          NewDocumentBills(tenant, documentType, items, discount);
          CreateKeepsValid(docs, id, NewDocument(tenant, documentType, items, discount));
        case Update(_, id, discount) =>
          EditKeepsValid(docs, id, docs[id].(discountAmount := OrElse(discount, docs[id].discountAmount)));
        case Send(_, id) => EditKeepsValid(docs, id, docs[id].(status := Sent));
        case Convert(_, id, newId) => ConvertKeepsValid(docs, id, newId);
        case Pay(_, id, amount) =>
          PaymentStaysInLedger(docs[id], amount);
          EditKeepsValid(docs, id, WithPayment(docs[id], amount));
        case Cancel(_, id) => EditKeepsValid(docs, id, docs[id].(status := Cancelled));
      }
    }
  }

  /** Every table reachable by any sequence of requests is valid. */
  lemma {:induction false} EveryRunIsValid(docs: Table, requests: seq<Request>)
    requires Valid(docs)
    ensures Valid(Run(docs, requests))
    decreases |requests|
  {
    if requests != [] {
      EveryRunIsValid(docs, requests[..|requests| - 1]);
      StepKeepsValid(Run(docs, requests[..|requests| - 1]), requests[|requests| - 1]);
    }
  }

  lemma EmptyTableIsValid()
    ensures Valid(map[])
  {
  }

  // ----- What one request does -----------------------------------------------------------------------

  /** What an item is charged. */
  function Charge(item: Item): Money {
    item.unitPrice * item.quantity - OrElse(item.discountAmount, 0) + OrElse(item.taxAmount, 0)
  }

  function Charges(items: seq<Item>): seq<Money> {
    seq(|items|, i requires 0 <= i < |items| => Charge(items[i]))
  }

  /** The line carries the item's own fields; what is absent counts as zero, and the position as the order. */
  predicate LineFor(item: Item, index: nat, l: Line) {
    && AddsUp(l) && l.productId == item.productId && l.quantity == item.quantity && l.unitPrice == item.unitPrice
    && l.discountAmount == (if item.discountAmount.Some? then item.discountAmount.value else 0)
    && l.taxAmount == (if item.taxAmount.Some? then item.taxAmount.value else 0)
    && l.sortOrder == if item.sortOrder.Some? then item.sortOrder.value else index
  }

  /** A draft with a line for each item, charged their amounts less the discount, with nothing paid. */
  predicate Bills(d: Document, tenant: Tenant, documentType: DocumentType, items: seq<Item>, discount: Option<Money>) {
    && d.tenant == tenant && d.documentType == documentType && d.status == Draft && d.source == None
    && |d.lines| == |items| && (forall i | 0 <= i < |items| :: LineFor(items[i], i, d.lines[i]))
    && d.discountAmount == OrElse(discount, 0) && d.taxAmount == 0
    && d.subtotal == Sum(Charges(items)) && d.totalAmount == Sum(Charges(items)) - OrElse(discount, 0)
    && d.dueAmount == d.totalAmount && d.paidAmount == 0 && d.payments == []
  }

  lemma LineOfIsExact(item: Item, index: nat)
    ensures LineFor(item, index, LineOf(item, index)) && LineOf(item, index).lineTotal == Charge(item)
  {
  }

  lemma NewDocumentBills(tenant: Tenant, documentType: DocumentType, items: seq<Item>, discount: Option<Money>)
    ensures Bills(NewDocument(tenant, documentType, items, discount), tenant, documentType, items, discount)
    ensures AllAddUp(LinesOf(items))
  {
    var lines := LinesOf(items);
    forall i | 0 <= i < |items| ensures LineFor(items[i], i, lines[i]) && LineTotals(lines)[i] == Charges(items)[i] {
      LineOfIsExact(items[i], i);
    }
    assert LineTotals(lines) == Charges(items);
  }

  predicate OnlyWrites(docs: Table, after: Table, id: Id) {
    id in after && after.Keys == docs.Keys + {id} && forall x <- docs | x != id :: after[x] == docs[x]
  }

  /** A creation is accepted exactly for known parties and known, distinct products, and bills its items. */
  lemma CreationIsExact(docs: Table, r: Request)
    requires r.Create? && r.id !in docs
    ensures Outcome(docs, r).Ok?
       <==> && r.partiesKnown && AllDifferent(r.items)
            && forall i | 0 <= i < |r.items| :: r.items[i].productId in r.known
    ensures Outcome(docs, r).Ok? ==>
              && OnlyWrites(docs, Step(docs, r), r.id)
              && Bills(Step(docs, r)[r.id], r.tenant, r.documentType, r.items, r.discountAmount)
  {
    ProductsLoadIffDistinct(r.known, r.items);
    NewDocumentBills(r.tenant, r.documentType, r.items, r.discountAmount);
  }

  /**
    A payment is accepted exactly for the tenant's own document that is no quote, from 0.01 up.
    It is recorded as given and added to what is paid, and the status follows from what is due.
  */
  lemma PaymentIsExact(docs: Table, r: Request)
    requires Valid(docs) && r.Pay?
    ensures Outcome(docs, r).Ok?
       <==> r.id in docs && docs[r.id].tenant == r.tenant && docs[r.id].documentType != Quote && r.amount >= MIN_PAYMENT
    ensures Outcome(docs, r).Ok? ==>
              var d, after := docs[r.id], Step(docs, r);
              && OnlyWrites(docs, after, r.id) && KeepsLinks(d, after[r.id])
              && after[r.id].discountAmount == d.discountAmount
              && after[r.id].payments == d.payments + [r.amount]
              && after[r.id].paidAmount == Sum(d.payments) + r.amount
              && after[r.id].status == (if after[r.id].paidAmount >= d.totalAmount then Paid else PartiallyPaid)
              && after[r.id].dueAmount
                 == if after[r.id].paidAmount >= d.totalAmount then 0 else d.totalAmount - after[r.id].paidAmount
  {
    if r.id in docs { assert InLedger(docs[r.id]); }
  }

  /** Sending, cancelling and changing the discount: when each is accepted, and that it changes nothing else. */
  lemma EditsAreExact(docs: Table, r: Request)
    requires r.Send? || r.Cancel? || r.Update?
    ensures var own := r.id in docs && docs[r.id].tenant == r.tenant;
            && (r.Send? || r.Update? ==> (Outcome(docs, r).Ok? <==> own && docs[r.id].status == Draft))
            && (r.Cancel? ==> (Outcome(docs, r).Ok? <==> own && docs[r.id].status !in {Paid, Cancelled}))
    ensures Outcome(docs, r).Ok? ==>
              var d, after := docs[r.id], Step(docs, r);
              && OnlyWrites(docs, after, r.id)
              && (r.Send? ==> after[r.id] == d.(status := Sent))
              && (r.Cancel? ==> after[r.id] == d.(status := Cancelled))
              && (r.Update? ==> after[r.id] == d.(discountAmount :=
                    if r.discountAmount.Some? then r.discountAmount.value else d.discountAmount))
  {
  }

  // ----- Consequences -----------------------------------------------------------------------------

  function InvoicesFrom(docs: Table, q: Id): set<Id> { set i <- docs | docs[i].source == Some(q) }

  /** In any run a quote has no invoice while draft or sent, exactly one while accepted, never two. */
  lemma QuoteConvertsOnce(docs: Table, requests: seq<Request>, q: Id)
    requires Valid(docs) && q in Run(docs, requests)
    ensures var after := Run(docs, requests);
            && |InvoicesFrom(after, q)| <= 1
            && (after[q].status in {Draft, Sent} || after[q].documentType != Quote ==> InvoicesFrom(after, q) == {})
            && (after[q].status == Accepted ==> |InvoicesFrom(after, q)| == 1)
  {
    EveryRunIsValid(docs, requests);
    var after := Run(docs, requests);
    var made := InvoicesFrom(after, q);
    if after[q].status == Accepted {
      var i :| i in after && after[i].source == Some(q);
      assert i in made;
    }
    if i :| i in made {
      assert FromItsQuote(after, after[i]);
      assert made == {i};
    }
  }

  lemma ConversionAcceptedIff(docs: Table, r: Request)
    requires r.Convert?
    ensures Outcome(docs, r).Ok?
       <==> && r.id in docs && docs[r.id].tenant == r.tenant && r.newId !in docs
            && docs[r.id].documentType == Quote && docs[r.id].status in {Draft, Sent}
  {
  }

  /** The invoice a conversion creates: the quote's lines and totals, nothing paid, all due. */
  lemma ConversionCopiesTheQuote(docs: Table, r: Request)
    requires Valid(docs) && r.Convert? && Outcome(docs, r).Ok?
    ensures var quote, after := docs[r.id], Step(docs, r);
            && after[r.id] == quote.(status := Accepted)
            && var made := after[r.newId];
               && made.lines == quote.lines && made.totalAmount == quote.totalAmount
                  && made.discountAmount == quote.discountAmount
               && made.subtotal == Sum(LineTotals(made.lines))
               && made.paidAmount == 0 && made.payments == [] && made.dueAmount == made.totalAmount
               && made.status == Draft && made.documentType == Invoice && made.source == Some(r.id)
    ensures forall id <- docs | id != r.id :: Step(docs, r)[id] == docs[id]
  {
    assert InLedger(docs[r.id]);
  }

  lemma PaidIsKept(docs: Table, r: Request, id: Id)
    requires id in docs && InLedger(docs[id]) && docs[id].status == Paid
    ensures id in Step(docs, r) && Step(docs, r)[id].status == Paid
  {
    if r.Pay? { assert docs[id].paidAmount >= docs[id].totalAmount; }
  }

  /** PAID is never left. */
  lemma {:induction false} PaidIsForEver(docs: Table, requests: seq<Request>, id: Id)
    requires Valid(docs) && id in docs && docs[id].status == Paid
    ensures id in Run(docs, requests) && Run(docs, requests)[id].status == Paid
    decreases |requests|
  {
    if requests != [] {
      var before := Run(docs, requests[..|requests| - 1]);
      PaidIsForEver(docs, requests[..|requests| - 1], id);
      EveryRunIsValid(docs, requests[..|requests| - 1]);
      PaidIsKept(before, requests[|requests| - 1], id);
    }
  }

  /** CANCELLED is left exactly by a payment on a document that is not a quote. */
  lemma CancelledIsLeftIffPaid(docs: Table, r: Request, id: Id)
    requires Valid(docs) && id in docs && docs[id].status == Cancelled
    ensures id in Step(docs, r)
    ensures Step(docs, r)[id].status != Cancelled
       <==> (r.Pay? && r.id == id && r.tenant == docs[id].tenant && r.amount >= MIN_PAYMENT
             && docs[id].documentType != Quote)
  {
    assert InLedger(docs[id]);
  }

  /**
    The total is fixed at creation: an update that changes the discount leaves it behind, so
    total = subtotal - discount + tax survives exactly the updates that keep the discount.
  */
  lemma UpdateKeepsTotalIffDiscountKept(docs: Table, r: Request)
    requires r.Update? && Outcome(docs, r).Ok?
    requires var d := docs[r.id]; d.totalAmount == d.subtotal - d.discountAmount + d.taxAmount
    ensures var d := Step(docs, r)[r.id];
            d.totalAmount == d.subtotal - d.discountAmount + d.taxAmount
            <==> r.discountAmount == None || r.discountAmount == Some(docs[r.id].discountAmount)
  {
  }

  // ----- The service --------------------------------------------------------------------------------

  /** A request took effect as its outcome says, or failed with the outcome's error and changed nothing. */
  predicate Took(outcome: Result<Table, Error>, before: Table, after: Table, failure: Option<Error>) {
    match outcome
    case Ok(docs) => after == docs && failure == None
    case Err(e) => after == before && failure == Some(e)
  }

  /** So every request moves the table by `Step` and keeps it valid. */
  lemma TookIsAValidStep(r: Request, before: Table, after: Table, failure: Option<Error>)
    requires Valid(before) && Took(Outcome(before, r), before, after, failure)
    ensures after == Step(before, r) && Valid(after)
  {
    StepKeepsValid(before, r);
  }

  class InvoiceService {
    var docs: Table

    constructor ()
      ensures docs == map[] && Valid(docs)
    {
      docs := map[];
      new;
      EmptyTableIsValid();
    }

    /** Builds the rows and accumulates the subtotal on the way. */
    method ProcessInvoiceItems(items: seq<Item>) returns (processedItems: seq<Line>, subtotal: Money)
      ensures processedItems == LinesOf(items) && subtotal == Sum(LineTotals(processedItems))
      ensures |processedItems| == |items| && forall i | 0 <= i < |items| :: LineFor(items[i], i, processedItems[i])
    {
      processedItems, subtotal := [], 0;
      for i := 0 to |items|
        invariant processedItems == LinesOf(items[..i])
        invariant forall j | 0 <= j < i :: LineFor(items[j], j, processedItems[j])
        invariant subtotal == Sum(LineTotals(processedItems))
      {
        var item := items[i];
        var discount := if item.discountAmount.Some? then item.discountAmount.value else 0;
        var tax := if item.taxAmount.Some? then item.taxAmount.value else 0;
        var line := Line(item.productId, item.quantity, item.unitPrice, discount, tax,
                         item.unitPrice * item.quantity - discount + tax,
                         if item.sortOrder.Some? then item.sortOrder.value else i);
        LineOfIsExact(item, i);
        assert line == LineOf(item, i);
        subtotal := subtotal + line.lineTotal;
        assert items[..i + 1][..i] == items[..i];
        assert LineTotals(processedItems + [line])[..i] == LineTotals(processedItems);
        processedItems := processedItems + [line];
      }
      assert items[..|items|] == items;
    }

    method CreateDocument(tenant: Tenant, id: Id, documentType: DocumentType, partiesKnown: bool, known: set<Id>,
                          items: seq<Item>, discount: Option<Money>)
      returns (failure: Option<Error>)
      requires id !in docs
      modifies this
      ensures Took(Outcome(old(docs), Create(tenant, id, documentType, partiesKnown, known, items, discount)),
                   old(docs), docs, failure)
      ensures failure == None ==>
                OnlyWrites(old(docs), docs, id) && Bills(docs[id], tenant, documentType, items, discount)
    {
      if !partiesKnown {
        return Some(NotFound);
      }
      if !ProductsLoad(known, items) {
        return Some(ProductsNotFound);
      }
      var d := BuildDocument(tenant, documentType, items, discount);
      NewDocumentBills(tenant, documentType, items, discount);
      docs := docs[id := d];
      return None;
    }

    method BuildDocument(tenant: Tenant, documentType: DocumentType, items: seq<Item>, discount: Option<Money>)
      returns (d: Document)
      ensures d == NewDocument(tenant, documentType, items, discount)
    {
      var processedItems, subtotal := ProcessInvoiceItems(items);
      var discountAmount := if discount.Some? then discount.value else 0;
      var taxAmount := 0;
      var totalAmount := subtotal - discountAmount + taxAmount;
      d := Document(tenant, documentType, Draft, processedItems, subtotal, discountAmount, taxAmount,
                    totalAmount, 0, totalAmount, [], None);
    }

    method UpdateDocument(tenant: Tenant, id: Id, discount: Option<Money>) returns (failure: Option<Error>)
      modifies this
      ensures Took(Outcome(old(docs), Update(tenant, id, discount)), old(docs), docs, failure)
    {
      if id !in docs || docs[id].tenant != tenant {
        return Some(NotFound);
      }
      if docs[id].status != Draft {
        return Some(NotDraft);
      }
      docs := docs[id := docs[id].(discountAmount :=
        if discount.Some? then discount.value else docs[id].discountAmount)];
      return None;
    }

    method MarkAsSent(tenant: Tenant, id: Id) returns (failure: Option<Error>)
      modifies this
      ensures Took(Outcome(old(docs), Send(tenant, id)), old(docs), docs, failure)
    {
      if id !in docs || docs[id].tenant != tenant {
        return Some(NotFound);
      }
      if docs[id].status != Draft {
        return Some(NotDraft);
      }
      docs := docs[id := docs[id].(status := Sent)];
      return None;
    }

    /** The quote is accepted first, then the invoice is created from what was read before. */
    method ConvertToInvoice(tenant: Tenant, quoteId: Id, newId: Id) returns (failure: Option<Error>)
      requires newId !in docs
      modifies this
      ensures Took(Outcome(old(docs), Convert(tenant, quoteId, newId)), old(docs), docs, failure)
    {
      if quoteId !in docs || docs[quoteId].tenant != tenant {
        return Some(NotFound);
      }
      var quote := docs[quoteId];
      if quote.documentType != Quote {
        return Some(NotAQuote);
      }
      if quote.status != Draft && quote.status != Sent {
        return Some(NotConvertible);
      }
      docs := docs[quoteId := quote.(status := Accepted)];
      docs := docs[newId := Document(tenant, Invoice, Draft, quote.lines, quote.subtotal, quote.discountAmount,
                                     quote.taxAmount,
                                     quote.totalAmount, 0, quote.totalAmount, [], Some(quoteId))];
      return None;
    }

    method RecordPayment(tenant: Tenant, id: Id, amount: Money) returns (failure: Option<Error>)
      requires amount >= MIN_PAYMENT  // checked on the request's body
      modifies this
      ensures Took(Outcome(old(docs), Pay(tenant, id, amount)), old(docs), docs, failure)
    {
      if id !in docs || docs[id].tenant != tenant {
        return Some(NotFound);
      }
      var invoice := docs[id];
      if invoice.documentType == Quote {
        return Some(IsAQuote);
      }
      var newPaidAmount := invoice.paidAmount + amount;
      var newDueAmount := invoice.totalAmount - newPaidAmount;
      var newStatus := invoice.status;
      if newDueAmount <= 0 {
        newStatus := Paid;
      } else if newPaidAmount > 0 {
        newStatus := PartiallyPaid;
      }
      docs := docs[id := invoice.(payments := invoice.payments + [amount], paidAmount := newPaidAmount,
                                  dueAmount := if newDueAmount < 0 then 0 else newDueAmount, status := newStatus)];
      return None;
    }

    method CancelDocument(tenant: Tenant, id: Id) returns (failure: Option<Error>)
      modifies this
      ensures Took(Outcome(old(docs), Cancel(tenant, id)), old(docs), docs, failure)
    {
      if id !in docs || docs[id].tenant != tenant {
        return Some(NotFound);
      }
      if docs[id].status == Paid || docs[id].status == Cancelled {
        return Some(NotCancellable);
      }
      docs := docs[id := docs[id].(status := Cancelled)];
      return None;
    }
  }
}
