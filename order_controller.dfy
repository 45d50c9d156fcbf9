/** The order endpoints of SushiBE/Controllers/OrderController.cs that change
    the store: confirming a cart into an order and its invoice, setting an
    order's status, deleting an order, and regenerating an invoice's
    document. */
module OrderController {
  import opened Common
  import opened Models
  import opened Seqs
  import opened Carts
  import opened Data
  import opened InvoiceNumbers
  import opened InvoicePdf

  const Pending: string := "Pending"

  // ---------------------------------------------------------------------
  // ConfirmCart

  /** The order lines copied from the cart lines, one per line and in the
      same order; `itemIds(i)` is the id drawn for the `i`-th line. */
  function Snapshot(lines: seq<CartItem>, orderId: Id, itemIds: nat -> Id): (r: seq<OrderItem>)
    ensures |r| == |lines|
    ensures forall i :: 0 <= i < |r| ==> r[i].orderId == orderId
  {
    seq(|lines|, i requires 0 <= i < |lines| =>
      OrderItem(itemIds(i), orderId, lines[i].productId, lines[i].quantity, lines[i].price))
  }

  /** Each order line carries its cart line's product, quantity and price,
      the price the line had in the cart and not the product's current one. */
  lemma SnapshotCopies(lines: seq<CartItem>, orderId: Id, itemIds: nat -> Id, i: nat)
    requires i < |lines|
    ensures var o := Snapshot(lines, orderId, itemIds)[i];
      o.productId == lines[i].productId && o.quantity == lines[i].quantity && o.price == lines[i].price
  {
  }

  /** The order lines add up to the cart lines' total. */
  lemma {:induction false} SnapshotTotal(lines: seq<CartItem>, orderId: Id, itemIds: nat -> Id)
    ensures SumOf(Snapshot(lines, orderId, itemIds), ItemTotal) == Total(lines)
    decreases |lines|
  {
    if lines != [] {
      var shifted := (i: nat) => itemIds(i + 1);
      assert Snapshot(lines, orderId, itemIds)[1..] == Snapshot(lines[1..], orderId, shifted);
      SnapshotTotal(lines[1..], orderId, shifted);
    }
  }

  /** The order a confirmation creates from a cart. */
  function NewOrder(customerId: Id, cartTotal: Money, comments: string, now: Ticks, orderId: Id): Order
  {
    Order(orderId, customerId, now, Pending, comments, cartTotal)
  }

  /** The invoice a confirmation creates: numbered from the invoices stored
      before it, for the order's amount, without a document yet. */
  function NewInvoice(invoices: seq<Invoice>, order: Order, now: Ticks, year: nat, invoiceId: Id): Invoice
  {
    Invoice(invoiceId, order.orderId, order.customerId, GenerateInvoiceNumber(invoices, year), now, order.totalAmount, None)
  }

  /** `POST api/order/confirm/{customerId}`. A missing or empty cart answers
      BadRequest and changes nothing. Otherwise a Pending order for the
      cart's total is stored with a copy of every line, an invoice for the
      same amount and customer is stored with the next number, the cart is
      emptied, and then the document is rendered; a failed rendering only
      leaves the invoice without a URL. The answer is Ok either way. */
  method ConfirmCart(db: Db, customerId: Id, comments: string, now: Ticks, year: nat,
                     orderId: Id, invoiceId: Id, itemIds: nat -> Id, env: Env)
    returns (status: Status)
    requires db.Valid() && db.CartsValid()
    requires FindOrder(db.orders, orderId).None? && FindInvoice(db.invoices, invoiceId).None?
    modifies db, db.carts
    ensures db.Valid() && db.CartsValid()
    ensures db.carts == old(db.carts) && db.users == old(db.users)
    ensures db.products == old(db.products) && db.canOrders == old(db.canOrders)
    ensures forall c :: c in db.carts && c.customerId != customerId ==>
      c.items == old(c.items) && c.totalAmount == old(c.totalAmount)
    ensures (FindCart(db.carts, customerId).None? || old(db.carts[FindCart(db.carts, customerId).value].items) == []) ==>
      && status == BadRequest
      && db.orders == old(db.orders) && db.orderItems == old(db.orderItems) && db.invoices == old(db.invoices)
      && forall c :: c in db.carts ==> c.items == old(c.items) && c.totalAmount == old(c.totalAmount)
    ensures FindCart(db.carts, customerId).Some? && old(db.carts[FindCart(db.carts, customerId).value].items) != [] ==>
      var cart := db.carts[FindCart(db.carts, customerId).value];
      var order := NewOrder(customerId, old(cart.totalAmount), comments, now, orderId);
      var invoice := NewInvoice(old(db.invoices), order, now, year, invoiceId);
      && status == Ok
      && db.orders == old(db.orders) + [order]
      && db.orderItems == old(db.orderItems) + Snapshot(old(cart.items), orderId, itemIds)
      && db.invoices == AfterPdf(old(db.invoices) + [invoice], invoiceId, env)
      && cart.items == [] && cart.totalAmount == 0
  {
    var found := FindCart(db.carts, customerId);
    if found.None? || db.carts[found.value].items == [] {
      return BadRequest;
    }
    var cart := db.carts[found.value];
    var order := NewOrder(cart.customerId, cart.totalAmount, comments, now, orderId);
    var lines := Snapshot(cart.items, orderId, itemIds);
    var invoice := NewInvoice(db.invoices, order, now, year, invoiceId);
    StoreConfirmation(db, cart, order, lines, invoice, env);
    status := Ok;
  }

  /** The writes of a confirmation: the order, its lines and its invoice are
      appended, the cart is emptied, and the invoice's document is rendered. */
  method StoreConfirmation(db: Db, cart: Cart, order: Order, lines: seq<OrderItem>, invoice: Invoice, env: Env)
    requires db.Valid() && db.CartsValid() && cart in db.carts
    requires FindOrder(db.orders, order.orderId).None? && FindInvoice(db.invoices, invoice.invoiceId).None?
    requires forall i :: 0 <= i < |lines| ==> lines[i].orderId == order.orderId
    requires invoice.orderId == order.orderId
    modifies db, cart
    ensures db.Valid() && db.CartsValid()
    ensures db.carts == old(db.carts) && db.users == old(db.users)
    ensures db.products == old(db.products) && db.canOrders == old(db.canOrders)
    ensures db.orders == old(db.orders) + [order] && db.orderItems == old(db.orderItems) + lines
    ensures db.invoices == AfterPdf(old(db.invoices) + [invoice], invoice.invoiceId, env)
    ensures cart.items == [] && cart.totalAmount == 0
  {
    assert cart.Valid();
    ghost var oldOrders, oldItems, oldInvoices := db.orders, db.orderItems, db.invoices;
    db.orders := db.orders + [order];
    db.orderItems := db.orderItems + lines;
    db.invoices := db.invoices + [invoice];
    cart.Clear();
    ConfirmKeepsKeys(oldOrders, oldItems, oldInvoices, order, lines, invoice);
    ghost var stored := db.invoices;
    var _ := GeneratePdfByInvoiceId(db, invoice.invoiceId, env);
    AfterPdfKeepsKeys(db.orders, db.orderItems, stored, invoice.invoiceId, env);
  }

  /** Storing a new order with its lines and its invoice keeps unique order
      ids and keeps every line and every invoice attached to a stored order. */
  lemma ConfirmKeepsKeys(orders: seq<Order>, items: seq<OrderItem>, invoices: seq<Invoice>,
                         order: Order, lines: seq<OrderItem>, invoice: Invoice)
    requires OrderKeys(orders, items, invoices)
    requires FindOrder(orders, order.orderId).None? && FindInvoice(invoices, invoice.invoiceId).None?
    requires forall i :: 0 <= i < |lines| ==> lines[i].orderId == order.orderId
    requires invoice.orderId == order.orderId
    ensures OrderKeys(orders + [order], items + lines, invoices + [invoice])
  {
    var ivs := invoices + [invoice];
    assert ivs[|invoices|] == invoice;
    var os := orders + [order];
    assert os[|orders|].orderId == order.orderId;
    forall i | 0 <= i < |invoices + [invoice]| ensures FindOrder(os, (invoices + [invoice])[i].orderId).Some? {
      if i < |invoices| {
        var k := FindOrder(orders, invoices[i].orderId).value;
        assert os[k] == orders[k];
      }
    }
    forall i | 0 <= i < |items + lines| ensures FindOrder(os, (items + lines)[i].orderId).Some? {
      if i < |items| {
        var k := FindOrder(orders, items[i].orderId).value;
        assert os[k] == orders[k];
      } else {
        assert (items + lines)[i] == lines[i - |items|];
      }
    }
  }

  /** Storing a document URL keeps the keys of the order tables. */
  lemma AfterPdfKeepsKeys(orders: seq<Order>, items: seq<OrderItem>, invoices: seq<Invoice>, invoiceId: Id, env: Env)
    requires OrderKeys(orders, items, invoices)
    ensures OrderKeys(orders, items, AfterPdf(invoices, invoiceId, env))
  {
    AfterPdfKeepsIds(invoices, invoiceId, env);
    var r := AfterPdf(invoices, invoiceId, env);
    forall i | 0 <= i < |r| ensures FindOrder(orders, r[i].orderId).Some? {
      assert r[i].orderId == invoices[i].orderId;
    }
  }

  /** Storing a document URL changes no invoice id. */
  lemma AfterPdfKeepsIds(invoices: seq<Invoice>, invoiceId: Id, env: Env)
    requires UniqueInvoiceIds(invoices)
    ensures UniqueInvoiceIds(AfterPdf(invoices, invoiceId, env))
    ensures |AfterPdf(invoices, invoiceId, env)| == |invoices|
    ensures forall j :: 0 <= j < |invoices| ==>
      AfterPdf(invoices, invoiceId, env)[j] == invoices[j].(pdfUrl := AfterPdf(invoices, invoiceId, env)[j].pdfUrl)
  {
  }

  /** The confirmed order's invoice prints a subtotal equal to its total: the
      order lines copied from a cart add up to the amount the cart held, and
      that amount is both the order's and the invoice's. */
  lemma ConfirmedInvoiceBalances(cart: seq<CartItem>, cartTotal: Money, invoices: seq<Invoice>,
                                 orderItems: seq<OrderItem>, customerId: Id, comments: string,
                                 now: Ticks, year: nat, orderId: Id, invoiceId: Id, itemIds: nat -> Id)
    requires cartTotal == Total(cart)
    requires forall i :: 0 <= i < |orderItems| ==> orderItems[i].orderId != orderId
    ensures var order := NewOrder(customerId, cartTotal, comments, now, orderId);
      var invoice := NewInvoice(invoices, order, now, year, invoiceId);
      var items := ItemsOf(orderItems + Snapshot(cart, orderId, itemIds), orderId);
      && invoice.amount == order.totalAmount
      && invoice.orderId == order.orderId && invoice.customerId == order.customerId
      && InvoiceFigures(invoice, Some(items)).subtotal == InvoiceFigures(invoice, Some(items)).total
  {
    var lines := Snapshot(cart, orderId, itemIds);
    var p := BelongsTo(orderId);
    FilterConcat(orderItems, lines, p);
    FilterAll(lines, p);
    FilterNone(orderItems, p);
    SnapshotTotal(cart, orderId, itemIds);
    assert forall i :: 0 <= i < |lines| ==> p(lines[i]);
    assert Filter(lines, p) == lines;
    assert Filter(orderItems, p) == [];
    assert ItemsOf(orderItems + lines, orderId) == lines;
    assert SumOf(lines, ItemTotal) == cartTotal;
  }

  lemma {:induction false} FilterAll<T(!new)>(s: seq<T>, p: T -> bool)
    requires forall i :: 0 <= i < |s| ==> p(s[i])
    ensures Filter(s, p) == s
  {
    if s != [] {
      FilterAll(s[1..], p);
    }
  }

  lemma {:induction false} FilterNone<T(!new)>(s: seq<T>, p: T -> bool)
    requires forall i :: 0 <= i < |s| ==> !p(s[i])
    ensures Filter(s, p) == []
  {
    if s != [] {
      FilterNone(s[1..], p);
    }
  }

  // ---------------------------------------------------------------------
  // UpdateStatus

  /** `PUT api/order/{orderId}/status`: an unknown order answers NotFound and
      changes nothing; otherwise that order's status, and nothing else, is
      replaced by the given text. */
  method UpdateStatus(db: Db, orderId: Id, newStatus: string) returns (status: Status)
    requires db.Valid()
    modifies db
    ensures db.Valid()
    ensures db.carts == old(db.carts) && db.users == old(db.users) && db.products == old(db.products)
    ensures db.canOrders == old(db.canOrders) && db.invoices == old(db.invoices) && db.orderItems == old(db.orderItems)
    ensures FindOrder(old(db.orders), orderId).None? <==> status == NotFound
    ensures FindOrder(old(db.orders), orderId).None? ==> db.orders == old(db.orders)
    ensures FindOrder(old(db.orders), orderId).Some? ==>
      var k := FindOrder(old(db.orders), orderId).value;
      && status == Ok
      && db.orders == old(db.orders)[k := old(db.orders)[k].(status := newStatus)]
  {
    var found := FindOrder(db.orders, orderId);
    if found.None? {
      return NotFound;
    }
    var k := found.value;
    ghost var before := db.orders;
    db.orders := db.orders[k := db.orders[k].(status := newStatus)];
    SameOrderIds(before, db.orders, db.orderItems, db.invoices);
    status := Ok;
  }

  /** Orders with the same ids in the same places keep the keys. */
  lemma SameOrderIds(before: seq<Order>, after: seq<Order>, items: seq<OrderItem>, invoices: seq<Invoice>)
    requires |before| == |after|
    requires forall j :: 0 <= j < |before| ==> after[j].orderId == before[j].orderId
    requires OrderKeys(before, items, invoices)
    ensures OrderKeys(after, items, invoices)
  {
    forall i | 0 <= i < |items| ensures FindOrder(after, items[i].orderId).Some? {
      var k := FindOrder(before, items[i].orderId).value;
      assert after[k].orderId == items[i].orderId;
    }
    forall i | 0 <= i < |invoices| ensures FindOrder(after, invoices[i].orderId).Some? {
      var k := FindOrder(before, invoices[i].orderId).value;
      assert after[k].orderId == invoices[i].orderId;
    }
  }

  // ---------------------------------------------------------------------
  // DeleteOrder

  /** The order lines that survive the deletion of `orderId`. */
  function OtherItems(items: seq<OrderItem>, orderId: Id): seq<OrderItem>
  {
    Filter(items, (x: OrderItem) => x.orderId != orderId)
  }

  /** The invoices that survive the deletion of `orderId`. The required key
      from an invoice to its order has no delete behaviour of its own in
      SushiBE/Data/SushiDbContext.cs, so the convention for a required key
      applies: the database cascades the deletion to the order's invoices. */
  function OtherInvoices(invoices: seq<Invoice>, orderId: Id): seq<Invoice>
  {
    Filter(invoices, (x: Invoice) => x.orderId != orderId)
  }

  /** Deleting an order removes it, all of its lines and all of its invoices
      and nothing else: afterwards no order has its id, no line or invoice
      points at it, every other order, line and invoice is still there, in
      its order, and the keys still hold. */
  lemma DeleteEffect(orders: seq<Order>, items: seq<OrderItem>, invoices: seq<Invoice>, k: nat)
    requires UniqueOrderIds(orders) && ItemsHaveOrders(orders, items) && k < |orders|
    requires UniqueInvoiceIds(invoices) && InvoicesHaveOrders(orders, invoices)
    ensures var os := orders[..k] + orders[k + 1..];
      var rest := OtherItems(items, orders[k].orderId);
      var kept := OtherInvoices(invoices, orders[k].orderId);
      && FindOrder(os, orders[k].orderId).None?
      && (forall x :: x in rest <==> x in items && x.orderId != orders[k].orderId)
      && (forall x :: x in kept <==> x in invoices && x.orderId != orders[k].orderId)
      && (forall j :: 0 <= j < |orders| && j != k ==> orders[j] in os)
      && multiset(os) + multiset{orders[k]} == multiset(orders)
      && UniqueOrderIds(os) && ItemsHaveOrders(os, rest)
      && UniqueInvoiceIds(kept) && InvoicesHaveOrders(os, kept)
  {
    DeleteRemovesOrder(orders, k);
    DeleteKeepsItemOrders(orders, items, k);
    DeleteKeepsInvoiceOrders(orders, invoices, k);
    DeleteKeepsInvoiceIds(invoices, orders[k].orderId);
  }

  /** The remaining invoices keep distinct ids. */
  lemma DeleteKeepsInvoiceIds(invoices: seq<Invoice>, orderId: Id)
    requires UniqueInvoiceIds(invoices)
    ensures UniqueInvoiceIds(OtherInvoices(invoices, orderId))
  {
    var key := (x: Invoice) => x.invoiceId;
    assert UniqueKeys(invoices, key);
    FilterUniqueKeys(invoices, (x: Invoice) => x.orderId != orderId, key);
    assert UniqueKeys(OtherInvoices(invoices, orderId), key);
  }

  /** The keys of the store survive a deletion. */
  lemma DeleteKeepsKeys(orders: seq<Order>, items: seq<OrderItem>, invoices: seq<Invoice>, k: nat)
    requires OrderKeys(orders, items, invoices) && k < |orders|
    ensures OrderKeys(orders[..k] + orders[k + 1..], OtherItems(items, orders[k].orderId),
                      OtherInvoices(invoices, orders[k].orderId))
  {
    DeleteRemovesOrder(orders, k);
    DeleteKeepsItemOrders(orders, items, k);
    DeleteKeepsInvoiceOrders(orders, invoices, k);
    DeleteKeepsInvoiceIds(invoices, orders[k].orderId);
  }

  /** The remaining orders: all but the deleted one, none with its id. */
  lemma DeleteRemovesOrder(orders: seq<Order>, k: nat)
    requires UniqueOrderIds(orders) && k < |orders|
    ensures var os := orders[..k] + orders[k + 1..];
      && FindOrder(os, orders[k].orderId).None?
      && (forall j :: 0 <= j < |orders| && j != k ==> orders[j] in os)
      && multiset(os) + multiset{orders[k]} == multiset(orders)
      && UniqueOrderIds(os)
  {
    var os := orders[..k] + orders[k + 1..];
    forall j | 0 <= j < |os| ensures os[j].orderId != orders[k].orderId {
      RemoveAtIndex(orders, k, j);
    }
    forall i, j | 0 <= i < j < |os| ensures os[i].orderId != os[j].orderId {
      RemoveAtIndex(orders, k, i);
      RemoveAtIndex(orders, k, j);
    }
    RemoveAtKeeps(orders, k);
  }

  /** Every remaining line still points at a remaining order. */
  lemma DeleteKeepsItemOrders(orders: seq<Order>, items: seq<OrderItem>, k: nat)
    requires UniqueOrderIds(orders) && ItemsHaveOrders(orders, items) && k < |orders|
    ensures ItemsHaveOrders(orders[..k] + orders[k + 1..], OtherItems(items, orders[k].orderId))
  {
    var os := orders[..k] + orders[k + 1..];
    var rest := OtherItems(items, orders[k].orderId);
    forall i | 0 <= i < |rest| ensures FindOrder(os, rest[i].orderId).Some? {
      assert rest[i] in items;
      var n :| 0 <= n < |items| && items[n] == rest[i];
      var m := FindOrder(orders, items[n].orderId).value;
      assert m != k;
      var j := if m < k then m else m - 1;
      assert os[j] == orders[m];
    }
  }

  /** Every remaining invoice still points at a remaining order. */
  lemma DeleteKeepsInvoiceOrders(orders: seq<Order>, invoices: seq<Invoice>, k: nat)
    requires UniqueOrderIds(orders) && InvoicesHaveOrders(orders, invoices) && k < |orders|
    ensures InvoicesHaveOrders(orders[..k] + orders[k + 1..], OtherInvoices(invoices, orders[k].orderId))
  {
    var os := orders[..k] + orders[k + 1..];
    var kept := OtherInvoices(invoices, orders[k].orderId);
    forall i | 0 <= i < |kept| ensures FindOrder(os, kept[i].orderId).Some? {
      assert kept[i] in invoices;
      var n :| 0 <= n < |invoices| && invoices[n] == kept[i];
      var m := FindOrder(orders, invoices[n].orderId).value;
      assert m != k;
      var j := if m < k then m else m - 1;
      assert os[j] == orders[m];
    }
  }

  /** `DELETE api/order/{orderId}`: an unknown order answers NotFound and
      changes nothing; otherwise the order and its lines are removed, and
      the database's cascade removes the order's invoices with it. */
  method DeleteOrder(db: Db, orderId: Id) returns (status: Status)
    requires db.Valid()
    modifies db
    ensures db.Valid()
    ensures db.carts == old(db.carts) && db.users == old(db.users) && db.products == old(db.products)
    ensures db.canOrders == old(db.canOrders)
    ensures FindOrder(old(db.orders), orderId).None? <==> status == NotFound
    ensures FindOrder(old(db.orders), orderId).None? ==>
      db.orders == old(db.orders) && db.orderItems == old(db.orderItems) && db.invoices == old(db.invoices)
    ensures FindOrder(old(db.orders), orderId).Some? ==>
      var k := FindOrder(old(db.orders), orderId).value;
      && status == Ok
      && db.orders == old(db.orders)[..k] + old(db.orders)[k + 1..]
      && db.orderItems == OtherItems(old(db.orderItems), orderId)
      && db.invoices == OtherInvoices(old(db.invoices), orderId)
  {
    var found := FindOrder(db.orders, orderId);
    if found.None? {
      return NotFound;
    }
    RemoveOrderAt(db, found.value);
    status := Ok;
  }

  /** The writes of a deletion: the order at position `k`, its lines and its
      invoices leave the store. */
  method RemoveOrderAt(db: Db, k: nat)
    requires db.Valid() && k < |db.orders|
    modifies db
    ensures db.Valid()
    ensures db.carts == old(db.carts) && db.users == old(db.users) && db.products == old(db.products)
    ensures db.canOrders == old(db.canOrders)
    ensures db.orders == old(db.orders)[..k] + old(db.orders)[k + 1..]
    ensures db.orderItems == OtherItems(old(db.orderItems), old(db.orders)[k].orderId)
    ensures db.invoices == OtherInvoices(old(db.invoices), old(db.orders)[k].orderId)
  {
    var orderId := db.orders[k].orderId;
    DeleteKeepsKeys(db.orders, db.orderItems, db.invoices, k);
    db.orders, db.orderItems, db.invoices :=
      db.orders[..k] + db.orders[k + 1..], OtherItems(db.orderItems, orderId), OtherInvoices(db.invoices, orderId);
  }

  // ---------------------------------------------------------------------
  // RegenerateInvoicePdf

  /** `POST api/order/invoices/{invoiceId}/regenerate`: NotFound for an
      unknown invoice, with nothing changed; otherwise the stored URL and,
      prefixed with the request's `scheme://host`, its absolute form. A
      failed rendering escapes as a server error. */
  method RegenerateInvoicePdf(db: Db, invoiceId: Id, env: Env, origin: string)
    returns (status: Status, pdfUrl: Option<string>, absolute: Option<string>)
    modifies db
    ensures db.invoices == AfterPdf(old(db.invoices), invoiceId, env)
    ensures db.orders == old(db.orders) && db.orderItems == old(db.orderItems) && db.users == old(db.users)
    ensures db.carts == old(db.carts) && db.products == old(db.products) && db.canOrders == old(db.canOrders)
    ensures FindInvoice(old(db.invoices), invoiceId).None? <==> status == NotFound
    ensures status == NotFound ==> pdfUrl.None? && absolute.None? && db.invoices == old(db.invoices)
    ensures status == ServerError <==> FindInvoice(old(db.invoices), invoiceId).Some? && !env.renderOk
    ensures status == Ok ==>
      var k := FindInvoice(old(db.invoices), invoiceId).value;
      && pdfUrl == Some(PdfUrl(old(db.invoices)[k], env))
      && absolute == Some(origin + pdfUrl.value)
      && db.invoices[k].pdfUrl == pdfUrl
    ensures status == Ok || status == NotFound || status == ServerError
  {
    var r := GeneratePdfByInvoiceId(db, invoiceId, env);
    match r {
      case InvoiceMissing =>
        status, pdfUrl, absolute := NotFound, None, None;
      case RenderFailed =>
        status, pdfUrl, absolute := ServerError, None, None;
      case Rendered(url) =>
        status, pdfUrl := Ok, Some(url);
        absolute := if url == "" then None else Some(origin + url);
    }
  }
}
