/** The database context (SushiBE/Data/SushiDbContext.cs): one sequence per
    table, and the unique indexes as the store's invariant. */
module Data {
  import opened Common
  import opened Models
  import opened Carts
  import opened Seqs

  predicate UniqueEmails(users: seq<User>)
  {
    forall i, j :: 0 <= i < j < |users| ==> users[i].email != users[j].email
  }

  predicate UniqueUserIds(users: seq<User>)
  {
    forall i, j :: 0 <= i < j < |users| ==> users[i].userId != users[j].userId
  }

  /** One cart per customer. Cart owners are constant, so this reads nothing. */
  predicate UniqueCartOwners(carts: seq<Cart>)
  {
    forall i, j :: 0 <= i < j < |carts| ==> carts[i].customerId != carts[j].customerId
  }

  predicate UniqueOrderIds(orders: seq<Order>)
  {
    forall i, j :: 0 <= i < j < |orders| ==> orders[i].orderId != orders[j].orderId
  }

  predicate UniqueInvoiceIds(invoices: seq<Invoice>)
  {
    forall i, j :: 0 <= i < j < |invoices| ==> invoices[i].invoiceId != invoices[j].invoiceId
  }

  predicate UniqueProductIds(products: seq<Product>)
  {
    forall i, j :: 0 <= i < j < |products| ==> products[i].productId != products[j].productId
  }

  /** The foreign key from order items to orders: every item belongs to a
      stored order. */
  predicate ItemsHaveOrders(orders: seq<Order>, orderItems: seq<OrderItem>)
  {
    forall i :: 0 <= i < |orderItems| ==> FindOrder(orders, orderItems[i].orderId).Some?
  }

  /** The required key from invoices to orders (SushiBE/Models/Invoice.cs):
      every invoice belongs to a stored order. */
  predicate InvoicesHaveOrders(orders: seq<Order>, invoices: seq<Invoice>)
  {
    forall i :: 0 <= i < |invoices| ==> FindOrder(orders, invoices[i].orderId).Some?
  }

  /** The keys of the order tables: unique order and invoice ids, and every
      order line and every invoice attached to a stored order. */
  predicate OrderKeys(orders: seq<Order>, orderItems: seq<OrderItem>, invoices: seq<Invoice>)
  {
    && UniqueOrderIds(orders) && UniqueInvoiceIds(invoices)
    && ItemsHaveOrders(orders, orderItems) && InvoicesHaveOrders(orders, invoices)
  }

  // ---------------------------------------------------------------------
  // Lookups (`FirstOrDefault` / `FindAsync`), as positions

  function FindCart(carts: seq<Cart>, customerId: Id): (r: Option<nat>)
    ensures r.Some? ==> r.value < |carts| && carts[r.value].customerId == customerId
    ensures r.Some? ==> forall j :: 0 <= j < r.value ==> carts[j].customerId != customerId
    ensures r.None? <==> forall j :: 0 <= j < |carts| ==> carts[j].customerId != customerId
  {
    FirstIndex(carts, (x: Cart) => x.customerId == customerId)
  }

  function FindOrder(orders: seq<Order>, orderId: Id): (r: Option<nat>)
    ensures r.Some? ==> r.value < |orders| && orders[r.value].orderId == orderId
    ensures r.Some? ==> forall j :: 0 <= j < r.value ==> orders[j].orderId != orderId
    ensures r.None? <==> forall j :: 0 <= j < |orders| ==> orders[j].orderId != orderId
  {
    FirstIndex(orders, (x: Order) => x.orderId == orderId)
  }

  function FindInvoice(invoices: seq<Invoice>, invoiceId: Id): (r: Option<nat>)
    ensures r.Some? ==> r.value < |invoices| && invoices[r.value].invoiceId == invoiceId
    ensures r.Some? ==> forall j :: 0 <= j < r.value ==> invoices[j].invoiceId != invoiceId
    ensures r.None? <==> forall j :: 0 <= j < |invoices| ==> invoices[j].invoiceId != invoiceId
  {
    FirstIndex(invoices, (x: Invoice) => x.invoiceId == invoiceId)
  }

  function FindProduct(products: seq<Product>, productId: Id): (r: Option<nat>)
    ensures r.Some? ==> r.value < |products| && products[r.value].productId == productId
    ensures r.Some? ==> forall j :: 0 <= j < r.value ==> products[j].productId != productId
    ensures r.None? <==> forall j :: 0 <= j < |products| ==> products[j].productId != productId
  {
    FirstIndex(products, (x: Product) => x.productId == productId)
  }

  function FindUserByEmail(users: seq<User>, email: string): (r: Option<nat>)
    ensures r.Some? ==> r.value < |users| && users[r.value].email == email
    ensures r.Some? ==> forall j :: 0 <= j < r.value ==> users[j].email != email
    ensures r.None? <==> forall j :: 0 <= j < |users| ==> users[j].email != email
  {
    FirstIndex(users, (x: User) => x.email == email)
  }

  function FindUserById(users: seq<User>, userId: Id): (r: Option<nat>)
    ensures r.Some? ==> r.value < |users| && users[r.value].userId == userId
    ensures r.Some? ==> forall j :: 0 <= j < r.value ==> users[j].userId != userId
    ensures r.None? <==> forall j :: 0 <= j < |users| ==> users[j].userId != userId
  {
    FirstIndex(users, (x: User) => x.userId == userId)
  }

  /** The store. Each controller action is one atomic update of it. */
  class Db {
    var canOrders: seq<CanOrder>
    var invoices: seq<Invoice>
    var users: seq<User>
    var products: seq<Product>
    var carts: seq<Cart>
    var orders: seq<Order>
    var orderItems: seq<OrderItem>

    /** The unique indexes of the schema, the primary keys, and the
        order-item and invoice foreign keys. */
    ghost predicate Valid()
      reads this
    {
      && UniqueEmails(users) && UniqueUserIds(users)
      && UniqueCartOwners(carts)
      && UniqueProductIds(products)
      && OrderKeys(orders, orderItems, invoices)
    }

    /** Every cart in the store keeps the cart invariant. */
    ghost predicate CartsValid()
      reads this, carts
    {
      forall c :: c in carts ==> c.Valid()
    }

    constructor ()
      ensures Valid() && CartsValid()
      ensures canOrders == [] && invoices == [] && users == [] && products == []
      ensures carts == [] && orders == [] && orderItems == []
    {
      canOrders, invoices, users, products := [], [], [], [];
      carts, orders, orderItems := [], [], [];
    }
  }
}
