/** The cart endpoints of SushiBE/Controllers/CartController.cs, as updates
    of the store. Each returns the HTTP result class; the cart DTO it also
    returns is a projection of the stored cart. */
module CartController {
  import opened Common
  import opened Models
  import opened Carts
  import opened Data

  /** The carts other than the customer's keep their lines and totals. */
  twostate predicate OtherCartsUnchanged(carts: seq<Cart>, customerId: Id)
    reads carts
  {
    forall c :: c in carts && c.customerId != customerId ==>
      c.items == old(c.items) && c.totalAmount == old(c.totalAmount)
  }

  /** `POST api/cart/{customerId}/items`: one more unit of a product.
      The cart is found or created first; an unknown product answers
      NotFound before anything is saved, so not even a new cart is kept. */
  method AddItem(db: Db, customerId: Id, productId: Id, freshCartId: Id, freshItemId: Id, now: Ticks)
    returns (status: Status)
    requires db.Valid() && db.CartsValid()
    modifies db, db.carts
    ensures db.Valid() && db.CartsValid()
    ensures db.products == old(db.products) && db.users == old(db.users) && db.orders == old(db.orders)
    ensures db.orderItems == old(db.orderItems) && db.invoices == old(db.invoices) && db.canOrders == old(db.canOrders)
    ensures OtherCartsUnchanged(old(db.carts), customerId)
    ensures FindProduct(db.products, productId).None? ==>
      && status == NotFound && db.carts == old(db.carts)
      && forall c :: c in db.carts ==> c.items == old(c.items) && c.totalAmount == old(c.totalAmount)
    ensures FindProduct(db.products, productId).Some? ==>
      var price := db.products[FindProduct(db.products, productId).value].price;
      && status == Ok
      && match FindCart(old(db.carts), customerId)
         case Some(k) =>
           && db.carts == old(db.carts)
           && db.carts[k].items == AddedItems(old(db.carts[k].items), productId, price, freshItemId)
         case None =>
           && |db.carts| == |old(db.carts)| + 1
           && db.carts[..|old(db.carts)|] == old(db.carts)
           && fresh(db.carts[|old(db.carts)|])
           && db.carts[|old(db.carts)|].customerId == customerId
           && db.carts[|old(db.carts)|].cartId == freshCartId
           && db.carts[|old(db.carts)|].items == [CartItem(freshItemId, productId, price, 1)]
           && db.carts[|old(db.carts)|].totalAmount == price
  {
    var found := FindCart(db.carts, customerId);
    var cart: Cart;
    if found.Some? {
      cart := db.carts[found.value];
    } else {
      cart := new Cart(freshCartId, customerId, now);
    }
    assert cart.Valid();
    var product := FindProduct(db.products, productId);
    if product.None? {
      return NotFound;
    }
    var price := db.products[product.value].price;
    cart.AddItem(productId, price, freshItemId);
    if found.None? {
      AddNew([], productId, price, freshItemId);
      db.carts := db.carts + [cart];
    }
    status := Ok;
  }

  /** `DELETE api/cart/{customerId}/items/{productId}`: one unit fewer.
      A missing cart or a product without a line answers NotFound. */
  method RemoveItem(db: Db, customerId: Id, productId: Id) returns (status: Status)
    requires db.Valid() && db.CartsValid()
    modifies db.carts
    ensures db.Valid() && db.CartsValid()
    ensures db.carts == old(db.carts)
    ensures OtherCartsUnchanged(db.carts, customerId)
    ensures FindCart(db.carts, customerId).None? ==> status == NotFound
    ensures FindCart(db.carts, customerId).Some? ==>
      var cart := db.carts[FindCart(db.carts, customerId).value];
      && (status == Ok <==> FindLine(old(cart.items), productId).Some?)
      && (status == Ok || status == NotFound)
      && cart.items == RemovedOne(old(cart.items), productId)
      && (status == NotFound ==> cart.totalAmount == old(cart.totalAmount))
  {
    var found := FindCart(db.carts, customerId);
    if found.None? {
      return NotFound;
    }
    var cart := db.carts[found.value];
    assert cart.Valid();
    var removed := cart.RemoveItem(productId);
    status := if removed then Ok else NotFound;
  }

  /** `DELETE api/cart/{customerId}/products/{productId}`: the whole line.
      A missing cart or a product without a line answers NotFound. */
  method RemoveProduct(db: Db, customerId: Id, productId: Id) returns (status: Status)
    requires db.Valid() && db.CartsValid()
    modifies db.carts
    ensures db.Valid() && db.CartsValid()
    ensures db.carts == old(db.carts)
    ensures OtherCartsUnchanged(db.carts, customerId)
    ensures FindCart(db.carts, customerId).None? ==> status == NotFound
    ensures FindCart(db.carts, customerId).Some? ==>
      var cart := db.carts[FindCart(db.carts, customerId).value];
      && (status == Ok <==> FindLine(old(cart.items), productId).Some?)
      && (status == Ok || status == NotFound)
      && cart.items == RemovedLine(old(cart.items), productId)
      && (status == NotFound ==> cart.totalAmount == old(cart.totalAmount))
  {
    var found := FindCart(db.carts, customerId);
    if found.None? {
      return NotFound;
    }
    var cart := db.carts[found.value];
    assert cart.Valid();
    var removed := cart.RemoveProduct(productId);
    status := if removed then Ok else NotFound;
  }
}
