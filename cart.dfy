/** The customer's cart (SushiBE/Models/Cart.cs, CartItem.cs) and the three
    line mutations of SushiBE/Controllers/CartController.cs. */
module Carts {
  import opened Common
  import opened Seqs

  /** A cart line: a product, the price it had when last added, a quantity. */
  datatype CartItem = CartItem(cartItemId: Id, productId: Id, price: Money, quantity: int)

  function LineTotal(i: CartItem): Money { i.price * i.quantity }

  /** `Items.Sum(i => i.Price * i.Quantity)`. */
  function Total(items: seq<CartItem>): Money { SumOf(items, LineTotal) }

  /** The unique index on (CartId, ProductId): one line per product. */
  predicate UniqueProducts(items: seq<CartItem>)
  {
    forall i, j :: 0 <= i < j < |items| ==> items[i].productId != items[j].productId
  }

  predicate PositiveQuantities(items: seq<CartItem>)
  {
    forall i :: 0 <= i < |items| ==> items[i].quantity >= 1
  }

  /** `Items.FirstOrDefault(i => i.ProductId == productId)`, as a position. */
  function FindLine(items: seq<CartItem>, productId: Id): (r: Option<nat>)
    ensures r.Some? ==> r.value < |items| && items[r.value].productId == productId
    ensures r.Some? ==> forall j :: 0 <= j < r.value ==> items[j].productId != productId
    ensures r.None? <==> forall j :: 0 <= j < |items| ==> items[j].productId != productId
  {
    if items == [] then None
    else if items[0].productId == productId then Some(0)
    else match FindLine(items[1..], productId)
      case None => None
      case Some(k) => Some(k + 1)
  }

  /** With one line per product, the line found is the only line of that product. */
  lemma FindLineUnique(items: seq<CartItem>, productId: Id, k: nat)
    requires UniqueProducts(items)
    requires k < |items| && items[k].productId == productId
    ensures FindLine(items, productId) == Some(k)
  {
  }

  // ---------------------------------------------------------------------
  // The three mutations as functions of the line list

  /** `AddItem`: the product's line gains exactly one unit and takes the
      current price, or a new one-unit line is appended. */
  function AddedItems(items: seq<CartItem>, productId: Id, price: Money, freshItemId: Id): seq<CartItem>
  {
    match FindLine(items, productId)
    case Some(k) => items[k := items[k].(quantity := items[k].quantity + 1, price := price)]
    case None => items + [CartItem(freshItemId, productId, price, 1)]
  }

  /** `RemoveItem`: the product's line loses one unit and disappears when that
      leaves nothing; a product with no line leaves the list as it is. */
  function RemovedOne(items: seq<CartItem>, productId: Id): seq<CartItem>
  {
    match FindLine(items, productId)
    case None => items
    case Some(k) =>
      if items[k].quantity - 1 <= 0 then items[..k] + items[k + 1..]
      else items[k := items[k].(quantity := items[k].quantity - 1)]
  }

  /** `RemoveProduct`: the product's whole line disappears. */
  function RemovedLine(items: seq<CartItem>, productId: Id): seq<CartItem>
  {
    match FindLine(items, productId)
    case None => items
    case Some(k) => items[..k] + items[k + 1..]
  }

  // ---------------------------------------------------------------------
  // What the mutations do

  /** Adding a product already in the cart raises that line by one, reprices
      it, and leaves every other line alone; the total moves by the
      difference of that line's totals. */
  lemma AddExisting(items: seq<CartItem>, productId: Id, price: Money, freshItemId: Id, k: nat)
    requires UniqueProducts(items)
    requires k < |items| && items[k].productId == productId
    ensures var r := AddedItems(items, productId, price, freshItemId);
      && |r| == |items|
      && r[k].productId == productId && r[k].cartItemId == items[k].cartItemId
      && r[k].quantity == items[k].quantity + 1 && r[k].price == price
      && (forall j :: 0 <= j < |items| && j != k ==> r[j] == items[j])
      && Total(r) == Total(items) - LineTotal(items[k]) + price * (items[k].quantity + 1)
  {
    FindLineUnique(items, productId, k);
    var line := items[k].(quantity := items[k].quantity + 1, price := price);
    SumOfUpdate(items, k, line, LineTotal);
  }

  /** Adding a product not yet in the cart appends exactly one line of one
      unit at the current price. */
  lemma AddNew(items: seq<CartItem>, productId: Id, price: Money, freshItemId: Id)
    requires FindLine(items, productId).None?
    ensures AddedItems(items, productId, price, freshItemId) == items + [CartItem(freshItemId, productId, price, 1)]
    ensures Total(AddedItems(items, productId, price, freshItemId)) == Total(items) + price
  {
    var line := CartItem(freshItemId, productId, price, 1);
    SumOfConcat(items, [line], LineTotal);
    assert [line][1..] == [];
  }

  /** Adding keeps one line per product and every quantity positive. */
  lemma AddKeepsInvariant(items: seq<CartItem>, productId: Id, price: Money, freshItemId: Id)
    requires UniqueProducts(items) && PositiveQuantities(items)
    ensures var r := AddedItems(items, productId, price, freshItemId);
      UniqueProducts(r) && PositiveQuantities(r)
  {
  }

  /** Removing one unit: the line disappears exactly when its quantity was
      one, otherwise it loses one unit; other lines are untouched, and the
      total drops by one unit price. */
  lemma RemoveOneEffect(items: seq<CartItem>, productId: Id, k: nat)
    requires UniqueProducts(items) && PositiveQuantities(items)
    requires k < |items| && items[k].productId == productId
    ensures var r := RemovedOne(items, productId);
      && (items[k].quantity == 1 ==> r == items[..k] + items[k + 1..])
      && (items[k].quantity > 1 ==>
            |r| == |items| && r[k] == items[k].(quantity := items[k].quantity - 1)
            && forall j :: 0 <= j < |items| && j != k ==> r[j] == items[j])
      && Total(r) == Total(items) - items[k].price
  {
    FindLineUnique(items, productId, k);
    if items[k].quantity == 1 {
      SumOfRemove(items, k, LineTotal);
    } else {
      SumOfUpdate(items, k, items[k].(quantity := items[k].quantity - 1), LineTotal);
    }
  }

  /** Removing one unit keeps one line per product and every quantity positive. */
  lemma RemoveOneKeepsInvariant(items: seq<CartItem>, productId: Id)
    requires UniqueProducts(items) && PositiveQuantities(items)
    ensures UniqueProducts(RemovedOne(items, productId)) && PositiveQuantities(RemovedOne(items, productId))
  {
    match FindLine(items, productId)
    case None =>
    case Some(k) =>
      if items[k].quantity - 1 <= 0 {
        RemoveAtKeepsInvariant(items, k);
      }
  }

  lemma RemoveAtKeepsInvariant(items: seq<CartItem>, k: nat)
    requires UniqueProducts(items) && PositiveQuantities(items) && k < |items|
    ensures UniqueProducts(items[..k] + items[k + 1..]) && PositiveQuantities(items[..k] + items[k + 1..])
  {
    var r := items[..k] + items[k + 1..];
    assert forall j :: 0 <= j < |r| ==> r[j] == items[if j < k then j else j + 1];
  }

  /** Removing a product's line drops exactly that line, whatever its
      quantity, so the product no longer appears and the total drops by the
      line's total. */
  lemma RemoveLineEffect(items: seq<CartItem>, productId: Id, k: nat)
    requires UniqueProducts(items) && PositiveQuantities(items)
    requires k < |items| && items[k].productId == productId
    ensures var r := RemovedLine(items, productId);
      && r == items[..k] + items[k + 1..]
      && FindLine(r, productId).None?
      && UniqueProducts(r) && PositiveQuantities(r)
      && Total(r) == Total(items) - LineTotal(items[k])
  {
    FindLineUnique(items, productId, k);
    SumOfRemove(items, k, LineTotal);
    RemoveAtKeepsInvariant(items, k);
    var r := items[..k] + items[k + 1..];
    forall j | 0 <= j < |r| ensures r[j].productId != productId {
      if j < k { assert r[j] == items[j]; } else { assert r[j] == items[j + 1]; }
    }
  }

  /** Adding a product that was not in the cart and then removing one unit of
      it gives back the original lines. */
  lemma AddThenRemoveRestores(items: seq<CartItem>, productId: Id, price: Money, freshItemId: Id)
    requires FindLine(items, productId).None?
    ensures RemovedOne(AddedItems(items, productId, price, freshItemId), productId) == items
  {
    var line := CartItem(freshItemId, productId, price, 1);
    AddNew(items, productId, price, freshItemId);
    FindAppended(items, line);
    assert (items + [line])[..|items|] == items;
  }

  /** A line appended for a product that has none is the line found for it. */
  lemma FindAppended(items: seq<CartItem>, line: CartItem)
    requires FindLine(items, line.productId).None?
    ensures FindLine(items + [line], line.productId) == Some(|items|)
  {
    var r := items + [line];
    assert r[|items|] == line;
    assert forall j :: 0 <= j < |items| ==> r[j] == items[j];
  }

  // ---------------------------------------------------------------------
  // The cart object

  /** A cart row with its lines. `Valid` is the invariant every controller
      action keeps: the stored total is the sum of the lines, there is one line
      per product, and no line has quantity below one. */
  class Cart {
    const cartId: Id
    const customerId: Id
    const createdAt: Ticks
    var items: seq<CartItem>
    var totalAmount: Money

    ghost predicate Valid()
      reads this
    {
      totalAmount == Total(items) && UniqueProducts(items) && PositiveQuantities(items)
    }

    /** A new, empty cart (created on login or on the first add). */
    constructor (cartId: Id, customerId: Id, createdAt: Ticks)
      ensures Valid()
      ensures this.cartId == cartId && this.customerId == customerId && this.createdAt == createdAt
      ensures items == [] && totalAmount == 0
    {
      this.cartId := cartId;
      this.customerId := customerId;
      this.createdAt := createdAt;
      items := [];
      totalAmount := 0;
    }

    /** One more unit of the product at its current price; the total is
      recomputed from the lines. */
    method AddItem(productId: Id, price: Money, freshItemId: Id)
      requires Valid()
      modifies this
      ensures Valid()
      ensures items == AddedItems(old(items), productId, price, freshItemId)
    {
      AddKeepsInvariant(items, productId, price, freshItemId);
      var found := FindLine(items, productId);
      match found {
        case Some(k) =>
          var existing := items[k];
          items := items[k := existing.(quantity := existing.quantity + 1, price := price)];
        case None =>
          items := items + [CartItem(freshItemId, productId, price, 1)];
      }
      totalAmount := Total(items);
    }

    /** One unit fewer of the product; `found` is false, and nothing changes,
      when the product has no line. */
    method RemoveItem(productId: Id) returns (found: bool)
      requires Valid()
      modifies this
      ensures Valid()
      ensures found == FindLine(old(items), productId).Some?
      ensures items == RemovedOne(old(items), productId)
      ensures !found ==> totalAmount == old(totalAmount)
    {
      RemoveOneKeepsInvariant(items, productId);
      var line := FindLine(items, productId);
      if line.None? {
        return false;
      }
      var k := line.value;
      var item := items[k];
      var quantity := item.quantity - 1;
      if quantity <= 0 {
        items := items[..k] + items[k + 1..];
      } else {
        items := items[k := item.(quantity := quantity)];
      }
      totalAmount := Total(items);
      found := true;
    }

    /** Drops the product's whole line; `found` is false, and nothing
      changes, when the product has no line. */
    method RemoveProduct(productId: Id) returns (found: bool)
      requires Valid()
      modifies this
      ensures Valid()
      ensures found == FindLine(old(items), productId).Some?
      ensures items == RemovedLine(old(items), productId)
      ensures !found ==> totalAmount == old(totalAmount)
    {
      var line := FindLine(items, productId);
      if line.None? {
        return false;
      }
      var k := line.value;
      RemoveAtKeepsInvariant(items, k);
      items := items[..k] + items[k + 1..];
      totalAmount := Total(items);
      found := true;
    }

    /** `Items.Clear()` and `TotalAmount = 0` after an order is confirmed. */
    method Clear()
      requires Valid()
      modifies this
      ensures Valid() && items == [] && totalAmount == 0
    {
      items := [];
      totalAmount := 0;
    }
  }
}
