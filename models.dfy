/** The persisted entities other than the cart (SushiBE/Models). Every one of
    them is a record whose fields the controllers replace one at a time, so
    each is a datatype held in a sequence of the store. */
module Models {
  import opened Common

  datatype ProductImage = ProductImage(productImageId: Id, productId: Id, imageUrl: string)

  /** `ImageUrl` is a nullable string: `None` until an image is stored. */
  datatype Product = Product(
    productId: Id,
    name: string,
    description: string,
    price: Money,
    stock: int,
    imageUrl: Option<string>,
    disponible: bool,
    categoryId: Id,
    images: seq<ProductImage>)

  /** A line of an order: a snapshot of a cart line. */
  datatype OrderItem = OrderItem(orderItemId: Id, orderId: Id, productId: Id, quantity: int, price: Money)

  /** `Status` is free text; the controllers only ever write "Pending" or
      whatever an administrator sends. */
  datatype Order = Order(
    orderId: Id,
    customerId: Id,
    orderDate: Ticks,
    status: string,
    comments: string,
    totalAmount: Money)

  datatype Invoice = Invoice(
    invoiceId: Id,
    orderId: Id,
    customerId: Id,
    invoiceNumber: string,
    invoiceDate: Ticks,
    amount: Money,
    pdfUrl: Option<string>)

  /** The two concrete subclasses of the abstract `User`. */
  datatype UserKind = CustomerUser(address: string, phone: string) | AdminUser

  datatype User = User(
    userId: Id,
    name: string,
    email: string,
    passwordHash: string,
    isVerified: bool,
    verificationCode: Option<string>,
    verificationExpiry: Option<Ticks>,
    kind: UserKind)

  /** The ordering switch: a manual flag and two optional bounds. */
  datatype CanOrder = CanOrder(canOrderId: Id, isEnabled: bool, onDate: Option<Ticks>, offDate: Option<Ticks>)
}
