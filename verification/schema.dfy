/** Record shapes of the shop's tables and the values the database fills in
    for columns an insert leaves out.

    Decimal columns are integers in minor units: `decimal(10,2)` prices,
    subtotals and discounts in hundredths, the `decimal(2,1)` rating in tenths.
    Timestamps are milliseconds since the epoch. A nullable column is an
    `Option`; a JSON column is a sequence. */
module Schema {
  import opened Wrappers

  datatype Category = Category(
    id: int,
    name: string,
    nameBn: string,
    slug: string,
    description: Option<string>,
    emoji: Option<string>,
    createdAt: int)

  /** Product variants (a JSON object of size/colour lists) are not part of this record. */
  datatype Product = Product(
    id: int,
    name: string,
    nameBn: Option<string>,
    description: Option<string>,
    descriptionBn: Option<string>,
    price: int,
    originalPrice: Option<int>,
    categoryId: Option<int>,
    images: Option<seq<string>>,
    inStock: Option<bool>,
    stockQuantity: Option<int>,
    rating: Option<int>,
    reviewCount: Option<int>,
    tags: Option<seq<string>>,
    featured: Option<bool>,
    createdAt: int)

  /** One line of an order: a snapshot of the product's name and price. */
  datatype LineItem = LineItem(productId: int, name: string, price: int, quantity: int)

  datatype Order = Order(
    id: int,
    orderId: string,
    customerName: string,
    customerEmail: Option<string>,
    customerPhone: Option<string>,
    customerAddress: Option<string>,
    items: seq<LineItem>,
    subtotal: int,
    deliveryFee: int,
    discount: Option<int>,
    total: int,
    paymentMethod: string,
    deliveryLocation: string,
    specialInstructions: Option<string>,
    promoCode: Option<string>,
    status: string,
    orderMethod: string,
    createdAt: int,
    updatedAt: int)

  /** `discount` is in hundredths (a percentage or a fixed amount, per `discountType`). */
  datatype Promo = Promo(
    id: int,
    code: string,
    discount: int,
    discountType: string,
    minAmount: Option<int>,
    maxDiscount: Option<int>,
    usageLimit: Option<int>,
    usageCount: Option<int>,
    active: Option<bool>,
    expiresAt: Option<int>,
    createdAt: int)

  datatype Review = Review(
    id: int,
    productId: Option<int>,
    customerName: string,
    customerEmail: Option<string>,
    rating: int,
    comment: Option<string>,
    approved: Option<bool>,
    createdAt: int)

  datatype Newsletter = Newsletter(id: int, email: string, subscribed: Option<bool>, createdAt: int)

  datatype BlogPost = BlogPost(
    id: int,
    title: string,
    titleBn: Option<string>,
    content: string,
    contentBn: Option<string>,
    slug: string,
    excerpt: Option<string>,
    excerptBn: Option<string>,
    image: Option<string>,
    published: Option<bool>,
    createdAt: int,
    updatedAt: int)

  // ---------------------------------------------------------------------------
  // Row selectors: the `where` clauses of single-row queries
  // ---------------------------------------------------------------------------

  function ProductHasId(id: int): Product -> bool {
    (p: Product) => p.id == id
  }

  function OrderHasId(id: int): Order -> bool {
    (o: Order) => o.id == id
  }

  function OrderHasCode(code: string): Order -> bool {
    (o: Order) => o.orderId == code
  }

  function PromoHasCode(code: string): Promo -> bool {
    (p: Promo) => p.code == code
  }

  function ReviewHasId(id: int): Review -> bool {
    (r: Review) => r.id == id
  }

  function HasEmail(email: string): Newsletter -> bool {
    (n: Newsletter) => n.email == email
  }

  function ProductRowId(p: Product): int { p.id }
  function ProductCreatedAt(p: Product): int { p.createdAt }
  function ReviewCreatedAt(r: Review): int { r.createdAt }

  /** The range of Postgres `integer` and `serial` columns: comparing one with a
      number outside it is an error, not a mismatch. */
  const Int4Min: int := -0x8000_0000
  const Int4Max: int := 0x7fff_ffff

  predicate FitsInt4(n: int) {
    Int4Min <= n <= Int4Max
  }

  /** The range of a `decimal(10,2)` column, in hundredths: at most eight
      digits before the point. Storing a larger amount is an overflow error. */
  const Decimal10x2Bound: int := 10_000_000_000

  predicate FitsDecimal10x2(v: int) {
    -Decimal10x2Bound < v < Decimal10x2Bound
  }

  /** The order's money columns can hold its amounts. */
  predicate AmountsFit(d: OrderDraft) {
    && FitsDecimal10x2(d.subtotal)
    && FitsDecimal10x2(d.deliveryFee)
    && (d.discount.Given? ==> FitsDecimal10x2(d.discount.value))
    && FitsDecimal10x2(d.total)
  }

  // ---------------------------------------------------------------------------
  // Column defaults
  // ---------------------------------------------------------------------------

  const DefaultOrderStatus: string := "pending"
  const DefaultOrderDiscount: int := 0
  const DefaultPromoUsageCount: int := 0
  const DefaultPromoActive: bool := true
  const DefaultPromoMinAmount: int := 0
  const DefaultReviewApproved: bool := false
  const DefaultSubscribed: bool := true
  const DefaultInStock: bool := true
  const DefaultFeatured: bool := false
  const DefaultStockQuantity: int := 0
  const DefaultRating: int := 0
  const DefaultReviewCount: int := 0

  // ---------------------------------------------------------------------------
  // Insert payloads: the columns a client may send. Every insert schema omits
  // `id` and the timestamps, which the database assigns.
  // ---------------------------------------------------------------------------

  /** The `tags` value a client sends: absent, null, a single string, or an array. */
  datatype TagsInput = TagsAbsent | TagsNull | TagsText(text: string) | TagsArray(list: seq<string>) {

    /** JavaScript truthiness: absent, null and the empty string are falsy. */
    predicate Truthy() {
      TagsArray? || (TagsText? && text != "")
    }
  }

  datatype InsertProduct = InsertProduct(
    name: string,
    nameBn: Field<string>,
    description: Field<string>,
    descriptionBn: Field<string>,
    price: int,
    originalPrice: Field<int>,
    categoryId: Field<int>,
    images: Field<seq<string>>,
    inStock: Field<bool>,
    stockQuantity: Field<int>,
    rating: Field<int>,
    reviewCount: Field<int>,
    tags: TagsInput,
    featured: Field<bool>)

  /** The `items` value of an order payload: a JSON array of line items, or any
      other JSON value. */
  datatype ItemsInput = ItemsArray(list: seq<LineItem>) | ItemsOther

  /** An order payload without its `orderId`, which the server generates. */
  datatype OrderDraft = OrderDraft(
    customerName: string,
    customerEmail: Field<string>,
    customerPhone: Field<string>,
    customerAddress: Field<string>,
    items: ItemsInput,
    subtotal: int,
    deliveryFee: int,
    discount: Field<int>,
    total: int,
    paymentMethod: string,
    deliveryLocation: string,
    specialInstructions: Field<string>,
    promoCode: Field<string>,
    status: Option<string>,
    orderMethod: string)

  datatype InsertReview = InsertReview(
    productId: Field<int>,
    customerName: string,
    customerEmail: Field<string>,
    rating: int,
    comment: Field<string>,
    approved: Field<bool>)
}
