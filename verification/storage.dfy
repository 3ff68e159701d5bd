/** The record store's write and lookup operations over an in-memory table:
    the rows in insertion order and the next value of the table's serial `id`.
    Each operation returns the new table and what the `returning()` clause (or
    the select) hands back. */
module Storage {
  import opened Wrappers
  import opened Seqs
  import opened Schema

  datatype Table<T> = Table(rows: seq<T>, nextId: int)

  /** Every serial id is one the sequence has already handed out. */
  predicate IdsBelow<T>(s: seq<T>, id: T -> int, next: int) {
    forall i :: 0 <= i < |s| ==> id(s[i]) < next
  }

  /** Appending a row with the next serial id keeps the ids distinct and issued. */
  lemma AppendFresh<T>(s: seq<T>, id: T -> int, next: int, x: T)
    ensures Distinct(s, id) && IdsBelow(s, id, next) && id(x) == next
            ==> Distinct(s + [x], id) && IdsBelow(s + [x], id, next + 1)
  {
  }

  /** Appending a row whose key no row has keeps the keys distinct. */
  lemma AppendNewKey<T, K>(s: seq<T>, key: T -> K, x: T)
    ensures Distinct(s, key) && (forall i :: 0 <= i < |s| ==> key(s[i]) != key(x))
            ==> Distinct(s + [x], key)
  {
  }

  // ---------------------------------------------------------------------------
  // Products
  // ---------------------------------------------------------------------------

  /** `createProduct`'s tags: an array is kept, a non-empty string becomes a
      one-element list, and a falsy value becomes the empty list. */
  function CreatedTags(t: TagsInput): (r: seq<string>)
    ensures t.TagsArray? ==> r == t.list
    ensures t.TagsText? && t.text != "" ==> r == [t.text]
    ensures !t.Truthy() ==> r == []
  {
    match t
    case TagsArray(list) => list
    case TagsText(text) => if text != "" then [text] else []
    case _ => []
  }

  /** `updateProduct`'s tags: the same normalisation, except that a falsy
      value means "leave the column alone". */
  function UpdatedTags(t: TagsInput): (r: Option<seq<string>>)
    ensures r.None? <==> !t.Truthy()
    ensures r.Some? ==> r.value == CreatedTags(t)
  {
    if t.Truthy() then Some(CreatedTags(t)) else None
  }

  /** Normalised tags are a fixed point: sending them back as an array keeps them. */
  lemma TagsNormalFixedPoint(t: TagsInput)
    ensures CreatedTags(TagsArray(CreatedTags(t))) == CreatedTags(t)
    ensures UpdatedTags(TagsArray(CreatedTags(t))) == Some(CreatedTags(t))
  {
  }

  /** The row `insert … values(productData)` stores, with the column defaults
      for the fields the payload leaves out. */
  function NewProduct(p: InsertProduct, id: int, now: int): (r: Product)
    ensures r.id == id && r.createdAt == now && r.name == p.name && r.price == p.price
    ensures p.inStock.Omitted? ==> r.inStock == Some(DefaultInStock)
    ensures p.featured.Omitted? ==> r.featured == Some(DefaultFeatured)
    ensures p.stockQuantity.Omitted? ==> r.stockQuantity == Some(DefaultStockQuantity)
    ensures p.rating.Omitted? ==> r.rating == Some(DefaultRating)
    ensures p.reviewCount.Omitted? ==> r.reviewCount == Some(DefaultReviewCount)
    ensures p.images.Omitted? ==> r.images == Some([])
    ensures r.tags.Some?
  {
    Product(
      id, p.name, p.nameBn.Stored(None), p.description.Stored(None), p.descriptionBn.Stored(None),
      p.price, p.originalPrice.Stored(None), p.categoryId.Stored(None),
      p.images.Stored(Some([])), p.inStock.Stored(Some(DefaultInStock)),
      p.stockQuantity.Stored(Some(DefaultStockQuantity)), p.rating.Stored(Some(DefaultRating)),
      p.reviewCount.Stored(Some(DefaultReviewCount)), Some(CreatedTags(p.tags)),
      p.featured.Stored(Some(DefaultFeatured)), now)
  }

  predicate ProductsOk(t: Table<Product>) {
    Distinct(t.rows, ProductRowId) && IdsBelow(t.rows, ProductRowId, t.nextId)
  }

  /** `createProduct`: appends the new row under a fresh id and returns it. */
  function CreateProduct(t: Table<Product>, p: InsertProduct, now: int): (r: (Table<Product>, Product))
    ensures r.0.rows == t.rows + [r.1] && r.0.nextId == t.nextId + 1
    ensures r.1.id == t.nextId && r.1.tags == Some(CreatedTags(p.tags))
    ensures ProductsOk(t) ==> ProductsOk(r.0) && forall i :: 0 <= i < |t.rows| ==> t.rows[i].id != r.1.id
  {
    var row := NewProduct(p, t.nextId, now);
    AppendFresh(t.rows, ProductRowId, t.nextId, row);
    (Table(t.rows + [row], t.nextId + 1), row)
  }

  /** `Partial<InsertProduct>`: a field left out is not updated, `null` clears
      a nullable column, and a value sets it. */
  datatype ProductPatch = ProductPatch(
    name: Option<string>,
    nameBn: Field<string>,
    description: Field<string>,
    descriptionBn: Field<string>,
    price: Option<int>,
    originalPrice: Field<int>,
    categoryId: Field<int>,
    images: Field<seq<string>>,
    inStock: Field<bool>,
    stockQuantity: Field<int>,
    rating: Field<int>,
    reviewCount: Field<int>,
    tags: TagsInput,
    featured: Field<bool>)

  /** A nullable column after an update: kept when the field is left out,
      cleared by `null`, and set by a value. */
  predicate Applied<T(==)>(f: Field<T>, before: Option<T>, after: Option<T>) {
    && (f.Omitted? ==> after == before)
    && (f.Null? ==> after.None?)
    && (f.Given? ==> after == Some(f.value))
  }

  /** The row after `set(updateData)`. */
  function Patched(p: Product, u: ProductPatch): (r: Product)
    ensures r.id == p.id && r.createdAt == p.createdAt
    ensures r.tags == (if u.tags.Truthy() then Some(CreatedTags(u.tags)) else p.tags)
    ensures u.name.None? ==> r.name == p.name
    ensures u.name.Some? ==> r.name == u.name.value
    ensures u.price.None? ==> r.price == p.price
    ensures u.price.Some? ==> r.price == u.price.value
    ensures Applied(u.nameBn, p.nameBn, r.nameBn)
    ensures Applied(u.description, p.description, r.description)
    ensures Applied(u.descriptionBn, p.descriptionBn, r.descriptionBn)
    ensures Applied(u.originalPrice, p.originalPrice, r.originalPrice)
    ensures Applied(u.categoryId, p.categoryId, r.categoryId)
    ensures Applied(u.images, p.images, r.images)
    ensures Applied(u.inStock, p.inStock, r.inStock)
    ensures Applied(u.stockQuantity, p.stockQuantity, r.stockQuantity)
    ensures Applied(u.rating, p.rating, r.rating)
    ensures Applied(u.reviewCount, p.reviewCount, r.reviewCount)
    ensures Applied(u.featured, p.featured, r.featured)
  {
    p.(name := u.name.GetOr(p.name),
       nameBn := u.nameBn.Stored(p.nameBn),
       description := u.description.Stored(p.description),
       descriptionBn := u.descriptionBn.Stored(p.descriptionBn),
       price := u.price.GetOr(p.price),
       originalPrice := u.originalPrice.Stored(p.originalPrice),
       categoryId := u.categoryId.Stored(p.categoryId),
       images := u.images.Stored(p.images),
       inStock := u.inStock.Stored(p.inStock),
       stockQuantity := u.stockQuantity.Stored(p.stockQuantity),
       rating := u.rating.Stored(p.rating),
       reviewCount := u.reviewCount.Stored(p.reviewCount),
       tags := if u.tags.Truthy() then Some(CreatedTags(u.tags)) else p.tags,
       featured := u.featured.Stored(p.featured))
  }

  /** A patch with no defined value: every field left out and falsy tags,
      which the update turns into `undefined`. The query builder's `set`
      drops undefined entries and throws when none is left. */
  predicate SetsNothing(u: ProductPatch) {
    && u.name.None? && u.nameBn.Omitted? && u.description.Omitted?
    && u.descriptionBn.Omitted? && u.price.None? && u.originalPrice.Omitted?
    && u.categoryId.Omitted? && u.images.Omitted? && u.inStock.Omitted?
    && u.stockQuantity.Omitted? && u.rating.Omitted? && u.reviewCount.Omitted?
    && !u.tags.Truthy() && u.featured.Omitted?
  }

  /** An update whose only field is falsy tags fails before any query runs,
      whether or not a row has the id. */
  lemma EmptyPatchFails(t: Table<Product>, id: int, tags: TagsInput)
    requires !tags.Truthy()
    ensures UpdateProduct(t, id, ProductPatch(None, Omitted, Omitted, Omitted, None, Omitted, Omitted,
                                              Omitted, Omitted, Omitted, Omitted, Omitted, tags, Omitted)).Failed?
  {
  }

  /** A patch that sets any column is applied, and then a missing id gives
      `None` rather than a failure. */
  lemma SettingPatchApplied(t: Table<Product>, id: int, u: ProductPatch)
    requires u.name.Some? || u.price.Some? || u.tags.Truthy()
    ensures UpdateProduct(t, id, u).Done?
    ensures (forall i :: 0 <= i < |t.rows| ==> t.rows[i].id != id) ==> UpdateProduct(t, id, u).value.1.None?
  {
  }

  /** `updateProduct`: patches the row with that id and returns it; `None`
      when no row has the id. Other rows are untouched. A patch that sets
      nothing fails. */
  function UpdateProduct(t: Table<Product>, id: int, u: ProductPatch): (r: Attempt<(Table<Product>, Option<Product>)>)
    ensures r.Failed? <==> SetsNothing(u)
    ensures r.Done? ==> |r.value.0.rows| == |t.rows| && r.value.0.nextId == t.nextId
    ensures r.Done? ==> forall i :: 0 <= i < |t.rows| && t.rows[i].id != id ==> r.value.0.rows[i] == t.rows[i]
    ensures r.Done? ==> forall i :: 0 <= i < |t.rows| && t.rows[i].id == id ==> r.value.0.rows[i] == Patched(t.rows[i], u)
    ensures r.Done? ==> (r.value.1.None? <==> forall i :: 0 <= i < |t.rows| ==> t.rows[i].id != id)
    ensures r.Done? && r.value.1.Some? ==> r.value.1.value in r.value.0.rows && r.value.1.value.id == id
    ensures r.Done? && ProductsOk(t) ==> ProductsOk(r.value.0)
  {
    if SetsNothing(u) then Failed
    else
      var rows := UpdateWhere(t.rows, ProductHasId(id), (p: Product) => Patched(p, u));
      UpdateKeepsKeys(t.rows, ProductHasId(id), (p: Product) => Patched(p, u), ProductRowId);
      Done((Table(rows, t.nextId), FirstWhere(rows, ProductHasId(id))))
  }

  // ---------------------------------------------------------------------------
  // Orders
  // ---------------------------------------------------------------------------

  /** `createOrder`'s items: a JSON array is kept, anything else becomes `[]`. */
  function StoredItems(items: ItemsInput): (r: seq<LineItem>)
    ensures items.ItemsArray? ==> r == items.list
    ensures items.ItemsOther? ==> r == []
  {
    match items
    case ItemsArray(list) => list
    case ItemsOther => []
  }

  /** The row an order insert stores: the given code, the normalised items,
      status `pending` and discount 0 unless the payload says otherwise, and
      both timestamps set to the insert time. */
  function NewOrder(orderId: string, d: OrderDraft, id: int, now: int): (r: Order)
    ensures r.id == id && r.orderId == orderId && r.createdAt == now && r.updatedAt == now
    ensures r.items == StoredItems(d.items)
    ensures d.status.None? ==> r.status == DefaultOrderStatus
    ensures d.discount.Omitted? ==> r.discount == Some(DefaultOrderDiscount)
    ensures r.subtotal == d.subtotal && r.deliveryFee == d.deliveryFee && r.total == d.total
  {
    Order(
      id, orderId, d.customerName, d.customerEmail.Stored(None), d.customerPhone.Stored(None),
      d.customerAddress.Stored(None), StoredItems(d.items), d.subtotal, d.deliveryFee,
      d.discount.Stored(Some(DefaultOrderDiscount)), d.total, d.paymentMethod, d.deliveryLocation,
      d.specialInstructions.Stored(None), d.promoCode.Stored(None),
      d.status.GetOr(DefaultOrderStatus), d.orderMethod, now, now)
  }

  function OrderRowId(o: Order): int { o.id }
  function OrderCodeOf(o: Order): string { o.orderId }

  /** Serial ids are distinct and issued, and order codes are unique. */
  predicate OrdersOk(t: Table<Order>) {
    Distinct(t.rows, OrderRowId) && IdsBelow(t.rows, OrderRowId, t.nextId) && Distinct(t.rows, OrderCodeOf)
  }

  /** `createOrder`: the insert fails on the unique `order_id` column when the
      code is taken, and on a money column when an amount overflows it;
      otherwise the row is appended under a fresh id. */
  function CreateOrder(t: Table<Order>, orderId: string, d: OrderDraft, now: int): (r: Attempt<(Table<Order>, Order)>)
    ensures r.Failed? <==> (exists i :: 0 <= i < |t.rows| && t.rows[i].orderId == orderId) || !AmountsFit(d)
    ensures r.Done? ==> r.value.0.rows == t.rows + [r.value.1] && r.value.1 == NewOrder(orderId, d, t.nextId, now)
    ensures r.Done? && OrdersOk(t) ==> OrdersOk(r.value.0)
  {
    if (exists i :: 0 <= i < |t.rows| && t.rows[i].orderId == orderId) || !AmountsFit(d) then Failed
    else
      var row := NewOrder(orderId, d, t.nextId, now);
      AppendFresh(t.rows, OrderRowId, t.nextId, row);
      AppendNewKey(t.rows, OrderCodeOf, row);
      Done((Table(t.rows + [row], t.nextId + 1), row))
  }

  /** `getOrderByOrderId`. */
  function GetOrderByCode(t: Table<Order>, code: string): (r: Option<Order>)
    ensures r.Some? ==> r.value in t.rows && r.value.orderId == code
    ensures r.None? <==> forall i :: 0 <= i < |t.rows| ==> t.rows[i].orderId != code
  {
    FirstWhere(t.rows, OrderHasCode(code))
  }

  function WithStatus(status: string, now: int): Order -> Order {
    (o: Order) => o.(status := status, updatedAt := now)
  }

  /** `updateOrderStatus`: on the row with that id only `status` and
      `updatedAt` change; every other row and field is kept. Returns the
      updated row, or `None` when no row has the id. */
  function UpdateOrderStatus(t: Table<Order>, id: int, status: string, now: int): (r: (Table<Order>, Option<Order>))
    ensures |r.0.rows| == |t.rows| && r.0.nextId == t.nextId
    ensures forall i :: 0 <= i < |t.rows| && t.rows[i].id != id ==> r.0.rows[i] == t.rows[i]
    ensures forall i :: 0 <= i < |t.rows| && t.rows[i].id == id ==>
              r.0.rows[i] == t.rows[i].(status := status, updatedAt := now)
    ensures r.1.None? <==> forall i :: 0 <= i < |t.rows| ==> t.rows[i].id != id
    ensures r.1.Some? ==> r.1.value in r.0.rows && r.1.value.id == id
                          && r.1.value.status == status && r.1.value.updatedAt == now
    ensures OrdersOk(t) ==> OrdersOk(r.0)
  {
    var rows := UpdateWhere(t.rows, OrderHasId(id), WithStatus(status, now));
    UpdateKeepsKeys(t.rows, OrderHasId(id), WithStatus(status, now), OrderRowId);
    UpdateKeepsKeys(t.rows, OrderHasId(id), WithStatus(status, now), OrderCodeOf);
    (Table(rows, t.nextId), FirstWhere(rows, OrderHasId(id)))
  }

  /** Tracking an order by its code after a status update shows the new status,
      and every other order reads as before. */
  lemma TrackAfterStatusUpdate(t: Table<Order>, id: int, status: string, now: int, code: string)
    ensures var before := GetOrderByCode(t, code);
            GetOrderByCode(UpdateOrderStatus(t, id, status, now).0, code)
            == if before.Some? && before.value.id == id
               then Some(before.value.(status := status, updatedAt := now))
               else before
  {
    FirstWhereAfterUpdate(t.rows, OrderHasId(id), WithStatus(status, now), OrderHasCode(code));
  }

  /** Setting the same status twice at the same time is the same as once. */
  lemma StatusUpdateIdempotent(t: Table<Order>, id: int, status: string, now: int)
    ensures var once := UpdateOrderStatus(t, id, status, now);
            UpdateOrderStatus(once.0, id, status, now) == once
  {
    var once := UpdateOrderStatus(t, id, status, now);
    var twice := UpdateOrderStatus(once.0, id, status, now);
    assert twice.0.rows == once.0.rows;
  }

  // ---------------------------------------------------------------------------
  // Reviews
  // ---------------------------------------------------------------------------

  function ReviewRowId(r: Review): int { r.id }

  predicate ReviewsOk(t: Table<Review>) {
    Distinct(t.rows, ReviewRowId) && IdsBelow(t.rows, ReviewRowId, t.nextId)
  }

  /** The listing's `where productId = p and approved = true`. */
  function ApprovedFor(productId: int): Review -> bool {
    (r: Review) => r.productId == Some(productId) && r.approved == Some(true)
  }

  /** `getReviewsByProductId`: exactly the approved reviews of the product,
      newest first. */
  function ListApprovedReviews(t: Table<Review>, productId: int): (r: seq<Review>)
    ensures forall x :: x in r <==> x in t.rows && x.productId == Some(productId) && x.approved == Some(true)
    ensures SortedDesc(r, ReviewCreatedAt)
    ensures forall x :: multiset(r)[x] == if x.productId == Some(productId) && x.approved == Some(true)
                                          then multiset(t.rows)[x] else 0
  {
    var kept := Filter(t.rows, ApprovedFor(productId));
    forall x
      ensures multiset(kept)[x] == if ApprovedFor(productId)(x) then multiset(t.rows)[x] else 0
    {
      FilterMultiset(t.rows, ApprovedFor(productId), x);
    }
    SortDesc(kept, ReviewCreatedAt)
  }

  /** The review row an insert stores from a payload, as the insert schema
      admits it: the payload may set `approved` itself. */
  function NewReview(p: InsertReview, id: int, now: int): (r: Review)
    ensures r.id == id && r.createdAt == now && r.rating == p.rating
    ensures p.approved.Omitted? ==> r.approved == Some(DefaultReviewApproved)
    ensures p.approved.Given? ==> r.approved == Some(p.approved.value)
  {
    Review(id, p.productId.Stored(None), p.customerName, p.customerEmail.Stored(None),
           p.rating, p.comment.Stored(None), p.approved.Stored(Some(DefaultReviewApproved)), now)
  }

  /** `createReview` as written: the payload is inserted as it is. */
  function CreateReview(t: Table<Review>, p: InsertReview, now: int): (r: (Table<Review>, Review))
    ensures r.0.rows == t.rows + [r.1] && r.1 == NewReview(p, t.nextId, now)
    ensures ReviewsOk(t) ==> ReviewsOk(r.0)
  {
    var row := NewReview(p, t.nextId, now);
    AppendFresh(t.rows, ReviewRowId, t.nextId, row);
    (Table(t.rows + [row], t.nextId + 1), row)
  }

  /** A review is stored unapproved whatever the payload says, so that only
      moderation can publish it. */
  function CreateModeratedReview(t: Table<Review>, p: InsertReview, now: int): (r: (Table<Review>, Review))
    ensures r.0.rows == t.rows + [r.1] && r.1.id == t.nextId && r.1.createdAt == now
    ensures r.1 == NewReview(p, t.nextId, now).(approved := Some(false))
    ensures r.1.approved == Some(DefaultReviewApproved)
    ensures ReviewsOk(t) ==> ReviewsOk(r.0)
  {
    CreateReview(t, p.(approved := Omitted), now)
  }

  /** `approveReview`: on the row with that id only `approved` changes, to true. */
  function ApproveReview(t: Table<Review>, id: int): (r: (Table<Review>, Option<Review>))
    ensures |r.0.rows| == |t.rows| && r.0.nextId == t.nextId
    ensures forall i :: 0 <= i < |t.rows| && t.rows[i].id != id ==> r.0.rows[i] == t.rows[i]
    ensures forall i :: 0 <= i < |t.rows| && t.rows[i].id == id ==> r.0.rows[i] == t.rows[i].(approved := Some(true))
    ensures r.1.None? <==> forall i :: 0 <= i < |t.rows| ==> t.rows[i].id != id
    ensures r.1.Some? ==> r.1.value in r.0.rows && r.1.value.id == id && r.1.value.approved == Some(true)
    ensures ReviewsOk(t) ==> ReviewsOk(r.0)
  {
    var approve := (x: Review) => x.(approved := Some(true));
    var rows := UpdateWhere(t.rows, ReviewHasId(id), approve);
    UpdateKeepsKeys(t.rows, ReviewHasId(id), approve, ReviewRowId);
    (Table(rows, t.nextId), FirstWhere(rows, ReviewHasId(id)))
  }

  /** A new review is hidden from every product's listing until it is approved:
      creating it leaves every listing as it was. */
  lemma ModeratedReviewHidden(t: Table<Review>, p: InsertReview, now: int, productId: int)
    ensures var created := CreateModeratedReview(t, p, now);
            created.1 !in ListApprovedReviews(created.0, productId)
            && ListApprovedReviews(created.0, productId) == ListApprovedReviews(t, productId)
  {
    var created := CreateModeratedReview(t, p, now);
    var keep := ApprovedFor(productId);
    assert !keep(created.1);
    FilterConcat(t.rows, [created.1], keep);
    assert Filter([created.1], keep) == [];
    assert Filter(created.0.rows, keep) == Filter(t.rows, keep);
  }

  /** Approving a new review makes it appear in its product's listing. */
  lemma ApprovedReviewListed(t: Table<Review>, p: InsertReview, now: int, productId: int)
    ensures var created := CreateModeratedReview(t, p, now);
            created.1.productId == Some(productId) ==>
              created.1.(approved := Some(true)) in ListApprovedReviews(ApproveReview(created.0, created.1.id).0, productId)
  {
    var created := CreateModeratedReview(t, p, now);
    var approved := ApproveReview(created.0, created.1.id).0;
    assert created.0.rows[|t.rows|] == created.1;
    assert approved.rows[|t.rows|] == created.1.(approved := Some(true));
  }

  // ---------------------------------------------------------------------------
  // Newsletter
  // ---------------------------------------------------------------------------

  function NewsletterRowId(n: Newsletter): int { n.id }
  function NewsletterEmail(n: Newsletter): string { n.email }

  /** Serial ids are distinct and issued, and each email has at most one row. */
  predicate NewsletterOk(t: Table<Newsletter>) {
    Distinct(t.rows, NewsletterRowId) && IdsBelow(t.rows, NewsletterRowId, t.nextId)
    && Distinct(t.rows, NewsletterEmail)
  }

  function OtherEmail(email: string): Newsletter -> bool {
    (n: Newsletter) => n.email != email
  }

  function Resubscribe(n: Newsletter): Newsletter {
    n.(subscribed := Some(true))
  }

  /** `subscribeNewsletter`: insert the email, or on a conflict with an
      existing row set that row's `subscribed` back to true. Returns the row. */
  function SubscribeNewsletter(t: Table<Newsletter>, email: string, now: int): (r: (Table<Newsletter>, Newsletter))
    ensures r.1.email == email && r.1.subscribed == Some(true) && r.1 in r.0.rows
    ensures forall i :: 0 <= i < |r.0.rows| && r.0.rows[i].email == email ==> r.0.rows[i].subscribed == Some(true)
    ensures Filter(r.0.rows, OtherEmail(email)) == Filter(t.rows, OtherEmail(email))
    ensures (exists i :: 0 <= i < |t.rows| && t.rows[i].email == email) ==> |r.0.rows| == |t.rows|
    ensures NewsletterOk(t) ==> NewsletterOk(r.0)
  {
    if exists i :: 0 <= i < |t.rows| && t.rows[i].email == email then ResubscribeRow(t, email)
    else InsertSubscriber(t, email, now)
  }

  /** The conflict branch: the existing row is set to subscribed. */
  function ResubscribeRow(t: Table<Newsletter>, email: string): (r: (Table<Newsletter>, Newsletter))
    requires exists i :: 0 <= i < |t.rows| && t.rows[i].email == email
    ensures r.1.email == email && r.1.subscribed == Some(true) && r.1 in r.0.rows
    ensures forall i :: 0 <= i < |r.0.rows| && r.0.rows[i].email == email ==> r.0.rows[i].subscribed == Some(true)
    ensures Filter(r.0.rows, OtherEmail(email)) == Filter(t.rows, OtherEmail(email))
    ensures |r.0.rows| == |t.rows| && r.0.nextId == t.nextId
    ensures NewsletterOk(t) ==> NewsletterOk(r.0)
  {
    var rows := UpdateWhere(t.rows, HasEmail(email), Resubscribe);
    ResubscribeKeepsKeys(t, email);
    ResubscribeLeavesOthers(t, email);
    ResubscribedFound(t, email);
    (Table(rows, t.nextId), FirstWhere(rows, HasEmail(email)).value)
  }

  /** After the update every row with the email is subscribed, and one is found. */
  lemma ResubscribedFound(t: Table<Newsletter>, email: string)
    requires exists i :: 0 <= i < |t.rows| && t.rows[i].email == email
    ensures var rows := UpdateWhere(t.rows, HasEmail(email), Resubscribe);
            && (forall i :: 0 <= i < |rows| && rows[i].email == email ==> rows[i].subscribed == Some(true))
            && FirstWhere(rows, HasEmail(email)).Some?
            && FirstWhere(rows, HasEmail(email)).value.email == email
            && FirstWhere(rows, HasEmail(email)).value.subscribed == Some(true)
  {
    var rows := UpdateWhere(t.rows, HasEmail(email), Resubscribe);
    var i :| 0 <= i < |t.rows| && t.rows[i].email == email;
    assert HasEmail(email)(rows[i]);
    var found := FirstWhere(rows, HasEmail(email));
    var k :| 0 <= k < |rows| && rows[k] == found.value;
    assert rows[k] == Resubscribe(t.rows[k]);
  }

  lemma ResubscribeKeepsKeys(t: Table<Newsletter>, email: string)
    ensures NewsletterOk(t) ==> NewsletterOk(Table(UpdateWhere(t.rows, HasEmail(email), Resubscribe), t.nextId))
  {
    UpdateKeepsKeys(t.rows, HasEmail(email), Resubscribe, NewsletterRowId);
    UpdateKeepsKeys(t.rows, HasEmail(email), Resubscribe, NewsletterEmail);
  }

  lemma ResubscribeLeavesOthers(t: Table<Newsletter>, email: string)
    ensures Filter(UpdateWhere(t.rows, HasEmail(email), Resubscribe), OtherEmail(email))
            == Filter(t.rows, OtherEmail(email))
  {
    FilterUpdateElsewhere(t.rows, HasEmail(email), Resubscribe, OtherEmail(email));
  }

  /** The insert branch: a new subscribed row under the next serial id. */
  function InsertSubscriber(t: Table<Newsletter>, email: string, now: int): (r: (Table<Newsletter>, Newsletter))
    requires forall i :: 0 <= i < |t.rows| ==> t.rows[i].email != email
    ensures r.1 == Newsletter(t.nextId, email, Some(DefaultSubscribed), now)
    ensures r.0.rows == t.rows + [r.1]
    ensures forall i :: 0 <= i < |r.0.rows| && r.0.rows[i].email == email ==> r.0.rows[i].subscribed == Some(true)
    ensures Filter(r.0.rows, OtherEmail(email)) == Filter(t.rows, OtherEmail(email))
    ensures NewsletterOk(t) ==> NewsletterOk(r.0)
  {
    var row := Newsletter(t.nextId, email, Some(DefaultSubscribed), now);
    FilterConcat(t.rows, [row], OtherEmail(email));
    assert Filter([row], OtherEmail(email)) == [];
    AppendFresh(t.rows, NewsletterRowId, t.nextId, row);
    AppendNewKey(t.rows, NewsletterEmail, row);
    (Table(t.rows + [row], t.nextId + 1), row)
  }

  /** After subscribing, the email has exactly one row, and it is subscribed. */
  lemma SubscribedExactlyOnce(t: Table<Newsletter>, email: string, now: int)
    requires NewsletterOk(t)
    ensures var t1 := SubscribeNewsletter(t, email, now).0;
            exists i :: 0 <= i < |t1.rows| && t1.rows[i].email == email && t1.rows[i].subscribed == Some(true)
              && forall j :: 0 <= j < |t1.rows| && t1.rows[j].email == email ==> j == i
  {
    var (t1, r) := SubscribeNewsletter(t, email, now);
    var i :| 0 <= i < |t1.rows| && t1.rows[i] == r;
    assert forall j :: 0 <= j < |t1.rows| && t1.rows[j].email == email ==> j == i by {
      forall j | 0 <= j < |t1.rows| && t1.rows[j].email == email
        ensures j == i
      {
        assert NewsletterEmail(t1.rows[j]) == NewsletterEmail(t1.rows[i]);
      }
    }
  }

  /** Subscribing an already subscribed email changes nothing. */
  lemma SubscribeIdempotent(t: Table<Newsletter>, email: string, now: int, later: int)
    ensures var once := SubscribeNewsletter(t, email, now);
            SubscribeNewsletter(once.0, email, later).0 == once.0
  {
    var once := SubscribeNewsletter(t, email, now);
    var k :| 0 <= k < |once.0.rows| && once.0.rows[k] == once.1;
    assert once.0.rows[k].email == email;
    var twice := ResubscribeRow(once.0, email);
    assert twice.0.rows == once.0.rows;
  }
}
