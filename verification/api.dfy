/** The request handlers for categories, orders, reviews and the newsletter.
    A store that cannot be reached is `None`; the handlers that have no
    fallback answer it with their server-error message. */
module Api {
  import opened Wrappers
  import opened Seqs
  import opened Schema
  import opened Storage
  import opened OrderCode
  import opened Fallback

  /** `GET /api/categories`: the store's categories, or the fallback list when
      the store cannot be reached. The store's ordering by name is not modelled. */
  function ListCategories(store: Option<seq<Category>>, loadedAt: int): (r: seq<Category>)
    ensures store.Some? ==> r == store.value
    ensures store.None? ==> r == FallbackCategories(loadedAt)
    ensures store.None? ==> |r| == 11 && forall i :: 0 <= i < |r| ==> r[i].id == i + 1
  {
    if store.Some? then store.value else FallbackCategories(loadedAt)
  }

  // ---------------------------------------------------------------------------
  // Orders
  // ---------------------------------------------------------------------------

  /** An order request body whose fields other than `orderId` already satisfy
      the insert schema; `orderId` is whatever the client sent, if anything. */
  datatype OrderBody = OrderBody(orderId: Option<string>, draft: OrderDraft)

  const InvalidOrderData: string := "Invalid order data"
  const FailedToCreateOrder: string := "Failed to create order"

  /** Generate the code, insert the order, and answer `Created` with the row;
      a store that cannot be reached, a code already taken or an amount too
      large for its money column is a server error.
      `today` is the server's clock, `dbNow` the database's. */
  function InsertWithCode(draft: OrderDraft, store: Option<Table<Order>>, today: Instant, random: int, dbNow: int)
    : (r: (Reply<Order>, Option<Table<Order>>))
    requires today.Valid() && 0 <= random < 1000
    ensures r.0.Created? ==> r.0.body.orderId == GenerateOrderId(today, random)
                             && store.Some? && r.1 == Some(Table(store.value.rows + [r.0.body], store.value.nextId + 1))
    ensures r.0.Created? || r.0 == ServerError(FailedToCreateOrder)
    ensures !r.0.Created? ==> r.1 == store
  {
    if store.None? then (ServerError(FailedToCreateOrder), store)
    else
      match CreateOrder(store.value, GenerateOrderId(today, random), draft, dbNow)
      case Failed => (ServerError(FailedToCreateOrder), store)
      case Done((t, o)) => (Created(o), Some(t))
  }

  /** `POST /api/orders` as written: the insert schema still demands `orderId`
      (only `id` and the timestamps are omitted), so a body without one is
      rejected before the server generates the code it would have used. */
  function PlaceOrderAsWritten(body: OrderBody, store: Option<Table<Order>>, today: Instant, random: int, dbNow: int)
    : (r: (Reply<Order>, Option<Table<Order>>))
    requires today.Valid() && 0 <= random < 1000
    ensures body.orderId.None? ==> r == (BadRequest(InvalidOrderData), store)
    ensures body.orderId.Some? ==> r == InsertWithCode(body.draft, store, today, random, dbNow)
  {
    if body.orderId.None? then (BadRequest(InvalidOrderData), store)
    else InsertWithCode(body.draft, store, today, random, dbNow)
  }

  /** `POST /api/orders` with `orderId` left out of what the client must send:
      the order gets the generated code whatever the body says. */
  function PlaceOrder(body: OrderBody, store: Option<Table<Order>>, today: Instant, random: int, dbNow: int)
    : (r: (Reply<Order>, Option<Table<Order>>))
    requires today.Valid() && 0 <= random < 1000
    ensures r.0.Created? <==>
              && store.Some?
              && AmountsFit(body.draft)
              && forall i :: 0 <= i < |store.value.rows| ==> store.value.rows[i].orderId != GenerateOrderId(today, random)
    ensures r.0.Created? ==> r.0.body == NewOrder(GenerateOrderId(today, random), body.draft, store.value.nextId, dbNow)
    ensures !r.0.Created? ==> r == (ServerError(FailedToCreateOrder), store)
  {
    InsertWithCode(body.draft, store, today, random, dbNow)
  }

  /** The discrepancy: every body without an `orderId` is refused as written,
      although the server replaces the code anyway; the corrected handler
      creates the order (one whose amounts fit the money columns). A client-sent code never reaches the row. */
  lemma OrderIdDemandedButDiscarded(body: OrderBody, t: Table<Order>, today: Instant, random: int, dbNow: int)
    requires today.Valid() && 0 <= random < 1000
    requires forall i :: 0 <= i < |t.rows| ==> t.rows[i].orderId != GenerateOrderId(today, random)
    requires AmountsFit(body.draft)
    ensures body.orderId.None? ==> PlaceOrderAsWritten(body, Some(t), today, random, dbNow).0 == BadRequest(InvalidOrderData)
    ensures PlaceOrder(body, Some(t), today, random, dbNow).0.Created?
    ensures body.orderId.Some? ==>
              PlaceOrderAsWritten(body, Some(t), today, random, dbNow) == PlaceOrder(body, Some(t), today, random, dbNow)
    ensures PlaceOrder(body, Some(t), today, random, dbNow).0.body.orderId == GenerateOrderId(today, random)
  {
  }

  /** A new order starts `pending` with discount 0 unless the body sets them,
      and its stored code reads back as the day it was placed. */
  lemma PlacedOrderDefaults(body: OrderBody, t: Table<Order>, today: Instant, random: int, dbNow: int)
    requires today.Valid() && 0 <= random < 1000
    requires body.draft.status.None? && body.draft.discount.Omitted?
    ensures var r := PlaceOrder(body, Some(t), today, random, dbNow).0;
            r.Created? ==> r.body.status == DefaultOrderStatus && r.body.discount == Some(DefaultOrderDiscount)
                           && ParseOrderCode(r.body.orderId) == Some(CodeParts(today.year, today.month, today.day, random))
  {
    ParseGenerated(today, random);
  }

  const OrderNotFound: string := "Order not found"
  const FailedToTrackOrder: string := "Failed to track order"

  /** `GET /api/orders/track/:orderId`. */
  function TrackOrder(code: string, store: Option<Table<Order>>): (r: Reply<Order>)
    ensures store.None? <==> r == ServerError(FailedToTrackOrder)
    ensures r.Ok? ==> r.body.orderId == code && r.body in store.value.rows
    ensures r.NotFound? <==> store.Some? && forall i :: 0 <= i < |store.value.rows| ==> store.value.rows[i].orderId != code
    ensures r.Ok? || r.NotFound? || r.ServerError?
  {
    if store.None? then ServerError(FailedToTrackOrder)
    else
      var found := GetOrderByCode(store.value, code);
      if found.None? then NotFound(OrderNotFound) else Ok(found.value)
  }

  const StatusRequired: string := "Status is required"
  const FailedToUpdateStatus: string := "Failed to update order status"

  /** The store can compare the id with an `integer` or `serial` column: a
      NaN or a number outside the 32-bit range makes it reject the query. */
  predicate StoreTakesId(id: Num) {
    id.Finite? && FitsInt4(id.v)
  }

  /** `PATCH /api/orders/:id/status`. A missing or empty status is refused
      first; an id the store cannot compare makes it reject the query. An id
      that matches no row is answered with an empty body (`None`). */
  function PatchStatus(id: Num, status: Option<string>, store: Option<Table<Order>>, now: int)
    : (r: (Reply<Option<Order>>, Option<Table<Order>>))
    ensures status.None? || status == Some("") <==> r.0 == BadRequest(StatusRequired)
    ensures r.0 == ServerError(FailedToUpdateStatus) <==>
              status.Some? && status.value != "" && (store.None? || !StoreTakesId(id))
    ensures status.Some? && status.value != "" && store.Some? && StoreTakesId(id) ==> r.0.Ok?
    ensures r.0.Ok? ==> r.1 == Some(UpdateOrderStatus(store.value, id.v, status.value, now).0)
    ensures r.0.Ok? ==>
              (r.0.body.None? <==> forall i :: 0 <= i < |store.value.rows| ==> store.value.rows[i].id != id.v)
    ensures r.0.Ok? && r.0.body.Some? ==> r.0.body.value.status == status.value && r.0.body.value.id == id.v
    ensures !r.0.Ok? ==> r.1 == store
  {
    if status.None? || status.value == "" then (BadRequest(StatusRequired), store)
    else if store.None? || !StoreTakesId(id) then (ServerError(FailedToUpdateStatus), store)
    else
      var (t, row) := UpdateOrderStatus(store.value, id.v, status.value, now);
      (Ok(row), Some(t))
  }

  /** After a successful patch, tracking the order by its code shows the new status. */
  lemma PatchThenTrack(id: int, status: string, t: Table<Order>, now: int, code: string)
    requires status != "" && FitsInt4(id)
    requires exists i :: 0 <= i < |t.rows| && t.rows[i].orderId == code && t.rows[i].id == id
    requires OrdersOk(t)
    ensures var patched := PatchStatus(Finite(id), Some(status), Some(t), now).1;
            var tracked := TrackOrder(code, patched);
            tracked.Ok? && tracked.body.status == status && tracked.body.updatedAt == now
  {
    var i :| 0 <= i < |t.rows| && t.rows[i].orderId == code && t.rows[i].id == id;
    CodeFindsRow(t, code, i);
    var t' := UpdateOrderStatus(t, id, status, now).0;
    assert PatchStatus(Finite(id), Some(status), Some(t), now).1 == Some(t');
    TrackAfterStatusUpdate(t, id, status, now, code);
  }

  /** With unique codes, looking a code up finds the one row that has it. */
  lemma CodeFindsRow(t: Table<Order>, code: string, i: int)
    requires OrdersOk(t) && 0 <= i < |t.rows| && t.rows[i].orderId == code
    ensures GetOrderByCode(t, code) == Some(t.rows[i])
  {
    var before := GetOrderByCode(t, code);
    var k :| 0 <= k < |t.rows| && t.rows[k] == before.value;
    assert OrderCodeOf(t.rows[k]) == OrderCodeOf(t.rows[i]);
  }

  // ---------------------------------------------------------------------------
  // Reviews
  // ---------------------------------------------------------------------------

  const FailedToFetchReviews: string := "Failed to fetch reviews"
  const FailedToCreateReview: string := "Failed to create review"

  /** `GET /api/products/:id/reviews`: an id the store cannot compare makes it
      reject the query. */
  function ListReviews(productId: Num, store: Option<Table<Review>>): (r: Reply<seq<Review>>)
    ensures r.Ok? <==> store.Some? && StoreTakesId(productId)
    ensures !r.Ok? ==> r == ServerError(FailedToFetchReviews)
    ensures r.Ok? ==> forall x :: x in r.body <==>
              x in store.value.rows && x.productId == Some(productId.v) && x.approved == Some(true)
  {
    if store.None? || !StoreTakesId(productId) then ServerError(FailedToFetchReviews)
    else Ok(ListApprovedReviews(store.value, productId.v))
  }

  /** The review's `integer` columns hold its numbers; the insert fails otherwise. */
  predicate ReviewFits(p: InsertReview) {
    (p.productId.Given? ==> FitsInt4(p.productId.value)) && FitsInt4(p.rating)
  }

  /** `POST /api/reviews` as written: the payload's own `approved` is stored. */
  function PostReviewAsWritten(p: InsertReview, store: Option<Table<Review>>, now: int)
    : (r: (Reply<Review>, Option<Table<Review>>))
    ensures store.None? || !ReviewFits(p) <==> r.0 == ServerError(FailedToCreateReview)
    ensures store.Some? && ReviewFits(p) ==> r.0.Created?
    ensures r.0.Created? ==> r.0.body == NewReview(p, store.value.nextId, now)
                             && r.1 == Some(CreateReview(store.value, p, now).0)
    ensures !r.0.Created? ==> r.1 == store
  {
    if store.None? || !ReviewFits(p) then (ServerError(FailedToCreateReview), store)
    else
      var (t, row) := CreateReview(store.value, p, now);
      (Created(row), Some(t))
  }

  /** `POST /api/reviews` with moderation kept: every new review starts unapproved. */
  function PostReview(p: InsertReview, store: Option<Table<Review>>, now: int)
    : (r: (Reply<Review>, Option<Table<Review>>))
    ensures store.None? || !ReviewFits(p) <==> r.0 == ServerError(FailedToCreateReview)
    ensures store.Some? && ReviewFits(p) ==> r.0.Created?
    ensures r.0.Created? ==> r.0.body.approved == Some(false) && r.0.body.rating == p.rating
                             && r.1 == Some(CreateModeratedReview(store.value, p, now).0)
    ensures !r.0.Created? ==> r.1 == store
  {
    if store.None? || !ReviewFits(p) then (ServerError(FailedToCreateReview), store)
    else
      var (t, row) := CreateModeratedReview(store.value, p, now);
      (Created(row), Some(t))
  }

  /** The discrepancy: a client that sends `approved: true` publishes its own
      review at once, bypassing `approveReview`. */
  lemma ReviewSelfApproval(p: InsertReview, t: Table<Review>, now: int, productId: int)
    requires p.approved == Given(true) && p.productId == Given(productId)
    requires FitsInt4(productId) && FitsInt4(p.rating)
    ensures var posted := PostReviewAsWritten(p, Some(t), now);
            posted.0.Created? && posted.1.Some?
            && posted.0.body in ListReviews(Finite(productId), posted.1).body
  {
    var posted := PostReviewAsWritten(p, Some(t), now);
    assert posted.1.value.rows == t.rows + [posted.0.body];
  }

  /** With moderation kept, a posted review never shows in any product's
      listing until it is approved, and the listings do not change. */
  lemma PostedReviewHidden(p: InsertReview, t: Table<Review>, now: int, productId: int)
    requires FitsInt4(productId)
    ensures var posted := PostReview(p, Some(t), now);
            posted.1.Some?
            && (posted.0.Created? ==> posted.0.body !in ListReviews(Finite(productId), posted.1).body)
            && ListReviews(Finite(productId), posted.1) == ListReviews(Finite(productId), Some(t))
  {
    if ReviewFits(p) {
      ModeratedReviewHidden(t, p, now, productId);
      var created := CreateModeratedReview(t, p, now);
      assert PostReview(p, Some(t), now) == (Created(created.1), Some(created.0));
    }
  }

  // ---------------------------------------------------------------------------
  // Newsletter
  // ---------------------------------------------------------------------------

  const FailedToSubscribe: string := "Failed to subscribe to newsletter"

  /** `POST /api/newsletter/subscribe`: `Created` with the subscription row,
      whether the email was new or already known. */
  function Subscribe(email: string, store: Option<Table<Newsletter>>, now: int)
    : (r: (Reply<Newsletter>, Option<Table<Newsletter>>))
    ensures store.None? <==> r.0 == ServerError(FailedToSubscribe)
    ensures store.Some? ==> r.0.Created? && r.1 == Some(SubscribeNewsletter(store.value, email, now).0)
    ensures r.0.Created? ==> r.0.body.email == email && r.0.body.subscribed == Some(true)
                             && r.1.Some? && r.0.body in r.1.value.rows
    ensures r.0.Created? ==>
              Filter(r.1.value.rows, OtherEmail(email)) == Filter(store.value.rows, OtherEmail(email))
    ensures r.0.Created? || r.0.ServerError?
    ensures !r.0.Created? ==> r.1 == store
  {
    if store.None? then (ServerError(FailedToSubscribe), store)
    else
      var (t, row) := SubscribeNewsletter(store.value, email, now);
      (Created(row), Some(t))
  }
}
