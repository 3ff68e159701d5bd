# TryNex shop backend: a Dafny model of its pure rules

The TryNex backend is an Express server over a Postgres store. This model
keeps its request handlers and record-store operations. The database and the
HTTP transport are replaced by values:

- a table is a sequence of rows plus the next serial id;
- a store that cannot be reached is `None`;
- a handler's answer is a `Reply` (`Ok`, `Created`, `BadRequest`, `NotFound`,
  `ServerError`) that carries the handler's own error message.

The model covers five parts:

- **Product listing.** The query string is coerced into a typed filter
  (`Query`). Then either the store runs one SQL query (AND of the active
  conditions, newest first, OFFSET/LIMIT only when truthy), or, when the store
  fails, the handler filters the fixed fallback products in memory and slices
  the result (`Catalog`). Each path is modelled as written. `Catalog.PathsAgree`
  proves that they return the same page under explicit hypotheses:
  - the rows are already newest first;
  - every row has the requested stock flag;
  - the limit is positive and the offset is not negative;
  - the category id fits the 32-bit `integer` column;
  - the upper price bound is not NaN;
  - any search is over lower-case text, and the search text has no `%`, `_`
    or `\`, which the store's `LIKE` reads as pattern characters (`Like`).
- **Promo validation.** The fixed-order chain is: not found, inactive,
  expired, usage limit reached, applicable. It is run on the store's or the
  fallback's promo (`Promos`).
- **Order codes.** Codes have the form `TXR-YYYYMMDD-NNN`. They are built from
  the UTC date and a random number in 0..999, and they parse back to both
  (`OrderCode`).
- **Record-store operations.** Product, order, review and newsletter tables
  (`Storage`), and the handlers that use them (`Api`). This includes the
  normalisation of tags and line items and the column defaults of the schema
  (`Schema`).
- **Fixed fallback data.** The fallback data is written out as constants
  (`Fallback`). Lemmas state what the listing, search and promo handlers give on
  it (`FallbackFacts`, `FallbackSearch`).

Units and conventions:

- Prices and other `decimal(10,2)` columns are integers in hundredths.
- Ratings are in tenths.
- Times are milliseconds since the epoch.
- A JavaScript number from `parseInt`/`parseFloat` is `Num`: an integer or NaN.
  The two parsers are parameters.
- Upper- and lower-casing are modelled on ASCII letters.

Sharp edges of the code that the model keeps:

- An absent `featured` coerces to `false`, not to "no constraint" (see
  `FallbackFacts.DefaultListing`).
- The fallback path neither sorts nor looks at `inStock`.
- A usage limit of 0 is no cap, because the check tests the limit for
  truthiness, not presence (see `Promos.ZeroLimitIsNoCap`).

## Model

| member | source | states |
|---|---|---|
| Query.Coerce | server/routes.ts:35-44 | `featured` is always set, and true exactly for the text "true". `inStock` is false only for the text "false". The category and price bounds are set exactly when their text is non-empty, to the parsed text. The search text passes through unchanged. A given limit or offset is the parsed text; an absent limit reads as 20 and an absent offset as 0. |
| Query.FeaturedNeverUnset | server/routes.ts:40 | A coerced filter never leaves `featured` unset; without the parameter it is `false`. |
| Query.InStockUnlessFalse | server/routes.ts:41 | A coerced `inStock` is true unless the text is exactly "false"; it is true when the parameter is absent. |
| Catalog.FilterIfStep | server/routes.ts:56-78 | One more conditional filter applied to a filtered list is a single filter by the conjunction of the tests. |
| Catalog.FallbackFiltered | server/routes.ts:54-78 | The five successive fallback filters keep an order-preserving subsequence of the input. A product is kept iff it is in the input and passes every active test: category (only for a truthy id), case-insensitive search in name or description, featured equality, and inclusive price bounds. |
| Catalog.FallbackFilteredIsOneFilter | server/routes.ts:54-78 | Applying the five filters one after another is the same as one filter by their conjunction. |
| Catalog.FallbackList | server/routes.ts:80-85 | Every product on the fallback page is an input product that passes every active test. |
| Catalog.FallbackPage | server/routes.ts:81-83 | For a non-negative start `s` (the offset, or 0 when falsy) and size `l` (the limit, or 20 when falsy), the page is `filtered[s..s+l]` clipped to the length. It therefore holds at most `l` products. A missing, NaN or zero limit means 20. |
| Catalog.FallbackPageFromEnd | server/routes.ts:81-83 | For a negative start the page counts from the end of the kept rows: it begins `-start` rows before the end (or at the first row), ends where `start + size` points (from the end if that is negative), is empty when the end comes first, holds at most `size` products, and is the last `-start` rows when the window reaches the end. |
| Catalog.OffsetLimit | server/storage.ts:150-156 | The OFFSET/LIMIT window contains only rows of the input and at most `limit` of them; with no offset and no limit it is the input. |
| Catalog.OffsetLimitSorted | server/storage.ts:148-156 | A window of a newest-first sequence is newest first. |
| Catalog.StoreListProducts | server/storage.ts:101-159 | The store query fails exactly for a truthy negative limit or offset, or a truthy category id outside the 32-bit `integer` range. Otherwise every returned row is a stored row satisfying the AND of all supplied conditions (the search as an unescaped `LIKE`), and rows come newest first. A truthy limit bounds the count. With limit and offset both falsy, the result is a permutation of all matching rows. |
| Catalog.TestsAgree | server/storage.ts:113-146 | Under the comparability hypotheses, including a search text free of `LIKE` pattern characters, the fallback's test and the store's conditions accept the same rows. |
| Catalog.SameRowsKept | server/storage.ts:113-146 | Under the comparability hypotheses, both paths keep the same rows in the same order. |
| Catalog.StoreSideIsWindow | server/storage.ts:148-156 | On rows already newest first, with a query the store accepts, the store's result is the OFFSET/LIMIT window of the matching rows in table order. |
| Catalog.FallbackSideIsSlice | server/routes.ts:80-83 | With a positive limit, the fallback page is `slice(offset, offset + limit)` of the kept rows. |
| Catalog.FallbackSideIsWindow | server/routes.ts:80-83 | With a positive limit and an accepted offset, the fallback page is the same OFFSET/LIMIT window the store takes. |
| Catalog.WindowIsSlice | server/storage.ts:150-156 | OFFSET `s` then LIMIT `l` (with `l > 0`) equals the JavaScript `slice(s, s + l)`. |
| Like.Escape | server/storage.ts:130-131 | Escaping never shortens text, and leaves text without `%`, `_` or `\` as it is. |
| Like.EscapedTokens | server/storage.ts:130-131 | Escaped text parses into one literal token per character, whatever follows it. |
| Like.AnyThen | server/storage.ts:130-131 | A pattern starting with `%` matches a text iff the rest matches some suffix of it. |
| Like.AnyMatchesAll | server/storage.ts:130-131 | The pattern `%` matches every text. |
| Like.LitsThenAny | server/storage.ts:130-131 | Literal characters followed by `%` match exactly the texts that start with them. |
| Like.SurroundedLits | server/storage.ts:130-131 | `%`, literal characters, `%` matches exactly the texts that contain them. |
| Like.EscapedLikeIsContains | server/storage.ts:130-131 | With the search text escaped, `LIKE '%text%'` holds exactly when the text occurs in the column. |
| Like.PlainLikeIsContains | server/storage.ts:130-131 | For a search text without `%`, `_` or `\`, the unescaped `LIKE` is exactly a substring test. |
| Like.UnderscoreMatchesAnyChar | server/storage.ts:130-131 | The unescaped search for `_` matches every non-empty column value, including ones without an underscore. |
| Catalog.PathsAgree | server/routes.ts:46-85 | Under explicit hypotheses (sorted input, uniform stock flag, positive limit, non-negative offset, category id within 32 bits, non-NaN upper bound, lower-case search text without `%`, `_` or `\`), the store query succeeds and returns exactly the fallback page. |
| Catalog.FallbackSearchSafe | server/routes.ts:60-65 | Every fallback product has a description, so the fallback search never lower-cases a missing one. |
| Catalog.ListProducts | server/routes.ts:23-86 | When the store answers, the listing is exactly the store query's result for the coerced filter, so every listed product is a stored row meeting its conditions. Otherwise every listed product is a fallback product that passes the fallback's tests. |
| Catalog.ListFiltered | server/routes.ts:46-85 | When the store answers, the listing is exactly the store query's page. Otherwise the answer is the fallback page; an unreachable store always gives the fallback page. |
| Catalog.FallbackListing | server/routes.ts:53-85 | The fallback page holds only fallback products that pass every active test. |
| Catalog.FindProduct | server/storage.ts:161-164 | The lookup returns a stored product with the id, and `None` exactly when no row has it. |
| Catalog.GetProduct | server/routes.ts:89-122 | A NaN id is a bad request on both paths, and only a NaN id is. A found product has the id and comes from the store, or from the fallback data when the store is down. With the store up and a 32-bit id, "not found" means no stored row has the id; with the store down, it means no fallback product has it. An id outside 32 bits makes the store throw and is never found among the fallback products. |
| Catalog.FallbackIdsFit | server/data/fallback.ts:16-112 | Every fallback product's id lies within the 32-bit `integer` range. |
| Promos.CheckPromo | server/routes.ts:184-198 | Each verdict is described exactly by a condition. Not found iff there is no promo. Inactive iff `active` is not true. Expired iff active and `now > expiresAt`. Limit reached iff active, not expired, with a non-zero limit and `usageCount ?? 0` at or above it. Applicable iff none of these. |
| Promos.ValidAtExpiryInstant | server/routes.ts:192 | A promo is still applicable at its exact expiry instant and expired one millisecond later. |
| Promos.ZeroLimitIsNoCap | server/routes.ts:196 | A usage limit of 0 never blocks a promo, whatever its usage count. |
| Promos.FailureOrder | server/routes.ts:188-197 | A promo that is both expired and over its limit is reported expired, or inactive if it is inactive. |
| Promos.FindPromo | server/routes.ts:206 | The lookup returns a promo with exactly that code, and `None` iff none has it. |
| Promos.GetPromoByCode | server/storage.ts:238-241 | The store lookup matches the upper-cased code, and returns `None` iff no row has it. |
| Promos.LookupIgnoresCallerCase | server/routes.ts:181-182 | Upper-casing before the store lookup does not change which promo is found. |
| Promos.VerdictReply | server/routes.ts:184-200 | Only an applicable verdict answers `Ok`, with the promo. "Not found" answers `NotFound` with "Promo code not found", and each failed rule answers `BadRequest` with its own message: not active, expired, usage limit reached. |
| Promos.ValidatePromo | server/routes.ts:179-226 | The promos searched are the store's, or the fallback's when it is down. The answer is "not found" exactly when none has the upper-cased code. It is `Ok` exactly when the promo found is active, unexpired and under its limit, and then it is that promo. Otherwise it is the message of the first failed rule. |
| Promos.BranchesAgree | server/routes.ts:205-224 | The store branch and the fallback branch give the same answer for the same promos and time. |
| Text.UpperIsUpper | server/storage.ts:239 | Upper-casing yields upper-case text and is idempotent. |
| Text.ContainsIff | server/routes.ts:63-64 | `includes` holds iff the needle occurs at some position of the text. |
| Text.PadStart | server/storage.ts:229 | `padStart(w, c)` keeps the text as a suffix, pads only with `c`, and yields length `max(len, w)`. |
| Text.PadDecimalIsFixed | server/storage.ts:229 | A number below `10^w`, in decimal padded with zeros to `w`, is its `w`-digit fixed-width form. |
| Text.ParseFixedDigits | server/storage.ts:229 | The fixed-width digits of a number below `10^w` read back as the number. |
| OrderCode.TakeUntil | server/storage.ts:228 | `split(sep)[0]` is a prefix without `sep`, and it stops at the first `sep` if there is one. |
| OrderCode.RemoveDashes | server/storage.ts:228 | Removing dashes leaves no dash and keeps every other character, in order and as often as it occurs. |
| OrderCode.TakeUntilFirst | server/storage.ts:228 | Splitting `a + sep + b` at a separator absent from `a` gives `a`. |
| OrderCode.DatePartOfIso | server/storage.ts:228 | The date part of the ISO string, dashes removed, is the eight digits `YYYYMMDD`. |
| OrderCode.GenerateOrderId | server/storage.ts:226-231 | The code is "TXR-", the eight UTC date digits, "-", and the number as three zero-padded digits: 16 characters. |
| OrderCode.ParseOrderCode | server/storage.ts:230 | Reading a code back succeeds exactly for text of the form `TXR-dddddddd-ddd`, with a year below 10000 and a number below 1000. |
| OrderCode.ParseGenerated | server/storage.ts:226-231 | Every generated code is well formed and reads back as the date and the random number it was made from. |
| OrderCode.SameCodeIff | server/storage.ts:226-231 | Two orders get the same code exactly when they fall on the same UTC day and draw the same number; the time of day plays no part. |
| Seqs.Filter | server/routes.ts:57 | `filter` keeps exactly the elements that pass the test, and never adds any. |
| Seqs.SortDesc | server/storage.ts:148 | Ordering by a key descending yields a permutation of the input, sorted newest first. |
| Seqs.FirstWhere | server/storage.ts:203-206 | `[row] = select … where` gives the first matching row, or `None` iff no row matches. |
| Seqs.UpdateWhere | server/storage.ts:217-224 | `update … where` changes exactly the matching rows and keeps the others and the row count. |
| Storage.AppendFresh | shared/schema.ts:113-120 | Appending a row under the next serial id keeps ids distinct and below the next value. |
| Storage.CreatedTags | server/storage.ts:169 | On create, array tags are kept, a non-empty string becomes a one-element list, and a falsy value becomes `[]`. |
| Storage.UpdatedTags | server/storage.ts:178 | On update, falsy tags mean "not updated"; otherwise they are normalised as on create. |
| Storage.TagsNormalFixedPoint | server/storage.ts:169 | Normalised tags sent back as an array are kept unchanged, on create and on update. |
| Storage.NewProduct | shared/schema.ts:23-41 | A new product gets the fresh id and insert time. Omitted fields take the column defaults: in stock, not featured, stock 0, rating 0, review count 0, no images. |
| Storage.CreateProduct | server/storage.ts:166-173 | The row is appended under the next serial id with normalised tags. Ids stay distinct, and the new id is not held by any earlier row. |
| Storage.Patched | server/storage.ts:175-182 | A patch keeps id and creation time. Name and price change only when given. Every nullable column is kept when left out, cleared by `null`, and set by a value. Tags are replaced only when the patch's tags are truthy. |
| Storage.EmptyPatchFails | server/storage.ts:176-183 | A patch whose only field is falsy tags becomes an object of `undefined` values, and the update fails before any query runs, whether or not a row has the id. |
| Storage.SettingPatchApplied | server/storage.ts:176-186 | A patch that gives a name, a price or truthy tags is applied; a missing id then gives no product rather than a failure. |
| Storage.UpdateProduct | server/storage.ts:175-186 | The update fails exactly when the patch sets no column. Otherwise only the row with that id is patched and other rows are untouched. The result is `None` exactly when no row has the id. Ids stay distinct. |
| Storage.StoredItems | server/storage.ts:211 | Array items are kept and any other value becomes `[]`. |
| Storage.NewOrder | shared/schema.ts:43-63 | A new order has the given code and normalised items. Its status defaults to "pending" and its discount to 0. Both timestamps are the insert time. |
| Storage.CreateOrder | server/storage.ts:208-215 | The insert fails exactly when the code is already taken or an amount (subtotal, delivery fee, discount, total) overflows its `decimal(10,2)` column. Otherwise the new row is appended, and ids and codes stay unique. |
| Storage.GetOrderByCode | server/storage.ts:203-206 | The lookup returns a stored order with the code, or `None` iff none has it. |
| Storage.UpdateOrderStatus | server/storage.ts:217-224 | Only `status` and `updatedAt` of the row with that id change; every other row and field is kept. The row is returned, or `None` iff no row has the id. Ids and codes stay unique. |
| Storage.TrackAfterStatusUpdate | server/storage.ts:217-224 | After a status update, tracking by code shows the new status for the updated order, and every other order reads as before. |
| Storage.StatusUpdateIdempotent | server/storage.ts:217-224 | Setting the same status twice at the same time is the same as setting it once. |
| Storage.ListApprovedReviews | server/storage.ts:258-264 | The listing holds exactly the approved reviews of the product, each as often as stored, newest first. |
| Storage.NewReview | shared/schema.ts:79-88 | A new review gets the fresh id and insert time; `approved` defaults to false unless the payload sets it. |
| Storage.CreateReview | server/storage.ts:266-269 | The payload is appended as sent, under the next serial id. |
| Storage.CreateModeratedReview | shared/schema.ts:86 | A review created with moderation is stored unapproved, whatever the payload says. |
| Storage.ApproveReview | server/storage.ts:271-278 | Only `approved` of the row with that id changes, to true. The row is returned, or `None` iff no row has the id. |
| Storage.ModeratedReviewHidden | shared/schema.ts:86 | A newly created review is in no product's listing, and every listing is unchanged. |
| Storage.ApprovedReviewListed | server/storage.ts:271-278 | Approving a new review puts it into its product's listing. |
| Storage.SubscribeNewsletter | server/storage.ts:281-291 | After subscribing, the returned row has the email and is subscribed, and so is every row with that email. Rows of other emails are unchanged. A known email adds no row, and the emails stay unique. |
| Storage.ResubscribeRow | server/storage.ts:285-288 | On a conflict, the existing row is set to subscribed and the table keeps its size and other rows. |
| Storage.InsertSubscriber | server/storage.ts:283-284 | A new email is appended as a subscribed row under the next serial id. |
| Storage.SubscribedExactlyOnce | server/storage.ts:281-291 | After subscribing, the email has exactly one row, and it is subscribed. |
| Storage.SubscribeIdempotent | server/storage.ts:281-291 | Subscribing an email a second time changes nothing. |
| Api.ListCategories | server/routes.ts:11-20 | The store's categories, or, when the store is down, the fallback categories: eleven of them, with ids 1 to 11. |
| Api.InsertWithCode | server/routes.ts:128-141 | A created order carries the generated code and is appended to the store. Any other outcome (store down, code taken, an amount too large) is "Failed to create order", with the store unchanged. |
| Api.PlaceOrderAsWritten | server/routes.ts:125-143 | As written, a body without `orderId` is refused as invalid order data. A body with one is inserted under the generated code. |
| Api.PlaceOrder | server/routes.ts:125-143 | With the code generated by the server, an order is created iff the store is up, every amount fits its `decimal(10,2)` column and the generated code is free. The row is the new order for the draft under that code. |
| Api.OrderIdDemandedButDiscarded | shared/schema.ts:116 | As written, every body without `orderId` is refused although the corrected handler creates the order (given a free code and amounts that fit). When a code is sent, the two agree and the sent code never reaches the row. |
| Api.PlacedOrderDefaults | shared/schema.ts:53-59 | A new order without status or discount starts "pending" with discount 0, and its code reads back as the day it was placed. |
| Api.TrackOrder | server/routes.ts:145-159 | An unreachable store is a server error. "Not found" means no order has the code. A found order has the code. |
| Api.PatchStatus | server/routes.ts:161-176 | A missing or empty status is refused first. An unreachable store, or an id that is NaN or outside the 32-bit `serial` range, is a server error. Otherwise the answer is `Ok`, and the order with the id gets the status; the body is empty exactly when no order has the id. |
| Api.PatchThenTrack | server/routes.ts:161-176 | After a successful patch, tracking the order by its code shows the new status and time. |
| Api.CodeFindsRow | shared/schema.ts:45 | With unique codes, looking up a stored order's code finds that very order. |
| Api.ListReviews | server/routes.ts:229-238 | An unreachable store, or an id that is NaN or outside the 32-bit `integer` range, is a server error. Otherwise the answer holds exactly the product's approved reviews. |
| Api.PostReviewAsWritten | server/routes.ts:240-252 | As written, the payload's own `approved` is stored. With the store up and the numbers within 32 bits, the review is created and appended; otherwise it is "Failed to create review" and the store is unchanged. |
| Api.PostReview | server/routes.ts:240-252 | With moderation kept, every posted review is stored unapproved. With the store up and the numbers within 32 bits, the review is created; otherwise it is "Failed to create review" and the store is unchanged. |
| Api.ReviewSelfApproval | shared/schema.ts:118 | As written, a review posted with `approved: true` appears at once in its product's listing. |
| Api.PostedReviewHidden | shared/schema.ts:86 | With moderation kept, a posted review is in no listing, and every listing is unchanged. |
| Api.Subscribe | server/routes.ts:255-267 | With the store up, a subscription is created: the table becomes the store's after subscribing, the row has the email and is subscribed, and the rows of other emails are unchanged. An unreachable store is a server error and changes nothing. |
| FallbackFacts.ProductsShape | server/data/fallback.ts:16-112 | There are five fallback products with ids 1 to 5 in order, pairwise distinct. All are in stock, and each original price exceeds its price. |
| FallbackFacts.FeaturedExactly | server/data/fallback.ts:26-102 | A fallback product is featured exactly when its id is 1, 2 or 4. |
| FallbackFacts.DefaultCoerced | server/routes.ts:24-44 | A request without parameters coerces to featured false, in stock, limit 20, offset 0, and nothing else. |
| FallbackFacts.ListedFromFallback | server/routes.ts:46-85 | With the store down, a listing request gets the fallback page of its coerced filter. |
| FallbackFacts.DefaultListing | server/routes.ts:68-70 | With the store down, a request without parameters lists products 3 and 5 only. |
| FallbackFacts.SecondPage | server/routes.ts:80-83 | With the store down, `limit=2&offset=1` lists product 5 alone. |
| FallbackFacts.NegativeOffsetFromEnd | server/routes.ts:46-85 | With `offset=-1`, whatever rows the store holds, it rejects the query, and the fallback's `slice(-1, 19)` lists product 5 alone, the last of the non-featured products. |
| FallbackFacts.PriceRange | server/routes.ts:72-78 | The inclusive price range 1000 to 2000 with no other condition selects products 2, 3 and 4. |
| FallbackFacts.PriceRangeRequest | server/routes.ts:37-40 | The same range sent as a request lists product 3 alone, because the request also asks for non-featured products. |
| FallbackFacts.CottonSearch | server/routes.ts:60-70 | Searching "cotton" with `featured=true` lists the T-shirt alone; without it the listing is empty. |
| FallbackFacts.CategoriesShape | server/data/fallback.ts:2-14 | There are eleven fallback categories with ids 1 to 11 and pairwise distinct slugs. |
| FallbackFacts.PromosShape | server/data/fallback.ts:114-137 | The fallback promo codes are upper-case and active, with uses left. |
| FallbackFacts.WelcomeValidFor30Days | server/data/fallback.ts:114-125 | WELCOME20, asked for in lower case with the store down, is applicable exactly until thirty days after load, with a 20% discount. |
| FallbackSearch.ShirtHasCotton | server/data/fallback.ts:38-40 | The T-shirt matches the search "cotton". |
| FallbackSearch.CottonOnlyInShirt | server/data/fallback.ts:16-112 | Of the five fallback products, only the T-shirt contains "cotton", in any case, in its name or description. |

## Left out

- Database and network I/O, connection setup and transactions: a table is a
  sequence of rows, and a store that cannot be reached is `None`.
- HTTP routing, status codes and JSON encoding: answers are `Reply` values.
- `Math.random()` and `new Date()`: the random number (0..999), the server's
  date and the database's insert time are parameters. The server and database
  clocks are separate inputs, as they are in the system.
- The conversion from epoch milliseconds to a UTC calendar date: the order
  code takes the date as an `Instant`.
- `parseInt` and `parseFloat`: they are function parameters returning an
  integer or NaN. Fractional prices, infinities and floating-point rounding
  are not modelled.
- Request validation by the insert schemas: payloads are taken as already
  validated, except for the `orderId` and `approved` fields discussed under
  Findings.
- Postgres `LIKE` collation: the store's search is a case-sensitive `LIKE`
  match, modelled for `%`, `_` and the default `\` escape. The fallback's
  case mapping covers ASCII letters only.
- Serial values consumed by a failed insert or a newsletter conflict are not
  modelled; the next id moves only when a row is inserted.
- The foreign key of a review's product id is not checked, so the
  database's rejection of an unknown product is not modelled.
- A NaN or out-of-range id on the reviews route becomes a server error; the
  database's wording of that error is not modelled.
- The 32-bit range of `integer` columns is modelled where a handler passes a
  client's number to the store: category, product, order and review ids, and a
  review's rating. The `decimal(10,2)` range is modelled for an order's
  amounts. The product insert and update operations take their numbers and
  prices as already in range.
- Users, categories' and promos' create and update operations, the blog, the
  order listing, the subscriber listing, the WhatsApp link builder and the
  email endpoint: they lie outside the rules modelled here.
- Logging and asynchronous sequencing.
- Product variants: a JSON object of option lists that no modelled operation
  reads. The fallback products' `updatedAt` key, which the products table
  lacks, is dropped as well, so a fallback product has the shape of a store
  row here.
- The fallback promos' `type` key is stored as the `discountType` column.
- Two fallback descriptions are written in `Fallback` as two joined pieces;
  the value is the same text.
- Storage.CreateOrder: order amounts are taken as numbers in hundredths. The
  insert schema types the `decimal(10,2)` columns as text, so a non-numeric
  amount passes validation and then fails the insert, and a third decimal is
  rounded by the column; the model has no way to state either amount.
- Api.PlaceOrder, Api.InsertWithCode: for the same reason, a non-numeric
  amount answers "Failed to create order" in the code, which the model's
  success condition does not include.
- Api.ListCategories: the store's ordering of categories by name is not
  modelled, since it depends on the database's collation.
- Catalog.StoreListProducts: the order of rows with equal creation times is
  fixed as table order; Postgres leaves it unspecified. The permutation
  property is stated only when no limit or offset is applied. A limit or
  offset beyond the 64-bit `bigint` range, which Postgres rejects, is accepted.
- Catalog.JsSlice: only states that the slice holds elements of the input;
  its exact window on the fallback page is stated by `Catalog.FallbackPage`
  for a non-negative offset and by `Catalog.FallbackPageFromEnd` for a
  negative one.
- Text.Lower: case mapping is ASCII-only; the non-ASCII behaviour of
  `toLowerCase` is not modelled.
- Text.Upper: case mapping is ASCII-only; the non-ASCII behaviour of
  `toUpperCase` is not modelled.
- OrderCode.GenerateOrderId: years outside 0..9999, where the ISO string
  uses a six-digit signed year, are excluded by `Instant.Valid`.

## Findings

| source | as written | input that shows it | evidently intended | confidence | as-written member | corrected member |
|---|---|---|---|---|---|---|
| shared/schema.ts:116 | The order insert schema omits only `id` and the timestamps, so it still demands `orderId`, although the handler replaces it with a generated code. | A valid order body without `orderId` is refused with "Invalid order data". | The client does not send a code; the server generates it. | medium, not executed | Api.PlaceOrderAsWritten, Api.OrderIdDemandedButDiscarded | Api.PlaceOrder |
| server/storage.ts:130-131 | The client's search text is put into the `LIKE` pattern unescaped, so its `%` and `_` act as wildcards and `\` as an escape. | The search `_` lists every product with a non-empty name, including those without an underscore; on the fallback data the fallback path lists none. | A substring search for the text as typed, the same as the fallback's. | medium, not executed | Catalog.StoreListProducts, Like.UnderscoreMatchesAnyChar | Like.Escape, Like.EscapedLikeIsContains |
| shared/schema.ts:118 | The review insert schema admits `approved`, so a client can post a review that is already approved. | A body with `approved: true` and a product id appears at once in that product's listing. | New reviews start unapproved and are published only by `approveReview`. | medium, not executed | Api.PostReviewAsWritten, Api.ReviewSelfApproval | Api.PostReview, Api.PostedReviewHidden |
