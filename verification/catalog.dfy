/** Product listing and lookup: the store's query, the in-memory fallback
    filter the request handler runs when the store fails, and the handlers
    that choose between them. */
module Catalog {
  import opened Wrappers
  import opened Text
  import opened Seqs
  import opened Schema
  import opened Query
  import opened Fallback
  import opened Like

  /** The category condition is used only for a truthy id (not 0, not NaN). */
  predicate CategoryActive(f: ProductFilter) {
    f.categoryId.Some? && f.categoryId.value.Truthy()
  }

  /** The search condition is used only for a non-empty search text. */
  predicate SearchActive(f: ProductFilter) {
    f.search.Some? && f.search.value != ""
  }

  predicate CategoryMatches(f: ProductFilter, p: Product)
    requires CategoryActive(f)
  {
    p.categoryId == Some(f.categoryId.value.v)
  }

  // ---------------------------------------------------------------------------
  // The fallback path: JavaScript array filters and `slice`
  // ---------------------------------------------------------------------------

  /** JavaScript `>=` / `<=` against a bound that may be NaN: NaN compares false. */
  predicate JsAtLeast(price: int, bound: Num) {
    bound.Finite? && price >= bound.v
  }

  predicate JsAtMost(price: int, bound: Num) {
    bound.Finite? && price <= bound.v
  }

  /** Case-insensitive search in the name, then in the description. */
  predicate LowerNameMatches(s: string, p: Product) {
    Contains(Lower(p.name), Lower(s))
  }

  predicate LowerSearchMatches(s: string, p: Product) {
    LowerNameMatches(s, p) || (p.description.Some? && Contains(Lower(p.description.value), Lower(s)))
  }

  /** The fallback search lower-cases the description of every product whose
      name does not match, which throws for a missing description. Each product
      that reaches the search (past the category test) must therefore have one. */
  predicate SearchSafe(f: ProductFilter, ps: seq<Product>) {
    SearchActive(f) ==> forall i :: 0 <= i < |ps| ==> SearchSafeFor(f, ps[i])
  }

  predicate SearchSafeFor(f: ProductFilter, p: Product)
    requires SearchActive(f)
  {
    var reachesSearch := CategoryActive(f) ==> CategoryMatches(f, p);
    reachesSearch && !LowerNameMatches(f.search.value, p) ==> p.description.Some?
  }

  /** Every test the fallback path applies, each only when its parameter is set. */
  predicate FallbackKeeps(f: ProductFilter, p: Product) {
    && (CategoryActive(f) ==> CategoryMatches(f, p))
    && (SearchActive(f) ==> LowerSearchMatches(f.search.value, p))
    && (f.featured.Some? ==> p.featured == f.featured)
    && (f.minPrice.Some? ==> JsAtLeast(p.price, f.minPrice.value))
    && (f.maxPrice.Some? ==> JsAtMost(p.price, f.maxPrice.value))
  }

  function FallbackTest(f: ProductFilter): Product -> bool {
    (p: Product) => FallbackKeeps(f, p)
  }

  /** `if (active) s = s.filter(test)` */
  function FilterIf(s: seq<Product>, active: bool, test: Product -> bool): seq<Product> {
    if active then Filter(s, test) else s
  }

  /** Filtering the result of a filter once more, when a condition holds, is a
      single filter by the combined test. */
  lemma FilterIfStep(ps: seq<Product>, acc: Product -> bool, active: bool,
                     test: Product -> bool, next: Product -> bool)
    requires forall p :: next(p) == (acc(p) && (active ==> test(p)))
    ensures FilterIf(Filter(ps, acc), active, test) == Filter(ps, next)
  {
    if active {
      FilterTwice(ps, acc, test, next);
    } else {
      FilterSameTest(ps, acc, next);
    }
  }

  /** The five filters of the fallback path, one per parameter. */
  function CategoryStep(f: ProductFilter): Product -> bool {
    (p: Product) => CategoryActive(f) && CategoryMatches(f, p)
  }

  function SearchStep(f: ProductFilter): Product -> bool {
    (p: Product) => SearchActive(f) && LowerSearchMatches(f.search.value, p)
  }

  function FeaturedStep(f: ProductFilter): Product -> bool {
    (p: Product) => p.featured == f.featured
  }

  function MinPriceStep(f: ProductFilter): Product -> bool {
    (p: Product) => f.minPrice.Some? && JsAtLeast(p.price, f.minPrice.value)
  }

  function MaxPriceStep(f: ProductFilter): Product -> bool {
    (p: Product) => f.maxPrice.Some? && JsAtMost(p.price, f.maxPrice.value)
  }

  /** The fallback path's five successive filters, as the handler writes them,
      before pagination. */
  function FallbackFiltered(f: ProductFilter, ps: seq<Product>): (r: seq<Product>)
    requires SearchSafe(f, ps)
    ensures r == Filter(ps, FallbackTest(f))
    ensures IsSubsequence(r, ps)
    ensures forall p :: p in r <==> p in ps && FallbackKeeps(f, p)
  {
    FallbackFilteredIsOneFilter(f, ps);
    FilterIsSubsequence(ps, FallbackTest(f));
    FallbackSteps(f, ps)
  }

  function FallbackSteps(f: ProductFilter, ps: seq<Product>): seq<Product> {
    var s1 := FilterIf(ps, CategoryActive(f), CategoryStep(f));
    var s2 := FilterIf(s1, SearchActive(f), SearchStep(f));
    var s3 := FilterIf(s2, f.featured.Some?, FeaturedStep(f));
    var s4 := FilterIf(s3, f.minPrice.Some?, MinPriceStep(f));
    FilterIf(s4, f.maxPrice.Some?, MaxPriceStep(f))
  }

  /** The successive filters select exactly the products passing every active test. */
  lemma FallbackFilteredIsOneFilter(f: ProductFilter, ps: seq<Product>)
    ensures FallbackSteps(f, ps) == Filter(ps, FallbackTest(f))
  {
    var t0: Product -> bool := (p: Product) => true;
    var t1: Product -> bool := (p: Product) => CategoryActive(f) ==> CategoryMatches(f, p);
    var t2: Product -> bool := (p: Product) => t1(p) && (SearchActive(f) ==> LowerSearchMatches(f.search.value, p));
    var t3: Product -> bool := (p: Product) => t2(p) && (f.featured.Some? ==> p.featured == f.featured);
    var t4: Product -> bool := (p: Product) => t3(p) && (f.minPrice.Some? ==> JsAtLeast(p.price, f.minPrice.value));
    FilterKeepsAll(ps, t0);
    FilterIfStep(ps, t0, CategoryActive(f), CategoryStep(f), t1);
    var s1 := FilterIf(ps, CategoryActive(f), CategoryStep(f));
    FilterIfStep(ps, t1, SearchActive(f), SearchStep(f), t2);
    var s2 := FilterIf(s1, SearchActive(f), SearchStep(f));
    FilterIfStep(ps, t2, f.featured.Some?, FeaturedStep(f), t3);
    var s3 := FilterIf(s2, f.featured.Some?, FeaturedStep(f));
    FilterIfStep(ps, t3, f.minPrice.Some?, MinPriceStep(f), t4);
    var s4 := FilterIf(s3, f.minPrice.Some?, MinPriceStep(f));
    FilterIfStep(ps, t4, f.maxPrice.Some?, MaxPriceStep(f), FallbackTest(f));
  }

  /** JavaScript's reading of a `slice` bound: negative counts from the end,
      and the result is clipped to `[0, len]`. */
  function SliceIndex(i: int, len: nat): (k: nat)
    ensures k <= len
  {
    if i < 0 then (if len + i < 0 then 0 else len + i)
    else if i > len then len else i
  }

  /** `s.slice(start, end)` */
  function JsSlice<T(==,!new)>(s: seq<T>, start: int, end: int): (r: seq<T>)
    ensures forall x :: x in r ==> x in s
  {
    var a := SliceIndex(start, |s|);
    var b := SliceIndex(end, |s|);
    if a < b then s[a..b] else []
  }

  /** `n || fallback` for an optional number (undefined, NaN and 0 are falsy). */
  function NumOr(n: Option<Num>, fallback: int): int {
    if n.Some? && n.value.Truthy() then n.value.v else fallback
  }

  /** The fallback listing: filter, then `slice(offset || 0, (offset || 0) + (limit || 20))`.
      It does not sort and does not look at `inStock`. */
  function FallbackList(f: ProductFilter, ps: seq<Product>): (r: seq<Product>)
    requires SearchSafe(f, ps)
    ensures forall p :: p in r ==> p in ps && FallbackKeeps(f, p)
  {
    var start := NumOr(f.offset, 0);
    JsSlice(FallbackFiltered(f, ps), start, start + NumOr(f.limit, DefaultLimit))
  }

  /** For a non-negative start and page size the fallback page is the window
      `filtered[start .. start + size]` clipped to the length, so it holds at
      most `size` products; a missing, NaN or zero limit means 20. */
  lemma FallbackPage(f: ProductFilter, ps: seq<Product>)
    requires SearchSafe(f, ps)
    requires NumOr(f.offset, 0) >= 0 && NumOr(f.limit, DefaultLimit) >= 0
    ensures
      var r := FallbackFiltered(f, ps);
      var start := NumOr(f.offset, 0);
      var size := NumOr(f.limit, DefaultLimit);
      var a := if start < |r| then start else |r|;
      var b := if start + size < |r| then start + size else |r|;
      && FallbackList(f, ps) == r[a..b]
      && |FallbackList(f, ps)| <= size
      && (f.limit.None? || !f.limit.value.Truthy() ==> size == 20)
  {
  }

  /** A negative start counts from the end of the kept rows: the page begins
      `-start` rows before the end (at the first row if there are fewer), ends
      where `start + size` points, and holds at most `size` products. When
      the window reaches the end it is the last `-start` rows. */
  lemma FallbackPageFromEnd(f: ProductFilter, ps: seq<Product>)
    requires SearchSafe(f, ps)
    requires NumOr(f.offset, 0) < 0 && NumOr(f.limit, DefaultLimit) >= 0
    ensures
      var r := FallbackFiltered(f, ps);
      var start := NumOr(f.offset, 0);
      var size := NumOr(f.limit, DefaultLimit);
      var a := if |r| + start < 0 then 0 else |r| + start;
      var e := start + size;
      var b := if e < 0 then (if |r| + e < 0 then 0 else |r| + e) else if e < |r| then e else |r|;
      && (a <= b ==> FallbackList(f, ps) == r[a..b])
      && (b < a ==> FallbackList(f, ps) == [])
      && |FallbackList(f, ps)| <= size
      && (-start <= |r| <= e ==> FallbackList(f, ps) == r[|r| + start..])
  {
  }

  // ---------------------------------------------------------------------------
  // The store path: one SQL query
  // ---------------------------------------------------------------------------

  /** SQL `price >= bound` / `price <= bound` on numeric values: NaN sorts above
      every number. */
  predicate SqlAtLeast(price: int, bound: Num) {
    bound.Finite? && price >= bound.v
  }

  predicate SqlAtMost(price: int, bound: Num) {
    bound.NaN? || price <= bound.v
  }

  /** `name LIKE '%s%' OR description LIKE '%s%'` with the client's text put
      into the pattern unescaped: a case-sensitive match in which `%`, `_` and
      `\` of the text act as wildcards and escape, and where a missing
      description does not match. */
  predicate SqlSearchMatches(s: string, p: Product) {
    LikeContains(p.name, s) || (p.description.Some? && LikeContains(p.description.value, s))
  }

  /** The AND of every condition the store query adds. */
  predicate StoreKeeps(f: ProductFilter, p: Product) {
    && (CategoryActive(f) ==> CategoryMatches(f, p))
    && (f.minPrice.Some? ==> SqlAtLeast(p.price, f.minPrice.value))
    && (f.maxPrice.Some? ==> SqlAtMost(p.price, f.maxPrice.value))
    && (SearchActive(f) ==> SqlSearchMatches(f.search.value, p))
    && (f.featured.Some? ==> p.featured == f.featured)
    && (f.inStock.Some? ==> p.inStock == f.inStock)
  }

  function StoreTest(f: ProductFilter): Product -> bool {
    (p: Product) => StoreKeeps(f, p)
  }

  /** The limit and offset are applied only when truthy. */
  predicate LimitOn(f: ProductFilter) {
    f.limit.Some? && f.limit.value.Truthy()
  }

  predicate OffsetOn(f: ProductFilter) {
    f.offset.Some? && f.offset.value.Truthy()
  }

  /** `OFFSET skip LIMIT limit` on an ordered result. */
  function OffsetLimit(s: seq<Product>, skip: nat, limit: Option<nat>): (page: seq<Product>)
    ensures forall p :: p in page ==> p in s
    ensures limit.Some? ==> |page| <= limit.value
    ensures skip == 0 && limit.None? ==> page == s
  {
    var afterOffset := if skip < |s| then s[skip..] else [];
    if limit.Some? && limit.value < |afterOffset| then afterOffset[..limit.value] else afterOffset
  }

  /** A window of a newest-first sequence is newest first. */
  lemma OffsetLimitSorted(s: seq<Product>, skip: nat, limit: Option<nat>)
    requires SortedDesc(s, ProductCreatedAt)
    ensures SortedDesc(OffsetLimit(s, skip, limit), ProductCreatedAt)
  {
    var page := OffsetLimit(s, skip, limit);
    forall i, j | 0 <= i < j < |page|
      ensures ProductCreatedAt(page[i]) >= ProductCreatedAt(page[j])
    {
      assert page[i] == s[skip + i] && page[j] == s[skip + j];
    }
  }

  /** The category id can be compared with the `integer` column. */
  predicate CategoryFits(f: ProductFilter) {
    CategoryActive(f) ==> FitsInt4(f.categoryId.value.v)
  }

  /** The store query: the matching rows, newest first, then OFFSET, then LIMIT.
      The database rejects a negative LIMIT or OFFSET and a category id outside
      the `integer` range, which fails the call. */
  function StoreListProducts(f: ProductFilter, rows: seq<Product>): (r: Attempt<seq<Product>>)
    ensures r.Failed? <==>
              || (LimitOn(f) && f.limit.value.v < 0)
              || (OffsetOn(f) && f.offset.value.v < 0)
              || (CategoryActive(f) && !FitsInt4(f.categoryId.value.v))
    ensures r.Done? ==> forall p :: p in r.value ==> p in rows && StoreKeeps(f, p)
    ensures r.Done? ==> SortedDesc(r.value, ProductCreatedAt)
    ensures r.Done? && LimitOn(f) ==> |r.value| <= f.limit.value.v
    ensures r.Done? && !LimitOn(f) && !OffsetOn(f) ==>
              multiset(r.value) == multiset(Filter(rows, StoreTest(f)))
  {
    if (LimitOn(f) && f.limit.value.v < 0) || (OffsetOn(f) && f.offset.value.v < 0) || !CategoryFits(f) then
      Failed
    else
      var sorted := SortDesc(Filter(rows, StoreTest(f)), ProductCreatedAt);
      var skip := if OffsetOn(f) then f.offset.value.v else 0;
      var limit := if LimitOn(f) then Some(f.limit.value.v) else None;
      OffsetLimitSorted(sorted, skip, limit);
      Done(OffsetLimit(sorted, skip, limit))
  }

  // ---------------------------------------------------------------------------
  // When the two paths agree
  // ---------------------------------------------------------------------------

  predicate IsLowerText(s: string) {
    forall i :: 0 <= i < |s| ==> LowerChar(s[i]) == s[i]
  }

  /** Hypotheses under which the fallback filter and the store query give the
      same page: the rows are already newest first; every row has the requested
      stock flag (the fallback ignores it); the limit is a positive number (the
      fallback reads 0 or NaN as 20, the store as "no limit"); the offset is not
      negative and the category id is an `integer` (the store rejects them
      otherwise); the upper price bound is not NaN (the store keeps every row,
      the fallback none); and a search, if any, is over lower-case text (the
      store's search is case-sensitive) with no `%`, `_` or `\` in the search
      text (the store reads them as pattern characters). */
  predicate PathsComparable(f: ProductFilter, ps: seq<Product>) {
    && SortedDesc(ps, ProductCreatedAt)
    && (f.inStock.Some? ==> forall i :: 0 <= i < |ps| ==> ps[i].inStock == f.inStock)
    && PageBounds(f)
    && CategoryFits(f)
    && f.maxPrice != Some(NaN)
    && (SearchActive(f) ==>
          && IsLowerText(f.search.value)
          && Plain(f.search.value)
          && forall i :: 0 <= i < |ps| ==>
               IsLowerText(ps[i].name) && ps[i].description.Some? && IsLowerText(ps[i].description.value))
  }

  lemma LowerOfLowerText(s: string)
    requires IsLowerText(s)
    ensures Lower(s) == s
  {
  }

  /** Under `PathsComparable` the two tests agree on every row. */
  lemma TestsAgree(f: ProductFilter, ps: seq<Product>, i: int)
    requires PathsComparable(f, ps) && 0 <= i < |ps|
    ensures FallbackKeeps(f, ps[i]) == StoreKeeps(f, ps[i])
  {
    if SearchActive(f) {
      LowerOfLowerText(f.search.value);
      LowerOfLowerText(ps[i].name);
      LowerOfLowerText(ps[i].description.value);
      PlainLikeIsContains(ps[i].name, f.search.value);
      PlainLikeIsContains(ps[i].description.value, f.search.value);
    }
  }

  /** The store query and the fallback filter return the same page when the
      differences between them cannot show. */
  lemma {:induction false} PathsAgree(f: ProductFilter, ps: seq<Product>)
    requires PathsComparable(f, ps)
    ensures SearchSafe(f, ps)
    ensures StoreListProducts(f, ps) == Done(FallbackList(f, ps))
  {
    SameRowsKept(f, ps);
    StoreSideIsWindow(f, ps);
    FallbackSideIsWindow(f, ps);
  }

  /** Both paths keep the same rows, in the same order. */
  lemma SameRowsKept(f: ProductFilter, ps: seq<Product>)
    requires PathsComparable(f, ps)
    ensures SearchSafe(f, ps)
    ensures Filter(ps, FallbackTest(f)) == Filter(ps, StoreTest(f))
  {
    forall i | 0 <= i < |ps|
      ensures FallbackTest(f)(ps[i]) == StoreTest(f)(ps[i])
    {
      TestsAgree(f, ps, i);
    }
    FilterSameTest(ps, FallbackTest(f), StoreTest(f));
  }

  /** A positive page size, and an offset the store accepts. */
  predicate PageBounds(f: ProductFilter) {
    f.limit.Some? && f.limit.value.Finite? && f.limit.value.v > 0
    && (OffsetOn(f) ==> f.offset.value.v >= 0)
  }

  /** On rows already newest first, the store's sort changes nothing, so its
      page is the OFFSET/LIMIT window of the kept rows. */
  lemma StoreSideIsWindow(f: ProductFilter, ps: seq<Product>)
    requires SortedDesc(ps, ProductCreatedAt) && PageBounds(f) && CategoryFits(f)
    ensures StoreListProducts(f, ps)
            == Done(OffsetLimit(Filter(ps, StoreTest(f)), NumOr(f.offset, 0), Some(f.limit.value.v)))
  {
    var filtered := Filter(ps, StoreTest(f));
    FilterPreservesSorted(ps, StoreTest(f), ProductCreatedAt);
    SortSortedIsIdentity(filtered, ProductCreatedAt);
  }

  /** The fallback page is a slice of the rows its filter keeps. */
  lemma FallbackSideIsSlice(f: ProductFilter, ps: seq<Product>)
    requires SearchSafe(f, ps) && PageBounds(f)
    ensures FallbackList(f, ps)
            == JsSlice(Filter(ps, FallbackTest(f)), NumOr(f.offset, 0), NumOr(f.offset, 0) + f.limit.value.v)
  {
    var kept := FallbackFiltered(f, ps);
    assert FallbackList(f, ps) == JsSlice(kept, NumOr(f.offset, 0), NumOr(f.offset, 0) + NumOr(f.limit, DefaultLimit));
  }

  /** ... which is the OFFSET/LIMIT window the store would take. */
  lemma FallbackSideIsWindow(f: ProductFilter, ps: seq<Product>)
    requires SearchSafe(f, ps) && PageBounds(f)
    ensures FallbackList(f, ps) == OffsetLimit(Filter(ps, FallbackTest(f)), NumOr(f.offset, 0), Some(f.limit.value.v))
  {
    FallbackSideIsSlice(f, ps);
    WindowIsSlice(Filter(ps, FallbackTest(f)), NumOr(f.offset, 0), f.limit.value.v);
  }

  /** OFFSET then LIMIT is `slice(start, start + size)`, for a non-negative
      start and a positive size. */
  lemma WindowIsSlice(s: seq<Product>, start: nat, size: nat)
    requires size > 0
    ensures OffsetLimit(s, start, Some(size)) == JsSlice(s, start, start + size)
  {
  }

  // ---------------------------------------------------------------------------
  // Request handlers
  // ---------------------------------------------------------------------------

  /** Every fallback product has a description, so the fallback search never throws. */
  lemma FallbackSearchSafe(f: ProductFilter, loadedAt: int)
    ensures SearchSafe(f, FallbackProducts(loadedAt))
  {
  }

  /** The listing handler: coerce the query, ask the store, and on any failure
      (unreachable, or a query it rejects) filter the fallback products instead.
      `store` is the products table, or `None` when the database cannot be reached. */
  function ListProducts(q: RawQuery, parseInt: string -> Num, parsePrice: string -> Num,
                        store: Option<seq<Product>>, loadedAt: int): (r: seq<Product>)
    ensures StoreAnswers(Coerce(q, parseInt, parsePrice), store) ==>
              StoreListProducts(Coerce(q, parseInt, parsePrice), store.value) == Done(r)
    ensures StoreAnswers(Coerce(q, parseInt, parsePrice), store) ==>
              forall p :: p in r ==> p in store.value && StoreKeeps(Coerce(q, parseInt, parsePrice), p)
    ensures !StoreAnswers(Coerce(q, parseInt, parsePrice), store) ==>
              FromFallback(r, Coerce(q, parseInt, parsePrice), loadedAt)
  {
    ListFiltered(Coerce(q, parseInt, parsePrice), store, loadedAt)
  }

  /** The handler's work once the filter is typed. */
  function ListFiltered(f: ProductFilter, store: Option<seq<Product>>, loadedAt: int): (r: seq<Product>)
    ensures StoreAnswers(f, store) ==> StoreListProducts(f, store.value) == Done(r)
    ensures StoreAnswers(f, store) ==> forall p :: p in r ==> p in store.value && StoreKeeps(f, p)
    ensures !StoreAnswers(f, store) ==> FromFallback(r, f, loadedAt)
    ensures store.None? ==> r == FallbackList(f, FallbackProducts(loadedAt))
  {
    if StoreAnswers(f, store) then StoreListProducts(f, store.value).value
    else FallbackListing(f, loadedAt)
  }

  /** Every product listed is a fallback product the filter keeps. */
  predicate FromFallback(r: seq<Product>, f: ProductFilter, loadedAt: int) {
    forall p :: p in r ==> p in FallbackProducts(loadedAt) && FallbackKeeps(f, p)
  }

  /** The store is reachable and accepts the query. */
  predicate StoreAnswers(f: ProductFilter, store: Option<seq<Product>>) {
    store.Some? && StoreListProducts(f, store.value).Done?
  }

  /** The fallback page for `f`, which the search never makes throw. */
  function FallbackListing(f: ProductFilter, loadedAt: int): (r: seq<Product>)
    ensures FromFallback(r, f, loadedAt)
    ensures SearchSafe(f, FallbackProducts(loadedAt)) && r == FallbackList(f, FallbackProducts(loadedAt))
  {
    FallbackSearchSafe(f, loadedAt);
    FallbackList(f, FallbackProducts(loadedAt))
  }

  /** The first product with the given id (`[row] = select … where id = …`). */
  function FindProduct(ps: seq<Product>, id: int): (r: Option<Product>)
    ensures r.Some? ==> r.value in ps && r.value.id == id
    ensures r.None? <==> forall i :: 0 <= i < |ps| ==> ps[i].id != id
  {
    FirstWhere(ps, ProductHasId(id))
  }

  const InvalidProductId: string := "Invalid product ID"
  const ProductNotFound: string := "Product not found"

  /** The rows the product-by-id handler searches: the store's, unless it is
      unreachable or rejects an id outside the `integer` range, and then the
      fallback products. */
  function ProductSource(id: int, store: Option<seq<Product>>, loadedAt: int): (ps: seq<Product>)
    ensures store.Some? && FitsInt4(id) ==> ps == store.value
    ensures store.None? || !FitsInt4(id) ==> ps == FallbackProducts(loadedAt)
  {
    if store.Some? && FitsInt4(id) then store.value else FallbackProducts(loadedAt)
  }

  /** The product-by-id handler. A NaN id is rejected on both paths; an id the
      reachable store does not have is "not found", never replaced by fallback
      data; an id the store cannot compare falls through to the fallback
      products, none of which has it. */
  function GetProduct(id: Num, store: Option<seq<Product>>, loadedAt: int): (r: Reply<Product>)
    ensures id.NaN? <==> r == BadRequest(InvalidProductId)
    ensures r.Ok? ==> r.body.id == id.v
    ensures r.Ok? && store.Some? ==> r.body in store.value
    ensures r.Ok? && store.None? ==> r.body in FallbackProducts(loadedAt)
    ensures id.Finite? && store.Some? && FitsInt4(id.v) ==>
              (r == NotFound(ProductNotFound) <==> forall i :: 0 <= i < |store.value| ==> store.value[i].id != id.v)
    ensures id.Finite? && store.None? ==>
              (r == NotFound(ProductNotFound) <==>
                 forall i :: 0 <= i < |FallbackProducts(loadedAt)| ==> FallbackProducts(loadedAt)[i].id != id.v)
    ensures id.Finite? && !FitsInt4(id.v) ==> r == NotFound(ProductNotFound)
    ensures r.Ok? || r == BadRequest(InvalidProductId) || r == NotFound(ProductNotFound)
  {
    if id.NaN? then BadRequest(InvalidProductId)
    else
      FallbackIdsFit(loadedAt);
      var found := FindProduct(ProductSource(id.v, store, loadedAt), id.v);
      if found.None? then NotFound(ProductNotFound) else Ok(found.value)
  }

  /** Every fallback product has an id within the `integer` range. */
  lemma FallbackIdsFit(loadedAt: int)
    ensures forall p :: p in FallbackProducts(loadedAt) ==> FitsInt4(p.id)
  {
  }
}
