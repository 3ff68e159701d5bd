/** Turning the product-listing query string into a typed filter. */
module Query {
  import opened Wrappers

  /** The raw query-string values of a product-listing request (absent or text). */
  datatype RawQuery = RawQuery(
    categoryId: Option<string>,
    minPrice: Option<string>,
    maxPrice: Option<string>,
    search: Option<string>,
    featured: Option<string>,
    inStock: Option<string>,
    limit: Option<string>,
    offset: Option<string>)

  /** The typed filter the listing operations take. Every field is optional in
      the store's interface; the request handler always fills in `featured`,
      `inStock`, `limit` and `offset`. Prices are in hundredths. */
  datatype ProductFilter = ProductFilter(
    categoryId: Option<Num>,
    minPrice: Option<Num>,
    maxPrice: Option<Num>,
    search: Option<string>,
    featured: Option<bool>,
    inStock: Option<bool>,
    limit: Option<Num>,
    offset: Option<Num>)

  /** The empty query: a request with no parameters. */
  const NoParams: RawQuery := RawQuery(None, None, None, None, None, None, None, None)

  /** JavaScript truthiness of a query value: present and non-empty. */
  predicate Truthy(s: Option<string>) {
    s.Some? && s.value != ""
  }

  const DefaultLimit: int := 20
  const DefaultOffset: int := 0

  /** The request handler's coercion. `parseInt` and `parsePrice` stand for
      JavaScript's `parseInt` and `parseFloat` (the latter scaled to hundredths).
      An absent `limit`/`offset` takes the handler's default before parsing. */
  function Coerce(q: RawQuery, parseInt: string -> Num, parsePrice: string -> Num): (f: ProductFilter)
    ensures f.featured == Some(q.featured == Some("true"))
    ensures f.inStock == Some(q.inStock != Some("false"))
    ensures f.categoryId.Some? <==> Truthy(q.categoryId)
    ensures f.minPrice.Some? <==> Truthy(q.minPrice)
    ensures f.maxPrice.Some? <==> Truthy(q.maxPrice)
    ensures f.search == q.search
    ensures Truthy(q.categoryId) ==> f.categoryId == Some(parseInt(q.categoryId.value))
    ensures Truthy(q.minPrice) ==> f.minPrice == Some(parsePrice(q.minPrice.value))
    ensures Truthy(q.maxPrice) ==> f.maxPrice == Some(parsePrice(q.maxPrice.value))
    ensures f.limit.Some? && f.offset.Some?
    ensures q.limit.Some? ==> f.limit == Some(parseInt(q.limit.value))
    ensures q.offset.Some? ==> f.offset == Some(parseInt(q.offset.value))
    ensures q.limit.None? ==> f.limit == Some(Finite(DefaultLimit))
    ensures q.offset.None? ==> f.offset == Some(Finite(DefaultOffset))
  {
    ProductFilter(
      if Truthy(q.categoryId) then Some(parseInt(q.categoryId.value)) else None,
      if Truthy(q.minPrice) then Some(parsePrice(q.minPrice.value)) else None,
      if Truthy(q.maxPrice) then Some(parsePrice(q.maxPrice.value)) else None,
      q.search,
      Some(q.featured == Some("true")),
      Some(q.inStock != Some("false")),
      Some(if q.limit.Some? then parseInt(q.limit.value) else Finite(DefaultLimit)),
      Some(if q.offset.Some? then parseInt(q.offset.value) else Finite(DefaultOffset)))
  }

  /** A coerced `featured` is never unset: it is true exactly for the text "true". */
  lemma FeaturedNeverUnset(q: RawQuery, parseInt: string -> Num, parsePrice: string -> Num)
    ensures Coerce(q, parseInt, parsePrice).featured.Some?
    ensures Coerce(q, parseInt, parsePrice).featured.value <==> q.featured == Some("true")
    ensures q.featured.None? ==> Coerce(q, parseInt, parsePrice).featured == Some(false)
  {
  }

  /** A coerced `inStock` is true unless the text is exactly "false". */
  lemma InStockUnlessFalse(q: RawQuery, parseInt: string -> Num, parsePrice: string -> Num)
    ensures Coerce(q, parseInt, parsePrice).inStock == Some(true) <==> q.inStock != Some("false")
    ensures q.inStock.None? ==> Coerce(q, parseInt, parsePrice).inStock == Some(true)
  {
  }
}
