/** What the fixed fallback data gives when the listing, lookup and promo
    handlers run on it. `t` is the time the data was loaded. */
module FallbackFacts {
  import opened Wrappers
  import opened Text
  import opened Seqs
  import opened Schema
  import opened Query
  import opened Fallback
  import opened Catalog
  import opened Promos
  import opened FallbackSearch

  /** Ids 1 to 5 in order, all in stock, each cheaper than its original price. */
  lemma ProductsShape(t: int)
    ensures |FallbackProducts(t)| == 5
    ensures forall i :: 0 <= i < 5 ==> FallbackProducts(t)[i].id == i + 1
    ensures forall i :: 0 <= i < 5 ==> FallbackProducts(t)[i].inStock == Some(true)
    ensures forall i :: 0 <= i < 5 ==>
              FallbackProducts(t)[i].originalPrice.Some?
              && FallbackProducts(t)[i].originalPrice.value > FallbackProducts(t)[i].price
    ensures Distinct(FallbackProducts(t), ProductRowId)
  {
  }

  /** Exactly the products 1, 2 and 4 are featured. */
  lemma FeaturedExactly(t: int)
    ensures forall i :: 0 <= i < 5 ==>
              (FallbackProducts(t)[i].featured == Some(true) <==> FallbackProducts(t)[i].id in {1, 2, 4})
  {
  }

  // Five-element filters with a known verdict for each element.

  lemma KeepThirdAndFifth(a: Product, b: Product, c: Product, d: Product, e: Product, keep: Product -> bool)
    requires !keep(a) && !keep(b) && keep(c) && !keep(d) && keep(e)
    ensures Filter([a, b, c, d, e], keep) == [c, e]
  {
    FilterFive(a, b, c, d, e, keep);
  }

  lemma KeepSecondToFourth(a: Product, b: Product, c: Product, d: Product, e: Product, keep: Product -> bool)
    requires !keep(a) && keep(b) && keep(c) && keep(d) && !keep(e)
    ensures Filter([a, b, c, d, e], keep) == [b, c, d]
  {
    FilterFive(a, b, c, d, e, keep);
  }

  lemma KeepThird(a: Product, b: Product, c: Product, d: Product, e: Product, keep: Product -> bool)
    requires !keep(a) && !keep(b) && keep(c) && !keep(d) && !keep(e)
    ensures Filter([a, b, c, d, e], keep) == [c]
  {
    FilterFive(a, b, c, d, e, keep);
  }

  lemma KeepSecond(a: Product, b: Product, c: Product, d: Product, e: Product, keep: Product -> bool)
    requires !keep(a) && keep(b) && !keep(c) && !keep(d) && !keep(e)
    ensures Filter([a, b, c, d, e], keep) == [b]
  {
    FilterFive(a, b, c, d, e, keep);
  }

  lemma KeepNone(a: Product, b: Product, c: Product, d: Product, e: Product, keep: Product -> bool)
    requires !keep(a) && !keep(b) && !keep(c) && !keep(d) && !keep(e)
    ensures Filter([a, b, c, d, e], keep) == []
  {
    FilterFive(a, b, c, d, e, keep);
  }

  const NoCondition: ProductFilter := ProductFilter(None, None, None, None, None, None, None, None)

  /** The filter a request without parameters coerces to. */
  const DefaultRequest: ProductFilter :=
    ProductFilter(None, None, None, None, Some(false), Some(true), Some(Finite(20)), Some(Finite(0)))

  /** With the store down, a listing request gets the fallback page of its
      coerced filter. */
  lemma ListedFromFallback(q: RawQuery, parseInt: string -> Num, parsePrice: string -> Num, t: int, f: ProductFilter)
    requires Coerce(q, parseInt, parsePrice) == f
    ensures SearchSafe(f, FallbackProducts(t))
    ensures ListProducts(q, parseInt, parsePrice, None, t) == FallbackList(f, FallbackProducts(t))
  {
    FallbackSearchSafe(f, t);
  }

  // ---------------------------------------------------------------------------
  // No condition but `featured=false`: products 3 and 5
  // ---------------------------------------------------------------------------

  predicate OnlyNonFeatured(f: ProductFilter) {
    f.categoryId.None? && f.search.None? && f.featured == Some(false)
    && f.minPrice.None? && f.maxPrice.None?
  }

  lemma NonFeaturedKept(t: int, f: ProductFilter)
    requires OnlyNonFeatured(f)
    ensures !FallbackKeeps(f, P1(t)) && !FallbackKeeps(f, P2(t)) && FallbackKeeps(f, P3(t))
            && !FallbackKeeps(f, P4(t)) && FallbackKeeps(f, P5(t))
  {
  }

  lemma NonFeaturedFiltered(t: int, f: ProductFilter)
    requires OnlyNonFeatured(f)
    ensures Filter(FallbackProducts(t), FallbackTest(f)) == [P3(t), P5(t)]
  {
    NonFeaturedKept(t, f);
    KeepThirdAndFifth(P1(t), P2(t), P3(t), P4(t), P5(t), FallbackTest(f));
  }

  lemma DefaultCoerced(parseInt: string -> Num, parsePrice: string -> Num)
    ensures Coerce(NoParams, parseInt, parsePrice) == DefaultRequest
  {
  }

  /** A request without parameters, with the store down, lists products 3 and
      5: the absent `featured` reads as `false`. */
  lemma DefaultListing(t: int, parseInt: string -> Num, parsePrice: string -> Num)
    ensures ListProducts(NoParams, parseInt, parsePrice, None, t) == [P3(t), P5(t)]
  {
    DefaultCoerced(parseInt, parsePrice);
    ListedFromFallback(NoParams, parseInt, parsePrice, t, DefaultRequest);
    NonFeaturedFiltered(t, DefaultRequest);
    PageOf(DefaultRequest, t, [P3(t), P5(t)]);
    WholePage([P3(t), P5(t)], DefaultLimit);
  }

  /** A first page at least as long as the filtered list is all of it. */
  lemma WholePage(s: seq<Product>, size: int)
    requires |s| <= size
    ensures JsSlice(s, 0, 0 + size) == s
  {
    assert s[0..|s|] == s;
  }

  /** The fallback page of `f`, given what the filter keeps. */
  lemma PageOf(f: ProductFilter, t: int, kept: seq<Product>)
    requires SearchSafe(f, FallbackProducts(t))
    requires Filter(FallbackProducts(t), FallbackTest(f)) == kept
    ensures FallbackList(f, FallbackProducts(t))
            == JsSlice(kept, NumOr(f.offset, 0), NumOr(f.offset, 0) + NumOr(f.limit, DefaultLimit))
  {
  }

  /** Pagination over the fallback: with `limit=2&offset=1` (and the default
      non-featured condition) the page holds product 5 alone. */
  lemma SecondPage(t: int, parseInt: string -> Num, parsePrice: string -> Num)
    requires parseInt("2") == Finite(2) && parseInt("1") == Finite(1)
    ensures ListProducts(NoParams.(limit := Some("2"), offset := Some("1")), parseInt, parsePrice, None, t) == [P5(t)]
  {
    var f := DefaultRequest.(limit := Some(Finite(2)), offset := Some(Finite(1)));
    ListedFromFallback(NoParams.(limit := Some("2"), offset := Some("1")), parseInt, parsePrice, t, f);
    NonFeaturedFiltered(t, f);
    PageOf(f, t, [P3(t), P5(t)]);
    assert [P3(t), P5(t)][1..2] == [P5(t)];
  }

  /** A negative offset makes the store reject the query, whatever its rows,
      and the fallback's `slice(-1, 19)` then counts from the end: the last of
      the non-featured products 3 and 5. */
  lemma NegativeOffsetFromEnd(rows: seq<Product>, t: int)
    ensures ListFiltered(DefaultRequest.(offset := Some(Finite(-1))), Some(rows), t) == [P5(t)]
  {
    var f := DefaultRequest.(offset := Some(Finite(-1)));
    assert !StoreAnswers(f, Some(rows));
    FallbackSearchSafe(f, t);
    NonFeaturedFiltered(t, f);
    PageOf(f, t, [P3(t), P5(t)]);
    assert [P3(t), P5(t)][1..2] == [P5(t)];
  }

  // ---------------------------------------------------------------------------
  // Price range 1000 to 2000
  // ---------------------------------------------------------------------------

  const PriceRangeFilter: ProductFilter :=
    NoCondition.(minPrice := Some(Finite(100000)), maxPrice := Some(Finite(200000)))

  lemma PriceRangeKept(t: int)
    ensures !FallbackKeeps(PriceRangeFilter, P1(t)) && FallbackKeeps(PriceRangeFilter, P2(t))
            && FallbackKeeps(PriceRangeFilter, P3(t)) && FallbackKeeps(PriceRangeFilter, P4(t))
            && !FallbackKeeps(PriceRangeFilter, P5(t))
  {
  }

  lemma PriceRangeFiltered(t: int)
    ensures Filter(FallbackProducts(t), FallbackTest(PriceRangeFilter)) == [P2(t), P3(t), P4(t)]
  {
    PriceRangeKept(t);
    KeepSecondToFourth(P1(t), P2(t), P3(t), P4(t), P5(t), FallbackTest(PriceRangeFilter));
  }

  /** The price range 1000 to 2000 (inclusive, in hundredths) with no other
      condition selects products 2, 3 and 4. */
  lemma PriceRange(t: int)
    ensures FallbackList(PriceRangeFilter, FallbackProducts(t)) == [P2(t), P3(t), P4(t)]
  {
    PriceRangeFiltered(t);
    FallbackSearchSafe(PriceRangeFilter, t);
    PageOf(PriceRangeFilter, t, [P2(t), P3(t), P4(t)]);
    WholePage([P2(t), P3(t), P4(t)], DefaultLimit);
  }

  const PriceRangeRequestFilter: ProductFilter :=
    DefaultRequest.(minPrice := Some(Finite(100000)), maxPrice := Some(Finite(200000)))

  lemma PriceRangeRequestKept(t: int)
    ensures !FallbackKeeps(PriceRangeRequestFilter, P1(t)) && !FallbackKeeps(PriceRangeRequestFilter, P2(t))
            && FallbackKeeps(PriceRangeRequestFilter, P3(t)) && !FallbackKeeps(PriceRangeRequestFilter, P4(t))
            && !FallbackKeeps(PriceRangeRequestFilter, P5(t))
  {
  }

  lemma PriceRangeRequestFiltered(t: int)
    ensures Filter(FallbackProducts(t), FallbackTest(PriceRangeRequestFilter)) == [P3(t)]
  {
    PriceRangeRequestKept(t);
    KeepThird(P1(t), P2(t), P3(t), P4(t), P5(t), FallbackTest(PriceRangeRequestFilter));
  }

  /** The same range sent as a request keeps only product 3, since the request
      also asks for non-featured products. */
  lemma PriceRangeRequest(t: int, parseInt: string -> Num, parsePrice: string -> Num)
    requires parsePrice("1000") == Finite(100000) && parsePrice("2000") == Finite(200000)
    ensures ListProducts(NoParams.(minPrice := Some("1000"), maxPrice := Some("2000")), parseInt, parsePrice, None, t)
            == [P3(t)]
  {
    ListedFromFallback(NoParams.(minPrice := Some("1000"), maxPrice := Some("2000")), parseInt, parsePrice,
                       t, PriceRangeRequestFilter);
    PriceRangeRequestFiltered(t);
    PageOf(PriceRangeRequestFilter, t, [P3(t)]);
    WholePage([P3(t)], DefaultLimit);
  }

  // ---------------------------------------------------------------------------
  // Searching "cotton"
  // ---------------------------------------------------------------------------

  const FeaturedCotton: ProductFilter := DefaultRequest.(search := Some(Cotton), featured := Some(true))
  const PlainCotton: ProductFilter := DefaultRequest.(search := Some(Cotton))

  lemma FeaturedCottonFiltered(t: int)
    ensures Filter(FallbackProducts(t), FallbackTest(FeaturedCotton)) == [P2(t)]
  {
    CottonOnlyInShirt(t);
    assert !FallbackKeeps(FeaturedCotton, P1(t)) && FallbackKeeps(FeaturedCotton, P2(t))
           && !FallbackKeeps(FeaturedCotton, P3(t)) && !FallbackKeeps(FeaturedCotton, P4(t))
           && !FallbackKeeps(FeaturedCotton, P5(t));
    KeepSecond(P1(t), P2(t), P3(t), P4(t), P5(t), FallbackTest(FeaturedCotton));
  }

  lemma PlainCottonFiltered(t: int)
    ensures Filter(FallbackProducts(t), FallbackTest(PlainCotton)) == []
  {
    CottonOnlyInShirt(t);
    assert !FallbackKeeps(PlainCotton, P1(t)) && !FallbackKeeps(PlainCotton, P2(t))
           && !FallbackKeeps(PlainCotton, P3(t)) && !FallbackKeeps(PlainCotton, P4(t))
           && !FallbackKeeps(PlainCotton, P5(t));
    KeepNone(P1(t), P2(t), P3(t), P4(t), P5(t), FallbackTest(PlainCotton));
  }

  /** Searching "cotton" among featured products (with the store down) finds
      the T-shirt alone; without `featured=true` it finds nothing, because the
      T-shirt is featured. */
  lemma CottonSearch(t: int, parseInt: string -> Num, parsePrice: string -> Num)
    ensures ListProducts(NoParams.(search := Some("cotton"), featured := Some("true")), parseInt, parsePrice, None, t)
            == [P2(t)]
    ensures ListProducts(NoParams.(search := Some("cotton")), parseInt, parsePrice, None, t) == []
  {
    ListedFromFallback(NoParams.(search := Some("cotton"), featured := Some("true")), parseInt, parsePrice,
                       t, FeaturedCotton);
    FeaturedCottonFiltered(t);
    PageOf(FeaturedCotton, t, [P2(t)]);
    ListedFromFallback(NoParams.(search := Some("cotton")), parseInt, parsePrice, t, PlainCotton);
    PlainCottonFiltered(t);
    PageOf(PlainCotton, t, []);
    WholePage([P2(t)], DefaultLimit);
  }

  /** Eleven categories with ids 1 to 11 and pairwise distinct slugs. */
  lemma CategoriesShape(t: int)
    ensures |FallbackCategories(t)| == 11
    ensures forall i :: 0 <= i < 11 ==> FallbackCategories(t)[i].id == i + 1
    ensures Distinct(FallbackCategories(t), CategorySlug)
  {
    SlugPositions(t);
    DistinctByIndex(FallbackCategories(t), CategorySlug, SlugRank);
  }

  function CategorySlug(c: Category): string { c.slug }

  /** The first two letters tell the fallback slugs apart; this gives each its
      position in the list. */
  function SlugRank(slug: string): int {
    if |slug| < 2 then -1
    else match slug[..2]
      case "mu" => 0 case "cl" => 1 case "ke" => 2 case "bo" => 3 case "ac" => 4
      case "je" => 5 case "ho" => 6 case "ba" => 7 case "co" => 8 case "gi" => 9
      case "fl" => 10 case _ => -1
  }

  lemma SlugPositions(t: int)
    ensures forall i :: 0 <= i < 11 ==> SlugRank(FallbackCategories(t)[i].slug) == i
  {
    var cs := FallbackCategories(t);
    assert cs[0].slug[..2] == "mu";
    assert cs[1].slug[..2] == "cl";
    assert cs[2].slug[..2] == "ke";
    assert cs[3].slug[..2] == "bo";
    assert cs[4].slug[..2] == "ac";
    assert cs[5].slug[..2] == "je";
    assert cs[6].slug[..2] == "ho";
    assert cs[7].slug[..2] == "ba";
    assert cs[8].slug[..2] == "co";
    assert cs[9].slug[..2] == "gi";
    assert cs[10].slug[..2] == "fl";
  }

  /** The fallback promo codes are upper-case and active, with uses left. */
  lemma PromosShape(t: int)
    ensures forall i :: 0 <= i < |FallbackPromos(t)| ==>
              var p := FallbackPromos(t)[i];
              IsUpper(p.code) && IsActive(p) && p.usageCount.value < p.usageLimit.value
  {
  }

  /** WELCOME20, asked for in lower case with the store down, is applicable
      exactly until thirty days after the data was loaded. */
  lemma WelcomeValidFor30Days(t: int, now: int)
    ensures ValidatePromo("welcome20", None, now, t).Ok? <==> now <= t + 30 * DayMillis
    ensures ValidatePromo("welcome20", None, now, t).Ok? ==> ValidatePromo("welcome20", None, now, t).body.discount == 2000
  {
    assert Upper("welcome20") == "WELCOME20";
  }
}
