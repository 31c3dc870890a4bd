/**
 * The list handler of `GET /api/products`: an exact category filter, a
 * case-insensitive name search, then pagination by `slice`.
 */
module Query {
  import opened Wrappers
  import opened Sequences
  import opened Strings
  import opened Catalog
  import opened Http

  /**
   * The query string as the handler sees it. `page` and `limit` are the results of
   * `parseInt`, with `None` for `NaN` (an absent or non-numeric parameter).
   */
  datatype ListQuery = ListQuery(
    category: Option<string>,
    search: Option<string>,
    page: Option<int>,
    limit: Option<int>)

  const DefaultPage := 1
  const DefaultLimit := 10

  /** Step 1: with a truthy `category`, keep the products whose category is exactly it. */
  function ByCategory(ps: seq<Product>, category: Option<string>): (r: seq<Product>)
    ensures IsSubsequence(r, ps)
    ensures Truthy(category) ==> forall p :: p in r ==> p.category == category.value
  {
    if Truthy(category) then
      var keep := (p: Product) => p.category == category.value;
      FilterIsSubsequence(ps, keep);
      Filter(ps, keep)
    else
      SubsequenceReflexive(ps);
      ps
  }

  /** The product's lower-cased name includes the lower-cased search text. */
  predicate NameMatches(p: Product, search: string)
    ensures NameMatches(p, search) <==> exists i :: OccursAt(ToLowerCase(p.name), ToLowerCase(search), i)
    ensures search == "" ==> NameMatches(p, search)
    ensures NameMatches(p, search) ==> |search| <= |p.name|
  {
    IncludesIffOccurs(ToLowerCase(p.name), ToLowerCase(search));
    assert Includes(ToLowerCase(p.name), ToLowerCase(search)) <==>
      exists i :: OccursAt(ToLowerCase(p.name), ToLowerCase(search), i);
    Includes(ToLowerCase(p.name), ToLowerCase(search))
  }

  /** Step 2: with a truthy `search`, keep the products whose name matches it. */
  function BySearch(ps: seq<Product>, search: Option<string>): (r: seq<Product>)
    ensures IsSubsequence(r, ps)
    ensures Truthy(search) ==> forall p :: p in r ==> NameMatches(p, search.value)
  {
    if Truthy(search) then
      var keep := (p: Product) => NameMatches(p, search.value);
      FilterIsSubsequence(ps, keep);
      Filter(ps, keep)
    else
      SubsequenceReflexive(ps);
      ps
  }

  /** `parseInt(x) || fallback`: `NaN` and 0 are falsy, every other integer is kept. */
  function OrDefault(parsed: Option<int>, fallback: int): (n: int)
    ensures parsed.None? || parsed.value == 0 ==> n == fallback
    ensures parsed.Some? && parsed.value != 0 ==> n == parsed.value
    ensures n != 0 || fallback == 0
  {
    if parsed.None? || parsed.value == 0 then fallback else parsed.value
  }

  /** Step 3: `slice((page - 1) * limit, (page - 1) * limit + limit)`. */
  function Paginate(s: seq<Product>, page: int, limit: int): (r: seq<Product>)
    ensures IsSubsequence(r, s)
  {
    var start := (page - 1) * limit;
    JsSlice(s, start, start + limit)
  }

  function Min(a: int, b: int): int { if a < b then a else b }
  function Max(a: int, b: int): int { if a < b then b else a }

  /** The whole handler. */
  function List(ps: seq<Product>, q: ListQuery): (r: Response)
    ensures r.status == 200 && r.body.Items?
    ensures IsSubsequence(r.body.items, ps)
    ensures forall p :: p in r.body.items ==>
      && (Truthy(q.category) ==> p.category == q.category.value)
      && (Truthy(q.search) ==> NameMatches(p, q.search.value))
  {
    var filtered := ByCategory(ps, q.category);
    var searched := BySearch(filtered, q.search);
    var page := Paginate(searched, OrDefault(q.page, DefaultPage), OrDefault(q.limit, DefaultLimit));
    SubsequenceTransitive(searched, filtered, ps);
    SubsequenceTransitive(page, searched, ps);
    SubsequenceMembers(page, searched);
    SubsequenceMembers(searched, filtered);
    Response(200, Items(page))
  }

  /** The category filter keeps exactly the products of that category, each as often as before, in order. */
  lemma CategoryFilterExact(ps: seq<Product>, category: string)
    requires category != ""
    ensures var r := ByCategory(ps, Some(category));
      && IsSubsequence(r, ps)
      && (forall p :: p in r <==> p in ps && p.category == category)
      && (forall p :: multiset(r)[p] == if p.category == category then multiset(ps)[p] else 0)
  {
    var keep := (p: Product) => p.category == category;
    FilterIsSubsequence(ps, keep);
    forall p ensures multiset(Filter(ps, keep))[p] == if p.category == category then multiset(ps)[p] else 0 {
      FilterCount(ps, keep, p);
    }
    forall p ensures p in Filter(ps, keep) <==> p in ps && p.category == category {
      FilterMembers(ps, keep, p);
    }
  }

  /** The name search keeps exactly the products whose name matches, each as often as before, in order. */
  lemma SearchExact(ps: seq<Product>, search: string)
    requires search != ""
    ensures var r := BySearch(ps, Some(search));
      && IsSubsequence(r, ps)
      && (forall p :: p in r <==> p in ps && NameMatches(p, search))
      && (forall p :: multiset(r)[p] == if NameMatches(p, search) then multiset(ps)[p] else 0)
  {
    var keep := (p: Product) => NameMatches(p, search);
    FilterIsSubsequence(ps, keep);
    forall p ensures multiset(Filter(ps, keep))[p] == if NameMatches(p, search) then multiset(ps)[p] else 0 {
      FilterCount(ps, keep, p);
    }
    forall p ensures p in Filter(ps, keep) <==> p in ps && NameMatches(p, search) {
      FilterMembers(ps, keep, p);
    }
  }

  /** Search texts that differ only in letter case select the same products. */
  lemma SearchCaseInsensitive(ps: seq<Product>, s1: string, s2: string)
    requires s1 != "" && s2 != ""
    requires ToLowerCase(s1) == ToLowerCase(s2)
    ensures BySearch(ps, Some(s1)) == BySearch(ps, Some(s2))
  {
    FilterExtensional(ps, (p: Product) => NameMatches(p, s1), (p: Product) => NameMatches(p, s2));
  }

  /** Searching "bolt" finds a product named "Heavy Bolt". */
  lemma SearchExample(p: Product)
    requires p.name == "Heavy Bolt"
    ensures BySearch([p], Some("bolt")) == [p]
  {
    assert ToLowerCase(p.name) == "heavy bolt";
    assert ToLowerCase("bolt") == "bolt";
    assert OccursAt("heavy bolt", "bolt", 6);
    IncludesIffOccurs("heavy bolt", "bolt");
  }

  /** The category filter is exact: "tool" does not select a product of category "Tools". */
  lemma CategoryExample(p: Product)
    requires p.category == "Tools"
    ensures ByCategory([p], Some("tool")) == []
  {
  }

  /**
   * With page and limit at least 1, the page is the window starting at
   * `(page - 1) * limit` of at most `limit` products, clipped to the length.
   */
  lemma PageWindow(s: seq<Product>, page: int, limit: int)
    requires page >= 1 && limit >= 1
    ensures var start, r := (page - 1) * limit, Paginate(s, page, limit);
      && |r| == Min(limit, Max(0, |s| - start))
      && (start >= |s| ==> r == [])
      && (start < |s| ==> r == s[start..Min(start + limit, |s|)])
  {
    var start := (page - 1) * limit;
    MulNonNegative(page - 1, limit);
    SliceWindow(s, start, limit);
  }

  /** A product of non-negative factors is non-negative, as the start of a page is. */
  lemma MulNonNegative(a: int, b: int)
    requires a >= 0 && b >= 0
    ensures a * b >= 0
  {
  }

  /** The slice from a non-negative start of a positive length, clipped to the list. */
  lemma SliceWindow(s: seq<Product>, start: int, limit: int)
    requires start >= 0 && limit >= 1
    ensures var r := JsSlice(s, start, start + limit);
      && |r| == Min(limit, Max(0, |s| - start))
      && (start >= |s| ==> r == [])
      && (start < |s| ==> r == s[start..Min(start + limit, |s|)])
  {
  }

  /** Over 25 products with limit 10: pages 1, 3 and 4 hold 10, 5 and no products. */
  lemma PageSizeExamples(s: seq<Product>)
    requires |s| == 25
    ensures |Paginate(s, 1, 10)| == 10
    ensures |Paginate(s, 3, 10)| == 5
    ensures Paginate(s, 4, 10) == []
  {
    PageWindow(s, 1, 10);
    PageWindow(s, 3, 10);
    PageWindow(s, 4, 10);
  }

  /** Without parameters (or with ones parsing to 0), the list is the first ten products. */
  lemma ListDefaults(ps: seq<Product>, q: ListQuery)
    requires !Truthy(q.category) && !Truthy(q.search)
    requires q.page == None || q.page == Some(0)
    requires q.limit == None || q.limit == Some(0)
    ensures List(ps, q).body.items == ps[..Min(10, |ps|)]
  {
    PageWindow(ps, 1, 10);
  }

  /** A negative limit is not clamped: page 1 with limit -k drops the last k products. */
  lemma NegativeLimitDropsTail(s: seq<Product>, k: int)
    requires 1 <= k <= |s|
    ensures Paginate(s, 1, -k) == s[..|s| - k]
  {
  }

  /** At the handler: page -1 with limit 10 over 25 products answers products 5 to 14. */
  lemma ListNegativePage(ps: seq<Product>)
    requires |ps| == 25
    ensures List(ps, ListQuery(None, None, Some(-1), Some(10))).body.items == ps[5..15]
  {
    NegativePageCountsFromEnd(ps);
  }

  /** A negative page is not clamped: its window is counted from the end of the list. */
  lemma NegativePageCountsFromEnd(s: seq<Product>)
    requires |s| == 25
    ensures Paginate(s, -1, 10) == s[5..15]
  {
  }
}
