/**
 * The handler of `GET /api/products/stats`: a `forEach` over all products
 * counting how many fall in each category.
 */
module Stats {
  import opened Catalog
  import opened Http

  /** The categories present among the products. */
  function Categories(ps: seq<Product>): set<string> {
    if ps == [] then {} else Categories(ps[..|ps| - 1]) + {ps[|ps| - 1].category}
  }

  /** A category is present iff some product has it. */
  lemma {:induction false} CategoriesPresent(ps: seq<Product>, c: string)
    ensures c in Categories(ps) <==> exists p :: p in ps && p.category == c
  {
    if ps != [] {
      var init := ps[..|ps| - 1];
      assert ps == init + [ps[|ps| - 1]];
      CategoriesPresent(init, c);
    }
  }

  /** The number of products whose category is `c`. */
  function CountCategory(ps: seq<Product>, c: string): (n: nat)
    ensures n <= |ps|
    ensures n == 0 <==> c !in Categories(ps)
  {
    if ps == [] then 0
    else
      CountCategory(ps[..|ps| - 1], c) + if ps[|ps| - 1].category == c then 1 else 0
  }

  /** The per-category summary: each category present, mapped to its number of products. */
  function CategoryCounts(ps: seq<Product>): (m: map<string, nat>)
    ensures m.Keys == Categories(ps)
  {
    map c | c in Categories(ps) :: CountCategory(ps, c)
  }

  /** Categories without products are absent rather than mapped to 0. */
  lemma CategoryCountsPositive(ps: seq<Product>, c: string)
    requires c in CategoryCounts(ps)
    ensures 1 <= CategoryCounts(ps)[c] <= |ps|
  {
  }

  /** The sum of the values of a map. */
  ghost function SumValues(m: map<string, nat>): nat
    decreases |m|
  {
    if m == map[] then 0
    else
      var k :| k in m;
      assert |m - {k}| < |m| by { assert m.Keys == (m - {k}).Keys + {k}; }
      m[k] + SumValues(m - {k})
  }

  lemma {:induction false} SumValuesRemove(m: map<string, nat>, k: string)
    requires k in m
    ensures SumValues(m) == m[k] + SumValues(m - {k})
    decreases |m|
  {
    var j :| j in m && SumValues(m) == m[j] + SumValues(m - {j});
    if j != k {
      assert (m - {j}).Keys + {j} == m.Keys;
      assert (m - {k}).Keys + {k} == m.Keys;
      SumValuesRemove(m - {j}, k);
      SumValuesRemove(m - {k}, j);
      assert m - {j} - {k} == m - {k} - {j};
    }
  }

  lemma SumValuesUpdate(m: map<string, nat>, k: string, v: nat)
    ensures SumValues(m[k := v]) == SumValues(m) - (if k in m then m[k] else 0) + v
  {
    SumValuesRemove(m[k := v], k);
    if k in m {
      SumValuesRemove(m, k);
      assert m[k := v] - {k} == m - {k};
    } else {
      assert m[k := v] - {k} == m;
    }
  }

  /** The entry of one category, from the products before the last one. */
  lemma CategoryCountsLastAt(ps: seq<Product>, k: string)
    requires ps != []
    requires k in CategoryCounts(ps)
    ensures var init, c := ps[..|ps| - 1], ps[|ps| - 1].category;
      && (k == c ==> CategoryCounts(ps)[k] == CountCategory(init, k) + 1)
      && (k != c ==> k in CategoryCounts(init) && CategoryCounts(ps)[k] == CategoryCounts(init)[k])
  {
  }

  /** Maps with the same keys and the same value at each key are equal. */
  lemma MapsEqual(m: map<string, nat>, m': map<string, nat>)
    requires m.Keys == m'.Keys
    requires forall k :: k in m ==> m[k] == m'[k]
    ensures m == m'
  {
  }

  /** Counting the last product increments its category's entry (creating it at 1). */
  lemma CategoryCountsLast(ps: seq<Product>)
    requires ps != []
    ensures var init, c := ps[..|ps| - 1], ps[|ps| - 1].category;
      CategoryCounts(ps) == CategoryCounts(init)[c := CountCategory(init, c) + 1]
  {
    var init, c := ps[..|ps| - 1], ps[|ps| - 1].category;
    var m, m' := CategoryCounts(ps), CategoryCounts(init)[c := CountCategory(init, c) + 1];
    assert m.Keys == m'.Keys;
    forall k | k in m ensures m[k] == m'[k] {
      CategoryCountsLastAt(ps, k);
    }
    MapsEqual(m, m');
  }

  lemma SumValuesIncrement(m: map<string, nat>, k: string, n: nat)
    requires (if k in m then m[k] else 0) == n
    ensures SumValues(m[k := n + 1]) == SumValues(m) + 1
  {
    SumValuesUpdate(m, k, n + 1);
  }

  /** Counting the last product adds exactly one to the total of the counts. */
  lemma CategoryCountsLastSum(ps: seq<Product>)
    requires ps != []
    ensures SumValues(CategoryCounts(ps)) == SumValues(CategoryCounts(ps[..|ps| - 1])) + 1
  {
    var init, c := ps[..|ps| - 1], ps[|ps| - 1].category;
    var m := CategoryCounts(init);
    var n := CountCategory(init, c);
    assert (if c in m then m[c] else 0) == n;
    assert CategoryCounts(ps) == m[c := n + 1] by { CategoryCountsLast(ps); }
    assert SumValues(m[c := n + 1]) == SumValues(m) + 1 by { SumValuesIncrement(m, c, n); }
  }

  /** The counts add up to the number of products. */
  lemma {:induction false} CategoryCountsTotal(ps: seq<Product>)
    ensures SumValues(CategoryCounts(ps)) == |ps|
  {
    if ps == [] {
      assert CategoryCounts(ps) == map[];
    } else {
      CategoryCountsTotal(ps[..|ps| - 1]);
      CategoryCountsLastSum(ps);
    }
  }

  /** Products of categories A, A and B give the summary {A: 2, B: 1}. */
  lemma CategoryCountsExample(a1: Product, a2: Product, b: Product)
    requires a1.category == "A" && a2.category == "A" && b.category == "B"
    ensures CategoryCounts([a1, a2, b]) == map["A" := 2, "B" := 1]
  {
    var e: seq<Product> := [];
    assert CategoryCounts(e) == map[];
    assert CategoryCounts([a1]) == map["A" := 1] by {
      assert [a1][..0] == e;
      CategoryCountsLast([a1]);
    }
    assert CategoryCounts([a1, a2]) == map["A" := 2] by {
      assert [a1, a2][..1] == [a1];
      assert CountCategory([a1], "A") == 1 by { assert [a1][..0] == e; }
      CategoryCountsLast([a1, a2]);
    }
    assert CategoryCounts([a1, a2, b]) == map["A" := 2, "B" := 1] by {
      assert [a1, a2, b][..2] == [a1, a2];
      assert CountCategory([a1, a2], "B") == 0;
      CategoryCountsLast([a1, a2, b]);
    }
  }

  /** The loop step: the counts of the first `i + 1` products from those of the first `i`. */
  lemma CountPrefixStep(ps: seq<Product>, i: nat, stats: map<string, nat>)
    requires i < |ps| && stats == CategoryCounts(ps[..i])
    ensures var c := ps[i].category;
      CategoryCounts(ps[..i + 1]) == stats[c := (if c in stats then stats[c] else 0) + 1]
  {
    var c := ps[i].category;
    assert ps[..i + 1][..i] == ps[..i];
    assert (if c in stats then stats[c] else 0) == CountCategory(ps[..i], c);
    CategoryCountsLast(ps[..i + 1]);
  }

  /** The handler: one pass over the products, incrementing `stats[p.category]`. */
  method Stats(ps: seq<Product>) returns (resp: Response)
    ensures resp.status == 200 && resp.body.Counts?
    ensures resp.body.counts == CategoryCounts(ps)
    ensures SumValues(resp.body.counts) == |ps|
  {
    var stats: map<string, nat> := map[];
    assert ps[..0] == [];
    for i := 0 to |ps|
      invariant stats == CategoryCounts(ps[..i])
    {
      var c := ps[i].category;
      CountPrefixStep(ps, i, stats);
      stats := stats[c := (if c in stats then stats[c] else 0) + 1];
    }
    assert ps[..|ps|] == ps;
    CategoryCountsTotal(ps);
    resp := Response(200, Counts(stats));
  }
}
