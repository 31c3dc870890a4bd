/**
 * The product record, the request body the create and update handlers
 * destructure, and the lookups by id over the shared `products` array.
 */
module Catalog {
  import opened Wrappers
  import opened Sequences

  datatype Product = Product(
    id: string,
    name: string,
    description: string,
    price: real,
    category: string,
    inStock: bool)

  /** The five destructured fields of `req.body`; `None` stands for `undefined`. */
  datatype ProductBody = ProductBody(
    name: Option<string>,
    description: Option<string>,
    price: Option<real>,
    category: Option<string>,
    inStock: Option<bool>)

  function Ids(ps: seq<Product>): set<string> {
    set p | p in ps :: p.id
  }

  predicate UniqueIds(ps: seq<Product>) {
    forall i, j :: 0 <= i < j < |ps| ==> ps[i].id != ps[j].id
  }

  /** `products.findIndex(p => p.id === id)`: the first position holding `id`, or -1. */
  function FindIndex(ps: seq<Product>, id: string): (r: int)
    ensures -1 <= r < |ps|
    ensures r == -1 <==> id !in Ids(ps)
    ensures 0 <= r ==> ps[r].id == id && forall j :: 0 <= j < r ==> ps[j].id != id
  {
    if ps == [] then -1
    else if ps[0].id == id then 0
    else
      var k := FindIndex(ps[1..], id);
      assert Ids(ps) == {ps[0].id} + Ids(ps[1..]);
      if k == -1 then -1 else k + 1
  }

  /** `products.find(p => p.id === id)`: the first product holding `id`, if any. */
  function Find(ps: seq<Product>, id: string): (r: Option<Product>)
    ensures r.None? <==> id !in Ids(ps)
    ensures r.Some? ==> r.value in ps && r.value.id == id
  {
    if ps == [] then None
    else if ps[0].id == id then Some(ps[0])
    else
      assert Ids(ps) == {ps[0].id} + Ids(ps[1..]);
      Find(ps[1..], id)
  }

  /** `find` returns the element at the position `findIndex` reports. */
  lemma {:induction false} FindAtFindIndex(ps: seq<Product>, id: string)
    ensures Find(ps, id) == if FindIndex(ps, id) == -1 then None else Some(ps[FindIndex(ps, id)])
  {
    if ps != [] && ps[0].id != id {
      FindAtFindIndex(ps[1..], id);
    }
  }

  /** With unique ids, the product `find` returns is the only one holding `id`. */
  lemma FindUnique(ps: seq<Product>, id: string, k: nat)
    requires UniqueIds(ps)
    requires k < |ps| && ps[k].id == id
    ensures FindIndex(ps, id) == k
    ensures Find(ps, id) == Some(ps[k])
  {
    FindAtFindIndex(ps, id);
  }

  /** The update handler's field assignments: each field present in `b` overwrites the stored one. */
  function Patch(p: Product, b: ProductBody): (q: Product)
    ensures q.id == p.id
    ensures q.name == (if b.name.Some? then b.name.value else p.name)
    ensures q.description == (if b.description.Some? then b.description.value else p.description)
    ensures q.price == (if b.price.Some? then b.price.value else p.price)
    ensures q.category == (if b.category.Some? then b.category.value else p.category)
    ensures q.inStock == (if b.inStock.Some? then b.inStock.value else p.inStock)
  {
    Product(
      p.id,
      b.name.GetOr(p.name),
      b.description.GetOr(p.description),
      b.price.GetOr(p.price),
      b.category.GetOr(p.category),
      b.inStock.GetOr(p.inStock))
  }

  /** Appending a product with a fresh id keeps ids unique and adds exactly that id. */
  lemma AppendFresh(ps: seq<Product>, p: Product)
    requires p.id !in Ids(ps)
    ensures Ids(ps + [p]) == Ids(ps) + {p.id}
    ensures UniqueIds(ps) ==> UniqueIds(ps + [p])
  {
    assert forall i :: 0 <= i < |ps| ==> ps[i] in ps;
  }

  /** Replacing a product by one with the same id changes neither the ids nor their uniqueness. */
  lemma {:induction false} ReplaceSameId(ps: seq<Product>, i: nat, q: Product)
    requires i < |ps| && q.id == ps[i].id
    ensures Ids(ps[i := q]) == Ids(ps)
    ensures UniqueIds(ps) ==> UniqueIds(ps[i := q])
  {
    var qs := ps[i := q];
    forall x | x in Ids(ps) ensures x in Ids(qs) {
      var p :| p in ps && p.id == x;
      var k :| 0 <= k < |ps| && ps[k] == p;
      assert qs[k].id == x;
    }
    forall x | x in Ids(qs) ensures x in Ids(ps) {
      var p :| p in qs && p.id == x;
      var k :| 0 <= k < |qs| && qs[k] == p;
      assert ps[k].id == x;
    }
  }

  /** Removing the product at `i` removes its id (when ids are unique) and keeps the others unique. */
  lemma {:induction false} RemoveKeepsUnique(ps: seq<Product>, i: nat)
    requires i < |ps|
    requires UniqueIds(ps)
    ensures UniqueIds(RemoveAt(ps, i))
    ensures Ids(RemoveAt(ps, i)) == Ids(ps) - {ps[i].id}
  {
    var qs := RemoveAt(ps, i);
    forall a, b | 0 <= a < b < |qs| ensures qs[a].id != qs[b].id {
      var a', b' := if a < i then a else a + 1, if b < i then b else b + 1;
      assert qs[a] == ps[a'] && qs[b] == ps[b'];
    }
    forall x | x in Ids(qs) ensures x in Ids(ps) - {ps[i].id} {
      var p :| p in qs && p.id == x;
      var k :| 0 <= k < |qs| && qs[k] == p;
      var k' := if k < i then k else k + 1;
      assert ps[k'] == p && k' != i;
    }
    forall x | x in Ids(ps) - {ps[i].id} ensures x in Ids(qs) {
      var p :| p in ps && p.id == x;
      var k :| 0 <= k < |ps| && ps[k] == p;
      assert k != i;
      assert qs[if k < i then k else k - 1] == p;
    }
  }
}
