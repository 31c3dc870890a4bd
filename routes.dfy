/**
 * The router over the shared `products` array: get by id over a snapshot, and
 * create, update and delete, which change the array in place. The POST and PUT
 * routes are also given with the payload validator mounted in front.
 */
module Routes {
  import opened Wrappers
  import opened Sequences
  import opened Catalog
  import opened Http
  import opened Validate

  /** `GET /api/products/:id`. */
  function GetById(ps: seq<Product>, id: string): (r: Response)
    ensures r.status == 200 <==> id in Ids(ps)
    ensures r.status == 200 ==> r.body.Item? && r.body.product in ps && r.body.product.id == id
    ensures r.status != 200 ==> r == NotFound()
  {
    match Find(ps, id)
    case None => NotFound()
    case Some(p) => Response(200, Item(p))
  }

  /** With unique ids, the product returned is the one stored under that id. */
  lemma GetByIdUnique(ps: seq<Product>, k: nat)
    requires UniqueIds(ps)
    requires k < |ps|
    ensures GetById(ps, ps[k].id) == Response(200, Item(ps[k]))
  {
    FindUnique(ps, ps[k].id, k);
  }

  /** The product a complete body describes, under the id `id`. */
  function FromBody(b: ProductBody, id: string): (p: Product)
    requires HasAllFields(b)
    ensures p.id == id
    ensures p.name == b.name.value && p.description == b.description.value
    ensures p.price == b.price.value && p.category == b.category.value && p.inStock == b.inStock.value
  {
    Product(id, b.name.value, b.description.value, b.price.value, b.category.value, b.inStock.value)
  }

  /** The `products` array the router is built over. */
  class ProductStore {
    var products: seq<Product>

    constructor (initial: seq<Product>)
      ensures products == initial
    {
      products := initial;
    }

    /** The POST handler: the inline check, then `push` of a record under the fresh id `newId`. */
    method Create(body: ProductBody, newId: string) returns (resp: Response)
      requires newId !in Ids(products)
      modifies this
      ensures !HasAllFields(body) ==>
        resp == Response(400, Failure(FieldsRequiredMessage)) && products == old(products)
      ensures HasAllFields(body) ==>
        && products == old(products) + [FromBody(body, newId)]
        && resp == Response(201, Item(FromBody(body, newId)))
      ensures HasAllFields(body) ==> Ids(products) == Ids(old(products)) + {newId}
      ensures UniqueIds(old(products)) ==> UniqueIds(products)
    {
      if !HasAllFields(body) {
        return Response(400, Failure(FieldsRequiredMessage));
      }
      var p := FromBody(body, newId);
      AppendFresh(products, p);
      products := products + [p];
      resp := Response(201, Item(p));
    }

    /** The PUT handler on its own: every field present in `body` overwrites the stored one. */
    method Update(id: string, body: ProductBody) returns (resp: Response)
      modifies this
      ensures FindIndex(old(products), id) == -1 ==> resp == NotFound() && products == old(products)
      ensures var i := FindIndex(old(products), id);
        0 <= i ==>
          && |products| == |old(products)|
          && (forall k :: 0 <= k < |products| && k != i ==> products[k] == old(products)[k])
          && products[i].id == old(products)[i].id
          && products[i].name == (if body.name.Some? then body.name.value else old(products)[i].name)
          && products[i].description ==
               (if body.description.Some? then body.description.value else old(products)[i].description)
          && products[i].price == (if body.price.Some? then body.price.value else old(products)[i].price)
          && products[i].category == (if body.category.Some? then body.category.value else old(products)[i].category)
          && products[i].inStock == (if body.inStock.Some? then body.inStock.value else old(products)[i].inStock)
          && resp == Response(200, Item(products[i]))
      ensures Ids(products) == Ids(old(products))
      ensures UniqueIds(old(products)) ==> UniqueIds(products)
    {
      var i := FindIndex(products, id);
      if i == -1 {
        return NotFound();
      }
      var q := Patch(products[i], body);
      ReplaceSameId(products, i, q);
      products := products[i := q];
      resp := Response(200, Item(q));
    }

    /** The DELETE handler: `findIndex`, then `splice` of that one entry. */
    method Delete(id: string) returns (resp: Response)
      modifies this
      ensures FindIndex(old(products), id) == -1 ==> resp == NotFound() && products == old(products)
      ensures var i := FindIndex(old(products), id);
        0 <= i ==>
          && products == RemoveAt(old(products), i)
          && resp == Response(200, Removed(DeletedMessage, old(products)[i]))
      ensures UniqueIds(old(products)) ==> UniqueIds(products)
      ensures UniqueIds(old(products)) ==> Ids(products) == Ids(old(products)) - {id}
    {
      var i := FindIndex(products, id);
      if i == -1 {
        return NotFound();
      }
      var removed := products[i];
      if UniqueIds(products) {
        RemoveKeepsUnique(products, i);
      }
      products := RemoveAt(products, i);
      resp := Response(200, Removed(DeletedMessage, removed));
    }

    /** `POST /api/products`: the validator middleware, then the handler. */
    method Post(body: ProductBody, newId: string) returns (resp: Response)
      requires newId !in Ids(products)
      modifies this
      ensures ValidateProduct(body) != Next ==>
        resp == Response(400, Failure(FieldsRequiredMessage)) && products == old(products)
      ensures ValidateProduct(body) == Next ==>
        && products == old(products) + [FromBody(body, newId)]
        && resp == Response(201, Item(FromBody(body, newId)))
      ensures UniqueIds(old(products)) ==> UniqueIds(products)
    {
      var gate := ValidateProduct(body);
      if gate != Next {
        return Rejection(gate);
      }
      resp := Create(body, newId);
    }

    /**
     * `PUT /api/products/:id`: the validator middleware, then the handler. Past the
     * validator every field is present, so the stored product is replaced whole.
     */
    method Put(id: string, body: ProductBody) returns (resp: Response)
      modifies this
      ensures ValidateProduct(body) != Next ==>
        resp == Response(400, Failure(FieldsRequiredMessage)) && products == old(products)
      ensures ValidateProduct(body) == Next && FindIndex(old(products), id) == -1 ==>
        resp == NotFound() && products == old(products)
      ensures var i := FindIndex(old(products), id);
        ValidateProduct(body) == Next && 0 <= i ==>
          && products == old(products)[i := FromBody(body, id)]
          && resp == Response(200, Item(FromBody(body, id)))
      ensures UniqueIds(old(products)) ==> UniqueIds(products)
    {
      var gate := ValidateProduct(body);
      if gate != Next {
        return Rejection(gate);
      }
      resp := Update(id, body);
    }
  }
}
