/**
 * Handler outcomes in place of Express's `res.status(...).json(...)` and `next()`.
 */
module Http {
  import opened Catalog

  /** What a middleware does: call `next()`, or answer with a status and `{ error }`. */
  datatype Gate = Next | Reject(status: nat, error: string)

  /** The JSON bodies the routes answer with. */
  datatype Body =
    | Items(items: seq<Product>)
    | Counts(counts: map<string, nat>)
    | Item(product: Product)
    | Removed(message: string, product: Product)
    | Failure(error: string)

  datatype Response = Response(status: nat, body: Body)

  const NotFoundMessage := "Product not found"
  const FieldsRequiredMessage := "All product fields are required"
  const UnauthorizedMessage := "Unauthorized"
  const DeletedMessage := "Product deleted"

  /** The 404 answer shared by get, update and delete. */
  function NotFound(): (r: Response)
    ensures r.status == 404 && r.body.Failure? && r.body.error == "Product not found"
  {
    Response(404, Failure(NotFoundMessage))
  }

  /** The answer a rejecting middleware sends. */
  function Rejection(g: Gate): Response
    requires g.Reject?
  {
    Response(g.status, Failure(g.error))
  }
}
