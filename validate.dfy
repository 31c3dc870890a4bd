/**
 * The payload validator mounted on POST and PUT: name, description and
 * category must be truthy, price and inStock only present.
 */
module Validate {
  import opened Wrappers
  import opened Strings
  import opened Catalog
  import opened Http

  /** The condition both the middleware and the create handler test. */
  predicate HasAllFields(b: ProductBody)
    ensures HasAllFields(b) <==>
      && b.name.Some? && b.name.value != ""
      && b.description.Some? && b.description.value != ""
      && b.price.Some?
      && b.category.Some? && b.category.value != ""
      && b.inStock.Some?
  {
    Truthy(b.name) && Truthy(b.description) && b.price.Some? && Truthy(b.category) && b.inStock.Some?
  }

  /** The middleware: `next()` for a complete body, otherwise the 400 answer. */
  function ValidateProduct(b: ProductBody): (g: Gate)
    ensures g == Next <==> HasAllFields(b)
    ensures g != Next ==> g == Reject(400, FieldsRequiredMessage)
  {
    if HasAllFields(b) then Next else Reject(400, FieldsRequiredMessage)
  }

  /** A price of 0 and an inStock of false are present values, not missing ones. */
  lemma FalsyPriceAndStockAccepted(name: string, description: string, category: string)
    requires name != "" && description != "" && category != ""
    ensures ValidateProduct(ProductBody(Some(name), Some(description), Some(0.0), Some(category), Some(false))) == Next
  {
  }

  /** An empty name, description or category is rejected like a missing one. */
  lemma EmptyStringRejected(b: ProductBody)
    requires b.name == Some("") || b.description == Some("") || b.category == Some("")
    ensures ValidateProduct(b) == Reject(400, FieldsRequiredMessage)
  {
  }
}
