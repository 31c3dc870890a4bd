# Product API: a Dafny model

This project models the request handlers of a small Express service that keeps one
in-memory array of products. `routes.js` builds a router over that shared array.
The router offers:

- a list endpoint with category filter, name search and pagination;
- a per-category statistics endpoint;
- get by id, create, update and delete.

Two middlewares sit in front of the handlers: a payload validator, mounted on POST
and PUT, and an API-key gate.

Layout, one module per concern:

| file | module | models |
|---|---|---|
| `wrappers.dfy` | `Wrappers` | `Option`, standing for a JavaScript value that may be `undefined` |
| `sequences.dfy` | `Sequences` | `Array.prototype.filter`, `slice` (with its negative-index rules), `splice(i, 1)`, and the order-preserving subsequence relation |
| `strings.dfy` | `Strings` | truthiness of an optional string, ASCII `toLowerCase`, `includes` |
| `catalog.dfy` | `Catalog` | the product record, the destructured request body, `find`/`findIndex` by id, the update's field assignments, id uniqueness |
| `http.dfy` | `Http` | handler outcomes: a middleware's `next()` or rejection, the JSON bodies, status codes |
| `validate.dfy` | `Validate` | `middleware/validateProduct.js` |
| `auth.dfy` | `Auth` | `middleware/auth.js` |
| `query.dfy` | `Query` | the list handler of `GET /api/products` |
| `stats.dfy` | `Stats` | the handler of `GET /api/products/stats` |
| `routes.dfy` | `Routes` | get by id, and the `ProductStore` class whose `products` field is the shared array that create, update and delete change in place; also the POST and PUT routes with the validator in front |

The read-only handlers are functions over a snapshot `seq<Product>`, which is the
store's `products` field at the time of the request. The statistics handler is a
method with a loop, because the source's `forEach` updates an accumulator. The
mutating handlers are methods of `ProductStore`. Each states the whole new
`products` in terms of the old one, and says that unique ids stay unique.

Inputs that come from outside the code shown here are parameters:

- `uuidv4()` becomes `newId`, which must not already be an id in the store;
- `process.env.API_KEY` becomes `apiKey`;
- `req.headers['x-api-key']` becomes `header`;
- `parseInt(req.query.page)` and `parseInt(req.query.limit)` arrive already parsed, as `Option<int>`, where `None` is `NaN`.

Two behaviours of the code are worth stating on their own:

- Page and limit fall back to their defaults only when they parse to `NaN` or `0`, since the code reads `parseInt(x) || d`. Negative values pass through, and `slice` then counts them from the end of the list. `Query.NegativeLimitDropsTail`, `Query.NegativePageCountsFromEnd` and `Query.ListNegativePage` state what happens then.
- The validator is mounted on PUT as well as on POST (`routes.js:12`). So a PUT that reaches the handler has all five fields, and the stored product is replaced whole (`Routes.ProductStore.Put`). The handler's field-by-field logic is modelled on its own as `Routes.ProductStore.Update`.

## Model

| member | source | states |
|---|---|---|
| `Sequences.Filter` | routes.js:21-30 | the kept elements all come from the input and satisfy the predicate; the result is no longer than the input |
| `Sequences.FilterIsSubsequence` | routes.js:21-30 | `filter` keeps the original relative order: its result is a subsequence of its input |
| `Sequences.FilterCount` | routes.js:21-30 | every occurrence of a kept value survives and every occurrence of a rejected value is dropped (multiset counts) |
| `Sequences.FilterMembers` | routes.js:21-30 | a value is in the result iff it is in the input and satisfies the predicate |
| `Sequences.FilterExtensional` | routes.js:27-29 | two predicates that agree on every product filter alike |
| `Sequences.SliceIndex` | routes.js:39 | the index `slice` uses for a relative position never exceeds the length |
| `Sequences.JsSlice` | routes.js:39 | `slice(start, end)` returns a subsequence of the array, for any integers, negative ones included |
| `Sequences.RemoveAt` | routes.js:112 | `splice(i, 1)` shortens the array by one: entries before `i` stay put and entries after `i` move down one place |
| `Sequences.RemoveAtIsSubsequence` | routes.js:112 | the remaining entries keep their relative order |
| `Sequences.RemoveAtMultiset` | routes.js:112 | exactly the one entry at `i` is removed: the remaining entries plus that entry are the old contents |
| `Strings.Truthy` | routes.js:21-26 | an optional string is truthy iff it is neither `undefined` nor the empty string; the same test is applied to name, description and category at `middleware/validateProduct.js:4` and `routes.js:66` |
| `Strings.ToLowerCase` | routes.js:28 | lowercasing keeps the length and lowercases each ASCII letter in place |
| `Strings.Includes` | routes.js:28 | a text includes the empty string, and includes nothing longer than itself |
| `Strings.IncludesIffOccurs` | routes.js:28 | `includes(s, sub)` holds iff `sub` occurs in `s` at some position |
| `Catalog.FindIndex` | routes.js:106 | the first position holding the id, or -1 exactly when no product has it |
| `Catalog.Find` | routes.js:54 | a product from the array with the requested id, or none exactly when no product has it |
| `Catalog.FindAtFindIndex` | routes.js:86 | `find` returns the product at the position `findIndex` gives, so update and delete address the same entry |
| `Catalog.FindUnique` | routes.js:54 | with unique ids, the lookup finds the one product stored under that id |
| `Catalog.Patch` | routes.js:93-97 | each field present in the body replaces the stored one; absent fields and the id keep their old values |
| `Catalog.AppendFresh` | routes.js:69-77 | pushing a product with a fresh id adds exactly that id and keeps ids unique |
| `Catalog.ReplaceSameId` | routes.js:93-97 | replacing a product by one with the same id leaves the id set and its uniqueness unchanged |
| `Catalog.RemoveKeepsUnique` | routes.js:112 | removing an entry from a store with unique ids keeps them unique and removes just that entry's id |
| `Http.NotFound` | routes.js:57 | the 404 answer with error `Product not found`, shared with update and delete (`routes.js:89`, `routes.js:109`) |
| `Validate.HasAllFields` | middleware/validateProduct.js:4 | a body is complete iff name, description and category are non-empty strings and price and inStock are present |
| `Validate.ValidateProduct` | middleware/validateProduct.js:3-7 | `next()` iff the body is complete; otherwise 400 with `All product fields are required` |
| `Validate.FalsyPriceAndStockAccepted` | middleware/validateProduct.js:4 | a price of 0 and an inStock of false count as present and pass |
| `Validate.EmptyStringRejected` | middleware/validateProduct.js:4 | an empty name, description or category is rejected like a missing one |
| `Auth.Authenticate` | middleware/auth.js:3-9 | `next()` iff the header equals the configured key (both possibly absent); otherwise 401 with `Unauthorized` |
| `Auth.MissingHeaderRejected` | middleware/auth.js:4-6 | a request without the header is refused whenever a key is configured |
| `Auth.NoKeyNoHeaderPasses` | middleware/auth.js:4-5 | with no key configured, a request without the header passes |
| `Query.ByCategory` | routes.js:21-23 | the filtered list is a subsequence of the store and, with a truthy category, holds only products of that category |
| `Query.BySearch` | routes.js:26-30 | the searched list is a subsequence of its input and, with a truthy search text, holds only products whose name matches |
| `Query.NameMatches` | routes.js:27-28 | a product matches iff the lowercased search text occurs at some position of its lowercased name; the empty text matches every product, and a matching text is no longer than the name |
| `Query.OrDefault` | routes.js:34-35 | a parsed value other than 0 is kept; `NaN` or 0 gives the default; the result is never 0 when the default is not |
| `Query.Paginate` | routes.js:36-39 | the page keeps the order of the filtered list: it is a subsequence of it, for any page and limit |
| `Query.List` | routes.js:16-40 | the answer is 200 with a subsequence of the store, every item of which passes both the category filter and the name search |
| `Query.CategoryFilterExact` | routes.js:21-23 | the filter keeps exactly the products of that category, each as often as before, in order |
| `Query.SearchExact` | routes.js:26-30 | the search keeps exactly the products whose lowercased name includes the lowercased text, each as often as before, in order |
| `Query.SearchCaseInsensitive` | routes.js:28 | search texts that differ only in letter case select the same products |
| `Query.SearchExample` | routes.js:26-30 | searching `bolt` finds a product named `Heavy Bolt` |
| `Query.CategoryExample` | routes.js:21-23 | filtering by `tool` excludes a product of category `Tools` |
| `Query.PageWindow` | routes.js:34-39 | with page and limit at least 1, the page is the window from `(page-1)*limit` of length `min(limit, max(0, n-start))`, empty when the start is past the end |
| `Query.SliceWindow` | routes.js:39 | `slice(start, start + limit)` from a non-negative start is the window of at most `limit` entries there, clipped to the length |
| `Query.PageSizeExamples` | routes.js:34-39 | over 25 products with limit 10, pages 1, 3 and 4 hold 10, 5 and 0 products |
| `Query.ListDefaults` | routes.js:34-39 | with no filter and page and limit absent or 0, the answer is the first ten products |
| `Query.NegativeLimitDropsTail` | routes.js:35-39 | a limit of -k on page 1 answers all but the last k products |
| `Query.NegativePageCountsFromEnd` | routes.js:34-39 | page -1 with limit 10 over 25 products answers products 5 to 14, counted from the end |
| `Query.ListNegativePage` | routes.js:16-40 | the whole handler, asked for page -1 with limit 10 over 25 products and no filter, answers products 5 to 14 |
| `Stats.CategoriesPresent` | routes.js:45-46 | a category is among the categories present iff some product has it |
| `Stats.CountCategory` | routes.js:45-47 | the count of a category is at most the number of products, and 0 exactly when no product has it |
| `Stats.CategoryCounts` | routes.js:43-48 | the keys of the summary are exactly the categories present |
| `Stats.CategoryCountsPositive` | routes.js:46 | no category appears with a count of 0 |
| `Stats.CategoryCountsLast` | routes.js:45-46 | visiting one more product increments its category's entry, creating it at 1 |
| `Stats.CategoryCountsTotal` | routes.js:43-48 | the counts sum to the number of products |
| `Stats.CategoryCountsExample` | routes.js:43-48 | products of categories A, A, B give `{A: 2, B: 1}` |
| `Stats.Stats` | routes.js:43-49 | the loop answers 200 with the per-category counts of all products, summing to their number |
| `Routes.GetById` | routes.js:52-61 | 200 with a stored product of that id iff one exists; otherwise 404 `Product not found` |
| `Routes.GetByIdUnique` | routes.js:54 | with unique ids, get by a stored product's id answers that product |
| `Routes.FromBody` | routes.js:69-76 | the created record carries the generated id and the five body fields |
| `Routes.ProductStore.constructor` | routes.js:7 | the router works on the array it is given |
| `Routes.ProductStore.Create` | routes.js:64-79 | an incomplete body gives 400 and no change; a complete one appends exactly one record with the fresh id at the end and answers 201 with it; unique ids stay unique |
| `Routes.ProductStore.Update` | routes.js:83-100 | an unknown id gives 404 and no change; otherwise each present field overwrites, absent fields and the id keep their values, every other entry and the length are unchanged, and the answer is the updated product |
| `Routes.ProductStore.Delete` | routes.js:104-114 | an unknown id gives 404 and no change; otherwise exactly the first entry with that id is spliced out, and the answer carries it; unique ids stay unique with that id gone |
| `Routes.ProductStore.Post` | routes.js:11 | with the validator mounted, POST answers 400 with no change, or appends one record; a body the validator passed is never refused by the handler's own check at `routes.js:66` |
| `Routes.ProductStore.Put` | routes.js:12 | with the validator mounted, PUT answers 400, or 404, or replaces the stored product whole with the five body fields under its old id |

## Left out

- `middleware/logger.js`: it only writes a line with a wall-clock timestamp to the console.
- Express itself: route matching, the order in which routes and middlewares are tried, `req`/`res`/`next`, and JSON serialisation. Handler outcomes are a `Response` datatype, and a middleware's decision is a `Gate`.
- The global middleware order: how the API-key gate and the logger are mounted is not part of the files modelled. Only the validator mounting at `routes.js:11-12` is modelled.
- The imports of `./errors/NotFoundError` and `./server` (`routes.js:4-5`): they are unused, and those files are not part of this model.
- `uuidv4()`: the fresh id is a parameter that must not already be an id in the store. Randomness and collisions are not modelled.
- Dynamic JavaScript types: body fields, query parameters and the header are modelled as absent or a value of the expected type. Other values are not modelled, such as a numeric name, `null`, or an array for a repeated query parameter. So the model does not cover truthiness of non-strings, or the exception `p.name.toLowerCase()` would throw on a non-string name.
- `parseInt` on strings: page and limit arrive already parsed. JavaScript number precision in `(page - 1) * limit` is not modelled (integers are unbounded), and prices are Dafny `real`s rather than IEEE doubles.
- Full Unicode `toLowerCase`: only ASCII letters are lowercased.
- Object identity: products are values. The update handler mutates the shared product object itself, so the change would also show through any other reference to that object still held; the model replaces the array entry instead.
- Stats.Stats: categories named after properties that every JavaScript object inherits (`constructor`, `toString`, `valueOf`, `hasOwnProperty`, `__proto__` and the like) are not modelled. In the source, `stats[c] || 0` on the fresh `{}` reads the inherited value for such a name, so the entry becomes a string such as `"function Object() { [native code] }1"`, or is not created at all for `__proto__`. The model counts such a category like any other.
- `Query.List`: its own contract states only order preservation and filter membership. The exact page contents are stated by `Query.CategoryFilterExact`, `Query.SearchExact` and `Query.PageWindow`.
