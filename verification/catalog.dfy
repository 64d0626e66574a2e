/**
 * The entities the recommender shares with its callers: a catalog row and the
 * failures the engine can raise.
 */
module Catalog {
  import opened Wrappers

  /**
   * One row of the `products` table, as the engine's product table holds it.
   * The description column is nullable; the name and category columns are not.
   */
  datatype Product = Product(id: int, name: string, category: string, description: Option<string>)

  /**
   * Why an engine call fails. All but the last are `RecommendationError`s with
   * their own message; `NoneTypeError` is the Python `TypeError` raised by
   * indexing a product table that is `None`, which no guard catches.
   */
  datatype Failure =
    | NotTrained                       // a query before any similarity matrix exists
    | DataUnavailable                  // a query with no product table
    | ProductNotFound(productId: int)  // no row carries the queried id
    | DataNotLoaded                    // soups requested before the table was loaded
    | TfidfNotBuilt                    // similarity requested before the TF-IDF fit
    | TrainingFailed                   // any exception inside training, re-raised
    | NoneTypeError

  /**
   * The position of the first row whose id is `id`, as `df[df.product_id == id].index[0]`
   * gives it (the table's index is its row position), or None when no row has it.
   */
  function FirstIndexOf(ps: seq<Product>, id: int): (r: Option<nat>)
    ensures r.Some? ==> r.value < |ps| && ps[r.value].id == id
    ensures r.Some? ==> forall j :: 0 <= j < r.value ==> ps[j].id != id
    ensures r.None? <==> forall j :: 0 <= j < |ps| ==> ps[j].id != id
  {
    if ps == [] then None
    else if ps[0].id == id then Some(0)
    else
      match FirstIndexOf(ps[1..], id)
      case None => None
      case Some(k) => Some(k + 1)
  }
}
