/**
 * `ProductRecommender`: the engine's state, its guards, its queries and the
 * load-or-train lifecycle. The TF-IDF fit and the cosine similarity are
 * scikit-learn computations and enter as function parameters; the model file
 * is a `Disk` value and every write reports its outcome as an input.
 */
module Recommender {
  import opened Wrappers
  import opened Catalog
  import opened Featurizer
  import opened Ranking

  type Matrix = seq<seq<real>>

  /** `settings.default_recommendations`. */
  const DefaultRecommendations: int := 3

  /**
   * The recommender's fields: the product table, the TF-IDF matrix (with its
   * fitted vectorizer) and the cosine similarity matrix, each `None` until set.
   */
  datatype ProductRecommender = ProductRecommender(
    products: Option<seq<Product>>,
    tfidf: Option<Matrix>,
    sim: Option<Matrix>)

  /** A freshly constructed recommender: nothing loaded, nothing trained. */
  const Fresh := ProductRecommender(None, None, None)

  /** The similarity matrix is square with one row and one column per product row. */
  predicate Shaped(products: seq<Product>, sim: Matrix) {
    |sim| == |products| && forall i :: 0 <= i < |sim| ==> |sim[i]| == |products|
  }

  /**
   * What scikit-learn guarantees of a fitted model: when both the product table
   * and the similarity matrix are present they agree in size.
   */
  predicate Consistent(m: ProductRecommender) {
    m.products.Some? && m.sim.Some? ==> Shaped(m.products.value, m.sim.value)
  }

  /** `TfidfVectorizer.fit_transform`: one matrix row per soup whenever the fit succeeds. */
  ghost predicate RowPerSoup(fit: seq<string> -> Option<Matrix>) {
    forall soups :: fit(soups).Some? ==> |fit(soups).value| == |soups|
  }

  /** `cosine_similarity(t, t)`: a square matrix with one row and one column per row of `t`. */
  ghost predicate SquareSimilarity(cosine: Matrix -> Matrix) {
    forall t :: |cosine(t)| == |t| && forall i :: 0 <= i < |cosine(t)| ==> |cosine(t)[i]| == |t|
  }

  /** `n_recommendations or settings.default_recommendations`. */
  function EffectiveCount(n: Option<int>): int {
    if n.None? || n.value == 0 then DefaultRecommendations else n.value
  }

  // ------------------------------------------------------------------ queries

  /**
   * The ranking shared by both query methods once both tables are present:
   * look up the first row with the id, then the top positions of its
   * similarity row, excluding that row's own position.
   */
  function RankPositions(products: seq<Product>, sim: Matrix, productId: int, n: Option<int>)
    : (r: Result<seq<nat>, Failure>)
    requires Shaped(products, sim)
    ensures r.Err? <==> FirstIndexOf(products, productId).None?
    ensures r.Err? ==> r.error == ProductNotFound(productId)
    ensures r.Ok? ==>
      var src := FirstIndexOf(products, productId).value;
      IsTopSelection(sim[src], r.value, src, EffectiveCount(n))
  {
    match FirstIndexOf(products, productId)
    case None => Err(ProductNotFound(productId))
    case Some(src) =>
      var order := ArgsortDesc(sim[src]);
      TopPositionsAreTopN(sim[src], order, src, EffectiveCount(n));
      Ok(TopPositions(order, src, EffectiveCount(n)))
  }

  /** The `product_id` of each row position, as `products_df.iloc[positions]['product_id']`. */
  function IdsAt(products: seq<Product>, positions: seq<nat>): (ids: seq<int>)
    requires Below(positions, |products|)
  {
    seq(|positions|, k requires 0 <= k < |positions| => products[positions[k]].id)
  }

  /**
   * `get_recommendations`: "not trained" before anything else, then "not
   * available" without a product table, then "not found" for an unknown id;
   * otherwise the ids of the ranked positions.
   */
  function GetRecommendations(m: ProductRecommender, productId: int, n: Option<int>)
    : (r: Result<seq<int>, Failure>)
    requires Consistent(m)
    ensures m.sim.None? ==> r == Err(NotTrained)
    ensures m.sim.Some? && m.products.None? ==> r == Err(DataUnavailable)
    ensures m.sim.Some? && m.products.Some? ==>
      (r.Err? <==> FirstIndexOf(m.products.value, productId).None?)
      && (r.Err? ==> r.error == ProductNotFound(productId))
    ensures r.Ok? ==> (
      && m.sim.Some? && m.products.Some?
      && var pos := RankPositions(m.products.value, m.sim.value, productId, n);
         && pos.Ok? && |r.value| == |pos.value|
         && forall k :: 0 <= k < |r.value| ==> r.value[k] == m.products.value[pos.value[k]].id)
  {
    if m.sim.None? then Err(NotTrained)
    else if m.products.None? then Err(DataUnavailable)
    else
      match RankPositions(m.products.value, m.sim.value, productId, n)
      case Err(e) => Err(e)
      case Ok(pos) =>
        assert Descending(m.sim.value[FirstIndexOf(m.products.value, productId).value], pos);
        Ok(IdsAt(m.products.value, pos))
  }

  /**
   * `get_recommendations_with_scores`: the same ranking, each id paired with
   * its similarity to the source row. Only the similarity matrix is checked:
   * a missing product table reaches the lookup and raises a `TypeError`.
   */
  function GetRecommendationsWithScores(m: ProductRecommender, productId: int, n: Option<int>)
    : (r: Result<seq<(int, real)>, Failure>)
    requires Consistent(m)
    ensures m.sim.None? ==> r == Err(NotTrained)
    ensures m.sim.Some? && m.products.None? ==> r == Err(NoneTypeError)
    ensures r.Ok? ==> (
      && m.sim.Some? && m.products.Some?
      && var src := FirstIndexOf(m.products.value, productId);
         var pos := RankPositions(m.products.value, m.sim.value, productId, n);
         && src.Some? && pos.Ok? && |r.value| == |pos.value|
         && forall k :: 0 <= k < |r.value| ==>
              r.value[k] == (m.products.value[pos.value[k]].id, m.sim.value[src.value][pos.value[k]]))
  {
    if m.sim.None? then Err(NotTrained)
    else if m.products.None? then Err(NoneTypeError)
    else
      var products, sim := m.products.value, m.sim.value;
      match RankPositions(products, sim, productId, n)
      case Err(e) => Err(e)
      case Ok(pos) =>
        var src := FirstIndexOf(products, productId).value;
        Ok(seq(|pos|, k requires 0 <= k < |pos| => (products[pos[k]].id, sim[src][pos[k]])))
  }

  /**
   * `get_product_info`: the first row with the id, or None when there is no
   * product table or no such row.
   */
  function GetProductInfo(m: ProductRecommender, productId: int): (r: Option<Product>)
    ensures r.Some? ==> m.products.Some? && r.value.id == productId
    ensures r.Some? ==> exists i :: (
      && 0 <= i < |m.products.value| && m.products.value[i] == r.value
      && forall j :: 0 <= j < i ==> m.products.value[j].id != productId)
    ensures r.None? <==> m.products.None? || forall p :: p in m.products.value ==> p.id != productId
  {
    if m.products.None? then None
    else
      match FirstIndexOf(m.products.value, productId)
      case None => None
      case Some(i) => Some(m.products.value[i])
  }

  // ---------------------------------------------------------------- training

  /** `fillna('')` after loading: a null description becomes the empty string. */
  function FillMissing(rows: seq<Product>): (r: seq<Product>)
    ensures |r| == |rows|
    ensures forall i :: 0 <= i < |rows| ==>
      r[i].id == rows[i].id && r[i].name == rows[i].name && r[i].category == rows[i].category
      && r[i].description == Some(DescriptionText(rows[i]))
  {
    seq(|rows|, i requires 0 <= i < |rows| => rows[i].(description := Some(DescriptionText(rows[i]))))
  }

  /**
   * `calculate_cosine_similarity`: fails when no TF-IDF matrix has been built;
   * otherwise stores the similarity of the TF-IDF matrix and touches nothing else.
   */
  function CalculateCosineSimilarity(m: ProductRecommender, cosine: Matrix -> Matrix)
    : (r: Result<ProductRecommender, Failure>)
    ensures m.tfidf.None? <==> r == Err(TfidfNotBuilt)
    ensures r.Ok? ==> (
      && r.value.sim == Some(cosine(m.tfidf.value))
      && r.value.products == m.products && r.value.tfidf == m.tfidf)
  {
    if m.tfidf.None? then Err(TfidfNotBuilt)
    else Ok(m.(sim := Some(cosine(m.tfidf.value))))
  }

  /** The model file: absent, present but not loadable, or holding a pickled recommender. */
  datatype Disk = NoFile | Unreadable | Stored(model: ProductRecommender)

  /** How a `save_model` write ended: not opened, broken off after truncating, or complete. */
  datatype WriteOutcome = NotOpened | Truncated | Written

  /** `save_model`: what is on disk afterwards. It never raises; failures are only logged. */
  function SaveModel(m: ProductRecommender, disk: Disk, write: WriteOutcome): (d: Disk)
    ensures write == Written ==> d == Stored(m)
    ensures write == NotOpened ==> d == disk
    ensures write == Truncated ==> d == Unreadable
  {
    match write
    case NotOpened => disk
    case Truncated => Unreadable
    case Written => Stored(m)
  }

  /**
   * `load_model`: true with the stored fields when the file unpickles, false
   * with the recommender untouched when the file is missing or unreadable.
   */
  function LoadModel(m: ProductRecommender, disk: Disk): (r: (ProductRecommender, bool))
    ensures r.1 <==> disk.Stored?
    ensures r.1 ==> r.0 == disk.model
    ensures !r.1 ==> r.0 == m
  {
    match disk
    case Stored(s) => (s, true)
    case _ => (m, false)
  }

  /** Loading right after a complete save restores the saved recommender. */
  lemma LoadAfterSave(m: ProductRecommender, other: ProductRecommender, disk: Disk)
    ensures LoadModel(other, SaveModel(m, disk, Written)) == (m, true)
  {
  }

  /** The recommender, the model file and the outcome after `train_model` or `initialize_recommender`. */
  datatype Outcome = Outcome(model: ProductRecommender, disk: Disk, result: Result<(), Failure>)

  /** The soups the vectorizer is fitted on: `prepare_text_data` of the filled table. */
  function TrainingSoups(catalog: seq<Product>): seq<string> {
    Soups(FillMissing(catalog))
  }

  /** Filling null descriptions with '' changes no soup: the soup already reads a null as ''. */
  lemma {:induction false} TrainingSoupsIgnoreFill(catalog: seq<Product>)
    ensures TrainingSoups(catalog) == Soups(catalog)
  {
    var filled := FillMissing(catalog);
    forall i | 0 <= i < |catalog|
      ensures TextSoup(filled[i]) == TextSoup(catalog[i])
    {
      assert DescriptionText(filled[i]) == DescriptionText(catalog[i]);
      assert filled[i] == catalog[i].(description := Some(DescriptionText(catalog[i])));
    }
  }

  /**
   * `train_model`: load the catalog (`None` when the query raised), build the
   * soups, fit TF-IDF (`None` when the vectorizer raised), compute the
   * similarity and save. Any raise becomes `TrainingFailed`; fields already
   * assigned stay assigned. The save's outcome never fails the training.
   */
  function TrainModel(m: ProductRecommender, catalog: Option<seq<Product>>,
                      fit: seq<string> -> Option<Matrix>, cosine: Matrix -> Matrix,
                      disk: Disk, write: WriteOutcome): (o: Outcome)
    requires RowPerSoup(fit) && SquareSimilarity(cosine)
    ensures o.result.Ok? <==> catalog.Some? && fit(TrainingSoups(catalog.value)).Some?
    ensures o.result.Err? ==> o.result.error == TrainingFailed && o.disk == disk
    ensures catalog.None? ==> o.model == m
    ensures catalog.Some? ==> o.model.products == Some(FillMissing(catalog.value))
    ensures o.result.Ok? ==>
      var t := fit(TrainingSoups(catalog.value)).value;
      o.model == ProductRecommender(Some(FillMissing(catalog.value)), Some(t), Some(cosine(t)))
      && o.disk == SaveModel(o.model, disk, write)
    ensures o.result.Ok? ==> Consistent(o.model)
  {
    if catalog.None? then Outcome(m, disk, Err(TrainingFailed))
    else
      var loaded := m.(products := Some(FillMissing(catalog.value)));
      match fit(TrainingSoups(catalog.value))
      case None => Outcome(loaded, disk, Err(TrainingFailed))
      case Some(t) =>
        var built := loaded.(tfidf := Some(t));
        match CalculateCosineSimilarity(built, cosine)
        case Err(_) => Outcome(built, disk, Err(TrainingFailed))
        case Ok(trained) =>
          assert |t| == |TrainingSoups(catalog.value)| == |catalog.value|;
          Outcome(trained, SaveModel(trained, disk, write), Ok(()))
  }

  /**
   * `initialize_recommender`: a fresh recommender loads the model file and
   * trains only when that load reports false.
   */
  function InitializeRecommender(disk: Disk, catalog: Option<seq<Product>>,
                                 fit: seq<string> -> Option<Matrix>, cosine: Matrix -> Matrix,
                                 write: WriteOutcome): (o: Outcome)
    requires RowPerSoup(fit) && SquareSimilarity(cosine)
    ensures disk.Stored? ==> o == Outcome(disk.model, disk, Ok(()))
    ensures !disk.Stored? ==> o == TrainModel(Fresh, catalog, fit, cosine, disk, write)
    ensures o.result.Ok? && (disk.Stored? ==> Consistent(disk.model)) ==> Consistent(o.model)
  {
    var (loaded, ok) := LoadModel(Fresh, disk);
    if ok then Outcome(loaded, disk, Ok(()))
    else TrainModel(loaded, catalog, fit, cosine, disk, write)
  }

  // --------------------------------------------------------- query properties

  predicate UniqueIds(products: seq<Product>) {
    forall i, j :: 0 <= i < j < |products| ==> products[i].id != products[j].id
  }

  /**
   * The source row's position is excluded, so with unique ids the queried id
   * is never recommended. (With duplicate ids another row carrying the same
   * id may be; see `DuplicateIdIsRecommended`.)
   */
  lemma SourceIdNeverRecommended(m: ProductRecommender, productId: int, n: Option<int>)
    requires Consistent(m) && m.products.Some? && UniqueIds(m.products.value)
    requires GetRecommendations(m, productId, n).Ok?
    ensures productId !in GetRecommendations(m, productId, n).value
  {
    var ps := m.products.value;
    var r := GetRecommendations(m, productId, n).value;
    var src := FirstIndexOf(ps, productId).value;
    var pos := RankPositions(ps, m.sim.value, productId, n).value;
    forall k | 0 <= k < |r|
      ensures r[k] != productId
    {
      assert pos[k] in pos;
      assert pos[k] != src;
      assert ps[pos[k]].id != ps[src].id;
    }
  }

  /**
   * The number of recommendations: `min(n, rows - 1)` for a positive count,
   * with `None` and `0` both meaning the default of 3.
   */
  lemma RecommendationCount(m: ProductRecommender, productId: int, n: Option<int>)
    requires Consistent(m) && m.sim.Some? && m.products.Some?
    requires FirstIndexOf(m.products.value, productId).Some?
    ensures GetRecommendations(m, productId, n).Ok?
    ensures var rows, k := |m.products.value|, EffectiveCount(n);
      k > 0 ==> |GetRecommendations(m, productId, n).value| == (if k <= rows - 1 then k else rows - 1)
    ensures var rows, k := |m.products.value|, EffectiveCount(n);
      k < 0 ==> |GetRecommendations(m, productId, n).value| == (if rows - 1 + k >= 0 then rows - 1 + k else 0)
    ensures n.None? || n == Some(0) ==>
      var rows := |m.products.value|;
      |GetRecommendations(m, productId, n).value| == (if 3 <= rows - 1 then 3 else rows - 1)
  {
  }

  /** `None`, `0` and the default count ask for the same recommendations. */
  lemma DefaultCount(m: ProductRecommender, productId: int)
    requires Consistent(m)
    ensures GetRecommendations(m, productId, None) == GetRecommendations(m, productId, Some(0))
    ensures GetRecommendations(m, productId, None) == GetRecommendations(m, productId, Some(DefaultRecommendations))
  {
  }

  /**
   * With a product table present both queries fail alike, and on success the
   * scored query carries the same ids in the same order, with scores that
   * never increase along the list.
   */
  lemma ScoresFollowRanking(m: ProductRecommender, productId: int, n: Option<int>)
    requires Consistent(m) && m.products.Some?
    ensures var plain := GetRecommendations(m, productId, n);
      var scored := GetRecommendationsWithScores(m, productId, n);
      && (plain.Err? <==> scored.Err?)
      && (plain.Err? ==> plain.error == scored.error)
      && (plain.Ok? ==> (
            && |plain.value| == |scored.value|
            && (forall k :: 0 <= k < |plain.value| ==> scored.value[k].0 == plain.value[k])
            && (forall a, b :: 0 <= a < b < |scored.value| ==> scored.value[a].1 >= scored.value[b].1)))
  {
    var plain := GetRecommendations(m, productId, n);
    var scored := GetRecommendationsWithScores(m, productId, n);
    if plain.Ok? {
      var src := FirstIndexOf(m.products.value, productId).value;
      var pos := RankPositions(m.products.value, m.sim.value, productId, n).value;
      assert Descending(m.sim.value[src], pos);
      forall a, b | 0 <= a < b < |scored.value|
        ensures scored.value[a].1 >= scored.value[b].1
      {
        assert scored.value[a].1 == m.sim.value[src][pos[a]];
        assert scored.value[b].1 == m.sim.value[src][pos[b]];
      }
    }
  }

  /**
   * The two queries differ when only the product table is missing: the plain
   * one reports it, the scored one raises a `TypeError`.
   */
  lemma ScoredQuerySkipsTableGuard(sim: Matrix, productId: int, n: Option<int>)
    ensures GetRecommendations(ProductRecommender(None, None, Some(sim)), productId, n) == Err(DataUnavailable)
    ensures GetRecommendationsWithScores(ProductRecommender(None, None, Some(sim)), productId, n) == Err(NoneTypeError)
  {
  }

  /**
   * Exclusion is by row position: when two rows carry the queried id, the
   * second is recommended whatever the scores.
   */
  lemma DuplicateIdIsRecommended(twin: Product, same: real, other: real)
    ensures var m := ProductRecommender(Some([twin, twin]), None, Some([[same, other], [other, same]]));
      GetRecommendations(m, twin.id, None) == Ok([twin.id])
  {
    var ps, sim := [twin, twin], [[same, other], [other, same]];
    assert FirstIndexOf(ps, twin.id) == Some(0);
    var pos := RankPositions(ps, sim, twin.id, None);
    assert pos.Ok? && IsTopSelection(sim[0], pos.value, 0, 3);
    assert pos.value == [1] by {
      assert |pos.value| == 1 && pos.value[0] in pos.value && pos.value[0] < 2;
    }
    assert IdsAt(ps, [1]) == [twin.id];
  }

  // ----------------------------------------------------- lifecycle properties

  /** A successful training leaves every field set, ready for queries. */
  lemma TrainedModelIsReady(m: ProductRecommender, catalog: Option<seq<Product>>,
                            fit: seq<string> -> Option<Matrix>, cosine: Matrix -> Matrix,
                            disk: Disk, write: WriteOutcome)
    requires RowPerSoup(fit) && SquareSimilarity(cosine)
    requires TrainModel(m, catalog, fit, cosine, disk, write).result.Ok?
    ensures var o := TrainModel(m, catalog, fit, cosine, disk, write);
      o.model.products.Some? && o.model.tfidf.Some? && o.model.sim.Some? && Consistent(o.model)
    ensures var o := TrainModel(m, catalog, fit, cosine, disk, write);
      forall id, n :: GetRecommendations(o.model, id, n).Err? ==>
        GetRecommendations(o.model, id, n).error.ProductNotFound?
  {
  }

  /** Whatever the save does, training succeeds or fails the same way with the same model. */
  lemma SaveNeverFailsTraining(m: ProductRecommender, catalog: Option<seq<Product>>,
                               fit: seq<string> -> Option<Matrix>, cosine: Matrix -> Matrix,
                               disk: Disk, w1: WriteOutcome, w2: WriteOutcome)
    requires RowPerSoup(fit) && SquareSimilarity(cosine)
    ensures TrainModel(m, catalog, fit, cosine, disk, w1).result == TrainModel(m, catalog, fit, cosine, disk, w2).result
    ensures TrainModel(m, catalog, fit, cosine, disk, w1).model == TrainModel(m, catalog, fit, cosine, disk, w2).model
  {
  }

  /**
   * A loadable model file short-circuits initialization: the catalog, the
   * vectorizer, the similarity and the writer are never consulted.
   */
  lemma LoadedModelSkipsTraining(disk: Disk,
                                 c1: Option<seq<Product>>, f1: seq<string> -> Option<Matrix>, s1: Matrix -> Matrix, w1: WriteOutcome,
                                 c2: Option<seq<Product>>, f2: seq<string> -> Option<Matrix>, s2: Matrix -> Matrix, w2: WriteOutcome)
    requires RowPerSoup(f1) && SquareSimilarity(s1) && RowPerSoup(f2) && SquareSimilarity(s2)
    requires disk.Stored?
    ensures InitializeRecommender(disk, c1, f1, s1, w1) == InitializeRecommender(disk, c2, f2, s2, w2)
  {
  }

  /**
   * Restart round trip: after a first initialization trained and wrote the
   * model file, the next initialization loads exactly that model, so it serves
   * the same rankings without training.
   */
  lemma RestartServesSameModel(disk: Disk, catalog: Option<seq<Product>>,
                               fit: seq<string> -> Option<Matrix>, cosine: Matrix -> Matrix,
                               later: Option<seq<Product>>, fit2: seq<string> -> Option<Matrix>,
                               cosine2: Matrix -> Matrix, write2: WriteOutcome)
    requires RowPerSoup(fit) && SquareSimilarity(cosine) && RowPerSoup(fit2) && SquareSimilarity(cosine2)
    requires !disk.Stored?
    requires InitializeRecommender(disk, catalog, fit, cosine, Written).result.Ok?
    ensures var first := InitializeRecommender(disk, catalog, fit, cosine, Written);
      var second := InitializeRecommender(first.disk, later, fit2, cosine2, write2);
      second.model == first.model && second.result.Ok? && second.disk == first.disk
      && Consistent(second.model)
  {
  }

  /** Before any load or training every query fails "not trained". */
  lemma FreshRecommenderIsNotTrained(productId: int, n: Option<int>)
    ensures GetRecommendations(Fresh, productId, n) == Err(NotTrained)
    ensures GetRecommendationsWithScores(Fresh, productId, n) == Err(NotTrained)
    ensures GetProductInfo(Fresh, productId) == None
  {
  }
}
