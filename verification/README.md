# Content-based product recommender: a Dafny model

This project models the logic at the centre of a small e-commerce
recommendation service. Four pieces are covered:

- **`ProductRecommender`** (`recommender.py`). The text-soup featurizer
  turns each product row into one normalised lower-case string. The two
  ranking queries take the row of the cosine-similarity matrix for the
  queried product and return the other rows in descending score order,
  cut to `n` and mapped back to product ids. The product lookup returns
  the first row with an id. The lifecycle guards cover "not trained",
  "not loaded" and "not found". The load-or-train decision belongs to
  `initialize_recommender`, and the save step never makes training fail.
- **`CacheService`** (`cache.py`). An in-memory TTL cache over
  `map<string, Entry>`. It has an enable flag and a default TTL, evicts
  expired entries lazily in `get`, and reports statistics.
- **`AIExplainerService`** (`ai_explainer.py`). The service is available
  only when a client exists. It has two fallback templates and a prompt.
  A generated reply is normalised so that every explanation opens with
  "Because you liked".
- **The user endpoints** (`users.py`). The interaction listing returns a
  404 on an empty list, and otherwise copies every interaction field by
  field. The statistics count the interactions and the distinct
  products, build an event-type histogram, and take the earliest and
  latest timestamps.

Everything the source gets from outside becomes an input:

- the similarity matrix and the TF-IDF fit (scikit-learn);
- the catalog query (pandas/SQLAlchemy);
- the model file and how each write to it ends (pickle and the file
  system);
- the Gemini reply (`None` when the client call raised);
- the current time (`now: int` in place of `time.time()`);
- the user's interaction rows (the database query).

Files and modules:

| file | module | contents |
|---|---|---|
| `wrappers.dfy` | `Wrappers` | `Option`, `Result` |
| `text.dfy` | `Text` | Python's `str.split`, `' '.join`, `strip`, `lower`, `startswith` and `str(int)` |
| `catalog.dfy` | `Catalog` | the product row, the engine's failures, the first-row lookup |
| `featurizer.dfy` | `Featurizer` | `create_text_soup`, `prepare_text_data` |
| `ranking.dfy` | `Ranking` | a descending argsort, removing the source position, Python slicing, the top-n property |
| `recommender.dfy` | `Recommender` | the engine's state, queries, training, persistence and initialization |
| `cache.dfy` | `Cache` | the TTL cache |
| `explainer.dfy` | `Explainer` | availability, fallback text, normalisation, prompt |
| `userstats.dfy` | `UserStats` | the interaction listing and the statistics endpoint |

`np.argsort` with its default kind is not stable, so the order among
equal scores is not fixed by the source. `Ranking.ArgsortDesc` computes
one admissible order. The property the queries promise is stated for
every admissible order in `Ranking.TopPositionsAreTopN`: the results
score in non-increasing order, are distinct, exclude the source row, and
form a true top-n. No tie-break is claimed.

In these places the code's behaviour is easy to misread. The model follows the code:

- A count `n` of `None` or `0` becomes the default of 3. It does not mean
  "no recommendations". A negative `n` is a Python slice from the end
  (`a[:-2]`), and the model slices the same way.
- A cache `ttl` of `None` or `0` becomes the default TTL. It does not mean
  immediate expiry. A negative TTL stores an entry that has already
  expired.
- `get_recommendations_with_scores` does not check the product table. With
  a similarity matrix but no table, indexing `None` raises a `TypeError`,
  modelled as `NoneTypeError`.
- Rows are excluded by position, not by id. When a second row carries the
  queried id, that id is recommended (`Recommender.DuplicateIdIsRecommended`).

## Model

| member | source | states |
|---|---|---|
| `Text.Words` | src/backend/app/recommender/recommender.py:104 | `str.split()`: every piece is a non-empty run of non-whitespace characters |
| `Text.WordsAppend` | src/backend/app/recommender/recommender.py:101-104 | splitting two strings joined by one whitespace character gives the words of the first followed by the words of the second |
| `Text.WordsOfJoin` | src/backend/app/recommender/recommender.py:104 | splitting a single-space join of words gives back exactly those words |
| `Text.JoinNormalized` | src/backend/app/recommender/recommender.py:104 | a single-space join of words has no leading, trailing or doubled whitespace |
| `Text.CollapseIdempotent` | src/backend/app/recommender/recommender.py:104 | collapsing whitespace a second time changes nothing |
| `Text.Strip` | src/backend/app/services/ai_explainer.py:68 | `strip()`: the result is a contiguous slice of the input with no whitespace at either end, and everything cut off is whitespace |
| `Text.LowerKeepsPrefix` | src/backend/app/services/ai_explainer.py:71 | lower-casing a string keeps the lower-cased form of any prefix as a prefix |
| `Text.DecimalRoundTrip` | src/backend/app/api/users.py:125 | the decimal digits of a natural number read back as that number |
| `Text.IntToDecimal` | src/backend/app/api/users.py:125 | `str(x)` of an int: a leading minus exactly when `x` is negative, followed by the digits of `abs(x)`, with no leading zero except in "0" itself |
| `Catalog.FirstIndexOf` | src/backend/app/recommender/recommender.py:282-287 | the first row position carrying the id, and `None` exactly when no row carries it |
| `Featurizer.TextSoup` | src/backend/app/recommender/recommender.py:94-104 | the soup is whitespace-normalised and is the single-space join of the words of lower(name), lower(category) and lower(description), in that order |
| `Featurizer.SoupWords` | src/backend/app/recommender/recommender.py:94-104 | the words of the soup are the three fields' lower-cased words, concatenated in field order |
| `Featurizer.NullDescriptionIsEmpty` | src/backend/app/recommender/recommender.py:75 | a null description yields the same soup as an empty one |
| `Featurizer.MapRows` | src/backend/app/recommender/recommender.py:121-125 | the append loop over the rows yields exactly one result per row, in row order |
| `Featurizer.PrepareTextData` | src/backend/app/recommender/recommender.py:118-128 | fails "not loaded" exactly when there is no table; otherwise returns one soup per row, in row order, the same list as `Featurizer.Soups` |
| `Ranking.Insert` | src/backend/app/recommender/recommender.py:293 | inserting a position into a descending order keeps it descending and distinct, with the same elements plus the new one |
| `Ranking.SortDesc` | src/backend/app/recommender/recommender.py:293 | the sorted positions are a descending, distinct rearrangement of the input positions |
| `Ranking.ArgsortDesc` | src/backend/app/recommender/recommender.py:293 | `argsort(row)[::-1]` for one admissible tie order: every position exactly once, scores non-increasing |
| `Ranking.Without` | src/backend/app/recommender/recommender.py:296 | the boolean-mask filter drops exactly the source position, keeps every other element, and shortens a distinct list by one |
| `Ranking.WithoutDescending` | src/backend/app/recommender/recommender.py:296 | filtering out the source position keeps a descending order descending |
| `Ranking.SlicePrefix` | src/backend/app/recommender/recommender.py:299 | `s[:n]` with Python slice semantics, negative `n` included: a prefix of the length Python gives |
| `Ranking.TopPositionsAreTopN` | src/backend/app/recommender/recommender.py:290-299 | for every admissible argsort the selection excludes the source, is distinct and descending, has the sliced length, outscores every omitted row, and covers every other row when `n` is at least the row count minus one |
| `Recommender.RankPositions` | src/backend/app/recommender/recommender.py:279-299 | "not found" exactly when no row has the id; otherwise a top-n selection of the first matching row's similarity row |
| `Recommender.GetRecommendations` | src/backend/app/recommender/recommender.py:255-306 | "not trained" first, then "not available", then "not found"; on success the ids of the ranked positions, in order |
| `Recommender.GetRecommendationsWithScores` | src/backend/app/recommender/recommender.py:308-355 | checks only the similarity matrix; on success each ranked position paired with its id and its similarity to the source row |
| `Recommender.GetProductInfo` | src/backend/app/recommender/recommender.py:357-375 | the first row with the id, and `None` exactly when there is no table or no such row |
| `Recommender.FillMissing` | src/backend/app/recommender/recommender.py:75 | `fillna('')`: a null description becomes the empty string and every other field is kept |
| `Recommender.CalculateCosineSimilarity` | src/backend/app/recommender/recommender.py:159-177 | fails exactly when no TF-IDF matrix has been built; otherwise stores the similarity of that matrix and nothing else changes |
| `Recommender.SaveModel` | src/backend/app/recommender/recommender.py:210-226 | a complete write stores the model, a write that never opened the file leaves the disk as it was, and a broken write leaves an unreadable file; saving never raises |
| `Recommender.LoadModel` | src/backend/app/recommender/recommender.py:228-253 | true exactly when the file holds a pickled model, which is then adopted; a missing or unreadable file gives false and leaves the recommender untouched |
| `Recommender.LoadAfterSave` | src/backend/app/recommender/recommender.py:210-253 | loading right after a complete save restores the saved model |
| `Recommender.TrainModel` | src/backend/app/recommender/recommender.py:179-208 | succeeds exactly when the catalog loads and the fit succeeds; a failure is `TrainingFailed` and leaves the disk alone; a success sets all three fields, leaves the similarity matrix square with one row per product, and saves them |
| `Recommender.InitializeRecommender` | src/backend/app/recommender/recommender.py:379-399 | a loadable model file is adopted without training; otherwise a fresh recommender is trained; on success the model's matrix fits its table whenever the stored one did |
| `Recommender.TrainingSoupsIgnoreFill` | src/backend/app/recommender/recommender.py:75-128 | the soups training fits on, taken after `fillna('')`, are exactly the `prepare_text_data` soups of the unfilled table |
| `Recommender.SourceIdNeverRecommended` | src/backend/app/recommender/recommender.py:293-299 | with unique ids the queried id never appears among its recommendations |
| `Recommender.RecommendationCount` | src/backend/app/recommender/recommender.py:279-299 | a positive count gives `min(n, rows - 1)` results, a negative one slices from the end, and `None` or `0` gives `min(3, rows - 1)` |
| `Recommender.DefaultCount` | src/backend/app/recommender/recommender.py:279 | `None`, `0` and `3` request the same recommendations |
| `Recommender.ScoresFollowRanking` | src/backend/app/recommender/recommender.py:326-353 | with a product table both queries fail alike; on success the scored query has the same ids in the same order, with non-increasing scores |
| `Recommender.ScoredQuerySkipsTableGuard` | src/backend/app/recommender/recommender.py:276-277 | with no product table, the plain query reports it and the scored query raises a `TypeError` |
| `Recommender.DuplicateIdIsRecommended` | src/backend/app/recommender/recommender.py:282-299 | exclusion is by row position: with two rows carrying the queried id, the second is recommended whatever the scores |
| `Recommender.TrainedModelIsReady` | src/backend/app/recommender/recommender.py:179-208 | after successful training all fields are set and the matrix fits the table, so the only error a query can return is "not found" |
| `Recommender.SaveNeverFailsTraining` | src/backend/app/recommender/recommender.py:186-208 | training's result and model do not depend on how the save's write ends |
| `Recommender.LoadedModelSkipsTraining` | src/backend/app/recommender/recommender.py:392-399 | with a loadable model file, initialization never consults the catalog, the vectorizer or the writer |
| `Recommender.RestartServesSameModel` | src/backend/app/recommender/recommender.py:379-399 | once an initialization has trained and written the model, the next one loads exactly that model, and its matrix fits its table |
| `Recommender.FreshRecommenderIsNotTrained` | src/backend/app/recommender/recommender.py:31-44 | a new recommender answers "not trained" to both queries and `None` to the product lookup |
| `Cache.Get` | src/backend/app/services/cache.py:28-54 | a value exactly when the cache is enabled and the key is present and unexpired; the key is evicted exactly when it is expired; no other entry is added or changed |
| `Cache.NewCacheServesNothing` | src/backend/app/services/cache.py:21-26 | a freshly constructed service is enabled, has the default TTL of 3600, serves nothing and counts nothing |
| `Cache.Set` | src/backend/app/services/cache.py:56-76 | a disabled cache is unchanged; otherwise the key maps to the value and `now` plus the effective TTL, and every other key is unchanged |
| `Cache.Delete` | src/backend/app/services/cache.py:78-93 | true exactly when the key was present; afterwards the key is gone, every other entry is untouched, and the enable flag is ignored |
| `Cache.Clear` | src/backend/app/services/cache.py:95-99 | the map is empty afterwards and the settings are kept |
| `Cache.GetStats` | src/backend/app/services/cache.py:101-115 | total is the map size, expired counts the entries past their expiry, and active is the number of live entries, between 0 and total, with active plus expired equal to total |
| `Cache.SetThenGet` | src/backend/app/services/cache.py:56-76 | on an enabled cache, a get after a set returns the value up to and including the expiry instant, and nothing after it |
| `Cache.SetThenGetNow` | src/backend/app/services/cache.py:56-76 | on an enabled cache with a non-negative effective TTL, a get right after a set returns the value |
| `Cache.ZeroTtlIsDefault` | src/backend/app/services/cache.py:68 | a TTL of `0` stores the same entry as no TTL |
| `Cache.NegativeTtlExpires` | src/backend/app/services/cache.py:68-69 | a negative TTL stores an entry that a get at the same instant finds expired |
| `Cache.DisabledCacheIsInert` | src/backend/app/services/cache.py:38-39 | a disabled cache ignores sets and answers every get with absent, leaving the map unchanged |
| `Cache.DeleteThenGet` | src/backend/app/services/cache.py:88-93 | after a delete the key is absent; an expired entry that was not yet evicted still counts as deleted |
| `Cache.ClearThenGet` | src/backend/app/services/cache.py:95-115 | after a clear every get is absent and the statistics are all zero |
| `Cache.GetIsIdempotent` | src/backend/app/services/cache.py:41-54 | a second get at the same instant gives the same answer and changes nothing further |
| `Cache.GetKeepsActiveEntries` | src/backend/app/services/cache.py:41-54 | lazy eviction never changes the number of active entries and never grows the map |
| `Explainer.InitializeClient` | src/backend/app/services/ai_explainer.py:26-42 | available exactly when the key is present, non-empty and not the placeholder, and the client constructor succeeds |
| `Explainer.FallbackExplanation` | src/backend/app/services/ai_explainer.py:90-95 | both templates start with the "Because you liked {source}, we think you'll also enjoy {rec} " lead; equal categories end with the shared category, others with the generic ending |
| `Explainer.FallbackMentions` | src/backend/app/services/ai_explainer.py:92-95 | the fallback names both products, and names the category when the two share it |
| `Explainer.GenerateExplanation` | src/backend/app/services/ai_explainer.py:44-79 | when unavailable or when the call raised, exactly the fallback; a stripped reply whose lower-cased form opens with the phrase is returned unchanged; otherwise the lead plus the lower-cased stripped reply |
| `Explainer.ExplanationOpensWithBecauseYouLiked` | src/backend/app/services/ai_explainer.py:62-95 | on every path the lower-cased explanation starts with "because you liked" |
| `Explainer.UnavailableIgnoresReply` | src/backend/app/services/ai_explainer.py:62-63 | an unavailable service never depends on the reply |
| `Explainer.BuildPrompt` | src/backend/app/services/ai_explainer.py:81-88 | the prompt contains both product names, both categories and the phrase "Because you liked" |
| `UserStats.GetUserInteractions` | src/backend/app/api/users.py:41-62 | 404 with the user's id in the detail exactly when there are no interactions; otherwise one response per interaction, in order, with all five fields copied |
| `UserStats.BumpLookup` | src/backend/app/api/users.py:135 | one increment adds one to that event type's count and leaves every other count alone |
| `UserStats.BumpTotal` | src/backend/app/api/users.py:135 | one increment adds one to the sum of the counts and keeps every count positive |
| `UserStats.BumpKeys` | src/backend/app/api/users.py:135 | one increment adds the event type to the set of keys |
| `UserStats.BumpDistinct` | src/backend/app/api/users.py:135 | keys stay distinct, and an unseen event type is appended with count 1 as dict insertion order has it |
| `UserStats.LookupAt` | src/backend/app/api/users.py:135 | in a histogram with distinct keys, looking up an entry's key gives that entry's count |
| `UserStats.Histogram` | src/backend/app/api/users.py:131-135 | the keys are exactly the event types seen, without repeats; each value is that type's number of occurrences and at least 1; the values sum to the number of interactions |
| `UserStats.HistogramCounts` | src/backend/app/api/users.py:131-135 | every histogram entry holds the occurrence count of its own event type |
| `UserStats.ProductIdsBound` | src/backend/app/api/users.py:129-130 | there are never more distinct products than interactions |
| `UserStats.MinTimestamp` | src/backend/app/api/users.py:142 | the minimum is some interaction's timestamp and is at most every timestamp |
| `UserStats.MaxTimestamp` | src/backend/app/api/users.py:143 | the maximum is some interaction's timestamp and is at least every timestamp |
| `UserStats.GetUserStats` | src/backend/app/api/users.py:120-144 | 404 exactly when there are no interactions; otherwise total is the list length, unique products is the number of distinct ids and at most total, the histogram as above, and first and last are the extreme timestamps with first ≤ last |
| `UserStats.SampleUserStats` | src/backend/app/tests/test_users.py:74-90 | the sample user with two views and one purchase over products 1 and 3 has 3 interactions, 2 products, view 2 and purchase 1 |
| `UserStats.MissingUserDetail` | src/backend/app/tests/test_users.py:92-98 | the 404 detail for user 999 reads "No interactions found for user 999" |

## Left out

- TF-IDF vectorisation and cosine similarity (`build_tfidf_matrix`, `cosine_similarity`, recommender.py:130-157). These are scikit-learn numerics. The fit is a parameter returning `None` when it raises. The similarity is a parameter over matrices of `real`. Scores are exact reals, not 64-bit floats.
- Recommender.TrainModel: the fit and the similarity are assumed to keep scikit-learn's shapes (`RowPerSoup`: one TF-IDF row per soup; `SquareSimilarity`: an n×n result for n rows). The model does not derive these from the numerics. The same assumption is made by `Recommender.InitializeRecommender` and the lifecycle lemmas.
- Loading the catalog from SQL (`load_data`, recommender.py:46-81). This includes the missing-column check. It is database I/O, so the loaded table, or `None` when loading raised, is an input.
- Pickle details. The model file is absent, unreadable or holds a whole recommender. A pickle that loads but lacks one of the four keys, and a failure part-way through assigning the fields, are not modelled. The fitted vectorizer object is folded into the TF-IDF field.
- The cache's `threading.Lock`. This is concurrency, and the operations are modelled as sequential state transitions.
- The Gemini client call (`generate_content`) and the SDK constructor. These are foreign network calls. Their outcomes, a reply string or a raise, are inputs.
- Logging throughout, the HTTP routers, the request-level `n` clamp in recommendations.py, cache-key formatting, products.py, health.py, main.py, the Pydantic schemas and config.py. These are plumbing. The config defaults 3 and 3600 appear as constants, and the cache is enabled by default.
- The `recent-interaction` endpoint and `get_most_recent_interaction` (users.py:65-100, models.py). The endpoint rests on a database query.
- The module-level `get_recommendations` convenience function (recommender.py:402-422). It only composes `InitializeRecommender` with `GetRecommendations`.
- hybrid.py. It is a placeholder that always returns an empty list.
- Text.Lower: only ASCII letters are lower-cased. Python's `str.lower` also maps non-ASCII letters. The same restriction holds for `Featurizer.TextSoup` and `Explainer.GenerateExplanation`.
- Cache.Get: time is an integer `now`, where the source reads the clock as a float. Comparisons against an expiry instant behave the same at integer resolution.
- UserStats.GetUserStats: timestamps are integers ordered like the stored datetimes. The JSON serialisation of datetimes is not modelled.
