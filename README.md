# Universal Trip Planner: itinerary scoring and the exchange-rate cache

This project is a Dafny model of two parts of the trip planner's backend.

- **Itinerary ranking** (`backend/src/scoring.ts`). The user's city is normalised by trimming it and lower-casing it. A catalog entry that does not list that city is dropped. Every other entry gets a score:
  - 5 points for serving the city;
  - 2 points per matching interest tag;
  - a budget bonus of 4, 2, 1 or 0;
  - a duration bonus of 3, 1 or 0.

  The scored entries are then sorted by score, highest first. The sort is stable, so entries with equal scores keep their catalog order.
- **Exchange-rate cache** (`backend/dist/rates.js`). This is a module-level rate table and a timestamp, modelled as the class `Rates.RateCache`. While the timestamp is less than six hours old, `getRates` serves the table from the cache. Otherwise it fetches live rates and merges them over the table. If the fetch fails, it falls back to the table it has, or to the built-in defaults if that table is empty.

Modules:
- `Optional`: the `Option` type.
- `JsString`: the JavaScript `trim` and `toLowerCase` on `seq<char>`.
- `Types`: itineraries, queries and scored entries.
- `ScoreSort`: stable descending sort by score.
- `Scoring`: the bonuses, the filtering and scoring loop, and the ranking.
- `Rates`: the rate cache.
- `Scenarios`: worked examples on small catalogs.

JavaScript numbers are `real`s. An absent field is `None`. For `days` and `budgetAmount`, a value that is not a number, and NaN, are `None` as well: the code gives no bonus to either, because `NaN > 0` is false. The clock reading and the result of the HTTP request are parameters of `GetRates`.

Behaviour of the code that is easy to miss, and that the model keeps:
- **Supported cities are not trimmed.** The catalog's supported starting cities are only lower-cased, while the query city is trimmed too. So `" Jaipur"` in the catalog never matches (`Scenarios.PaddedSupportedCityMisses`).
- **Entry interests are not trimmed.** The query's interests are trimmed and lower-cased, but an entry's interests are only lower-cased before the lookup. So an entry tag `" heritage"` never matches the wanted interest `"heritage"` (`Scoring.Overlap`).
- **The cache hit does not check for an empty table.** The cache hit tests that `cachedRates` is truthy, and every JavaScript object is truthy. An empty table is therefore served from the cache while fresh; only the fallback path replaces an empty table with the defaults.
- **An empty `rates` object counts as a valid payload.** A payload with `result: "success"` and `rates: {}` passes validation. It changes no rate but restarts the six-hour window (`Rates.EmptyRatesRestartTtl`).
- **The over-budget bonus involves the whole catalog.** The allowed overage is half of the largest `approximateCostMax` in the whole catalog, including entries the city filter drops. So adding an entry for another city can change a score (`Scenarios.OverBudgetUsesWholeCatalog`).

## Model

| member | source | states |
|---|---|---|
| JsString.Trim | backend/src/scoring.ts:4 | `trim` removes leading and trailing whitespace: the result is a slice of the input with only whitespace before and after it; it is empty exactly when the input is all whitespace, and otherwise both its ends are non-whitespace |
| JsString.SliceBetweenWhitespace | backend/src/scoring.ts:4 | a whitespace-free core of a suffix, with whitespace around both cuts, is a slice of the whole string with whitespace around it |
| JsString.TrimStartSuffix | backend/src/scoring.ts:4 | stripping leading whitespace leaves a suffix of the input |
| JsString.TrimStartLeading | backend/src/scoring.ts:4 | everything stripped from the front is whitespace |
| JsString.TrimStartFirst | backend/src/scoring.ts:4 | what is kept does not start with whitespace |
| JsString.TrimEndPrefix | backend/src/scoring.ts:4 | stripping trailing whitespace leaves a prefix of the input |
| JsString.TrimEndTrailing | backend/src/scoring.ts:4 | everything stripped from the back is whitespace |
| JsString.TrimEndLast | backend/src/scoring.ts:4 | what is kept does not end with whitespace |
| JsString.ToLower | backend/src/scoring.ts:4 | `toLowerCase` keeps the length and maps each character on its own, A-Z to a-z and everything else unchanged |
| JsString.LowerChar | backend/src/scoring.ts:4 | upper-case ASCII letters move down by 32 and every other character is unchanged |
| JsString.TrimKeepsTrimmed | backend/src/scoring.ts:4 | trimming a string without whitespace at either end returns it unchanged |
| JsString.ToLowerKeepsLower | backend/src/scoring.ts:4 | lower-casing a string without upper-case letters returns it unchanged |
| JsString.ToLowerIdempotent | backend/src/scoring.ts:4 | lower-casing twice is the same as lower-casing once |
| JsString.LowerCharWhitespace | backend/src/scoring.ts:4 | lower-casing a character never changes whether it is whitespace |
| JsString.TrimUndoesPadding | backend/src/scoring.ts:4 | one space of padding on each side is removed again by `trim` |
| Scoring.NormalizeCity | backend/src/scoring.ts:3-5 | `city?.trim().toLowerCase()`: undefined stays undefined; the result is the empty string exactly when the city is all whitespace |
| Scoring.NormalizeCityKeepsNormal | backend/src/scoring.ts:3-5 | a city that is already trimmed and lower-case normalises to itself |
| Scoring.NormalizeCityIdempotent | backend/src/scoring.ts:3-5 | normalizing an already normalized city changes nothing |
| Scoring.CityGateActive | backend/src/scoring.ts:18 | `if (cityNorm)`: the gate is active exactly when a city is given and it is not all whitespace |
| Scoring.LowerAll | backend/src/scoring.ts:17 | the supported cities lower-cased one by one, in order |
| Scoring.Serves | backend/src/scoring.ts:17-19 | `supportedLower.includes(cityNorm)`: true exactly when one of the entry's supported cities, lower-cased but not trimmed, is the normalised city |
| Scoring.Eligible | backend/src/scoring.ts:18-19 | an entry passes the city gate when the gate is inactive or the entry serves the normalised city |
| Scoring.NormalizedCityStart | backend/src/scoring.ts:3-5 | the normalized city of an active gate starts with a non-whitespace character |
| Scoring.UntrimmedCitiesNeverMatch | backend/src/scoring.ts:17-19 | an itinerary whose supported cities all start with whitespace fails every active city gate, since only the query city is trimmed |
| Scoring.InterestSet | backend/src/scoring.ts:9 | the trimmed, lower-cased query interests; the set is empty exactly when no interest was given, so `interestsSet.size > 0` tests for given interests |
| Scoring.InterestSetSingle | backend/src/scoring.ts:9 | one wanted interest gives the one-element set of its trimmed, lower-cased form |
| Scoring.Overlap | backend/src/scoring.ts:25 | `filter`: each entry interest whose lower-cased (untrimmed) form is wanted occurs in the result exactly as often as in the entry's list, and no other occurs |
| Scoring.InterestBonus | backend/src/scoring.ts:24-27 | two points per element of the overlap when interests were given, and zero when none were; at most twice the entry's interest count |
| Scoring.CityBonus | backend/src/scoring.ts:18-21 | five points exactly when the city gate is active |
| Scoring.BudgetBonus | backend/src/scoring.ts:30-45 | bonus between 0 and 4: 0 without a positive budget; 4 exactly when the budget is within the cost range; 2 when under it; when over it, 1 when the overage is below half the largest catalog cost and 0 when it is not |
| Scoring.DurationBonus | backend/src/scoring.ts:48-62 | bonus between 0 and 3: 0 without a positive day count; 3 exactly when the days are within the recommended range; otherwise, for a well-formed range, 1 when they are within two days of the range and 0 when they are farther |
| Scoring.Score | backend/src/scoring.ts:14-62 | the score is the sum of the four bonuses, between 0 and 5 + 2·interests + 4 + 3 |
| Scoring.MaxCostOf | backend/src/scoring.ts:37 | `Math.max` of the catalog's maximum costs: an upper bound of every entry's maximum cost, and attained by one of them |
| Scoring.EligibleOf | backend/src/scoring.ts:13-21 | the entries kept by the city gate, as a sub-multiset of the catalog; the whole catalog when the gate is inactive |
| Scoring.Abs | backend/src/scoring.ts:56 | `Math.abs`: non-negative and equal to the argument or its negation |
| Scoring.ScoreEach | backend/src/scoring.ts:13-65 | the results before sorting hold exactly the eligible entries, in catalog order |
| Scoring.ScoreEachScores | backend/src/scoring.ts:14-64 | each entry's pushed score is its `Score` |
| Scoring.ScoreEachStep | backend/src/scoring.ts:13-65 | one loop iteration appends the next entry with its score exactly when it is eligible |
| Scoring.ScoreEntry | backend/src/scoring.ts:14-64 | the loop body: it keeps the entry exactly when the entry is eligible, and then its accumulated score equals `Score` |
| Scoring.FilterAndScore | backend/src/scoring.ts:7-68 | `filterAndScore` returns the ranking: sorted by descending score and a permutation of the eligible entries, each with its score |
| Scoring.Ranked | backend/src/scoring.ts:7-68 | what `filterAndScore` returns: sorted by descending score, and its entries are a permutation of the eligible catalog entries |
| Scoring.RankedWithoutCity | backend/src/scoring.ts:18 | without a non-empty city nothing is excluded: the ranking is a permutation of the whole catalog |
| Scoring.RankedCityGate | backend/src/scoring.ts:17-21 | every ranked entry comes from the catalog and serves the normalised city |
| Scoring.RankedComplete | backend/src/scoring.ts:13-21 | every eligible catalog entry appears in the ranking |
| Scoring.RankedUnknownCity | backend/src/scoring.ts:19 | a city that no entry serves gives an empty ranking |
| Scoring.RankedScores | backend/src/scoring.ts:14-64 | every ranked entry carries its `Score` against the whole catalog's maximum cost |
| Scoring.RankedStable | backend/src/scoring.ts:67 | entries with the same score keep their catalog order |
| Scoring.RankedEmptyQuery | backend/src/scoring.ts:13-67 | an empty query ranks the catalog unchanged, in order, with score 0 everywhere |
| Scoring.EmptyQueryScoresZero | backend/src/scoring.ts:18-48 | with no city, interests, budget or days, every bonus is 0 |
| Scoring.OverlapMonotone | backend/src/scoring.ts:25 | asking for more interests never removes a match |
| Scoring.InterestMonotone | backend/src/scoring.ts:24-27 | adding wanted interests never lowers the interest bonus |
| Scoring.RankedSingleton | backend/src/scoring.ts:7-68 | a one-entry catalog ranks to that entry with its score when eligible, and to nothing otherwise |
| ScoreSort.WithScore | backend/src/scoring.ts:67 | the entries with a given score, in order |
| ScoreSort.WithScoreMembers | backend/src/scoring.ts:67 | the entries selected for score `k` are exactly the list's entries with score `k` |
| ScoreSort.WithScoreCons | backend/src/scoring.ts:67 | selecting by score distributes over a leading entry |
| ScoreSort.WithScoreNone | backend/src/scoring.ts:67 | selecting a score no entry has gives the empty list |
| ScoreSort.Insert | backend/src/scoring.ts:67 | insertion into a sorted list keeps the same elements |
| ScoreSort.InsertSorted | backend/src/scoring.ts:67 | insertion keeps a list sorted by descending score |
| ScoreSort.InsertWithScoreAt | backend/src/scoring.ts:67 | among entries with the new one's score, insertion puts the new entry first and keeps the others in order; the other scores are untouched |
| ScoreSort.InsertItineraries | backend/src/scoring.ts:67 | insertion keeps the multiset of itineraries, plus the new one |
| ScoreSort.SortByScore | backend/src/scoring.ts:67 | the sort's result is a permutation of its input |
| ScoreSort.SortSorted | backend/src/scoring.ts:67 | the comparator `b.score - a.score` orders by descending score |
| ScoreSort.SortStableAt | backend/src/scoring.ts:67 | the entries with a given score keep their input order |
| ScoreSort.SortStable | backend/src/scoring.ts:67 | the sort is stable: the entries of each score keep their input order |
| ScoreSort.SortItineraries | backend/src/scoring.ts:67 | the sort keeps the multiset of itineraries |
| ScoreSort.HeadScoresAgree | backend/src/scoring.ts:67 | two descending lists with the same entries per score start with the same score |
| ScoreSort.TailsAgree | backend/src/scoring.ts:67 | two such lists have the same head, and their tails the same entries per score |
| ScoreSort.SortedStableEqual | backend/src/scoring.ts:67 | two descending lists with the same entries per score are equal |
| ScoreSort.SortUnique | backend/src/scoring.ts:67 | stability and order determine the sort's result: any sorted, stable rearrangement is it |
| ScoreSort.SortConstant | backend/src/scoring.ts:67 | a list whose scores are all equal is left unchanged |
| ScoreSort.WithScoreAll | backend/src/scoring.ts:67 | when all scores equal `k`, selecting score `k` returns the whole list |
| Scenarios.JaipurPassesGate | backend/src/scoring.ts:17-21 | a Jaipur entry is eligible for the query city "jaipur" |
| Scenarios.HeritageInterestSet | backend/src/scoring.ts:9 | the wanted interest set of `["heritage"]` is `{"heritage"}` |
| Scenarios.HeritageInterestBonus | backend/src/scoring.ts:24-27 | one matching interest earns 2 points |
| Scenarios.FullMatchScores14 | backend/src/scoring.ts:7-68 | a query matching city, interest, budget and days scores 5 + 2 + 4 + 3 = 14 |
| Scenarios.LongTripScores9 | backend/src/scoring.ts:48-62 | ten days against a 3-5 day trip earn no duration bonus: 5 + 4 = 9 |
| Scenarios.PaddedQueryCityMatches | backend/src/scoring.ts:3-5 | the query city " JAIPUR " still matches a Jaipur entry |
| Scenarios.HeritageNormalizes | backend/src/scoring.ts:9 | the interest "heritage" is unchanged by trimming and lower-casing |
| Scenarios.PaddedSupportedCityMisses | backend/src/scoring.ts:17-19 | a supported city " Jaipur" does not match "jaipur", since only the query city is trimmed |
| Scenarios.RepeatedInterestCountsTwice | backend/src/scoring.ts:25-26 | an interest listed twice on an entry earns 4 points |
| Scenarios.OverBudgetUsesWholeCatalog | backend/src/scoring.ts:36-39 | the over-budget bonus depends on entries the city filter drops |
| Scenarios.DelhiSkipsJaipur | backend/src/scoring.ts:19 | a Delhi query drops a Jaipur-only entry |
| Scenarios.DelhiNormalizes | backend/src/scoring.ts:3-5 | "delhi" normalises to itself |
| Scenarios.JaipurLowers | backend/src/scoring.ts:17 | the lower-cased supported cities of a Jaipur entry are `["jaipur"]` |
| Rates.DefaultRatesPositive | backend/dist/rates.js:1-14 | every built-in rate is positive, INR (the reference currency) is 1, and the time-to-live is six hours in milliseconds |
| Rates.ResponseOk | backend/dist/rates.js:18 | `res.ok`: a status from 200 to 299 |
| Rates.FetchLiveRates | backend/dist/rates.js:15-24 | live rates are returned exactly when the status is 2xx, the body is a payload with `result: "success"` and a `rates` object, and they are that object |
| Rates.RateCache.constructor | backend/dist/rates.js:1-13 | the cache starts with the nine default rates and timestamp 0, so every default currency is present |
| Rates.RateCache.GetRates | backend/dist/rates.js:25-44 | `getRates`: a cache hit exactly when fresh and then nothing changes; otherwise the fetched rates are merged over the table and the timestamp becomes `now`, or, when the fetch fails, a non-empty fallback with the timestamp kept; no currency is lost, the default currencies stay present, and with them present a fallback changes nothing |
| Rates.IsFresh | backend/dist/rates.js:27 | the table is fresh while `now - cachedAt` is under the time-to-live |
| Rates.GetRatesStep | backend/dist/rates.js:25-44 | one `getRates` call: the returned table is always the stored one, the timestamp moves to `now` only on a live refresh, and no currency is removed from the table |
| Rates.CacheHitIff | backend/dist/rates.js:27-30 | the source is `cache` exactly when `now - cachedAt` is under six hours, and a hit returns the table and leaves the state alone |
| Rates.LiveMerge | backend/dist/rates.js:32-35 | a refresh keeps every old currency, gives each fetched currency its fetched value, keeps the rest, and stamps `now` |
| Rates.ReplyNonEmpty | backend/dist/rates.js:37-43 | a fallback is never empty, and a non-empty table never yields an empty reply |
| Rates.FailureRetries | backend/dist/rates.js:37-43 | a failed refresh keeps the old timestamp, so a call at the same time fetches again |
| Rates.EmptyRatesRestartTtl | backend/dist/rates.js:21-35 | a successful payload with empty `rates` changes no rate but restarts the six-hour window |
| Rates.InitialMiss | backend/dist/rates.js:13-27 | from the initial state, any call six or more hours after time 0 is a miss |
| Rates.LiveThenCache | backend/dist/rates.js:27-35 | within six hours of a refresh, calls serve the refreshed table from the cache |
| Rates.Run | backend/dist/rates.js:25-44 | the state after a sequence of `getRates` calls: along the way the table only gains currencies |
| Rates.RunKeepsDefaults | backend/dist/rates.js:1-44 | from the initial state the default currencies are always present, so the reset to the defaults never happens and a fallback leaves the state unchanged |

## Left out

- The HTTP server, the data loader, the front end and the itinerary display fields are not part of this model. They do not affect scoring.
- `fetch`, `res.json()` and `Date.now()` are not modelled as code. Their results are the `outcome` and `now` parameters of `GetRates`.
- Concurrent calls of `getRates` are not modelled: calls are taken one at a time, in sequence.
- JsString.ToLower: only ASCII A-Z is lower-cased. `toLowerCase` also changes non-ASCII letters, which the model leaves as they are.
- Numbers are exact reals. The infinities and floating-point rounding are not modelled. NaN in `budgetAmount` or `days` is `None`, which scores the same. NaN in catalog fields is not modelled.
- Rates.FetchLiveRates: a truthy `rates` value that is not an object, and rate values that are not numbers, are not modelled. `rates` is a map from strings to reals or absent.
- Rates.RateCache.GetRates: JavaScript object key order and the identity of the returned object are not modelled. The table is a map, compared by value.
- Scoring.MaxCostOf: `Math.max` of an empty list (`-Infinity`) is not modelled. It is only evaluated inside the loop, so the catalog is never empty there.
- ScoreSort.SortByScore: `Array.prototype.sort` is a library call, so it is modelled as a pure stable insertion sort. `ScoreSort.SortUnique` shows that any stable descending sort gives the same result.
