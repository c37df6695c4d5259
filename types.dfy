/**
 * The records the scoring engine reads and returns. Only the itinerary fields that
 * scoring reads are kept; the display-only fields (title, description, places,
 * per-city distance and travel time) play no part in filtering or ranking.
 */
module Types {
  import opened Optional

  /** One pre-authored trip from the catalog. Costs and day counts are JavaScript numbers. */
  datatype Itinerary = Itinerary(
    id: string,
    supportedStartingCities: seq<string>,
    recommendedMinDays: real,
    recommendedMaxDays: real,
    approximateCostMin: real,
    approximateCostMax: real,
    interests: seq<string>)

  /**
   * A partially filled search. `None` stands for a field that is absent; for `days` and
   * `budgetAmount` it also stands for a value that is not a number, including NaN.
   */
  datatype Query = Query(
    city: Option<string>,
    days: Option<real>,
    budgetAmount: Option<real>,
    interests: Option<seq<string>>)

  /** An itinerary paired with the score the engine gave it. */
  datatype Scored = Scored(itinerary: Itinerary, score: int)
}
