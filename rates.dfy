/**
 * The exchange-rate cache: a rate table (units of each currency per one rupee) and the time
 * it was last fetched. A fresh table is served as is; otherwise a live fetch is tried, and
 * its rates are merged over the table, or, if it fails, the table is served as a fallback.
 * The clock reading and the outcome of the HTTP request are parameters.
 */
module Rates {
  import opened Optional

  /** Currency code to units of that currency per unit of the reference currency. */
  type RateTable = map<string, real>

  /** Six hours, in milliseconds. */
  const CacheTtlMs: int := 6 * 60 * 60 * 1000

  /** The built-in table the cache starts from: nine currencies, the reference currency at 1. */
  const DefaultRates: RateTable := map[
    "USD" := 83.12, "EUR" := 90.45, "GBP" := 104.32, "JPY" := 0.55, "AUD" := 54.23,
    "CAD" := 61.04, "SGD" := 61.89, "THB" := 2.35, "INR" := 1.0]

  /**
   * The parsed JSON body of the rate service. `result` is None unless it is a string;
   * `rates` is None when the field is missing or falsy.
   */
  datatype RatePayload = RatePayload(result: Option<string>, rates: Option<RateTable>)

  /**
   * What the HTTP request produced: no response at all, or a status code with a body that
   * is None when it is not JSON or is JSON `null`.
   */
  datatype FetchOutcome = NetworkError | Received(status: int, body: Option<RatePayload>)

  /** Where the returned table came from. */
  datatype Source = Cache | Live | Fallback

  datatype CacheState = CacheState(rates: RateTable, cachedAt: int)
  datatype Reply = Reply(rates: RateTable, source: Source)

  /** The cache's state after a call, and what the call returned. */
  datatype Step = Step(next: CacheState, reply: Reply)

  /** `res.ok`: a status in the 200-299 range. */
  predicate ResponseOk(status: int) {
    200 <= status <= 299
  }

  /**
   * `fetchLiveRates`: the fetched rates exactly when the status is OK, the payload says
   * `result: "success"` and carries a `rates` object (an empty one included); None otherwise.
   */
  function FetchLiveRates(outcome: FetchOutcome): (r: Option<RateTable>)
    ensures r.Some? <==>
      outcome.Received? && ResponseOk(outcome.status) && outcome.body.Some? &&
      outcome.body.value.result == Some("success") && outcome.body.value.rates.Some?
    ensures r.Some? ==> r.value == outcome.body.value.rates.value
  {
    match outcome
    case NetworkError => None
    case Received(status, body) =>
      if !ResponseOk(status) then None
      else match body
        case None => None
        case Some(payload) =>
          if payload.result != Some("success") || payload.rates.None? then None
          else payload.rates
  }

  /** `now - cachedAt < CACHE_TTL_MS`. */
  predicate IsFresh(now: int, cachedAt: int) {
    now - cachedAt < CacheTtlMs
  }

  /** Every default rate is positive, and the reference currency INR is worth exactly 1. */
  lemma DefaultRatesPositive()
    ensures "INR" in DefaultRates && DefaultRates["INR"] == 1.0
    ensures forall c :: c in DefaultRates ==> DefaultRates[c] > 0.0
    ensures CacheTtlMs == 21600000
  {
  }

  /** The initial module state: the default table, fetched "at time 0". */
  function Initial(): CacheState {
    CacheState(DefaultRates, 0)
  }

  /**
   * One call of `getRates` at time `now`, with `outcome` as the result of the fetch it may
   * make. The served table is always the stored one, the timestamp moves (to `now`) only on
   * a live refresh, and no call drops a currency from the table.
   */
  function GetRatesStep(s: CacheState, now: int, outcome: FetchOutcome): (r: Step)
    ensures r.reply.rates == r.next.rates
    ensures r.next.cachedAt == if r.reply.source == Live then now else s.cachedAt
    ensures s.rates.Keys <= r.next.rates.Keys
  {
    if IsFresh(now, s.cachedAt) then Step(s, Reply(s.rates, Cache))
    else match FetchLiveRates(outcome)
      case Some(live) =>
        var merged := s.rates + live;
        Step(CacheState(merged, now), Reply(merged, Live))
      case None =>
        var kept := if |s.rates| == 0 then DefaultRates else s.rates;
        Step(CacheState(kept, s.cachedAt), Reply(kept, Fallback))
  }

  /** The module-level `cachedRates` and `cachedAt`, and `getRates` over them. */
  class RateCache {
    var cachedRates: RateTable
    var cachedAt: int

    constructor ()
      ensures State() == Initial()
      ensures Valid()
    {
      cachedRates := DefaultRates;
      cachedAt := 0;
    }

    function State(): CacheState
      reads this
    {
      CacheState(cachedRates, cachedAt)
    }

    /** Every default currency is in the table. */
    ghost predicate Valid()
      reads this
    {
      DefaultRates.Keys <= cachedRates.Keys
    }

    /** `getRates`: serve from cache while fresh, otherwise refresh, falling back on failure. */
    method GetRates(now: int, outcome: FetchOutcome) returns (rates: RateTable, source: Source)
      modifies this
      ensures State() == GetRatesStep(old(State()), now, outcome).next
      ensures Reply(rates, source) == GetRatesStep(old(State()), now, outcome).reply
      ensures source == Cache <==> IsFresh(now, old(cachedAt))
      ensures source == Cache ==> rates == old(cachedRates) && unchanged(this)
      ensures source == Live ==> rates == cachedRates == old(cachedRates) + FetchLiveRates(outcome).value && cachedAt == now
      ensures source == Fallback ==> rates == cachedRates && cachedAt == old(cachedAt) && |rates| > 0
      ensures old(cachedRates).Keys <= cachedRates.Keys
      ensures old(Valid()) ==> Valid()
      ensures old(Valid()) && source == Fallback ==> unchanged(this)
    {
      var isFresh := now - cachedAt < CacheTtlMs;
      if isFresh {
        return cachedRates, Cache;
      }
      var live := FetchLiveRates(outcome);
      if live.Some? {
        cachedRates := cachedRates + live.value;
        cachedAt := now;
        return cachedRates, Live;
      }
      if |cachedRates| == 0 {
        cachedRates := DefaultRates;
        assert "INR" in cachedRates;
      }
      return cachedRates, Fallback;
    }
  }

  /** The cache is used exactly while the timestamp is fresh, and a hit changes nothing. */
  lemma CacheHitIff(s: CacheState, now: int, outcome: FetchOutcome)
    ensures GetRatesStep(s, now, outcome).reply.source == Cache <==> IsFresh(now, s.cachedAt)
    ensures IsFresh(now, s.cachedAt) ==>
      GetRatesStep(s, now, outcome) == Step(s, Reply(s.rates, Cache))
  {
  }

  /**
   * A successful refresh merges the fetched rates over the table: every old currency stays,
   * every fetched currency takes its fetched value, the others keep theirs, and the
   * timestamp becomes `now`.
   */
  lemma LiveMerge(s: CacheState, now: int, outcome: FetchOutcome)
    requires !IsFresh(now, s.cachedAt) && FetchLiveRates(outcome).Some?
    ensures var step := GetRatesStep(s, now, outcome);
      var live := FetchLiveRates(outcome).value;
      step.reply.source == Live && step.next.cachedAt == now &&
      step.next.rates.Keys == s.rates.Keys + live.Keys &&
      (forall c :: c in live ==> step.next.rates[c] == live[c]) &&
      (forall c :: c in s.rates && c !in live ==> step.next.rates[c] == s.rates[c])
  {
  }

  /**
   * A fallback always serves a non-empty table (the defaults replace an empty one), and a
   * non-empty table never yields an empty reply.
   */
  lemma ReplyNonEmpty(s: CacheState, now: int, outcome: FetchOutcome)
    ensures GetRatesStep(s, now, outcome).reply.source == Fallback ==>
      |GetRatesStep(s, now, outcome).reply.rates| > 0
    ensures |s.rates| > 0 ==> |GetRatesStep(s, now, outcome).reply.rates| > 0
  {
    assert "INR" in DefaultRates;
  }

  /**
   * A failed refresh leaves the timestamp where it was, so a call at the same time (with
   * any outcome) does not hit the cache and tries the fetch again.
   */
  lemma FailureRetries(s: CacheState, now: int, outcome: FetchOutcome, retry: FetchOutcome)
    requires !IsFresh(now, s.cachedAt) && FetchLiveRates(outcome).None?
    ensures var step := GetRatesStep(s, now, outcome);
      step.reply.source == Fallback && step.next.cachedAt == s.cachedAt &&
      GetRatesStep(step.next, now, retry).reply.source != Cache
  {
  }

  /**
   * A successful payload with an empty `rates` object is a refresh that changes no rate
   * but restarts the time-to-live.
   */
  lemma EmptyRatesRestartTtl(s: CacheState, now: int, status: int)
    requires !IsFresh(now, s.cachedAt) && ResponseOk(status)
    ensures GetRatesStep(s, now, Received(status, Some(RatePayload(Some("success"), Some(map[]))))) ==
      Step(CacheState(s.rates, now), Reply(s.rates, Live))
  {
    assert s.rates + map[] == s.rates;
  }

  /** The initial timestamp of 0 makes any call from six hours on a miss. */
  lemma InitialMiss(now: int, outcome: FetchOutcome)
    requires now >= CacheTtlMs
    ensures GetRatesStep(Initial(), now, outcome).reply.source != Cache
  {
  }

  /** After a refresh at `now`, calls within the time-to-live serve the same table from the cache. */
  lemma LiveThenCache(s: CacheState, now: int, outcome: FetchOutcome, later: int, next: FetchOutcome)
    requires GetRatesStep(s, now, outcome).reply.source == Live
    requires now <= later < now + CacheTtlMs
    ensures var first := GetRatesStep(s, now, outcome);
      GetRatesStep(first.next, later, next).reply == Reply(first.reply.rates, Cache)
  {
  }

  /** One call of `getRates`. */
  datatype Call = Call(now: int, outcome: FetchOutcome)

  /** The state after a sequence of calls; along the way the table only gains currencies. */
  function Run(s: CacheState, calls: seq<Call>): (r: CacheState)
    ensures s.rates.Keys <= r.rates.Keys
    decreases |calls|
  {
    if calls == [] then s
    else Run(GetRatesStep(s, calls[0].now, calls[0].outcome).next, calls[1..])
  }

  /**
   * From the initial state, every default currency is present after any calls, so the
   * table is never empty and the reset to the defaults is never taken.
   */
  lemma RunKeepsDefaults(calls: seq<Call>, now: int, outcome: FetchOutcome)
    ensures DefaultRates.Keys <= Run(Initial(), calls).rates.Keys
    ensures var s := Run(Initial(), calls);
      GetRatesStep(s, now, outcome).reply.source == Fallback ==>
        GetRatesStep(s, now, outcome).next == s
  {
    assert "INR" in Run(Initial(), calls).rates;
  }
}
