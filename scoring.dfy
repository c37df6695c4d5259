/**
 * The itinerary filter-and-score engine: a hard city gate, then soft bonuses for
 * interests, budget and trip length, then a stable sort by score, highest first.
 */
module Scoring {
  import opened Optional
  import opened JsString
  import opened Types
  import opened ScoreSort

  /**
   * `normalizeCity`: trim, then lowercase; an absent city stays absent. The normalized
   * city is empty exactly when the given one is empty or whitespace only.
   */
  function NormalizeCity(city: Option<string>): (r: Option<string>)
    ensures r.Some? <==> city.Some?
    ensures r.Some? ==> |r.value| <= |city.value|
    ensures r.Some? ==> (r.value == "" <==> AllWhitespace(city.value))
  {
    if city.None? then None else Some(ToLower(Trim(city.value)))
  }

  /** A city already in normal form (no surrounding whitespace, no capitals) normalizes to itself. */
  lemma NormalizeCityKeepsNormal(c: string)
    requires c != [] ==> !IsWhitespace(c[0]) && !IsWhitespace(c[|c| - 1])
    requires forall i :: 0 <= i < |c| ==> !('A' <= c[i] <= 'Z')
    ensures NormalizeCity(Some(c)) == Some(c)
  {
    assert Trim(c) == c by { TrimKeepsTrimmed(c); }
    assert ToLower(c) == c by { ToLowerKeepsLower(c); }
  }

  /** Normalizing is idempotent: a normalized city normalizes to itself. */
  lemma NormalizeCityIdempotent(city: Option<string>)
    ensures NormalizeCity(NormalizeCity(city)) == NormalizeCity(city)
  {
    if city.Some? {
      var t := Trim(city.value);
      var n := ToLower(t);
      if n != [] {
        LowerCharWhitespace(t[0]);
        LowerCharWhitespace(t[|t| - 1]);
      }
      assert Trim(n) == n by { TrimKeepsTrimmed(n); }
      ToLowerIdempotent(t);
    }
  }

  /**
   * `if (cityNorm)`: the city gate applies only to a normalized city that is a non-empty
   * string, that is, to a given city that is not all whitespace.
   */
  function CityGateActive(q: Query): (r: bool)
    ensures r <==> q.city.Some? && !AllWhitespace(q.city.value)
  {
    var n := NormalizeCity(q.city);
    n.Some? && n.value != ""
  }

  /** `supportedStartingCities.map(c => c.toLowerCase())`: lowercased, not trimmed. */
  function LowerAll(cities: seq<string>): (r: seq<string>)
    ensures |r| == |cities|
    ensures forall i :: 0 <= i < |cities| ==> r[i] == ToLower(cities[i])
  {
    if cities == [] then [] else [ToLower(cities[0])] + LowerAll(cities[1..])
  }

  /**
   * `supportedLower.includes(cityNorm)`: the itinerary serves a normalized city exactly when
   * one of its supported cities, lowercased but untrimmed, is that city.
   */
  function Serves(it: Itinerary, cityNorm: string): (r: bool)
    ensures r <==> exists c :: c in it.supportedStartingCities && ToLower(c) == cityNorm
  {
    var cities := it.supportedStartingCities;
    var lower := LowerAll(cities);
    assert forall i :: 0 <= i < |cities| ==> cities[i] in cities;
    cityNorm in lower
  }

  /** Whether the itinerary survives the city gate of the query. */
  predicate Eligible(it: Itinerary, q: Query) {
    !CityGateActive(q) || Serves(it, NormalizeCity(q.city).value)
  }

  /** The normalized city of an active gate starts with a non-whitespace character. */
  lemma NormalizedCityStart(q: Query)
    requires CityGateActive(q)
    ensures !IsWhitespace(NormalizeCity(q.city).value[0])
  {
    var t := Trim(q.city.value);
    assert NormalizeCity(q.city).value[0] == LowerChar(t[0]);
  }

  /**
   * Supported cities are lowercased but never trimmed, so an itinerary whose every supported
   * city starts with whitespace fails every active city gate.
   */
  lemma UntrimmedCitiesNeverMatch(it: Itinerary, q: Query)
    requires CityGateActive(q)
    requires forall c :: c in it.supportedStartingCities ==> c != [] && IsWhitespace(c[0])
    ensures !Eligible(it, q)
  {
    var n := NormalizeCity(q.city).value;
    NormalizedCityStart(q);
    forall c | c in it.supportedStartingCities ensures ToLower(c) != n {
      assert ToLower(c)[0] == c[0];
    }
  }

  /** `new Set((query.interests || []).map(i => i.trim().toLowerCase()))`. */
  function InterestSet(interests: Option<seq<string>>): (r: set<string>)
    ensures r == {} <==> interests.GetOr([]) == []
  {
    var given := interests.GetOr([]);
    var r := set i | i in given :: ToLower(Trim(i));
    assert given != [] ==> given[0] in given && ToLower(Trim(given[0])) in r;
    r
  }

  /** A single wanted interest gives a one-element set holding its normalized form. */
  lemma InterestSetSingle(t: string)
    ensures InterestSet(Some([t])) == {ToLower(Trim(t))}
  {
    assert forall i :: i in [t] <==> i == t;
  }

  /** `it.interests.filter(i => interestsSet.has(i.toLowerCase()))`: duplicates count separately. */
  function Overlap(interests: seq<string>, wanted: set<string>): (r: seq<string>)
    ensures |r| <= |interests|
    ensures forall x :: x in r <==> x in interests && ToLower(x) in wanted
    ensures forall x :: multiset(r)[x] == if ToLower(x) in wanted then multiset(interests)[x] else 0
  {
    if interests == [] then []
    else
      var rest := Overlap(interests[1..], wanted);
      assert interests == [interests[0]] + interests[1..];
      (if ToLower(interests[0]) in wanted then [interests[0]] else []) + rest
  }

  /** Two points per matching itinerary interest; no bonus when the query names no interest. */
  function InterestBonus(it: Itinerary, wanted: set<string>): (r: int)
    ensures 0 <= r <= 2 * |it.interests|
    ensures wanted == {} ==> r == 0
    ensures wanted != {} ==> r == 2 * |Overlap(it.interests, wanted)|
  {
    if wanted != {} then |Overlap(it.interests, wanted)| * 2 else 0
  }

  /** +5 for an itinerary that passed an active city gate. */
  function CityBonus(q: Query): (r: int)
    ensures r == 0 || r == 5
    ensures r == 5 <==> CityGateActive(q)
  {
    if CityGateActive(q) then 5 else 0
  }

  /**
   * The budget rule for a positive budget: +4 inside the cost range (both ends included),
   * +2 below it, +1 above it by less than half the catalog's largest maximum cost, else 0.
   */
  function BudgetBonus(it: Itinerary, budget: Option<real>, maxCost: real): (r: int)
    ensures 0 <= r <= 4
    ensures r == 4 <==> budget.Some? && budget.value > 0.0 &&
                        it.approximateCostMin <= budget.value <= it.approximateCostMax
    ensures (it.approximateCostMin <= it.approximateCostMax && budget.Some? &&
             0.0 < budget.value < it.approximateCostMin) ==> r == 2
    ensures (budget.None? || budget.value <= 0.0) ==> r == 0
    ensures budget.Some? && budget.value > 0.0 && budget.value > it.approximateCostMax ==>
              (r == 1 <==> 2.0 * (budget.value - it.approximateCostMax) < maxCost)
    ensures (budget.Some? && budget.value > 0.0 && budget.value > it.approximateCostMax &&
             2.0 * (budget.value - it.approximateCostMax) >= maxCost) ==> r == 0
  {
    match budget
    case None => 0
    case Some(b) =>
      if b > 0.0 then
        if b >= it.approximateCostMin && b <= it.approximateCostMax then 4
        else if b > it.approximateCostMax then
          var overage := b - it.approximateCostMax;
          if overage < maxCost * 0.5 then 1 else 0
        else 2
      else 0
  }

  /** `Math.abs` on numbers. */
  function Abs(x: real): (r: real)
    ensures r >= 0.0 && (r == x || r == -x)
  {
    if x < 0.0 then -x else x
  }

  /**
   * The trip-length rule for a positive day count: +3 inside the recommended range (both
   * ends included); otherwise +1 within "half the spread plus two days" of the midpoint,
   * which for a well-formed range is the range widened by two days at each end.
   */
  function DurationBonus(it: Itinerary, days: Option<real>): (r: int)
    ensures 0 <= r <= 3
    ensures r == 3 <==> days.Some? && days.value > 0.0 &&
                        it.recommendedMinDays <= days.value <= it.recommendedMaxDays
    ensures (days.None? || days.value <= 0.0) ==> r == 0
    ensures it.recommendedMinDays <= it.recommendedMaxDays && days.Some? && days.value > 0.0 &&
            !(it.recommendedMinDays <= days.value <= it.recommendedMaxDays) ==>
              (r == 1 <==> it.recommendedMinDays - 2.0 <= days.value <= it.recommendedMaxDays + 2.0)
    ensures (it.recommendedMinDays <= it.recommendedMaxDays && days.Some? && days.value > 0.0 &&
             !(it.recommendedMinDays - 2.0 <= days.value <= it.recommendedMaxDays + 2.0)) ==> r == 0
  {
    match days
    case None => 0
    case Some(d) =>
      if d > 0.0 then
        if d >= it.recommendedMinDays && d <= it.recommendedMaxDays then 3
        else
          var rangeMid := (it.recommendedMinDays + it.recommendedMaxDays) / 2.0;
          var rangeHalf := (it.recommendedMaxDays - it.recommendedMinDays) / 2.0;
          var distance := Abs(d - rangeMid);
          if distance <= rangeHalf + 2.0 then 1 else 0
      else 0
  }

  /** The score of an itinerary that passed the city gate; it is at most 5 + 2 per interest + 4 + 3. */
  function Score(it: Itinerary, q: Query, maxCost: real): (r: int)
    ensures 0 <= r <= 5 + 2 * |it.interests| + 4 + 3
  {
    CityBonus(q) + InterestBonus(it, InterestSet(q.interests))
    + BudgetBonus(it, q.budgetAmount, maxCost) + DurationBonus(it, q.days)
  }

  /** `Math.max(...itineraries.map(x => x.approximateCostMax))` over a non-empty catalog. */
  function MaxCostOf(catalog: seq<Itinerary>): (m: real)
    requires |catalog| > 0
    ensures forall i :: 0 <= i < |catalog| ==> catalog[i].approximateCostMax <= m
    ensures exists i :: 0 <= i < |catalog| && catalog[i].approximateCostMax == m
  {
    if |catalog| == 1 then catalog[0].approximateCostMax
    else
      var rest := MaxCostOf(catalog[1..]);
      if catalog[0].approximateCostMax > rest then catalog[0].approximateCostMax else rest
  }

  /** The catalog entries that pass the city gate, in catalog order; all of them when no gate applies. */
  function EligibleOf(its: seq<Itinerary>, q: Query): (r: seq<Itinerary>)
    ensures forall it :: it in r <==> it in its && Eligible(it, q)
    ensures multiset(r) <= multiset(its)
    ensures !CityGateActive(q) ==> r == its
  {
    if its == [] then []
    else
      var init := EligibleOf(its[..|its| - 1], q);
      var last := its[|its| - 1];
      assert its == its[..|its| - 1] + [last];
      if Eligible(last, q) then init + [last] else init
  }

  /** The unsorted `results` array: each eligible entry, in catalog order, with its score. */
  function ScoreEach(its: seq<Itinerary>, q: Query, maxCost: real): (r: seq<Scored>)
    ensures Itineraries(r) == EligibleOf(its, q)
  {
    if its == [] then []
    else
      var init := ScoreEach(its[..|its| - 1], q, maxCost);
      var last := its[|its| - 1];
      if Eligible(last, q) then
        var r := init + [Scored(last, Score(last, q, maxCost))];
        assert Itineraries(r) == Itineraries(init) + [last];
        r
      else init
  }

  /** Every entry carries the score of its itinerary. */
  lemma {:induction false} ScoreEachScores(its: seq<Itinerary>, q: Query, maxCost: real)
    ensures forall e :: e in ScoreEach(its, q, maxCost) ==> e.score == Score(e.itinerary, q, maxCost)
  {
    if its != [] {
      ScoreEachScores(its[..|its| - 1], q, maxCost);
    }
  }

  /** One step of the loop: the results for a longer prefix extend those of the shorter one by at most the next entry. */
  lemma ScoreEachStep(its: seq<Itinerary>, i: int, q: Query, maxCost: real)
    requires 0 <= i < |its|
    ensures ScoreEach(its[..i + 1], q, maxCost) ==
      ScoreEach(its[..i], q, maxCost) +
      (if Eligible(its[i], q) then [Scored(its[i], Score(its[i], q, maxCost))] else [])
  {
    assert its[..i + 1][..i] == its[..i];
  }

  /**
   * What `filterAndScore` returns: the scored eligible entries, stably sorted by score, highest
   * first. The entries are exactly the catalog entries that pass the city gate, each as often
   * as in the catalog.
   */
  function Ranked(catalog: seq<Itinerary>, q: Query): (r: seq<Scored>)
    ensures SortedDesc(r)
    ensures multiset(Itineraries(r)) == multiset(EligibleOf(catalog, q))
  {
    if catalog == [] then []
    else
      var scored := ScoreEach(catalog, q, MaxCostOf(catalog));
      SortSorted(scored);
      SortItineraries(scored);
      SortByScore(scored)
  }

  /**
   * The body of the `for` loop of `filterAndScore` for one itinerary: `keep` is false where the
   * source `continue`s past it, and otherwise `score` is the running total of its bonuses.
   */
  method ScoreEntry(catalog: seq<Itinerary>, it: Itinerary, query: Query,
                    cityNorm: Option<string>, interestsSet: set<string>)
    returns (keep: bool, score: int)
    requires it in catalog
    requires cityNorm == NormalizeCity(query.city) && interestsSet == InterestSet(query.interests)
    ensures keep == Eligible(it, query)
    ensures keep ==> score == Score(it, query, MaxCostOf(catalog))
  {
    score := 0;
    var supportedLower := LowerAll(it.supportedStartingCities);
    if cityNorm.Some? && cityNorm.value != "" {
      if cityNorm.value !in supportedLower {
        return false, score;
      }
      score := score + 5;
    }
    assert score == CityBonus(query);
    if interestsSet != {} {
      var overlap := Overlap(it.interests, interestsSet);
      score := score + |overlap| * 2;
    }
    assert score == CityBonus(query) + InterestBonus(it, interestsSet);
    ghost var soFar := score;
    ghost var budgetBonus := BudgetBonus(it, query.budgetAmount, MaxCostOf(catalog));
    if query.budgetAmount.Some? && query.budgetAmount.value > 0.0 {
      var budget := query.budgetAmount.value;
      var within := budget >= it.approximateCostMin && budget <= it.approximateCostMax;
      if within {
        score := score + 4;
        assert budgetBonus == 4;
      } else if budget > it.approximateCostMax {
        var overage := budget - it.approximateCostMax;
        var maxCost := MaxCostOf(catalog);
        if overage < maxCost * 0.5 {
          score := score + 1;
          assert budgetBonus == 1;
        } else {
          assert budgetBonus == 0;
        }
      } else {
        score := score + 2;
        assert budgetBonus == 2;
      }
    } else {
      assert budgetBonus == 0;
    }
    assert score == soFar + budgetBonus;
    soFar := score;
    ghost var durationBonus := DurationBonus(it, query.days);
    if query.days.Some? && query.days.value > 0.0 {
      var days := query.days.value;
      var within := days >= it.recommendedMinDays && days <= it.recommendedMaxDays;
      if within {
        score := score + 3;
        assert durationBonus == 3;
      } else {
        var rangeMid := (it.recommendedMinDays + it.recommendedMaxDays) / 2.0;
        var rangeHalf := (it.recommendedMaxDays - it.recommendedMinDays) / 2.0;
        var distance := Abs(days - rangeMid);
        if distance <= rangeHalf + 2.0 {
          score := score + 1;
          assert durationBonus == 1;
        } else {
          assert durationBonus == 0;
        }
      }
    } else {
      assert durationBonus == 0;
    }
    assert score == soFar + durationBonus;
    keep := true;
  }

  /** `filterAndScore`: one pass over the catalog collecting the entries that pass, then the sort. */
  method FilterAndScore(catalog: seq<Itinerary>, query: Query) returns (results: seq<Scored>)
    ensures results == Ranked(catalog, query)
    ensures SortedDesc(results)
    ensures multiset(Itineraries(results)) == multiset(EligibleOf(catalog, query))
  {
    var cityNorm := NormalizeCity(query.city);
    var interestsSet := InterestSet(query.interests);
    ghost var maxCostOfAll := if |catalog| > 0 then MaxCostOf(catalog) else 0.0;
    results := [];
    for i := 0 to |catalog|
      invariant results == ScoreEach(catalog[..i], query, maxCostOfAll)
    {
      var it := catalog[i];
      ScoreEachStep(catalog, i, query, maxCostOfAll);
      var keep, score := ScoreEntry(catalog, it, query, cityNorm, interestsSet);
      if !keep {
        continue;
      }
      assert score == Score(it, query, maxCostOfAll);
      results := results + [Scored(it, score)];
    }
    assert catalog[..|catalog|] == catalog;
    SortSorted(results);
    SortItineraries(results);
    results := SortByScore(results);
  }

  /** With no city to filter on, every catalog entry comes back, each as often as in the catalog. */
  lemma RankedWithoutCity(catalog: seq<Itinerary>, q: Query)
    requires !CityGateActive(q)
    ensures |Ranked(catalog, q)| == |catalog|
    ensures multiset(Itineraries(Ranked(catalog, q))) == multiset(catalog)
  {
    assert |Itineraries(Ranked(catalog, q))| == |multiset(catalog)|;
  }

  /**
   * The city gate: every returned itinerary is from the catalog and passes the gate, so when a
   * city is given it lists a starting city whose lowercase form is the normalized query city.
   */
  lemma RankedCityGate(catalog: seq<Itinerary>, q: Query)
    ensures forall e :: e in Ranked(catalog, q) ==> e.itinerary in catalog && Eligible(e.itinerary, q)
    ensures forall e :: e in Ranked(catalog, q) && CityGateActive(q) ==>
              exists c :: c in e.itinerary.supportedStartingCities && ToLower(c) == NormalizeCity(q.city).value
  {
    var r := Ranked(catalog, q);
    forall e | e in r
      ensures e.itinerary in catalog && Eligible(e.itinerary, q)
      ensures CityGateActive(q) ==>
        exists c :: c in e.itinerary.supportedStartingCities && ToLower(c) == NormalizeCity(q.city).value
    {
      var i :| 0 <= i < |r| && r[i] == e;
      assert Itineraries(r)[i] == e.itinerary;
      assert e.itinerary in multiset(Itineraries(r));
    }
  }

  /** No catalog entry that passes the city gate is dropped. */
  lemma RankedComplete(catalog: seq<Itinerary>, q: Query)
    ensures forall it :: it in catalog && Eligible(it, q) ==> it in Itineraries(Ranked(catalog, q))
  {
    forall it | it in catalog && Eligible(it, q) ensures it in Itineraries(Ranked(catalog, q)) {
      assert it in multiset(EligibleOf(catalog, q));
    }
  }

  /** A city that no itinerary serves (compared lowercased, untrimmed) yields an empty result. */
  lemma RankedUnknownCity(catalog: seq<Itinerary>, q: Query)
    requires CityGateActive(q)
    requires forall it, c :: it in catalog && c in it.supportedStartingCities ==>
               ToLower(c) != NormalizeCity(q.city).value
    ensures Ranked(catalog, q) == []
  {
    RankedCityGate(catalog, q);
  }

  /** Each returned entry carries the score of its itinerary against the whole catalog. */
  lemma RankedScores(catalog: seq<Itinerary>, q: Query)
    requires catalog != []
    ensures forall e :: e in Ranked(catalog, q) ==> e.score == Score(e.itinerary, q, MaxCostOf(catalog))
  {
    var s := ScoreEach(catalog, q, MaxCostOf(catalog));
    ScoreEachScores(catalog, q, MaxCostOf(catalog));
    forall e | e in Ranked(catalog, q) ensures e.score == Score(e.itinerary, q, MaxCostOf(catalog)) {
      assert e in multiset(SortByScore(s));
    }
  }

  /** Entries with equal scores come back in the order they have in the catalog. */
  lemma RankedStable(catalog: seq<Itinerary>, q: Query, k: int)
    requires catalog != []
    ensures WithScore(Ranked(catalog, q), k) == WithScore(ScoreEach(catalog, q, MaxCostOf(catalog)), k)
  {
    SortStable(ScoreEach(catalog, q, MaxCostOf(catalog)));
  }

  /**
   * An empty query (no city, no interests, no positive budget or day count) scores every
   * itinerary 0 and returns the whole catalog in its original order.
   */
  lemma RankedEmptyQuery(catalog: seq<Itinerary>, q: Query)
    requires !CityGateActive(q)
    requires q.interests.None? || q.interests.value == []
    requires q.budgetAmount.None? || q.budgetAmount.value <= 0.0
    requires q.days.None? || q.days.value <= 0.0
    ensures |Ranked(catalog, q)| == |catalog|
    ensures forall i :: 0 <= i < |catalog| ==> Ranked(catalog, q)[i] == Scored(catalog[i], 0)
  {
    if catalog != [] {
      var m := MaxCostOf(catalog);
      var s := ScoreEach(catalog, q, m);
      EmptyQueryScoresZero(catalog, q, m);
      SortConstant(s, 0);
    }
  }

  /** Under an empty query the unsorted results are the catalog itself, each scored 0. */
  lemma EmptyQueryScoresZero(catalog: seq<Itinerary>, q: Query, m: real)
    requires !CityGateActive(q)
    requires q.interests.None? || q.interests.value == []
    requires q.budgetAmount.None? || q.budgetAmount.value <= 0.0
    requires q.days.None? || q.days.value <= 0.0
    ensures |ScoreEach(catalog, q, m)| == |catalog|
    ensures forall i :: 0 <= i < |catalog| ==> ScoreEach(catalog, q, m)[i] == Scored(catalog[i], 0)
  {
    var s := ScoreEach(catalog, q, m);
    assert InterestSet(q.interests) == {};
    ScoreEachScores(catalog, q, m);
    assert Itineraries(s) == catalog;
    forall i | 0 <= i < |catalog| ensures s[i] == Scored(catalog[i], 0) {
      assert s[i] in s;
      assert Itineraries(s)[i] == s[i].itinerary;
    }
  }

  /** Matching itinerary interests against a larger set of wanted interests finds at least as many. */
  lemma {:induction false} OverlapMonotone(interests: seq<string>, small: set<string>, large: set<string>)
    requires small <= large
    ensures |Overlap(interests, small)| <= |Overlap(interests, large)|
  {
    if interests != [] {
      OverlapMonotone(interests[1..], small, large);
    }
  }

  /** Asking for more interests, all else equal, never lowers a score. */
  lemma InterestMonotone(it: Itinerary, q1: Query, q2: Query, maxCost: real)
    requires q1.city == q2.city && q1.budgetAmount == q2.budgetAmount && q1.days == q2.days
    requires InterestSet(q1.interests) <= InterestSet(q2.interests)
    ensures Score(it, q1, maxCost) <= Score(it, q2, maxCost)
  {
    OverlapMonotone(it.interests, InterestSet(q1.interests), InterestSet(q2.interests));
  }

  /** A one-itinerary catalog: the itinerary comes back alone, scored against its own maximum cost, exactly when it passes the gate. */
  lemma RankedSingleton(it: Itinerary, q: Query)
    ensures Ranked([it], q) == if Eligible(it, q) then [Scored(it, Score(it, q, it.approximateCostMax))] else []
  {
    assert [it][..0] == [];
    assert MaxCostOf([it]) == it.approximateCostMax;
  }
}
