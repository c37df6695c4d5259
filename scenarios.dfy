/** Worked cases of the scoring rules on concrete itineraries and queries. */
module Scenarios {
  import opened Optional
  import opened JsString
  import opened Types
  import opened Scoring

  /** A 3-5 day heritage trip from Jaipur costing 10000-20000. */
  const Heritage := Itinerary("jaipur-heritage", ["Jaipur"], 3.0, 5.0, 10000.0, 20000.0, ["heritage"])

  /** "jaipur", 4 days, budget 15000, interest "heritage". */
  const FullQuery := Query(Some("jaipur"), Some(4.0), Some(15000.0), Some(["heritage"]))

  /** "jaipur", 10 days, budget 15000, no interests. */
  const LongQuery := Query(Some("jaipur"), Some(10.0), Some(15000.0), None)

  lemma JaipurPassesGate(q: Query)
    requires q.city == Some("jaipur")
    ensures CityGateActive(q) && Eligible(Heritage, q)
  {
    JaipurNormalizes();
    JaipurLowers();
  }

  lemma HeritageInterestSet()
    ensures InterestSet(FullQuery.interests) == {"heritage"}
  {
    HeritageNormalizes();
    InterestSetSingle("heritage");
  }

  lemma HeritageInterestBonus()
    ensures InterestBonus(Heritage, {"heritage"}) == 2
  {
    HeritageLowers();
    assert Overlap(["heritage"], {"heritage"}) == ["heritage"];
  }

  /** Every dimension matches: 5 (city) + 2 (one interest) + 4 (budget in range) + 3 (days in range). */
  lemma FullMatchScores14()
    ensures Ranked([Heritage], FullQuery) == [Scored(Heritage, 14)]
  {
    assert CityGateActive(FullQuery) && Eligible(Heritage, FullQuery) by { JaipurPassesGate(FullQuery); }
    assert InterestBonus(Heritage, InterestSet(FullQuery.interests)) == 2 by {
      HeritageInterestSet();
      HeritageInterestBonus();
    }
    assert BudgetBonus(Heritage, FullQuery.budgetAmount, 20000.0) == 4;
    assert DurationBonus(Heritage, FullQuery.days) == 3;
    assert Score(Heritage, FullQuery, 20000.0) == 14;
    RankedSingleton(Heritage, FullQuery);
  }

  /** Ten days is 6 from the 4-day midpoint, beyond the tolerance of 1 + 2: 5 (city) + 4 (budget) only. */
  lemma LongTripScores9()
    ensures Ranked([Heritage], LongQuery) == [Scored(Heritage, 9)]
  {
    assert CityGateActive(LongQuery) && Eligible(Heritage, LongQuery) by { JaipurPassesGate(LongQuery); }
    assert InterestBonus(Heritage, InterestSet(LongQuery.interests)) == 0 by {
      assert InterestSet(LongQuery.interests) == {};
    }
    assert BudgetBonus(Heritage, LongQuery.budgetAmount, 20000.0) == 4;
    assert DurationBonus(Heritage, LongQuery.days) == 0;
    assert Score(Heritage, LongQuery, 20000.0) == 9;
    RankedSingleton(Heritage, LongQuery);
  }

  lemma UpperJaipurLowers()
    ensures ToLower("JAIPUR") == "jaipur"
  {
  }

  /** The query city is trimmed and lowercased, so " JAIPUR " still selects the Jaipur trip. */
  lemma PaddedQueryCityMatches()
    ensures Eligible(Heritage, Query(Some(" JAIPUR "), None, None, None))
  {
    PaddedJaipurTrims();
    UpperJaipurLowers();
    JaipurLowers();
  }

  /** Supported cities are lowercased but not trimmed: a catalog entry " Jaipur" never matches. */
  lemma PaddedSupportedCityMisses()
    ensures Ranked([Heritage.(supportedStartingCities := [" Jaipur"])], Query(Some("jaipur"), None, None, None)) == []
  {
    var it := Heritage.(supportedStartingCities := [" Jaipur"]);
    var q := Query(Some("jaipur"), None, None, None);
    assert CityGateActive(q) by { JaipurPassesGate(q); }
    assert !Eligible(it, q) by { UntrimmedCitiesNeverMatch(it, q); }
    RankedSingleton(it, q);
  }

  /** A tag the itinerary lists twice (in any case) earns the interest bonus twice. */
  lemma RepeatedInterestCountsTwice()
    ensures InterestBonus(Heritage.(interests := ["heritage", "Heritage"]), {"heritage"}) == 4
  {
    HeritageLowers();
    CapitalHeritageLowers();
    assert Overlap(["Heritage"], {"heritage"}) == ["Heritage"];
    assert ["heritage", "Heritage"][1..] == ["Heritage"];
    assert Overlap(["heritage", "Heritage"], {"heritage"}) == ["heritage", "Heritage"];
  }

  /** A 1-2 day Delhi trip costing up to 10000, and a Jaipur trip costing up to 100000. */
  const DelhiDay := Itinerary("delhi-day", ["Delhi"], 1.0, 2.0, 5000.0, 10000.0, [])
  const JaipurLuxury := Itinerary("jaipur-luxury", ["Jaipur"], 5.0, 7.0, 60000.0, 100000.0, [])

  /**
   * The over-budget allowance is half the largest maximum cost in the whole catalog, even of
   * itineraries the city gate drops: with the Jaipur trip in the catalog a Delhi search with
   * budget 40000 earns the +1 (overage 30000 < 50000); with the Delhi trip alone it does not.
   */
  lemma OverBudgetUsesWholeCatalog()
    ensures BudgetBonus(DelhiDay, Some(40000.0), MaxCostOf([DelhiDay, JaipurLuxury])) == 1
    ensures BudgetBonus(DelhiDay, Some(40000.0), MaxCostOf([DelhiDay])) == 0
    ensures !Eligible(JaipurLuxury, Query(Some("delhi"), None, Some(40000.0), None))
  {
    assert MaxCostOf([DelhiDay, JaipurLuxury]) == 100000.0 by {
      assert [DelhiDay, JaipurLuxury][1..] == [JaipurLuxury];
    }
    DelhiSkipsJaipur();
  }

  lemma DelhiSkipsJaipur()
    ensures !Eligible(JaipurLuxury, Query(Some("delhi"), None, Some(40000.0), None))
  {
    DelhiNormalizes();
    JaipurLowers();
    assert |"delhi"| != |"jaipur"|;
  }

  lemma DelhiNormalizes()
    ensures NormalizeCity(Some("delhi")) == Some("delhi")
  {
    NormalizeCityKeepsNormal("delhi");
  }

  lemma JaipurLowers()
    ensures LowerAll(["Jaipur"]) == ["jaipur"]
  {
    assert ToLower("Jaipur") == "jaipur";
  }

  lemma JaipurNormalizes()
    ensures NormalizeCity(Some("jaipur")) == Some("jaipur")
  {
    NormalizeCityKeepsNormal("jaipur");
  }

  lemma HeritageNormalizes()
    ensures ToLower(Trim("heritage")) == "heritage"
  {
    NormalizeCityKeepsNormal("heritage");
  }

  lemma HeritageLowers()
    ensures ToLower("heritage") == "heritage"
  {
    ToLowerKeepsLower("heritage");
  }

  lemma CapitalHeritageLowers()
    ensures ToLower("Heritage") == "heritage"
  {
  }

  lemma PaddedJaipurTrims()
    ensures Trim(" JAIPUR ") == "JAIPUR"
  {
    TrimUndoesPadding("JAIPUR");
    assert " JAIPUR " == [' '] + "JAIPUR" + [' '];
  }
}
