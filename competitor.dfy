/**
 * Summary statistics over competitor prices and the seller's market
 * position relative to them (engine/competitor.py).
 */
module Competitor {
  import opened Rounding

  /**
   * Total of the prices. Written as `s[0] + (s[1] + ...)`; SumAppend shows it
   * equals the left-to-right accumulation `((0 + s[0]) + s[1]) + ...` of `sum`.
   */
  function Sum(s: seq<real>): (t: real) {
    if s == [] then 0.0 else s[0] + Sum(s[1..])
  }

  /** Positive prices have a positive total exactly when there is at least one. */
  lemma {:induction false} SumPositive(s: seq<real>)
    requires forall i :: 0 <= i < |s| ==> s[i] > 0.0
    ensures Sum(s) > 0.0 <==> s != []
  {
    if s != [] {
      SumPositive(s[1..]);
      assert Sum(s[1..]) >= 0.0;
    }
  }

  /** Adding one more price at the end adds it to the total: the step `sum` takes. */
  lemma {:induction false} SumAppend(s: seq<real>, x: real)
    ensures Sum(s + [x]) == Sum(s) + x
  {
    if s == [] {
      assert [] + [x] == [x];
    } else {
      assert (s + [x])[1..] == s[1..] + [x];
      SumAppend(s[1..], x);
    }
  }

  /** The smallest price; the first of several equal ones, as `min` picks. */
  function Min(s: seq<real>): (m: real)
    requires s != []
    ensures m in s
    ensures forall i :: 0 <= i < |s| ==> m <= s[i]
  {
    if |s| == 1 then s[0]
    else
      var rest := Min(s[1..]);
      if s[0] <= rest then s[0] else rest
  }

  /** The largest price; the first of several equal ones, as `max` picks. */
  function Max(s: seq<real>): (m: real)
    requires s != []
    ensures m in s
    ensures forall i :: 0 <= i < |s| ==> s[i] <= m
  {
    if |s| == 1 then s[0]
    else
      var rest := Max(s[1..]);
      if s[0] >= rest then s[0] else rest
  }

  /** The unrounded mean price. */
  function Mean(s: seq<real>): (m: real)
    requires s != []
    ensures m * |s| as real == Sum(s)
  {
    Sum(s) / |s| as real
  }

  /** Every price at least `lo` makes the total at least `|s|` times `lo`, and likewise above. */
  lemma {:induction false} SumBetween(s: seq<real>, lo: real, hi: real)
    requires forall i :: 0 <= i < |s| ==> lo <= s[i] <= hi
    ensures |s| as real * lo <= Sum(s) <= |s| as real * hi
  {
    if s != [] {
      SumBetween(s[1..], lo, hi);
      assert |s| as real * lo == lo + |s[1..]| as real * lo;
      assert |s| as real * hi == hi + |s[1..]| as real * hi;
    }
  }

  /** The mean lies between the lowest and the highest price. */
  lemma MeanBetweenExtremes(s: seq<real>)
    requires s != []
    ensures Min(s) <= Mean(s) <= Max(s)
  {
    var n, lo, hi := |s| as real, Min(s), Max(s);
    SumBetween(s, lo, hi);
    DivideBetween(Sum(s), n, lo, hi);
  }

  lemma DivideBetween(total: real, n: real, lo: real, hi: real)
    requires n > 0.0 && n * lo <= total <= n * hi
    ensures lo <= total / n <= hi
  {
    var q := total / n;
    assert q * n == total;
  }

  /** Where the seller's price sits against the competitors' average. */
  datatype MarketPosition = BelowMarket | AtMarket | AboveMarket {

    function Text(): (t: string)
      ensures t in {"priced below market", "priced at market", "priced above market"}
      ensures Rank() == 1 <==> t == "priced at market"
    {
      match this
      case BelowMarket => "priced below market"
      case AtMarket => "priced at market"
      case AboveMarket => "priced above market"
    }

    /** Position on the scale from cheapest to dearest. */
    function Rank(): (n: nat) {
      match this
      case BelowMarket => 0
      case AtMarket => 1
      case AboveMarket => 2
    }
  }

  /**
   * The position for a percentage gap: more than 10 above the average is
   * above market, more than 10 below is below market, and the band from -10
   * to 10 inclusive is at market.
   */
  function GetMarketPosition(priceGapPercent: real): (p: MarketPosition)
    ensures p == AboveMarket <==> priceGapPercent > 10.0
    ensures p == BelowMarket <==> priceGapPercent < -10.0
    ensures p == AtMarket <==> -10.0 <= priceGapPercent <= 10.0
  {
    if priceGapPercent > 10.0 then AboveMarket
    else if priceGapPercent < -10.0 then BelowMarket
    else AtMarket
  }

  /** A larger gap never gives a cheaper position. */
  lemma MarketPositionMonotone(a: real, b: real)
    requires a <= b
    ensures GetMarketPosition(a).Rank() <= GetMarketPosition(b).Rank()
  {
  }

  /** The six named statistics the analysis reports. */
  datatype CompetitorAnalysis = CompetitorAnalysis(
    avgCompetitorPrice: real,
    lowestCompetitor: real,
    highestCompetitor: real,
    priceGap: real,
    priceGapPercent: real,
    position: MarketPosition)

  /**
   * What an analysis call ends in: no result for an empty list, the division
   * fault when the rounded average is 0, or the statistics.
   */
  datatype AnalysisOutcome =
    | NoCompetitors
    | ZeroAverage
    | Analyzed(analysis: CompetitorAnalysis)

  /**
   * Statistics of the competitor prices and the seller's gap to their
   * average. The percentage gap divides by the rounded average unguarded, so
   * a rounded average of 0 ends in ZeroAverage, the division fault.
   */
  function AnalyzeCompetitors(yourPrice: real, competitorPrices: seq<real>): (r: AnalysisOutcome)
    ensures r.NoCompetitors? <==> competitorPrices == []
    ensures r.ZeroAverage? <==> competitorPrices != [] && Round2(Mean(competitorPrices)) == 0.0
    ensures r.Analyzed? ==>
      var a := r.analysis;
      && a.lowestCompetitor in competitorPrices
      && a.highestCompetitor in competitorPrices
      && (forall x :: x in competitorPrices ==> a.lowestCompetitor <= x <= a.highestCompetitor)
      && a.avgCompetitorPrice == Round2(Mean(competitorPrices)) != 0.0
      && a.priceGap == Round2(yourPrice - a.avgCompetitorPrice)
      && a.priceGapPercent == Round2(a.priceGap / a.avgCompetitorPrice * 100.0)
      && a.position == GetMarketPosition(a.priceGapPercent)
  {
    if competitorPrices == [] then NoCompetitors
    else
      var avgCompetitorPrice := Round2(Sum(competitorPrices) / |competitorPrices| as real);
      var lowestCompetitor := Min(competitorPrices);
      var highestCompetitor := Max(competitorPrices);
      var priceGap := Round2(yourPrice - avgCompetitorPrice);
      if avgCompetitorPrice == 0.0 then ZeroAverage
      else
        var priceGapPercent := Round2((priceGap / avgCompetitorPrice) * 100.0);
        var position := GetMarketPosition(priceGapPercent);
        Analyzed(CompetitorAnalysis(
          avgCompetitorPrice, lowestCompetitor, highestCompetitor,
          priceGap, priceGapPercent, position))
  }

  /** The reported average lies between the rounded lowest and highest prices. */
  lemma AverageBetweenExtremes(yourPrice: real, competitorPrices: seq<real>)
    requires AnalyzeCompetitors(yourPrice, competitorPrices).Analyzed?
    ensures var a := AnalyzeCompetitors(yourPrice, competitorPrices).analysis;
      Round2(a.lowestCompetitor) <= a.avgCompetitorPrice <= Round2(a.highestCompetitor)
  {
    var a := AnalyzeCompetitors(yourPrice, competitorPrices).analysis;
    MeanBetweenExtremes(competitorPrices);
    assert a.lowestCompetitor <= Min(competitorPrices) by {
      assert Min(competitorPrices) in competitorPrices;
    }
    assert Max(competitorPrices) <= a.highestCompetitor by {
      assert Max(competitorPrices) in competitorPrices;
    }
    Round2Monotone(a.lowestCompetitor, Mean(competitorPrices));
    Round2Monotone(Mean(competitorPrices), a.highestCompetitor);
  }

  /** A seller priced at the competitors' mean, or at its rounded value, has no gap and is at market. */
  lemma AtMarketWhenPricedAtAverage(yourPrice: real, competitorPrices: seq<real>)
    requires competitorPrices != [] && Round2(Mean(competitorPrices)) != 0.0
    requires yourPrice == Mean(competitorPrices) || yourPrice == Round2(Mean(competitorPrices))
    ensures AnalyzeCompetitors(yourPrice, competitorPrices).Analyzed?
    ensures var a := AnalyzeCompetitors(yourPrice, competitorPrices).analysis;
      a.priceGap == 0.0 && a.priceGapPercent == 0.0 && a.position == AtMarket
  {
    var avg := Round2(Mean(competitorPrices));
    Round2NearZero(yourPrice - avg);
    Round2NearZero(0.0 / avg * 100.0);
  }

  /** With a positive average, a higher own price never gives a cheaper position. */
  lemma PositionMonotoneInPrice(lower: real, higher: real, competitorPrices: seq<real>)
    requires lower <= higher
    requires competitorPrices != [] && Round2(Mean(competitorPrices)) > 0.0
    ensures AnalyzeCompetitors(lower, competitorPrices).Analyzed?
    ensures AnalyzeCompetitors(higher, competitorPrices).Analyzed?
    ensures AnalyzeCompetitors(lower, competitorPrices).analysis.position.Rank()
         <= AnalyzeCompetitors(higher, competitorPrices).analysis.position.Rank()
  {
    var avg := Round2(Mean(competitorPrices));
    var gapLo, gapHi := Round2(lower - avg), Round2(higher - avg);
    Round2Monotone(lower - avg, higher - avg);
    assert gapLo / avg <= gapHi / avg;
    Round2Monotone(gapLo / avg * 100.0, gapHi / avg * 100.0);
    MarketPositionMonotone(Round2(gapLo / avg * 100.0), Round2(gapHi / avg * 100.0));
  }

  /** Prices of at least half a cent each can never reach the division fault. */
  lemma NoZeroAverageFromHalfCentPrices(yourPrice: real, competitorPrices: seq<real>)
    requires competitorPrices != []
    requires forall i :: 0 <= i < |competitorPrices| ==> competitorPrices[i] >= 0.005
    ensures AnalyzeCompetitors(yourPrice, competitorPrices).Analyzed?
  {
    MeanBetweenExtremes(competitorPrices);
    Round2Monotone(0.005, Mean(competitorPrices));
    Round2FixesCents(1);
    assert Round2(0.005) == 0.01 by {
      assert Cents(0.005) == 1;
    }
  }

  /**
   * For positive prices, the ones the caller passes on, the division fault
   * happens exactly when the mean is below half a cent.
   */
  lemma PositivePricesZeroAverage(yourPrice: real, competitorPrices: seq<real>)
    requires competitorPrices != []
    requires forall i :: 0 <= i < |competitorPrices| ==> competitorPrices[i] > 0.0
    ensures AnalyzeCompetitors(yourPrice, competitorPrices).ZeroAverage? <==> Mean(competitorPrices) < 0.005
  {
    var mean := Mean(competitorPrices);
    MeanBetweenExtremes(competitorPrices);
    assert mean > 0.0;
    if mean < 0.005 {
      Round2NearZero(mean);
    } else {
      Round2Monotone(0.005, mean);
      assert Cents(0.005) == 1;
    }
  }

  /** A positive price, which the caller's filter lets through, still reaches the division fault. */
  lemma PositivePriceReachesZeroAverage(yourPrice: real)
    ensures AnalyzeCompetitors(yourPrice, [0.001]) == ZeroAverage
  {
    assert Mean([0.001]) == 0.001;
    Round2NearZero(0.001);
  }

  /** No competitor prices, no analysis, whatever the seller's price. */
  lemma NoAnalysisWithoutCompetitors(yourPrice: real)
    ensures AnalyzeCompetitors(yourPrice, []) == NoCompetitors
  {
  }

  /** Worked scenarios: at, above, below, and exactly on the upper edge of the band. */
  lemma AnalysisScenarios()
    ensures AnalyzeCompetitors(100.0, [90.0, 100.0, 110.0])
         == Analyzed(CompetitorAnalysis(100.0, 90.0, 110.0, 0.0, 0.0, AtMarket))
    ensures AnalyzeCompetitors(120.0, [100.0])
         == Analyzed(CompetitorAnalysis(100.0, 100.0, 100.0, 20.0, 20.0, AboveMarket))
    ensures AnalyzeCompetitors(80.0, [100.0])
         == Analyzed(CompetitorAnalysis(100.0, 100.0, 100.0, -20.0, -20.0, BelowMarket))
    ensures AnalyzeCompetitors(110.0, [100.0])
         == Analyzed(CompetitorAnalysis(100.0, 100.0, 100.0, 10.0, 10.0, AtMarket))
  {
    assert Sum([90.0, 100.0, 110.0]) == 300.0 by {
      assert [90.0, 100.0, 110.0][1..] == [100.0, 110.0];
      assert [100.0, 110.0][1..] == [110.0];
    }
    assert Min([90.0, 100.0, 110.0]) == 90.0 && Max([90.0, 100.0, 110.0]) == 110.0;
    assert Mean([100.0]) == 100.0;
    Round2FixesLandmarks();
    Round2FixesCents(2000);
    Round2FixesCents(-2000);
  }
}
