/**
 * Price elasticity of demand, its plain-English sensitivity label, and the
 * profit margin (engine/elasticity.py).
 */
module Elasticity {
  import opened Wrappers
  import opened Rounding

  function Abs(x: real): (a: real)
    ensures a >= 0.0 && (a == x || a == -x)
  {
    if x < 0.0 then -x else x
  }

  /**
   * Elasticity between an old and a new (price, units) observation: the
   * proportional change in units sold over the proportional change in price,
   * rounded to hundredths. Undefined (`None`) on a zero price or unit
   * baseline, and when the price did not move.
   */
  function CalculateElasticity(oldPrice: real, newPrice: real, oldUnits: int, newUnits: int): (e: Option<real>)
    ensures e.None? <==> oldPrice == 0.0 || oldUnits == 0 || newPrice == oldPrice
    ensures e.Some? ==>
      e.value == Round2(((newUnits - oldUnits) as real * oldPrice) / ((newPrice - oldPrice) * oldUnits as real))
  {
    if oldPrice == 0.0 || oldUnits == 0 then None
    else
      var percentChangePrice := (newPrice - oldPrice) / oldPrice;
      var percentChangeDemand := (newUnits - oldUnits) as real / oldUnits as real;
      if percentChangePrice == 0.0 then None
      else
        RatioOfChanges(newUnits - oldUnits, oldUnits, newPrice - oldPrice, oldPrice);
        assert percentChangeDemand / percentChangePrice
          == ((newUnits - oldUnits) as real * oldPrice) / ((newPrice - oldPrice) * oldUnits as real);
        Some(Round2(percentChangeDemand / percentChangePrice))
  }

  /** The ratio of two proportional changes, written as one fraction. */
  lemma RatioOfChanges(du: int, u: int, dp: real, p: real)
    requires u != 0 && p != 0.0 && dp != 0.0
    ensures (du as real / u as real) / (dp / p) == (du as real * p) / (dp * u as real)
  {
    var a, b := du as real, u as real;
    calc {
      (a / b) / (dp / p);
      { assert (a / b) * b == a; assert (dp / p) * p == dp; }
      (a * p) / (dp * b);
    }
  }

  /**
   * A price rise that does not raise demand, or a price cut that does not
   * lower it, has a non-positive elasticity: ordinary demand.
   */
  lemma ElasticityOfOrdinaryDemand(oldPrice: real, newPrice: real, oldUnits: int, newUnits: int)
    requires oldPrice > 0.0 && oldUnits > 0
    requires (newPrice > oldPrice && newUnits <= oldUnits) || (newPrice < oldPrice && newUnits >= oldUnits)
    ensures CalculateElasticity(oldPrice, newPrice, oldUnits, newUnits).Some?
    ensures CalculateElasticity(oldPrice, newPrice, oldUnits, newUnits).value <= 0.0
  {
    var du, dp := (newUnits - oldUnits) as real, newPrice - oldPrice;
    var n, d := du * oldPrice, dp * oldUnits as real;
    ProductSigns(du, oldPrice, dp, oldUnits as real);
    QuotientNonPositive(n, d);
    Round2Monotone(n / d, 0.0);
    Round2FixesLandmarks();
  }

  /** Scaling both changes by a positive baseline keeps their signs. */
  lemma ProductSigns(du: real, p: real, dp: real, u: real)
    requires p > 0.0 && u > 0.0
    requires (dp > 0.0 && du <= 0.0) || (dp < 0.0 && du >= 0.0)
    ensures (du * p <= 0.0 && dp * u > 0.0) || (du * p >= 0.0 && dp * u < 0.0)
  {
  }

  /** A quotient of opposite signs is not positive. */
  lemma QuotientNonPositive(n: real, d: real)
    requires (n <= 0.0 && d > 0.0) || (n >= 0.0 && d < 0.0)
    ensures n / d <= 0.0
  {
    if d > 0.0 {
      QuotientBounds(n, d);
    } else {
      assert n / d == (-n) / (-d);
      QuotientBounds(-n, -d);
    }
  }

  /** Where a quotient by a positive divisor lies, from where its numerator lies. */
  lemma QuotientBounds(n: real, d: real)
    requires d > 0.0
    ensures n <= 0.0 ==> n / d <= 0.0
    ensures n >= 0.0 ==> n / d >= 0.0
    ensures n <= d ==> n / d <= 1.0
  {
    var q := n / d;
    assert q * d == n;
  }

  /** The scenario of a 20% price rise that loses 20% of the units: (10, 50) to (12, 40). */
  lemma UnitElasticScenario()
    ensures CalculateElasticity(10.0, 12.0, 50, 40) == Some(-1.0)
    ensures InterpretElasticity(CalculateElasticity(10.0, 12.0, 50, 40)) == UnitElastic
  {
    Round2FixesCents(-100);
  }

  /** How sensitive buyers are to price, with the exact labels the source returns. */
  datatype Sensitivity = Unknown | Inelastic | UnitElastic | Elastic | HighlyElastic {

    function Text(): (t: string)
      ensures t in {"unknown", "inelastic", "unit elastic", "elastic", "highly elastic"}
      ensures t == "unknown" <==> this == Unknown
    {
      match this
      case Unknown => "unknown"
      case Inelastic => "inelastic"
      case UnitElastic => "unit elastic"
      case Elastic => "elastic"
      case HighlyElastic => "highly elastic"
    }

    /** Position on the scale from least to most sensitive. */
    function Tier(): (n: nat) {
      match this
      case Unknown => 0
      case Inelastic => 1
      case UnitElastic => 2
      case Elastic => 3
      case HighlyElastic => 4
    }
  }

  /**
   * The label of an elasticity, decided by its magnitude alone: above 2 is
   * highly elastic, above 1 up to and including 2 is elastic, exactly 1 is
   * unit elastic, below 1 is inelastic; no value is unknown.
   */
  function InterpretElasticity(elasticity: Option<real>): (s: Sensitivity)
    ensures s == Unknown <==> elasticity.None?
    ensures elasticity.Some? ==> s.Text() in {"highly elastic", "elastic", "unit elastic", "inelastic"}
    ensures elasticity.Some? ==>
      var m := Abs(elasticity.value);
      && (s == HighlyElastic <==> 2.0 < m)
      && (s == Elastic <==> 1.0 < m <= 2.0)
      && (s == UnitElastic <==> m == 1.0)
      && (s == Inelastic <==> m < 1.0)
  {
    if elasticity.None? then Unknown
    else
      var magnitude := Abs(elasticity.value);
      if magnitude > 2.0 then HighlyElastic
      else if magnitude > 1.0 then Elastic
      else if magnitude == 1.0 then UnitElastic
      else Inelastic
  }

  /** The label does not depend on the sign of the elasticity. */
  lemma InterpretIgnoresSign(e: real)
    ensures InterpretElasticity(Some(e)) == InterpretElasticity(Some(-e))
  {
  }

  /** A larger magnitude never gets a less sensitive label. */
  lemma InterpretMonotone(a: real, b: real)
    requires Abs(a) <= Abs(b)
    ensures InterpretElasticity(Some(a)).Tier() <= InterpretElasticity(Some(b)).Tier()
  {
  }

  /** The boundaries fall to the lower tier, except exact unit elasticity. */
  lemma InterpretBoundaries()
    ensures InterpretElasticity(Some(2.0)) == Elastic
    ensures InterpretElasticity(Some(2.01)) == HighlyElastic
    ensures InterpretElasticity(Some(1.0)) == UnitElastic
    ensures InterpretElasticity(Some(1.01)) == Elastic
    ensures InterpretElasticity(Some(-1.0)) == UnitElastic
    ensures InterpretElasticity(None) == Unknown
  {
  }

  /** The labels are distinct strings, so the text identifies the tier. */
  lemma SensitivityTextInjective(s: Sensitivity, t: Sensitivity)
    requires s.Text() == t.Text()
    ensures s == t
  {
  }

  /**
   * Profit margin as a percentage of price, rounded to hundredths; 0 when the
   * price is 0, a sentinel for an undefined margin rather than a computed one.
   */
  function GetMargin(price: real, cost: real): (m: real)
    ensures price == 0.0 ==> m == 0.0
    ensures price != 0.0 ==>
      var exact := (price - cost) / price * 100.0;
      IsCents(m) && exact - 0.005 < m <= exact + 0.005
  {
    if price == 0.0 then 0.0
    else
      var margin := (price - cost) / price * 100.0;
      Round2(margin)
  }

  /** Sign and upper bound of the margin at a positive price. */
  lemma MarginBounds(price: real, cost: real)
    requires price > 0.0
    ensures cost >= price ==> GetMargin(price, cost) <= 0.0
    ensures cost <= price ==> GetMargin(price, cost) >= 0.0
    ensures cost >= 0.0 ==> GetMargin(price, cost) <= 100.0
  {
    var ratio := (price - cost) / price;
    QuotientBounds(price - cost, price);
    Round2FixesLandmarks();
    if cost >= price {
      Round2Monotone(ratio * 100.0, 0.0);
    }
    if cost <= price {
      Round2Monotone(0.0, ratio * 100.0);
    }
    if cost >= 0.0 {
      Round2Monotone(ratio * 100.0, 100.0);
    }
  }

  /** A negative margin at a positive price means the cost exceeds the price. */
  lemma NegativeMarginMeansLoss(price: real, cost: real)
    requires price > 0.0 && GetMargin(price, cost) < 0.0
    ensures cost > price
  {
    MarginBounds(price, cost);
  }

  /** The converse fails: a loss of less than half a hundredth of a percent rounds to a zero margin. */
  lemma SmallLossRoundsToZeroMargin()
    ensures GetMargin(100.0, 100.004) == 0.0
  {
    Round2NearZero(-0.004);
  }

  /** The zero-price sentinel, whatever the cost. */
  lemma MarginAtZeroPrice(cost: real)
    ensures GetMargin(0.0, cost) == 0.0
  {
  }
}
