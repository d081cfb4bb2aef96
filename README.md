# Pricing analytics — a Dafny model

This project models the pricing-analytics core of a seller-facing pricing assistant. The core is three pure calculations:

- **Elasticity** (`engine/elasticity.py`). `calculate_elasticity` divides the proportional change in units sold by the proportional change in price. It returns nothing on a zero price or unit baseline, and nothing when the price did not move. `interpret_elasticity` turns the magnitude into one of the labels "highly elastic", "elastic", "unit elastic", "inelastic", or "unknown" when there is no value.
- **Margin** (`engine/elasticity.py`). `get_margin` gives profit as a percentage of price. It returns the sentinel 0 when the price is 0.
- **Competitor position** (`engine/competitor.py`). `analyze_competitors` reports six statistics over the competitor prices: the average, the lowest, the highest, the gap to the average and the percentage gap, plus a position label. It returns nothing for an empty list. `get_market_position` classifies the percentage gap with a ±10 band that includes its edges.

Modules:

- `Wrappers` holds `Option`, which stands for Python's `None` results.
- `Rounding` holds `Round2`, the model of `round(x, 2)`. It rounds the exact real value to the nearest hundredth, with halves rounded up, and comes with its monotonicity and fixed-point lemmas.
- `Elasticity` models `engine/elasticity.py`.
- `Competitor` models `engine/competitor.py`. `sum`, `min` and `max` over the list are recursive functions. The result dict is the record `CompetitorAnalysis`, whose six fields are named after the dict's keys.

Prices and percentages are `real`; unit counts are `int`. The label strings are datatypes (`Sensitivity`, `MarketPosition`). Each has a `Text()` that returns the exact string the source returns.

The percentage gap at `engine/competitor.py:17` divides by the rounded average, and nothing guards that division. For positive prices, the rounded average is 0 exactly when the mean is below half a cent (`PositivePricesZeroAverage`). The caller's filter keeps only prices `> 0`, and a price of 0.001 passes it. In that case Python raises a division error. The model makes this an explicit outcome, `ZeroAverage`, and does not use a precondition to exclude it. `PositivePriceReachesZeroAverage` shows one such input. `NoZeroAverageFromHalfCentPrices` shows that prices of at least 0.005 never reach it.

A negative margin at a positive price implies that the cost exceeds the price (`NegativeMarginMeansLoss`). The converse does not hold for the code as written. A loss smaller than half a hundredth of a percent rounds to a margin of 0 (`SmallLossRoundsToZeroMargin`). The code is followed here, so "negative iff cost > price" holds only in the one direction.

## Model

| member | source | states |
|---|---|---|
| `Rounding.Round2` | engine/elasticity.py:19 | `round(x, 2)`: the result is a whole number of hundredths, within half a hundredth of `x` (above by at most half, below by less than half) |
| `Rounding.Round2Monotone` | engine/elasticity.py:48 | rounding preserves order: `a <= b` gives `Round2(a) <= Round2(b)` |
| `Rounding.Round2FixesCents` | engine/competitor.py:12 | every whole number of hundredths is a fixed point of rounding |
| `Rounding.Round2FixesLandmarks` | engine/elasticity.py:48 | `Round2(0) == 0`, `Round2(10) == 10`, `Round2(100) == 100` |
| `Rounding.Round2Idempotent` | engine/competitor.py:12 | `round(x, 2)` is idempotent: rounding its result again changes nothing |
| `Rounding.Round2NearZero` | engine/competitor.py:16-17 | every value in `[-0.005, 0.005)` rounds to 0 |
| `Elasticity.Abs` | engine/elasticity.py:29 | the magnitude is non-negative and equals the value or its negation |
| `Elasticity.CalculateElasticity` | engine/elasticity.py:4-19 | no result exactly when the old price is 0, the old units are 0, or the price did not move; otherwise the rounded cross-multiplied ratio `(Δunits·old price)/(Δprice·old units)` |
| `Elasticity.RatioOfChanges` | engine/elasticity.py:12-18 | the ratio of the two proportional changes equals that single cross-multiplied fraction |
| `Elasticity.ElasticityOfOrdinaryDemand` | engine/elasticity.py:12-19 | at a positive baseline, a price rise without a demand rise (or a cut without a demand fall) gives a defined elasticity that is `<= 0` |
| `Elasticity.UnitElasticScenario` | engine/elasticity.py:4-38 | (10, 50 units) to (12, 40 units) gives exactly −1.00, labelled unit elastic |
| `Elasticity.InterpretElasticity` | engine/elasticity.py:22-38 | unknown exactly when there is no value; otherwise, on the magnitude `m`: highly elastic iff `m > 2`, elastic iff `1 < m <= 2`, unit elastic iff `m == 1`, inelastic iff `m < 1`; a value's label text is always one of those four strings |
| `Elasticity.InterpretIgnoresSign` | engine/elasticity.py:29 | `e` and `-e` get the same label |
| `Elasticity.InterpretMonotone` | engine/elasticity.py:31-38 | a larger magnitude never gets a less sensitive label |
| `Elasticity.InterpretBoundaries` | engine/elasticity.py:26-38 | 2.00 is elastic, 2.01 highly elastic, 1.00 and −1.00 unit elastic, 1.01 elastic, no value unknown |
| `Elasticity.SensitivityTextInjective` | engine/elasticity.py:27-38 | the five label strings are pairwise distinct |
| `Elasticity.Sensitivity.Text` | engine/elasticity.py:27-38 | the label is one of the five strings the source returns, and is "unknown" exactly for `Unknown` |
| `Elasticity.GetMargin` | engine/elasticity.py:41-48 | 0 at price 0 whatever the cost; otherwise a whole number of hundredths within half a hundredth of the exact margin `(price − cost) / price × 100` |
| `Elasticity.MarginAtZeroPrice` | engine/elasticity.py:45-46 | the zero-price sentinel holds for every cost |
| `Elasticity.MarginBounds` | engine/elasticity.py:47-48 | at a positive price: cost ≥ price gives margin ≤ 0, cost ≤ price gives margin ≥ 0, cost ≥ 0 gives margin ≤ 100 |
| `Elasticity.NegativeMarginMeansLoss` | engine/elasticity.py:47-48 | at a positive price, a negative margin implies cost > price |
| `Elasticity.SmallLossRoundsToZeroMargin` | engine/elasticity.py:47-48 | price 100 and cost 100.004 give margin 0, so a loss does not always show as a negative margin |
| `Competitor.Min` | engine/competitor.py:13 | the minimum is an element of the list and is ≤ every element |
| `Competitor.Max` | engine/competitor.py:14 | the maximum is an element of the list and is ≥ every element |
| `Competitor.Sum` | engine/competitor.py:12 | the total of the prices (no contract of its own; SumAppend and SumPositive state its properties) |
| `Competitor.SumAppend` | engine/competitor.py:12 | appending a price adds it to the total, so the total equals `sum`'s left-to-right accumulation |
| `Competitor.SumPositive` | engine/competitor.py:12 | positive prices have a positive total iff the list is non-empty |
| `Competitor.Mean` | engine/competitor.py:12 | the mean times the number of prices is the total (`sum / len`) |
| `Competitor.SumBetween` | engine/competitor.py:12 | elements bounded by `lo` and `hi` give a total bounded by `n·lo` and `n·hi` |
| `Competitor.DivideBetween` | engine/competitor.py:12 | a total between `n·lo` and `n·hi`, with `n > 0`, gives a quotient between `lo` and `hi` |
| `Competitor.MeanBetweenExtremes` | engine/competitor.py:12-14 | the unrounded mean lies in `[min, max]` |
| `Competitor.GetMarketPosition` | engine/competitor.py:31-40 | above market iff the gap is `> 10`, below market iff `< −10`, at market iff it lies in `[−10, 10]` |
| `Competitor.MarketPosition.Text` | engine/competitor.py:35-40 | the position text is one of the three strings the source returns, and is "priced at market" exactly for the middle rank |
| `Competitor.MarketPositionMonotone` | engine/competitor.py:35-40 | the position is monotone in the gap: below ≤ at ≤ above |
| `Competitor.AnalyzeCompetitors` | engine/competitor.py:4-28 | no analysis iff the list is empty; the division fault iff the rounded mean is 0; otherwise the extremes are elements bounding every price, the average is the rounded mean, the gap is the rounded difference between own price and average, the percentage gap is the rounded ratio `gap / avg × 100`, and the position is that of the percentage gap |
| `Competitor.AverageBetweenExtremes` | engine/competitor.py:12-14 | the reported average lies between the rounded lowest and highest prices |
| `Competitor.AtMarketWhenPricedAtAverage` | engine/competitor.py:16-19 | with a non-empty list and a non-zero rounded average, a price equal to the mean or to the rounded mean gives gap 0, percentage gap 0, at market |
| `Competitor.PositionMonotoneInPrice` | engine/competitor.py:16-19 | with a positive rounded average, a higher own price never gives a cheaper position |
| `Competitor.NoZeroAverageFromHalfCentPrices` | engine/competitor.py:12-17 | a non-empty list of prices all ≥ 0.005 always produces an analysis, never the division fault |
| `Competitor.PositivePricesZeroAverage` | engine/competitor.py:12-17 | for positive prices (the caller's filter), the division fault happens iff the mean is below 0.005 |
| `Competitor.PositivePriceReachesZeroAverage` | engine/competitor.py:17 | the single positive price 0.001 reaches the division fault |
| `Competitor.NoAnalysisWithoutCompetitors` | engine/competitor.py:9-10 | an empty list gives no analysis whatever the own price |
| `Competitor.AnalysisScenarios` | engine/competitor.py:4-40 | (100; 90, 100, 110) is at market with zero gap; (120; 100) is above at +20; (80; 100) is below at −20; (110; 100) is exactly +10 and at market |

## Left out

- `app.py` is the Streamlit form and dashboard: widgets, CSS and HTML, chart widths and the warning flow. It is presentation only. The only facts used from it are that competitor prices are filtered to `> 0` and that elasticity is computed only when the old price and old units are positive. Both appear as hypotheses of lemmas (`PositivePricesZeroAverage`, `ElasticityOfOrdinaryDemand`), not as preconditions of the modelled functions, because those functions handle every input.
- `engine/recommender.py` is not part of this model. It builds a free-text prompt and calls an external language-model service over the network, with credentials from the environment.
- Rounding.Round2: models rounding on exact reals with halves rounded up. It does not model IEEE-754 binary floats or Python's round-half-to-even on the binary value, so results can differ from Python's at exact half-hundredth ties and wherever float error matters.
- Elasticity.GetMargin: the zero-price sentinel is the real 0 here, whereas Python returns the integer 0. The two compare equal.
- Competitor.AnalyzeCompetitors: the division error Python raises is modelled as the `ZeroAverage` outcome. The model does not capture an exception propagating to the caller.
- Re-execution of the UI and concurrency are left out. The analytics hold no state, so neither affects them.
