# Fractile long/short factor portfolios on an ESG-screened universe

This project models two Python scripts in Dafny. The first screens a table of
securities into an investable universe. The second builds a long/short fractile
portfolio and its factor exposures from that universe.

- **Screening** (`main.py`, module `Universe`):
  - keeps the twenty working columns;
  - removes the fossil-fuel industry groups `Oil&Gas`, `Oil&Gas Services` and `Gas`;
  - requires an E, S and G pillar score of at least 3;
  - drops every incomplete row;
  - names the factor columns: every column except the identity and risk/performance ones.
- **Portfolio builder** (`portfolio.py`, module `Portfolio`):
  - drops incomplete rows and chooses the sensitivity factors;
  - selects the rows in the lowest (1) and highest (N) fractile of the target factor;
  - weights them equally;
  - reports the exposure `sum(Weight * Zscore f)` to each sensitivity factor;
  - as written, raises at that product when N ≤ 2 or nothing is selected, because the weights stay categorical.

Supporting modules:

- `Sequences`: the order-preserving `Filter` behind every row selection. Its index witness `Kept`/`SelectedAt` shows that a filter keeps rows in order and unchanged.
- `Frames`: cells (`Missing`, `Text`, `Num`), rows as maps from column to cell, and `DropNa`.
- `Fractiles`: what the builder relies on from the quantile cut. `ValidFractiles` requires labels in 1..N that never decrease as the value grows. `RankFractiles` is a reference labelling proved to meet that requirement.
- `Results`: the `Result`/`Option` types and the error cases (`MissingColumns`, `ParseError`, `InvalidFactors`, `NotImplemented`, `DivisionByZero`, `CategoricalWeights`).

The builder's weights cross the leg counts. The docstring at portfolio.py:54 speaks of
buying the first fractile and shorting the last, and the counts are named that way:
`num_long` counts fractile 1 and `num_short` counts fractile N (portfolio.py:63-64).
The comment at portfolio.py:66 then treats fractile 1 as the worst, and the weights
at portfolio.py:68-69 flip the signs without swapping the counts:

- a fractile-N row weighs `+1/num_long`;
- every other selected row weighs `-1/num_short`.

The model keeps this exactly. Its consequences are proved:

- the long leg sums to count(N)/count(1) and the short leg to -count(1)/count(N);
- the portfolio is dollar-neutral exactly when the two fractiles are the same size;
- `Portfolio.CrossedCountsExample` gives an unbalanced case where the total weight is -1.5.

## Model

| member | source | states |
|---|---|---|
| Universe.Project | main.py:9-14 | Column selection fails exactly when a working column is absent, and then names every absent column. On success each row keeps exactly its cells in the twenty working columns, in row order. |
| Universe.ThresholdStep | main.py:22-24 | One pillar threshold: fails with a parse error exactly when a remaining cell of the column is text. Otherwise the kept rows are exactly the input rows scoring at least 3 on that pillar. |
| Universe.ProjectParses | main.py:9-14 | With every working column present and no text in an E, S or G score, projection succeeds and its rows hold no score text. |
| Universe.ThresholdStepParses | main.py:22-24 | Without text in the E, S and G scores a pillar step succeeds, and the rows it keeps hold no score text. |
| Universe.FilterUniverse | main.py:9-28 | The whole screening fails whenever a working column is absent, and succeeds whenever every working column is present and no E, S or G score is text. A failure is a missing-column or a parse error. On success it has the working columns, and every row passes the sector exclusion and all three pillar minimums and has a non-missing cell in every working column. |
| Universe.ScreeningIsFilterChain | main.py:18-28 | A successful screening is the sector filter, then the E, S and G filters, then `dropna`, in that order. |
| Universe.FilterChainIsEligible | main.py:18-28 | The five filters in a row are one filter by the conjunction of their tests. |
| Universe.FilterUniverseSelects | main.py:18-28 | The universe is exactly the projected rows passing every test, in their original order and unchanged. |
| Universe.ProjectProjected | main.py:9-14 | Projecting a table that already has just the working columns returns it unchanged. |
| Universe.StepsKeepEligible | main.py:18-28 | On a table of eligible rows, every screening step (sector, E, S, G, `dropna`) removes nothing. |
| Universe.FilterUniverseIdempotent | main.py:9-28 | Screening the screened universe again gives the same universe. |
| Universe.PillarFiltersCommute | main.py:22-24 | The three pillar filters give the same rows in all six orders. |
| Universe.FactorColumns | main.py:32-33 | A column is a factor exactly when it is in the table and is neither an identity nor a risk/performance column. |
| Universe.FactorColumnsOfProjection | main.py:32-33 | On the screened table the factors are exactly E, S and G scores, the three goal flags and the three financial ratios, in that order. |
| Frames.DropNa | main.py:28 | `dropna` keeps the columns and keeps exactly the rows with a non-missing cell in every column of the table; a row with no entry for a column counts as missing there. |
| Frames.DropNaAbsentCell | main.py:28 | A row of a `ROIC`, `PB` table holding only a `ROIC` cell is dropped. |
| Frames.DropNaSelection | portfolio.py:30 | The rows `dropna` keeps are the complete ones, in their original order and unchanged. |
| Frames.DropNaKeepsComplete | main.py:28 | A table with nothing missing is left as it is. |
| Sequences.Filter | main.py:18-24 | A row filter keeps only rows that pass, never adds one, and loses none that passes. |
| Sequences.FilterSelection | main.py:18-28 | A filter's result is the input read at the ascending positions that pass. |
| Portfolio.DefaultSensiFactors | portfolio.py:32-33 | Without an explicit list the factors are exactly the columns other than `Date` and `Ticker`, in column order. |
| Portfolio.PassesCheckAsWritten | portfolio.py:37-38 | The explicit-list check as written never passes, whatever the list and the columns. |
| Portfolio.CheckAsWrittenRejectsValidList | portfolio.py:37-38 | The as-written check refuses `["ROIC"]` against columns `Date`, `Ticker`, `ROIC`, which the corrected check accepts. |
| Portfolio.NewPortfolio | portfolio.py:28-38 | Construction keeps target, fractile count and weighting, and its universe is the `dropna` of the table. With no list it takes the default factors. With a list it succeeds exactly when the corrected check passes, keeping the list; otherwise it fails with `InvalidFactors`. |
| Portfolio.ExplicitListNeedsIdentityColumns | portfolio.py:36-38 | Without a `Date` or `Ticker` column an explicit list is refused, by both the corrected and the as-written check. |
| Portfolio.NewPortfolioUniverse | portfolio.py:30 | The builder's universe keeps the columns and exactly the rows with a non-missing cell in every column, in order. |
| Fractiles.RankFractiles | portfolio.py:48-50 | The rank labelling is a valid fractile labelling: labels in 1..N, never smaller for a larger value. |
| Fractiles.HigherLabelLargerValue | portfolio.py:48-50 | Under a valid labelling a higher fractile holds a strictly larger value. |
| Fractiles.RankFractilesOfSorted | portfolio.py:48-50 | On increasing values the reference labelling gives position i fractile 1 + i*N/m: contiguous, near-equal bands. These are the reference's bands, not the quantile cut's. |
| Fractiles.EightIntoQuartiles | portfolio.py:48-50 | Eight increasing values in quartiles get labels 1,1,2,2,3,3,4,4. |
| Portfolio.ApplyWeights | portfolio.py:61-71 | Fails with a missing `Fractile` column when the target is not a sensitivity factor, and with `NotImplemented` for any weighting but equal weight. On success every position is a fractile 1 or N row of the universe, and every such row has a position. |
| Portfolio.Weigh | portfolio.py:68-69 | The weighted rows are the selected rows in order, each fractile N row at the long weight and every other row at the short weight. |
| Portfolio.ApplyWeightsSecurities | portfolio.py:61 | The securities of a built portfolio are exactly the fractile 1 and N rows, in universe order. |
| Portfolio.PortfolioIsExtremeBuckets | portfolio.py:61 | The positions are the universe read at the ascending positions of its fractile 1 and N rows. |
| Portfolio.SelectionKeepsBuckets | portfolio.py:61-64 | Counting fractile 1 or N inside the selection equals counting it in the whole universe. |
| Portfolio.ApplyWeightsShape | portfolio.py:61-69 | A build weights fractile N rows 1/count(1) and the rest -1/count(N), and when anything is selected both counts are positive. |
| Portfolio.ApplyWeightsEqualWeights | portfolio.py:63-69 | Under equal weight with N ≥ 2, when fractiles 1 and N are both occupied or both empty the build succeeds. Every fractile N position then weighs exactly +1/count(1) > 0 and every fractile 1 position -1/count(N) < 0. |
| Portfolio.ApplyWeightsLegSums | portfolio.py:63-69 | With both extreme fractiles occupied the build succeeds. Its long leg weighs count(N)/count(1), its short leg -count(1)/count(N), and the whole portfolio their sum. |
| Portfolio.DollarNeutralIffBalanced | portfolio.py:63-69 | When the extreme fractiles are both occupied or both empty the build succeeds, and its total weight is zero if and only if fractiles 1 and N hold equally many rows. |
| Portfolio.DivisionByZeroIffOneLegEmpty | portfolio.py:63-69 | Under equal weight the build fails exactly when one extreme fractile is empty and the other is not, and then with a division by zero. |
| Portfolio.BothLegsBuild | portfolio.py:61-69 | Under equal weight with both extreme fractiles occupied, the build succeeds and holds at least one position. |
| Portfolio.ExampleIsConstructed | portfolio.py:28-33 | The three-row example is what the constructor builds from a table with `X` values 1, 2, 3, default factors, two fractiles and equal weight. |
| Portfolio.CrossedCountsExample | portfolio.py:63-69 | With two rows in fractile 1 and one in fractile 2, the long leg weighs 0.5, the short leg -2 and the portfolio -1.5. |
| Portfolio.ApplyWeightsExposure | portfolio.py:88-92 | With both extreme fractiles occupied the build succeeds. Its exposure to any factor is the sum of the fractile N values over count(1), less the sum of the fractile 1 values over count(N). |
| Portfolio.ExposureSplit | portfolio.py:90 | The exposure sum splits over any partition of the positions. |
| Portfolio.TopAboveBottom | portfolio.py:48-50 | Under a valid labelling every fractile N value exceeds every fractile 1 value. |
| Portfolio.BalancedTargetExposurePositive | portfolio.py:61-92 | With a valid labelling and equally sized, non-empty extreme fractiles, the build succeeds and is positively exposed to its own target factor. |
| Portfolio.ProcessByRow | portfolio.py:61-106 | With weights computed per row, processing fails exactly when weighting fails, with the same error. On success it returns the weighted positions, all drawn from the universe, and one exposure per sensitivity factor, the target included, each equal to that factor's exposure sum. |
| Portfolio.Process | portfolio.py:61-106 | As written: a weighting failure is passed on. After a successful weighting, processing fails with the categorical-weights error exactly when N ≤ 2 or nothing is selected. Otherwise it gives the row-by-row result. |
| Portfolio.ProcessTargetExposurePositive | portfolio.py:61-106 | With a valid labelling, N ≥ 3 and equally sized, non-empty extreme fractiles, processing as written succeeds and reports a positive exposure to the target factor. |
| Portfolio.ProcessByRowTargetExposurePositive | portfolio.py:61-106 | Computed row by row, the same holds for every N ≥ 2. |
| Portfolio.TwoFractilesRaise | portfolio.py:68-90 | With N = 2 and both fractiles occupied, processing as written fails with the categorical-weights error while the row-by-row build succeeds. |
| Portfolio.ExampleProcessRaises | portfolio.py:68-90 | The three-row, two-fractile example fails as written and builds row by row. |

## Left out

- Reading `all_data.csv`, writing `Miaou.xlsx` and the `Output//…csv` files, and the `save` flag: these are file I/O (main.py:6, main.py:44, portfolio.py:108-110).
- The `print` calls of both scripts: output only.
- The z-score and quantile cut (`zscore`, `pd.qcut`, main.py:35-42, portfolio.py:40-50). They are floating-point library routines. The builder takes the scored table as an input (`ScoredRow`). It relies only on the `ValidFractiles` contract of the labels, and `Fractiles.RankFractiles` is a reference labelling meeting it.
- `pd.qcut`'s error on duplicate bin edges: part of the cut, which is left out.
- The main.py loop that adds z-score and fractile columns for every factor: it is the same cut, left out with it.
- `astype(float)` on numeric text: a text cell is always a parse error, and a text cell holding a number is not converted.
- Portfolio.ExampleRows: the z-scores of 1, 2, 3 are irrational (±√1.5) and are written to four places; only their order matters to the labels.
- Floating point: values are exact reals, so rounding in `1/num_long` and in the sums is not modelled.
- Portfolio.Process: the scored table is a parameter rather than computed inside, because the z-score/fractile step is left out. Likewise `ZOf` reads 0 for a factor a row is not scored on, a case `ScoredFor` rules out for every sensitivity factor.
- Portfolio.WeightStaysCategorical: pandas' mapping of categories is not modelled itself, only its outcome, whether `Weight` stays categorical. For N ≥ 3 on a non-empty selection the categorical mapping and the row-by-row weights agree, division by zero included, since every category is mapped and both counts are then read.
- The fractile count N ≥ 2 is not checked by the source. The lemmas about legs assume it, since with N = 1 both legs are the same fractile.
- The weighting enum's other values: any value other than equal weight is `Unsupported(name)`, standing for the `else` branch.
- Fractiles.RankFractilesOfSorted: states the bands of the reference labelling, `1 + i*N/m`. The quantile cut interpolates its edges and can band differently: six values in quartiles get 1,1,2,3,4,4 there and 1,1,2,3,3,4 here.
- Universe.Project: an `Other` column whose heading equals a named column's header counts as a different column, so projection can fail where the file's own header would match.
- Exceptions carry no message text; each is an `Error` case. A key error gives the absent column names as a set, without the order pandas prints them in.

## Findings

| source | as written | input that shows it | evidently intended | confidence | as-written member | corrected member |
|---|---|---|---|---|---|---|
| portfolio.py:37 | `all(sensi_factors) not in cols` tests whether a boolean is a column label, which it never is, so every explicit factor list raises | `sensi_factors=["ROIC"]` with columns `Date`, `Ticker`, `ROIC` | raise only when some listed factor, `Date` or `Ticker` is missing from the columns | not executed | Portfolio.PassesCheckAsWritten, Portfolio.CheckAsWrittenRejectsValidList | Portfolio.NewPortfolio |
| portfolio.py:68-90 | `apply` on the categorical fractile column maps its N categories rather than its rows. With N ≤ 2 the mapped weights are distinct, so `Weight` stays categorical, and an empty selection stays an empty categorical column. The product with the z-scores at line 90 then raises a TypeError | N = 2 on `X` values 1, 2, 3: z-scores about -1.22, 0, 1.22 and labels 1, 1, 2 (`ExampleRows`) | one numeric weight per selected row, whatever N | not executed | Portfolio.Process, Portfolio.TwoFractilesRaise, Portfolio.ExampleProcessRaises | Portfolio.ProcessByRow, Portfolio.ProcessByRowTargetExposurePositive |
