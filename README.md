# github-viz: a verified model of the chart geometry

github-viz draws four charts of GitHub statistics. Two are stacked-area charts, `Area` and `KeyPlot`. Two are hexbin scatter charts, `UserScatter` and `HexScatter`. This project models the parts of those charts that compute something:

- **The percentage-stacking loop** of the two stacked-area charts (module `Stacking`). The legend's first few labels become rows. Each column of counts is truncated, divided by its total and accumulated in legend order. Row `i` receives the band `[sum of the shares before i, that sum plus share i)`.
- The two charts run the same loop under different rules (a `Rule` value):
  - `Area` truncates to the row count, skips columns whose truncated counts are all zero, and adds `EPS = 1e-23` to the total (module `Area`).
  - `KeyPlot` truncates to `MAX_KINDS = 5`, never skips, and divides by the bare sum (module `KeyPlot`).
- The loop is a method (`Stacking.Stack`, with the per-column step `Stacking.PushColumn`). It walks the columns and pushes onto the rows. It is proved against a row-by-row reference definition, `Stacking.RowArea`. The properties of the bands are lemmas about that definition: contiguity, widths, tops, equal row lengths and the skip rule.
- **The scatter geometry** (module `Scatter`, used by `UserScatter` and `HexScatter`):
  - the rescale of normalised bin centres into the data domain (`c * range + offset`);
  - the x domain, and the y domain lifted by `range * max(0, 1 - height / width)`;
  - the linear scales, as an affine map (module `Scale`), and the screen position of every bin;
  - the largest bin value;
  - the structure of the SVG hexagon path: `m`, six corner pairs joined by `l`, then `z`.
- **The legend panel** shared by three charts (module `Legend`): integer geometry derived from the number of cells, and the categorical labels, label `d` reading row `d`'s title.

Counts, shares and coordinates are exact reals, and legend geometry is integers. JavaScript's `undefined` results, such as `d3.max` of no bins or an extent of no points, become `Option.None`. Timestamps are integers, the milliseconds passed to `new Date`.

## Model

| member | source | states |
|---|---|---|
| Stacking.Take | src/area.ts:55 | `slice(0, n)`: as long as the smaller of `n` and the input length, holding the leading elements |
| Stacking.Shares | src/area.ts:61 | one share per count |
| Stacking.Stack | src/area.ts:50-71 | rows are the first `maxKinds` legend entries (or all of them, if fewer) with their titles and indices; iterating the columns in order leaves exactly the reference area `RowArea` in every row |
| Stacking.PushColumn | src/area.ts:55-70 | one column: a skipped column leaves the rows unchanged; otherwise row `k` gains exactly its band of this column, and rows the counts do not reach are untouched |
| Stacking.RowAreaStep | src/area.ts:54 | the reference area of one more column is the old area plus that column's contribution |
| Stacking.SumSnoc | src/area.ts:66-69 | the running sum grows by the next share |
| Stacking.SumShares | src/area.ts:60-61 | the shares sum to the count sum over the total |
| Stacking.SumPrefixMonotone | src/area.ts:66-69 | for non-negative counts the running sums are non-negative and non-decreasing |
| Stacking.SumPositive | src/area.ts:56-60 | non-negative counts, not all zero, have a positive sum |
| Stacking.BandWidth | src/area.ts:60-69 | a band's width is its count over the column total |
| Stacking.BandTop | src/area.ts:60-69 | a column's last band ends at `sum / total` |
| Stacking.BandBounds | src/area.ts:60-69 | with non-negative counts: `0 <= from <= to <= sum / total <= 1` |
| Stacking.KeptColumns | src/area.ts:54-58 | the columns not skipped: exactly the input columns the rule keeps, never more than the input |
| Stacking.RowAreaAt | src/area.ts:54-70 | when every kept column reaches row `i`, row `i` has one point per kept column, in column order, each the band of that kept input column |
| Stacking.RowsContiguous | src/area.ts:66-70 | rows `i` and `i+1` have equally many points pairwise from the same column; row `i+1` starts where row `i` ends; row 0 starts at 0 |
| Stacking.RowAreaFrom | src/area.ts:64-68 | every point of every row is that row's band of some kept input column, carrying its timestamp |
| Stacking.NoSkipKeepsAll | src/key-plot.ts:49-50 | a rule that never skips keeps every column |
| Stacking.SkippedColumnAddsNothing | src/area.ts:56-58 | a skipped column appends no point to any row |
| Stacking.Extent | src/area.ts:73 | `d3.extent` of timestamps: none for no points, else a bound below and above every point, both attained |
| Legend.Panel | src/area.ts:141-159 | the panel is 92 wide and `20 n + 8` high; its right edge is `W - R - 8` and its bottom edge `H - B - 24` whatever `n` |
| Legend.Swatches | src/area.ts:161-176 | `n` swatches, swatch `d` at `y = panel.y + 4 + 20 d`, each inside the panel, touching its neighbour |
| Legend.Labels | src/area.ts:161-183 | one label per title: label `d` reads title `d`, anchored 6 right of swatch `d` and 4 above its bottom edge, inside the panel |
| Area.AreaRule | src/area.ts:52-60 | keep the row count, skip zero columns, positive `EPS` |
| Area.AlwaysFits | src/area.ts:55 | truncation to the row count keeps every index within the rows |
| Area.KeptIff | src/area.ts:55-58 | a column is drawn exactly when one of its first `rows` counts is non-zero |
| Area.NonNegativeCountsDefined | src/area.ts:60-61 | non-negative counts make every division defined |
| Area.Rows | src/area.ts:50-71 | the area chart's rows: count, titles, indices, and the reference area under its rule |
| Area.KeptReachesRowZero | src/area.ts:55-58 | a kept column always reaches row 0 |
| Area.EqualRowLengths | src/area.ts:54-70 | if every column has at least as many counts as there are rows, every row has one point per kept column, with that column's timestamp |
| Area.TopBelowOne | src/area.ts:60-70 | with non-negative counts the last band of a kept column ends strictly between 0 and 1 |
| Area.BandInUnit | src/area.ts:60-70 | with non-negative counts every band is ordered and lies in `[0, 1)` |
| Area.ExtentOfColumns | src/area.ts:73 | points taking their timestamps one by one from a sequence of columns have those columns' extent, both ends attained |
| Area.TimeDomain | src/area.ts:73-77 | the time domain is none without rows or kept columns; otherwise it is the earliest and the latest timestamp of the kept columns, both attained |
| Area.ZeroColumnSkipped | src/area.ts:54-70 | counts `[3, 1]` then `[0, 0]`: one point per row, `[0, 3/(4+EPS))` and `[3/(4+EPS), 4/(4+EPS))` |
| Area.PercentDomain | src/area.ts:79-80 | `[percentOffset \|\| 0, 1]` |
| Area.ShareOnScreen | src/area.ts:79-81 | without an offset a share in `[0, 1]` is drawn between the margins, a larger share higher |
| Area.LegendGeometry | src/area.ts:141-170 | panel `(844, 536 - 20 n, 92, 20 n + 8)`, cell `d` at `y = 540 - 20 n + 20 d` |
| Area.LegendLabels | src/area.ts:161-183 | for the rows the loop builds, label `d` reads legend entry `d` at `(874, 556 - 20 n + 20 d)` |
| KeyPlot.Rows | src/key-plot.ts:46-63 | the first five legend entries, with titles and indices, holding the reference area under the key rule |
| KeyPlot.DefinedIff | src/key-plot.ts:50-53 | the required condition is exactly: no counts, or a non-zero sum of the first five counts |
| KeyPlot.EmptyColumnAddsNothing | src/key-plot.ts:49-62 | a column with no counts is accepted and appends no point to any row |
| KeyPlot.EveryColumnEveryRow | src/key-plot.ts:49-63 | when the counts reach every row, each row has one point per column, the `k`-th being column `k`'s band |
| KeyPlot.TopIsOne | src/key-plot.ts:52-62 | the bare total makes every column's last band end at exactly 1 |
| KeyPlot.ThreeToOne | src/key-plot.ts:49-62 | counts `[3, 1]` give the bands `[0, 0.75)` and `[0.75, 1)` |
| KeyPlot.LegendGeometry | src/key-plot.ts:133-162 | the same panel and cells as the area chart |
| KeyPlot.LegendLabels | src/key-plot.ts:153-175 | label `d` reads legend entry `d` at `(874, 556 - 20 n + 20 d)`, as in the area chart |
| Scale.ApplyFraction | src/user-scatter.ts:42-49 | the point a fraction `t` along the domain lands `t` along the range |
| Scale.Endpoints | src/user-scatter.ts:42-49 | domain endpoints go to range endpoints |
| Scale.BetweenUp | src/user-scatter.ts:42-44 | on an increasing range of width `w` the point at fraction `t` lies between the endpoints exactly when `t` is in `[0, 1]` |
| Scale.BetweenDown | src/user-scatter.ts:47-49 | the same on a decreasing range (negative width) |
| Scatter.Rescale | src/user-scatter.ts:69-77 | one bin per input bin, in order, values kept |
| Scatter.RescaleInverse | src/user-scatter.ts:73-74 | the normalised centre is recovered from the rescaled one |
| Scatter.XDomain | src/user-scatter.ts:40 | the x domain spans `range` |
| Scatter.RescaleInDomain | src/user-scatter.ts:40-77 | a normalised centre with positive range lands inside the x domain |
| Scatter.LiftFraction | src/user-scatter.ts:46 | `max(0, 1 - h / w)` lies in `[0, 1)` and is 0 exactly when the chart is at least as high as wide |
| Scatter.YDomain | src/user-scatter.ts:46-48 | lower bound `offset + range * lift`, never below `offset` for a non-negative range; upper bound `offset + range`, above the lower for a positive range |
| Scatter.Positions | src/user-scatter.ts:107-109 | one position per bin |
| Scatter.PositionAt | src/user-scatter.ts:107-109 | bin `k` is drawn at `(x(c0 * range + offset), y(c1 * range + offset))` |
| Scatter.PositionOnScreenX | src/user-scatter.ts:42-44 | a normalised bin is drawn between the left and right margins |
| Scatter.PositionOnScreenY | src/user-scatter.ts:46-49 | a normalised bin is drawn between the top and bottom margins exactly when its normalised y is at least the lift |
| Scatter.ScreenX | src/user-scatter.ts:42-44 | a scale over `[o, o + R]` maps the rescaled coordinate `c * R + o` to the fraction `c` along its range |
| Scatter.ScreenY | src/user-scatter.ts:46-49 | a scale over the domain lifted by the fraction `f` maps `c * R + o` to the fraction `(c - f) / (1 - f)` along its range |
| Scatter.TFraction | src/user-scatter.ts:46-48 | the position `(c - f) / (1 - f)` along the lifted domain is at most 1, and non-negative exactly when `c >= f` |
| Scatter.MaxValue | src/user-scatter.ts:66 | `d3.max` of the values: none for no bins, else at least every value and attained by some bin (also src/hex-scatter.ts:52) |
| Scatter.Split | src/user-scatter.ts:197 | splitting always yields at least one piece |
| Scatter.SplitCons | src/user-scatter.ts:197 | splitting stops at the first separator |
| Scatter.SplitJoin | src/user-scatter.ts:197 | joining pieces free of the separator is undone by splitting |
| Scatter.Corners | src/user-scatter.ts:193-195 | exactly six corner pairs |
| Scatter.Hexagon | src/user-scatter.ts:191-198 | the path starts with `m` and ends with `z`; between them, split on `l`, are exactly the six corners `0..5` in order, each splitting on `,` into its sine and cosine text |
| UserScatter.Domains | src/user-scatter.ts:40-48 | on 1000 x 600 the lift is 0.4: the y domain is `[offset + 0.4 range, offset + range]` |
| UserScatter.ScreenRanges | src/user-scatter.ts:42-49 | the x domain is drawn onto `[36, 944]`, the y domain onto `[580, 36]` |
| UserScatter.BinOnScreen | src/user-scatter.ts:107-109 | normalised bins are drawn within `x` in `[36, 944]`, and within `y` in `[36, 580]` exactly when their normalised y is at least 0.4 |
| UserScatter.LegendPanel | src/user-scatter.ts:148-164 | the value legend panel is `(844, 348, 92, 208)` |
| UserScatter.SampleOffset | src/user-scatter.ts:173-175 | a sample in `[0, 1]` is offset by between 0 and 180 |
| UserScatter.SampleInPanel | src/user-scatter.ts:166-179 | every sample's cell lies inside the panel, a larger sample lower |
| UserScatter.BinHexagon | src/user-scatter.ts:110 | the hexagon drawn for the bins has radius `1000 * input.radius` and the path structure above |
| HexScatter.Domains | src/hex-scatter.ts:32-41 | the lift is 0.4, the y domain upper bound is the x domain's, and its lower bound is never below `offset` |
| HexScatter.ScreenRanges | src/hex-scatter.ts:32-41 | the x domain is drawn onto `[86, 980]`, the y domain onto `[580, 54]` |
| HexScatter.BinOnScreen | src/hex-scatter.ts:88-90 | normalised bins are drawn within `x` in `[86, 980]`, and within `y` in `[54, 580]` exactly when their normalised y is at least 0.4 |
| HexScatter.BinHexagon | src/hex-scatter.ts:91 | the hexagon has radius `1000 * input.radius` and the path structure of `hexagon` (src/hex-scatter.ts:128-135) |

## Left out

- Fetching and parsing the JSON payload, src/app.ts, and every d3 selection, SVG, axis, `d3.area` and `curveStep` call: I/O and drawing.
- The tooltips (d3-tip) and their `Math.sqrt(3) / 2` offset: a foreign event library and floating point.
- The colour maps (`log(EPS + v) / log(EPS + max)`, `log(1 + v) / log(1 + max)`, `exp(d * log(...))`, `interpolateSpectral`, `schemeCategory10`): transcendental floating point and library palettes.
- The value legend's label text in src/user-scatter.ts:183-188 (`exp(...).toFixed(0)`): transcendental floating point and number printing. The categorical labels of the two stacked charts are modelled (`Legend.Labels`).
- Scatter.Hexagon: the corner coordinates themselves (`sin(k * PI / 3) * r` and `cos(...)`, printed as JavaScript numbers) are a parameter `coord`. The model proves the path's structure, not its numbers.
- `d3.timeFormat`, tick generation, and which samples `d3.ticks(0, 1, 9)` returns: library behaviour. `UserScatter.SampleInPanel` holds for any sample in `[0, 1]`.
- The time scale (`d3.scaleTime`) of the stacked charts is not modelled beyond its domain, `Stacking.Extent`.
- IEEE-754 rounding: counts and shares are exact reals. So `Area`'s top band ends at `sum / (sum + EPS)`, strictly below 1. In floating point, that division rounds to 1.
- The unused `rolling` arrays in both stacked charts: dead code.
- Rows are values: the per-row arrays the loop pushes into are a local `seq<Row>` that the loop reassigns. The source's arrays are fresh, so no aliasing is lost.
- KeyPlot.Rows: requires a non-zero truncated sum for every column that has counts. The source divides unguarded and would draw NaN bands; reals have no NaN. A column with no counts divides nothing and is accepted (`KeyPlot.EmptyColumnAddsNothing`).
- KeyPlot.Rows: requires every truncated count vector to fit the rows. The source would fail on the undefined `rows[i]`.
- Area.Rows: requires every kept column's `sum + EPS` to be non-zero. Only negative counts can make it zero, and `Area.NonNegativeCountsDefined` shows non-negative counts always satisfy it.
- Stacking.XDomain: the domain of a chart with no rows is `None`. The source would fail on `rows[0]`, and with no points it would pass `undefined` to d3.
- d3's behaviour for a degenerate domain (`range = 0`) is not modelled: the positions are stated only for a positive range.
- `maxKinds` is a natural number; JavaScript `slice` with a negative or fractional bound is not modelled.
- Area.PercentDomain: JavaScript's `||` would also replace a NaN offset by 0; there is no NaN in the model.
- The skip test looks at the counts truncated to the row count, not at all of a column's counts (src/area.ts:55-56); `Area.KeptIff` states it.
- In the area chart, counts `[3, 1]` give `3 / (4 + EPS)` and `4 / (4 + EPS)`, not exactly `0.75` and `1`; `Area.ZeroColumnSkipped` gives the exact values, and `KeyPlot.ThreeToOne` gives the exact `0.75` and `1` of the bare total.
