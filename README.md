# Financial comparison dashboard: analytics core

`comparador_financierov5.py` is a Streamlit page that compares stock tickers. Inside it sits a small analytics engine built from pandas one-liners:

- the ticker list is parsed from a comma-separated text box, and the benchmark `SPY` is appended when missing;
- the close-price table is aligned across tickers with `dropna()`;
- daily returns come from `pct_change().dropna()`;
- the maximum drawdown comes from `data / data.cummax() - 1`;
- the Sharpe ratio drives a "high Sharpe" warning;
- the technical tab computes:
  - 20- and 50-day simple moving averages;
  - a 14-day RSI;
  - MACD (12/26/9) from pandas exponential moving averages;
  - 20-day Bollinger bands at two standard deviations.

This project restates that engine in Dafny and proves what each indicator promises.

Prices are exact `real` numbers, an idealisation of the floating-point code. Floating-point NaN and the two infinities are not propagated silently. They appear as explicit outcomes (`Outcomes.Num`):

- `Absent` stands for NaN;
- `Unbounded(true)` and `Unbounded(false)` stand for +inf and -inf.

Every division the source performs goes through `Outcomes.Div`. So division by zero shows up as a visible case rather than a crash or a silent NaN.

Modules, one per concern of the source:

- `Outcomes`: the tagged numbers and pandas' NaN-skipping `min()`.
- `Stats`: sums, means and extrema.
- `Tickers`: the ticker list, including the `TickerList` class whose `EnsureBenchmark` method appends `SPY` in place.
- `Alignment`: `dropna()` and the aligned table.
- `Returns`: `pct_change().dropna()` and compounding.
- `MovingAverage`: `rolling(w).mean()`.
- `Drawdown`: `cummax` and the maximum drawdown.
- `Metrics`: the Sharpe ratio and its warning.
- `Rsi`: `compute_rsi`.
- `Macd`: `ewm(span).mean()` and `compute_macd`.
- `Bollinger`: the bands.

Three behaviours of the code shape the model:

- `ewm(span).mean()` is pandas' default `adjust=True` average: a normalised sum with weights `(1-α)^k`.
- Over a zero volatility, `annual_return / volatility` is +inf or -inf by the sign of the return, and NaN for 0/0.
- The maximum drawdown is `min(ratio) * 100`. It is 0 exactly for a non-decreasing series when the prices are positive.

## Model

| member | source | states |
|---|---|---|
| Tickers.Split | comparador_financierov5.py:12 | `text.split(",")` yields one more piece than there are commas, and no piece contains a comma |
| Tickers.JoinSplit | comparador_financierov5.py:12 | re-joining the pieces of a split with commas restores the input text |
| Tickers.SplitJoin | comparador_financierov5.py:12 | splitting the comma-join of comma-free pieces gives the pieces back |
| Tickers.StripLeft | comparador_financierov5.py:12 | the result is a suffix of the text, everything cut is whitespace (Python's `isspace`), and it does not start with whitespace |
| Tickers.StripRight | comparador_financierov5.py:12 | the result is a prefix of the text, everything cut is whitespace, and it does not end with whitespace |
| Tickers.LeadingSpace | comparador_financierov5.py:12 | the count of leading characters `lstrip()` removes: all of them are whitespace, and the next one is not |
| Tickers.TrailingSpace | comparador_financierov5.py:12 | the count of trailing characters `rstrip()` removes: all of them are whitespace, and the one before is not |
| Tickers.Strip | comparador_financierov5.py:12 | `t.strip()` is no longer than `t` and neither starts nor ends with whitespace |
| Tickers.StripIsSlice | comparador_financierov5.py:12 | a stripped ticker is the contiguous piece of the text after its leading whitespace |
| Tickers.StripRemovesOnlySpace | comparador_financierov5.py:12 | every character `strip()` removes is whitespace |
| Tickers.StripTrimmed | comparador_financierov5.py:12 | a text with no whitespace at either end is unchanged by `strip()` |
| Tickers.StripIdempotent | comparador_financierov5.py:12 | stripping twice equals stripping once |
| Tickers.UpperChar | comparador_financierov5.py:12 | a lower-case ASCII letter becomes its own capital (same offset from `A` as from `a`), every other character is kept, and whitespace and commas stay as they were |
| Tickers.Upper | comparador_financierov5.py:12 | `upper()` keeps the length and upper-cases every character in place, so no lower-case ASCII letter remains and nothing else changes |
| Tickers.UpperIdempotent | comparador_financierov5.py:12 | upper-casing twice equals upper-casing once |
| Tickers.StripCommaFree | comparador_financierov5.py:12 | stripping adds no comma |
| Tickers.UpperCommaFree | comparador_financierov5.py:12 | upper-casing adds no comma |
| Tickers.UpperEnds | comparador_financierov5.py:12 | upper-casing a trimmed text leaves it trimmed |
| Tickers.Normalise | comparador_financierov5.py:12 | `t.strip().upper()` is no longer than the piece and holds no lower-case ASCII letter |
| Tickers.NormaliseClean | comparador_financierov5.py:12 | `t.strip().upper()` of a comma-free piece is a clean ticker: no comma, no surrounding whitespace, no lower-case ASCII |
| Tickers.NormaliseFixed | comparador_financierov5.py:12 | a piece that is already trimmed and upper-case is left as it is |
| Tickers.StripExample | comparador_financierov5.py:12 | `" aapl ".strip()` is `"aapl"` |
| Tickers.UpperExample | comparador_financierov5.py:12 | `"aapl".upper()` is `"AAPL"` |
| Tickers.NormaliseExample | comparador_financierov5.py:12 | `" aapl ".strip().upper()` is `"AAPL"` |
| Tickers.ParseTickers | comparador_financierov5.py:12 | the list comprehension gives one ticker per comma-separated piece, in order, each the normalised piece |
| Tickers.ParsedTickersAreClean | comparador_financierov5.py:12 | every parsed ticker is clean |
| Tickers.ParseJoin | comparador_financierov5.py:12 | parsing the comma-join of a list of clean tickers gives the list back |
| Tickers.DefaultTickers | comparador_financierov5.py:12-20 | the default input `AAPL,MSFT,SPY` parses to three tickers, and the benchmark check leaves them unchanged |
| Tickers.WithBenchmark | comparador_financierov5.py:19-20 | `SPY` is present afterwards; earlier tickers keep their positions and values; the list grows, by `SPY` alone at the end, exactly when `SPY` was missing |
| Tickers.WithBenchmarkIdempotent | comparador_financierov5.py:19-20 | running the benchmark check twice equals running it once |
| Tickers.TickerList.constructor | comparador_financierov5.py:12 | the list holds the tickers parsed from the input text |
| Tickers.TickerList.EnsureBenchmark | comparador_financierov5.py:19-20 | the in-place `append` leaves the list equal to `WithBenchmark` of the old list: `SPY` present and the old entries as a prefix |
| Alignment.DropNA | comparador_financierov5.py:25 | `dropna()` never adds rows, and every kept row has no missing cell |
| Alignment.DropNAKeepsExactly | comparador_financierov5.py:25 | every kept row is an input row, and every complete input row is kept |
| Alignment.DropNARectangular | comparador_financierov5.py:25 | dropping rows keeps one cell per ticker in every row |
| Alignment.DropNAAppend | comparador_financierov5.py:25 | dropping commutes with concatenation, so the kept rows stay in their original order |
| Alignment.DropNAComplete | comparador_financierov5.py:25-26 | a table with every row complete is returned unchanged |
| Alignment.DropNAFirstOnly | comparador_financierov5.py:26 | a table whose first row alone is incomplete loses exactly that row |
| Alignment.DropNAKeepsLaterDates | comparador_financierov5.py:25 | rows that all come after a date still do after dropping |
| Alignment.DropNAKeepsDateOrder | comparador_financierov5.py:25 | dropping rows keeps the dates strictly increasing |
| Alignment.Present | comparador_financierov5.py:25 | a complete row becomes the row of its present prices, with the same date and width |
| Alignment.Align | comparador_financierov5.py:25 | the aligned table has one row per complete input row, each holding that row's prices |
| Alignment.AlignMembership | comparador_financierov5.py:25 | a row is aligned exactly when some input row with every price present carries that date and those prices (an inner join on dates) |
| Alignment.AlignShape | comparador_financierov5.py:25 | the aligned table keeps one price per ticker in each row and increasing dates |
| Alignment.Column | comparador_financierov5.py:111 | `data[t]` holds the ticker's cell of every row, in row order |
| Returns.Change | comparador_financierov5.py:26 | a `pct_change` cell is `cur/prev - 1` from a non-zero previous price; it is NaN after NaN or for 0 after 0; it is an infinity of the price's sign after a zero price |
| Returns.PctChange | comparador_financierov5.py:26 | the first row is all NaN, later rows hold each ticker's change from the previous row, and dates and width are kept |
| Returns.ReturnsTable | comparador_financierov5.py:26 | `pct_change().dropna()` has no NaN cell and, with at least one ticker, loses at least the all-NaN first row |
| Returns.PositiveChange | comparador_financierov5.py:26 | a change from a positive price is the finite simple return |
| Returns.ReturnsDropFirstRow | comparador_financierov5.py:26 | with positive prices, exactly the first row of `pct_change()` is dropped |
| Returns.ReturnCell | comparador_financierov5.py:26 | with positive prices, return `i` of a ticker is `p[i+1]/p[i] - 1` |
| Returns.ReturnsOfPositivePrices | comparador_financierov5.py:26 | with positive prices there are n-1 return rows, each dated like the later of its two prices, each return `p[i+1]/p[i] - 1` |
| Returns.Ratios | comparador_financierov5.py:26 | a positive price series has one simple return fewer than prices |
| Returns.RatioAt | comparador_financierov5.py:26 | simple return `i` of a series is `p[i+1]/p[i] - 1` |
| Returns.RatiosPrefix | comparador_financierov5.py:26 | the returns of a series without its last price are its returns without the last one |
| Returns.GrowOneStep | comparador_financierov5.py:26 | growing a price by its simple return reaches the next price |
| Returns.CompoundIsScaledGrowth | comparador_financierov5.py:26 | compounding a price period by period equals multiplying it by the growth factor `Π(1 + r)` |
| Returns.CompoundRatiosStep | comparador_financierov5.py:26 | the compounding round trip extends by one price |
| Returns.CompoundRatios | comparador_financierov5.py:26 | the first price compounded by every simple return is the last price |
| Returns.Values | comparador_financierov5.py:26 | a series with no NaN or infinity is its finite values |
| Returns.ReturnColumnCells | comparador_financierov5.py:26 | with positive prices, each ticker's return `i` is the simple return `i` of its price column |
| Returns.ReturnColumn | comparador_financierov5.py:26 | with positive prices, a ticker's column of returns is the simple returns of its column of prices, none NaN |
| Returns.ReturnsRoundTrip | comparador_financierov5.py:25-26 | with positive prices, each ticker's first price compounded by its column of returns is its last price, that is `p[0]·Π(1 + r[i]) == p[n-1]` |
| MovingAverage.RollingMean | comparador_financierov5.py:112-113 | `rolling(w).mean()` has the length of the prices, is NaN exactly before the first full window, and is never infinite |
| MovingAverage.Window | comparador_financierov5.py:112-113 | the window at `t` is the `w` prices ending at `t` |
| MovingAverage.WindowSum | comparador_financierov5.py:112-113 | the difference of two running totals is the sum of the window |
| MovingAverage.RollingMeanIsWindowMean | comparador_financierov5.py:112-113 | every defined point is the mean of `p[t-w+1..t]` |
| MovingAverage.RollingMeanBetweenExtremes | comparador_financierov5.py:112-113 | every defined point lies between the least and the greatest price of its window |
| MovingAverage.RollingMeanOfConstant | comparador_financierov5.py:112-113 | on a constant series every defined point is the constant |
| MovingAverage.SmaShapes | comparador_financierov5.py:112-113 | `sma_20` and `sma_50` have the length of the prices and are NaN exactly on the first 19 and 49 dates |
| Drawdown.CumMax | comparador_financierov5.py:65 | `cummax()` keeps the length, and entry `t` is the maximum of `p[0..t]` |
| Drawdown.CumMaxIsPeak | comparador_financierov5.py:65 | the running peak is at least every price so far and equals one of them |
| Drawdown.CumMaxNonDecreasing | comparador_financierov5.py:65 | the running peak never falls |
| Drawdown.DrawdownAt | comparador_financierov5.py:65 | `price/peak - 1` is the finite relative fall from a non-zero peak; over a zero peak it is NaN exactly for a zero price |
| Drawdown.Drawdowns | comparador_financierov5.py:65 | `data / data.cummax() - 1` has one point per date, each the fall from that date's running peak |
| Drawdown.DrawdownRatio | comparador_financierov5.py:65 | a positive price no higher than its peak falls by a fraction in (-1, 0], and by 0 exactly at the peak |
| Drawdown.DrawdownIsFall | comparador_financierov5.py:65 | for positive prices, each drawdown is the finite fall from a running peak at least as high as the price |
| Drawdown.DrawdownBounds | comparador_financierov5.py:65 | for positive prices, each drawdown lies in (-1, 0] and is 0 exactly at a new peak |
| Drawdown.MaxDrawdown | comparador_financierov5.py:65 | `.min() * 100` of an empty series is NaN |
| Drawdown.PeakOfNonDecreasing | comparador_financierov5.py:65 | on a series that never falls, every price is its own running peak |
| Drawdown.MaxDrawdownRange | comparador_financierov5.py:65 | the maximum drawdown of a non-empty positive series is a finite percentage in (-100, 0] |
| Drawdown.DrawdownAtPeak | comparador_financierov5.py:65 | a price at its peak has a drawdown of 0 |
| Drawdown.MaxDrawdownOfNonDecreasing | comparador_financierov5.py:65 | a positive series that never falls has maximum drawdown 0 |
| Drawdown.ZeroMinimum | comparador_financierov5.py:65 | when the minimum is 0, every non-positive drawdown is 0 |
| Drawdown.AtPeakWhenNoDrawdown | comparador_financierov5.py:65 | a minimum drawdown of 0 leaves every price at its running peak |
| Drawdown.NonDecreasingOfNoDrawdown | comparador_financierov5.py:65 | a positive series whose maximum drawdown is 0 never falls |
| Drawdown.MaxDrawdownZeroIff | comparador_financierov5.py:65 | for a non-empty positive series, the maximum drawdown is 0 exactly when the series is non-decreasing |
| Metrics.Sharpe | comparador_financierov5.py:64 | `annual_return / volatility` is a finite ratio when the volatility is non-zero; over a zero volatility it is NaN exactly for a zero return and otherwise an infinity of the return's sign |
| Metrics.HighSharpe | comparador_financierov5.py:69 | `sharpe[t] > 2` is false for NaN and for -inf, true for +inf, and for a finite ratio true exactly above 2 |
| Metrics.HighSharpeIff | comparador_financierov5.py:64-69 | the `sharpe[t] > 2` warning fires for a positive volatility exactly when the return exceeds twice the volatility, and for a zero volatility exactly when the return is positive |
| Rsi.Delta | comparador_financierov5.py:93 | `diff()` has the length of the prices and is never infinite |
| Rsi.Rise | comparador_financierov5.py:94 | `delta.where(delta > 0, 0)` at one date is non-negative: the change itself when it is a rise, and 0 for a fall, no change or NaN |
| Rsi.Fall | comparador_financierov5.py:95 | `-delta.where(delta < 0, 0)` at one date is non-negative: the size of the change when it is a fall, and 0 for a rise, no change or NaN |
| Rsi.Gains | comparador_financierov5.py:94 | `gain` is never negative and is 0 on the first date (NaN compares false) |
| Rsi.Losses | comparador_financierov5.py:95 | `loss` is never negative and is 0 on the first date |
| Rsi.GainsLossesSplitChange | comparador_financierov5.py:93-95 | gain minus loss is the price change, and one of the two is 0 |
| Rsi.RsiPoint | comparador_financierov5.py:98-99 | NaN in either average makes the RSI NaN; `Rsi.RsiPointOfAverages` gives its value for defined averages |
| Rsi.RsiAlgebra | comparador_financierov5.py:98-99 | with a positive average loss, `100 - 100/(1 + g/l)` equals `100·g/(g+l)` |
| Rsi.RsiPointOfAverages | comparador_financierov5.py:98-99 | for non-negative averages the RSI is NaN exactly when both are 0, and otherwise `100·g/(g+l)` (100 when the loss is 0) |
| Rsi.Rsi | comparador_financierov5.py:92-99 | the RSI has the length of the prices and is NaN before index `period - 1` |
| Rsi.AvgGain | comparador_financierov5.py:96 | the average gain over a full window is non-negative |
| Rsi.AvgLoss | comparador_financierov5.py:97 | the average loss over a full window is non-negative |
| Rsi.MeanOfNonNegative | comparador_financierov5.py:96-97 | the mean of non-negative values is non-negative |
| Rsi.RsiOfAverages | comparador_financierov5.py:96-99 | from index `period - 1` on, the RSI is built from the window means of gain and loss |
| Rsi.RsiAt | comparador_financierov5.py:92-99 | from index `period - 1` on, the RSI is NaN exactly when the window saw no movement, and otherwise `100·g/(g+l)` |
| Rsi.ShareBounds | comparador_financierov5.py:99 | `100·g/(g+l)` of non-negative averages lies in [0, 100] |
| Rsi.RsiBounds | comparador_financierov5.py:92-99 | no RSI value is infinite, and every defined one lies in [0, 100] |
| Rsi.RsiSaturates | comparador_financierov5.py:98-99 | an average loss of 0 with a positive average gain gives an RSI of exactly 100 |
| Rsi.UpShareWithoutLoss | comparador_financierov5.py:98-99 | with no loss the upward share is 100 |
| Rsi.DefaultRsi | comparador_financierov5.py:92-99 | with the default period 14 the RSI is NaN on the first 13 dates, from then on NaN exactly when the window saw no movement, and otherwise in [0, 100] |
| Rsi.RsiOfFlatSeries | comparador_financierov5.py:92-99 | on a flat price series the RSI is NaN at every date |
| Macd.Decay | comparador_financierov5.py:102 | the weight decay `1 - 2/(span+1)` lies in [0, 1) |
| Macd.TotalWeight | comparador_financierov5.py:102 | with non-negative decay, the total weight of a non-empty prefix is at least 1 |
| Macd.Ema | comparador_financierov5.py:102-103 | `ewm(span).mean()` has the length of the series |
| Macd.Weighted | comparador_financierov5.py:102 | the numerator of the average of a constant series `c` is `c` times the total weight, so its EMA is `c` |
| Macd.PowerWeightedSnoc | comparador_financierov5.py:102 | appending an observation decays the explicit weighted sum by `b` and adds the observation |
| Macd.WeightedIsPowerWeighted | comparador_financierov5.py:102 | the step-by-step numerator equals the explicit sum with weights `(1-α)^k` |
| Macd.TotalWeightIsGeometric | comparador_financierov5.py:102 | the denominator is the geometric sum: `TotalWeight·(1-b) == 1 - b^n` |
| Macd.WeightedLower | comparador_financierov5.py:102 | the weighted sum of observations no smaller than `lo` is at least `lo` times the total weight |
| Macd.WeightedUpper | comparador_financierov5.py:102 | the weighted sum of observations no greater than `hi` is at most `hi` times the total weight |
| Macd.NormalisedLower | comparador_financierov5.py:102 | the normalised weighted average is at least any lower bound of the observations |
| Macd.NormalisedUpper | comparador_financierov5.py:102 | the normalised weighted average is at most any upper bound of the observations |
| Macd.EmaWithin | comparador_financierov5.py:102-103 | each EMA value lies within any bounds of the observations seen so far |
| Macd.EmaBetweenExtremes | comparador_financierov5.py:102-103 | each EMA value lies between the minimum and the maximum of its prefix |
| Macd.EmaOfConstant | comparador_financierov5.py:102-103 | a constant series has a constant EMA |
| Macd.EmaOfBounded | comparador_financierov5.py:102-103 | the EMA of a series within `[lo, hi]` stays within `[lo, hi]` |
| Macd.Macd | comparador_financierov5.py:101-106 | the MACD line and its signal line have the length of the prices |
| Macd.MacdOfConstant | comparador_financierov5.py:101-106 | on a constant series the MACD line and the signal line are 0 everywhere |
| Macd.DefaultMacd | comparador_financierov5.py:101-106 | with the default spans 12, 26 and 9 the decays are 11/13, 25/27 and 4/5, and a constant series has MACD and signal 0 everywhere |
| Macd.MacdBounded | comparador_financierov5.py:101-106 | with prices in `[lo, hi]`, the MACD line and its signal line lie in `[lo-hi, hi-lo]` |
| Bollinger.SquaredDeviations | comparador_financierov5.py:138 | the sum of squared deviations is non-negative |
| Bollinger.SampleVariance | comparador_financierov5.py:138 | the ddof=1 variance is NaN exactly for fewer than two observations and otherwise finite and non-negative |
| Bollinger.SquaredDeviationsOfConstant | comparador_financierov5.py:138 | a window equal to its centre has no deviation |
| Bollinger.RollingVariance | comparador_financierov5.py:138 | the rolling variance has the length of the prices, is NaN exactly before the first full window (or for a one-day window), and is otherwise non-negative |
| Bollinger.Bands | comparador_financierov5.py:139-140 | both bands have the length of the prices |
| Bollinger.BandsAbsentWithCenter | comparador_financierov5.py:139-140 | both bands are NaN wherever the moving average is |
| Bollinger.BandsAt | comparador_financierov5.py:138-140 | from the first full window on, the bands are the moving average plus and minus `k` standard deviations, none NaN |
| Bollinger.BandsSymmetric | comparador_financierov5.py:139-140 | `upper - sma == sma - lower`, and `lower <= sma <= upper` for a non-negative width |
| Bollinger.RollingVarianceOfConstant | comparador_financierov5.py:138 | on a constant series the defined rolling variance is 0 |
| Bollinger.SquareZero | comparador_financierov5.py:138 | the only square root of 0 is 0 |
| Bollinger.BandsOfConstant | comparador_financierov5.py:138-140 | on a constant series both bands equal the constant once the window is full |
| Bollinger.DefaultBandsApart | comparador_financierov5.py:138-140 | with the 20-day window and width 2, the bands are four standard deviations apart |
| Outcomes.Add | comparador_financierov5.py:139 | a sum is NaN exactly when an operand is NaN or the operands are opposite infinities |
| Outcomes.Sub | comparador_financierov5.py:65 | the difference of finite values is finite, and it is NaN exactly when an operand is NaN or both are infinities of the same sign |
| Outcomes.Times | comparador_financierov5.py:65 | a scaled value is NaN exactly when the value is NaN or an infinity scaled by 0 |
| Outcomes.ScaledZero | comparador_financierov5.py:65 | scaling by a non-zero constant gives 0 only from 0 |
| Outcomes.Quotient | comparador_financierov5.py:98 | a finite quotient is finite exactly for a non-zero divisor; 0/0 is NaN; otherwise over 0 it is an infinity of the numerator's sign |
| Outcomes.Div | comparador_financierov5.py:98 | division of finite values is the quotient, and NaN absorbs |
| Outcomes.MinSkipAbsent | comparador_financierov5.py:65 | `min()` is NaN exactly when every entry is NaN, and otherwise below every non-NaN entry |
| Outcomes.MinSkipAbsentBelow | comparador_financierov5.py:65 | the minimum is defined and below every non-NaN entry |
| Outcomes.MinSkipAbsentAttained | comparador_financierov5.py:65 | a defined minimum is one of the entries |
| Stats.Mean | comparador_financierov5.py:112-113 | the mean of a window times its length is its sum |
| Stats.SumBounds | comparador_financierov5.py:112 | the sum of values in `[lo, hi]` lies in `[n·lo, n·hi]` |
| Stats.SumAppend | comparador_financierov5.py:112 | the sum of a concatenation is the sum of the parts |
| Stats.MeanBounds | comparador_financierov5.py:112 | a mean lies within any bounds of its window |
| Stats.MeanBetweenExtremes | comparador_financierov5.py:112 | a mean lies between the least and the greatest entry |
| Stats.MeanConstant | comparador_financierov5.py:112 | the mean of a constant window is the constant |

## Left out

- `yf.download` and `yf.Ticker(t).info` (lines 25 and 43) fetch data over the network. The model starts from the downloaded close table: rows of dates with one optional price per ticker.
- The Streamlit widgets, session state, tabs, expanders, Plotly figures and the CSV download button are user interface and I/O. This covers the date pickers, the theme choice and the chart-colour cycling at line 34.
- The annualised return (line 62) and the volatility (line 63) need a fractional power and a square root, which are not exact over `real`. `Metrics.Sharpe` takes them as inputs.
- `returns.corr()` (line 89) needs square roots, so the Pearson correlation is not part of this model.
- The fundamentals table (lines 41-57) maps fields of an external data dictionary and holds no computation to verify.
- `td = data[t].dropna()` (line 111) is a no-op on the already aligned table. The indicators take one finite price series.
- Floating-point rounding, overflow and signed zero are not modelled. Arithmetic is exact over `real`, with NaN and the infinities as explicit outcomes.
- Bollinger.IsRollingStd: `rolling(20).std()` needs a square root. The standard deviation is an input constrained to be non-negative, with its square equal to the exact ddof=1 rolling variance and NaN where that variance is NaN.
- Tickers.Upper: upper-cases ASCII letters only. Python's `str.upper()` also maps other Unicode letters and can lengthen a string ("ß" becomes "SS").
- Macd.MacdBounded: the bound on the difference of two EMAs, `[lo-hi, hi-lo]`, is the one that follows from each EMA lying in `[lo, hi]`. It is not the tightest possible.
- Drawdown.MaxDrawdownZeroIff: the equivalence is proved for positive prices. With a zero or negative price the ratio to the running peak is NaN, infinite or reversed in sign.
- Returns.ReturnsRoundTrip: the round trip is stated with `Compound`, which multiplies the first price by one `(1 + r)` factor per period. `Returns.CompoundIsScaledGrowth` equates that with the first price times the product `Π(1 + r)`.
