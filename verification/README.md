# MAPIE regression intervals in Dafny

This project models the core of MAPIE's `MapieRegressor` and its helper module.
`MapieRegressor` wraps a base regressor and returns a prediction interval for every test sample.
It uses the residuals of models that did not see a training row.

- `fit` checks the parameters and picks a splitter: k-fold for the "cv" methods, leave-one-out for the "jackknife" methods.
- `fit` then fits one model per fold. It records which fold validated each training row (`k_`) and stores the out-of-fold absolute residuals.
- `predict` turns the residuals and the fold models' predictions into `[center, lower, upper]` rows.
  - For "naive", "jackknife" and "cv", the band is the center plus or minus the "higher" (1 − alpha) quantile of the residuals.
  - For the "+" methods, it uses per-model predictions plus or minus each residual.
  - For the "minmax" methods, it uses the row minimum or maximum plus or minus each residual.
  - The lower bound uses numpy's "lower" quantile rule at alpha. The upper bound uses the "higher" rule at 1 − alpha.

The helper module supplies the rest:
- the NaN-ignoring mask aggregation `phi1D`/`phi2D`;
- the zero-weight filter `check_null_weight`;
- the parameter validators `check_alpha`, `check_alpha_and_n_samples`, `check_n_features_in`, `check_n_jobs` and `check_verbose`;
- the all-NaN-row test `check_nan_in_aposteriori_prediction`.

Numbers are `real`. NaN is `None` in an `Option<real>`. Raised errors are `Failure`/`Fail` values naming the error.

The base regressor and the splitter are foreign code and enter as inputs:
- the in-sample predictions of the full-data model;
- each fold model's predictions on its validation rows;
- the fold models' prediction matrix on new rows;
- the list of (train, validation) index sequences.

The splits must be what the chosen splitter yields. For leave-one-out, fold k validates row k alone. For k-fold, the validation sets partition the rows. In both cases no fold trains on its own validation rows.

Files:
- `results.dfy`: `Option`, `Result`, `Outcome`.
- `quantiles.dfy`: sorting, min/max, the median, and numpy's "lower"/"higher" quantile rules.
- `utils.dfy`: `mapie/utils.py`.
- `estimators.dfy`: `MapieRegressor` in `mapie/estimators.py`.

One might expect `lower <= center <= upper` for every method, but the code does not guarantee it, and the model follows the code:
- the interval contains its center for "naive", "jackknife" and "cv", and for the "minmax" methods with `return_pred="median"`;
- with the full-data center, a "+" method can place the center outside the band (`Estimators.PlusCenterMayLeaveBand`);
- for every method, `lower <= upper` holds whenever alpha is at most 1/2. Above 1/2 a "+" band can come out inverted (`Estimators.PlusBandMayInvert`).

## Model

| member | source | states |
|---|---|---|
| Quantiles.Sort | mapie/estimators.py:236 | the sorted copy numpy's quantile rules index into is ordered and is a permutation of the input |
| Quantiles.Min | mapie/estimators.py:249 | `np.min` of a non-empty row is one of its entries and is at or below every entry |
| Quantiles.Max | mapie/estimators.py:250 | `np.max` of a non-empty row is one of its entries and is at or above every entry |
| Quantiles.Median | mapie/estimators.py:241-242 | `np.median` of a fold-prediction row is the mean of its "lower" and "higher" 1/2 quantiles, that is, of its middle order statistics, and lies between the row's minimum and maximum |
| Quantiles.MiddleIndices | mapie/estimators.py:242 | at p = 1/2 both quantile rules pick the middle position of an odd-length row, and the two middle positions of an even-length row |
| Quantiles.LowerIndex | mapie/estimators.py:253 | the "lower" rule picks the sorted position k with k <= p(n-1) < k+1, a valid index |
| Quantiles.HigherIndex | mapie/estimators.py:254 | the "higher" rule picks the sorted position k with k-1 < p(n-1) <= k, a valid index |
| Quantiles.QuantileLower | mapie/estimators.py:253 | the "lower" quantile of a row is the order statistic of rank floor(p(n-1)): at most that many entries lie below it and more lie at or below it; it is an element of the row, between its minimum and maximum |
| Quantiles.QuantileHigher | mapie/estimators.py:236 | the "higher" quantile of a row is the order statistic of rank ceil(p(n-1)): at most that many entries lie below it and more lie at or below it; it is an element of the row, between its minimum and maximum |
| Quantiles.SortKeepsCounts | mapie/estimators.py:236 | sorting changes neither the number of entries below a value nor the number at or below it |
| Quantiles.SortedPositionRank | mapie/estimators.py:253-254 | in a sorted row, at most k entries lie below position k and more than k lie at or below it |
| Quantiles.SortedEntryRank | mapie/estimators.py:253-254 | position k of the sorted row holds the order statistic of rank k of the unsorted row |
| Quantiles.RankPinsValue | mapie/estimators.py:253-254 | two values with the same rank in a row are equal, so the rank clauses of the quantile rules determine their result |
| Quantiles.SortedEntryIsElement | mapie/estimators.py:253-254 | every position of the sorted row holds an element of the original row |
| Quantiles.ElementWithinRange | mapie/estimators.py:249-250 | every element lies between the row minimum and the row maximum |
| Quantiles.LowerRuleBelowHigherRule | mapie/estimators.py:253-254 | at the same level the "lower" quantile never exceeds the "higher" one |
| Quantiles.AtMostMonotone | mapie/estimators.py:253-254 | raising entries of a row never adds entries at or below a value |
| Quantiles.OrderStatMonotone | mapie/estimators.py:253-254 | raising entries of a row never lowers the order statistic of any rank |
| Quantiles.MirroredIndices | mapie/estimators.py:253-254 | for alpha at most 1/2, the "lower" rank at alpha is at most the "higher" rank at 1 - alpha |
| Quantiles.QuantileBandOrdered | mapie/estimators.py:253-254 | for alpha at most 1/2, the "lower" alpha quantile of a row is at most the "higher" (1 - alpha) quantile of any row above it entry by entry |
| Quantiles.MiddlePairWithin | mapie/estimators.py:242 | the mean of two entries of the sorted row lies within the row's range |
| Quantiles.QuantileOfNonNegative | mapie/estimators.py:236 | quantiles of non-negative residuals are non-negative |
| Utils.MaskRow | mapie/utils.py:48 | the product of x and a mask row is NaN exactly where the mask is NaN, and elsewhere the entry of x times its weight |
| Utils.Phi1D | mapie/utils.py:13-48 | one result per mask row, each the reducer applied to x times that mask row |
| Utils.Phi2D | mapie/utils.py:51-87 | an A without rows is an error; otherwise one result row per row of A, each the phi1D of that row |
| Utils.NanMean | mapie/utils.py:40-47 | NaN exactly when every entry is NaN; otherwise mean times non-NaN count equals the non-NaN sum |
| Utils.CountPresent | mapie/utils.py:40-47 | the non-NaN count is at most the length and is zero exactly when all entries are NaN |
| Utils.NanEntriesDropOut | mapie/utils.py:40-47 | inserting a NaN anywhere in a row leaves its NaN-ignoring mean unchanged |
| Utils.SumPresentAppend | mapie/utils.py:40-47 | the non-NaN sum of a concatenation is the sum of the parts' non-NaN sums |
| Utils.Phi1DExample | mapie/utils.py:38-47 | the documented phi1D example gives [2, 4] |
| Utils.HeadTailMeans | mapie/utils.py:38-47 | the two example masks average the first three and the last three entries of a row |
| Utils.Phi2DOfThree | mapie/utils.py:51-87 | phi2D of three rows succeeds with the three phi1D rows in order |
| Utils.Phi2DExample | mapie/utils.py:74-87 | the documented phi2D example gives [[2, 4], [7, 9], [12, 14]] |
| Utils.CheckNanInAposterioriPrediction | mapie/utils.py:362-367 | signals exactly when at least one row is entirely NaN |
| Utils.MaskedMeanUndefinedIffAllNan | mapie/utils.py:349-367 | the masked NaN-ignoring mean of a row is NaN exactly when the mask row is all NaN |
| Utils.NanGuardMatchesUndefinedAggregate | mapie/utils.py:349-367 | the all-NaN-row signal fires exactly when some phi1D mean aggregate would be NaN |
| Utils.NonZeroPositions | mapie/utils.py:137 | the positions the boolean mask selects are indices of the weight vector |
| Utils.NonZeroPositionsExact | mapie/utils.py:137-139 | the selected positions are exactly the nonzero-weight positions, in increasing order |
| Utils.KeepNonZero | mapie/utils.py:138-139 | boolean-mask indexing keeps a subsequence: no longer than the input, every kept entry taken from the input, and everything when no weight is zero |
| Utils.KeepNonZeroSelects | mapie/utils.py:138-139 | boolean-mask indexing keeps, in order, the entries at the nonzero-weight positions |
| Utils.KeptCount | mapie/utils.py:137-139 | the number of kept rows is the length minus the number of zero weights |
| Utils.CheckNullWeight | mapie/utils.py:135-140 | no weights returns X and y unchanged; a weight vector not as long as X fails, and so does a y not as long as the mask; otherwise exactly the nonzero-weight rows of weights, X and y are kept, in order, with equal lengths and no zero weight left |
| Utils.ExampleWeightPositions | mapie/utils.py:120-122 | in the documented example only the leading zero weight is dropped |
| Utils.CheckNullWeightExample | mapie/utils.py:118-134 | the documented example returns five unit weights, X rows 1..5 and y = [7, 9, 11, 13, 15] |
| Utils.CheckAlpha | mapie/utils.py:220-241 | None gives None; a float becomes a one-element array; a non-float non-iterable, a non-1-D input and a non-float element type are rejected with their own errors, and a float or a 1-D float array fails only with the out-of-range error, exactly when some value is outside (0, 1); success keeps order and every value is in (0, 1) |
| Utils.CheckAlphaArray | mapie/utils.py:230-241 | an array passes exactly when it is 1-D, has a float dtype and every value is in (0, 1); the checks run in that order, each with its own error, and success returns the values unchanged |
| Utils.CheckAlphaAndNSamples | mapie/utils.py:308-314 | fails exactly when some alpha has n < 1/alpha or n < 1/(1 - alpha) |
| Utils.SufficientSamplesIff | mapie/utils.py:308-314 | for alphas in (0, 1), passing is equivalent to n*alpha >= 1 and n*(1 - alpha) >= 1 for every alpha |
| Utils.TooFewIff | mapie/utils.py:309 | for one alpha in (0, 1), n < 1/alpha or n < 1/(1 - alpha) exactly when n*alpha < 1 or n*(1 - alpha) < 1 |
| Utils.BelowInverse | mapie/utils.py:309 | for a positive alpha, x < 1/alpha exactly when x*alpha < 1 |
| Utils.ReciprocalBound | mapie/utils.py:309 | the reciprocal comparison rewritten as a product comparison |
| Utils.FiveSamplesTooFewForTenPercent | mapie/utils.py:308-314 | five samples are too few for alpha = 0.1 |
| Utils.CheckNFeaturesIn | mapie/utils.py:279-286 | returns the column count of X; fails exactly when cv is "prefit", the estimator declares a feature count, and that count differs |
| Utils.CheckNJobs | mapie/utils.py:326-330 | accepts None and every nonzero integer; rejects 0 and non-integers with distinct errors |
| Utils.CheckVerbose | mapie/utils.py:342-346 | accepts exactly the non-negative integers; non-integers and negatives get distinct errors |
| Estimators.ParseMethod | mapie/estimators.py:105-113 | a method name is accepted exactly when it is one of the seven listed names, and parsing recovers it |
| Estimators.MethodNameRoundTrip | mapie/estimators.py:105-113 | every method's name is listed and parses back to the same method |
| Estimators.CheckParameters | mapie/estimators.py:142-149 | accepts exactly alpha in (0, 1), a listed method and a listed return_pred, reporting the first failed check in that order; a missing estimator becomes linear regression; the other arguments carry over |
| Estimators.SelectCv | mapie/estimators.py:163-171 | k-fold exactly for names starting with "cv", with the seed cleared when shuffle is off; leave-one-out for "jackknife" names; an error for any other name |
| Estimators.SplitterByMethod | mapie/estimators.py:163-170 | "naive" is the only method without a splitter; the jackknife methods get leave-one-out; the cv methods get k-fold with their n_splits |
| Estimators.SeedIrrelevantWithoutShuffle | mapie/estimators.py:164-165 | without shuffling the random seed does not affect the splitter |
| Estimators.LeaveOneOutPartitions | mapie/estimators.py:167-168 | leave-one-out validation sets partition the rows |
| Estimators.NotYetWritten | mapie/estimators.py:203-207 | with non-overlapping validation sets, no earlier position writes the row of the current one |
| Estimators.WriteStep | mapie/estimators.py:204-207 | each write of the fold loop hits an unwritten row, after which that row holds the fold number and the prediction |
| Estimators.WriteFold | mapie/estimators.py:204-207 | one fold's writes leave every row of that fold and of earlier folds holding its fold number and prediction, each written once |
| Estimators.FitFolds | mapie/estimators.py:200-207 | with partitioning validation sets, every entry of y_pred is written exactly once; k_ at a validation row is its fold; y_pred there is that fold's prediction; one model per fold, in fold order, trained on its training rows |
| Estimators.Residuals | mapie/estimators.py:208 | each residual is non-negative and the label equals the prediction plus or minus it |
| Estimators.ResidualIsDistance | mapie/estimators.py:208 | the label lies within its residual of the prediction, and any radius that reaches the label is at least the residual |
| Estimators.FoldOfEachRow | mapie/estimators.py:203-206 | after the fold loop, each row's recorded fold exists and its model did not train on that row |
| Estimators.LeaveOneOutFoldIds | mapie/estimators.py:167-168 | under leave-one-out, k_[j] = j for every row |
| Estimators.Fit | mapie/estimators.py:193-209 | invalid parameters fail with the parameter error; "naive" stores the in-sample residuals and no folds; other methods store one model per fold, k_ and the out-of-fold residuals, with each residual measured by a model that did not train on that row |
| Estimators.AlignedRow | mapie/estimators.py:243-244 | column j of the aligned row is the prediction of fold model k_[j]; for jackknife_plus k_[j] = j, so the row is the fold predictions as they are |
| Estimators.LowerBounds | mapie/estimators.py:245-250 | one bound per residual: for the "+" methods, the prediction of fold model k_[j] minus residual j; for minmax, the row minimum minus residual j |
| Estimators.UpperBounds | mapie/estimators.py:245-250 | one bound per residual: for the "+" methods, the prediction of fold model k_[j] plus residual j; for minmax, the row maximum plus residual j |
| Estimators.BoundRowsOrdered | mapie/estimators.py:245-250 | each lower bound is at most the upper bound of the same column |
| Estimators.BandOrderedUpToHalf | mapie/estimators.py:245-254 | for alpha at most 1/2, the chosen lower bound is at most the chosen upper bound |
| Estimators.MinmaxBoundsEnclose | mapie/estimators.py:248-250 | every minmax lower bound is at most the row minimum and every upper bound at least the row maximum |
| Estimators.ResidualBand | mapie/estimators.py:235-238 | the naive/jackknife/cv interval is symmetric around the full-data prediction, contains it, and has a residual as half-width, twice the "higher" (1 - alpha) residual quantile as width |
| Estimators.BoundsBand | mapie/estimators.py:240-254 | the "+"/minmax center is the fold-prediction median when asked; the lower bound is the "lower" alpha quantile of the lower-bound row and the upper bound the "higher" (1 - alpha) quantile of the upper-bound row, each an element of its row; for alpha at most 1/2, lower <= upper; for minmax the band contains the row range |
| Estimators.PredictRow | mapie/estimators.py:234-255 | naive/jackknife/cv: the center is the full-data prediction, the band is symmetric around it and contains it, and its half-width is one of the residuals; other methods: the center is the median of the fold predictions when asked, and the bounds are the "lower" alpha quantile of the lower-bound row and the "higher" (1 - alpha) quantile of the upper-bound row; minmax: the band contains the row range and, with a median center, the center; every method: lower <= upper when alpha is at most 1/2 |
| Estimators.Predict | mapie/estimators.py:231-255 | one interval per test sample; for naive/jackknife/cv all intervals have the same width |
| Estimators.PlusPairsResidualWithHeldOutModel | mapie/estimators.py:243-247 | for cv_plus and jackknife_plus, bound j pairs residual j with the prediction of fold k_[j], and that model did not train on row j |
| Estimators.JackknifePlusNeedsNoReindex | mapie/estimators.py:243-246 | under leave-one-out, re-indexing by k_ leaves a prediction row unchanged |
| Estimators.PlusCenterMayLeaveBand | mapie/estimators.py:241-255 | with the full-data center, a "+" method can return a center below the lower bound |
| Estimators.PlusBandMayInvert | mapie/estimators.py:245-254 | for a held-out jackknife_plus fit with alpha = 0.9, fold predictions 0, 1, 2, 3 and zero residuals, the upper bound 1 lies below the lower bound 2 |
| Estimators.RowQuantilesAtNineTenths | mapie/estimators.py:253-254 | on the row 0, 1, 2, 3, the "lower" 0.9 quantile is 2 and the "higher" 0.1 quantile is 1 |

## Left out

- Training and prediction of the base regressor (`clone(...).fit`, `.predict`, the default `LinearRegression`). This is foreign library code, so predictions are inputs and a fitted model is identified by the rows it trained on.
- The internals of `KFold` and `LeaveOneOut`, including shuffling and the random generator. The splits are an input whose shape is a precondition of `Estimators.Fit` (`Estimators.FoldsAgree`).
- `fit_estimator` (mapie/utils.py:143-192). It inspects a foreign `fit` signature at run time.
- The sklearn validators `check_X_y`, `check_array`, `check_is_fitted` and `_check_sample_weight`.
- Utils.CheckNullWeight: of `_check_sample_weight`, only the length-mismatch error is modelled. A scalar weight, which sklearn broadcasts, is not.
- Warning emission. `check_nan_in_aposteriori_prediction` is modelled as the condition under which it warns.
- IEEE floating point: rounding of `1 - alpha`, infinities, and NaN flowing through `fit` and `predict`. The engine works on reals.
- Utils.CheckAlphaAndNSamples: alpha equal to 0 or 1 makes `1 / alpha` infinite (or, for a plain Python float, a division error). The model reports it as the same too-few-samples error.
- Utils.CheckAlpha: numpy's dtype and shape inference is reduced to a tag (dimension count, dtype) on the input.
- The numeric example in the `MapieRegressor` documentation (mapie/estimators.py:93-102). It depends on least-squares fitting.
- Utils.Phi1D: `fun` is called once on the whole product matrix `x * B` (mapie/utils.py:48). The model covers only a `fun` that reduces each row of that matrix to one value on its own, like the documented `np.nanmean(x, axis=1)`. A `fun` that mixes rows or returns a scalar is not modelled.
- The `else: raise ValueError("Invalid method.")` branch of `predict` (mapie/estimators.py:251-252) is unreachable after `CheckParameters`. The method type makes it impossible in the model.
- Estimators.PredictRow: for the "+" methods, no ordering of the center against the bounds is claimed, because the code does not guarantee one (`Estimators.PlusCenterMayLeaveBand`). `lower <= upper` is claimed only for alpha at most 1/2, because above that it can fail (`Estimators.PlusBandMayInvert`).
- Estimators.Fit: requires at least one training row and one in-sample prediction per row. `check_X_y` and the foreign regressor guarantee these, and both are outside the model.
- Utils.Phi1D: requires every mask row to be as wide as `x`. numpy broadcasting of other shapes (a width-1 row, say) is not modelled.
- `KFold` rejects `n_splits` below 2 or above the number of rows. That check belongs to the splitter, and the model only asks that the splits have the length the splitter promises.
- Estimators.SelectCv: `_select_cv` also sets the estimator's `random_state` attribute to None when shuffling is off (mapie/estimators.py:164-165), and the change outlives the call. The model returns the splitter and does not mutate its parameters.
- Utils.CheckAlpha: a NaN alpha passes numpy's range test, because every comparison with NaN is false (mapie/utils.py:239). Reals have no NaN, so the model cannot represent that input.
- Utils.Phi2D: each result row is a sequence of optional reals. numpy's `apply_along_axis` also stacks results of other shapes, which the model leaves out.
