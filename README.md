# Employee churn dashboard: a verified model of its data logic

The dashboard loads an HR dataset of employees (one row per employee, with a
0/1 `left` flag). It narrows that data through sidebar filters and summarises
the filtered view in three headline metrics. It tabulates promotion against
attrition and the satisfaction trend by tenure, and lists high-risk employees.
It also feeds a single employee, entered in a form, to a trained classifier,
after reconciling the form's fields with the columns the classifier was
trained on. This project models that logic in Dafny and proves what each step
promises.

Modules:

- `Employees` (`employees.dfy`): one dataset row.
- `Sequences` (`sequences.dfy`): generic pieces of the pandas operations the
  code relies on:
  - boolean-mask selection (`Where`) as an order-preserving sub-sequence with
    exact multiplicities;
  - sums and means of real columns, with bounds;
  - Python's code-point order on strings, which is the order `groupby` sorts
    its keys in.
- `Dashboard` (`dashboard.dfy`): the filter chain, the key metrics, the
  promotion crosstab and the high-risk list, all from `app.py`.
- `Predict` (`predict.dfy`): the prediction form's path in `apps/predict.py`
  (the same code is inlined in `app.py:154-195`):
  - the one-row input frame;
  - the ordinal salary code;
  - one-hot expansion;
  - backfill of the classifier's missing columns, and the reindex to its
    column order;
  - the risk band of the predicted probability.

  One-hot expansion (`GetDummies`) lays out the numeric columns first, then the
  indicators, as pandas does.

  One-row frames are sequences of (column name, value) pairs in column order.
  `SetColumn` models `df[c] = v`: it overwrites in place, or appends a new
  last column. `Lookup` models `df[c]`.
- `Eda` (`eda.dfy`): `show_eda` in `src/apps/eda.py`:
  - the tenure trend of the filtered view;
  - the promotion crosstab and the high-risk list, which are built from the
    unfiltered data whatever the sidebar says.

The filter chain is imperative in the source: `filtered_df` is rebound by up
to three further masks. It is therefore a method, `ApplyFilters`, proved
against the conjunction `Passes`. The missing-column backfill is also
imperative: a loop over a set that writes columns into the frame in place.
It is the method `FillMissing`, with loop invariants. Its set is iterated in
an arbitrary order (`:|`), and `Realign` shows that the following reindex
makes that order irrelevant. `Reconcile` chains the whole form path and is
proved against the reference definition `FeatureValue`.

Where pandas gives NaN (the mean of an empty view) or raises (`idxmax` of an
empty view, a `KeyError` on a missing column), the model returns `None`.

An unrecognised salary level is not rejected. The code turns any value
outside `['low', 'medium', 'high']` into pandas' missing-category code -1,
and passes that on to the classifier (`Predict.SalaryCode`,
`Predict.CategoryCode`).

## Model

| member | source | states |
|---|---|---|
| Dashboard.ApplyFilters | app.py:23-38 | The view is an order-preserving subsequence of `df` that holds each row passing every test as often as `df` does, and nothing else. The tests are: both inclusive ranges; hours > 250 when "Overworked" is ticked; department and salary membership when the selection is non-empty. A reversed range gives the empty view. |
| Dashboard.AttritionRate | app.py:44 | None exactly when the view is empty. Otherwise it is the number of leavers divided by the number of rows, a value in [0, 1]. |
| Dashboard.SumOfLeftIsLeavers | app.py:44 | Summing the 0/1 `left` column counts the leavers. |
| Dashboard.MeanSatisfaction | app.py:45 | None exactly when the view is empty. Otherwise it is the sum of the satisfactions divided by the number of rows, and it lies between the view's least and greatest satisfaction, so in [0, 1] when all satisfactions are. |
| Dashboard.DeptRate | app.py:46 | A department's mean of `left` is a proportion in [0, 1]. |
| Dashboard.OutranksTransitive | app.py:46 | The `idxmax` preference (higher rate, then the name that sorts first) is transitive. |
| Dashboard.OutranksTotal | app.py:46 | Of two different departments, one is always preferred. |
| Dashboard.BestOf | app.py:46 | The chosen candidate is one of the candidates, and it is preferred to every other candidate. |
| Dashboard.TopRiskDepartment | app.py:46 | None exactly when the view is empty. Otherwise it is a department present in the view, preferred to every other one: the highest rate, with ties going to the name that sorts first. |
| Dashboard.TopRiskUnique | app.py:46 | At most one department meets that description. |
| Dashboard.PromotionCount | app.py:83 | A promotion value's row count splits into its stayed and left counts, and is positive exactly for the values that occur. |
| Dashboard.Proportion | app.py:83 | A crosstab cell is its pair count divided by its promotion value's row count, a value in [0, 1]. |
| Dashboard.ProportionsAddUp | app.py:83 | With `normalize='index'`, the two cells of a row sum to 1, and a `left` value that never occurs has share 0. |
| Dashboard.CrosstabRow | app.py:83 | A row has one column per `left` value that occurs. Each cell is that value's share of the promotion group, and the row sums to 1. |
| Dashboard.PromotionCrosstab | app.py:83 | There is one row per promotion value that occurs and one column per `left` value that occurs. Each cell is its share of its row, and each row sums to 1. |
| Dashboard.HighRisk | app.py:135 | The risk list is an order-preserving subsequence of the full data. A row is in it exactly when satisfaction < 0.4 and hours > 250, both strict, with the row's multiplicity in the data. |
| Dashboard.RiskTable | app.py:136 | The shown list has one entry per risk row, in order: entry i is risk row i cut down to the seven shown columns. Every entry shown is high-risk, and every high-risk row of the data appears. |
| Dashboard.ShownExactly | app.py:135-136 | The shown entries of exactly the high-risk rows are high-risk, and they cover every high-risk row. |
| Predict.Lookup | apps/predict.py:34 | `frame[c]` is defined exactly when `c` is a column (a KeyError otherwise), and then gives a value stored under `c`. |
| Predict.LookupAt | apps/predict.py:34 | With distinct column names, `frame[c]` gives the value of the column named `c`. |
| Predict.SetColumn | apps/predict.py:46 | `frame[c] = v` keeps the columns and their order when `c` exists, and otherwise appends `c` as the last column with value `v`. Distinct names stay distinct. |
| Predict.SetColumnLookup | apps/predict.py:46 | After `frame[c] = v`, column `c` reads `v` and every other column reads as before. |
| Predict.InputRecord | apps/predict.py:20-31 | The input frame has the nine fields as columns, in the dict's order. |
| Predict.InputRecordCells | apps/predict.py:26-29 | `Work_accident` and `promotion_last_5years` are 0. `department` and `salary` hold the form's text values. |
| Predict.SalaryCode | apps/predict.py:34-38 | The code is 0, 1 or 2 exactly for "low", "medium" and "high", and -1 exactly for anything else. |
| Predict.CategoryCode | apps/predict.py:34-38 | A text cell gets its salary code; a numeric cell matches no category and gets -1. |
| Predict.GetDummies | apps/predict.py:40 | Expansion keeps the number of columns, one output column per input column. |
| Predict.GetDummiesColumns | apps/predict.py:40 | Every expanded column comes from a record column: a number stays under its own name; a text `v` in column `c` becomes `c_v` set to 1. Every record column is present in expanded form. |
| Predict.EncodedForm | apps/predict.py:20-40 | Writing the salary code and then expanding gives the listed vector. That vector holds the five entered numbers, the two zero flags, the salary code and `department_<d>` set to 1. |
| Predict.FillMissing | apps/predict.py:43-46 | The original columns keep their place and value. Every added column is expected, was absent, and holds 0. Afterwards every expected column is present. Distinct names stay distinct. Nothing is added when nothing was missing. |
| Predict.Reindex | apps/predict.py:48 | Defined exactly when every expected column is present (a KeyError otherwise). The result's columns are the expected ones in order, each with the frame's value. |
| Predict.Realign | apps/predict.py:43-48 | Backfill followed by reindex equals the reference layout `Aligned`: the expected columns in order, each with the frame's value, or 0 where the frame has none. |
| Predict.AlignedIdentity | apps/predict.py:43-48 | Reconciling a vector already laid out as the expected columns leaves it unchanged. |
| Predict.AlignedIdempotent | apps/predict.py:43-48 | Reconciling twice to the same distinct columns is the same as reconciling once. |
| Predict.FormVectorLookup | apps/predict.py:20-48 | Each column of the expanded form reads as `FeatureValue` says, and an absent column reads 0. |
| Predict.Reconcile | apps/predict.py:20-48 | The classifier's input has exactly the expected columns in their order. Each holds one of: the entered number, the salary code, 1 for the chosen department's indicator, or 0 for everything else. |
| Predict.RiskBand | apps/predict.py:56-61 | High exactly when p >= 0.7, Medium exactly when 0.3 <= p < 0.7, and Low exactly when p < 0.3. |
| Predict.RiskBandBoundaries | apps/predict.py:56-61 | 0.69 is Medium, 0.70 is High, 0.29 is Low and 0.30 is Medium. |
| Eda.InsertSorted | src/apps/eda.py:34 | Inserting into ascending distinct keys keeps them ascending and adds exactly the new key. |
| Eda.Tenures | src/apps/eda.py:34 | The group keys are strictly ascending, and they are exactly the tenures that occur. |
| Eda.TenureGroup | src/apps/eda.py:34 | A group is an order-preserving subsequence of the view that holds each row with its tenure as often as the view does, and nothing else. It is non-empty for a tenure that occurs. |
| Eda.TenureTrend | src/apps/eda.py:34 | There is one entry per tenure that occurs, keys strictly ascending. Each value is its group's mean satisfaction, between the group's least and greatest satisfaction. |
| Eda.TrendInUnitInterval | src/apps/eda.py:34 | When all satisfactions are in [0, 1], so is every point of the trend. |
| Eda.ShowEda | src/apps/eda.py:8-95 | The trend follows the filtered view. The promotion crosstab has one row per promotion value of the full data and one column per `left` value; each cell is its pair count over its row count, in [0, 1], and each row sums to 1. The risk list is the full data's high-risk rows, in order, each cut down to the seven shown columns. |
| Eda.FilterDoesNotReachRiskTable | src/apps/eda.py:43-94 | The crosstab and the risk list are the same whatever filtered view is passed in. |

## Left out

- Widgets, layout, the charts (the department histogram, the tenure boxplot and histogram, the bar and line plots) and the correlation heatmap: presentation only.
- `model.predict_proba` and `model.predict`: the trained classifier is outside this code. Its probability is the input `p` of `RiskBand`, and `feature_names_in_` is the parameter `expected` of `Reconcile`.
- Loading the dataset and the model (`utils.py`, both copies), and the CSV download of the risk list: file I/O.
- The form widgets' ranges (projects 1-10, hours 80-320, tenure 1-10, sliders over [0, 1]): `Form` accepts any values, which is a superset.
- Floating point: `real` is exact, so rounding in means and in the percentage formatting is not modelled.
- Predict.GetDummies: the boolean dtype of the indicator columns is modelled as the number 1.
- Dashboard.DeptRate: defined for any name, as 0 for a department that is absent; only present departments take part in `IsTopRisk`.
