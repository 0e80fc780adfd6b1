# Student performance dashboard: the aggregation core in Dafny

This project models the data logic behind the two pages of the student
performance dashboard: the Overview page (`pages/overview.py`) and the
Academic Insights page (`pages/academic.py`). No rendering is modelled. The
student table is a sequence of `StudentRecord` values, and the model computes
everything the pages hand to the chart library:

- the derived `final_grade`;
- the metrics dictionary of `calculate_metrics`;
- the school filter and the "School Ratio" card;
- the normalised category proportions, display labels and cyclic colour list of `plot_categorical_bar`;
- the donut values;
- the category order, colours, grouped means and chart shape of `plot_grade_by_factor`;
- the three term means of `plot_grade_trend`;
- what each page's callback assembles from these.

pandas floats are replaced by exact `real` arithmetic:

- A mean is an `Option<real>`. `None` stands for NaN, the mean over no rows.
- Python's `round` is `Stats.RoundHalfEven`: the nearest integer, with a tie going to the even one.
- `round(x, 1)` is `Stats.RoundTenth`.

Modules, one file each:

| module | file | content |
|---|---|---|
| `Wrappers` | `wrappers.dfy` | `Option`, `Result` and the two errors of the model |
| `Records` | `records.dfy` | the record, `final_grade`, column lookup, value domains, Python `str` of a cell |
| `Stats` | `stats.dfy` | sums and means of a per-row quantity, half-even rounding |
| `ValueOrder` | `value_order.dfy` | Python's `<` on cells, and `sorted(unique())` |
| `Metrics` | `metrics.dfy` | `calculate_metrics`, the school filter, the ratio card, the shared page header, the two dictionary literals |
| `Overview` | `overview.dfy` | `plot_categorical_bar` (with its palette loop as a method), `plot_donut`, `update_dashboard` |
| `Academic` | `academic.dfy` | `plot_grade_by_factor`, `plot_grade_trend`, the chart-shape rule, `update_academic_dashboard` |

Error paths follow the code:

- On an empty view, `round` of the NaN GP share raises `ValueError`. So `CalculateMetrics`, and both callbacks, return `Err(CannotRoundNan)` for an empty view.
- A single-school ratio over an empty dataset would divide by zero. `SchoolRatioCard` on its own returns `Err(ZeroDivision)` there. The callbacks never reach it: an empty dataset gives an empty view, which already fails with `CannotRoundNan` (`PageHeader`).
- The academic page's dropdown offers "All" and the schools that occur in the data. On a non-empty dataset, those choices never give an empty view (`ListedSchoolViewNonEmpty`).
- The overview page's dropdown always offers GP and MS. On a dataset without rows of the chosen school, the view is empty and `UpdateDashboard` returns `Err(CannotRoundNan)`.

The two copies of `calculate_metrics` compute the same values. The overview copy writes the `activities_pct` key twice. Both pages therefore share one `Metrics.CalculateMetrics`. The difference between the two dictionary literals is modelled separately: `Metrics.OverviewMetricsMatchAcademic` proves they build the same dictionary.

With "All" chosen, the "School Ratio" card shows the view's own GP/MS split. With a school chosen, it shows that school's share of the whole, unfiltered dataset, as the single card "GP: 65%". `GpRatioMatchesSplit` and `MsRatioMatchesSplit` prove that this card equals the matching half of the "All" split. `HeaderRatioShowsShare` proves that the header each page shows carries that card.

Paths in the table below are relative to the repository root.

## Model

| member | source | states |
|---|---|---|
| Records.FinalGrade | student_performance_dashboard/pages/academic.py:19 | a row's final grade is a third of the sum of its three term grades |
| Records.FinalGradesAt | student_performance_dashboard/pages/academic.py:19 | the `final_grade` column has one entry per row, and entry i is (G1+G2+G3)/3 of row i alone |
| Records.FinalGradesConcat | student_performance_dashboard/pages/academic.py:19 | the column is derived row by row: the column of two tables put together is their two columns put together |
| Records.FinalGradeInScale | student_performance_dashboard/pages/academic.py:19 | term grades on the 0..20 scale give a final grade on the same scale |
| Records.Cell | student_performance_dashboard/pages/academic.py:93 | a column lookup succeeds exactly for the names of the table's columns |
| Records.ColumnValues | student_performance_dashboard/pages/overview.py:92 | `df[column]` has one value per row, and value i is row i's cell |
| Records.IntToStringInjective | student_performance_dashboard/pages/academic.py:101 | `astype(str)` loses nothing: different integers print differently |
| Records.DigitToString | student_performance_dashboard/pages/academic.py:102 | `str` of a one-digit level is that digit alone |
| Stats.SumByPermutation | student_performance_dashboard/pages/academic.py:24-30 | a column sum does not depend on the row order |
| Stats.MeanBy | student_performance_dashboard/pages/academic.py:24-30 | `.mean()` is defined exactly over a non-empty column, and the mean times the number of rows is the column sum |
| Stats.MeanByPermutation | student_performance_dashboard/pages/academic.py:24-30 | a column mean does not depend on the row order |
| Stats.MeanByBounds | student_performance_dashboard/pages/academic.py:24-30 | a mean exists exactly for a non-empty view, and it lies between any lower and upper bound of the rows |
| Stats.SumByAverage3 | student_performance_dashboard/pages/academic.py:19 | the sum of a per-row average of three quantities is the average of their three sums |
| Stats.RoundHalfEven | student_performance_dashboard/pages/academic.py:25 | `round(x)` is within 1/2 of x, and at a tie it is even |
| Stats.RoundHalfEvenUnique | student_performance_dashboard/pages/academic.py:25 | only one integer is within 1/2 of x and even at a tie, so these two properties determine `round` |
| Stats.RoundPercentBounds | student_performance_dashboard/pages/academic.py:25 | a percentage in [0, 100] rounds into [0, 100] |
| Stats.RoundComplement | student_performance_dashboard/pages/academic.py:25-26 | `round(100 - x) == 100 - round(x)` |
| Stats.RoundTenth | student_performance_dashboard/pages/academic.py:24 | `round(x, 1)` is a whole number of tenths within 0.05 of x |
| ValueOrder.BelowIrreflexive | student_performance_dashboard/pages/academic.py:96 | no cell is below itself under Python's `<` |
| ValueOrder.BelowTransitive | student_performance_dashboard/pages/academic.py:96 | Python's `<` on cells is transitive |
| ValueOrder.BelowTotal | student_performance_dashboard/pages/academic.py:96 | of two different cells, one is below the other |
| ValueOrder.Insert | student_performance_dashboard/pages/overview.py:92 | inserting into a strictly increasing sequence keeps it strictly increasing and adds exactly that value |
| ValueOrder.SortedDistinct | student_performance_dashboard/pages/overview.py:92 | `sorted(values.unique())` is strictly increasing and holds exactly the values that occur |
| ValueOrder.SortedDistinctUnique | student_performance_dashboard/pages/overview.py:92 | two strictly increasing sequences with the same members are equal |
| ValueOrder.SortedDistinctCharacterised | student_performance_dashboard/pages/academic.py:96 | every strictly increasing list of exactly the column's values is `SortedDistinct` of it |
| Metrics.SharePctBounds | student_performance_dashboard/pages/academic.py:25-27 | the mean of a yes/no mask over a non-empty view, times 100, rounds into [0, 100] |
| Metrics.CalculateMetrics | student_performance_dashboard/pages/academic.py:21-31 | succeeds exactly on a non-empty view, raising the NaN-rounding error otherwise. On success: total is the row count, gp_pct + ms_pct == 100, and gp_pct, ms_pct and activities_pct each lie in [0, 100]. Each field is its own column's mean within its rounding: gp_pct and activities_pct within 1/2 of 100 × their share, avg_absences within 1/2 of the mean absences, and avg_grade, avg_health and avg_freetime within 0.05 of their means and whole tenths |
| Metrics.MetricsOrderInvariant | student_performance_dashboard/pages/academic.py:21-31 | reordering the rows changes no metric |
| Metrics.MetricsInScale | student_performance_dashboard/pages/academic.py:24-30 | on well-formed rows: avg_grade lies in [0, 20], avg_health and avg_freetime in [1, 5], and avg_absences is non-negative |
| Metrics.TenthStaysInScale | student_performance_dashboard/pages/academic.py:24 | rounding to a tenth cannot leave an integer range |
| Metrics.Select | student_performance_dashboard/pages/academic.py:283 | `df[df["school"] == X]` keeps every row of school X as often as it occurs and no other row, and is no longer than the table |
| Metrics.SelectConcat | student_performance_dashboard/pages/academic.py:283 | the filter keeps row order |
| Metrics.SelectCount | student_performance_dashboard/pages/academic.py:283-285 | the filtered length is the number of ones in the `school == X` mask |
| Metrics.SchoolView | student_performance_dashboard/pages/academic.py:283 | "All" gives the whole dataset. Any other school gives exactly that school's rows, a sub-multiset of the dataset |
| Metrics.ListedSchoolViewNonEmpty | student_performance_dashboard/pages/academic.py:194-195 | a school that occurs in the data, or "All" on a non-empty dataset, gives a non-empty view |
| Metrics.SchoolRatioCard | student_performance_dashboard/pages/academic.py:285 | "All" shows the view's gp/ms split. A named school shows that school and a percentage in [0, 100]; this needs a non-empty dataset |
| Metrics.PageHeader | student_performance_dashboard/pages/academic.py:283-285 | the header exists exactly when the view is non-empty. Its metrics are those of the view: total is the view's length, and gp + ms = 100. Its ratio is the card computed over the unfiltered dataset |
| Metrics.AllHeaderMetrics | student_performance_dashboard/pages/academic.py:283-284 | the "All" header's metrics are those of the whole dataset |
| Metrics.GpRatioMatchesSplit | student_performance_dashboard/pages/academic.py:285 | the GP card shows the whole dataset's gp_pct |
| Metrics.MsRatioMatchesSplit | student_performance_dashboard/pages/academic.py:285 | on GP/MS data the MS card shows the whole dataset's ms_pct, which is 100 - gp_pct |
| Metrics.HeaderRatioShowsShare | student_performance_dashboard/pages/academic.py:283-285 | for a school present in the data, the GP page's header shows the whole dataset's gp_pct, and on GP/MS data the MS page's header shows its ms_pct |
| Metrics.ComplementPercent | student_performance_dashboard/pages/academic.py:26 | the complementary share rounds to 100 minus the rounded share |
| Metrics.SchoolsSplit | student_performance_dashboard/pages/academic.py:25-26 | on GP/MS data every row counts for exactly one of the two schools |
| Metrics.OverviewMetricsMatchAcademic | student_performance_dashboard/pages/overview.py:22-33 | the second `activities_pct` entry repeats the value the key already has. The overview dictionary equals the academic one and has the same eight keys |
| Overview.Proportion | student_performance_dashboard/pages/overview.py:93-97 | a category's proportion times the number of values is its count, and on no values it is 0 |
| Overview.DisplayLabel | student_performance_dashboard/pages/overview.py:99-102 | with a non-empty mapping, a mapped value reads its label and an unmapped one keeps its raw value; with no mapping, or an empty one, the label is `str` of the value |
| Overview.ChartCategories | student_performance_dashboard/pages/overview.py:90-92 | the given categories are used as they are; without them, the axis is strictly increasing and holds exactly the values of the column in this view |
| Overview.CategoricalChart | student_performance_dashboard/pages/overview.py:90-106 | the chart has the title, one bar per category with its display label and proportion, and one colour per category, colour i being PALETTE_MAIN[i mod 5] |
| Overview.SpecLabels | student_performance_dashboard/pages/overview.py:99-100 | a mapping that names every listed category gives every bar its mapped label |
| Overview.FixedChartLabels | student_performance_dashboard/pages/overview.py:229-236 | every bar of the six fixed charts reads the label its table maps its category to |
| Overview.Count | student_performance_dashboard/pages/overview.py:93-95 | a value count is at most the number of values, and positive exactly when the value occurs |
| Overview.ProportionRange | student_performance_dashboard/pages/overview.py:93-97 | a proportion lies in [0, 1]. On a non-empty view it is 0 exactly when the category never occurs |
| Overview.Bars | student_performance_dashboard/pages/overview.py:93-102 | one bar per category, in category order. Each bar has its display label and its category's proportion |
| Overview.PlotCategoricalBar | student_performance_dashboard/pages/overview.py:90-106 | the palette loop ends with the chart's data: one colour per bar, and colour i is PALETTE_MAIN[i mod 5] |
| Overview.CyclesDouble | student_performance_dashboard/pages/overview.py:104-105 | doubling a whole number of palette copies gives a whole number of copies |
| Overview.CyclesPrefix | student_performance_dashboard/pages/overview.py:106 | cutting the doubled palette to the category count gives the cyclic colour list |
| Overview.SumCountsCovering | student_performance_dashboard/pages/overview.py:93-97 | distinct categories that cover every value count each value exactly once |
| Overview.TotalOfBars | student_performance_dashboard/pages/overview.py:93-97 | the proportions add up to the covered count over the number of values |
| Overview.ProportionsSumToOne | student_performance_dashboard/pages/overview.py:93-97 | distinct categories covering every observed value give proportions that add up to 1 |
| Overview.EmptyViewBarsAreZero | student_performance_dashboard/pages/overview.py:93-97 | an empty view gives a zero bar for every category |
| Overview.DefaultCategories | student_performance_dashboard/pages/overview.py:91-92 | without categories, the axis is the sorted distinct values of this view, every bar is positive, and a non-empty view's bars add up to 1 |
| Overview.PlotDonut | student_performance_dashboard/pages/overview.py:126-130 | labels Yes/No. The values are the given share and its complement, and they add up to 100 |
| Overview.DonutSlicesInRange | student_performance_dashboard/pages/overview.py:130 | a share in [0, 100] gives two slices in [0, 100] |
| Overview.FixedSpecsAreColumns | student_performance_dashboard/pages/overview.py:229-236 | every fixed table row names a column of the data |
| Overview.ChartsOf | student_performance_dashboard/pages/overview.py:232-233 | one chart per table row, in the table's order |
| Overview.PageFor | student_performance_dashboard/pages/overview.py:229-249 | the page holds the header, the charts of the demographic and support tables, the three donuts, and the view's `final_grade` values for the histogram |
| Overview.Donuts | student_performance_dashboard/pages/overview.py:239-243 | three donuts, each adding up to 100: internet and higher-education shares times 100, and the rounded activities_pct |
| Overview.UpdateDashboard | student_performance_dashboard/pages/overview.py:216-250 | succeeds exactly when the filtered view is non-empty. Its header is the shared page header of that view, and its charts are built from it |
| Overview.OverviewDonutsInRange | student_performance_dashboard/pages/overview.py:239-243 | on any data with a non-empty view the page exists, and every donut slice it shows lies in [0, 100] |
| Overview.DonutsInRange | student_performance_dashboard/pages/overview.py:239-243 | the header of any non-empty view gives donut slices in [0, 100] |
| Overview.ViewWellFormed | student_performance_dashboard/pages/overview.py:217 | a view of a well-formed dataset is well-formed |
| Overview.FixedSpecCovers | student_performance_dashboard/pages/overview.py:229-236 | a well-formed row's value in each fixed column is one of that row's listed categories |
| Overview.FixedSpecsCover | student_performance_dashboard/pages/overview.py:229-236 | the six fixed tables list distinct categories that cover every well-formed view |
| Overview.CoveringChartsSumToOne | student_performance_dashboard/pages/overview.py:232-238 | every chart of a covering table over a non-empty view adds up to 1 |
| Overview.OverviewChartsSumToOne | student_performance_dashboard/pages/overview.py:229-238 | on well-formed data with a non-empty view the page exists, and each of its six demographic and support charts adds up to 1 |
| Academic.AlcoholLevelsPrinted | student_performance_dashboard/pages/academic.py:90-102 | the alcohol order is `str` of the levels 1 to 5 |
| Academic.FixedOrdersHaveColours | student_performance_dashboard/pages/academic.py:90-106 | the alcohol and binary orders have exactly one colour per category |
| Academic.CategoryOrderPolicy | student_performance_dashboard/pages/academic.py:96-106 | the alcohol and binary orders are the same whatever the view holds, so categories absent from the view keep their place |
| Academic.CategoryOrder | student_performance_dashboard/pages/academic.py:96-106 | Dalc/Walc give the alcohol levels, otherwise the binary flags give ["yes","no"], otherwise the order is strictly increasing and holds exactly the factor's values in this view |
| Academic.ColoursFor | student_performance_dashboard/pages/academic.py:97-106 | the colours follow the same priority: the alcohol colours for Dalc/Walc, blue then orange for the binary flags, otherwise PALETTE_MAIN |
| Academic.GroupKey | student_performance_dashboard/pages/academic.py:99-101 | an alcohol row is grouped under `str` of its level; any other row under its raw value |
| Academic.Members | student_performance_dashboard/pages/academic.py:115 | a group holds each row of the view with that key as often as the view does, and no other row |
| Academic.MembersEmpty | student_performance_dashboard/pages/academic.py:115-117 | a group is empty exactly when no row of the view has its key |
| Academic.GroupMean | student_performance_dashboard/pages/academic.py:114-117 | a category's mean is missing exactly when no row of the view has it |
| Academic.ShapeOf | student_performance_dashboard/pages/academic.py:108-132 | anything other than "strip", "bar" and "violin" draws a box |
| Academic.RowPoints | student_performance_dashboard/pages/academic.py:108-132 | the distribution charts place each row, in row order, at its group and final grade |
| Academic.GroupMeans | student_performance_dashboard/pages/academic.py:114-119 | one bar per element of the order, in that order. A bar is missing (not 0) exactly when no row has that category; otherwise it is the mean final grade of the category's group |
| Academic.PlotGradeByFactor | student_performance_dashboard/pages/academic.py:88-132 | the figure is empty exactly when the factor is not a column or the view is empty. Otherwise it has the chosen shape, the policy's order and colours, and grouped means exactly in bar mode |
| Academic.AlcoholKey | student_performance_dashboard/pages/academic.py:99-102 | an alcohol row is grouped under "k" exactly when its value is the number k |
| Academic.AlcoholBars | student_performance_dashboard/pages/academic.py:99-119 | Dalc/Walc bar charts always have the five levels, and level k is missing exactly when no row has level k |
| Academic.DefaultOrderHasNoGaps | student_performance_dashboard/pages/academic.py:96-119 | with the default order every bar has a mean |
| Academic.GroupMeansInScale | student_performance_dashboard/pages/academic.py:114-119 | on well-formed data every group mean lies in [0, 20] |
| Academic.GradeTrend | student_performance_dashboard/pages/academic.py:146-148 | three entries labelled G1, G2, G3 in that order, each defined exactly for a non-empty view, and entry k is the mean of column Gk: its value times the row count is that column's sum |
| Academic.TrendOfOneRow | student_performance_dashboard/pages/academic.py:146-148 | each trend entry reads its own column: over one row the trend is that row's G1, G2 and G3, in that order |
| Academic.FinalGradeIsRowMean | student_performance_dashboard/pages/academic.py:19 | a row's final grade is the mean of its three term grades |
| Academic.TrendAveragesToFinalGrade | student_performance_dashboard/pages/academic.py:147 | the average of the three term means is the mean final grade |
| Academic.TrendInScale | student_performance_dashboard/pages/academic.py:147 | on well-formed data each term mean lies in [0, 20] |
| Academic.PersonalChart | student_performance_dashboard/pages/academic.py:296 | absences draw a strip, Walc and Dalc draw bars, anything else draws a box |
| Academic.UpdateAcademicDashboard | student_performance_dashboard/pages/academic.py:282-303 | succeeds exactly on a non-empty view. Support is drawn as a box, lifestyle as a violin, personal by the personal rule, plus the trend of the view |
| Academic.AcademicChartShapes | student_performance_dashboard/pages/academic.py:295-301 | for a non-empty view the page exists, and each figure exists exactly for a column factor. Support figures are boxes and lifestyle figures violins; the personal figure is a strip exactly for absences and bars exactly for Walc/Dalc |
| Academic.SameHeaderOnBothPages | student_performance_dashboard/pages/academic.py:283-285 | for a non-empty view the academic page exists and shows the same filter, metrics and ratio card as the overview page |
| Academic.ExampleSummary | student_performance_dashboard/pages/academic.py:19-24 | three students with grades (10,12,14), (8,9,10), (15,16,17) have final grades 12, 9, 16, total 3 and avg_grade 12.3 |

## Left out

- Loading the CSV file at import time: the dataset is a parameter of every callback.
- The chart library:
  - Box, violin, strip, bar and pie rendering, layouts, styling and axis titles are left out. This includes `factor.replace("_", " ").title()`.
  - The histogram's binning into 20 bins is left out; the model hands over the `final_grade` values only.
- The `card` components and their text formatting: the f-strings, `int(avg_absences)` and the `safe_val` placeholder.
- `app.py`, its navbar and page routing, and the dropdown widgets. The dropdown values reach the callbacks as plain strings.
- The interaction between the callbacks and the Dash framework.
- Floating-point bit-exactness. Means are exact rationals, and `round` is half-even on those rationals. A value whose binary float sits on the other side of a tie can round differently in CPython.
- Missing cells. The records are typed and complete, so `dropna()` is the identity, and "no non-missing values" is "empty view".
- Columns of the CSV file beyond the twenty the pages read, and the derived `final_grade` as a factor. `Records.Cell` knows only those twenty columns. `Academic.PlotGradeByFactor` therefore gives the empty figure for any other name; the code would plot a factor that names another column of the file.
- Python raising `TypeError` when it compares a number with a string. Each column holds one kind of value. `ValueOrder.Below` orders numbers before texts only to make the order total.
- The bar chart's `observed=True` flag. It only matters for categorical dtypes, which the table does not use.
