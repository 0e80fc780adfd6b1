/**
 * The overview page: the categorical proportion bars, their labels and
 * colours, the donuts, and what its callback assembles from them.
 */
module Overview {
  import opened Wrappers
  import opened Records
  import opened Stats
  import opened ValueOrder
  import opened Metrics

  const Blue1 := "#034BE4"
  const Blue2 := "#428BF9"
  const Cyan := "#B6CDFF"
  const Grey := "#707787"
  const SoftOrange := "#FFD9B3"

  /** This page's PALETTE_MAIN, led by blue and ending in soft orange. */
  const PaletteMain: seq<string> := [Blue1, Blue2, Cyan, Grey, SoftOrange]

  /** How often `c` occurs among the values. */
  function Count(vs: seq<Value>, c: Value): (k: nat)
    ensures k <= |vs|
    ensures k > 0 <==> c in vs
  {
    if vs == [] then 0
    else
      assert vs == [vs[0]] + vs[1..];
      (if vs[0] == c then 1 else 0) + Count(vs[1..], c)
  }

  /**
   * `value_counts(normalize=True).reindex(categories, fill_value=0)` at one
   * category: its count over the number of values, 0 when it never occurs,
   * and 0 throughout when there are no values at all.
   */
  function Proportion(vs: seq<Value>, c: Value): (p: real)
    ensures vs == [] ==> p == 0.0
    ensures vs != [] ==> p * |vs| as real == Count(vs, c) as real
  {
    if vs == [] then 0.0 else Count(vs, c) as real / |vs| as real
  }

  /** A category's share lies in [0, 1], and it is 0 exactly when the category is absent. */
  lemma ProportionRange(vs: seq<Value>, c: Value)
    ensures 0.0 <= Proportion(vs, c) <= 1.0
    ensures vs != [] ==> (Proportion(vs, c) == 0.0 <==> c !in vs)
  {
    if vs != [] {
      FractionBounds(Count(vs, c), |vs|);
      if Count(vs, c) > 0 {
        PositiveFraction(Count(vs, c), |vs|);
      }
    }
  }

  lemma PositiveFraction(part: nat, whole: nat)
    requires 0 < part && 0 < whole
    ensures part as real / whole as real > 0.0
  {
  }

  /** `display_labels.get(val, val)` when a non-empty mapping is given, else `str(val)`. */
  function DisplayLabel(c: Value, displayLabels: Option<map<Value, string>>): (l: Value)
    ensures displayLabels.Some? && c in displayLabels.value ==> l == Text(displayLabels.value[c])
    ensures displayLabels.Some? && displayLabels.value != map[] && c !in displayLabels.value ==> l == c
    ensures (displayLabels.None? || displayLabels.value == map[]) ==> l == Text(Show(c))
  {
    if displayLabels.Some? && |displayLabels.value| > 0 then
      if c in displayLabels.value then Text(displayLabels.value[c]) else c
    else Text(Show(c))
  }

  datatype CategoryBar = CategoryBar(axisLabel: Value, proportion: real)

  /** One bar per category, in the order of the categories. */
  function Bars(vs: seq<Value>, cats: seq<Value>, displayLabels: Option<map<Value, string>>): (bars: seq<CategoryBar>)
    ensures |bars| == |cats|
    ensures forall i :: 0 <= i < |cats| ==>
              bars[i] == CategoryBar(DisplayLabel(cats[i], displayLabels), Proportion(vs, cats[i]))
  {
    if cats == [] then []
    else [CategoryBar(DisplayLabel(cats[0], displayLabels), Proportion(vs, cats[0]))] + Bars(vs, cats[1..], displayLabels)
  }

  /** The categories the chart uses: the given list, or the sorted distinct values of the column in this view. */
  function ChartCategories(view: Dataset, column: string, categories: Option<seq<Value>>): (cats: seq<Value>)
    requires IsColumn(column)
    ensures categories.Some? ==> cats == categories.value
    ensures categories.None? ==> StrictlySorted(cats) && forall v :: v in cats <==> v in ColumnValues(view, column)
  {
    if categories.Some? then categories.value else SortedDistinct(ColumnValues(view, column))
  }

  /** This page's colour list for `n` bars: PALETTE_MAIN repeated as often as needed. */
  function CycledPalette(n: nat): seq<string>
  {
    seq(n, i => PaletteMain[i % 5])
  }

  datatype BarChart = BarChart(title: string, bars: seq<CategoryBar>, colours: seq<string>)

  /** The data `plot_categorical_bar` hands to `px.bar`. */
  function CategoricalChart(view: Dataset, column: string, title: string,
                            categories: Option<seq<Value>>, displayLabels: Option<map<Value, string>>): (c: BarChart)
    requires IsColumn(column)
    ensures var cats := ChartCategories(view, column, categories);
            && c.title == title && |c.bars| == |cats| && |c.colours| == |cats|
            && (forall i :: 0 <= i < |cats| ==>
                  c.bars[i] == CategoryBar(DisplayLabel(cats[i], displayLabels), Proportion(ColumnValues(view, column), cats[i])))
            && forall i :: 0 <= i < |cats| ==> c.colours[i] == PaletteMain[i % 5]
  {
    var cats := ChartCategories(view, column, categories);
    BarChart(title, Bars(ColumnValues(view, column), cats, displayLabels), CycledPalette(|cats|))
  }

  /**
   * `plot_categorical_bar`, with its palette loop: the palette is doubled in
   * place until it covers the categories, then cut to their number.
   */
  method PlotCategoricalBar(view: Dataset, column: string, title: string,
                            categories: Option<seq<Value>>, displayLabels: Option<map<Value, string>>)
    returns (chart: BarChart)
    requires IsColumn(column)
    ensures chart == CategoricalChart(view, column, title, categories, displayLabels)
    ensures |chart.colours| == |chart.bars|
    ensures forall i :: 0 <= i < |chart.colours| ==> chart.colours[i] == PaletteMain[i % 5]
  {
    var cats := ChartCategories(view, column, categories);
    var bars := Bars(ColumnValues(view, column), cats, displayLabels);
    var palette := PaletteMain;
    CyclesOnce();
    while |palette| < |cats|
      invariant Cycles(palette)
      decreases |cats| - |palette|
    {
      CyclesDouble(palette);
      palette := palette + palette;
    }
    CyclesPrefix(palette, |cats|);
    chart := BarChart(title, bars, palette[..|cats|]);
  }

  /** A non-empty whole number of copies of PALETTE_MAIN. */
  predicate Cycles(palette: seq<string>)
  {
    && |palette| % 5 == 0 && |palette| >= 5
    && forall i :: 0 <= i < |palette| ==> palette[i] == PaletteMain[i % 5]
  }

  lemma CyclesOnce()
    ensures Cycles(PaletteMain)
  {
  }

  lemma CyclesDouble(palette: seq<string>)
    requires Cycles(palette)
    ensures Cycles(palette + palette)
  {
    var m := |palette|;
    var d := palette + palette;
    forall i | 0 <= i < |d| ensures d[i] == PaletteMain[i % 5] {
      if i >= m {
        ShiftByMultiple(i, m);
        assert d[i] == palette[i - m];
      }
    }
  }

  lemma CyclesPrefix(palette: seq<string>, n: nat)
    requires Cycles(palette) && n <= |palette|
    ensures palette[..n] == CycledPalette(n)
  {
  }

  lemma ShiftByMultiple(i: int, m: int)
    requires m % 5 == 0 && m <= i
    ensures (i - m) % 5 == i % 5
  {
  }

  // ---- properties of the proportions ----

  predicate NoDuplicates(s: seq<Value>)
  {
    forall i, j :: 0 <= i < j < |s| ==> s[i] != s[j]
  }

  function SumCounts(vs: seq<Value>, cats: seq<Value>): nat
  {
    if cats == [] then 0 else Count(vs, cats[0]) + SumCounts(vs, cats[1..])
  }

  function TotalProportion(bars: seq<CategoryBar>): real
  {
    if bars == [] then 0.0 else bars[0].proportion + TotalProportion(bars[1..])
  }

  lemma {:induction false} SumCountsOfNothing(cats: seq<Value>)
    ensures SumCounts([], cats) == 0
  {
    if cats != [] {
      SumCountsOfNothing(cats[1..]);
    }
  }

  /** Adding one value `v` adds, over the categories, the number of times `v` is listed. */
  lemma {:induction false} SumCountsCons(v: Value, vs: seq<Value>, cats: seq<Value>)
    ensures SumCounts([v] + vs, cats) == SumCounts(vs, cats) + Count(cats, v)
  {
    if cats != [] {
      assert ([v] + vs)[1..] == vs;
      SumCountsCons(v, vs, cats[1..]);
    }
  }

  lemma {:induction false} CountOfDistinct(cats: seq<Value>, v: Value)
    requires NoDuplicates(cats) && v in cats
    ensures Count(cats, v) == 1
  {
    if cats[0] == v {
      assert v !in cats[1..] by {
        forall j | 0 <= j < |cats[1..]| ensures cats[1..][j] != v {
          assert cats[j + 1] != cats[0];
        }
      }
    } else {
      assert v in cats[1..] by {
        assert cats == [cats[0]] + cats[1..];
      }
      CountOfDistinct(cats[1..], v);
    }
  }

  /** Distinct categories that cover every value count every value exactly once. */
  lemma {:induction false} SumCountsCovering(vs: seq<Value>, cats: seq<Value>)
    requires NoDuplicates(cats)
    requires forall v :: v in vs ==> v in cats
    ensures SumCounts(vs, cats) == |vs|
  {
    if vs == [] {
      SumCountsOfNothing(cats);
    } else {
      assert vs == [vs[0]] + vs[1..];
      SumCountsCons(vs[0], vs[1..], cats);
      CountOfDistinct(cats, vs[0]);
      SumCountsCovering(vs[1..], cats);
    }
  }

  lemma {:induction false} TotalOfBars(vs: seq<Value>, cats: seq<Value>, displayLabels: Option<map<Value, string>>)
    requires vs != []
    ensures TotalProportion(Bars(vs, cats, displayLabels)) == SumCounts(vs, cats) as real / |vs| as real
  {
    if cats != [] {
      BarsTotalUnfold(vs, cats, displayLabels);
      TotalOfBars(vs, cats[1..], displayLabels);
      var n := |vs| as real;
      var a, b := Count(vs, cats[0]), SumCounts(vs, cats[1..]);
      assert SumCounts(vs, cats) == a + b;
      AddFractions(a as real, b as real, n);
      assert (a + b) as real == a as real + b as real;
    }
  }

  lemma BarsTotalUnfold(vs: seq<Value>, cats: seq<Value>, displayLabels: Option<map<Value, string>>)
    requires cats != []
    ensures TotalProportion(Bars(vs, cats, displayLabels)) ==
            Proportion(vs, cats[0]) + TotalProportion(Bars(vs, cats[1..], displayLabels))
  {
    var bars := Bars(vs, cats, displayLabels);
    assert bars[1..] == Bars(vs, cats[1..], displayLabels);
  }

  lemma AddFractions(a: real, b: real, n: real)
    requires n > 0.0
    ensures a / n + b / n == (a + b) / n
  {
    var x, y := a / n, b / n;
    assert x * n == a && y * n == b;
    assert (x + y) * n == a + b;
    var z := (a + b) / n;
    assert z * n == a + b;
    assert (x + y - z) * n == 0.0;
    ZeroProduct(x + y - z, n);
  }

  /**
   * When the categories are distinct and cover every observed value, the
   * bars add up to 1, as with `["F", "M"]` over a column of F and M.
   */
  lemma ProportionsSumToOne(vs: seq<Value>, cats: seq<Value>, displayLabels: Option<map<Value, string>>)
    requires vs != []
    requires NoDuplicates(cats)
    requires forall v :: v in vs ==> v in cats
    ensures TotalProportion(Bars(vs, cats, displayLabels)) == 1.0
  {
    TotalOfBars(vs, cats, displayLabels);
    SumCountsCovering(vs, cats);
    SelfRatio(|vs|);
  }

  lemma SelfRatio(n: nat)
    requires n > 0
    ensures n as real / n as real == 1.0
  {
  }

  /** An empty view gives a zero bar for every category: nothing is divided by zero. */
  lemma EmptyViewBarsAreZero(column: string, title: string,
                             categories: Option<seq<Value>>, displayLabels: Option<map<Value, string>>)
    requires IsColumn(column)
    ensures var chart := CategoricalChart([], column, title, categories, displayLabels);
            forall i :: 0 <= i < |chart.bars| ==> chart.bars[i].proportion == 0.0
  {
  }

  /**
   * Without categories the axis is the sorted distinct values of this view
   * (not of the whole dataset), every bar is non-zero, and a non-empty view's
   * bars add up to 1.
   */
  lemma DefaultCategories(view: Dataset, column: string, title: string, displayLabels: Option<map<Value, string>>)
    requires IsColumn(column)
    ensures var cats := ChartCategories(view, column, None);
            StrictlySorted(cats) && forall v :: v in cats <==> v in ColumnValues(view, column)
    ensures var chart := CategoricalChart(view, column, title, None, displayLabels);
            forall i :: 0 <= i < |chart.bars| ==> chart.bars[i].proportion > 0.0
    ensures view != [] ==> TotalProportion(CategoricalChart(view, column, title, None, displayLabels).bars) == 1.0
  {
    var vs := ColumnValues(view, column);
    var cats := SortedDistinct(vs);
    assert NoDuplicates(cats) by {
      forall i, j | 0 <= i < j < |cats| ensures cats[i] != cats[j] {
        StrictlySortedDistinct(cats, i, j);
      }
    }
    forall i | 0 <= i < |cats| ensures Proportion(vs, cats[i]) > 0.0 {
      assert cats[i] in vs;
      PositiveFraction(Count(vs, cats[i]), |vs|);
    }
    if view != [] {
      ProportionsSumToOne(vs, cats, displayLabels);
    }
  }

  // ---- donuts ----

  datatype Donut = Donut(title: string, labels: seq<string>, values: seq<real>)

  /** `plot_donut`: the "Yes" share and its complement, which make up 100. */
  function PlotDonut(title: string, yesPct: real): (d: Donut)
    ensures d.labels == ["Yes", "No"] && |d.values| == 2
    ensures d.values[0] == yesPct && d.values[0] + d.values[1] == 100.0
  {
    Donut(title, ["Yes", "No"], [yesPct, 100.0 - yesPct])
  }

  /** A percentage in [0, 100] gives two slices in [0, 100]. */
  lemma DonutSlicesInRange(title: string, yesPct: real)
    requires 0.0 <= yesPct <= 100.0
    ensures forall i :: 0 <= i < 2 ==> 0.0 <= PlotDonut(title, yesPct).values[i] <= 100.0
  {
  }

  function HasInternet(r: StudentRecord): real { Indicator(r.internet == "yes") }
  function WantsHigher(r: StudentRecord): real { Indicator(r.higher == "yes") }

  // ---- the callback ----

  /** One row of the fixed chart tables: column, title, categories, display labels. */
  datatype ChartSpec = ChartSpec(column: string, title: string, categories: seq<Value>, labels: map<Value, string>)

  const DemographicSpecs: seq<ChartSpec> := [
    ChartSpec("sex", "Gender", [Text("F"), Text("M")], map[Text("F") := "Female", Text("M") := "Male"]),
    ChartSpec("address", "Urban vs Rural", [Text("U"), Text("R")], map[Text("U") := "Urban", Text("R") := "Rural"]),
    ChartSpec("famsize", "Family Size", [Text("LE3"), Text("GT3")], map[Text("LE3") := "≤3", Text("GT3") := ">3"])]

  const SupportSpecs: seq<ChartSpec> := [
    ChartSpec("schoolsup", "School Support", [Text("no"), Text("yes")], map[Text("no") := "No", Text("yes") := "Yes"]),
    ChartSpec("famsup", "Family Support", [Text("no"), Text("yes")], map[Text("no") := "No", Text("yes") := "Yes"]),
    ChartSpec("paid", "Paid Classes", [Text("no"), Text("yes")], map[Text("no") := "No", Text("yes") := "Yes"])]

  /** The chart one row of a fixed table asks for. */
  function SpecChart(view: Dataset, spec: ChartSpec): BarChart
    requires IsColumn(spec.column)
  {
    CategoricalChart(view, spec.column, spec.title, Some(spec.categories), Some(spec.labels))
  }

  predicate AllColumns(specs: seq<ChartSpec>)
  {
    forall k :: 0 <= k < |specs| ==> IsColumn(specs[k].column)
  }

  lemma FixedSpecsAreColumns()
    ensures AllColumns(DemographicSpecs) && AllColumns(SupportSpecs)
  {
  }

  /** A fixed table's labels cover its categories, so each bar reads its mapped label. */
  predicate LabelsCover(view: Dataset, specs: seq<ChartSpec>)
    requires AllColumns(specs)
  {
    forall k, i :: 0 <= k < |specs| && 0 <= i < |specs[k].categories| ==>
      specs[k].categories[i] in specs[k].labels &&
      SpecChart(view, specs[k]).bars[i].axisLabel == Text(specs[k].labels[specs[k].categories[i]])
  }

  /**
   * Every bar of the six fixed charts carries its relabelled name, such as
   * "Female" for F and "≤3" for LE3, never the raw value.
   */
  lemma FixedChartLabels(view: Dataset)
    ensures AllColumns(DemographicSpecs) && AllColumns(SupportSpecs)
    ensures LabelsCover(view, DemographicSpecs) && LabelsCover(view, SupportSpecs)
  {
    FixedSpecsAreColumns();
    SpecLabels(view, DemographicSpecs[0]);
    SpecLabels(view, DemographicSpecs[1]);
    SpecLabels(view, DemographicSpecs[2]);
    SpecLabels(view, SupportSpecs[0]);
    SpecLabels(view, SupportSpecs[1]);
    SpecLabels(view, SupportSpecs[2]);
  }

  /** A mapping that names every listed category relabels every bar. */
  lemma SpecLabels(view: Dataset, spec: ChartSpec)
    requires IsColumn(spec.column)
    requires forall i :: 0 <= i < |spec.categories| ==> spec.categories[i] in spec.labels
    ensures forall i :: 0 <= i < |spec.categories| ==>
              SpecChart(view, spec).bars[i].axisLabel == Text(spec.labels[spec.categories[i]])
  {
  }

  /** The list comprehension over a fixed table: one chart per row, in the table's order. */
  function ChartsOf(view: Dataset, specs: seq<ChartSpec>): (cs: seq<BarChart>)
    requires AllColumns(specs)
    ensures |cs| == |specs|
    ensures forall k :: 0 <= k < |specs| ==> cs[k] == SpecChart(view, specs[k])
  {
    seq(|specs|, k requires 0 <= k < |specs| => SpecChart(view, specs[k]))
  }

  datatype OverviewPage = OverviewPage(
    header: Header,
    demographics: seq<BarChart>,
    support: seq<BarChart>,
    donuts: seq<Donut>,
    gradeHistogram: seq<real>)   // the `final_grade` values `px.histogram` bins

  /** The charts the callback builds once the header of a non-empty view is known. */
  function PageFor(h: Header): (p: OverviewPage)
    requires h.view != []
    ensures p.header == h
    ensures AllColumns(DemographicSpecs) && p.demographics == ChartsOf(h.view, DemographicSpecs)
    ensures AllColumns(SupportSpecs) && p.support == ChartsOf(h.view, SupportSpecs)
    ensures p.donuts == Donuts(h)
    ensures p.gradeHistogram == FinalGrades(h.view)
  {
    FixedSpecsAreColumns();
    OverviewPage(
      h,
      ChartsOf(h.view, DemographicSpecs),
      ChartsOf(h.view, SupportSpecs),
      Donuts(h),
      FinalGrades(h.view))
  }

  /** The three donuts: internet access, higher education, activities. */
  function Donuts(h: Header): (ds: seq<Donut>)
    requires h.view != []
    ensures |ds| == 3
    ensures forall k :: 0 <= k < 3 ==> |ds[k].values| == 2 && ds[k].values[0] + ds[k].values[1] == 100.0
    ensures ds[0].values[0] == MeanBy(h.view, HasInternet).value * 100.0
    ensures ds[1].values[0] == MeanBy(h.view, WantsHigher).value * 100.0
    ensures ds[2].values[0] == h.metrics.activitiesPct as real
  {
    [PlotDonut("Has Internet Access", MeanBy(h.view, HasInternet).value * 100.0),
     PlotDonut("Wants Higher Education", MeanBy(h.view, WantsHigher).value * 100.0),
     PlotDonut("Participates in Activities", h.metrics.activitiesPct as real)]
  }

  /** `update_dashboard(school)`: the header, then the charts of the selected view. */
  function UpdateDashboard(ds: Dataset, school: string): (p: Result<OverviewPage>)
    ensures p.Ok? <==> SchoolView(ds, school) != []
    ensures p.Err? ==> p.error == CannotRoundNan
    ensures p.Ok? ==> p.value.header.view == SchoolView(ds, school)
    ensures p.Ok? ==> PageHeader(ds, school) == Ok(p.value.header)
    ensures p.Ok? ==> p.value == PageFor(p.value.header)
  {
    match PageHeader(ds, school)
    case Err(e) => Err(e)
    case Ok(h) => Ok(PageFor(h))
  }

  /**
   * Every donut slice the page shows is a percentage, on any data: the
   * internet and higher-education shares and the rounded activities share lie
   * in [0, 100].
   */
  lemma OverviewDonutsInRange(ds: Dataset, school: string)
    requires SchoolView(ds, school) != []
    ensures UpdateDashboard(ds, school).Ok?
    ensures var p := UpdateDashboard(ds, school).value;
            forall k, i :: 0 <= k < 3 && 0 <= i < 2 ==> 0.0 <= p.donuts[k].values[i] <= 100.0
  {
    var h := UpdateDashboard(ds, school).value.header;
    DonutsInRange(h);
  }

  lemma DonutsInRange(h: Header)
    requires h.view != [] && CalculateMetrics(h.view) == Ok(h.metrics)
    ensures forall k, i :: 0 <= k < 3 && 0 <= i < 2 ==> 0.0 <= Donuts(h)[k].values[i] <= 100.0
  {
    MeanByBounds(h.view, HasInternet, 0.0, 1.0);
    MeanByBounds(h.view, WantsHigher, 0.0, 1.0);
  }

  /** Rows of a view are rows of the dataset, so a well-formed dataset has well-formed views. */
  lemma ViewWellFormed(ds: Dataset, school: string)
    requires WellFormedData(ds)
    ensures WellFormedData(SchoolView(ds, school))
  {
    var v := SchoolView(ds, school);
    forall i | 0 <= i < |v| ensures WellFormed(v[i]) {
      assert v[i] in multiset(v);
      assert v[i] in multiset(ds);
      var j :| 0 <= j < |ds| && ds[j] == v[i];
    }
  }

  /** Every table row lists distinct categories that hold each row's value of its column. */
  predicate Covers(view: Dataset, specs: seq<ChartSpec>)
  {
    && AllColumns(specs)
    && (forall k :: 0 <= k < |specs| ==> NoDuplicates(specs[k].categories))
    && forall k, i :: 0 <= k < |specs| && 0 <= i < |view| ==>
         Cell(view[i], specs[k].column).value in specs[k].categories
  }

  /** On a well-formed row every fixed table's categories hold that row's value. */
  lemma FixedSpecCovers(r: StudentRecord, k: int)
    requires WellFormed(r) && 0 <= k < 3
    ensures IsColumn(DemographicSpecs[k].column) && Cell(r, DemographicSpecs[k].column).value in DemographicSpecs[k].categories
    ensures IsColumn(SupportSpecs[k].column) && Cell(r, SupportSpecs[k].column).value in SupportSpecs[k].categories
  {
  }

  /** The six fixed tables cover every well-formed view. */
  lemma FixedSpecsCover(view: Dataset)
    requires WellFormedData(view)
    ensures Covers(view, DemographicSpecs) && Covers(view, SupportSpecs)
  {
    FixedSpecsAreColumns();
    forall k, i | 0 <= k < 3 && 0 <= i < |view|
      ensures Cell(view[i], DemographicSpecs[k].column).value in DemographicSpecs[k].categories
      ensures Cell(view[i], SupportSpecs[k].column).value in SupportSpecs[k].categories
    {
      FixedSpecCovers(view[i], k);
    }
  }

  /** A covering table's charts over a non-empty view each add up to 1. */
  lemma CoveringChartsSumToOne(view: Dataset, specs: seq<ChartSpec>)
    requires view != [] && Covers(view, specs)
    ensures forall k :: 0 <= k < |specs| ==> TotalProportion(SpecChart(view, specs[k]).bars) == 1.0
  {
    forall k | 0 <= k < |specs| ensures TotalProportion(SpecChart(view, specs[k]).bars) == 1.0 {
      var spec := specs[k];
      var vs := ColumnValues(view, spec.column);
      forall v | v in vs ensures v in spec.categories {
        var i :| 0 <= i < |vs| && vs[i] == v;
      }
      ProportionsSumToOne(vs, spec.categories, Some(spec.labels));
    }
  }

  /**
   * On well-formed data each of the six fixed tables' categories covers its
   * column, so every demographic and support chart the page shows adds up to 1.
   */
  lemma OverviewChartsSumToOne(ds: Dataset, school: string)
    requires WellFormedData(ds) && SchoolView(ds, school) != []
    ensures UpdateDashboard(ds, school).Ok?
    ensures var p := UpdateDashboard(ds, school).value;
            forall k :: 0 <= k < 3 ==>
              TotalProportion(p.demographics[k].bars) == 1.0 && TotalProportion(p.support[k].bars) == 1.0
  {
    var p := UpdateDashboard(ds, school).value;
    var view := p.header.view;
    ViewWellFormed(ds, school);
    FixedSpecsCover(view);
    CoveringChartsSumToOne(view, DemographicSpecs);
    CoveringChartsSumToOne(view, SupportSpecs);
  }
}
