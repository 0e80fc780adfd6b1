/**
 * The academic page: the category order, colours and series of
 * `plot_grade_by_factor`, the three term means of `plot_grade_trend`, and
 * what its callback assembles from them.
 */
module Academic {
  import opened Wrappers
  import opened Records
  import opened Stats
  import opened ValueOrder
  import opened Metrics

  const Orange := "#FF9705"
  const Blue1 := "#034BE4"
  const Blue2 := "#428BF9"
  const Cyan := "#B6CDFF"
  const Grey := "#707787"

  /** This page's PALETTE_MAIN, led by orange. */
  const PaletteMain: seq<string> := [Orange, Blue1, Blue2, Cyan, Grey]
  const AlcoholColours: seq<string> := [Cyan, Blue2, Blue1, Grey, Orange]
  const BinaryColours: seq<string> := [Blue1, Orange]

  const BinaryFactors: set<string> := {"schoolsup", "famsup", "paid", "internet", "activities"}
  const AlcoholFactors: set<string> := {"Dalc", "Walc"}

  /** `[str(lvl) for lvl in ALCOHOL_LEVELS]`. */
  const AlcoholLevels: seq<Value> := [Text("1"), Text("2"), Text("3"), Text("4"), Text("5")]

  /** The alcohol order is the printed form of the levels 1 to 5. */
  lemma AlcoholLevelsPrinted()
    ensures |AlcoholLevels| == 5
    ensures forall i :: 0 <= i < 5 ==> AlcoholLevels[i] == Text(Show(Num(i + 1)))
  {
    forall i | 0 <= i < 5 ensures AlcoholLevels[i] == Text(Show(Num(i + 1))) {
      DigitToString(i + 1);
    }
  }

  // ---- category order, colours and grouping key ----

  /**
   * `order` in `plot_grade_by_factor`: the alcohol levels for Dalc and Walc,
   * yes before no for the binary flags, otherwise the sorted distinct values
   * of the factor in this view.
   */
  function CategoryOrder(view: Dataset, factor: string): (o: seq<Value>)
    requires IsColumn(factor)
    ensures factor in AlcoholFactors ==> o == AlcoholLevels
    ensures factor !in AlcoholFactors && factor in BinaryFactors ==> o == [Text("yes"), Text("no")]
    ensures factor !in AlcoholFactors && factor !in BinaryFactors ==>
              StrictlySorted(o) && forall v :: v in o <==> v in ColumnValues(view, factor)
  {
    if factor in AlcoholFactors then AlcoholLevels
    else if factor in BinaryFactors then [Text("yes"), Text("no")]
    else SortedDistinct(ColumnValues(view, factor))
  }

  /** `color_seq`, chosen by the same rule as the order. */
  function ColoursFor(factor: string): (cs: seq<string>)
    ensures factor in AlcoholFactors ==> cs == AlcoholColours
    ensures factor !in AlcoholFactors && factor in BinaryFactors ==> cs == BinaryColours
    ensures factor !in AlcoholFactors && factor !in BinaryFactors ==> cs == PaletteMain
  {
    if factor in AlcoholFactors then AlcoholColours
    else if factor in BinaryFactors then BinaryColours
    else PaletteMain
  }

  /** The order always has one colour per category when it is a fixed list. */
  lemma FixedOrdersHaveColours(view: Dataset, factor: string)
    requires IsColumn(factor) && (factor in AlcoholFactors || factor in BinaryFactors)
    ensures |ColoursFor(factor)| == |CategoryOrder(view, factor)|
  {
  }

  /** The fixed orders do not depend on the view: categories absent from it keep their place. */
  lemma CategoryOrderPolicy(view: Dataset, other: Dataset, factor: string)
    requires IsColumn(factor)
    ensures (factor in AlcoholFactors || factor in BinaryFactors) ==>
              CategoryOrder(view, factor) == CategoryOrder(other, factor)
  {
  }

  /** The value a row is grouped under: alcohol levels are retyped to text first. */
  function GroupKey(r: StudentRecord, factor: string): (k: Value)
    requires IsColumn(factor)
    ensures factor in AlcoholFactors ==> k == Text(Show(Cell(r, factor).value))
    ensures factor !in AlcoholFactors ==> k == Cell(r, factor).value
  {
    if factor in AlcoholFactors then Text(Show(Cell(r, factor).value)) else Cell(r, factor).value
  }

  /** The rows of one group, in view order. */
  function Members(view: Dataset, factor: string, key: Value): (m: Dataset)
    requires IsColumn(factor)
    ensures forall r :: multiset(m)[r] == if GroupKey(r, factor) == key then multiset(view)[r] else 0
    ensures forall r :: r in m <==> r in view && GroupKey(r, factor) == key
    ensures |m| <= |view|
  {
    if view == [] then []
    else
      assert forall r :: r in view <==> r == view[0] || r in view[1..] by {
        assert view == [view[0]] + view[1..];
      }
      (if GroupKey(view[0], factor) == key then [view[0]] else []) + Members(view[1..], factor, key)
  }

  // ---- the figure ----

  /** The chart shapes `plot_grade_by_factor` can draw. */
  datatype ChartShape = Box | Violin | Strip | Bar

  /** `chart_type` dispatch: "strip", "bar", "violin", and a box for anything else. */
  function ShapeOf(chartType: string): (s: ChartShape)
    ensures s == Box <==> chartType !in {"strip", "bar", "violin"}
  {
    if chartType == "strip" then Strip
    else if chartType == "bar" then Bar
    else if chartType == "violin" then Violin
    else Box
  }

  /** One bar of the grouped means; `None` is the missing value a reindex leaves for an absent group. */
  datatype GroupBar = GroupBar(category: Value, meanGrade: Option<real>)

  /** What the figure plots: each row's point, or one mean per category. */
  datatype Series = Points(points: seq<(Value, real)>) | Means(bars: seq<GroupBar>)

  datatype FactorFigure =
    | EmptyFigure
    | FactorFigure(shape: ChartShape, order: seq<Value>, colours: seq<string>, series: Series)

  /** Each row as the strip, box and violin charts place it: its group and its final grade. */
  function RowPoints(view: Dataset, factor: string): (ps: seq<(Value, real)>)
    requires IsColumn(factor)
    ensures |ps| == |view|
    ensures forall i :: 0 <= i < |view| ==> ps[i] == (GroupKey(view[i], factor), FinalGrade(view[i]))
  {
    if view == [] then [] else [(GroupKey(view[0], factor), FinalGrade(view[0]))] + RowPoints(view[1..], factor)
  }

  /** `groupby(factor).mean().reindex(order)` at one category. */
  function GroupMean(view: Dataset, factor: string, key: Value): (g: Option<real>)
    requires IsColumn(factor)
    ensures g.None? <==> forall r :: r in view ==> GroupKey(r, factor) != key
  {
    MembersEmpty(view, factor, key);
    MeanBy(Members(view, factor, key), FinalGrade)
  }

  /** A group is empty exactly when no row of the view has its key. */
  lemma MembersEmpty(view: Dataset, factor: string, key: Value)
    requires IsColumn(factor)
    ensures Members(view, factor, key) == [] <==> forall r :: r in view ==> GroupKey(r, factor) != key
  {
    var m := Members(view, factor, key);
    if m != [] {
      assert m[0] in m;
    }
  }

  /** The grouped means reindexed onto the order: one bar per category, in that order. */
  function GroupMeans(view: Dataset, factor: string, order: seq<Value>): (bars: seq<GroupBar>)
    requires IsColumn(factor)
    ensures |bars| == |order|
    ensures forall i :: 0 <= i < |order| ==>
              bars[i].category == order[i] &&
              (bars[i].meanGrade.None? <==> forall r :: r in view ==> GroupKey(r, factor) != order[i]) &&
              (bars[i].meanGrade.Some? ==> bars[i].meanGrade == MeanBy(Members(view, factor, order[i]), FinalGrade))
  {
    if order == [] then []
    else
      [GroupBar(order[0], GroupMean(view, factor, order[0]))] + GroupMeans(view, factor, order[1..])
  }

  /** `plot_grade_by_factor(data, factor, chart_type)`. */
  function PlotGradeByFactor(view: Dataset, factor: string, chartType: string): (f: FactorFigure)
    ensures f.EmptyFigure? <==> !IsColumn(factor) || view == []
    ensures f.FactorFigure? ==> f.shape == ShapeOf(chartType) && f.colours == ColoursFor(factor)
    ensures f.FactorFigure? ==> f.order == CategoryOrder(view, factor)
    ensures f.FactorFigure? ==> (f.series.Means? <==> f.shape == Bar)
    ensures f.FactorFigure? && f.series.Means? ==> f.series.bars == GroupMeans(view, factor, f.order)
    ensures f.FactorFigure? && f.series.Points? ==> f.series.points == RowPoints(view, factor)
  {
    if !IsColumn(factor) || view == [] then EmptyFigure
    else
      var order := CategoryOrder(view, factor);
      var shape := ShapeOf(chartType);
      FactorFigure(shape, order, ColoursFor(factor),
                   if shape == Bar then Means(GroupMeans(view, factor, order)) else Points(RowPoints(view, factor)))
  }

  // ---- properties of the grouped means ----

  /** An alcohol row is grouped under level k exactly when its value is the number k. */
  lemma AlcoholKey(r: StudentRecord, factor: string, k: int)
    requires factor in AlcoholFactors && 1 <= k <= 5
    ensures GroupKey(r, factor) == AlcoholLevels[k - 1] <==> Cell(r, factor) == Some(Num(k))
  {
    AlcoholLevelsPrinted();
    var n := Cell(r, factor).value.n;
    if GroupKey(r, factor) == AlcoholLevels[k - 1] {
      assert IntToString(n) == IntToString(k);
      IntToStringInjective(n, k);
    }
  }

  /**
   * For Dalc and Walc the bar chart always has the five levels, and a level
   * gets a missing value exactly when no row of the view has it.
   */
  lemma AlcoholBars(view: Dataset, factor: string)
    requires factor in AlcoholFactors && view != []
    ensures var f := PlotGradeByFactor(view, factor, "bar");
            f.FactorFigure? && f.series.Means? && |f.series.bars| == 5 &&
            forall k :: 1 <= k <= 5 ==>
              f.series.bars[k - 1].category == Text(Show(Num(k))) &&
              (f.series.bars[k - 1].meanGrade.None? <==> forall i :: 0 <= i < |view| ==> Cell(view[i], factor) != Some(Num(k)))
  {
    var f := PlotGradeByFactor(view, factor, "bar");
    AlcoholLevelsPrinted();
    forall k | 1 <= k <= 5
      ensures f.series.bars[k - 1].meanGrade.None? <==> forall i :: 0 <= i < |view| ==> Cell(view[i], factor) != Some(Num(k))
    {
      forall i | 0 <= i < |view| {
        AlcoholKey(view[i], factor, k);
      }
      if f.series.bars[k - 1].meanGrade.Some? {
        var r :| r in view && GroupKey(r, factor) == AlcoholLevels[k - 1];
        var i :| 0 <= i < |view| && view[i] == r;
      }
    }
  }

  /** With the sorted distinct values as the order every category has rows, so no bar is missing. */
  lemma DefaultOrderHasNoGaps(view: Dataset, factor: string)
    requires IsColumn(factor) && factor !in AlcoholFactors && factor !in BinaryFactors && view != []
    ensures var f := PlotGradeByFactor(view, factor, "bar");
            forall i :: 0 <= i < |f.series.bars| ==> f.series.bars[i].meanGrade.Some?
  {
    var f := PlotGradeByFactor(view, factor, "bar");
    var vs := ColumnValues(view, factor);
    forall i | 0 <= i < |f.series.bars| ensures f.series.bars[i].meanGrade.Some? {
      var c := f.order[i];
      assert c in vs;
      var j :| 0 <= j < |vs| && vs[j] == c;
      assert view[j] in view && GroupKey(view[j], factor) == c;
    }
  }

  /** On well-formed data every group mean is a final grade on the 0..20 scale. */
  lemma GroupMeansInScale(view: Dataset, factor: string, order: seq<Value>)
    requires IsColumn(factor) && WellFormedData(view)
    ensures var bars := GroupMeans(view, factor, order);
            forall i :: 0 <= i < |bars| && bars[i].meanGrade.Some? ==> 0.0 <= bars[i].meanGrade.value <= 20.0
  {
    var bars := GroupMeans(view, factor, order);
    forall i | 0 <= i < |bars| && bars[i].meanGrade.Some?
      ensures 0.0 <= bars[i].meanGrade.value <= 20.0
    {
      var m := Members(view, factor, order[i]);
      forall j | 0 <= j < |m| ensures 0.0 <= FinalGrade(m[j]) <= 20.0 {
        assert m[j] in m;
        var k :| 0 <= k < |view| && view[k] == m[j];
        FinalGradeInScale(m[j]);
      }
      MeanByBounds(m, FinalGrade, 0.0, 20.0);
    }
  }

  // ---- the trend ----

  function G1Of(r: StudentRecord): real { r.G1 as real }
  function G2Of(r: StudentRecord): real { r.G2 as real }
  function G3Of(r: StudentRecord): real { r.G3 as real }

  /** One point of the trend line: a term and the mean of its grade; `None` is NaN over no rows. */
  datatype TermMean = TermMean(term: string, average: Option<real>)

  /** `plot_grade_trend`: the G1, G2 and G3 means, in that order. */
  function GradeTrend(view: Dataset): (t: seq<TermMean>)
    ensures |t| == 3 && t[0].term == "G1" && t[1].term == "G2" && t[2].term == "G3"
    ensures forall k :: 0 <= k < 3 ==> (t[k].average.Some? <==> view != [])
    ensures view != [] ==> t[0].average.value * |view| as real == SumBy(view, G1Of)
    ensures view != [] ==> t[1].average.value * |view| as real == SumBy(view, G2Of)
    ensures view != [] ==> t[2].average.value * |view| as real == SumBy(view, G3Of)
  {
    [TermMean("G1", MeanBy(view, G1Of)), TermMean("G2", MeanBy(view, G2Of)), TermMean("G3", MeanBy(view, G3Of))]
  }

  /**
   * Each term's entry is the mean of its own column: over one row the trend
   * is that row's G1, G2 and G3, in that order.
   */
  lemma TrendOfOneRow(r: StudentRecord)
    ensures GradeTrend([r]) ==
            [TermMean("G1", Some(r.G1 as real)), TermMean("G2", Some(r.G2 as real)), TermMean("G3", Some(r.G3 as real))]
  {
    assert [r][1..] == [];
    assert SumBy([r], G1Of) == r.G1 as real;
    assert SumBy([r], G2Of) == r.G2 as real;
    assert SumBy([r], G3Of) == r.G3 as real;
  }

  /** `mean(axis=1)` over G1, G2 and G3: a row's final grade is the mean of its three term grades. */
  lemma FinalGradeIsRowMean(r: StudentRecord)
    ensures MeanBy([G1Of(r), G2Of(r), G3Of(r)], (x: real) => x) == Some(FinalGrade(r))
  {
    var id := (x: real) => x;
    var xs := [G1Of(r), G2Of(r), G3Of(r)];
    assert xs[1..][1..][1..] == [];
    assert SumBy(xs[1..][1..], id) == G3Of(r);
    assert SumBy(xs[1..], id) == G2Of(r) + G3Of(r);
    assert SumBy(xs, id) == (r.G1 + r.G2 + r.G3) as real;
  }

  /** The average of the three term means is the mean final grade. */
  lemma TrendAveragesToFinalGrade(view: Dataset)
    requires view != []
    ensures var t := GradeTrend(view);
            (t[0].average.value + t[1].average.value + t[2].average.value) / 3.0 == MeanBy(view, FinalGrade).value
  {
    SumByAverage3(view, G1Of, G2Of, G3Of, FinalGrade);
    var n := |view| as real;
    var a, b, c := SumBy(view, G1Of), SumBy(view, G2Of), SumBy(view, G3Of);
    AddFractions3(a, b, c, n);
  }

  lemma AddFractions3(a: real, b: real, c: real, n: real)
    requires n > 0.0
    ensures (a / n + b / n + c / n) / 3.0 == ((a + b + c) / 3.0) / n
  {
    var x, y, z := a / n, b / n, c / n;
    assert x * n == a && y * n == b && z * n == c;
    var w := ((a + b + c) / 3.0) / n;
    assert w * n == (a + b + c) / 3.0;
    assert ((x + y + z) / 3.0 - w) * n == 0.0;
    ZeroProduct((x + y + z) / 3.0 - w, n);
  }

  /** On well-formed data each term mean lies on the 0..20 scale. */
  lemma TrendInScale(view: Dataset)
    requires view != [] && WellFormedData(view)
    ensures forall k :: 0 <= k < 3 ==> 0.0 <= GradeTrend(view)[k].average.value <= 20.0
  {
    MeanByBounds(view, G1Of, 0.0, 20.0);
    MeanByBounds(view, G2Of, 0.0, 20.0);
    MeanByBounds(view, G3Of, 0.0, 20.0);
  }

  // ---- the callback ----

  /** `personal_chart`: a strip for absences, bars for the alcohol levels, a box otherwise. */
  function PersonalChart(personal: string): (chartType: string)
    ensures ShapeOf(chartType) == Strip <==> personal == "absences"
    ensures ShapeOf(chartType) == Bar <==> personal in {"Walc", "Dalc"}
    ensures ShapeOf(chartType) == Box <==> personal != "absences" && personal !in {"Walc", "Dalc"}
  {
    if personal == "absences" then "strip" else if personal in ["Walc", "Dalc"] then "bar" else "box"
  }

  datatype AcademicPage = AcademicPage(
    header: Header,
    supportFigure: FactorFigure,
    lifestyleFigure: FactorFigure,
    personalFigure: FactorFigure,
    trend: seq<TermMean>)

  /** `update_academic_dashboard(school, support, lifestyle, personal)`. */
  function UpdateAcademicDashboard(ds: Dataset, school: string, support: string, lifestyle: string, personal: string)
    : (p: Result<AcademicPage>)
    ensures p.Ok? <==> SchoolView(ds, school) != []
    ensures p.Err? ==> p.error == CannotRoundNan
    ensures p.Ok? ==> p.value.header.view == SchoolView(ds, school)
    ensures p.Ok? ==> p.value.supportFigure == PlotGradeByFactor(p.value.header.view, support, "box")
    ensures p.Ok? ==> p.value.lifestyleFigure == PlotGradeByFactor(p.value.header.view, lifestyle, "violin")
    ensures p.Ok? ==> p.value.personalFigure == PlotGradeByFactor(p.value.header.view, personal, PersonalChart(personal))
    ensures p.Ok? ==> p.value.trend == GradeTrend(p.value.header.view)
  {
    match PageHeader(ds, school)
    case Err(e) => Err(e)
    case Ok(h) =>
      Ok(AcademicPage(
        h,
        PlotGradeByFactor(h.view, support, "box"),
        PlotGradeByFactor(h.view, lifestyle, "violin"),
        PlotGradeByFactor(h.view, personal, PersonalChart(personal)),
        GradeTrend(h.view)))
  }

  /**
   * The shapes the page draws: support factors as boxes, lifestyle factors as
   * violins, and the personal factor by the strip/bar/box rule.
   */
  lemma AcademicChartShapes(ds: Dataset, school: string, support: string, lifestyle: string, personal: string)
    requires SchoolView(ds, school) != []
    ensures UpdateAcademicDashboard(ds, school, support, lifestyle, personal).Ok?
    ensures var p := UpdateAcademicDashboard(ds, school, support, lifestyle, personal).value;
            && (p.supportFigure.FactorFigure? <==> IsColumn(support))
            && (p.supportFigure.FactorFigure? ==> p.supportFigure.shape == Box)
            && (p.lifestyleFigure.FactorFigure? <==> IsColumn(lifestyle))
            && (p.lifestyleFigure.FactorFigure? ==> p.lifestyleFigure.shape == Violin)
            && (p.personalFigure.FactorFigure? <==> IsColumn(personal))
            && (p.personalFigure.FactorFigure? ==>
                  (p.personalFigure.shape == Strip <==> personal == "absences") &&
                  (p.personalFigure.shape == Bar <==> personal in {"Walc", "Dalc"}))
  {
  }

  /** Both pages show the same header for the same dataset and school. */
  lemma SameHeaderOnBothPages(ds: Dataset, school: string, support: string, lifestyle: string, personal: string)
    requires SchoolView(ds, school) != []
    ensures UpdateAcademicDashboard(ds, school, support, lifestyle, personal).Ok?
    ensures PageHeader(ds, school).Ok?
    ensures UpdateAcademicDashboard(ds, school, support, lifestyle, personal).value.header == PageHeader(ds, school).value
  {
  }

  // ---- a worked example ----

  const ExampleRow := StudentRecord("GP", "F", "U", "GT3", 2, 3, 3, 1, 1, 3, 0,
                                    "no", "no", "no", "no", "yes", "yes", 0, 0, 0)

  /** Three students with term grades (10,12,14), (8,9,10), (15,16,17). */
  const ExampleData: Dataset := [
    ExampleRow.(G1 := 10, G2 := 12, G3 := 14),
    ExampleRow.(G1 := 8, G2 := 9, G3 := 10),
    ExampleRow.(G1 := 15, G2 := 16, G3 := 17)]

  /** Their final grades are 12, 9 and 16; the summary counts 3 students with a mean grade of 12.3. */
  lemma ExampleSummary()
    ensures FinalGrades(ExampleData) == [12.0, 9.0, 16.0]
    ensures CalculateMetrics(ExampleData).Ok?
    ensures CalculateMetrics(ExampleData).value.total == 3
    ensures CalculateMetrics(ExampleData).value.avgGrade == 12.3
  {
    var d := ExampleData;
    assert FinalGrade(d[0]) == 12.0 && FinalGrade(d[1]) == 9.0 && FinalGrade(d[2]) == 16.0;
    FinalGradesAt(d, 0);
    FinalGradesAt(d, 1);
    FinalGradesAt(d, 2);
    assert SumBy(d, FinalGrade) == 37.0 by {
      assert d[1..][1..] == [d[2]];
      assert [d[2]][1..] == [];
      assert SumBy([d[2]], FinalGrade) == 16.0;
      assert SumBy(d[1..], FinalGrade) == 25.0;
    }
    assert MeanBy(ExampleData, FinalGrade).value == 37.0 / 3.0;
    assert RoundTenth(37.0 / 3.0) == 12.3 by {
      assert (37.0 / 3.0 * 10.0).Floor == 123;
    }
  }
}
