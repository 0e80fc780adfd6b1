/**
 * The part both pages share: the school filter, `calculate_metrics`, and the
 * "School Ratio" card that the two callbacks compute from them.
 */
module Metrics {
  import opened Wrappers
  import opened Records
  import opened Stats

  /** The dictionary `calculate_metrics` returns, as a value. */
  datatype Summary = Summary(
    total: nat,
    avgGrade: real,
    gpPct: int,
    msPct: int,
    activitiesPct: int,
    avgAbsences: int,
    avgHealth: real,
    avgFreetime: real)

  /** A boolean Series read as numbers, as `.mean()` reads it. */
  function Indicator(b: bool): real
  {
    if b then 1.0 else 0.0
  }

  /** `df["school"] == school`, one row at a time. */
  function IsSchool(school: string): StudentRecord -> real
  {
    (r: StudentRecord) => Indicator(r.school == school)
  }

  function DoesActivities(r: StudentRecord): real { Indicator(r.activities == "yes") }
  function AbsencesOf(r: StudentRecord): real { r.absences as real }
  function HealthOf(r: StudentRecord): real { r.health as real }
  function FreetimeOf(r: StudentRecord): real { r.freetime as real }

  /** A share of rows lies in [0, 1], so that share times 100 rounds into [0, 100]. */
  lemma SharePctBounds(view: Dataset, p: StudentRecord -> real)
    requires view != []
    requires forall r :: p(r) == 0.0 || p(r) == 1.0
    ensures MeanBy(view, p).Some?
    ensures 0 <= RoundHalfEven(MeanBy(view, p).value * 100.0) <= 100
  {
    MeanByBounds(view, p, 0.0, 1.0);
    RoundPercentBounds(MeanBy(view, p).value * 100.0);
  }

  /**
   * `calculate_metrics(df_filtered)`. On an empty view the means are NaN and
   * the first integer `round` (of the GP share) raises, so the whole call fails.
   */
  function CalculateMetrics(view: Dataset): (m: Result<Summary>)
    ensures m.Ok? <==> view != []
    ensures m.Err? ==> m.error == CannotRoundNan
    ensures m.Ok? ==> m.value.total == |view|
    ensures m.Ok? ==> m.value.gpPct + m.value.msPct == 100
    ensures m.Ok? ==> 0 <= m.value.gpPct <= 100 && 0 <= m.value.msPct <= 100
    ensures m.Ok? ==> 0 <= m.value.activitiesPct <= 100
    ensures m.Ok? ==> -0.5 <= m.value.gpPct as real - MeanBy(view, IsSchool("GP")).value * 100.0 <= 0.5
    ensures m.Ok? ==> -0.5 <= m.value.activitiesPct as real - MeanBy(view, DoesActivities).value * 100.0 <= 0.5
    ensures m.Ok? ==> -0.05 <= m.value.avgGrade - MeanBy(view, FinalGrade).value <= 0.05
    ensures m.Ok? ==> -0.5 <= m.value.avgAbsences as real - MeanBy(view, AbsencesOf).value <= 0.5
    ensures m.Ok? ==> -0.05 <= m.value.avgHealth - MeanBy(view, HealthOf).value <= 0.05
    ensures m.Ok? ==> -0.05 <= m.value.avgFreetime - MeanBy(view, FreetimeOf).value <= 0.05
    ensures m.Ok? ==> (m.value.avgGrade * 10.0).Floor as real == m.value.avgGrade * 10.0
    ensures m.Ok? ==> (m.value.avgHealth * 10.0).Floor as real == m.value.avgHealth * 10.0
    ensures m.Ok? ==> (m.value.avgFreetime * 10.0).Floor as real == m.value.avgFreetime * 10.0
  {
    if view == [] then Err(CannotRoundNan)
    else
      SharePctBounds(view, IsSchool("GP"));
      SharePctBounds(view, DoesActivities);
      var gp := RoundHalfEven(MeanBy(view, IsSchool("GP")).value * 100.0);
      Ok(Summary(
        total := |view|,
        avgGrade := RoundTenth(MeanBy(view, FinalGrade).value),
        gpPct := gp,
        msPct := 100 - gp,
        activitiesPct := RoundHalfEven(MeanBy(view, DoesActivities).value * 100.0),
        avgAbsences := RoundHalfEven(MeanBy(view, AbsencesOf).value),
        avgHealth := RoundTenth(MeanBy(view, HealthOf).value),
        avgFreetime := RoundTenth(MeanBy(view, FreetimeOf).value)))
  }

  /** The rows are an unordered collection: reordering the view changes no metric. */
  lemma MetricsOrderInvariant(a: Dataset, b: Dataset)
    requires multiset(a) == multiset(b)
    ensures CalculateMetrics(a) == CalculateMetrics(b)
  {
    assert |a| == |multiset(a)| == |multiset(b)| == |b|;
    MeanByPermutation(a, b, IsSchool("GP"));
    MeanByPermutation(a, b, DoesActivities);
    MeanByPermutation(a, b, FinalGrade);
    MeanByPermutation(a, b, AbsencesOf);
    MeanByPermutation(a, b, HealthOf);
    MeanByPermutation(a, b, FreetimeOf);
  }

  /** On well-formed rows the rounded averages stay on their scales: grade 0..20, ratings 1..5. */
  lemma MetricsInScale(view: Dataset)
    requires view != [] && WellFormedData(view)
    ensures CalculateMetrics(view).Ok?
    ensures 0.0 <= CalculateMetrics(view).value.avgGrade <= 20.0
    ensures 1.0 <= CalculateMetrics(view).value.avgHealth <= 5.0
    ensures 1.0 <= CalculateMetrics(view).value.avgFreetime <= 5.0
    ensures 0 <= CalculateMetrics(view).value.avgAbsences
  {
    forall i | 0 <= i < |view| ensures 0.0 <= FinalGrade(view[i]) <= 20.0 {
      FinalGradeInScale(view[i]);
    }
    MeanByBounds(view, FinalGrade, 0.0, 20.0);
    MeanByBounds(view, HealthOf, 1.0, 5.0);
    MeanByBounds(view, FreetimeOf, 1.0, 5.0);
    MeanByLowerBound(view, AbsencesOf, 0.0);
    TenthStaysInScale(MeanBy(view, FinalGrade).value, 0, 20);
    TenthStaysInScale(MeanBy(view, HealthOf).value, 1, 5);
    TenthStaysInScale(MeanBy(view, FreetimeOf).value, 1, 5);
  }

  lemma MeanByLowerBound(view: Dataset, f: StudentRecord -> real, lo: real)
    requires view != []
    requires forall i :: 0 <= i < |view| ==> lo <= f(view[i])
    ensures lo <= MeanBy(view, f).value
  {
    var hi := MaxBy(view, f);
    MeanByBounds(view, f, lo, hi);
  }

  /** A value at least every row's `f`. */
  function MaxBy(view: Dataset, f: StudentRecord -> real): (hi: real)
    ensures forall i :: 0 <= i < |view| ==> f(view[i]) <= hi
  {
    if view == [] then 0.0
    else
      var rest := MaxBy(view[1..], f);
      assert forall i :: 1 <= i < |view| ==> view[i] == view[1..][i - 1];
      if f(view[0]) > rest then f(view[0]) else rest
  }

  /** Rounding to a tenth cannot leave an integer range. */
  lemma TenthStaysInScale(x: real, lo: int, hi: int)
    requires lo as real <= x <= hi as real
    ensures lo as real <= RoundTenth(x) <= hi as real
  {
    var k := RoundHalfEven(x * 10.0);
    assert (lo * 10) as real <= x * 10.0 <= (hi * 10) as real;
    assert lo * 10 <= k <= hi * 10;
  }

  // ---- the school filter ----

  /** `df[df["school"] == school]`: the matching rows, in their original order. */
  function Select(ds: Dataset, school: string): (v: Dataset)
    ensures forall r :: multiset(v)[r] == if r.school == school then multiset(ds)[r] else 0
    ensures forall r :: r in v <==> r in ds && r.school == school
    ensures |v| <= |ds|
  {
    if ds == [] then []
    else
      assert ds == [ds[0]] + ds[1..];
      (if ds[0].school == school then [ds[0]] else []) + Select(ds[1..], school)
  }

  /** The filter keeps the row order: filtering two tables put together is putting the two filtered tables together. */
  lemma {:induction false} SelectConcat(a: Dataset, b: Dataset, school: string)
    ensures Select(a + b, school) == Select(a, school) + Select(b, school)
  {
    if a == [] {
      assert a + b == b;
    } else {
      assert (a + b)[0] == a[0];
      assert (a + b)[1..] == a[1..] + b;
      SelectConcat(a[1..], b, school);
    }
  }

  /** The number of selected rows is the number of ones in the `school == X` mask. */
  lemma {:induction false} SelectCount(ds: Dataset, school: string)
    ensures |Select(ds, school)| as real == SumBy(ds, IsSchool(school))
  {
    if ds != [] {
      SelectCount(ds[1..], school);
    }
  }

  /** `df if school == "All" else df[df["school"] == school]`. */
  function SchoolView(ds: Dataset, school: string): (v: Dataset)
    ensures school == "All" ==> v == ds
    ensures school != "All" ==> forall r :: multiset(v)[r] == if r.school == school then multiset(ds)[r] else 0
    ensures multiset(v) <= multiset(ds)
  {
    if school == "All" then ds else Select(ds, school)
  }

  /** The view of a school that occurs in the data is not empty. */
  lemma ListedSchoolViewNonEmpty(ds: Dataset, school: string)
    requires (school == "All" && ds != []) || exists r :: r in ds && r.school == school
    ensures SchoolView(ds, school) != []
  {
    if school != "All" {
      var r :| r in ds && r.school == school;
      assert r in SchoolView(ds, school);
    }
  }

  // ---- the "School Ratio" card ----

  datatype SchoolRatio =
    | Split(gp: int, ms: int)             // "GP: x% · MS: y%"
    | Single(school: string, pct: int)    // "X: z%"

  /**
   * The card text: the view's own GP/MS split when no school is chosen,
   * otherwise the chosen school's share of the whole, unfiltered dataset.
   */
  function SchoolRatioCard(ds: Dataset, school: string, m: Summary): (c: Result<SchoolRatio>)
    ensures school == "All" ==> c == Ok(Split(m.gpPct, m.msPct))
    ensures school != "All" ==> (c.Ok? <==> ds != [])
    ensures school != "All" && c.Ok? ==> c.value.Single? && c.value.school == school && 0 <= c.value.pct <= 100
  {
    if school == "All" then Ok(Split(m.gpPct, m.msPct))
    else if ds == [] then Err(ZeroDivision)
    else
      var share := |SchoolView(ds, school)| as real / |ds| as real;
      assert |SchoolView(ds, school)| <= |ds| by {
        assert |multiset(SchoolView(ds, school))| <= |multiset(ds)|;
      }
      FractionBounds(|SchoolView(ds, school)|, |ds|);
      RoundPercentBounds(share * 100.0);
      Ok(Single(school, RoundHalfEven(share * 100.0)))
  }

  lemma FractionBounds(part: nat, whole: nat)
    requires 0 < whole && part <= whole
    ensures 0.0 <= part as real / whole as real <= 1.0
  {
    var q := part as real / whole as real;
    assert q * whole as real == part as real;
  }

  /** What both callbacks compute first: the view, its metrics and the ratio card. */
  datatype Header = Header(view: Dataset, metrics: Summary, ratio: SchoolRatio)

  function PageHeader(ds: Dataset, school: string): (h: Result<Header>)
    ensures h.Ok? <==> SchoolView(ds, school) != []
    ensures h.Ok? ==> h.value.view == SchoolView(ds, school) && h.value.metrics.total == |h.value.view|
    ensures h.Ok? ==> CalculateMetrics(h.value.view) == Ok(h.value.metrics)
    ensures h.Ok? ==> h.value.metrics.gpPct + h.value.metrics.msPct == 100
    ensures h.Ok? ==> SchoolRatioCard(ds, school, h.value.metrics) == Ok(h.value.ratio)
    ensures h.Err? ==> h.error == CannotRoundNan
  {
    var view := SchoolView(ds, school);
    match CalculateMetrics(view)
    case Err(e) => Err(e)
    case Ok(m) =>
      assert |view| <= |ds| by { assert |multiset(view)| <= |multiset(ds)|; }
      match SchoolRatioCard(ds, school, m)
      case Err(e) => Err(e)
      case Ok(ratio) => Ok(Header(view, m, ratio))
  }

  /** The metrics of the "All" header are those of the whole dataset. */
  lemma AllHeaderMetrics(ds: Dataset)
    requires ds != []
    ensures PageHeader(ds, "All").Ok?
    ensures PageHeader(ds, "All").value.metrics == CalculateMetrics(ds).value
  {
  }

  /**
   * Choosing a school reports that school's share of the whole dataset, which
   * is exactly the figure the unfiltered split shows for it: "GP: 65%" in the
   * "All" view becomes "GP: 65%" in the GP view.
   */
  lemma GpRatioMatchesSplit(ds: Dataset)
    requires ds != []
    ensures var all := CalculateMetrics(ds).value;
            SchoolRatioCard(ds, "GP", all) == Ok(Single("GP", all.gpPct))
  {
    SelectCount(ds, "GP");
    var all := CalculateMetrics(ds).value;
    var n := |ds| as real;
    var g := SumBy(ds, IsSchool("GP"));
    assert MeanBy(ds, IsSchool("GP")).value == g / n;
    assert |SchoolView(ds, "GP")| as real / n == g / n;
  }

  /** On a dataset of GP and MS rows only, the MS view shows the split's complement. */
  lemma MsRatioMatchesSplit(ds: Dataset)
    requires ds != []
    requires forall i :: 0 <= i < |ds| ==> ds[i].school in {"GP", "MS"}
    ensures var all := CalculateMetrics(ds).value;
            SchoolRatioCard(ds, "MS", all) == Ok(Single("MS", all.msPct))
  {
    SelectCount(ds, "MS");
    SchoolsSplit(ds);
    var all := CalculateMetrics(ds).value;
    var n := |ds| as real;
    var g := SumBy(ds, IsSchool("GP"));
    assert all.msPct == 100 - RoundHalfEven(g / n * 100.0);
    ComplementPercent(g, n, |SchoolView(ds, "MS")| as real);
  }

  /**
   * The card a school's page shows is taken over the unfiltered dataset. For a
   * school occurring at row `j`, the GP page shows the whole dataset's gp_pct,
   * and on GP/MS data the MS page shows its ms_pct.
   */
  lemma HeaderRatioShowsShare(ds: Dataset, school: string, j: nat)
    requires (school == "GP" || school == "MS") && j < |ds| && ds[j].school == school
    requires school == "MS" ==> forall i :: 0 <= i < |ds| ==> ds[i].school in {"GP", "MS"}
    ensures ds != [] && PageHeader(ds, school).Ok?
    ensures var all := CalculateMetrics(ds).value;
            PageHeader(ds, school).value.ratio == Single(school, if school == "GP" then all.gpPct else all.msPct)
  {
    assert ds[j] in ds;
    ListedSchoolViewNonEmpty(ds, school);
    assert |SchoolView(ds, school)| <= |ds| by {
      assert |multiset(SchoolView(ds, school))| <= |multiset(ds)|;
    }
    if school == "GP" {
      GpRatioMatchesSplit(ds);
    } else {
      MsRatioMatchesSplit(ds);
    }
  }

  /** The complement's share rounds to 100 minus the rounded share. */
  lemma ComplementPercent(g: real, n: real, rest: real)
    requires n > 0.0 && rest == n - g
    ensures RoundHalfEven(rest / n * 100.0) == 100 - RoundHalfEven(g / n * 100.0)
  {
    ComplementShare(g, n);
    RoundComplement(g / n * 100.0);
  }

  lemma ComplementShare(g: real, n: real)
    requires n > 0.0
    ensures (n - g) / n * 100.0 == 100.0 - g / n * 100.0
  {
    var q := g / n;
    assert q * n == g;
    assert (n - g) / n * n == n - g;
    assert (1.0 - q) * n == n - g;
    var r := (n - g) / n;
    assert (r - (1.0 - q)) * n == 0.0;
    ZeroProduct(r - (1.0 - q), n);
  }

  lemma ZeroProduct(x: real, n: real)
    requires n > 0.0 && x * n == 0.0
    ensures x == 0.0
  {
  }

  /** With only the two schools, every row counts for exactly one of them. */
  lemma {:induction false} SchoolsSplit(ds: Dataset)
    requires forall i :: 0 <= i < |ds| ==> ds[i].school in {"GP", "MS"}
    ensures SumBy(ds, IsSchool("GP")) + SumBy(ds, IsSchool("MS")) == |ds| as real
  {
    if ds != [] {
      assert forall i :: 0 <= i < |ds[1..]| ==> ds[1..][i] == ds[i + 1];
      SchoolsSplit(ds[1..]);
    }
  }

  // ---- the metrics dictionaries of the two pages ----

  datatype Stat = IntStat(i: int) | RealStat(x: real)

  /** The keys and values of academic.py's dictionary literal, in writing order. */
  function AcademicEntries(m: Summary): seq<(string, Stat)>
  {
    [("total", IntStat(m.total)), ("avg_grade", RealStat(m.avgGrade)),
     ("gp_pct", IntStat(m.gpPct)), ("ms_pct", IntStat(m.msPct)),
     ("activities_pct", IntStat(m.activitiesPct)), ("avg_absences", IntStat(m.avgAbsences)),
     ("avg_health", RealStat(m.avgHealth)), ("avg_freetime", RealStat(m.avgFreetime))]
  }

  /** overview.py's literal: the same entries, with `activities_pct` written a second time at the end. */
  function OverviewEntries(m: Summary): seq<(string, Stat)>
  {
    AcademicEntries(m) + [("activities_pct", IntStat(m.activitiesPct))]
  }

  /** A dict display: a later entry with the same key replaces the earlier value. */
  function AsDict(entries: seq<(string, Stat)>): map<string, Stat>
  {
    if entries == [] then map[]
    else AsDict(entries[..|entries| - 1])[entries[|entries| - 1].0 := entries[|entries| - 1].1]
  }

  /** The repeated key carries the value it already had, so the two pages build the same dictionary of eight keys. */
  lemma OverviewMetricsMatchAcademic(m: Summary)
    ensures AsDict(OverviewEntries(m)) == AsDict(AcademicEntries(m))
    ensures AsDict(AcademicEntries(m)).Keys ==
            {"total", "avg_grade", "gp_pct", "ms_pct", "activities_pct", "avg_absences", "avg_health", "avg_freetime"}
    ensures AsDict(OverviewEntries(m))["activities_pct"] == IntStat(m.activitiesPct)
  {
    var a := AcademicEntries(m);
    var o := OverviewEntries(m);
    assert o[..|o| - 1] == a;
    assert a[..0] == [];
    assert a[..1][..0] == a[..0];
    assert AsDict(a[..1]) == AsDict(a[..0])[a[0].0 := a[0].1];
    assert a[..2][..1] == a[..1];
    assert AsDict(a[..2]) == AsDict(a[..1])[a[1].0 := a[1].1];
    assert a[..3][..2] == a[..2];
    assert AsDict(a[..3]) == AsDict(a[..2])[a[2].0 := a[2].1];
    assert a[..4][..3] == a[..3];
    assert AsDict(a[..4]) == AsDict(a[..3])[a[3].0 := a[3].1];
    assert a[..5][..4] == a[..4];
    assert AsDict(a[..5]) == AsDict(a[..4])[a[4].0 := a[4].1];
    assert a[..6][..5] == a[..5];
    assert AsDict(a[..6]) == AsDict(a[..5])[a[5].0 := a[5].1];
    assert a[..7][..6] == a[..6];
    assert AsDict(a[..7]) == AsDict(a[..6])[a[6].0 := a[6].1];
    assert a[..8][..7] == a[..7];
    assert AsDict(a[..8]) == AsDict(a[..7])[a[7].0 := a[7].1];
    assert a[..8] == a;
    var d := AsDict(a);
    assert d == map["total" := IntStat(m.total), "avg_grade" := RealStat(m.avgGrade),
                    "gp_pct" := IntStat(m.gpPct), "ms_pct" := IntStat(m.msPct),
                    "activities_pct" := IntStat(m.activitiesPct), "avg_absences" := IntStat(m.avgAbsences),
                    "avg_health" := RealStat(m.avgHealth), "avg_freetime" := RealStat(m.avgFreetime)];
    assert AsDict(o) == d["activities_pct" := IntStat(m.activitiesPct)];
  }
}
