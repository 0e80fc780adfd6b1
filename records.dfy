/**
 * One row of the student table, the cells a column name selects from it,
 * the derived `final_grade`, and Python's `str` of a cell.
 */
module Records {
  import opened Wrappers

  /** A cell as the dashboard compares and groups it: an integer or a text value. */
  datatype Value = Num(n: int) | Text(s: string)

  /** One row of the CSV file restricted to the columns the dashboard reads. */
  datatype StudentRecord = StudentRecord(
    school: string, sex: string, address: string, famsize: string,
    studytime: int, freetime: int, goout: int, Dalc: int, Walc: int,
    health: int, absences: int,
    schoolsup: string, famsup: string, paid: string, activities: string,
    internet: string, higher: string,
    G1: int, G2: int, G3: int)

  type Dataset = seq<StudentRecord>

  /** The `final_grade` column, computed row by row from the three term grades. */
  function FinalGrade(r: StudentRecord): (g: real)
    ensures 3.0 * g == (r.G1 + r.G2 + r.G3) as real
  {
    (r.G1 + r.G2 + r.G3) as real / 3.0
  }

  /** The `final_grade` column of a table, in row order. */
  function FinalGrades(ds: Dataset): seq<real>
  {
    if ds == [] then [] else [FinalGrade(ds[0])] + FinalGrades(ds[1..])
  }

  /** Deriving the column row by row: the column of two tables put together is the two columns put together. */
  lemma {:induction false} FinalGradesConcat(a: Dataset, b: Dataset)
    ensures FinalGrades(a + b) == FinalGrades(a) + FinalGrades(b)
  {
    if a != [] {
      assert (a + b)[1..] == a[1..] + b;
      FinalGradesConcat(a[1..], b);
    } else {
      assert a + b == b;
    }
  }

  /** Each entry of the column belongs to its own row, whatever the other rows are. */
  lemma {:induction false} FinalGradesAt(ds: Dataset, i: nat)
    requires i < |ds|
    ensures |FinalGrades(ds)| == |ds|
    ensures FinalGrades(ds)[i] == FinalGrade(ds[i])
  {
    if i > 0 {
      FinalGradesAt(ds[1..], i - 1);
    } else if |ds| > 1 {
      FinalGradesAt(ds[1..], 0);
    }
  }

  /** A grade on the 0..20 scale gives a final grade on the same scale. */
  lemma FinalGradeInScale(r: StudentRecord)
    requires 0 <= r.G1 <= 20 && 0 <= r.G2 <= 20 && 0 <= r.G3 <= 20
    ensures 0.0 <= FinalGrade(r) <= 20.0
  {
  }

  const Columns: set<string> := {
    "school", "sex", "address", "famsize",
    "studytime", "freetime", "goout", "Dalc", "Walc", "health", "absences",
    "schoolsup", "famsup", "paid", "activities", "internet", "higher",
    "G1", "G2", "G3" }

  predicate IsColumn(column: string)
  {
    column in Columns
  }

  /** `row[column]`; `None` when the table has no such column. */
  function Cell(r: StudentRecord, column: string): (c: Option<Value>)
    ensures c.Some? <==> IsColumn(column)
  {
    match column
    case "school" => Some(Text(r.school))
    case "sex" => Some(Text(r.sex))
    case "address" => Some(Text(r.address))
    case "famsize" => Some(Text(r.famsize))
    case "studytime" => Some(Num(r.studytime))
    case "freetime" => Some(Num(r.freetime))
    case "goout" => Some(Num(r.goout))
    case "Dalc" => Some(Num(r.Dalc))
    case "Walc" => Some(Num(r.Walc))
    case "health" => Some(Num(r.health))
    case "absences" => Some(Num(r.absences))
    case "schoolsup" => Some(Text(r.schoolsup))
    case "famsup" => Some(Text(r.famsup))
    case "paid" => Some(Text(r.paid))
    case "activities" => Some(Text(r.activities))
    case "internet" => Some(Text(r.internet))
    case "higher" => Some(Text(r.higher))
    case "G1" => Some(Num(r.G1))
    case "G2" => Some(Num(r.G2))
    case "G3" => Some(Num(r.G3))
    case _ => None
  }

  /** `df[column]` as a sequence, in row order. */
  function ColumnValues(ds: Dataset, column: string): (vs: seq<Value>)
    requires IsColumn(column)
    ensures |vs| == |ds|
    ensures forall i :: 0 <= i < |ds| ==> vs[i] == Cell(ds[i], column).value
  {
    if ds == [] then [] else [Cell(ds[0], column).value] + ColumnValues(ds[1..], column)
  }

  /** The value domains the data set documents for each column (pre-cleaned table). */
  predicate WellFormed(r: StudentRecord)
  {
    && r.school in {"GP", "MS"} && r.sex in {"F", "M"}
    && r.address in {"U", "R"} && r.famsize in {"LE3", "GT3"}
    && 1 <= r.studytime <= 5 && 1 <= r.freetime <= 5 && 1 <= r.goout <= 5
    && 1 <= r.Dalc <= 5 && 1 <= r.Walc <= 5 && 1 <= r.health <= 5
    && 0 <= r.absences
    && r.schoolsup in {"yes", "no"} && r.famsup in {"yes", "no"}
    && r.paid in {"yes", "no"} && r.activities in {"yes", "no"}
    && r.internet in {"yes", "no"} && r.higher in {"yes", "no"}
    && 0 <= r.G1 <= 20 && 0 <= r.G2 <= 20 && 0 <= r.G3 <= 20
  }

  predicate WellFormedData(ds: Dataset)
  {
    forall i :: 0 <= i < |ds| ==> WellFormed(ds[i])
  }

  // ---- Python's str() of a cell ----

  function DigitChar(d: int): char
    requires 0 <= d <= 9
  {
    ('0' as int + d) as char
  }

  /** Decimal digits of a natural number, most significant first. */
  function NatToString(n: nat): (s: string)
    decreases n
  {
    if n < 10 then [DigitChar(n)] else NatToString(n / 10) + [DigitChar(n % 10)]
  }

  /** `str(n)` for a Python int. */
  function IntToString(n: int): string
  {
    if n < 0 then "-" + NatToString(-n) else NatToString(n)
  }

  /** `str(v)`: text is itself, a number is its decimal form. */
  function Show(v: Value): string
  {
    match v
    case Num(n) => IntToString(n)
    case Text(s) => s
  }

  lemma {:induction false} NatToStringShape(n: nat)
    ensures |NatToString(n)| >= 1
    ensures |NatToString(n)| == 1 <==> n < 10
    ensures '0' <= NatToString(n)[0] <= '9'
    decreases n
  {
    if n >= 10 {
      NatToStringShape(n / 10);
    }
  }

  /** Different numbers print differently: `str` loses nothing. */
  lemma {:induction false} NatToStringInjective(a: nat, b: nat)
    requires NatToString(a) == NatToString(b)
    ensures a == b
    decreases a
  {
    NatToStringShape(a);
    NatToStringShape(b);
    if a >= 10 {
      var sa, sb := NatToString(a), NatToString(b);
      assert sa[..|sa| - 1] == NatToString(a / 10);
      assert sb[..|sb| - 1] == NatToString(b / 10);
      assert sa[|sa| - 1] == DigitChar(a % 10);
      assert sb[|sb| - 1] == DigitChar(b % 10);
      NatToStringInjective(a / 10, b / 10);
    }
  }

  lemma IntToStringInjective(a: int, b: int)
    requires IntToString(a) == IntToString(b)
    ensures a == b
  {
    if a < 0 {
      NatToStringShape(-a);
    } else {
      NatToStringShape(a);
    }
    if b < 0 {
      NatToStringShape(-b);
    } else {
      NatToStringShape(b);
    }
    if a < 0 && b < 0 {
      assert NatToString(-a) == IntToString(a)[1..];
      assert NatToString(-b) == IntToString(b)[1..];
      NatToStringInjective(-a, -b);
    } else if a >= 0 && b >= 0 {
      NatToStringInjective(a, b);
    } else {
      assert false;
    }
  }

  /** A single digit prints as that one character. */
  lemma DigitToString(d: int)
    requires 0 <= d <= 9
    ensures IntToString(d) == [DigitChar(d)]
  {
  }
}
