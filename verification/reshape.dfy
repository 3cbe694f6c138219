/**
 * The reshape from the wide table (one row per year and term, one enrollment
 * column per department) to the long table (one row per year, term and
 * department): pandas' `melt`, the stripping of " Enrolled" from the
 * department labels, the renaming of two columns and the derived
 * `Enrollments` column.
 */
module Reshaper {
  import opened Cells

  /** The seven `id_vars` of the melt: kept unchanged on every long row. */
  datatype Ids = Ids(
    year: Cell,
    term: Option<string>,
    applications: Cell,
    admitted: Cell,
    enrolled: Cell,
    retentionRate: Cell,
    satisfactionScore: Cell)

  /** One row of the CSV file. */
  datatype WideRow = WideRow(ids: Ids, engineering: Cell, business: Cell, arts: Cell, science: Cell)

  /** One row as `melt` produces it: `Department` still holds the column label. */
  datatype MeltedRow = MeltedRow(ids: Ids, department: string, enrollmentsDept: Cell)

  /** One row of the long table the rest of the dashboard works on. */
  datatype LongRow = LongRow(ids: Ids, department: string, enrollmentsDept: Cell, enrollments: Cell)

  /** A long table: its column labels, in order, and its rows. */
  datatype Frame = Frame(columns: seq<string>, rows: seq<LongRow>)

  const ID_VARS: seq<string> :=
    ["Year", "Term", "Applications", "Admitted", "Enrolled", "Retention Rate (%)", "Student Satisfaction (%)"]
  /** The four `value_vars` columns: each department's name followed by SUFFIX. */
  const VALUE_VARS: seq<string> := seq(4, k requires 0 <= k < 4 => DEPARTMENTS[k] + SUFFIX)
  const VAR_NAME := "Department"
  const VALUE_NAME := "EnrollmentsDept"
  const SUFFIX := " Enrolled"
  const RENAMES: map<string, string> :=
    map["Retention Rate (%)" := "RetentionRate", "Student Satisfaction (%)" := "SatisfactionScore"]
  const ENROLLMENTS := "Enrollments"

  /** The department names once the suffix is stripped, in melt order. */
  const DEPARTMENTS: seq<string> := ["Engineering", "Business", "Arts", "Science"]

  /** VALUE_VARS spells out the four column labels of the CSV file, in melt order. */
  lemma ValueVarsLabels()
    ensures VALUE_VARS == ["Engineering Enrolled", "Business Enrolled", "Arts Enrolled", "Science Enrolled"]
  {
    assert VALUE_VARS[0] == "Engineering" + " Enrolled" == "Engineering Enrolled";
    assert VALUE_VARS[1] == "Business" + " Enrolled" == "Business Enrolled";
    assert VALUE_VARS[2] == "Arts" + " Enrolled" == "Arts Enrolled";
    assert VALUE_VARS[3] == "Science" + " Enrolled" == "Science Enrolled";
  }

  /** The cell of the k-th `value_vars` column of a wide row. */
  function DeptCount(w: WideRow, k: nat): Cell
    requires k < 4
  {
    if k == 0 then w.engineering
    else if k == 1 then w.business
    else if k == 2 then w.arts
    else w.science
  }

  /** Python's `str.replace(pat, "")`: every non-overlapping occurrence, left to right, removed. */
  function RemoveAll(s: string, pat: string): (r: string)
    requires |pat| > 0
    ensures |r| <= |s|
    decreases |s|
  {
    if |s| < |pat| then s
    else if s[..|pat|] == pat then RemoveAll(s[|pat|..], pat)
    else [s[0]] + RemoveAll(s[1..], pat)
  }

  /** The n characters of `s` starting at position i. */
  function Window(s: string, i: nat, n: nat): string
    requires i + n <= |s|
  {
    s[i..i + n]
  }

  /** `pat` occurs nowhere in `s`. */
  predicate NoMatch(s: string, pat: string) {
    forall i :: 0 <= i <= |s| - |pat| ==> Window(s, i, |pat|) != pat
  }

  /** A string that does not contain the pattern is left alone. */
  lemma {:induction false} RemoveAllAbsent(s: string, pat: string)
    requires |pat| > 0 && NoMatch(s, pat)
    ensures RemoveAll(s, pat) == s
    decreases |s|
  {
    if |s| >= |pat| {
      assert Window(s, 0, |pat|) == s[..|pat|];
      forall i | 0 <= i <= |s[1..]| - |pat| ensures Window(s[1..], i, |pat|) != pat {
        assert Window(s[1..], i, |pat|) == Window(s, i + 1, |pat|);
      }
      RemoveAllAbsent(s[1..], pat);
    }
  }

  /** Removing a pattern that occurs only as the suffix leaves the stem. */
  lemma {:induction false} RemoveAllSuffix(stem: string, pat: string)
    requires |pat| > 0
    requires forall i :: 0 <= i < |stem| ==> Window(stem + pat, i, |pat|) != pat
    ensures RemoveAll(stem + pat, pat) == stem
    decreases |stem|
  {
    var s := stem + pat;
    if stem == [] {
      assert s == pat;
      assert s[|pat|..] == [];
    } else {
      assert Window(s, 0, |pat|) == s[..|pat|];
      assert s[1..] == stem[1..] + pat;
      forall i | 0 <= i < |stem[1..]| ensures Window(stem[1..] + pat, i, |pat|) != pat {
        assert Window(stem[1..] + pat, i, |pat|) == Window(s, i + 1, |pat|);
      }
      RemoveAllSuffix(stem[1..], pat);
    }
  }

  /** A stem without the pattern's first character holds no occurrence before the suffix. */
  lemma OnlySuffixMatch(stem: string, pat: string)
    requires |pat| > 0 && pat[0] !in stem
    ensures forall i :: 0 <= i < |stem| ==> Window(stem + pat, i, |pat|) != pat
  {
    forall i | 0 <= i < |stem| ensures Window(stem + pat, i, |pat|) != pat {
      assert Window(stem + pat, i, |pat|)[0] == stem[i];
    }
  }

  /** Each value column label strips to its department name. */
  lemma StripLabel(k: nat)
    requires k < 4
    ensures RemoveAll(VALUE_VARS[k], SUFFIX) == DEPARTMENTS[k]
  {
    OnlySuffixMatch(DEPARTMENTS[k], SUFFIX);
    RemoveAllSuffix(DEPARTMENTS[k], SUFFIX);
  }

  /** The rows `melt` produces for one value column: one per wide row, in order. */
  function Block(wide: seq<WideRow>, k: nat): seq<MeltedRow>
    requires k < 4
  {
    seq(|wide|, r requires 0 <= r < |wide| => MeltedRow(wide[r].ids, VALUE_VARS[k], DeptCount(wide[r], k)))
  }

  /** `df.melt(id_vars=ID_VARS, value_vars=VALUE_VARS, ...)`: department-major. */
  function Melt(wide: seq<WideRow>): (r: seq<MeltedRow>)
    ensures |r| == 4 * |wide|
  {
    Block(wide, 0) + Block(wide, 1) + Block(wide, 2) + Block(wide, 3)
  }

  /** `df["Department"].str.replace(" Enrolled", "", regex=False)`. */
  function StripDepartments(m: seq<MeltedRow>): (r: seq<MeltedRow>)
    ensures |r| == |m|
    ensures forall i :: 0 <= i < |r| ==>
      && r[i].ids == m[i].ids
      && r[i].enrollmentsDept == m[i].enrollmentsDept
      && |r[i].department| <= |m[i].department|
  {
    seq(|m|, i requires 0 <= i < |m| => m[i].(department := RemoveAll(m[i].department, SUFFIX)))
  }

  /** `df["Enrollments"] = df["EnrollmentsDept"]`. */
  function AddEnrollments(m: seq<MeltedRow>): (r: seq<LongRow>)
    ensures |r| == |m|
    ensures forall i :: 0 <= i < |r| ==>
      && r[i].enrollments == r[i].enrollmentsDept == m[i].enrollmentsDept
      && r[i].ids == m[i].ids && r[i].department == m[i].department
  {
    seq(|m|, i requires 0 <= i < |m| => LongRow(m[i].ids, m[i].department, m[i].enrollmentsDept, m[i].enrollmentsDept))
  }

  /** `df.rename(columns=renames)`. */
  function Rename(columns: seq<string>, renames: map<string, string>): (r: seq<string>)
    ensures |r| == |columns|
    ensures forall i :: 0 <= i < |r| ==>
      && (columns[i] in renames ==> r[i] == renames[columns[i]])
      && (columns[i] !in renames ==> r[i] == columns[i])
    ensures forall c :: c in columns && c !in renames ==> c in r
  {
    seq(|columns|, i requires 0 <= i < |columns| => if columns[i] in renames then renames[columns[i]] else columns[i])
  }

  /** The labels after assigning to `df[name]`: a new column goes last. */
  function WithColumn(columns: seq<string>, name: string): seq<string> {
    if name in columns then columns else columns + [name]
  }

  /** The column labels of the reshaped table. */
  function ReshapedColumns(): seq<string> {
    WithColumn(Rename(ID_VARS + [VAR_NAME, VALUE_NAME], RENAMES), ENROLLMENTS)
  }

  /** The reshaped table's column labels, spelled out. */
  lemma ReshapedColumnsSpelled()
    ensures ReshapedColumns()
         == ["Year", "Term", "Applications", "Admitted", "Enrolled", "RetentionRate", "SatisfactionScore",
             "Department", "EnrollmentsDept", "Enrollments"]
  {
    var renamed := Rename(ID_VARS + [VAR_NAME, VALUE_NAME], RENAMES);
    assert renamed == ["Year", "Term", "Applications", "Admitted", "Enrolled", "RetentionRate",
                       "SatisfactionScore", "Department", "EnrollmentsDept"];
  }

  /** The whole reshape of lines 42-60. */
  function Reshape(wide: seq<WideRow>): (r: Frame)
    ensures |r.rows| == 4 * |wide|
    ensures forall i :: 0 <= i < |r.rows| ==> r.rows[i].enrollments == r.rows[i].enrollmentsDept
  {
    Frame(ReshapedColumns(), AddEnrollments(StripDepartments(Melt(wide))))
  }

  /**
   * Row k*R + r of the long table comes from wide row r and department k:
   * it carries that row's id fields, the department's name and its count,
   * in both `EnrollmentsDept` and `Enrollments`.
   */
  lemma ReshapeAt(wide: seq<WideRow>, k: nat, r: nat)
    requires k < 4 && r < |wide|
    ensures |Reshape(wide).rows| == 4 * |wide|
    ensures Reshape(wide).rows[k * |wide| + r]
         == LongRow(wide[r].ids, DEPARTMENTS[k], DeptCount(wide[r], k), DeptCount(wide[r], k))
  {
    var i := k * |wide| + r;
    MeltAt(wide, k, r, i);
    StripLabel(k);
    var row := Reshape(wide).rows[i];
    assert row.ids == wide[r].ids;
    assert row.department == DEPARTMENTS[k];
    assert row.enrollmentsDept == DeptCount(wide[r], k);
    assert row.enrollments == DeptCount(wide[r], k);
  }

  lemma MeltAt(wide: seq<WideRow>, k: nat, r: nat, i: nat)
    requires k < 4 && r < |wide| && i == k * |wide| + r
    ensures |Melt(wide)| == 4 * |wide| && i < 4 * |wide|
    ensures Melt(wide)[i] == MeltedRow(wide[r].ids, VALUE_VARS[k], DeptCount(wide[r], k))
  {
    var n := |wide|;
    var b0, b1, b2, b3 := Block(wide, 0), Block(wide, 1), Block(wide, 2), Block(wide, 3);
    assert Melt(wide) == b0 + b1 + b2 + b3;
    if k == 0 {
      assert i == r;
      assert (b0 + b1 + b2 + b3)[i] == b0[r];
    } else if k == 1 {
      assert i == n + r;
      assert (b0 + b1 + b2 + b3)[i] == b1[r];
    } else if k == 2 {
      assert i == 2 * n + r;
      assert (b0 + b1 + b2 + b3)[i] == b2[r];
    } else {
      assert i == 3 * n + r;
      assert (b0 + b1 + b2 + b3)[i] == b3[r];
    }
  }

  /** Every long row is labelled with one of the four department names. */
  lemma ReshapeDepartmentNames(wide: seq<WideRow>, i: nat)
    requires i < |Reshape(wide).rows|
    ensures Reshape(wide).rows[i].department in DEPARTMENTS
    ensures Reshape(wide).rows[i].enrollments == Reshape(wide).rows[i].enrollmentsDept
  {
    var n := |wide|;
    var m := Melt(wide);
    var k: nat := if i < n then 0 else if i < 2 * n then 1 else if i < 3 * n then 2 else 3;
    assert m[i].department == VALUE_VARS[k];
    StripLabel(k);
  }
}
