/**
 * The type normalisation of lines 70-75: every integer column that exists
 * is replaced, cell by cell, by its coerced value. No row is added or
 * dropped and no other column changes.
 */
module Coercion {
  import opened Cells
  import opened Reshaper

  /** The columns the loop coerces to integers, in loop order. */
  const INT_COLUMNS: seq<string> := ["Year", "Applications", "Enrollments"]

  /** A cell of an integer column after coercion: missing or an integer. */
  predicate IsNumeric(c: Cell) {
    c.Missing? || c.Int?
  }

  /** One iteration of the loop, on one row: coerce the cell of column `col`. */
  function CoerceCell(row: LongRow, col: string): LongRow {
    if col == "Year" then row.(ids := row.ids.(year := ToInt(row.ids.year)))
    else if col == "Applications" then row.(ids := row.ids.(applications := ToInt(row.ids.applications)))
    else if col == "Enrollments" then row.(enrollments := ToInt(row.enrollments))
    else row
  }

  /** One iteration of the loop, on the whole column. */
  function CoerceColumn(rows: seq<LongRow>, col: string): seq<LongRow> {
    seq(|rows|, j requires 0 <= j < |rows| => CoerceCell(rows[j], col))
  }

  /**
   * A row once the integer columns named in `names` and present in
   * `columns` have been coerced; every other field is left as it was.
   */
  function CoerceRow(row: LongRow, columns: seq<string>, names: seq<string>): (r: LongRow)
    ensures r.department == row.department && r.enrollmentsDept == row.enrollmentsDept
    ensures r.ids.(year := Missing, applications := Missing) == row.ids.(year := Missing, applications := Missing)
    ensures "Year" in names && "Year" in columns ==> IsNumeric(r.ids.year)
    ensures "Applications" in names && "Applications" in columns ==> IsNumeric(r.ids.applications)
    ensures "Enrollments" in names && "Enrollments" in columns ==> IsNumeric(r.enrollments)
    ensures names == [] ==> r == row
  {
    var ids := row.ids;
    row.(
      ids := ids.(
        year := if "Year" in names && "Year" in columns then ToInt(ids.year) else ids.year,
        applications :=
          if "Applications" in names && "Applications" in columns then ToInt(ids.applications)
          else ids.applications),
      enrollments :=
        if "Enrollments" in names && "Enrollments" in columns then ToInt(row.enrollments)
        else row.enrollments)
  }

  /** The table after the whole loop. */
  function CoerceFrame(df: Frame): (r: Frame)
    ensures r.columns == df.columns && |r.rows| == |df.rows|
    ensures forall j :: 0 <= j < |r.rows| ==>
      && r.rows[j].department == df.rows[j].department
      && r.rows[j].enrollmentsDept == df.rows[j].enrollmentsDept
      && r.rows[j].ids.(year := Missing, applications := Missing) == df.rows[j].ids.(year := Missing, applications := Missing)
    ensures forall j :: 0 <= j < |r.rows| ==>
      && ("Year" in df.columns ==> IsNumeric(r.rows[j].ids.year))
      && ("Applications" in df.columns ==> IsNumeric(r.rows[j].ids.applications))
      && ("Enrollments" in df.columns ==> IsNumeric(r.rows[j].enrollments))
    ensures forall j :: 0 <= j < |r.rows| ==>
      && r.rows[j].ids.year == (if "Year" in df.columns then ToInt(df.rows[j].ids.year) else df.rows[j].ids.year)
      && r.rows[j].ids.applications
         == (if "Applications" in df.columns then ToInt(df.rows[j].ids.applications) else df.rows[j].ids.applications)
      && r.rows[j].enrollments
         == (if "Enrollments" in df.columns then ToInt(df.rows[j].enrollments) else df.rows[j].enrollments)
  {
    Frame(df.columns, seq(|df.rows|, j requires 0 <= j < |df.rows| => CoerceRow(df.rows[j], df.columns, INT_COLUMNS)))
  }

  /**
   * Lines 70-75: for each integer column, if the table has it, replace it by
   * its coerced values.
   */
  method CoerceIntColumns(df: Frame) returns (out: Frame)
    ensures out == CoerceFrame(df)
  {
    out := df;
    for c := 0 to |INT_COLUMNS|
      invariant out.columns == df.columns && |out.rows| == |df.rows|
      invariant forall j :: 0 <= j < |df.rows| ==> out.rows[j] == CoerceRow(df.rows[j], df.columns, INT_COLUMNS[..c])
    {
      var col := INT_COLUMNS[c];
      assert INT_COLUMNS[..c + 1] == INT_COLUMNS[..c] + [col];
      if col in out.columns {
        out := out.(rows := CoerceColumn(out.rows, col));
      }
    }
    assert INT_COLUMNS[..|INT_COLUMNS|] == INT_COLUMNS;
  }

  /** Coercing an already coerced table changes nothing. */
  lemma CoerceFrameIdempotent(df: Frame)
    ensures CoerceFrame(CoerceFrame(df)) == CoerceFrame(df)
  {
    var once := CoerceFrame(df);
    var twice := CoerceFrame(once);
    forall j | 0 <= j < |df.rows| ensures twice.rows[j] == once.rows[j] {
      ToIntIdempotent(df.rows[j].ids.year);
      ToIntIdempotent(df.rows[j].ids.applications);
      ToIntIdempotent(df.rows[j].enrollments);
    }
  }

  /**
   * On the reshaped table the three integer columns are all present: row
   * k*R + r holds wide row r's coerced Year and Applications and the
   * coerced count of department k, and keeps every other cell.
   */
  lemma CoercedReshapeAt(wide: seq<WideRow>, k: nat, r: nat)
    requires k < 4 && r < |wide|
    ensures |CoerceFrame(Reshape(wide)).rows| == 4 * |wide|
    ensures CoerceFrame(Reshape(wide)).rows[k * |wide| + r]
         == LongRow(wide[r].ids.(year := ToInt(wide[r].ids.year), applications := ToInt(wide[r].ids.applications)),
                    DEPARTMENTS[k], DeptCount(wide[r], k), ToInt(DeptCount(wide[r], k)))
  {
    ReshapeAt(wide, k, r);
    ReshapedColumnsSpelled();
  }

  /**
   * The four coerced long rows of wide row r carry, as Enrollments, the
   * coerced values of that row's four department counts, so their present
   * values add up to the row's coercible counts.
   */
  lemma CoercedReshapeKeepsRowCounts(wide: seq<WideRow>, r: nat)
    requires r < |wide|
    ensures |CoerceFrame(Reshape(wide)).rows| == 4 * |wide|
    ensures var rows, n := CoerceFrame(Reshape(wide)).rows, |wide|;
      Contribution(rows[r].enrollments) + Contribution(rows[n + r].enrollments)
        + Contribution(rows[2 * n + r].enrollments) + Contribution(rows[3 * n + r].enrollments)
      == Contribution(ToInt(wide[r].engineering)) + Contribution(ToInt(wide[r].business))
        + Contribution(ToInt(wide[r].arts)) + Contribution(ToInt(wide[r].science))
  {
    var n := |wide|;
    var e0 := CoercedEnrollmentsAt(wide, 0, r, r);
    var e1 := CoercedEnrollmentsAt(wide, 1, r, n + r);
    var e2 := CoercedEnrollmentsAt(wide, 2, r, 2 * n + r);
    var e3 := CoercedEnrollmentsAt(wide, 3, r, 3 * n + r);
  }

  lemma CoercedEnrollmentsAt(wide: seq<WideRow>, k: nat, r: nat, i: nat) returns (c: Cell)
    requires k < 4 && r < |wide| && i == k * |wide| + r
    ensures |CoerceFrame(Reshape(wide)).rows| == 4 * |wide| && i < 4 * |wide|
    ensures c == CoerceFrame(Reshape(wide)).rows[i].enrollments == ToInt(DeptCount(wide[r], k))
  {
    CoercedReshapeAt(wide, k, r);
    MeltAt(wide, k, r, i);
    c := ToInt(DeptCount(wide[r], k));
  }
}
