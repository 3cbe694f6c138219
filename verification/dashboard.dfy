/**
 * One run of the dashboard script, from the loaded CSV file to what the
 * page shows: the two early stops (no file, no row left after filtering)
 * and the figures computed on the filtered rows.
 */
module Dashboard {
  import opened Cells
  import opened Reshaper
  import opened Schema
  import opened Coercion
  import opened Filters
  import opened Aggregates

  /** What a run shows. */
  datatype Outcome =
      /** No CSV file could be read: an error, then the script stops. */
    | LoadFailed
      /** The selections leave no row: a warning, then the script stops. */
    | NoRows(missingColumns: seq<string>, options: Selection)
      /**
       * The filtered rows, the enrollment KPI as the code shows it, the
       * intended enrollment total, and the per-term totals.
       */
    | Report(
        missingColumns: seq<string>,
        options: Selection,
        filtered: seq<LongRow>,
        kpi: Kpi,
        totalEnrollments: int,
        termTotals: seq<(string, int)>)

  /**
   * The script from the load to the pie chart's data. `loaded` is what the
   * loader returns (None when no path can be read) and `sel` the sidebar's
   * three selections. A report carries both the KPI as line 115 computes it
   * (failing when every filtered Enrollments cell is missing) and the
   * intended total (0 in that case).
   */
  method Run(loaded: Option<seq<WideRow>>, sel: Selection) returns (out: Outcome)
    ensures out.LoadFailed? <==> loaded.None?
    ensures loaded.Some? ==>
      var rows := CoerceFrame(Reshape(loaded.value)).rows;
      && (out.NoRows? <==> Filter(rows, sel) == [])
      && out.missingColumns == []
      && out.options == DefaultSelection(rows)
      && (out.Report? ==>
            && out.filtered == Filter(rows, sel)
            && out.filtered != []
            && out.kpi == EnrollmentKpiAsWritten(out.filtered)
            && (out.kpi.Failed? <==> !HasEnrollment(out.filtered))
            && out.totalEnrollments == EnrollmentSum(out.filtered)
            && (out.kpi.Shown? ==> out.kpi.value == out.totalEnrollments)
            && out.termTotals == TermTotals(out.filtered))
  {
    if loaded.None? {
      return LoadFailed;
    }
    var df := Reshape(loaded.value);
    var missing := MissingColumns(df.columns);
    ReshapedSchemaComplete(loaded.value);
    df := CoerceIntColumns(df);
    var options := DefaultSelection(df.rows);
    var filtered := ApplyFilters(df.rows, sel);
    if filtered == [] {
      return NoRows(missing, options);
    }
    out := Report(missing, options, filtered, EnrollmentKpiAsWritten(filtered), EnrollmentKpi(filtered), TermTotals(filtered));
  }
}
