/**
 * The column check run after the reshape: which of the expected columns the
 * table lacks, listed in sorted order for the (non-fatal) warning.
 */
module Schema {
  import opened Ordering
  import opened Reshaper

  /** The expected column names, in the order the source lists them. */
  const EXPECTED_COLUMNS: seq<string> :=
    ["Year", "Department", "Term", "Applications", "Enrollments", "RetentionRate", "SatisfactionScore"]

  /** The expected names that are not among `columns`, in the order of EXPECTED_COLUMNS. */
  function Absent(expected: seq<string>, columns: seq<string>): (r: seq<string>)
    ensures forall c :: c in r <==> c in expected && c !in columns
  {
    if expected == [] then []
    else (if expected[0] in columns then [] else [expected[0]]) + Absent(expected[1..], columns)
  }

  /**
   * `sorted(expected_columns - set(df.columns))`: the missing names, each
   * once, in ascending order. An empty result means no warning is shown.
   */
  function MissingColumns(columns: seq<string>): (r: seq<string>)
    ensures forall c :: c in r <==> c in EXPECTED_COLUMNS && c !in columns
    ensures Ascending(StrLt, r)
    ensures forall i, j :: 0 <= i < j < |r| ==> r[i] != r[j]
  {
    var r := SortedDistinct(StrLt, Absent(EXPECTED_COLUMNS, columns));
    StrLtIsStrictTotalOrder();
    AscendingIsDistinct(StrLt, r);
    r
  }

  /** The reshape produces every expected column, so the warning never fires after it. */
  lemma ReshapedSchemaComplete(wide: seq<WideRow>)
    ensures forall c :: c in EXPECTED_COLUMNS ==> c in Reshape(wide).columns
    ensures MissingColumns(Reshape(wide).columns) == []
  {
    ReshapedColumnsSpelled();
  }
}
