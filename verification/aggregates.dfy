/**
 * The integer aggregations over the filtered rows: the enrollment total of
 * the KPI block (line 115) and the enrollment totals per term behind the
 * pie chart (line 148).
 */
module Aggregates {
  import opened Cells
  import opened Ordering
  import opened Reshaper
  import opened Coercion
  import opened Filters

  /** The sum of the present Enrollments cells; missing cells add nothing. */
  function EnrollmentSum(rows: seq<LongRow>): int {
    if rows == [] then 0 else Contribution(rows[0].enrollments) + EnrollmentSum(rows[1..])
  }

  /** With no negative count present, the skipping sum is never negative. */
  lemma {:induction false} EnrollmentSumNonNegative(rows: seq<LongRow>)
    requires forall row :: row in rows && row.enrollments.Int? ==> row.enrollments.i >= 0
    ensures EnrollmentSum(rows) >= 0
  {
    if rows != [] {
      assert rows[0] in rows;
      assert forall row :: row in rows[1..] ==> row in rows;
      EnrollmentSumNonNegative(rows[1..]);
    }
  }

  predicate HasEnrollment(rows: seq<LongRow>) {
    exists row :: row in rows && row.enrollments.Int?
  }

  lemma {:induction false} EnrollmentSumAppend(a: seq<LongRow>, b: seq<LongRow>)
    ensures EnrollmentSum(a + b) == EnrollmentSum(a) + EnrollmentSum(b)
  {
    if a != [] {
      assert (a + b)[0] == a[0];
      assert (a + b)[1..] == a[1..] + b;
      EnrollmentSumAppend(a[1..], b);
    } else {
      assert a + b == b;
    }
  }

  /** With no present cell the skipping sum is 0: the case `min_count=1` tells apart. */
  lemma {:induction false} NoEnrollmentSumsToZero(rows: seq<LongRow>)
    requires !HasEnrollment(rows)
    ensures EnrollmentSum(rows) == 0
  {
    if rows != [] {
      assert rows[0] in rows;
      assert forall row :: row in rows[1..] ==> row in rows;
      NoEnrollmentSumsToZero(rows[1..]);
    }
  }

  /**
   * `df_f["Enrollments"].sum(min_count=1)`: the sum of the present cells,
   * and undefined (not 0) when no cell is present.
   */
  function TotalEnrollments(rows: seq<LongRow>): (r: Option<int>)
    ensures r.None? <==> forall row :: row in rows ==> !row.enrollments.Int?
    ensures r.Some? ==> r.value == EnrollmentSum(rows)
  {
    if HasEnrollment(rows) then Some(EnrollmentSum(rows)) else None
  }

  /** What the KPI block shows as the enrollment total, or that the block failed. */
  datatype Kpi = Shown(value: int) | Failed

  /**
   * Line 115 as written, `int(total or 0)`. When no cell is present the
   * total is NA (NaN in the float fallback): `NA or 0` raises, and `NaN or
   * 0` is NaN, on which `int` raises; either way the KPI block fails.
   */
  function EnrollmentKpiAsWritten(rows: seq<LongRow>): (r: Kpi)
    ensures r.Failed? <==> !HasEnrollment(rows)
    ensures r.Shown? ==> r.value == EnrollmentSum(rows)
  {
    match TotalEnrollments(rows)
    case Some(v) => Shown(if v != 0 then v else 0)
    case None => Failed
  }

  /** The enrollment KPI as intended: the sum of the present cells, 0 when none is present. */
  function EnrollmentKpi(rows: seq<LongRow>): (r: int)
    ensures r == EnrollmentSum(rows)
    ensures !HasEnrollment(rows) ==> r == 0
  {
    match TotalEnrollments(rows)
    case Some(v) => v
    case None => NoEnrollmentSumsToZero(rows); 0
  }

  /** One non-empty filtered table whose Enrollments are all missing makes the two differ. */
  lemma AllMissingEnrollmentsFailKpi(row: LongRow)
    requires row.enrollments.Missing?
    ensures EnrollmentKpiAsWritten([row]) == Failed
    ensures EnrollmentKpi([row]) == 0
  {
    assert !HasEnrollment([row]);
  }

  /** Wherever the total is defined, the intended KPI shows what the code shows. */
  lemma EnrollmentKpiAgrees(rows: seq<LongRow>)
    requires HasEnrollment(rows)
    ensures EnrollmentKpiAsWritten(rows) == Shown(EnrollmentKpi(rows))
  {
  }

  /** The sum of the present Enrollments cells of the rows whose Term is `t`. */
  function TermSum(rows: seq<LongRow>, t: string): (r: int)
    ensures (forall row :: row in rows && row.ids.term == Some(t) ==> !row.enrollments.Int?) ==> r == 0
  {
    if rows == [] then 0
    else
      assert forall row :: row in rows[1..] ==> row in rows;
      (if rows[0].ids.term == Some(t) then Contribution(rows[0].enrollments) else 0) + TermSum(rows[1..], t)
  }

  /** One (term, total) pair per key, in key order. */
  function Groups(rows: seq<LongRow>, keys: seq<string>): (r: seq<(string, int)>)
    ensures |r| == |keys|
    ensures forall i :: 0 <= i < |r| ==> r[i] == (keys[i], TermSum(rows, keys[i]))
  {
    if keys == [] then [] else [(keys[0], TermSum(rows, keys[0]))] + Groups(rows, keys[1..])
  }

  /** The keys of a grouping, in order. */
  function Keys(groups: seq<(string, int)>): (r: seq<string>)
    ensures |r| == |groups| && forall i :: 0 <= i < |r| ==> r[i] == groups[i].0
  {
    seq(|groups|, i requires 0 <= i < |groups| => groups[i].0)
  }

  /**
   * `df_f.groupby("Term", as_index=False)["Enrollments"].sum()`: one pair
   * per distinct present term, terms ascending, each with the sum of its
   * present Enrollments cells (a term whose cells are all missing sums to 0;
   * rows with a missing term are in no group).
   */
  function TermTotals(rows: seq<LongRow>): (r: seq<(string, int)>)
    ensures Ascending(StrLt, Keys(r))
    ensures forall i, j :: 0 <= i < j < |r| ==> r[i].0 != r[j].0
    ensures forall t :: t in Keys(r) <==> exists row :: row in rows && row.ids.term == Some(t)
    ensures forall i :: 0 <= i < |r| ==> r[i].1 == TermSum(rows, r[i].0)
  {
    var keys := TermOptions(rows);
    var r := Groups(rows, keys);
    assert Keys(r) == keys;
    r
  }

  /** The sum of the totals of a grouping. */
  function TotalOf(groups: seq<(string, int)>): int {
    if groups == [] then 0 else groups[0].1 + TotalOf(groups[1..])
  }

  /** The sum of the present Enrollments cells of the rows whose term is among `keys`. */
  function KeysSum(rows: seq<LongRow>, keys: seq<string>): int {
    if rows == [] then 0
    else
      (if rows[0].ids.term.Some? && rows[0].ids.term.value in keys then Contribution(rows[0].enrollments) else 0)
      + KeysSum(rows[1..], keys)
  }

  /** The sum of the present Enrollments cells of the rows that have a term. */
  function TermedSum(rows: seq<LongRow>): int {
    if rows == [] then 0
    else (if rows[0].ids.term.Some? then Contribution(rows[0].enrollments) else 0) + TermedSum(rows[1..])
  }

  lemma {:induction false} SplitKey(rows: seq<LongRow>, k: string, keys: seq<string>)
    requires k !in keys
    ensures KeysSum(rows, [k] + keys) == TermSum(rows, k) + KeysSum(rows, keys)
  {
    if rows != [] {
      SplitKey(rows[1..], k, keys);
    }
  }

  lemma {:induction false} GroupsPartition(rows: seq<LongRow>, keys: seq<string>)
    requires forall i, j :: 0 <= i < j < |keys| ==> keys[i] != keys[j]
    ensures TotalOf(Groups(rows, keys)) == KeysSum(rows, keys)
  {
    if keys == [] {
      KeysSumNone(rows);
    } else {
      GroupsPartition(rows, keys[1..]);
      assert keys == [keys[0]] + keys[1..];
      SplitKey(rows, keys[0], keys[1..]);
    }
  }

  lemma {:induction false} KeysSumNone(rows: seq<LongRow>)
    ensures KeysSum(rows, []) == 0
  {
    if rows != [] {
      KeysSumNone(rows[1..]);
    }
  }

  lemma {:induction false} KeysSumCovering(rows: seq<LongRow>, keys: seq<string>)
    requires forall row :: row in rows && row.ids.term.Some? ==> row.ids.term.value in keys
    ensures KeysSum(rows, keys) == TermedSum(rows)
  {
    if rows != [] {
      assert forall row :: row in rows[1..] ==> row in rows;
      assert rows[0] in rows;
      KeysSumCovering(rows[1..], keys);
    }
  }

  /**
   * Grouping loses nothing but the rows without a term: the term totals add
   * up to the sum of the present Enrollments cells of the rows that have one.
   */
  lemma TermTotalsAddUp(rows: seq<LongRow>)
    ensures TotalOf(TermTotals(rows)) == TermedSum(rows)
  {
    var keys := TermOptions(rows);
    GroupsPartition(rows, keys);
    forall row | row in rows && row.ids.term.Some? ensures row.ids.term.value in keys {
      assert exists r :: r in rows && r.ids.term == Some(row.ids.term.value);
    }
    KeysSumCovering(rows, keys);
  }

  lemma {:induction false} TermedSumAll(rows: seq<LongRow>)
    requires forall row :: row in rows ==> row.ids.term.Some?
    ensures TermedSum(rows) == EnrollmentSum(rows)
  {
    if rows != [] {
      assert rows[0] in rows;
      assert forall row :: row in rows[1..] ==> row in rows;
      TermedSumAll(rows[1..]);
    }
  }

  /**
   * When every row has a term, the pie chart's slices add up to the KPI
   * total, and the min_count=1 total is defined exactly when some cell is
   * present.
   */
  lemma TermTotalsMatchTotal(rows: seq<LongRow>)
    requires forall row :: row in rows ==> row.ids.term.Some?
    ensures TotalOf(TermTotals(rows)) == EnrollmentKpi(rows)
    ensures HasEnrollment(rows) ==> TotalEnrollments(rows) == Some(TotalOf(TermTotals(rows)))
  {
    TermTotalsAddUp(rows);
    TermedSumAll(rows);
  }

  /** The present-cell sum of coerced department column k of the CSV file. */
  function ColumnSum(wide: seq<WideRow>, k: nat): int
    requires k < 4
  {
    if wide == [] then 0 else Contribution(ToInt(DeptCount(wide[0], k))) + ColumnSum(wide[1..], k)
  }

  /** The present-cell sum of all four coerced department columns, row by row. */
  function WideSum(wide: seq<WideRow>): int {
    if wide == [] then 0
    else
      Contribution(ToInt(wide[0].engineering)) + Contribution(ToInt(wide[0].business))
      + Contribution(ToInt(wide[0].arts)) + Contribution(ToInt(wide[0].science))
      + WideSum(wide[1..])
  }

  lemma {:induction false} WideSumByColumns(wide: seq<WideRow>)
    ensures WideSum(wide) == ColumnSum(wide, 0) + ColumnSum(wide, 1) + ColumnSum(wide, 2) + ColumnSum(wide, 3)
  {
    if wide != [] {
      WideSumByColumns(wide[1..]);
    }
  }

  lemma {:induction false} BlockSum(block: seq<LongRow>, wide: seq<WideRow>, k: nat)
    requires k < 4 && |block| == |wide|
    requires forall r :: 0 <= r < |block| ==> block[r].enrollments == ToInt(DeptCount(wide[r], k))
    ensures EnrollmentSum(block) == ColumnSum(wide, k)
  {
    if block != [] {
      BlockSum(block[1..], wide[1..], k);
    }
  }

  lemma CoercedBlock(wide: seq<WideRow>, rows: seq<LongRow>, n: nat, k: nat, lo: nat)
    requires rows == CoerceFrame(Reshape(wide)).rows && n == |wide|
    requires k < 4 && lo == k * n
    ensures |rows| == 4 * n && lo + n <= |rows|
    ensures EnrollmentSum(rows[lo..lo + n]) == ColumnSum(wide, k)
  {
    ReshapeLength(wide);
    assert lo + n <= 4 * n by {
      assert lo <= 3 * n;
    }
    var block := rows[lo..lo + n];
    forall r | 0 <= r < n ensures block[r].enrollments == ToInt(DeptCount(wide[r], k)) {
      CoercedReshapeAt(wide, k, r);
    }
    BlockSum(block, wide, k);
  }

  lemma ReshapeLength(wide: seq<WideRow>)
    ensures |CoerceFrame(Reshape(wide)).rows| == 4 * |wide|
  {
    assert |Melt(wide)| == 4 * |wide|;
  }

  /** The enrollment sum of four consecutive blocks of length n starting at l0, ..., l3. */
  lemma FourBlocks(rows: seq<LongRow>, n: nat, l0: nat, l1: nat, l2: nat, l3: nat)
    requires |rows| == 4 * n && l0 == 0 && l1 == n && l2 == 2 * n && l3 == 3 * n
    ensures EnrollmentSum(rows)
         == EnrollmentSum(rows[l0..l0 + n]) + EnrollmentSum(rows[l1..l1 + n])
          + EnrollmentSum(rows[l2..l2 + n]) + EnrollmentSum(rows[l3..l3 + n])
  {
    var front, back := rows[..l2], rows[l2..];
    SplitSum(rows, l2);
    SplitSum(front, n);
    assert front[..n] == rows[l0..l0 + n];
    assert front[n..] == rows[l1..l1 + n];
    SplitSum(back, n);
    assert back[..n] == rows[l2..l2 + n];
    assert back[n..] == rows[l3..l3 + n];
  }

  /** The skipping sum splits at any position. */
  lemma SplitSum(rows: seq<LongRow>, i: nat)
    requires i <= |rows|
    ensures EnrollmentSum(rows) == EnrollmentSum(rows[..i]) + EnrollmentSum(rows[i..])
  {
    assert rows == rows[..i] + rows[i..];
    EnrollmentSumAppend(rows[..i], rows[i..]);
  }

  /**
   * Before any filter, the enrollment total of the coerced long table is the
   * sum of every department count of the CSV file that coerces to an integer.
   */
  lemma ReshapeKeepsGrandTotal(wide: seq<WideRow>)
    ensures EnrollmentSum(CoerceFrame(Reshape(wide)).rows) == WideSum(wide)
  {
    var rows, n := CoerceFrame(Reshape(wide)).rows, |wide|;
    var l0, l1, l2, l3 := 0, n, 2 * n, 3 * n;
    CoercedBlock(wide, rows, n, 0, l0);
    CoercedBlock(wide, rows, n, 1, l1);
    CoercedBlock(wide, rows, n, 2, l2);
    CoercedBlock(wide, rows, n, 3, l3);
    FourBlocks(rows, n, l0, l1, l2, l3);
    WideSumByColumns(wide);
  }
}
