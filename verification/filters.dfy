/**
 * The sidebar's option lists (lines 88-90) and the filter chain of lines
 * 96-102: three selections, each applied only when it is non-empty, each
 * keeping the rows whose value is among the selected ones.
 */
module Filters {
  import opened Cells
  import opened Ordering
  import opened Reshaper

  /** Boolean indexing `s[mask]`: the elements satisfying `p`, in their original order. */
  function Where<T(!new)>(s: seq<T>, p: T -> bool): (r: seq<T>)
    ensures |r| <= |s|
    ensures forall x :: multiset(r)[x] == if p(x) then multiset(s)[x] else 0
    ensures forall x :: x in r <==> x in s && p(x)
  {
    if s == [] then []
    else
      assert s == [s[0]] + s[1..];
      (if p(s[0]) then [s[0]] else []) + Where(s[1..], p)
  }

  /** `idx` places the elements of `a`, in order, at increasing positions of `b`. */
  ghost predicate Embeds<T>(a: seq<T>, b: seq<T>, idx: seq<nat>) {
    && |idx| == |a|
    && (forall i :: 0 <= i < |idx| ==> idx[i] < |b| && a[i] == b[idx[i]])
    && (forall i, j :: 0 <= i < j < |idx| ==> idx[i] < idx[j])
  }

  /** `a` is an order-preserving subsequence of `b`. */
  ghost predicate IsSubsequence<T>(a: seq<T>, b: seq<T>) {
    exists idx :: Embeds(a, b, idx)
  }

  function Shift(idx: seq<nat>): (r: seq<nat>)
    ensures |r| == |idx| && forall i :: 0 <= i < |idx| ==> r[i] == idx[i] + 1
  {
    seq(|idx|, i requires 0 <= i < |idx| => idx[i] + 1)
  }

  lemma EmbedsCons<T>(a: seq<T>, b: seq<T>, x: T, idx: seq<nat>)
    requires Embeds(a, b, idx)
    ensures Embeds([x] + a, [x] + b, [0] + Shift(idx))
  {
    var a', b', idx' := [x] + a, [x] + b, [0] + Shift(idx);
    forall i | 0 < i < |idx'| ensures idx'[i] < |b'| && a'[i] == b'[idx'[i]] {
      assert idx'[i] == idx[i - 1] + 1 && a'[i] == a[i - 1];
    }
  }

  lemma EmbedsSkip<T>(a: seq<T>, b: seq<T>, x: T, idx: seq<nat>)
    requires Embeds(a, b, idx)
    ensures Embeds(a, [x] + b, Shift(idx))
  {
  }

  /** A weaker mask keeps everything a stronger one keeps, in the same order. */
  lemma {:induction false} WhereMonotone<T(!new)>(s: seq<T>, p: T -> bool, q: T -> bool) returns (idx: seq<nat>)
    requires forall x :: x in s && p(x) ==> q(x)
    ensures Embeds(Where(s, p), Where(s, q), idx)
  {
    if s == [] {
      idx := [];
    } else {
      var tail := WhereMonotone(s[1..], p, q);
      var wp, wq := Where(s[1..], p), Where(s[1..], q);
      if p(s[0]) {
        assert Where(s, p) == [s[0]] + wp && Where(s, q) == [s[0]] + wq;
        EmbedsCons(wp, wq, s[0], tail);
        idx := [0] + Shift(tail);
      } else if q(s[0]) {
        assert Where(s, p) == wp && Where(s, q) == [s[0]] + wq;
        EmbedsSkip(wp, wq, s[0], tail);
        idx := Shift(tail);
      } else {
        assert Where(s, p) == wp && Where(s, q) == wq;
        idx := tail;
      }
    }
  }

  lemma {:induction false} WhereAll<T(!new)>(s: seq<T>, p: T -> bool)
    requires forall x :: x in s ==> p(x)
    ensures Where(s, p) == s
  {
    if s != [] {
      WhereAll(s[1..], p);
      assert s == [s[0]] + s[1..];
    }
  }

  lemma {:induction false} WhereSame<T(!new)>(s: seq<T>, p: T -> bool, q: T -> bool)
    requires forall x :: x in s ==> p(x) == q(x)
    ensures Where(s, p) == Where(s, q)
  {
    if s != [] {
      WhereSame(s[1..], p, q);
    }
  }

  /** Two masks applied one after the other keep what their conjunction keeps. */
  lemma {:induction false} WhereFuse<T(!new)>(s: seq<T>, p: T -> bool, q: T -> bool, pq: T -> bool)
    requires forall x :: x in s ==> pq(x) == (p(x) && q(x))
    ensures Where(Where(s, p), q) == Where(s, pq)
  {
    if s != [] {
      WhereFuse(s[1..], p, q, pq);
      var rest := Where(s[1..], p);
      if p(s[0]) {
        assert Where(s, p) == [s[0]] + rest;
        assert Where(s, p)[1..] == rest;
      } else {
        assert Where(s, p) == rest;
      }
    }
  }

  /** The user's three multiselect choices; an empty one means "do not filter". */
  datatype Selection = Selection(years: seq<int>, departments: seq<string>, terms: seq<string>)

  /** `df_f["Year"].isin(years)`: a missing year is in no selection. */
  predicate YearIn(row: LongRow, years: seq<int>) {
    row.ids.year.Int? && row.ids.year.i in years
  }

  /** `df_f["Department"].isin(departments)`. */
  predicate DepartmentIn(row: LongRow, departments: seq<string>) {
    row.department in departments
  }

  /** `df_f["Term"].isin(terms)`: a missing term is in no selection. */
  predicate TermIn(row: LongRow, terms: seq<string>) {
    row.ids.term.Some? && row.ids.term.value in terms
  }

  /** The filter rule: per dimension, an empty selection or membership; all three must hold. */
  predicate Keep(row: LongRow, sel: Selection)
    ensures Keep(row, sel) && |sel.years| > 0 ==> row.ids.year.Int?
    ensures Keep(row, sel) && |sel.terms| > 0 ==> row.ids.term.Some?
    ensures sel == Selection([], [], []) ==> Keep(row, sel)
  {
    && (|sel.years| == 0 || YearIn(row, sel.years))
    && (|sel.departments| == 0 || DepartmentIn(row, sel.departments))
    && (|sel.terms| == 0 || TermIn(row, sel.terms))
  }

  /** The rows the dashboard shows and aggregates for a selection. */
  function Filter(rows: seq<LongRow>, sel: Selection): (r: seq<LongRow>)
    ensures forall row :: multiset(r)[row] == if Keep(row, sel) then multiset(rows)[row] else 0
    ensures forall row :: row in r <==> row in rows && Keep(row, sel)
    ensures forall row :: row in r ==>
      && (|sel.years| > 0 ==> row.ids.year.Int?)
      && (|sel.terms| > 0 ==> row.ids.term.Some?)
  {
    Where(rows, row => Keep(row, sel))
  }

  /** Lines 96-102: three guarded reassignments of `df_f`. */
  method ApplyFilters(df: seq<LongRow>, sel: Selection) returns (kept: seq<LongRow>)
    ensures kept == Filter(df, sel)
  {
    var yearOk := (row: LongRow) => |sel.years| == 0 || YearIn(row, sel.years);
    var deptOk := (row: LongRow) => |sel.departments| == 0 || DepartmentIn(row, sel.departments);
    var yearDeptOk := (row: LongRow) => yearOk(row) && deptOk(row);
    var inYears := (row: LongRow) => YearIn(row, sel.years);
    var inDepartments := (row: LongRow) => DepartmentIn(row, sel.departments);
    var inTerms := (row: LongRow) => TermIn(row, sel.terms);

    kept := df;
    if |sel.years| > 0 {
      kept := Where(kept, inYears);
      WhereSame(df, inYears, yearOk);
    } else {
      WhereAll(df, yearOk);
    }
    assert kept == Where(df, yearOk);

    if |sel.departments| > 0 {
      kept := Where(kept, inDepartments);
      WhereFuse(df, yearOk, inDepartments, yearDeptOk);
    } else {
      WhereSame(df, yearOk, yearDeptOk);
    }
    assert kept == Where(df, yearDeptOk);

    if |sel.terms| > 0 {
      kept := Where(kept, inTerms);
      WhereFuse(df, yearDeptOk, inTerms, row => Keep(row, sel));
    } else {
      WhereSame(df, yearDeptOk, row => Keep(row, sel));
    }
  }

  /** The filtered table is an order-preserving subsequence of its input. */
  lemma FilterIsSubsequence(rows: seq<LongRow>, sel: Selection)
    ensures IsSubsequence(Filter(rows, sel), rows)
  {
    var idx := WhereMonotone(rows, row => Keep(row, sel), row => true);
    WhereAll(rows, row => true);
  }

  /** With nothing selected in any dimension, every row stays, in order. */
  lemma FilterNoSelection(rows: seq<LongRow>)
    ensures Filter(rows, Selection([], [], [])) == rows
  {
    WhereAll(rows, row => Keep(row, Selection([], [], [])));
  }

  /** `small` selects a subset of `big` in every dimension, and empties none that `big` uses. */
  predicate Narrower(small: Selection, big: Selection) {
    && (forall y :: y in small.years ==> y in big.years)
    && (forall d :: d in small.departments ==> d in big.departments)
    && (forall t :: t in small.terms ==> t in big.terms)
    && (|small.years| == 0 ==> |big.years| == 0)
    && (|small.departments| == 0 ==> |big.departments| == 0)
    && (|small.terms| == 0 ==> |big.terms| == 0)
  }

  /**
   * Deselecting values never adds rows: the narrower selection keeps an
   * order-preserving subsequence of what the wider one keeps. (Emptying a
   * selection is excluded: an empty selection means "all".)
   */
  lemma FilterNarrowing(rows: seq<LongRow>, small: Selection, big: Selection)
    requires Narrower(small, big)
    ensures IsSubsequence(Filter(rows, small), Filter(rows, big))
  {
    var idx := WhereMonotone(rows, row => Keep(row, small), row => Keep(row, big));
  }

  /** Emptying a selection can add rows: the exception that Narrower rules out. */
  lemma ClearingSelectionWidens(a: LongRow, b: LongRow)
    requires a.ids.year == Int(2020) && b.ids.year == Int(2021)
    ensures |Filter([a, b], Selection([2020], [], []))| == 1
    ensures |Filter([a, b], Selection([], [], []))| == 2
  {
    FilterNoSelection([a, b]);
    var r := Filter([a, b], Selection([2020], [], []));
    assert multiset(r)[a] == 1 && multiset(r)[b] == 0;
    assert |multiset(r)| == 1 by {
      assert multiset(r) == multiset{a};
    }
  }

  /** The integer values present in a Year column. */
  function PresentYears(rows: seq<LongRow>): (r: seq<int>)
    ensures forall y :: y in r <==> exists row :: row in rows && row.ids.year == Int(y)
  {
    if rows == [] then []
    else
      assert forall row :: row in rows <==> row == rows[0] || row in rows[1..];
      (if rows[0].ids.year.Int? then [rows[0].ids.year.i] else []) + PresentYears(rows[1..])
  }

  /** The terms present (not missing) in a Term column. */
  function PresentTerms(rows: seq<LongRow>): (r: seq<string>)
    ensures forall t :: t in r <==> exists row :: row in rows && row.ids.term == Some(t)
  {
    if rows == [] then []
    else
      assert forall row :: row in rows <==> row == rows[0] || row in rows[1..];
      (if rows[0].ids.term.Some? then [rows[0].ids.term.value] else []) + PresentTerms(rows[1..])
  }

  /** `sorted(df["Year"].dropna().unique().tolist())`. */
  function YearOptions(rows: seq<LongRow>): (r: seq<int>)
    ensures Ascending(IntLt, r)
    ensures forall i, j :: 0 <= i < j < |r| ==> r[i] != r[j]
    ensures forall y :: y in r <==> exists row :: row in rows && row.ids.year == Int(y)
  {
    IntLtIsStrictTotalOrder();
    var r := SortedDistinct(IntLt, PresentYears(rows));
    AscendingIsDistinct(IntLt, r);
    r
  }

  /** `sorted(df["Department"].dropna().unique().tolist())`. */
  function DepartmentOptions(rows: seq<LongRow>): (r: seq<string>)
    ensures Ascending(StrLt, r)
    ensures forall i, j :: 0 <= i < j < |r| ==> r[i] != r[j]
    ensures forall d :: d in r <==> exists row :: row in rows && row.department == d
  {
    StrLtIsStrictTotalOrder();
    var departments := seq(|rows|, i requires 0 <= i < |rows| => rows[i].department);
    assert forall d :: d in departments <==> exists row :: row in rows && row.department == d by {
      forall d ensures d in departments <==> exists row :: row in rows && row.department == d {
        if d in departments {
          var i :| 0 <= i < |rows| && departments[i] == d;
          assert rows[i] in rows;
        }
        if exists row :: row in rows && row.department == d {
          var row :| row in rows && row.department == d;
          var i :| 0 <= i < |rows| && rows[i] == row;
          assert departments[i] == d;
        }
      }
    }
    var r := SortedDistinct(StrLt, departments);
    AscendingIsDistinct(StrLt, r);
    r
  }

  /** `sorted(df["Term"].dropna().unique().tolist())`. */
  function TermOptions(rows: seq<LongRow>): (r: seq<string>)
    ensures Ascending(StrLt, r)
    ensures forall i, j :: 0 <= i < j < |r| ==> r[i] != r[j]
    ensures forall t :: t in r <==> exists row :: row in rows && row.ids.term == Some(t)
  {
    StrLtIsStrictTotalOrder();
    var r := SortedDistinct(StrLt, PresentTerms(rows));
    AscendingIsDistinct(StrLt, r);
    r
  }

  /** The selections the sidebar starts with: every option of every list. */
  function DefaultSelection(rows: seq<LongRow>): (r: Selection)
    ensures |r.departments| > 0 <==> |rows| > 0
    ensures forall d :: d in r.departments <==> exists row :: row in rows && row.department == d
    ensures forall y :: y in r.years <==> exists row :: row in rows && row.ids.year == Int(y)
    ensures forall t :: t in r.terms <==> exists row :: row in rows && row.ids.term == Some(t)
  {
    assert rows != [] ==> rows[0].department in DepartmentOptions(rows);
    Selection(YearOptions(rows), DepartmentOptions(rows), TermOptions(rows))
  }

  /**
   * Under the default selections a row is shown exactly when its Year and
   * its Term are present, unless that column has no value at all (then its
   * selection is empty and does not filter).
   */
  lemma DefaultSelectionKeeps(rows: seq<LongRow>, row: LongRow)
    requires row in rows
    ensures var years, terms := YearOptions(rows), TermOptions(rows);
      (row in Filter(rows, DefaultSelection(rows)))
        <==> ((row.ids.year.Int? || years == []) && (row.ids.term.Some? || terms == []))
  {
    var sel := DefaultSelection(rows);
    assert row.department in sel.departments;
    if row.ids.year.Int? {
      assert row.ids.year.i in sel.years;
    }
    if row.ids.term.Some? {
      assert row.ids.term.value in sel.terms;
    }
  }

  /** On a table with every Year and Term present, the default selections show every row, in order. */
  lemma DefaultSelectionKeepsAll(rows: seq<LongRow>)
    requires forall row :: row in rows ==> row.ids.year.Int? && row.ids.term.Some?
    ensures Filter(rows, DefaultSelection(rows)) == rows
  {
    var sel := DefaultSelection(rows);
    forall row | row in rows ensures Keep(row, sel) {
      DefaultSelectionKeeps(rows, row);
    }
    WhereAll(rows, row => Keep(row, sel));
  }

  /**
   * The default selections can leave nothing: one row lacks a term and the
   * other a year, so each is dropped by the other's column.
   */
  lemma DefaultSelectionCanEmpty(a: LongRow, b: LongRow)
    requires a.ids.year.Int? && a.ids.term.None?
    requires b.ids.year.Missing? && b.ids.term.Some?
    ensures Filter([a, b], DefaultSelection([a, b])) == []
  {
    DefaultSelectionKeeps([a, b], a);
    DefaultSelectionKeeps([a, b], b);
    assert YearOptions([a, b]) != [] by {
      assert a.ids.year.i in YearOptions([a, b]);
    }
    assert TermOptions([a, b]) != [] by {
      assert b.ids.term.value in TermOptions([a, b]);
    }
  }
}
