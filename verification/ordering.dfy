/**
 * The orders Python's `sorted` uses on the dashboard's keys (integers, and
 * strings compared code point by code point), and the sorted list of the
 * distinct values of a column: `sorted(col.unique())`.
 */
module Ordering {

  ghost predicate StrictTotalOrder<T(!new)>(lt: (T, T) -> bool) {
    && (forall a :: !lt(a, a))
    && (forall a, b, c :: lt(a, b) && lt(b, c) ==> lt(a, c))
    && (forall a, b :: a != b ==> lt(a, b) || lt(b, a))
  }

  function IntLt(a: int, b: int): bool {
    a < b
  }

  /** Python's `<` on `str`: lexicographic by code point, a proper prefix first. */
  predicate StrLt(a: string, b: string)
    ensures StrLt(a, b) ==> a != b
    ensures a < b ==> StrLt(a, b)
    decreases |a|
  {
    if |a| == 0 then |b| > 0
    else if |b| == 0 then false
    else if a[0] != b[0] then a[0] < b[0]
    else StrLt(a[1..], b[1..])
  }

  lemma {:induction false} StrLtIrreflexive(a: string)
    ensures !StrLt(a, a)
    decreases |a|
  {
    if |a| > 0 {
      StrLtIrreflexive(a[1..]);
    }
  }

  lemma {:induction false} StrLtTransitive(a: string, b: string, c: string)
    requires StrLt(a, b) && StrLt(b, c)
    ensures StrLt(a, c)
    decreases |a|
  {
    if |a| > 0 && a[0] == b[0] && b[0] == c[0] {
      StrLtTransitive(a[1..], b[1..], c[1..]);
    }
  }

  lemma {:induction false} StrLtConnected(a: string, b: string)
    requires a != b
    ensures StrLt(a, b) || StrLt(b, a)
    decreases |a|
  {
    if |a| > 0 && |b| > 0 && a[0] == b[0] {
      assert a == [a[0]] + a[1..] && b == [b[0]] + b[1..];
      StrLtConnected(a[1..], b[1..]);
    }
  }

  lemma StrLtIsStrictTotalOrder()
    ensures StrictTotalOrder(StrLt)
  {
    forall a: string ensures !StrLt(a, a) {
      StrLtIrreflexive(a);
    }
    forall a: string, b: string, c: string | StrLt(a, b) && StrLt(b, c)
      ensures StrLt(a, c)
    {
      StrLtTransitive(a, b, c);
    }
    forall a: string, b: string | a != b
      ensures StrLt(a, b) || StrLt(b, a)
    {
      StrLtConnected(a, b);
    }
  }

  lemma IntLtIsStrictTotalOrder()
    ensures StrictTotalOrder(IntLt)
  {
  }

  /** Strictly ascending: every earlier element is below every later one. */
  ghost predicate Ascending<T>(lt: (T, T) -> bool, s: seq<T>) {
    forall i, j :: 0 <= i < j < |s| ==> lt(s[i], s[j])
  }

  /** Under a strict order an ascending list holds no value twice. */
  lemma AscendingIsDistinct<T(!new)>(lt: (T, T) -> bool, s: seq<T>)
    requires StrictTotalOrder(lt) && Ascending(lt, s)
    ensures forall i, j :: 0 <= i < j < |s| ==> s[i] != s[j]
  {
  }

  /** Puts `x` into an ascending list, unless it is already there. */
  function Insert<T(==,!new)>(lt: (T, T) -> bool, x: T, s: seq<T>): (r: seq<T>)
    ensures forall y :: y in r <==> y == x || y in s
    ensures StrictTotalOrder(lt) && Ascending(lt, s) ==> Ascending(lt, r)
  {
    if s == [] then [x]
    else if x == s[0] then s
    else if lt(x, s[0]) then [x] + s
    else
      var t := Insert(lt, x, s[1..]);
      assert StrictTotalOrder(lt) && Ascending(lt, s) ==> forall y :: y in t ==> lt(s[0], y) by {
        if StrictTotalOrder(lt) && Ascending(lt, s) {
          forall y | y in t ensures lt(s[0], y) {
            if y != x {
              var k :| 0 <= k < |s[1..]| && s[1..][k] == y;
              assert s[k + 1] == y;
            }
          }
        }
      }
      [s[0]] + t
  }

  /** `sorted(set(xs))`: the distinct values of `xs`, in ascending order. */
  function SortedDistinct<T(==,!new)>(lt: (T, T) -> bool, xs: seq<T>): (r: seq<T>)
    ensures forall y :: y in r <==> y in xs
    ensures StrictTotalOrder(lt) ==> Ascending(lt, r)
  {
    if xs == [] then [] else Insert(lt, xs[0], SortedDistinct(lt, xs[1..]))
  }
}
