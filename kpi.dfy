/**
 * The page-local indicators the reports show above their tables: sums,
 * averages guarded against an empty page, and counts of rows matching a
 * predicate. Every one of them is computed over the rows of the current
 * page only, never over the whole filtered result.
 */
module Kpi {

  /** `rows.reduce((acc, r) => acc + f(r), 0)`: a left fold starting at 0 (exact arithmetic). */
  function Sum<T>(rows: seq<T>, f: T -> real): real
  {
    if rows == [] then 0.0 else Sum(rows[..|rows| - 1], f) + f(rows[|rows| - 1])
  }

  /** Summing a page in two parts gives the same total: the fold order does not matter. */
  lemma {:induction false} SumAppend<T>(a: seq<T>, b: seq<T>, f: T -> real)
    ensures Sum(a + b, f) == Sum(a, f) + Sum(b, f)
    decreases |b|
  {
    if b == [] {
      assert a + b == a;
    } else {
      var b' := b[..|b| - 1];
      assert (a + b)[..|a + b| - 1] == a + b';
      assert (a + b)[|a + b| - 1] == b[|b| - 1];
      SumAppend(a, b', f);
    }
  }

  /** When every row contributes between lo and hi, the sum lies between |rows| * lo and |rows| * hi. */
  lemma {:induction false} SumBounds<T>(rows: seq<T>, f: T -> real, lo: real, hi: real)
    requires forall i :: 0 <= i < |rows| ==> lo <= f(rows[i]) <= hi
    ensures (|rows| as real) * lo <= Sum(rows, f) <= (|rows| as real) * hi
  {
    if rows != [] {
      var init := rows[..|rows| - 1];
      assert forall i :: 0 <= i < |init| ==> init[i] == rows[i];
      SumBounds(init, f, lo, hi);
    }
  }

  /** A sum never exceeds a sum of larger contributions. */
  lemma {:induction false} SumDominated<T>(rows: seq<T>, f: T -> real, g: T -> real)
    requires forall i :: 0 <= i < |rows| ==> f(rows[i]) <= g(rows[i])
    ensures Sum(rows, f) <= Sum(rows, g)
  {
    if rows != [] {
      var init := rows[..|rows| - 1];
      assert forall i :: 0 <= i < |init| ==> init[i] == rows[i];
      SumDominated(init, f, g);
    }
  }

  /** A sum of non-negative contributions is non-negative. */
  lemma {:induction false} SumNonNegative<T>(rows: seq<T>, f: T -> real)
    ensures (forall i :: 0 <= i < |rows| ==> f(rows[i]) >= 0.0) ==> Sum(rows, f) >= 0.0
  {
    if rows != [] && forall i :: 0 <= i < |rows| ==> f(rows[i]) >= 0.0 {
      var init := rows[..|rows| - 1];
      assert forall i :: 0 <= i < |init| ==> init[i] == rows[i];
      SumNonNegative(init, f);
    }
  }

  /** `rows.length > 0 ? sum / rows.length : 0`: the mean of f over the page, 0 on an empty page. */
  function Average<T>(rows: seq<T>, f: T -> real): (avg: real)
    ensures rows == [] ==> avg == 0.0
    ensures rows != [] ==> avg * (|rows| as real) == Sum(rows, f)
  {
    if |rows| > 0 then Sum(rows, f) / (|rows| as real) else 0.0
  }

  /** The mean of values that all lie in [lo, hi] lies in [lo, hi]. */
  lemma AverageBounds<T>(rows: seq<T>, f: T -> real, lo: real, hi: real)
    requires rows != []
    requires forall i :: 0 <= i < |rows| ==> lo <= f(rows[i]) <= hi
    ensures lo <= Average(rows, f) <= hi
  {
    SumBounds(rows, f, lo, hi);
    var n := |rows| as real;
    var avg := Average(rows, f);
    assert avg * n == Sum(rows, f);
  }

  /** `rows.filter(p).length`. */
  function CountWhere<T>(rows: seq<T>, p: T -> bool): (n: nat)
    ensures n <= |rows|
    ensures n == 0 <==> forall i :: 0 <= i < |rows| ==> !p(rows[i])
    ensures n == |rows| <==> forall i :: 0 <= i < |rows| ==> p(rows[i])
  {
    if rows == [] then 0
    else
      var rest := CountWhere(rows[1..], p);
      assert forall i :: 1 <= i < |rows| ==> rows[i] == rows[1..][i - 1];
      (if p(rows[0]) then 1 else 0) + rest
  }
}
