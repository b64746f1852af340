/**
 * What the two queries return when run against a report's view, taken as an
 * already ordered sequence of rows (the ORDER BY is applied by the database
 * before LIMIT/OFFSET). `column(row, name)` reads one column of a row.
 * This fixes the meaning of a bound predicate; executing SQL is not modelled.
 */
module View {
  import opened Wrappers
  import opened Sql
  import Paging
  import Schema

  /** One condition on one column value; a missing value never matches. */
  predicate Holds(v: Option<Value>, op: Op, bound: Value)
  {
    match v
    case None => false
    case Some(a) =>
      match op
      case Eq => a == bound
      case Ge => a.Num? && bound.Num? && a.x >= bound.x
      case Gt => a.Num? && bound.Num? && a.x > bound.x
  }

  /** The conjunction of all the conditions (the empty predicate holds of every row). */
  predicate Satisfies<R>(row: R, column: (R, string) -> Option<Value>, conds: seq<Cond>)
  {
    forall i :: 0 <= i < |conds| ==> Holds(column(row, conds[i].column), conds[i].op, conds[i].value)
  }

  /** The rows of the view that satisfy the predicate, in view order. */
  function Matching<R(==)>(view: seq<R>, column: (R, string) -> Option<Value>, conds: seq<Cond>): (rows: seq<R>)
    ensures |rows| <= |view|
    ensures forall r :: r in rows ==> r in view && Satisfies(r, column, conds)
    ensures forall r :: r in view && Satisfies(r, column, conds) ==> r in rows
  {
    if view == [] then []
    else
      var rest := Matching(view[1..], column, conds);
      assert forall r :: r in view ==> r == view[0] || r in view[1..];
      (if Satisfies(view[0], column, conds) then [view[0]] else []) + rest
  }

  /** A bound LIMIT or OFFSET value as a row count. */
  function AsCount(v: Value): Option<nat>
  {
    if v.Num? && v.x >= 0.0 && Schema.IsInteger(v.x) then Some(v.x.Floor) else None
  }

  /**
   * The rows the paged select returns; None when the query cannot be bound.
   * It returns at most `limit` rows of the view, each satisfying the bound predicate.
   */
  function RunSelect<R(==)>(view: seq<R>, column: (R, string) -> Option<Value>, q: Select): (r: Option<seq<R>>)
    ensures r.Some? ==> SelectMeaning(q).Some? && AsCount(SelectMeaning(q).value.limit).Some?
    ensures r.Some? ==> |r.value| <= AsCount(SelectMeaning(q).value.limit).value && |r.value| <= |view|
    ensures r.Some? ==> forall x :: x in r.value ==> x in view && Satisfies(x, column, SelectMeaning(q).value.conds)
  {
    match SelectMeaning(q)
    case None => None
    case Some(m) =>
      match (AsCount(m.limit), AsCount(m.offset))
      case (Some(limit), Some(offset)) =>
        var matching := Matching(view, column, m.conds);
        var page := Paging.Window(matching, offset, limit);
        assert forall x :: x in page ==> x in matching by {
          forall x | x in page ensures x in matching {
            var i :| 0 <= i < |page| && page[i] == x;
            assert x == matching[offset + i];
          }
        }
        Some(page)
      case _ => None
  }

  /** The number the count query returns; None when the query cannot be bound. It never exceeds the view's size. */
  function RunCount<R(==)>(view: seq<R>, column: (R, string) -> Option<Value>, q: Count): (n: Option<nat>)
    ensures n.Some? <==> CountMeaning(q).Some?
    ensures n.Some? ==> n.value <= |view|
  {
    match CountMeaning(q)
    case None => None
    case Some(conds) => Some(|Matching(view, column, conds)|)
  }

  /** Rows in non-increasing order of `key`: the order `ORDER BY key DESC` produces. */
  predicate Descending<R>(rows: seq<R>, key: R -> int)
  {
    forall i, j :: 0 <= i < j < |rows| ==> key(rows[i]) >= key(rows[j])
  }

  /** Filtering keeps the view's order: the matching rows of a descending view are descending. */
  lemma {:induction false} MatchingKeepsOrder<R>(view: seq<R>, column: (R, string) -> Option<Value>,
                                                     conds: seq<Cond>, key: R -> int)
    requires Descending(view, key)
    ensures Descending(Matching(view, column, conds), key)
  {
    if view != [] {
      var tail := view[1..];
      assert Descending(tail, key) by {
        forall i, j | 0 <= i < j < |tail| ensures key(tail[i]) >= key(tail[j]) {
          assert tail[i] == view[i + 1] && tail[j] == view[j + 1];
        }
      }
      MatchingKeepsOrder(tail, column, conds, key);
      var rest := Matching(tail, column, conds);
      var m := Matching(view, column, conds);
      if Satisfies(view[0], column, conds) {
        assert m == [view[0]] + rest;
        forall i, j | 0 <= i < j < |m| ensures key(m[i]) >= key(m[j]) {
          if i == 0 {
            assert m[j] == rest[j - 1] && rest[j - 1] in tail;
            var k :| 0 <= k < |tail| && tail[k] == rest[j - 1];
            assert tail[k] == view[k + 1];
          } else {
            assert m[i] == rest[i - 1] && m[j] == rest[j - 1];
          }
        }
      } else {
        assert m == rest;
      }
    }
  }

  /** The rows the select returns from a view in descending order are in descending order. */
  lemma SelectKeepsOrder<R>(view: seq<R>, column: (R, string) -> Option<Value>, q: Select, key: R -> int)
    requires Descending(view, key)
    ensures RunSelect(view, column, q).Some? ==> Descending(RunSelect(view, column, q).value, key)
  {
    if RunSelect(view, column, q).Some? {
      var m := SelectMeaning(q).value;
      var matching := Matching(view, column, m.conds);
      MatchingKeepsOrder(view, column, m.conds, key);
      var page := RunSelect(view, column, q).value;
      assert page == Paging.Window(matching, AsCount(m.offset).value, AsCount(m.limit).value);
      forall i, j | 0 <= i < j < |page| ensures key(page[i]) >= key(page[j]) {
        assert page[i] == matching[AsCount(m.offset).value + i];
        assert page[j] == matching[AsCount(m.offset).value + j];
      }
    }
  }

  /**
   * For a consistent pair of queries, the count is the number of rows
   * matching the predicate and the page is the window of exactly those rows.
   */
  lemma ConsistentQueriesAgree<R>(view: seq<R>, column: (R, string) -> Option<Value>, sel: Select, cnt: Count,
                                      conds: seq<Cond>, limit: nat, offset: nat)
    requires Consistent(sel, cnt, conds, limit, offset)
    ensures RunCount(view, column, cnt) == Some(|Matching(view, column, conds)|)
    ensures RunSelect(view, column, sel) == Some(Paging.Window(Matching(view, column, conds), offset, limit))
  {
    assert Schema.IsInteger(limit as real) && Schema.IsInteger(offset as real);
  }

  /**
   * The page and the total shown beside it describe the same rows: the page
   * holds at most `limit` rows, all of them satisfying the predicate the
   * count counted, never more rows than the count, and it is non-empty
   * exactly when `page <= totalPages`.
   */
  lemma PageAgreesWithCount<R>(view: seq<R>, column: (R, string) -> Option<Value>, sel: Select, cnt: Count,
                                   conds: seq<Cond>, page: int, limit: int)
    requires page >= 1 && limit > 0
    requires Consistent(sel, cnt, conds, limit, Paging.Offset(page, limit))
    ensures RunCount(view, column, cnt).Some? && RunSelect(view, column, sel).Some?
    ensures var total, rows := RunCount(view, column, cnt).value, RunSelect(view, column, sel).value;
            && |rows| <= limit
            && |rows| <= total
            && (|rows| > 0 <==> page <= Paging.TotalPages(total, limit))
            && forall r :: r in rows ==> Satisfies(r, column, conds)
  {
    ConsistentQueriesAgree(view, column, sel, cnt, conds, limit, Paging.Offset(page, limit));
    Paging.PageStartsInside(|Matching(view, column, conds)|, page, limit);
    WindowSatisfies(view, column, conds, Paging.Offset(page, limit), limit);
  }

  /** Every row of a window of the matching rows satisfies the predicate. */
  lemma WindowSatisfies<R>(view: seq<R>, column: (R, string) -> Option<Value>, conds: seq<Cond>,
                           offset: nat, limit: nat)
    ensures forall r :: r in Paging.Window(Matching(view, column, conds), offset, limit) ==> Satisfies(r, column, conds)
  {
    var matching := Matching(view, column, conds);
    var rows := Paging.Window(matching, offset, limit);
    forall r | r in rows ensures Satisfies(r, column, conds) {
      var i :| 0 <= i < |rows| && rows[i] == r;
      assert r == matching[offset + i];
    }
  }
}
