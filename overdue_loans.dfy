/**
 * Report 2, overdue loans (view `vw_overdue_loans`): one numeric filter that
 * is always applied, `dias_atraso >= $1`, with LIMIT and OFFSET at $2 and $3.
 */
module OverdueLoans {
  import opened Wrappers
  import opened Sql
  import opened Schema
  import Paging
  import Kpi
  import View

  const ViewName := "vw_overdue_loans"
  const Columns := "loan_id, member_name, book_title, due_at, returned_at, dias_atraso"

  /** The decoded query parameters of a request; None when absent. */
  datatype Request = Request(diasMinimos: Option<real>, page: Option<real>, limit: Option<real>)

  datatype Params = Params(diasMinimos: int, page: int, limit: int)

  /** What the schema guarantees of validated parameters. */
  predicate Valid(p: Params)
  {
    0 <= p.diasMinimos <= 365 && p.page >= 1 && 5 <= p.limit <= 50
  }

  predicate DaysAccepted(v: Option<real>)
  {
    v.None? || (IsInteger(v.value) && 0.0 <= v.value <= 365.0)
  }

  /** `searchSchema.parse`: the minimum is an integer in 0..365 and defaults to 0. */
  function Parse(req: Request): (r: Result<Params, seq<Issue>>)
    ensures r.Success? <==> DaysAccepted(req.diasMinimos) && PageAccepted(req.page) && LimitAccepted(req.limit)
    ensures r.Success? ==> Valid(r.value)
    ensures r.Success? ==> && (req.diasMinimos.Some? ==> r.value.diasMinimos as real == req.diasMinimos.value)
                           && (req.diasMinimos.None? ==> r.value.diasMinimos == 0)
                           && r.value.page == PageOf(req.page) && r.value.limit == LimitOf(req.limit)
    ensures r.Failure? ==> r.error != [] && forall i :: 0 <= i < |r.error| ==>
              r.error[i].field in ["dias_minimos", "page", "limit"]
  {
    var issues := OptionalNumberIssues("dias_minimos", req.diasMinimos, true, 0.0, Some(365.0))
                  + PageIssues(req.page)
                  + LimitIssues(req.limit);
    if issues == [] then
      var dias := if req.diasMinimos.Some? then req.diasMinimos.value.Floor else 0;
      Success(Params(dias, PageOf(req.page), LimitOf(req.limit)))
    else
      Failure(issues)
  }

  /** The predicate: never empty, since the minimum always has a value; 0 keeps every overdue loan. */
  function Filters(p: Params): (fs: seq<Cond>)
    ensures fs != []
  {
    [Cond("dias_atraso", Ge, Num(p.diasMinimos as real))]
  }

  /**
   * The select as the page writes it, `$1` for the minimum, LIMIT `$2`, OFFSET
   * `$3`: the generic paged select of the predicate, so its placeholders are
   * `$1..$3` for its three bound values and once bound it means the minimum
   * with this page's limit and offset.
   */
  function PageQuery(p: Params): (q: Select)
    ensures q == PagedSelect(Columns, ViewName, Filters(p), "dias_atraso", Desc,
                             p.limit, Paging.Offset(p.page, p.limit))
    ensures Aligned(Placeholders(SelectTokens(q)), q.args)
    ensures SelectMeaning(q) == Some(Meaning(Filters(p), Num(p.limit as real),
                                             Num(Paging.Offset(p.page, p.limit) as real)))
  {
    var offset := Paging.Offset(p.page, p.limit);
    assert Numbered(Filters(p), 1) == [Clause("dias_atraso", Ge, Param(1))];
    assert ValuesOf(Filters(p)) == [Num(p.diasMinimos as real)];
    PagedSelectAligned(Columns, ViewName, Filters(p), "dias_atraso", Desc, p.limit, offset);
    PagedSelectMeaning(Columns, ViewName, Filters(p), "dias_atraso", Desc, p.limit, offset);
    Select(Columns, ViewName, [Clause("dias_atraso", Ge, Param(1))], "dias_atraso", Desc, 2, 3,
           [Num(p.diasMinimos as real), Num(p.limit as real), Num(offset as real)])
  }

  /**
   * The count as the page writes it, the same fragment with `[dias_minimos]`:
   * the generic count of the predicate, with `$1` bound and meaning the minimum.
   */
  function CountQuery(p: Params): (q: Count)
    ensures q == FilteredCount(ViewName, Filters(p))
    ensures Aligned(Placeholders(CountTokens(q)), q.args)
    ensures CountMeaning(q) == Some(Filters(p))
  {
    assert Numbered(Filters(p), 1) == [Clause("dias_atraso", Ge, Param(1))];
    assert ValuesOf(Filters(p)) == [Num(p.diasMinimos as real)];
    FilteredCountAligned(ViewName, Filters(p));
    FilteredCountMeaning(ViewName, Filters(p));
    Count(ViewName, [Clause("dias_atraso", Ge, Param(1))], [Num(p.diasMinimos as real)])
  }

  /**
   * The hand-numbered queries are the generic paged queries of the predicate,
   * so the placeholders line up with the values and both queries mean the
   * same filter.
   */
  lemma QueriesConsistent(p: Params)
    ensures PageQuery(p) == PagedSelect(Columns, ViewName, Filters(p), "dias_atraso", Desc,
                                        p.limit, Paging.Offset(p.page, p.limit))
    ensures CountQuery(p) == FilteredCount(ViewName, Filters(p))
    ensures Consistent(PageQuery(p), CountQuery(p), Filters(p), p.limit, Paging.Offset(p.page, p.limit))
  {
    PagedQueriesConsistent(Columns, ViewName, Filters(p), "dias_atraso", Desc,
                           p.limit, Paging.Offset(p.page, p.limit));
  }

  // ---------------------------------------------------------------------------
  // Rows and page-local indicators

  datatype Row = Row(loanId: int, memberName: string, bookTitle: string, dueAt: string,
                     returnedAt: Option<string>, diasAtraso: int)

  /** A row's columns by name; `returned_at` is missing while the loan is open. */
  function Column(r: Row, name: string): Option<Value>
  {
    if name == "loan_id" then Some(Num(r.loanId as real))
    else if name == "member_name" then Some(Str(r.memberName))
    else if name == "book_title" then Some(Str(r.bookTitle))
    else if name == "due_at" then Some(Str(r.dueAt))
    else if name == "returned_at" then (if r.returnedAt.Some? then Some(Str(r.returnedAt.value)) else None)
    else if name == "dias_atraso" then Some(Num(r.diasAtraso as real))
    else None
  }

  /** "Total Préstamos (Página n)": the number of rows on this page, not the total. */
  function TotalOverdue(rows: seq<Row>): (n: nat)
    ensures n == 0 <==> rows == []
    ensures n <= |rows|
  {
    |rows|
  }

  /**
   * "Días Promedio de Atraso": the sum of delays divided by `totalOverdue || 1`,
   * which is the guarded mean the other reports compute with a ternary.
   */
  function AvgDaysOverdue(rows: seq<Row>): (avg: real)
    ensures avg == Kpi.Average(rows, (r: Row) => r.diasAtraso as real)
  {
    var n := TotalOverdue(rows);
    Kpi.Sum(rows, (r: Row) => r.diasAtraso as real) / (if n == 0 then 1 else n) as real
  }

  /** On an empty page both indicators are 0. */
  lemma EmptyPageIndicators()
    ensures TotalOverdue([]) == 0 && AvgDaysOverdue([]) == 0.0
  {
  }

  /** When every row on the page is at least `d` days late, so is the page average. */
  lemma AvgAtLeastMinimum(rows: seq<Row>, d: int)
    requires rows != []
    requires forall i :: 0 <= i < |rows| ==> rows[i].diasAtraso >= d
    ensures AvgDaysOverdue(rows) >= d as real
  {
    var delay, floor := (r: Row) => r.diasAtraso as real, (r: Row) => d as real;
    Kpi.SumBounds(rows, floor, d as real, d as real);
    Kpi.SumDominated(rows, floor, delay);
    var n, avg := |rows| as real, AvgDaysOverdue(rows);
    assert avg * n == Kpi.Sum(rows, delay);
    assert (avg - d as real) * n >= 0.0;
    NonNegativeFactor(avg - d as real, n);
  }

  lemma NonNegativeFactor(x: real, n: real)
    requires n > 0.0 && x * n >= 0.0
    ensures x >= 0.0
  {
  }

  /**
   * Whatever the view holds, the rows the page query returns are at least
   * `dias_minimos` days late, there are no more of them than the count says,
   * and their average delay is at least `dias_minimos`.
   */
  lemma PageRespectsMinimum(view: seq<Row>, p: Params)
    requires Valid(p)
    ensures View.RunSelect(view, Column, PageQuery(p)).Some? && View.RunCount(view, Column, CountQuery(p)).Some?
    ensures var rows := View.RunSelect(view, Column, PageQuery(p)).value;
            && |rows| <= View.RunCount(view, Column, CountQuery(p)).value
            && (forall i :: 0 <= i < |rows| ==> rows[i].diasAtraso >= p.diasMinimos)
            && (rows != [] ==> AvgDaysOverdue(rows) >= p.diasMinimos as real)
  {
    QueriesConsistent(p);
    View.PageAgreesWithCount(view, Column, PageQuery(p), CountQuery(p), Filters(p), p.page, p.limit);
    var rows := View.RunSelect(view, Column, PageQuery(p)).value;
    forall i | 0 <= i < |rows| ensures rows[i].diasAtraso >= p.diasMinimos {
      assert View.Satisfies(rows[i], Column, Filters(p));
      assert View.Holds(Column(rows[i], "dias_atraso"), Ge, Num(p.diasMinimos as real));
    }
    if rows != [] {
      AvgAtLeastMinimum(rows, p.diasMinimos);
    }
  }

  /** Delays 15, 10 and 5 days with a minimum of 10: the loans at 15 and 10 days match. */
  lemma ScenarioMatching(a: Row, b: Row, c: Row)
    requires a.diasAtraso == 15 && b.diasAtraso == 10 && c.diasAtraso == 5
    ensures View.Matching([a, b, c], Column, Filters(Params(10, 1, 20))) == [a, b]
  {
    var conds := Filters(Params(10, 1, 20));
    assert View.Satisfies(a, Column, conds) && View.Satisfies(b, Column, conds);
    assert !View.Holds(Column(c, conds[0].column), conds[0].op, conds[0].value);
    assert [c][1..] == [];
    assert View.Matching([c], Column, conds) == [];
    assert View.Matching([b, c], Column, conds) == [b] by { assert [b, c][1..] == [c]; }
    assert [a, b, c][1..] == [b, c];
  }

  /** ... and their average delay is 12.5 days. */
  lemma ScenarioAverage(a: Row, b: Row)
    requires a.diasAtraso == 15 && b.diasAtraso == 10
    ensures AvgDaysOverdue([a, b]) == 12.5
  {
    var delay := (r: Row) => r.diasAtraso as real;
    Kpi.SumAppend([a], [b], delay);
    assert [a] + [b] == [a, b];
    assert Kpi.Sum([a], delay) == 15.0 by { assert [a][..0] == []; }
    assert Kpi.Sum([b], delay) == 10.0 by { assert [b][..0] == []; }
  }

  /** With limit 20 on page 1 the page shows both matching loans, the count is 2 and the average 12.5. */
  lemma TwoOfThreeScenario(a: Row, b: Row, c: Row)
    requires a.diasAtraso == 15 && b.diasAtraso == 10 && c.diasAtraso == 5
    ensures var p := Params(10, 1, 20);
            && View.RunSelect([a, b, c], Column, PageQuery(p)) == Some([a, b])
            && View.RunCount([a, b, c], Column, CountQuery(p)) == Some(2)
            && AvgDaysOverdue([a, b]) == 12.5
  {
    var p := Params(10, 1, 20);
    QueriesConsistent(p);
    View.ConsistentQueriesAgree([a, b, c], Column, PageQuery(p), CountQuery(p), Filters(p), 20, 0);
    ScenarioMatching(a, b, c);
    assert Paging.Window([a, b], 0, 20) == [a, b];
    ScenarioAverage(a, b);
  }

  // ---------------------------------------------------------------------------
  // Pagination links

  /**
   * `?dias_minimos=..&limit=..&page=..`: a browser following it sends the
   * minimum, the target page and the limit.
   */
  function LinkTo(p: Params, target: int): (link: Paging.Link)
    ensures Follow(link) == Request(Some(p.diasMinimos as real), Some(target as real), Some(p.limit as real))
  {
    var x, y, z := ("dias_minimos", Num(p.diasMinimos as real)), ("limit", Num(p.limit as real)), ("page", Num(target as real));
    Paging.LookupSingle(x, "dias_minimos");
    Paging.LookupSingle(x, "page");
    Paging.LookupSingle(x, "limit");
    Paging.LookupPair(y, z, "page");
    Paging.LookupPair(y, z, "limit");
    Paging.LookupAppend([x], [y, z], "dias_minimos");
    Paging.LookupAppend([x], [y, z], "page");
    Paging.LookupAppend([x], [y, z], "limit");
    [x] + [y, z]
  }

  /** The pagination block: `Paging.Navigation` with "Anterior" asking for page - 1 and "Siguiente" for page + 1. */
  function Pagination(p: Params, totalPages: int): (nav: Paging.Nav)
    ensures nav.Shown? && nav.prev.Some? ==> Follow(nav.prev.value).page == Some((p.page - 1) as real)
    ensures nav.Shown? && nav.next.Some? ==> Follow(nav.next.value).page == Some((p.page + 1) as real)
  {
    Paging.Navigation(p.page, totalPages, LinkTo(p, p.page - 1), LinkTo(p, p.page + 1))
  }

  /** The request a browser sends when the link is followed. */
  function Follow(link: Paging.Link): Request
  {
    Request(Paging.NumberParam(link, "dias_minimos"), Paging.NumberParam(link, "page"),
            Paging.NumberParam(link, "limit"))
  }

  /** Following a link to any page re-validates with the same minimum and limit. */
  lemma LinkKeepsFilters(p: Params, target: int)
    requires Valid(p) && target >= 1
    ensures Parse(Follow(LinkTo(p, target))) == Success(Params(p.diasMinimos, target, p.limit))
  {
    assert IsInteger(p.diasMinimos as real);
  }
}
