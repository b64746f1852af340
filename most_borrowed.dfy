/**
 * Report 1, most borrowed books (view `vw_most_borrowed_books`): an optional
 * category filter at `$1`; LIMIT and OFFSET follow at `$paramStart` and
 * `$paramStart + 1`, where `paramStart` is 2 with a category and 1 without.
 */
module MostBorrowed {
  import opened Wrappers
  import opened Sql
  import opened Schema
  import Paging
  import Kpi
  import View

  const AllowedCategories: seq<string> :=
    ["Novela", "Distopía", "Fábula", "Tecnología", "Clásico", "Historia", "Fantasía"]

  const ViewName := "vw_most_borrowed_books"
  const Columns := "book_id, titulo_libro, autor_libro, categoria, total_prestamos, posicion_ranking"

  /** The decoded query parameters of a request; None when absent. */
  datatype Request = Request(categoria: Option<string>, page: Option<real>, limit: Option<real>)

  /** The validated parameters; the category is kept as given, the empty string included. */
  datatype Params = Params(categoria: Option<string>, page: int, limit: int)

  /** What the schema guarantees of validated parameters. */
  predicate Valid(p: Params)
  {
    (!Truthy(p.categoria) || p.categoria.value in AllowedCategories) && p.page >= 1 && 5 <= p.limit <= 50
  }

  /** `searchSchema.parse`: a category passes when it is absent, empty or one of the seven allowed ones. */
  function Parse(req: Request): (r: Result<Params, seq<Issue>>)
    ensures r.Success? <==>
              && (req.categoria.None? || req.categoria.value == "" || req.categoria.value in AllowedCategories)
              && PageAccepted(req.page) && LimitAccepted(req.limit)
    ensures r.Success? ==> Valid(r.value)
    ensures r.Success? ==> && r.value.categoria == req.categoria
                           && r.value.page == PageOf(req.page) && r.value.limit == LimitOf(req.limit)
    ensures r.Failure? ==> r.error != [] && forall i :: 0 <= i < |r.error| ==>
              r.error[i].field in ["categoria", "page", "limit"]
  {
    var issues := AllowedIssues("categoria", req.categoria, AllowedCategories)
                  + PageIssues(req.page)
                  + LimitIssues(req.limit);
    if issues == [] then
      Success(Params(req.categoria, PageOf(req.page), LimitOf(req.limit)))
    else
      Failure(issues)
  }

  /** The predicate: `categoria = <category>` when a category is given, nothing when it is absent or empty. */
  function Filters(p: Params): (fs: seq<Cond>)
    ensures fs == [] <==> !Truthy(p.categoria)
    ensures forall i :: 0 <= i < |fs| ==> fs[i] == Cond("categoria", Eq, Str(p.categoria.value))
    ensures |fs| <= 1
  {
    if Truthy(p.categoria) then [Cond("categoria", Eq, Str(p.categoria.value))] else []
  }

  /**
   * `whereClause`: the category clause at `$1` when a category is given. It is
   * the predicate numbered from `$1`, so the category's placeholder finds the
   * category's value.
   */
  function WhereClause(p: Params): (wc: seq<Clause>)
    ensures wc == [] <==> !Truthy(p.categoria)
    ensures wc == Numbered(Filters(p), 1)
  {
    if Truthy(p.categoria) then
      assert Numbered(Filters(p), 1)[0] == Clause("categoria", Eq, Param(1));
      [Clause("categoria", Eq, Param(1))]
    else
      []
  }

  /**
   * `queryParams`: the category first when there is one, then limit and
   * offset, so that `$paramStart` finds the limit and `$paramStart + 1` the offset.
   */
  function QueryParams(p: Params): (qp: seq<Value>)
    ensures qp == ValuesOf(Filters(p)) + [Num(p.limit as real), Num(Paging.Offset(p.page, p.limit) as real)]
    ensures |qp| == ParamStart(p) + 1
    ensures qp[ParamStart(p) - 1] == Num(p.limit as real)
    ensures qp[ParamStart(p)] == Num(Paging.Offset(p.page, p.limit) as real)
  {
    var offset := Paging.Offset(p.page, p.limit);
    if Truthy(p.categoria) then
      assert ValuesOf(Filters(p)) == [Str(p.categoria.value)];
      [Str(p.categoria.value), Num(p.limit as real), Num(offset as real)]
    else
      assert ValuesOf(Filters(p)) == [];
      [Num(p.limit as real), Num(offset as real)]
  }

  /** `paramStart`: LIMIT's placeholder comes right after the predicate's placeholders. */
  function ParamStart(p: Params): (start: nat)
    ensures start == |Filters(p)| + 1
  {
    if Truthy(p.categoria) then 2 else 1
  }

  /**
   * The page query is the generic paged select of the predicate: its
   * placeholders are `$1..$n` for its n bound values, and once bound it means
   * the predicate with this page's limit and offset.
   */
  function PageQuery(p: Params): (q: Select)
    ensures q == PagedSelect(Columns, ViewName, Filters(p), "total_prestamos", Desc,
                             p.limit, Paging.Offset(p.page, p.limit))
    ensures Aligned(Placeholders(SelectTokens(q)), q.args)
    ensures SelectMeaning(q) == Some(Meaning(Filters(p), Num(p.limit as real),
                                             Num(Paging.Offset(p.page, p.limit) as real)))
  {
    var offset := Paging.Offset(p.page, p.limit);
    PagedSelectAligned(Columns, ViewName, Filters(p), "total_prestamos", Desc, p.limit, offset);
    PagedSelectMeaning(Columns, ViewName, Filters(p), "total_prestamos", Desc, p.limit, offset);
    Select(Columns, ViewName, WhereClause(p), "total_prestamos", Desc, ParamStart(p), ParamStart(p) + 1,
           QueryParams(p))
  }

  /**
   * The count query binds the category alone, or nothing: its placeholders are
   * `$1..$n` for its n bound values and it means the predicate.
   */
  function CountQuery(p: Params): (q: Count)
    ensures q == FilteredCount(ViewName, Filters(p))
    ensures Aligned(Placeholders(CountTokens(q)), q.args)
    ensures CountMeaning(q) == Some(Filters(p))
  {
    FilteredCountAligned(ViewName, Filters(p));
    FilteredCountMeaning(ViewName, Filters(p));
    assert ValuesOf(Filters(p)) == if Truthy(p.categoria) then [Str(p.categoria.value)] else [];
    Count(ViewName, WhereClause(p), if Truthy(p.categoria) then [Str(p.categoria.value)] else [])
  }

  lemma CategoryTokens()
    ensures WhereTokens([Clause("categoria", Eq, Param(1))])
            == [Word("WHERE"), Word("categoria"), Word("="), Placeholder(1)]
  {
  }

  /** The category fragment reads 'WHERE categoria = $1'. */
  lemma CategoryText()
    ensures Sql.WhereText([Clause("categoria", Eq, Param(1))]) == "WHERE categoria = $1"
  {
    var t3 := [Placeholder(1)];
    var t2 := [Word("=")] + t3;
    var t1 := [Word("categoria")] + t2;
    CategoryTokens();
    assert WhereTokens([Clause("categoria", Eq, Param(1))]) == [Word("WHERE")] + t1;
    assert Decimal(1) == "1";
    assert Render(t3) == "$1";
    RenderWord("=", t3);
    assert Render(t2) == "= $1";
    RenderWord("categoria", t2);
    assert Render(t1) == "categoria = $1";
    RenderWord("WHERE", t1);
    CategoryLiteral();
  }

  lemma CategoryLiteral()
    ensures "WHERE" + " " + "categoria = $1" == "WHERE categoria = $1"
  {
  }

  /** `whereClause` is 'WHERE categoria = $1' exactly when the category is non-empty, '' otherwise. */
  lemma WhereTextOf(p: Params)
    ensures Sql.WhereText(WhereClause(p)) == if Truthy(p.categoria) then "WHERE categoria = $1" else ""
  {
    if Truthy(p.categoria) {
      CategoryText();
    }
  }

  /**
   * The three ternaries agree with each other: the page's queries are the
   * generic paged queries of its predicate, so LIMIT and OFFSET find the
   * limit and the offset in both branches, and the count means the same filter.
   */
  lemma QueriesConsistent(p: Params)
    ensures PageQuery(p) == PagedSelect(Columns, ViewName, Filters(p), "total_prestamos", Desc,
                                        p.limit, Paging.Offset(p.page, p.limit))
    ensures CountQuery(p) == FilteredCount(ViewName, Filters(p))
    ensures Consistent(PageQuery(p), CountQuery(p), Filters(p), p.limit, Paging.Offset(p.page, p.limit))
  {
    PagedQueriesConsistent(Columns, ViewName, Filters(p), "total_prestamos", Desc,
                           p.limit, Paging.Offset(p.page, p.limit));
  }

  // ---------------------------------------------------------------------------
  // Rows and page-local indicators

  datatype Row = Row(bookId: int, tituloLibro: string, autorLibro: string, categoria: string,
                     totalPrestamos: int, posicionRanking: int)

  /** A row's columns by name. */
  function Column(r: Row, name: string): Option<Value>
  {
    if name == "book_id" then Some(Num(r.bookId as real))
    else if name == "titulo_libro" then Some(Str(r.tituloLibro))
    else if name == "autor_libro" then Some(Str(r.autorLibro))
    else if name == "categoria" then Some(Str(r.categoria))
    else if name == "total_prestamos" then Some(Num(r.totalPrestamos as real))
    else if name == "posicion_ranking" then Some(Num(r.posicionRanking as real))
    else None
  }

  /** Whatever the view holds, every book the page query returns is of the requested category. */
  lemma PageInCategory(view: seq<Row>, p: Params)
    requires Valid(p) && Truthy(p.categoria)
    ensures View.RunSelect(view, Column, PageQuery(p)).Some?
    ensures var rows := View.RunSelect(view, Column, PageQuery(p)).value;
            forall i :: 0 <= i < |rows| ==> rows[i].categoria == p.categoria.value
  {
    QueriesConsistent(p);
    View.PageAgreesWithCount(view, Column, PageQuery(p), CountQuery(p), Filters(p), p.page, p.limit);
    var rows := View.RunSelect(view, Column, PageQuery(p)).value;
    forall i | 0 <= i < |rows| ensures rows[i].categoria == p.categoria.value {
      assert View.Satisfies(rows[i], Column, Filters(p));
      assert View.Holds(Column(rows[i], "categoria"), Eq, Str(p.categoria.value));
    }
  }

  /** "Total Préstamos (Página n)": the loans of the books on this page. */
  function TotalLoans(rows: seq<Row>): (total: real)
    ensures rows == [] ==> total == 0.0
    ensures (forall i :: 0 <= i < |rows| ==> rows[i].totalPrestamos >= 0) ==> total >= 0.0
  {
    Kpi.SumNonNegative(rows, (r: Row) => r.totalPrestamos as real);
    Kpi.Sum(rows, (r: Row) => r.totalPrestamos as real)
  }

  /** `rows[0] ?? null`: the first book of the page, none on an empty page. */
  function TopBook(rows: seq<Row>): (top: Option<Row>)
    ensures top.None? <==> rows == []
    ensures top.Some? ==> top.value == rows[0]
  {
    if rows == [] then None else Some(rows[0])
  }

  /** Rows in `ORDER BY total_prestamos DESC` order. */
  predicate ByLoansDescending(rows: seq<Row>)
  {
    View.Descending(rows, (r: Row) => r.totalPrestamos)
  }

  /** On a page in the query's order, the top book has at least as many loans as any book on the page. */
  lemma TopBookIsMostBorrowed(rows: seq<Row>)
    requires ByLoansDescending(rows)
    ensures TopBook(rows).Some? ==> forall i :: 0 <= i < |rows| ==> rows[i].totalPrestamos <= TopBook(rows).value.totalPrestamos
  {
  }

  /**
   * Whatever the category, the page the select returns from a view in
   * `total_prestamos DESC` order is in that order too, so its top book has
   * the most loans on the page.
   */
  lemma TopBookOfPageIsMostBorrowed(view: seq<Row>, p: Params)
    requires ByLoansDescending(view)
    ensures View.RunSelect(view, Column, PageQuery(p)).Some? ==>
              var rows := View.RunSelect(view, Column, PageQuery(p)).value;
              && ByLoansDescending(rows)
              && (TopBook(rows).Some? ==>
                    forall i :: 0 <= i < |rows| ==> rows[i].totalPrestamos <= TopBook(rows).value.totalPrestamos)
  {
    View.SelectKeepsOrder(view, Column, PageQuery(p), (r: Row) => r.totalPrestamos);
    if View.RunSelect(view, Column, PageQuery(p)).Some? {
      TopBookIsMostBorrowed(View.RunSelect(view, Column, PageQuery(p)).value);
    }
  }

  /** With non-negative loan counts the page total is at least the top book's loans. */
  lemma TotalLoansCoversTopBook(rows: seq<Row>)
    requires forall i :: 0 <= i < |rows| ==> rows[i].totalPrestamos >= 0
    ensures TopBook(rows).Some? ==> TotalLoans(rows) >= TopBook(rows).value.totalPrestamos as real
  {
    if rows != [] {
      var loans := (r: Row) => r.totalPrestamos as real;
      Kpi.SumAppend([rows[0]], rows[1..], loans);
      assert [rows[0]] + rows[1..] == rows;
      assert Kpi.Sum([rows[0]], loans) == loans(rows[0]) by { assert [rows[0]][..0] == []; }
      assert forall i :: 0 <= i < |rows[1..]| ==> rows[1..][i] == rows[i + 1];
      Kpi.SumNonNegative(rows[1..], loans);
    }
  }

  // ---------------------------------------------------------------------------
  // Pagination links

  /**
   * `?categoria=<category or ''>&limit=..&page=..`: a browser following it
   * sends the category (empty when there is none), the limit and the target page.
   */
  function LinkTo(p: Params, target: int): (link: Paging.Link)
    ensures Follow(link) == Request(Some(if Truthy(p.categoria) then p.categoria.value else ""),
                                    Some(target as real), Some(p.limit as real))
  {
    var x := ("categoria", Str(if Truthy(p.categoria) then p.categoria.value else ""));
    var y, z := ("limit", Num(p.limit as real)), ("page", Num(target as real));
    Paging.LookupSingle(x, "categoria");
    Paging.LookupSingle(x, "page");
    Paging.LookupSingle(x, "limit");
    Paging.LookupPair(y, z, "page");
    Paging.LookupPair(y, z, "limit");
    Paging.LookupAppend([x], [y, z], "categoria");
    Paging.LookupAppend([x], [y, z], "page");
    Paging.LookupAppend([x], [y, z], "limit");
    [x] + [y, z]
  }

  /**
   * The pagination block sits inside the top-book indicator, so it is
   * rendered only when the page has a first row and there is more than one page.
   */
  function Pagination(p: Params, totalPages: int, rows: seq<Row>): (nav: Paging.Nav)
    ensures nav.Shown? <==> rows != [] && totalPages > 1
    ensures nav.Shown? ==> (nav.prev.Some? <==> p.page > 1) && (nav.next.Some? <==> p.page < totalPages)
    ensures nav.Shown? && nav.prev.Some? ==> nav.prev.value == LinkTo(p, p.page - 1)
    ensures nav.Shown? && nav.next.Some? ==> nav.next.value == LinkTo(p, p.page + 1)
  {
    if TopBook(rows).Some? && totalPages > 1 then
      Paging.Bar(p.page, totalPages, LinkTo(p, p.page - 1), LinkTo(p, p.page + 1))
    else
      Paging.Hidden
  }

  /**
   * A page past the last one returns no rows, and then no navigation is
   * shown at all, not even the link back.
   */
  lemma NoWayBackPastTheEnd(view: seq<Row>, p: Params, total: nat)
    requires Valid(p)
    requires View.RunCount(view, Column, CountQuery(p)) == Some(total)
    requires p.page > Paging.TotalPages(total, p.limit)
    ensures View.RunSelect(view, Column, PageQuery(p)) == Some([])
    ensures Pagination(p, Paging.TotalPages(total, p.limit), []) == Paging.Hidden
  {
    QueriesConsistent(p);
    View.PageAgreesWithCount(view, Column, PageQuery(p), CountQuery(p), Filters(p), p.page, p.limit);
    var rows := View.RunSelect(view, Column, PageQuery(p)).value;
    assert |rows| == 0;
  }

  /** The request a browser sends when the link is followed. */
  function Follow(link: Paging.Link): Request
  {
    Request(Paging.TextParam(link, "categoria"), Paging.NumberParam(link, "page"), Paging.NumberParam(link, "limit"))
  }

  /**
   * Following a link to any page re-validates and keeps the same predicate
   * and limit; without a category the link carries `categoria=`, which the
   * schema accepts and the filter ignores.
   */
  lemma LinkKeepsFilters(p: Params, target: int)
    requires Valid(p) && target >= 1
    ensures Parse(Follow(LinkTo(p, target))).Success?
    ensures var q := Parse(Follow(LinkTo(p, target))).value;
            Filters(q) == Filters(p) && q.limit == p.limit && q.page == target
  {
  }
}
