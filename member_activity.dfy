/**
 * Report 4, member activity (view `vw_member_activity`): filters on member
 * type, activity category and a minimum overdue rate; the predicate is built
 * imperatively by pushing clauses and values and advancing `paramIndex`.
 */
module MemberActivity {
  import opened Wrappers
  import opened Sql
  import opened Schema
  import Paging
  import Kpi

  const AllowedTypes: seq<string> := ["teacher", "external", "student"]
  const AllowedCategories: seq<string> := ["Socio Frecuente", "Socio Ocasional", "Inactivo"]

  const ViewName := "vw_member_activity"
  const Columns := "member_id, socio, member_type, total_prestamos, prestamos_con_atraso, tasa_atraso_porcentaje, categoria_actividad"

  /** The decoded query parameters of a request; None when absent. */
  datatype Request = Request(memberType: Option<string>, categoriaActividad: Option<string>,
                             tasaMinima: Option<real>, page: Option<real>, limit: Option<real>)

  /** The validated parameters. */
  datatype Params = Params(memberType: Option<string>, categoriaActividad: Option<string>,
                           tasaMinima: Option<real>, page: int, limit: int)

  /** What the schema guarantees of validated parameters. */
  predicate Valid(p: Params)
  {
    && (!Truthy(p.memberType) || p.memberType.value in AllowedTypes)
    && (!Truthy(p.categoriaActividad) || p.categoriaActividad.value in AllowedCategories)
    && (p.tasaMinima.Some? ==> 0.0 <= p.tasaMinima.value <= 100.0)
    && p.page >= 1 && 5 <= p.limit <= 50
  }

  /** `searchSchema.parse`: succeeds exactly when every field passes, and then keeps every value as given. */
  function Parse(req: Request): (r: Result<Params, seq<Issue>>)
    ensures r.Success? <==>
              && (req.memberType.None? || req.memberType.value == "" || req.memberType.value in AllowedTypes)
              && (req.categoriaActividad.None? || req.categoriaActividad.value == ""
                  || req.categoriaActividad.value in AllowedCategories)
              && (req.tasaMinima.None? || 0.0 <= req.tasaMinima.value <= 100.0)
              && PageAccepted(req.page) && LimitAccepted(req.limit)
    ensures r.Success? ==> Valid(r.value)
    ensures r.Success? ==> && r.value.memberType == req.memberType
                           && r.value.categoriaActividad == req.categoriaActividad
                           && r.value.tasaMinima == req.tasaMinima
                           && r.value.page == PageOf(req.page) && r.value.limit == LimitOf(req.limit)
    ensures r.Failure? ==> r.error != [] && forall i :: 0 <= i < |r.error| ==>
              r.error[i].field in ["member_type", "categoria_actividad", "tasa_minima", "page", "limit"]
  {
    var issues := AllowedIssues("member_type", req.memberType, AllowedTypes)
                  + AllowedIssues("categoria_actividad", req.categoriaActividad, AllowedCategories)
                  + OptionalNumberIssues("tasa_minima", req.tasaMinima, false, 0.0, Some(100.0))
                  + PageIssues(req.page)
                  + LimitIssues(req.limit);
    if issues == [] then
      Success(Params(req.memberType, req.categoriaActividad, req.tasaMinima, PageOf(req.page), LimitOf(req.limit)))
    else
      Failure(issues)
  }

  /**
   * The predicate the page filters on: one condition per present filter, in
   * the fixed order member_type, categoria_actividad, tasa_minima. A string
   * filter is present when truthy; the rate when it is defined, 0 included.
   */
  function Filters(p: Params): (fs: seq<Cond>)
    ensures |fs| <= 3
    ensures fs == [] <==> !Truthy(p.memberType) && !Truthy(p.categoriaActividad) && p.tasaMinima.None?
  {
    (if Truthy(p.memberType) then [Cond("member_type", Eq, Str(p.memberType.value))] else [])
    + (if Truthy(p.categoriaActividad) then [Cond("categoria_actividad", Eq, Str(p.categoriaActividad.value))] else [])
    + (if p.tasaMinima.Some? then [Cond("tasa_atraso_porcentaje", Ge, Num(p.tasaMinima.value))] else [])
  }

  /** An empty member type adds no clause; a minimum rate of 0 does add its `>=` clause. */
  lemma PresenceTests(p: Params)
    requires p.memberType == Some("") && p.categoriaActividad.None? && p.tasaMinima == Some(0.0)
    ensures Filters(p) == [Cond("tasa_atraso_porcentaje", Ge, Num(0.0))]
  {
  }

  /**
   * The source's three guarded pushes. After each step the clauses are the
   * conditions added so far numbered from $1, the values are theirs, and
   * `paramIndex` is one past the number of values.
   */
  method BuildPredicate(p: Params) returns (whereClauses: seq<Clause>, queryParams: seq<Value>, paramIndex: nat)
    ensures whereClauses == Numbered(Filters(p), 1)
    ensures queryParams == ValuesOf(Filters(p))
    ensures |whereClauses| == |queryParams| && paramIndex == |queryParams| + 1
  {
    whereClauses, queryParams, paramIndex := [], [], 1;
    ghost var added: seq<Cond> := [];

    if Truthy(p.memberType) {
      NumberedSnoc(added, Cond("member_type", Eq, Str(p.memberType.value)), 1);
      whereClauses := whereClauses + [Clause("member_type", Eq, Param(paramIndex))];
      queryParams := queryParams + [Str(p.memberType.value)];
      paramIndex := paramIndex + 1;
      added := added + [Cond("member_type", Eq, Str(p.memberType.value))];
    }
    assert whereClauses == Numbered(added, 1) && queryParams == ValuesOf(added) && paramIndex == |added| + 1;

    if Truthy(p.categoriaActividad) {
      NumberedSnoc(added, Cond("categoria_actividad", Eq, Str(p.categoriaActividad.value)), 1);
      whereClauses := whereClauses + [Clause("categoria_actividad", Eq, Param(paramIndex))];
      queryParams := queryParams + [Str(p.categoriaActividad.value)];
      paramIndex := paramIndex + 1;
      added := added + [Cond("categoria_actividad", Eq, Str(p.categoriaActividad.value))];
    }
    assert whereClauses == Numbered(added, 1) && queryParams == ValuesOf(added) && paramIndex == |added| + 1;

    if p.tasaMinima.Some? {
      NumberedSnoc(added, Cond("tasa_atraso_porcentaje", Ge, Num(p.tasaMinima.value)), 1);
      whereClauses := whereClauses + [Clause("tasa_atraso_porcentaje", Ge, Param(paramIndex))];
      queryParams := queryParams + [Num(p.tasaMinima.value)];
      paramIndex := paramIndex + 1;
      added := added + [Cond("tasa_atraso_porcentaje", Ge, Num(p.tasaMinima.value))];
    }
    assert added == Filters(p);
  }

  /**
   * The page query and the count query: the select appends LIMIT at
   * `$paramIndex` and OFFSET at `$paramIndex + 1` after the filter values;
   * the count reuses the fragment with exactly the filter values.
   */
  method BuildQueries(p: Params) returns (select: Select, count: Count)
    ensures select == PagedSelect(Columns, ViewName, Filters(p), "total_prestamos", Desc,
                                  p.limit, Paging.Offset(p.page, p.limit))
    ensures count == FilteredCount(ViewName, Filters(p))
    ensures Consistent(select, count, Filters(p), p.limit, Paging.Offset(p.page, p.limit))
  {
    var offset := Paging.Offset(p.page, p.limit);
    var whereClauses, queryParams, paramIndex := BuildPredicate(p);
    select := Select(Columns, ViewName, whereClauses, "total_prestamos", Desc, paramIndex, paramIndex + 1,
                     queryParams + [Num(p.limit as real), Num(offset as real)]);
    count := Count(ViewName, whereClauses, queryParams);
    assert paramIndex == |Filters(p)| + 1;
    assert select == PagedSelect(Columns, ViewName, Filters(p), "total_prestamos", Desc, p.limit, offset);
    PagedQueriesConsistent(Columns, ViewName, Filters(p), "total_prestamos", Desc, p.limit, offset);
  }

  // ---------------------------------------------------------------------------
  // Page-local indicators

  datatype Row = Row(memberId: int, socio: string, memberType: string, totalPrestamos: int,
                     prestamosConAtraso: int, tasaAtrasoPorcentaje: real, categoriaActividad: string)

  /** "Total Préstamos (Página n)": the loans of the rows on this page. */
  function TotalLoans(rows: seq<Row>): (total: real)
    ensures rows == [] ==> total == 0.0
    ensures (forall i :: 0 <= i < |rows| ==> rows[i].totalPrestamos >= 0) ==> total >= 0.0
  {
    Kpi.SumNonNegative(rows, (r: Row) => r.totalPrestamos as real);
    Kpi.Sum(rows, (r: Row) => r.totalPrestamos as real)
  }

  /** "Tasa Promedio de Atraso": the mean overdue rate of the page, 0 when the page is empty. */
  function AvgOverdueRate(rows: seq<Row>): (avg: real)
    ensures rows == [] ==> avg == 0.0
    ensures rows != [] ==> avg * (|rows| as real) == Kpi.Sum(rows, (r: Row) => r.tasaAtrasoPorcentaje)
  {
    Kpi.Average(rows, (r: Row) => r.tasaAtrasoPorcentaje)
  }

  /** "Socios Frecuentes": the rows of this page whose category is 'Socio Frecuente'. */
  function ActiveMembers(rows: seq<Row>): (n: nat)
    ensures n <= |rows|
    ensures n == 0 <==> forall i :: 0 <= i < |rows| ==> rows[i].categoriaActividad != "Socio Frecuente"
  {
    Kpi.CountWhere(rows, (r: Row) => r.categoriaActividad == "Socio Frecuente")
  }

  /** On an empty page every indicator is 0. */
  lemma EmptyPageIndicators()
    ensures TotalLoans([]) == 0.0 && AvgOverdueRate([]) == 0.0 && ActiveMembers([]) == 0
  {
  }

  /** Rates are percentages, so their page mean is a percentage too. */
  lemma AvgOverdueRateIsPercentage(rows: seq<Row>)
    requires forall i :: 0 <= i < |rows| ==> 0.0 <= rows[i].tasaAtrasoPorcentaje <= 100.0
    ensures 0.0 <= AvgOverdueRate(rows) <= 100.0
  {
    if rows != [] {
      Kpi.AverageBounds(rows, (r: Row) => r.tasaAtrasoPorcentaje, 0.0, 100.0);
    }
  }


  // ---------------------------------------------------------------------------
  // Pagination links

  /**
   * The query of a link to page `target`: the present filters, then page and
   * limit. A browser following it sends the truthy filters, the rate, the
   * target page and the limit.
   */
  function LinkTo(p: Params, target: int): (link: Paging.Link)
    ensures Follow(link)
            == Request(if Truthy(p.memberType) then p.memberType else None,
                       if Truthy(p.categoriaActividad) then p.categoriaActividad else None,
                       p.tasaMinima, Some(target as real), Some(p.limit as real))
  {
    var a := if Truthy(p.memberType) then [("member_type", Str(p.memberType.value))] else [];
    var b := if Truthy(p.categoriaActividad) then [("categoria_actividad", Str(p.categoriaActividad.value))] else [];
    var c := if p.tasaMinima.Some? then [("tasa_minima", Num(p.tasaMinima.value))] else [];
    var d := [("page", Num(target as real)), ("limit", Num(p.limit as real))];
    var link := a + b + c + d;
    Paging.LookupPair(d[0], d[1], "member_type");
    Paging.LookupPair(d[0], d[1], "categoria_actividad");
    Paging.LookupPair(d[0], d[1], "tasa_minima");
    Paging.LookupIn4(a, b, c, d, "member_type");
    assert Paging.TextParam(link, "member_type") == if Truthy(p.memberType) then p.memberType else None;
    Paging.LookupIn4(a, b, c, d, "categoria_actividad");
    assert Paging.TextParam(link, "categoria_actividad")
           == if Truthy(p.categoriaActividad) then p.categoriaActividad else None;
    Paging.LookupIn4(a, b, c, d, "tasa_minima");
    assert Paging.NumberParam(link, "tasa_minima") == p.tasaMinima;
    Paging.LookupIn4(a, b, c, d, "page");
    assert Paging.NumberParam(link, "page") == Some(target as real);
    Paging.LookupIn4(a, b, c, d, "limit");
    assert Paging.NumberParam(link, "limit") == Some(p.limit as real);
    link
  }

  /** The pagination block: `Paging.Navigation` with "Anterior" asking for page - 1 and "Siguiente" for page + 1. */
  function Pagination(p: Params, totalPages: int): (nav: Paging.Nav)
    ensures nav.Shown? && nav.prev.Some? ==> Follow(nav.prev.value).page == Some((p.page - 1) as real)
    ensures nav.Shown? && nav.next.Some? ==> Follow(nav.next.value).page == Some((p.page + 1) as real)
  {
    Paging.Navigation(p.page, totalPages, LinkTo(p, p.page - 1), LinkTo(p, p.page + 1))
  }

  /** The request a browser sends when the link is followed. */
  function Follow(link: Paging.Link): Request
  {
    Request(Paging.TextParam(link, "member_type"), Paging.TextParam(link, "categoria_actividad"),
            Paging.NumberParam(link, "tasa_minima"), Paging.NumberParam(link, "page"),
            Paging.NumberParam(link, "limit"))
  }

  /** Following a link to any page re-validates and keeps the same predicate and limit. */
  lemma LinkKeepsFilters(p: Params, target: int)
    requires Valid(p) && target >= 1
    ensures Parse(Follow(LinkTo(p, target))).Success?
    ensures var q := Parse(Follow(LinkTo(p, target))).value;
            Filters(q) == Filters(p) && q.limit == p.limit && q.page == target
  {
  }
}
