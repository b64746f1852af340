/**
 * Report 3, fines summary (view `vw_fines_summary`): one enum flag selects a
 * constant WHERE fragment with no bound value; the select binds only LIMIT
 * and OFFSET, at $1 and $2.
 */
module FinesSummary {
  import opened Wrappers
  import opened Sql
  import opened Schema
  import Paging
  import Kpi

  const Flags: seq<string> := ["true", "false"]

  const ViewName := "vw_fines_summary"
  const Columns := "mes_periodo, total_multas, total_pagado, total_pendiente, monto_total_generado"

  /** The decoded query parameters of a request; None when absent. */
  datatype Request = Request(pendientesSolo: Option<string>, page: Option<real>, limit: Option<real>)

  /** The validated parameters; the flag keeps its string form, as the source does. */
  datatype Params = Params(pendientesSolo: string, page: int, limit: int)

  /** What the schema guarantees of validated parameters. */
  predicate Valid(p: Params)
  {
    p.pendientesSolo in Flags && p.page >= 1 && 5 <= p.limit <= 50
  }

  /** `searchSchema.parse`: the flag must be exactly 'true' or 'false' and defaults to 'false'. */
  function Parse(req: Request): (r: Result<Params, seq<Issue>>)
    ensures r.Success? <==>
              (req.pendientesSolo.None? || req.pendientesSolo.value in Flags)
              && PageAccepted(req.page) && LimitAccepted(req.limit)
    ensures r.Success? ==> Valid(r.value)
    ensures r.Success? ==> && r.value.pendientesSolo == req.pendientesSolo.GetOr("false")
                           && r.value.page == PageOf(req.page) && r.value.limit == LimitOf(req.limit)
    ensures r.Failure? ==> r.error != [] && forall i :: 0 <= i < |r.error| ==>
              r.error[i].field in ["pendientes_solo", "page", "limit"]
  {
    var issues := EnumIssues("pendientes_solo", req.pendientesSolo, Flags)
                  + PageIssues(req.page)
                  + LimitIssues(req.limit);
    if issues == [] then
      Success(Params(req.pendientesSolo.GetOr("false"), PageOf(req.page), LimitOf(req.limit)))
    else
      Failure(issues)
  }

  /** The fragment the flag switches on; its 0 is written into the text, not bound. */
  const PendingClause := [Clause("total_pendiente", Gt, Literal(0))]

  /** What that fragment means: months with something still pending. */
  const PendingCond := [Cond("total_pendiente", Gt, Num(0.0))]

  /** The predicate of the request. */
  function Filters(p: Params): (fs: seq<Cond>)
    ensures fs == [] <==> p.pendientesSolo != "true"
    ensures forall i :: 0 <= i < |fs| ==> fs[i] == Cond("total_pendiente", Gt, Num(0.0))
    ensures |fs| <= 1
  {
    if p.pendientesSolo == "true" then PendingCond else []
  }

  /**
   * `whereClause`: the constant fragment when the flag is 'true', nothing
   * otherwise. Either way it holds no placeholder, so it binds no value.
   */
  function WhereClause(p: Params): (wc: seq<Clause>)
    ensures wc == [] <==> p.pendientesSolo != "true"
    ensures ParamIndices(wc) == []
  {
    if p.pendientesSolo == "true" then
      assert PendingClause[1..] == [];
      PendingClause
    else
      []
  }

  /** `queryParams`: both branches of the source's ternary bind the same two values, LIMIT then OFFSET. */
  function QueryParams(p: Params): (qp: seq<Value>)
    ensures qp == [Num(p.limit as real), Num(Paging.Offset(p.page, p.limit) as real)]
  {
    var offset := Paging.Offset(p.page, p.limit);
    if p.pendientesSolo == "true" then [Num(p.limit as real), Num(offset as real)]
    else [Num(p.limit as real), Num(offset as real)]
  }

  /**
   * The select: its placeholders are `$1` and `$2`, one per bound value, and
   * once bound it means the flag's predicate with this page's limit and offset.
   */
  function PageQuery(p: Params): (q: Select)
    ensures Aligned(Placeholders(SelectTokens(q)), q.args)
    ensures SelectMeaning(q) == Some(Meaning(Filters(p), Num(p.limit as real),
                                             Num(Paging.Offset(p.page, p.limit) as real)))
  {
    var q := Select(Columns, ViewName, WhereClause(p), "mes_periodo", Desc, 1, 2, QueryParams(p));
    SelectPlaceholders(q);
    if p.pendientesSolo == "true" then
      PendingResolves(q.args);
      q
    else
      NothingResolves(q.args);
      q
  }

  /** The count query runs with no bound values at all, has no placeholder, and means the flag's predicate. */
  function CountQuery(p: Params): (q: Count)
    ensures q.args == [] && Placeholders(CountTokens(q)) == []
    ensures CountMeaning(q) == Some(Filters(p))
  {
    var q := Count(ViewName, WhereClause(p), []);
    CountPlaceholders(q);
    if p.pendientesSolo == "true" then
      PendingResolves([]);
      q
    else
      NothingResolves([]);
      q
  }

  /** The constant fragment needs no bound value: whatever the arguments, it means `total_pendiente > 0`. */
  lemma PendingResolves(args: seq<Value>)
    ensures Resolve(PendingClause, args) == Some(PendingCond)
  {
    assert BindClause(PendingClause[0], args) == Some(PendingCond[0]);
    var r := Resolve(PendingClause, args);
    assert r.Some? && |r.value| == 1 && r.value[0] == PendingCond[0];
    assert r.value == PendingCond;
  }

  lemma NothingResolves(args: seq<Value>)
    ensures Resolve([], args) == Some([])
  {
    var r := Resolve([], args);
    assert r.Some? && |r.value| == 0;
  }

  lemma PendingTokens()
    ensures WhereTokens(PendingClause) == [Word("WHERE"), Word("total_pendiente"), Word(">"), Word("0")]
  {
    assert Decimal(0) == "0";
  }

  /** The constant fragment reads 'WHERE total_pendiente > 0'. */
  lemma PendingText()
    ensures Sql.WhereText(PendingClause) == "WHERE total_pendiente > 0"
  {
    var t3 := [Word("0")];
    var t2 := [Word(">")] + t3;
    var t1 := [Word("total_pendiente")] + t2;
    PendingTokens();
    assert WhereTokens(PendingClause) == [Word("WHERE")] + t1;
    assert Render(t3) == "0";
    RenderWord(">", t3);
    assert Render(t2) == "> 0";
    RenderWord("total_pendiente", t2);
    assert Render(t1) == "total_pendiente > 0";
    RenderWord("WHERE", t1);
    PendingLiteral();
  }

  lemma PendingLiteral()
    ensures "WHERE" + " " + "total_pendiente > 0" == "WHERE total_pendiente > 0"
  {
  }

  /** The text interpolated into both queries: 'WHERE total_pendiente > 0' exactly when the flag is 'true', '' otherwise. */
  lemma WhereTextOf(p: Params)
    ensures Sql.WhereText(WhereClause(p)) == if p.pendientesSolo == "true" then "WHERE total_pendiente > 0" else ""
  {
    if p.pendientesSolo == "true" {
      PendingText();
    }
  }

  /** In both branches LIMIT is $1 and OFFSET is $2; the count binds nothing; both mean the same predicate. */
  lemma QueriesConsistent(p: Params)
    ensures Consistent(PageQuery(p), CountQuery(p), Filters(p), p.limit, Paging.Offset(p.page, p.limit))
  {
  }

  // ---------------------------------------------------------------------------
  // Page-local indicators

  datatype Row = Row(mesPeriodo: string, totalMultas: int, totalPagado: real, totalPendiente: real,
                     montoTotalGenerado: real)

  /** "Total Pagado (Página n)": paid amounts of the months on this page. */
  function TotalPagado(rows: seq<Row>): (total: real)
    ensures rows == [] ==> total == 0.0
    ensures (forall i :: 0 <= i < |rows| ==> rows[i].totalPagado >= 0.0) ==> total >= 0.0
  {
    Kpi.SumNonNegative(rows, (r: Row) => r.totalPagado);
    Kpi.Sum(rows, (r: Row) => r.totalPagado)
  }

  /** "Total Pendiente": pending amounts of the months on this page. */
  function TotalPendiente(rows: seq<Row>): (total: real)
    ensures rows == [] ==> total == 0.0
    ensures (forall i :: 0 <= i < |rows| ==> rows[i].totalPendiente >= 0.0) ==> total >= 0.0
  {
    Kpi.SumNonNegative(rows, (r: Row) => r.totalPendiente);
    Kpi.Sum(rows, (r: Row) => r.totalPendiente)
  }

  /** "Total Generado": generated amounts of the months on this page. */
  function TotalGenerado(rows: seq<Row>): (total: real)
    ensures rows == [] ==> total == 0.0
    ensures (forall i :: 0 <= i < |rows| ==> rows[i].montoTotalGenerado >= 0.0) ==> total >= 0.0
  {
    Kpi.SumNonNegative(rows, (r: Row) => r.montoTotalGenerado);
    Kpi.Sum(rows, (r: Row) => r.montoTotalGenerado)
  }

  /** On an empty page every total is 0. */
  lemma EmptyPageIndicators()
    ensures TotalPagado([]) == 0.0 && TotalPendiente([]) == 0.0 && TotalGenerado([]) == 0.0
  {
  }

  /** When no month has paid more than it generated, neither has the page. */
  lemma PaidWithinGenerated(rows: seq<Row>)
    requires forall i :: 0 <= i < |rows| ==> rows[i].totalPagado <= rows[i].montoTotalGenerado
    ensures TotalPagado(rows) <= TotalGenerado(rows)
  {
    Kpi.SumDominated(rows, (r: Row) => r.totalPagado, (r: Row) => r.montoTotalGenerado);
  }

  /** "% Cobrado" of one month: paid over generated, times 100; 0 when nothing was generated (no division by zero). */
  function CollectedPercent(row: Row): (pct: real)
    ensures row.montoTotalGenerado <= 0.0 ==> pct == 0.0
    ensures row.montoTotalGenerado > 0.0 ==> pct * row.montoTotalGenerado == row.totalPagado * 100.0
    ensures 0.0 <= row.totalPagado <= row.montoTotalGenerado ==> 0.0 <= pct <= 100.0
  {
    if row.montoTotalGenerado > 0.0 then row.totalPagado / row.montoTotalGenerado * 100.0 else 0.0
  }

  // ---------------------------------------------------------------------------
  // Pagination links

  /**
   * `?pendientes_solo=..&limit=..&page=..`: a browser following it sends the
   * flag, the target page and the limit.
   */
  function LinkTo(p: Params, target: int): (link: Paging.Link)
    ensures Follow(link) == Request(Some(p.pendientesSolo), Some(target as real), Some(p.limit as real))
  {
    var x, y, z := ("pendientes_solo", Str(p.pendientesSolo)), ("limit", Num(p.limit as real)), ("page", Num(target as real));
    Paging.LookupSingle(x, "page");
    Paging.LookupSingle(x, "limit");
    Paging.LookupPair(y, z, "pendientes_solo");
    Paging.LookupPair(y, z, "page");
    Paging.LookupPair(y, z, "limit");
    Paging.LookupAppend([x], [y, z], "pendientes_solo");
    Paging.LookupAppend([x], [y, z], "page");
    Paging.LookupAppend([x], [y, z], "limit");
    [x] + [y, z]
  }

  /**
   * The pagination block is always rendered (no `totalPages > 1` guard):
   * `Paging.Bar`, with "Anterior" asking for page - 1 and "Siguiente" for page + 1.
   */
  function Pagination(p: Params, totalPages: int): (nav: Paging.Nav)
    ensures nav.Shown?
    ensures nav.prev.Some? ==> Follow(nav.prev.value).page == Some((p.page - 1) as real)
    ensures nav.next.Some? ==> Follow(nav.next.value).page == Some((p.page + 1) as real)
  {
    Paging.Bar(p.page, totalPages, LinkTo(p, p.page - 1), LinkTo(p, p.page + 1))
  }

  /** The request a browser sends when the link is followed. */
  function Follow(link: Paging.Link): Request
  {
    Request(Paging.TextParam(link, "pendientes_solo"), Paging.NumberParam(link, "page"),
            Paging.NumberParam(link, "limit"))
  }

  /** Following a link to any page re-validates with the same flag and limit. */
  lemma LinkKeepsFilters(p: Params, target: int)
    requires Valid(p) && target >= 1
    ensures Parse(Follow(LinkTo(p, target))) == Success(Params(p.pendientesSolo, target, p.limit))
  {
  }
}
