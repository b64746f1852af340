/**
 * Report 5, inventory health (view `vw_inventory_health`): filters on the
 * health state and a minimum availability percentage; the predicate is built
 * imperatively by pushing clauses and values and advancing `paramIndex`.
 */
module InventoryHealth {
  import opened Wrappers
  import opened Sql
  import opened Schema
  import Paging
  import Kpi

  const AllowedStates: seq<string> := ["Saludable", "Alerta: Stock Bajo", "Crítico: Muchas Pérdidas"]

  const ViewName := "vw_inventory_health"
  const Columns := "category, total_ejemplares, disponibles, prestados, perdidos, porcentaje_disponibilidad, estado_salud"

  /** The decoded query parameters of a request; None when absent. */
  datatype Request = Request(estadoSalud: Option<string>, disponibilidadMinima: Option<real>,
                             page: Option<real>, limit: Option<real>)

  /** The validated parameters. */
  datatype Params = Params(estadoSalud: Option<string>, disponibilidadMinima: Option<real>, page: int, limit: int)

  /** What the schema guarantees of validated parameters. */
  predicate Valid(p: Params)
  {
    && (!Truthy(p.estadoSalud) || p.estadoSalud.value in AllowedStates)
    && (p.disponibilidadMinima.Some? ==> 0.0 <= p.disponibilidadMinima.value <= 100.0)
    && p.page >= 1 && 5 <= p.limit <= 50
  }

  /** `searchSchema.parse`: succeeds exactly when every field passes, and then keeps every value as given. */
  function Parse(req: Request): (r: Result<Params, seq<Issue>>)
    ensures r.Success? <==>
              && (req.estadoSalud.None? || req.estadoSalud.value == "" || req.estadoSalud.value in AllowedStates)
              && (req.disponibilidadMinima.None? || 0.0 <= req.disponibilidadMinima.value <= 100.0)
              && PageAccepted(req.page) && LimitAccepted(req.limit)
    ensures r.Success? ==> Valid(r.value)
    ensures r.Success? ==> && r.value.estadoSalud == req.estadoSalud
                           && r.value.disponibilidadMinima == req.disponibilidadMinima
                           && r.value.page == PageOf(req.page) && r.value.limit == LimitOf(req.limit)
    ensures r.Failure? ==> r.error != [] && forall i :: 0 <= i < |r.error| ==>
              r.error[i].field in ["estado_salud", "disponibilidad_minima", "page", "limit"]
  {
    var issues := AllowedIssues("estado_salud", req.estadoSalud, AllowedStates)
                  + OptionalNumberIssues("disponibilidad_minima", req.disponibilidadMinima, false, 0.0, Some(100.0))
                  + PageIssues(req.page)
                  + LimitIssues(req.limit);
    if issues == [] then
      Success(Params(req.estadoSalud, req.disponibilidadMinima, PageOf(req.page), LimitOf(req.limit)))
    else
      Failure(issues)
  }

  /**
   * The predicate the page filters on, in the fixed order estado_salud then
   * disponibilidad_minima: the state when truthy, the minimum when defined.
   */
  function Filters(p: Params): (fs: seq<Cond>)
    ensures |fs| <= 2
    ensures fs == [] <==> !Truthy(p.estadoSalud) && p.disponibilidadMinima.None?
  {
    (if Truthy(p.estadoSalud) then [Cond("estado_salud", Eq, Str(p.estadoSalud.value))] else [])
    + (if p.disponibilidadMinima.Some? then [Cond("porcentaje_disponibilidad", Ge, Num(p.disponibilidadMinima.value))] else [])
  }

  /**
   * The source's two guarded pushes. After each step the clauses are the
   * conditions added so far numbered from $1, the values are theirs, and
   * `paramIndex` is one past the number of values.
   */
  method BuildPredicate(p: Params) returns (whereClauses: seq<Clause>, queryParams: seq<Value>, paramIndex: nat)
    ensures whereClauses == Numbered(Filters(p), 1)
    ensures queryParams == ValuesOf(Filters(p))
    ensures |whereClauses| == |queryParams| && paramIndex == |queryParams| + 1
  {
    whereClauses, queryParams, paramIndex := [], [], 1;
    ghost var added: seq<Cond> := [];

    if Truthy(p.estadoSalud) {
      NumberedSnoc(added, Cond("estado_salud", Eq, Str(p.estadoSalud.value)), 1);
      whereClauses := whereClauses + [Clause("estado_salud", Eq, Param(paramIndex))];
      queryParams := queryParams + [Str(p.estadoSalud.value)];
      paramIndex := paramIndex + 1;
      added := added + [Cond("estado_salud", Eq, Str(p.estadoSalud.value))];
    }
    assert whereClauses == Numbered(added, 1) && queryParams == ValuesOf(added) && paramIndex == |added| + 1;

    if p.disponibilidadMinima.Some? {
      NumberedSnoc(added, Cond("porcentaje_disponibilidad", Ge, Num(p.disponibilidadMinima.value)), 1);
      whereClauses := whereClauses + [Clause("porcentaje_disponibilidad", Ge, Param(paramIndex))];
      queryParams := queryParams + [Num(p.disponibilidadMinima.value)];
      paramIndex := paramIndex + 1;
      added := added + [Cond("porcentaje_disponibilidad", Ge, Num(p.disponibilidadMinima.value))];
    }
    assert added == Filters(p);
  }

  /**
   * The page query and the count query: LIMIT at `$paramIndex` and OFFSET at
   * `$paramIndex + 1` after the filter values; the count reuses the fragment
   * with exactly the filter values.
   */
  method BuildQueries(p: Params) returns (select: Select, count: Count)
    ensures select == PagedSelect(Columns, ViewName, Filters(p), "porcentaje_disponibilidad", Asc,
                                  p.limit, Paging.Offset(p.page, p.limit))
    ensures count == FilteredCount(ViewName, Filters(p))
    ensures Consistent(select, count, Filters(p), p.limit, Paging.Offset(p.page, p.limit))
  {
    var offset := Paging.Offset(p.page, p.limit);
    var whereClauses, queryParams, paramIndex := BuildPredicate(p);
    select := Select(Columns, ViewName, whereClauses, "porcentaje_disponibilidad", Asc, paramIndex, paramIndex + 1,
                     queryParams + [Num(p.limit as real), Num(offset as real)]);
    count := Count(ViewName, whereClauses, queryParams);
    assert paramIndex == |Filters(p)| + 1;
    assert select == PagedSelect(Columns, ViewName, Filters(p), "porcentaje_disponibilidad", Asc, p.limit, offset);
    PagedQueriesConsistent(Columns, ViewName, Filters(p), "porcentaje_disponibilidad", Asc, p.limit, offset);
  }

  // ---------------------------------------------------------------------------
  // Page-local indicators

  datatype Row = Row(category: string, totalEjemplares: int, disponibles: int, prestados: int, perdidos: int,
                     porcentajeDisponibilidad: real, estadoSalud: string)

  /** "Total Ejemplares": the copies of the categories on this page. */
  function TotalCopies(rows: seq<Row>): (total: real)
    ensures rows == [] ==> total == 0.0
    ensures (forall i :: 0 <= i < |rows| ==> rows[i].totalEjemplares >= 0) ==> total >= 0.0
  {
    Kpi.SumNonNegative(rows, (r: Row) => r.totalEjemplares as real);
    Kpi.Sum(rows, (r: Row) => r.totalEjemplares as real)
  }

  /** "Disponibles": the available copies of the categories on this page. */
  function TotalAvailable(rows: seq<Row>): (total: real)
    ensures rows == [] ==> total == 0.0
    ensures (forall i :: 0 <= i < |rows| ==> rows[i].disponibles >= 0) ==> total >= 0.0
  {
    Kpi.SumNonNegative(rows, (r: Row) => r.disponibles as real);
    Kpi.Sum(rows, (r: Row) => r.disponibles as real)
  }

  /** "Perdidos": the lost copies of the categories on this page. */
  function TotalLost(rows: seq<Row>): (total: real)
    ensures rows == [] ==> total == 0.0
    ensures (forall i :: 0 <= i < |rows| ==> rows[i].perdidos >= 0) ==> total >= 0.0
  {
    Kpi.SumNonNegative(rows, (r: Row) => r.perdidos as real);
    Kpi.Sum(rows, (r: Row) => r.perdidos as real)
  }

  /** "Disponibilidad Promedio": the mean availability of the page, 0 when the page is empty. */
  function AvgAvailability(rows: seq<Row>): (avg: real)
    ensures rows == [] ==> avg == 0.0
    ensures rows != [] ==> avg * (|rows| as real) == Kpi.Sum(rows, (r: Row) => r.porcentajeDisponibilidad)
  {
    Kpi.Average(rows, (r: Row) => r.porcentajeDisponibilidad)
  }

  /** sub occurs in s starting at position i. */
  predicate OccursAt(s: string, sub: string, i: nat)
  {
    i + |sub| <= |s| && s[i..i + |sub|] == sub
  }

  /** JavaScript's `s.includes(sub)`: sub occurs in s at some position. */
  predicate Includes(s: string, sub: string)
  {
    exists i: nat | i <= |s| :: OccursAt(s, sub, i)
  }

  /** `includes` finds a substring wherever it sits, and never one longer than the string. */
  lemma IncludesWherever(before: string, sub: string, after: string)
    ensures Includes(before + sub + after, sub)
    ensures |sub| > |before| ==> !Includes(before, sub)
  {
    var s := before + sub + after;
    assert s[|before|..|before| + |sub|] == sub;
    assert OccursAt(s, sub, |before|);
  }

  /** "Categorías Críticas": the rows of this page whose health state mentions 'Crítico'. */
  function CriticalCategories(rows: seq<Row>): (n: nat)
    ensures n <= |rows|
    ensures n == 0 <==> forall i :: 0 <= i < |rows| ==> !Includes(rows[i].estadoSalud, "Crítico")
  {
    Kpi.CountWhere(rows, (r: Row) => Includes(r.estadoSalud, "Crítico"))
  }

  /** Of the three health states, only 'Crítico: Muchas Pérdidas' counts as critical. */
  lemma OnlyTheCriticalStateCounts()
    ensures Includes(AllowedStates[2], "Crítico")
    ensures !Includes(AllowedStates[0], "Crítico") && !Includes(AllowedStates[1], "Crítico")
  {
    assert OccursAt(AllowedStates[2], "Crítico", 0);
    forall i: nat | i <= |AllowedStates[0]| ensures !OccursAt(AllowedStates[0], "Crítico", i) {
      if i + 7 <= |AllowedStates[0]| {
        assert AllowedStates[0][i..i + 7][1] != 'r';
      }
    }
    forall i: nat | i <= |AllowedStates[1]| ensures !OccursAt(AllowedStates[1], "Crítico", i) {
      if i + 7 <= |AllowedStates[1]| {
        assert AllowedStates[1][i..i + 7][2] != 'í';
      }
    }
  }

  /** On an empty page every indicator is 0. */
  lemma EmptyPageIndicators()
    ensures TotalCopies([]) == 0.0 && TotalAvailable([]) == 0.0 && TotalLost([]) == 0.0
    ensures AvgAvailability([]) == 0.0 && CriticalCategories([]) == 0
  {
  }

  /** Availabilities are percentages, so their page mean is a percentage too. */
  lemma AvgAvailabilityIsPercentage(rows: seq<Row>)
    requires forall i :: 0 <= i < |rows| ==> 0.0 <= rows[i].porcentajeDisponibilidad <= 100.0
    ensures 0.0 <= AvgAvailability(rows) <= 100.0
  {
    if rows != [] {
      Kpi.AverageBounds(rows, (r: Row) => r.porcentajeDisponibilidad, 0.0, 100.0);
    }
  }

  /** When no category has more copies available than it holds, neither has the page. */
  lemma AvailableWithinCopies(rows: seq<Row>)
    requires forall i :: 0 <= i < |rows| ==> rows[i].disponibles <= rows[i].totalEjemplares
    ensures TotalAvailable(rows) <= TotalCopies(rows)
  {
    Kpi.SumDominated(rows, (r: Row) => r.disponibles as real, (r: Row) => r.totalEjemplares as real);
  }

  // ---------------------------------------------------------------------------
  // Pagination links

  /**
   * The query of a link to page `target`: the present filters, then page and
   * limit. A browser following it sends the truthy state, the minimum, the
   * target page and the limit.
   */
  function LinkTo(p: Params, target: int): (link: Paging.Link)
    ensures Follow(link)
            == Request(if Truthy(p.estadoSalud) then p.estadoSalud else None,
                       p.disponibilidadMinima, Some(target as real), Some(p.limit as real))
  {
    var a := if Truthy(p.estadoSalud) then [("estado_salud", Str(p.estadoSalud.value))] else [];
    var b := if p.disponibilidadMinima.Some? then [("disponibilidad_minima", Num(p.disponibilidadMinima.value))] else [];
    var d := [("page", Num(target as real)), ("limit", Num(p.limit as real))];
    var link := a + b + d;
    assert link == a + b + [] + d;
    Paging.LookupPair(d[0], d[1], "estado_salud");
    Paging.LookupPair(d[0], d[1], "disponibilidad_minima");
    Paging.LookupIn4(a, b, [], d, "estado_salud");
    assert Paging.TextParam(link, "estado_salud") == if Truthy(p.estadoSalud) then p.estadoSalud else None;
    Paging.LookupIn4(a, b, [], d, "disponibilidad_minima");
    assert Paging.NumberParam(link, "disponibilidad_minima") == p.disponibilidadMinima;
    Paging.LookupIn4(a, b, [], d, "page");
    assert Paging.NumberParam(link, "page") == Some(target as real);
    Paging.LookupIn4(a, b, [], d, "limit");
    assert Paging.NumberParam(link, "limit") == Some(p.limit as real);
    link
  }

  /** The pagination block: `Paging.Navigation` with "Anterior" asking for page - 1 and "Siguiente" for page + 1. */
  function Pagination(p: Params, totalPages: int): (nav: Paging.Nav)
    ensures nav.Shown? && nav.prev.Some? ==> Follow(nav.prev.value).page == Some((p.page - 1) as real)
    ensures nav.Shown? && nav.next.Some? ==> Follow(nav.next.value).page == Some((p.page + 1) as real)
  {
    Paging.Navigation(p.page, totalPages, LinkTo(p, p.page - 1), LinkTo(p, p.page + 1))
  }

  /** The request a browser sends when the link is followed. */
  function Follow(link: Paging.Link): Request
  {
    Request(Paging.TextParam(link, "estado_salud"), Paging.NumberParam(link, "disponibilidad_minima"),
            Paging.NumberParam(link, "page"), Paging.NumberParam(link, "limit"))
  }

  /** Following a link to any page re-validates and keeps the same predicate and limit. */
  lemma LinkKeepsFilters(p: Params, target: int)
    requires Valid(p) && target >= 1
    ensures Parse(Follow(LinkTo(p, target))).Success?
    ensures var q := Parse(Follow(LinkTo(p, target))).value;
            Filters(q) == Filters(p) && q.limit == p.limit && q.page == target
  {
  }
}
