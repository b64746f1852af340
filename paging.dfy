/**
 * Pagination as every report page does it: `offset = (page - 1) * limit`,
 * `totalPages = Math.ceil(totalRecords / limit)`, the rows a LIMIT/OFFSET
 * query returns from an ordered result, and the prev/next links.
 */
module Paging {
  import opened Wrappers
  import opened Sql

  function Min(a: int, b: int): int
  {
    if a <= b then a else b
  }

  /** `(page - 1) * limit`: never negative for a validated page and limit. */
  function Offset(page: int, limit: int): (offset: int)
    ensures page >= 1 && limit >= 0 ==> offset >= 0
  {
    (page - 1) * limit
  }

  /** `Math.ceil(totalRecords / limit)`: the least number of pages of `limit` rows that hold every record. */
  function TotalPages(totalRecords: nat, limit: int): (pages: nat)
    requires limit > 0
    ensures pages == 0 <==> totalRecords == 0
    ensures totalRecords <= pages * limit
    ensures (pages - 1) * limit < totalRecords || totalRecords == 0
  {
    var n := totalRecords + limit - 1;
    assert n == (n / limit) * limit + n % limit;
    n / limit
  }

  /** Consecutive pages are adjacent: page p + 1 starts where page p ends, with no gap and no overlap. */
  lemma PagesAdjacent(page: int, limit: int)
    ensures Offset(page + 1, limit) == Offset(page, limit) + limit
  {
  }

  lemma MulMonotone(a: int, b: int, c: int)
    requires a <= b && c >= 0
    ensures a * c <= b * c
  {
  }

  /** A page starts inside the result exactly when its number is at most totalPages. */
  lemma PageStartsInside(totalRecords: nat, page: int, limit: int)
    requires page >= 1 && limit > 0
    ensures Offset(page, limit) < totalRecords <==> page <= TotalPages(totalRecords, limit)
  {
    var t := TotalPages(totalRecords, limit);
    if page <= t {
      MulMonotone(page - 1, t - 1, limit);
    } else {
      MulMonotone(t, page - 1, limit);
    }
  }

  /**
   * The rows `LIMIT limit OFFSET offset` returns from an ordered result:
   * those starting at position `offset`, at most `limit` of them, none when
   * the offset is past the end.
   */
  function Window<T>(rows: seq<T>, offset: nat, limit: nat): (page: seq<T>)
    ensures |page| <= limit
    ensures |page| == if offset >= |rows| then 0 else Min(limit, |rows| - offset)
    ensures forall i :: 0 <= i < |page| ==> page[i] == rows[offset + i]
  {
    if offset >= |rows| then [] else rows[offset..Min(offset + limit, |rows|)]
  }

  /** A page beyond totalPages is empty, and is not an error. */
  lemma BeyondLastPageIsEmpty<T>(rows: seq<T>, page: int, limit: int)
    requires page >= 1 && limit > 0 && page > TotalPages(|rows|, limit)
    ensures Window(rows, Offset(page, limit), limit) == []
  {
    PageStartsInside(|rows|, page, limit);
  }

  /** Every page up to totalPages has at least one row; every page before the last is full. */
  lemma PagesUpToTotalAreFilled<T>(rows: seq<T>, page: int, limit: int)
    requires limit > 0 && 1 <= page <= TotalPages(|rows|, limit)
    ensures |Window(rows, Offset(page, limit), limit)| > 0
    ensures page < TotalPages(|rows|, limit) ==> |Window(rows, Offset(page, limit), limit)| == limit
  {
    PageStartsInside(|rows|, page, limit);
    if page < TotalPages(|rows|, limit) {
      PageStartsInside(|rows|, page + 1, limit);
      PagesAdjacent(page, limit);
    }
  }

  /** 45 matching rows at 20 per page: 3 pages holding 20, 20 and 5 rows, and page 4 is empty. */
  lemma FortyFiveRowsScenario<T>(rows: seq<T>)
    requires |rows| == 45
    ensures TotalPages(|rows|, 20) == 3
    ensures |Window(rows, Offset(1, 20), 20)| == 20
    ensures |Window(rows, Offset(2, 20), 20)| == 20
    ensures |Window(rows, Offset(3, 20), 20)| == 5
    ensures Window(rows, Offset(4, 20), 20) == []
  {
  }

  // ---------------------------------------------------------------------------
  // Links

  /** A pagination link's query string as key/value pairs, in order (URL encoding is not modelled). */
  type Link = seq<(string, Value)>

  /** `URLSearchParams.get`: the value of the first pair with that key. */
  function Lookup(link: Link, key: string): Option<Value>
  {
    if link == [] then None
    else if link[0].0 == key then Some(link[0].1)
    else Lookup(link[1..], key)
  }

  /** Looking a key up in a concatenation finds it in the first part when it is there. */
  lemma {:induction false} LookupAppend(a: Link, b: Link, key: string)
    ensures Lookup(a + b, key) == if Lookup(a, key).Some? then Lookup(a, key) else Lookup(b, key)
  {
    if a == [] {
      assert a + b == b;
    } else {
      assert (a + b)[0] == a[0];
      assert (a + b)[1..] == a[1..] + b;
      LookupAppend(a[1..], b, key);
    }
  }

  /** Looking up a key in a one-pair link. */
  lemma LookupSingle(x: (string, Value), key: string)
    ensures Lookup([x], key) == if x.0 == key then Some(x.1) else None
  {
    assert [x][1..] == [];
    assert Lookup([x], key) == if x.0 == key then Some(x.1) else Lookup([], key);
  }

  /** Looking up a key among the two trailing pairs (page and limit) of a link. */
  lemma LookupPair(x: (string, Value), y: (string, Value), key: string)
    ensures Lookup([x, y], key) == if x.0 == key then Some(x.1) else if y.0 == key then Some(y.1) else None
  {
    assert [x, y][1..] == [y];
    assert [y][1..] == [];
    assert Lookup([y], key) == if y.0 == key then Some(y.1) else Lookup([], key);
    assert Lookup([x, y], key) == if x.0 == key then Some(x.1) else Lookup([y], key);
  }

  /** A link assembled from four parts is searched part by part. */
  lemma LookupIn4(a: Link, b: Link, c: Link, d: Link, key: string)
    ensures Lookup(a + b + c + d, key)
            == if Lookup(a, key).Some? then Lookup(a, key)
               else if Lookup(b, key).Some? then Lookup(b, key)
               else if Lookup(c, key).Some? then Lookup(c, key)
               else Lookup(d, key)
  {
    LookupAppend(a + b + c, d, key);
    LookupAppend(a + b, c, key);
    LookupAppend(a, b, key);
  }

  function TextParam(link: Link, key: string): Option<string>
  {
    match Lookup(link, key)
    case Some(Str(s)) => Some(s)
    case _ => None
  }

  function NumberParam(link: Link, key: string): Option<real>
  {
    match Lookup(link, key)
    case Some(Num(x)) => Some(x)
    case _ => None
  }

  /** The pagination block: hidden, or shown with an optional "Anterior" and an optional "Siguiente" link. */
  datatype Nav = Hidden | Shown(prev: Option<Link>, next: Option<Link>)

  /** The shown block: "Anterior" only after page 1, "Siguiente" only before the last page. */
  function Bar(page: int, totalPages: int, prev: Link, next: Link): (nav: Nav)
    ensures nav.Shown?
    ensures (nav.prev.Some? <==> page > 1) && (nav.prev.Some? ==> nav.prev.value == prev)
    ensures (nav.next.Some? <==> page < totalPages) && (nav.next.Some? ==> nav.next.value == next)
  {
    Shown(if page > 1 then Some(prev) else None, if page < totalPages then Some(next) else None)
  }

  /** `totalPages > 1 && (...)`: the block is rendered only when there is more than one page. */
  function Navigation(page: int, totalPages: int, prev: Link, next: Link): (nav: Nav)
    ensures nav.Shown? <==> totalPages > 1
    ensures nav.Shown? ==> (nav.prev.Some? <==> page > 1) && (nav.next.Some? <==> page < totalPages)
    ensures nav.Shown? && nav.prev.Some? ==> nav.prev.value == prev
    ensures nav.Shown? && nav.next.Some? ==> nav.next.value == next
  {
    if totalPages > 1 then Bar(page, totalPages, prev, next) else Hidden
  }
}
