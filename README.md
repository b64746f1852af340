# Report pages of `evaluacion-proyecto`: query building and pagination

The project is a Next.js dashboard over a library database. It has five report pages:
- most borrowed books;
- overdue loans;
- fines summary;
- member activity;
- inventory health.

Each page goes through the same steps:
1. It validates its query string with a zod schema.
2. It builds a parameterized SQL predicate with positional `$k` placeholders and the list of values bound to them.
3. It runs a paged `SELECT ... LIMIT/OFFSET` and a `COUNT(*)` that share that predicate.
4. It computes `totalPages` and a few indicators over the rows of the current page.
5. It renders prev/next links that carry the current filters.

This Dafny project models those steps and proves what they promise.

Shared modules:

- `Wrappers`: `Option` and `Result`.
- `Schema`: zod's checks over already-decoded values.
  - `z.string().optional().refine(v => !v || allowed.includes(v))`.
  - `z.enum`.
  - `z.coerce.number()` with `.int()`, `.min()` and `.max()`, where every failing check adds one issue.
  - `.default`, which applies only to an absent value.
  - An out-of-range value is a failure. It is never clamped.
- `Sql`: a WHERE fragment as a list of clauses (`column op $k`, or `column op n` with a literal) and the two query shapes.
  - Query text is a sequence of tokens, so "the placeholders in text order are exactly `$1..$n` for the n bound values" is stated on indices rather than on strings.
  - `Resolve` binds a fragment to its values.
  - `Consistent` is the central predicate. It holds when:
    - both texts are aligned with their values;
    - the count reuses the select's fragment;
    - the count binds exactly the select's values without LIMIT and OFFSET;
    - both queries mean the same predicate;
    - the select's LIMIT and OFFSET find the limit and the offset.
- `Paging`: `offset = (page-1)*limit`, `totalPages = ceil(totalRecords/limit)`, the LIMIT/OFFSET window, and links as key/value lists.
- `Kpi`: the page-local sums, guarded averages and counts.
- `View`: what the two queries return against a view given as an ordered sequence of rows. Executing SQL is not modelled; this only fixes what a bound predicate means.

One module per page. Pages 4 and 5 build their predicate by pushing onto arrays and incrementing `paramIndex`, so `BuildPredicate` is an imperative method there. Pages 1 and 3 choose between constant fragments with ternaries, and page 2 writes one fixed predicate with fixed value lists; those three are modelled as functions.
- `MostBorrowed` is `reports/1`.
- `OverdueLoans` is `reports/2`.
- `FinesSummary` is `reports/3`.
- `MemberActivity` is `reports/4`.
- `InventoryHealth` is `reports/5`.

## Model

| member | source | states |
|---|---|---|
| Schema.NumberIssues | evaluacion-proyecto/src/app/reports/4/page.tsx:26-28 | no issue iff the number is an integer (when `.int()`), at least the minimum and at most the maximum; every issue names the field |
| Schema.OptionalNumberIssues | evaluacion-proyecto/src/app/reports/4/page.tsx:26 | an absent optional number has no issue; a present one has none iff it passes every check |
| Schema.AllowedIssues | evaluacion-proyecto/src/app/reports/4/page.tsx:18-25 | the refine passes iff the value is absent, empty, or in the allowed list |
| Schema.EnumIssues | evaluacion-proyecto/src/app/reports/3/page.tsx:14 | the enum passes iff the value is absent or one of the listed values |
| Schema.PageIssues | evaluacion-proyecto/src/app/reports/4/page.tsx:27 | `page` passes iff absent or an integer ≥ 1 |
| Schema.LimitIssues | evaluacion-proyecto/src/app/reports/4/page.tsx:28 | `limit` passes iff absent or an integer in [5, 50] |
| Schema.PageOf | evaluacion-proyecto/src/app/reports/4/page.tsx:27 | the validated page is ≥ 1, equals the given value, and is 1 when absent |
| Schema.LimitOf | evaluacion-proyecto/src/app/reports/4/page.tsx:28 | the validated limit lies in [5, 50], equals the given value (never clamped), and is 20 when absent |
| Schema.LimitBoundaries | evaluacion-proyecto/src/app/reports/4/page.tsx:28 | both bounds are inclusive: 5 and 50 pass; 4, 51 and 7.5 are each rejected with the one issue they break |
| Sql.NumberedSnoc | evaluacion-proyecto/src/app/reports/4/page.tsx:54-58 | one guarded push appends one clause, numbered right after the clauses before it, and its one value |
| Sql.NumberedResolves | evaluacion-proyecto/src/app/reports/4/page.tsx:74-87 | a predicate numbered from position k and bound to a value list holding its own values from position k on means exactly that predicate |
| Sql.ConjunctionPlaceholders | evaluacion-proyecto/src/app/reports/4/page.tsx:72 | joining clauses with AND keeps their placeholders in clause order |
| Sql.WherePlaceholders | evaluacion-proyecto/src/app/reports/4/page.tsx:72 | the WHERE fragment contributes exactly its clauses' placeholders |
| Sql.SelectPlaceholders | evaluacion-proyecto/src/app/reports/4/page.tsx:74-82 | the select's placeholders are the filter placeholders followed by LIMIT's and OFFSET's |
| Sql.CountPlaceholders | evaluacion-proyecto/src/app/reports/4/page.tsx:84-87 | the count's placeholders are exactly the filter placeholders |
| Sql.NumberedIndices | evaluacion-proyecto/src/app/reports/4/page.tsx:50-70 | numbered clauses carry the consecutive indices first, first+1, … |
| Sql.Decimal | evaluacion-proyecto/src/app/reports/4/page.tsx:80 | `${n}` is a non-empty digit string without a leading zero unless n is 0 |
| Sql.DecimalRoundTrip | evaluacion-proyecto/src/app/reports/4/page.tsx:80 | reading the digits of `${n}` back gives n, so `$k` in the text names the index k |
| Sql.Conjunction | evaluacion-proyecto/src/app/reports/4/page.tsx:72 | `join(' AND ')`: clause i occupies tokens 4i..4i+2, with AND between neighbours and nowhere else, 4n-1 tokens in all |
| Sql.WhereText | evaluacion-proyecto/src/app/reports/4/page.tsx:72 | `whereClause` is '' iff no clause was added, and starts with 'WHERE ' otherwise |
| Sql.PagedSelectAligned | evaluacion-proyecto/src/app/reports/4/page.tsx:74-82 | the select's placeholders are `$1..$(n+2)` for its n filter values plus limit and offset |
| Sql.FilteredCountAligned | evaluacion-proyecto/src/app/reports/4/page.tsx:84-87 | the count's placeholders are `$1..$n` for its n filter values |
| Sql.PagedSelectMeaning | evaluacion-proyecto/src/app/reports/4/page.tsx:74-82 | the select binds the predicate, LIMIT to the limit and OFFSET to the offset |
| Sql.FilteredCountMeaning | evaluacion-proyecto/src/app/reports/4/page.tsx:84-87 | the count binds exactly the same predicate |
| Sql.PagedQueriesConsistent | evaluacion-proyecto/src/app/reports/4/page.tsx:50-87 | for every predicate, the push-built select and count are `Consistent` |
| Sql.ValuesNeverInText | evaluacion-proyecto/src/app/reports/4/page.tsx:50-87 | values are bound and never written into the text: predicates with the same columns and operators give the same select and count text whatever their values, limit and offset |
| Paging.Offset | evaluacion-proyecto/src/app/reports/4/page.tsx:48 | the offset is never negative for a valid page and limit |
| Paging.TotalPages | evaluacion-proyecto/src/app/reports/4/page.tsx:91 | `ceil(n/limit)`: 0 iff there are no records, and the least page count whose pages hold all n records |
| Paging.PagesAdjacent | evaluacion-proyecto/src/app/reports/4/page.tsx:48 | page p+1 starts exactly `limit` rows after page p |
| Paging.PageStartsInside | evaluacion-proyecto/src/app/reports/4/page.tsx:48-91 | a page's first row exists iff page ≤ totalPages |
| Paging.Window | evaluacion-proyecto/src/app/reports/4/page.tsx:80 | LIMIT/OFFSET returns at most `limit` rows, exactly the ones from position `offset` on |
| Paging.BeyondLastPageIsEmpty | evaluacion-proyecto/src/app/reports/4/page.tsx:80-91 | a page after the last one returns no rows |
| Paging.PagesUpToTotalAreFilled | evaluacion-proyecto/src/app/reports/4/page.tsx:80-91 | every page up to the last is non-empty and every page before the last is full |
| Paging.FortyFiveRowsScenario | evaluacion-proyecto/src/app/reports/4/page.tsx:48-91 | 45 rows at limit 20 give 3 pages of 20, 20 and 5 rows, and page 4 is empty |
| Paging.Bar | evaluacion-proyecto/src/app/reports/3/page.tsx:148-161 | the block is shown; "Anterior" iff page > 1, carrying the previous-page link; "Siguiente" iff page < totalPages, carrying the next-page link |
| Paging.Navigation | evaluacion-proyecto/src/app/reports/4/page.tsx:218-244 | `totalPages > 1 && (...)` (also 2/page.tsx:129-145 and 5/page.tsx:224-249): shown iff totalPages > 1; then "Anterior" iff page > 1 and "Siguiente" iff page < totalPages, with the given links |
| Kpi.SumAppend | evaluacion-proyecto/src/app/reports/4/page.tsx:94 | the reduce total of a page split in two is the sum of the parts |
| Kpi.SumBounds | evaluacion-proyecto/src/app/reports/4/page.tsx:94 | n contributions within [lo, hi] sum to within [n·lo, n·hi] |
| Kpi.SumDominated | evaluacion-proyecto/src/app/reports/5/page.tsx:85-86 | a sum of smaller contributions is no larger |
| Kpi.SumNonNegative | evaluacion-proyecto/src/app/reports/1/page.tsx:66 | non-negative contributions have a non-negative sum |
| Kpi.Average | evaluacion-proyecto/src/app/reports/4/page.tsx:95-97 | the guarded mean is 0 on an empty page and otherwise times the row count gives the sum |
| Kpi.AverageBounds | evaluacion-proyecto/src/app/reports/4/page.tsx:95-97 | the mean of values within [lo, hi] is within [lo, hi] |
| Kpi.CountWhere | evaluacion-proyecto/src/app/reports/4/page.tsx:98 | `filter(p).length` is ≤ the row count, 0 iff no row matches, and the row count iff every row matches |
| View.Matching | evaluacion-proyecto/src/app/reports/4/page.tsx:74-87 | the rows the predicate selects are exactly the view's rows that satisfy it |
| View.RunSelect | evaluacion-proyecto/src/app/reports/4/page.tsx:74-82 | the select returns nothing when it cannot be bound; otherwise at most `limit` rows, all rows of the view satisfying the bound predicate |
| View.RunCount | evaluacion-proyecto/src/app/reports/4/page.tsx:84-87 | the count has a value iff it can be bound, and never exceeds the size of the view |
| View.MatchingKeepsOrder | evaluacion-proyecto/src/app/reports/1/page.tsx:49-53 | filtering a view in descending order of a key keeps the rows in that order |
| View.SelectKeepsOrder | evaluacion-proyecto/src/app/reports/1/page.tsx:48-55 | the page the select returns from a view in descending order is in descending order |
| View.ConsistentQueriesAgree | evaluacion-proyecto/src/app/reports/4/page.tsx:74-91 | for consistent queries the count is the number of matching rows and the page is their LIMIT/OFFSET window |
| View.PageAgreesWithCount | evaluacion-proyecto/src/app/reports/4/page.tsx:74-91 | the page has at most `limit` rows and no more than the count, all satisfying the predicate, and is non-empty iff page ≤ totalPages |
| MostBorrowed.Parse | evaluacion-proyecto/src/app/reports/1/page.tsx:14-39 | succeeds iff the category is absent, empty or one of the seven, and page and limit pass; then keeps every value; a failure lists issues of known fields |
| MostBorrowed.Filters | evaluacion-proyecto/src/app/reports/1/page.tsx:44-46 | empty iff the category is absent or empty; otherwise the one condition `categoria = <category>` |
| MostBorrowed.WhereClause | evaluacion-proyecto/src/app/reports/1/page.tsx:44 | empty iff the category is absent or empty; it is the predicate numbered from `$1` |
| MostBorrowed.QueryParams | evaluacion-proyecto/src/app/reports/1/page.tsx:45 | the predicate's values followed by limit and offset, so position `paramStart` holds the limit and `paramStart + 1` the offset |
| MostBorrowed.ParamStart | evaluacion-proyecto/src/app/reports/1/page.tsx:46 | LIMIT's placeholder is one past the number of filter conditions |
| MostBorrowed.PageQuery | evaluacion-proyecto/src/app/reports/1/page.tsx:48-55 | the select is the generic paged select of the predicate: placeholders `$1..$n` for its n values, meaning the predicate with this page's limit and offset |
| MostBorrowed.CountQuery | evaluacion-proyecto/src/app/reports/1/page.tsx:58-61 | the count is the generic count of the predicate: placeholders `$1..$n` for its n values, meaning the predicate |
| MostBorrowed.WhereTextOf | evaluacion-proyecto/src/app/reports/1/page.tsx:44 | `whereClause` is 'WHERE categoria = $1' iff the category is non-empty, else '' |
| MostBorrowed.QueriesConsistent | evaluacion-proyecto/src/app/reports/1/page.tsx:44-61 | the three ternaries agree: the queries are the generic paged pair of the predicate, so `$paramStart` binds the limit in both branches and the count binds `[categoria]` or `[]` |
| MostBorrowed.PageInCategory | evaluacion-proyecto/src/app/reports/1/page.tsx:44-63 | every book returned for a category is of that category |
| MostBorrowed.TotalLoans | evaluacion-proyecto/src/app/reports/1/page.tsx:66 | 0 on an empty page, and non-negative when every loan count is |
| MostBorrowed.TopBook | evaluacion-proyecto/src/app/reports/1/page.tsx:67 | the top book is absent iff the page is empty, and is otherwise the first row of the page |
| MostBorrowed.TopBookIsMostBorrowed | evaluacion-proyecto/src/app/reports/1/page.tsx:52-67 | in the query's order the top book has the most loans on the page |
| MostBorrowed.TopBookOfPageIsMostBorrowed | evaluacion-proyecto/src/app/reports/1/page.tsx:48-67 | from a view in `total_prestamos DESC` order, the page the select returns is in that order and its top book has the most loans on the page |
| MostBorrowed.TotalLoansCoversTopBook | evaluacion-proyecto/src/app/reports/1/page.tsx:66-67 | with non-negative counts the page total is at least the top book's loans |
| MostBorrowed.LinkTo | evaluacion-proyecto/src/app/reports/1/page.tsx:116-123 | following the link sends the category (or '' without one), the target page and the limit |
| MostBorrowed.Pagination | evaluacion-proyecto/src/app/reports/1/page.tsx:107-131 | shown iff the page has a top book and totalPages > 1; prev iff page > 1 to page-1, next iff page < totalPages to page+1 |
| MostBorrowed.NoWayBackPastTheEnd | evaluacion-proyecto/src/app/reports/1/page.tsx:107-131 | past the last page the select returns nothing and no navigation is shown |
| MostBorrowed.LinkKeepsFilters | evaluacion-proyecto/src/app/reports/1/page.tsx:116-123 | following a link re-validates with the same predicate and limit at the target page |
| OverdueLoans.Parse | evaluacion-proyecto/src/app/reports/2/page.tsx:13-32 | succeeds iff `dias_minimos` is absent or an integer in [0, 365] and page and limit pass; the minimum defaults to 0 |
| OverdueLoans.Filters | evaluacion-proyecto/src/app/reports/2/page.tsx:40 | the predicate is never empty |
| OverdueLoans.PageQuery | evaluacion-proyecto/src/app/reports/2/page.tsx:37-44 | the literal `$1/$2/$3` select is the generic paged select of the predicate: aligned with its three values, meaning the minimum with this page's limit and offset |
| OverdueLoans.CountQuery | evaluacion-proyecto/src/app/reports/2/page.tsx:47-50 | the `[dias_minimos]` count is the generic count of the predicate: `$1` aligned with its value, meaning the minimum |
| OverdueLoans.QueriesConsistent | evaluacion-proyecto/src/app/reports/2/page.tsx:37-50 | the literal `$1/$2/$3` select and the `[dias_minimos]` count are the generic paged pair, hence `Consistent` |
| OverdueLoans.TotalOverdue | evaluacion-proyecto/src/app/reports/2/page.tsx:56 | the page's row count: 0 iff the page is empty |
| OverdueLoans.AvgDaysOverdue | evaluacion-proyecto/src/app/reports/2/page.tsx:56-57 | dividing by the row count, or by 1 on an empty page, is the guarded mean |
| OverdueLoans.EmptyPageIndicators | evaluacion-proyecto/src/app/reports/2/page.tsx:56-57 | on an empty page the count and the average are 0 |
| OverdueLoans.AvgAtLeastMinimum | evaluacion-proyecto/src/app/reports/2/page.tsx:57 | rows all at least d days late average at least d |
| OverdueLoans.PageRespectsMinimum | evaluacion-proyecto/src/app/reports/2/page.tsx:37-57 | every returned loan is at least `dias_minimos` late, there are no more than counted, and their average is at least the minimum |
| OverdueLoans.TwoOfThreeScenario | evaluacion-proyecto/src/app/reports/2/page.tsx:37-57 | delays 15, 10, 5 with minimum 10: page [15, 10], count 2, average 12.5 |
| OverdueLoans.LinkTo | evaluacion-proyecto/src/app/reports/2/page.tsx:132-139 | following the link sends the minimum, the target page and the limit |
| OverdueLoans.Pagination | evaluacion-proyecto/src/app/reports/2/page.tsx:129-145 | `Paging.Navigation` whose "Anterior" asks for page-1 and whose "Siguiente" asks for page+1 |
| OverdueLoans.LinkKeepsFilters | evaluacion-proyecto/src/app/reports/2/page.tsx:132-139 | following a link validates to the same minimum and limit at the target page |
| FinesSummary.Parse | evaluacion-proyecto/src/app/reports/3/page.tsx:13-32 | succeeds iff the flag is absent, 'true' or 'false' and page and limit pass; the flag defaults to 'false' |
| FinesSummary.Filters | evaluacion-proyecto/src/app/reports/3/page.tsx:36 | empty iff the flag is not 'true'; otherwise the one condition `total_pendiente > 0` |
| FinesSummary.WhereClause | evaluacion-proyecto/src/app/reports/3/page.tsx:36 | empty iff the flag is not 'true'; it holds no placeholder in either branch |
| FinesSummary.QueryParams | evaluacion-proyecto/src/app/reports/3/page.tsx:37 | both branches bind `[limit, offset]`, whatever the flag |
| FinesSummary.PageQuery | evaluacion-proyecto/src/app/reports/3/page.tsx:39-46 | placeholders `$1`, `$2` aligned with `[limit, offset]`; it means the flag's predicate with this page's limit and offset |
| FinesSummary.CountQuery | evaluacion-proyecto/src/app/reports/3/page.tsx:49-51 | no bound value and no placeholder; it means the flag's predicate |
| FinesSummary.PendingResolves | evaluacion-proyecto/src/app/reports/3/page.tsx:36 | the constant fragment binds no value and means `total_pendiente > 0` under any values |
| FinesSummary.PendingText | evaluacion-proyecto/src/app/reports/3/page.tsx:36 | the fragment reads 'WHERE total_pendiente > 0' |
| FinesSummary.WhereTextOf | evaluacion-proyecto/src/app/reports/3/page.tsx:36 | `whereClause` is that text iff the flag is 'true', else '' |
| FinesSummary.QueriesConsistent | evaluacion-proyecto/src/app/reports/3/page.tsx:36-51 | in both branches LIMIT is $1 and OFFSET is $2 over `[limit, offset]`, and the count binds nothing, for the same predicate |
| FinesSummary.TotalPagado | evaluacion-proyecto/src/app/reports/3/page.tsx:58 | 0 on an empty page, and non-negative when every paid amount is |
| FinesSummary.TotalPendiente | evaluacion-proyecto/src/app/reports/3/page.tsx:59 | 0 on an empty page, and non-negative when every pending amount is |
| FinesSummary.TotalGenerado | evaluacion-proyecto/src/app/reports/3/page.tsx:60 | 0 on an empty page, and non-negative when every generated amount is |
| FinesSummary.EmptyPageIndicators | evaluacion-proyecto/src/app/reports/3/page.tsx:58-60 | the three sums are 0 on an empty page |
| FinesSummary.PaidWithinGenerated | evaluacion-proyecto/src/app/reports/3/page.tsx:58-60 | when no month paid more than it generated, the paid total is at most the generated total |
| FinesSummary.CollectedPercent | evaluacion-proyecto/src/app/reports/3/page.tsx:127-129 | 0 when nothing was generated (no division by zero); otherwise percent × generated = paid × 100; within [0, 100] when paid ≤ generated |
| FinesSummary.LinkTo | evaluacion-proyecto/src/app/reports/3/page.tsx:150-157 | following the link sends the flag, the target page and the limit |
| FinesSummary.Pagination | evaluacion-proyecto/src/app/reports/3/page.tsx:148-161 | always shown (`Paging.Bar`, no guard); "Anterior" asks for page-1 and "Siguiente" for page+1 |
| FinesSummary.LinkKeepsFilters | evaluacion-proyecto/src/app/reports/3/page.tsx:150-157 | following a link validates to the same flag and limit at the target page |
| MemberActivity.Parse | evaluacion-proyecto/src/app/reports/4/page.tsx:14-46 | succeeds iff both strings are absent, empty or allowed, the rate is absent or within [0, 100], and page and limit pass; then keeps every value |
| MemberActivity.Filters | evaluacion-proyecto/src/app/reports/4/page.tsx:54-70 | at most three conditions, none iff no filter is present |
| MemberActivity.PresenceTests | evaluacion-proyecto/src/app/reports/4/page.tsx:54-66 | an empty member type adds no clause; a minimum rate of 0 does add its `>=` clause |
| MemberActivity.BuildPredicate | evaluacion-proyecto/src/app/reports/4/page.tsx:50-70 | the pushed clauses are the predicate numbered from $1, the pushed values are its values, and `paramIndex` is one more than the number of values |
| MemberActivity.BuildQueries | evaluacion-proyecto/src/app/reports/4/page.tsx:72-87 | the select and count are the generic paged pair ordered by loans descending, and they are `Consistent` |
| MemberActivity.TotalLoans | evaluacion-proyecto/src/app/reports/4/page.tsx:94 | 0 on an empty page, and non-negative when every loan count is |
| MemberActivity.AvgOverdueRate | evaluacion-proyecto/src/app/reports/4/page.tsx:95-97 | 0 on an empty page; otherwise times the row count gives the sum of rates |
| MemberActivity.ActiveMembers | evaluacion-proyecto/src/app/reports/4/page.tsx:98 | at most the row count, and 0 iff no row is 'Socio Frecuente' |
| MemberActivity.EmptyPageIndicators | evaluacion-proyecto/src/app/reports/4/page.tsx:94-98 | every indicator is 0 on an empty page |
| MemberActivity.AvgOverdueRateIsPercentage | evaluacion-proyecto/src/app/reports/4/page.tsx:95-97 | the mean of percentages is a percentage |
| MemberActivity.Pagination | evaluacion-proyecto/src/app/reports/4/page.tsx:218-244 | `Paging.Navigation` whose "Anterior" asks for page-1 and whose "Siguiente" asks for page+1 |
| MemberActivity.LinkTo | evaluacion-proyecto/src/app/reports/4/page.tsx:221-226 | following the link sends the truthy filters, the rate when defined, the target page and the limit |
| MemberActivity.LinkKeepsFilters | evaluacion-proyecto/src/app/reports/4/page.tsx:220-241 | following a link re-validates with the same predicate and limit at the target page |
| InventoryHealth.Parse | evaluacion-proyecto/src/app/reports/5/page.tsx:14-40 | succeeds iff the state is absent, empty or allowed, the minimum is absent or within [0, 100], and page and limit pass; then keeps every value |
| InventoryHealth.Filters | evaluacion-proyecto/src/app/reports/5/page.tsx:49-59 | at most two conditions, none iff no filter is present |
| InventoryHealth.BuildPredicate | evaluacion-proyecto/src/app/reports/5/page.tsx:45-59 | the pushed clauses are the predicate numbered from $1, the values its values, and `paramIndex` is one more than the number of values |
| InventoryHealth.BuildQueries | evaluacion-proyecto/src/app/reports/5/page.tsx:61-78 | the select and count are the generic paged pair ordered by availability ascending, and they are `Consistent` |
| InventoryHealth.TotalCopies | evaluacion-proyecto/src/app/reports/5/page.tsx:85 | 0 on an empty page, and non-negative when every copy count is |
| InventoryHealth.TotalAvailable | evaluacion-proyecto/src/app/reports/5/page.tsx:86 | 0 on an empty page, and non-negative when every available count is |
| InventoryHealth.TotalLost | evaluacion-proyecto/src/app/reports/5/page.tsx:87 | 0 on an empty page, and non-negative when every lost count is |
| InventoryHealth.AvgAvailability | evaluacion-proyecto/src/app/reports/5/page.tsx:88-90 | 0 on an empty page; otherwise times the row count gives the sum |
| InventoryHealth.CriticalCategories | evaluacion-proyecto/src/app/reports/5/page.tsx:91 | at most the row count, and 0 iff no state contains 'Crítico' |
| InventoryHealth.IncludesWherever | evaluacion-proyecto/src/app/reports/5/page.tsx:91 | `includes` finds a substring wherever it sits, and never one longer than the string |
| InventoryHealth.OnlyTheCriticalStateCounts | evaluacion-proyecto/src/app/reports/5/page.tsx:14-91 | of the three allowed states only 'Crítico: Muchas Pérdidas' contains 'Crítico' |
| InventoryHealth.EmptyPageIndicators | evaluacion-proyecto/src/app/reports/5/page.tsx:85-91 | every indicator is 0 on an empty page |
| InventoryHealth.AvgAvailabilityIsPercentage | evaluacion-proyecto/src/app/reports/5/page.tsx:88-90 | the mean of percentages is a percentage |
| InventoryHealth.AvailableWithinCopies | evaluacion-proyecto/src/app/reports/5/page.tsx:85-86 | with each category's available copies at most its copies, the same holds for the page totals |
| InventoryHealth.Pagination | evaluacion-proyecto/src/app/reports/5/page.tsx:224-249 | `Paging.Navigation` whose "Anterior" asks for page-1 and whose "Siguiente" asks for page+1 |
| InventoryHealth.LinkTo | evaluacion-proyecto/src/app/reports/5/page.tsx:227-231 | following the link sends the truthy state, the minimum when defined, the target page and the limit |
| InventoryHealth.LinkKeepsFilters | evaluacion-proyecto/src/app/reports/5/page.tsx:226-246 | following a link re-validates with the same predicate and limit at the target page |

## Left out

- Database access (`pool.query`, `lib/db`) is not modelled. `View` gives the two queries a meaning over an ordered sequence of rows.
  - The view's order stands for the ORDER BY; sorting is not modelled. The pages do not break ties under their sort key, so two requests may return tied rows in different orders and a tied row may move between pages. The model fixes one order for the view.
  - `COUNT(*)` is the length of the filtered rows, and `parseInt` of its text is not modelled.
  - Both queries are evaluated against the same `view`, so both are assumed to read one snapshot. Each page issues two independent `pool.query` calls outside any transaction (for example `reports/4/page.tsx:74-87`). A write between them can make the count disagree with the page. `View.PageAgreesWithCount`, `MostBorrowed.NoWayBackPastTheEnd` and `OverdueLoans.PageRespectsMinimum` hold only under that assumption.
- Rows arrive already decoded, with numeric columns as numbers. The KPI reduces of reports 1, 3, 4 and 5 wrap each column in `Number()`, but report 2 adds `r.dias_atraso` as is (`reports/2/page.tsx:57`). If the driver returned that column as text, `+` would concatenate strings and the average would be wrong. `OverdueLoans.AvgDaysOverdue` assumes numbers.
- zod's string coercion is not modelled: `Number('')` is 0, `NaN`, and array-valued parameters are all out. Requests are already-decoded `Option<string>` and `Option<real>` values.
- Error reporting is simplified. A failed parse is `Failure(issues)` with the fields and checks that failed; zod's exception object and its messages are not modelled.
- Links are key/value lists with typed values. `URLSearchParams` percent-encoding and the string form of template-literal links are not modelled; decoding a link is a lookup of the first value under a key.
- SQL text is a list of tokens rendered with single spaces. The source's newlines and indentation are not modelled.
- Averages and percentages are exact `real`s. IEEE rounding, `toFixed`, `toLocaleString`, colours, CSS and dates are not modelled.
- Integers are unbounded. `page` has no upper bound, and JavaScript numbers are exact only up to 2^53. Float inexactness or overflow of the offset `(page - 1) * limit` and of the link targets `page - 1` and `page + 1`, above 2^53/limit, is not modelled. Neither is PostgreSQL's rejection of an offset outside the bigint range.
- async/await and the `searchParams` promise are not modelled.
- `evaluacion-proyecto/src/app/page.tsx` is a static list of links to the five reports and is not part of this model.
- Report 1 nests its pagination block inside the top-book indicator. A request for a page past the last one shows neither rows nor a way back. The model keeps this as written (`MostBorrowed.Pagination`, `MostBorrowed.NoWayBackPastTheEnd`) and does not treat it as a defect.
