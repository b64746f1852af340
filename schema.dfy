/**
 * The request-schema checks the report pages declare with zod, stated over
 * query values that are already decoded: a string parameter is an
 * Option<string>, a numeric one an Option<real> (None when absent).
 *
 * A check never clamps: an out-of-range value is an issue, and parsing a
 * request fails with every issue of every field, in declaration order.
 */
module Schema {
  import opened Wrappers

  /** The constraint an issue reports. */
  datatype Check = NotInteger | TooSmall(minimum: real) | TooBig(maximum: real) | NotAllowed | NotInEnum

  /** A validation issue: the offending field and the constraint it breaks. */
  datatype Issue = Issue(field: string, check: Check)

  predicate IsInteger(x: real)
  {
    x.Floor as real == x
  }

  /** A string is truthy in JavaScript when it is present and not empty. */
  predicate Truthy(v: Option<string>)
  {
    v.Some? && v.value != ""
  }

  /**
   * The issues of `z.number()` followed by the chained checks `.int()` (when
   * `integer`), `.min(min)` and `.max(max)` (when given). Each check that
   * fails adds one issue; none of them stops the others.
   */
  function NumberIssues(field: string, x: real, integer: bool, min: real, max: Option<real>): (r: seq<Issue>)
    ensures r == [] <==> (integer ==> IsInteger(x)) && min <= x && (max.Some? ==> x <= max.value)
    ensures forall i :: 0 <= i < |r| ==> r[i].field == field
  {
    (if integer && !IsInteger(x) then [Issue(field, NotInteger)] else [])
    + (if x < min then [Issue(field, TooSmall(min))] else [])
    + (if max.Some? && x > max.value then [Issue(field, TooBig(max.value))] else [])
  }

  /** An optional number: absent is fine, present must pass the checks. */
  function OptionalNumberIssues(field: string, v: Option<real>, integer: bool, min: real, max: Option<real>): (r: seq<Issue>)
    ensures r == [] <==> v.None? || ((integer ==> IsInteger(v.value)) && min <= v.value && (max.Some? ==> v.value <= max.value))
    ensures forall i :: 0 <= i < |r| ==> r[i].field == field
  {
    match v
    case None => []
    case Some(x) => NumberIssues(field, x, integer, min, max)
  }

  /** `z.string().optional().refine(val => !val || allowed.includes(val))`. */
  function AllowedIssues(field: string, v: Option<string>, allowed: seq<string>): (r: seq<Issue>)
    ensures r == [] <==> v.None? || v.value == "" || v.value in allowed
    ensures forall i :: 0 <= i < |r| ==> r[i].field == field
  {
    if !Truthy(v) || v.value in allowed then [] else [Issue(field, NotAllowed)]
  }

  /** `z.enum(values).optional()`: absent is fine, present must be one of the values (the empty string included). */
  function EnumIssues(field: string, v: Option<string>, values: seq<string>): (r: seq<Issue>)
    ensures r == [] <==> v.None? || v.value in values
    ensures forall i :: 0 <= i < |r| ==> r[i].field == field
  {
    if v.None? || v.value in values then [] else [Issue(field, NotInEnum)]
  }

  // ---------------------------------------------------------------------------
  // page and limit, shared by every report

  /** `page: z.coerce.number().int().min(1).default(1)`. */
  predicate PageAccepted(v: Option<real>)
  {
    v.None? || (IsInteger(v.value) && v.value >= 1.0)
  }

  /** `limit: z.coerce.number().int().min(5).max(50).default(20)`, both bounds inclusive. */
  predicate LimitAccepted(v: Option<real>)
  {
    v.None? || (IsInteger(v.value) && 5.0 <= v.value <= 50.0)
  }

  function PageIssues(v: Option<real>): (r: seq<Issue>)
    ensures r == [] <==> PageAccepted(v)
    ensures forall i :: 0 <= i < |r| ==> r[i].field == "page"
  {
    OptionalNumberIssues("page", v, true, 1.0, None)
  }

  function LimitIssues(v: Option<real>): (r: seq<Issue>)
    ensures r == [] <==> LimitAccepted(v)
    ensures forall i :: 0 <= i < |r| ==> r[i].field == "limit"
  {
    OptionalNumberIssues("limit", v, true, 5.0, Some(50.0))
  }

  /** The validated page: the given value unchanged, or 1 when absent. */
  function PageOf(v: Option<real>): (page: int)
    requires PageAccepted(v)
    ensures page >= 1
    ensures v.Some? ==> page as real == v.value
    ensures v.None? ==> page == 1
  {
    match v
    case None => 1
    case Some(x) => x.Floor
  }

  /** The validated limit: the given value unchanged (never clamped), or 20 when absent. */
  function LimitOf(v: Option<real>): (limit: int)
    requires LimitAccepted(v)
    ensures 5 <= limit <= 50
    ensures v.Some? ==> limit as real == v.value
    ensures v.None? ==> limit == 20
  {
    match v
    case None => 20
    case Some(x) => x.Floor
  }

  /** The limit bounds are inclusive: 5 and 50 pass, 4 and 51 are rejected, 7.5 is rejected. */
  lemma LimitBoundaries()
    ensures LimitIssues(Some(5.0)) == [] && LimitIssues(Some(50.0)) == []
    ensures LimitIssues(Some(4.0)) == [Issue("limit", TooSmall(5.0))]
    ensures LimitIssues(Some(51.0)) == [Issue("limit", TooBig(50.0))]
    ensures LimitIssues(Some(7.5)) == [Issue("limit", NotInteger)]
  {
    assert IsInteger(5.0) && IsInteger(50.0) && IsInteger(4.0) && IsInteger(51.0);
    assert (7.5).Floor == 7;
  }
}
