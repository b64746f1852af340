/**
 * Parameterized SQL as the report pages build it: a WHERE fragment made of
 * clauses whose right-hand sides are positional `$k` placeholders, the list of
 * values bound to those placeholders, and the paged SELECT and the COUNT that
 * share one fragment.
 *
 * Query text is modelled as a sequence of tokens (a word, or a placeholder
 * `$k`), so that "every `$k` in the text refers to the k-th bound value" is a
 * statement about the placeholder indices in text order rather than about a
 * string search.
 */
module Sql {
  import opened Wrappers

  /** A scalar bound to a placeholder (or carried in a pagination link). */
  datatype Value = Str(s: string) | Num(x: real)

  datatype Op = Eq | Ge | Gt

  /** The right-hand side of a clause: a placeholder `$index`, or an integer literal written into the text. */
  datatype Operand = Param(index: nat) | Literal(n: nat)

  /** One conjunct of a WHERE fragment: `column op $k` or `column op n`. */
  datatype Clause = Clause(column: string, op: Op, rhs: Operand)

  /** One conjunct with its value resolved: what a clause means once bound. */
  datatype Cond = Cond(column: string, op: Op, value: Value)

  datatype Direction = Asc | Desc

  /** `SELECT columns FROM view [WHERE ...] ORDER BY orderBy direction LIMIT $limitAt OFFSET $offsetAt` with its bound values. */
  datatype Select = Select(columns: string, view: string, where: seq<Clause>, orderBy: string,
                           direction: Direction, limitAt: nat, offsetAt: nat, args: seq<Value>)

  /** `SELECT COUNT(*) as total FROM view [WHERE ...]` with its bound values. */
  datatype Count = Count(view: string, where: seq<Clause>, args: seq<Value>)

  // ---------------------------------------------------------------------------
  // Numbering a predicate: clause i gets placeholder $(first + i)

  function Numbered(fs: seq<Cond>, first: nat): seq<Clause>
  {
    seq(|fs|, i requires 0 <= i < |fs| => Clause(fs[i].column, fs[i].op, Param(first + i)))
  }

  /** The bound values of a predicate, in clause order. */
  function ValuesOf(fs: seq<Cond>): seq<Value>
  {
    seq(|fs|, i requires 0 <= i < |fs| => fs[i].value)
  }

  /** Appending one condition appends one clause, numbered right after the others, and one value. */
  lemma NumberedSnoc(fs: seq<Cond>, f: Cond, first: nat)
    ensures Numbered(fs + [f], first) == Numbered(fs, first) + [Clause(f.column, f.op, Param(first + |fs|))]
    ensures ValuesOf(fs + [f]) == ValuesOf(fs) + [f.value]
  {
    var a, b := Numbered(fs + [f], first), Numbered(fs, first) + [Clause(f.column, f.op, Param(first + |fs|))];
    assert |a| == |b|;
    forall i | 0 <= i < |a| ensures a[i] == b[i] {
      if i < |fs| { assert (fs + [f])[i] == fs[i]; }
    }
    var c, d := ValuesOf(fs + [f]), ValuesOf(fs) + [f.value];
    forall i | 0 <= i < |c| ensures c[i] == d[i] {
      if i < |fs| { assert (fs + [f])[i] == fs[i]; }
    }
  }

  // ---------------------------------------------------------------------------
  // Binding placeholders to values

  function BindClause(c: Clause, args: seq<Value>): Option<Cond>
  {
    match c.rhs
    case Param(k) => if 1 <= k <= |args| then Some(Cond(c.column, c.op, args[k - 1])) else None
    case Literal(n) => Some(Cond(c.column, c.op, Num(n as real)))
  }

  /** The predicate a WHERE fragment stands for once bound to `args`; None when some `$k` has no value. */
  function Resolve(cs: seq<Clause>, args: seq<Value>): Option<seq<Cond>>
  {
    if forall i :: 0 <= i < |cs| ==> BindClause(cs[i], args).Some? then
      Some(seq(|cs|, i requires 0 <= i < |cs| => BindClause(cs[i], args).value))
    else
      None
  }

  /**
   * Round trip: numbering a predicate from `|before| + 1` and binding it to a
   * value list that holds the predicate's values at exactly those positions
   * gives the predicate back. Every `$k` finds the value of its own clause.
   */
  lemma NumberedResolves(fs: seq<Cond>, before: seq<Value>, after: seq<Value>)
    ensures Resolve(Numbered(fs, |before| + 1), before + ValuesOf(fs) + after) == Some(fs)
  {
    var cs, args := Numbered(fs, |before| + 1), before + ValuesOf(fs) + after;
    forall i | 0 <= i < |cs| ensures BindClause(cs[i], args) == Some(fs[i]) {
      assert args[|before| + i] == fs[i].value;
    }
    var r := seq(|cs|, i requires 0 <= i < |cs| => BindClause(cs[i], args).value);
    assert r == fs;
  }

  // ---------------------------------------------------------------------------
  // Query text as tokens

  datatype Token = Word(text: string) | Placeholder(index: nat)

  function OpText(op: Op): string
  {
    match op
    case Eq => "="
    case Ge => ">="
    case Gt => ">"
  }

  function ClauseTokens(c: Clause): seq<Token>
  {
    [Word(c.column), Word(OpText(c.op))]
    + match c.rhs
      case Param(k) => [Placeholder(k)]
      case Literal(n) => [Word(Decimal(n))]
  }

  /** `(Joined(cs, ts))`: ts is the clauses of cs, each three tokens long, with AND between neighbours. */
  predicate Joined(cs: seq<Clause>, ts: seq<Token>)
  {
    && |ts| == (if cs == [] then 0 else 4 * |cs| - 1)
    && forall i :: 0 <= i < |cs| ==>
         ts[4 * i .. 4 * i + 3] == ClauseTokens(cs[i]) && (i < |cs| - 1 ==> ts[4 * i + 3] == Word("AND"))
  }

  /** Putting a clause and AND in front of the join of the remaining clauses joins them all. */
  lemma JoinedCons(cs: seq<Clause>, rest: seq<Token>)
    requires |cs| >= 2 && Joined(cs[1..], rest)
    ensures Joined(cs, ClauseTokens(cs[0]) + [Word("AND")] + rest)
  {
    var ts := ClauseTokens(cs[0]) + [Word("AND")] + rest;
    forall i | 0 <= i < |cs|
      ensures ts[4 * i .. 4 * i + 3] == ClauseTokens(cs[i]) && (i < |cs| - 1 ==> ts[4 * i + 3] == Word("AND"))
    {
      if i > 0 {
        assert cs[1..][i - 1] == cs[i];
        assert ts[4 * i .. 4 * i + 3] == rest[4 * (i - 1) .. 4 * (i - 1) + 3];
        if i < |cs| - 1 {
          assert ts[4 * i + 3] == rest[4 * (i - 1) + 3];
        }
      }
    }
  }

  /** `c0 AND c1 AND ...`, the source's `whereClauses.join(' AND ')`. */
  function Conjunction(cs: seq<Clause>): (ts: seq<Token>)
    ensures Joined(cs, ts)
    decreases |cs|
  {
    if |cs| == 0 then []
    else if |cs| == 1 then ClauseTokens(cs[0])
    else
      var rest := Conjunction(cs[1..]);
      JoinedCons(cs, rest);
      ClauseTokens(cs[0]) + [Word("AND")] + rest
  }

  /** Empty when there is no clause, otherwise `WHERE` and the conjunction. */
  function WhereTokens(cs: seq<Clause>): seq<Token>
  {
    if |cs| == 0 then [] else [Word("WHERE")] + Conjunction(cs)
  }

  function DirectionText(d: Direction): string
  {
    match d
    case Asc => "ASC"
    case Desc => "DESC"
  }

  function SelectTokens(q: Select): seq<Token>
  {
    [Word("SELECT"), Word(q.columns), Word("FROM"), Word(q.view)]
    + WhereTokens(q.where)
    + [Word("ORDER"), Word("BY"), Word(q.orderBy), Word(DirectionText(q.direction))]
    + [Word("LIMIT"), Placeholder(q.limitAt), Word("OFFSET"), Placeholder(q.offsetAt)]
  }

  function CountTokens(q: Count): seq<Token>
  {
    [Word("SELECT"), Word("COUNT(*)"), Word("as"), Word("total"), Word("FROM"), Word(q.view)]
    + WhereTokens(q.where)
  }

  /** The placeholder indices of a token sequence, in text order. */
  function Placeholders(ts: seq<Token>): seq<nat>
  {
    if ts == [] then []
    else (if ts[0].Placeholder? then [ts[0].index] else []) + Placeholders(ts[1..])
  }

  /** The placeholder indices of a list of clauses, in clause order. */
  function ParamIndices(cs: seq<Clause>): seq<nat>
  {
    if cs == [] then []
    else (if cs[0].rhs.Param? then [cs[0].rhs.index] else []) + ParamIndices(cs[1..])
  }

  lemma {:induction false} PlaceholdersAppend(a: seq<Token>, b: seq<Token>)
    ensures Placeholders(a + b) == Placeholders(a) + Placeholders(b)
  {
    if a == [] {
      assert a + b == b;
    } else {
      assert (a + b)[0] == a[0];
      assert (a + b)[1..] == a[1..] + b;
      PlaceholdersAppend(a[1..], b);
    }
  }

  lemma {:induction false} WordsHaveNoPlaceholders(ts: seq<Token>)
    requires forall i :: 0 <= i < |ts| ==> ts[i].Word?
    ensures Placeholders(ts) == []
  {
    if ts != [] {
      WordsHaveNoPlaceholders(ts[1..]);
    }
  }

  lemma PlaceholdersSingle(t: Token)
    ensures Placeholders([t]) == if t.Placeholder? then [t.index] else []
  {
    assert [t][1..] == [];
  }

  lemma ClausePlaceholders(c: Clause)
    ensures Placeholders(ClauseTokens(c)) == if c.rhs.Param? then [c.rhs.index] else []
  {
    var words := [Word(c.column), Word(OpText(c.op))];
    var last := match c.rhs case Param(k) => Placeholder(k) case Literal(n) => Word(Decimal(n));
    assert ClauseTokens(c) == words + [last];
    WordsHaveNoPlaceholders(words);
    PlaceholdersSingle(last);
    PlaceholdersAppend(words, [last]);
  }

  lemma {:induction false} ConjunctionPlaceholders(cs: seq<Clause>)
    ensures Placeholders(Conjunction(cs)) == ParamIndices(cs)
    decreases |cs|
  {
    if |cs| == 1 {
      assert cs[1..] == [];
      ClausePlaceholders(cs[0]);
    } else if |cs| > 1 {
      ClausePlaceholders(cs[0]);
      WordsHaveNoPlaceholders([Word("AND")]);
      PlaceholdersAppend(ClauseTokens(cs[0]), [Word("AND")]);
      PlaceholdersAppend(ClauseTokens(cs[0]) + [Word("AND")], Conjunction(cs[1..]));
      ConjunctionPlaceholders(cs[1..]);
    }
  }

  /** The WHERE fragment contributes exactly its clauses' placeholders, in order. */
  lemma WherePlaceholders(cs: seq<Clause>)
    ensures Placeholders(WhereTokens(cs)) == ParamIndices(cs)
  {
    if |cs| > 0 {
      WordsHaveNoPlaceholders([Word("WHERE")]);
      PlaceholdersAppend([Word("WHERE")], Conjunction(cs));
      ConjunctionPlaceholders(cs);
    }
  }

  /** In the select text, the filter placeholders come first, then LIMIT's and OFFSET's. */
  lemma SelectPlaceholders(q: Select)
    ensures Placeholders(SelectTokens(q)) == ParamIndices(q.where) + [q.limitAt, q.offsetAt]
  {
    var head := [Word("SELECT"), Word(q.columns), Word("FROM"), Word(q.view)];
    var order := [Word("ORDER"), Word("BY"), Word(q.orderBy), Word(DirectionText(q.direction))];
    var tail := [Word("LIMIT"), Placeholder(q.limitAt), Word("OFFSET"), Placeholder(q.offsetAt)];
    WordsHaveNoPlaceholders(head);
    WordsHaveNoPlaceholders(order);
    assert Placeholders(tail) == [q.limitAt, q.offsetAt] by {
      assert tail == [Word("LIMIT")] + [Placeholder(q.limitAt)] + [Word("OFFSET")] + [Placeholder(q.offsetAt)];
      PlaceholdersSingle(Word("LIMIT"));
      PlaceholdersSingle(Placeholder(q.limitAt));
      PlaceholdersSingle(Word("OFFSET"));
      PlaceholdersSingle(Placeholder(q.offsetAt));
      PlaceholdersAppend([Word("LIMIT")], [Placeholder(q.limitAt)]);
      PlaceholdersAppend([Word("LIMIT")] + [Placeholder(q.limitAt)], [Word("OFFSET")]);
      PlaceholdersAppend([Word("LIMIT")] + [Placeholder(q.limitAt)] + [Word("OFFSET")], [Placeholder(q.offsetAt)]);
    }
    PlaceholdersAppend(head, WhereTokens(q.where));
    PlaceholdersAppend(head + WhereTokens(q.where), order);
    PlaceholdersAppend(head + WhereTokens(q.where) + order, tail);
    WherePlaceholders(q.where);
  }

  /** The count text holds only the filter placeholders. */
  lemma CountPlaceholders(q: Count)
    ensures Placeholders(CountTokens(q)) == ParamIndices(q.where)
  {
    var head := [Word("SELECT"), Word("COUNT(*)"), Word("as"), Word("total"), Word("FROM"), Word(q.view)];
    WordsHaveNoPlaceholders(head);
    PlaceholdersAppend(head, WhereTokens(q.where));
    WherePlaceholders(q.where);
  }

  /** Numbered clauses carry the consecutive placeholders first, first + 1, ... */
  lemma {:induction false} NumberedIndices(fs: seq<Cond>, first: nat)
    ensures ParamIndices(Numbered(fs, first)) == seq(|fs|, i requires 0 <= i < |fs| => first + i)
    decreases |fs|
  {
    if fs != [] {
      assert Numbered(fs, first)[1..] == Numbered(fs[1..], first + 1);
      NumberedIndices(fs[1..], first + 1);
    }
  }

  // ---------------------------------------------------------------------------
  // Rendering tokens to text

  function Digit(d: nat): char
    requires d < 10
  {
    "0123456789"[d]
  }

  predicate IsDigits(s: string)
  {
    forall i :: 0 <= i < |s| ==> '0' <= s[i] <= '9'
  }

  /** The decimal numeral of n, as JavaScript's template `${n}` writes a non-negative integer. */
  function Decimal(n: nat): (s: string)
    ensures |s| >= 1 && IsDigits(s)
    ensures s[0] == '0' ==> n == 0
    decreases n
  {
    if n < 10 then [Digit(n)] else Decimal(n / 10) + [Digit(n % 10)]
  }

  function ParseDecimal(s: string): nat
    requires IsDigits(s)
  {
    if s == [] then 0 else 10 * ParseDecimal(s[..|s| - 1]) + (s[|s| - 1] as int - '0' as int)
  }

  /** The text `$k` names k: reading back the digits of a placeholder gives its index. */
  lemma {:induction false} DecimalRoundTrip(n: nat)
    ensures ParseDecimal(Decimal(n)) == n
    decreases n
  {
    if n >= 10 {
      var s := Decimal(n);
      assert s[..|s| - 1] == Decimal(n / 10);
      DecimalRoundTrip(n / 10);
    }
  }

  function TokenText(t: Token): string
  {
    match t
    case Word(w) => w
    case Placeholder(k) => "$" + Decimal(k)
  }

  /** Tokens joined by single spaces (the source's whitespace is not modelled). */
  function Render(ts: seq<Token>): string
  {
    if ts == [] then ""
    else if |ts| == 1 then TokenText(ts[0])
    else TokenText(ts[0]) + " " + Render(ts[1..])
  }

  /**
   * The `whereClause` string the pages interpolate into both queries: '' when
   * no clause was added, 'WHERE ' followed by the conjunction otherwise.
   */
  function WhereText(cs: seq<Clause>): (s: string)
    ensures s == "" <==> cs == []
    ensures cs != [] ==> |s| >= 6 && s[..6] == "WHERE "
  {
    var ts := WhereTokens(cs);
    if cs == [] then Render(ts)
    else
      assert ts == [Word("WHERE")] + Conjunction(cs);
      RenderWord("WHERE", Conjunction(cs));
      Render(ts)
  }

  /** Rendering a word in front of further tokens puts one space between them. */
  lemma RenderWord(w: string, rest: seq<Token>)
    requires rest != []
    ensures Render([Word(w)] + rest) == w + " " + Render(rest)
  {
    assert ([Word(w)] + rest)[1..] == rest;
  }

  // ---------------------------------------------------------------------------
  // What a query means, and when a select and a count agree

  /** The predicate and the LIMIT and OFFSET values a select stands for once bound. */
  datatype Meaning = Meaning(conds: seq<Cond>, limit: Value, offset: Value)

  function SelectMeaning(q: Select): Option<Meaning>
  {
    if 1 <= q.limitAt <= |q.args| && 1 <= q.offsetAt <= |q.args| then
      match Resolve(q.where, q.args)
      case Some(conds) => Some(Meaning(conds, q.args[q.limitAt - 1], q.args[q.offsetAt - 1]))
      case None => None
    else
      None
  }

  function CountMeaning(q: Count): Option<seq<Cond>>
  {
    Resolve(q.where, q.args)
  }

  /** The placeholders in text order are $1, $2, ..., $n, with n the number of bound values. */
  predicate Aligned(indices: seq<nat>, args: seq<Value>)
  {
    |indices| == |args| && forall i :: 0 <= i < |indices| ==> indices[i] == i + 1
  }

  /**
   * A page query and its count query are consistent for predicate `conds`
   * when: each text's placeholders are exactly $1..$n for its n bound values;
   * both read the same view through the same WHERE fragment; the count binds
   * exactly the select's values minus the trailing LIMIT and OFFSET; the
   * select means `conds` with the given limit and offset; and the count
   * means `conds`.
   */
  predicate Consistent(sel: Select, cnt: Count, conds: seq<Cond>, limit: int, offset: int)
  {
    && Aligned(Placeholders(SelectTokens(sel)), sel.args)
    && Aligned(Placeholders(CountTokens(cnt)), cnt.args)
    && cnt.view == sel.view
    && cnt.where == sel.where
    && |sel.args| >= 2 && cnt.args == sel.args[..|sel.args| - 2]
    && SelectMeaning(sel) == Some(Meaning(conds, Num(limit as real), Num(offset as real)))
    && CountMeaning(cnt) == Some(conds)
  }

  /** The select a page builds by numbering its present filters from $1 and putting LIMIT and OFFSET after them. */
  function PagedSelect(columns: string, view: string, fs: seq<Cond>, orderBy: string, direction: Direction,
                       limit: int, offset: int): Select
  {
    Select(columns, view, Numbered(fs, 1), orderBy, direction, |fs| + 1, |fs| + 2,
           ValuesOf(fs) + [Num(limit as real), Num(offset as real)])
  }

  /** The count that reuses the same fragment and exactly the filter values. */
  function FilteredCount(view: string, fs: seq<Cond>): Count
  {
    Count(view, Numbered(fs, 1), ValuesOf(fs))
  }

  /** The paged select's placeholders are $1..$n+2 for its n filter values, LIMIT and OFFSET. */
  lemma PagedSelectAligned(columns: string, view: string, fs: seq<Cond>, orderBy: string,
                           direction: Direction, limit: int, offset: int)
    ensures var sel := PagedSelect(columns, view, fs, orderBy, direction, limit, offset);
            Aligned(Placeholders(SelectTokens(sel)), sel.args)
  {
    var sel := PagedSelect(columns, view, fs, orderBy, direction, limit, offset);
    SelectPlaceholders(sel);
    NumberedIndices(fs, 1);
    var indices := Placeholders(SelectTokens(sel));
    assert |indices| == |fs| + 2;
    forall i | 0 <= i < |indices| ensures indices[i] == i + 1 {
      if i < |fs| {
        assert indices[i] == ParamIndices(Numbered(fs, 1))[i];
      }
    }
  }

  /** The count's placeholders are $1..$n for its n filter values. */
  lemma FilteredCountAligned(view: string, fs: seq<Cond>)
    ensures var cnt := FilteredCount(view, fs);
            Aligned(Placeholders(CountTokens(cnt)), cnt.args)
  {
    CountPlaceholders(FilteredCount(view, fs));
    NumberedIndices(fs, 1);
  }

  /** The paged select means the predicate with the given limit and offset. */
  lemma PagedSelectMeaning(columns: string, view: string, fs: seq<Cond>, orderBy: string,
                           direction: Direction, limit: int, offset: int)
    ensures SelectMeaning(PagedSelect(columns, view, fs, orderBy, direction, limit, offset))
            == Some(Meaning(fs, Num(limit as real), Num(offset as real)))
  {
    var tail := [Num(limit as real), Num(offset as real)];
    NumberedResolves(fs, [], tail);
    assert [] + ValuesOf(fs) + tail == ValuesOf(fs) + tail;
  }

  /** The count means the predicate. */
  lemma FilteredCountMeaning(view: string, fs: seq<Cond>)
    ensures CountMeaning(FilteredCount(view, fs)) == Some(fs)
  {
    NumberedResolves(fs, [], []);
    assert [] + ValuesOf(fs) + [] == ValuesOf(fs);
  }

  /** The builder pattern of the pages with a dynamic predicate is consistent for every predicate. */
  lemma PagedQueriesConsistent(columns: string, view: string, fs: seq<Cond>, orderBy: string,
                               direction: Direction, limit: int, offset: int)
    ensures Consistent(PagedSelect(columns, view, fs, orderBy, direction, limit, offset),
                       FilteredCount(view, fs), fs, limit, offset)
  {
    var sel := PagedSelect(columns, view, fs, orderBy, direction, limit, offset);
    var cnt := FilteredCount(view, fs);
    PagedSelectAligned(columns, view, fs, orderBy, direction, limit, offset);
    FilteredCountAligned(view, fs);
    PagedSelectMeaning(columns, view, fs, orderBy, direction, limit, offset);
    FilteredCountMeaning(view, fs);
    assert sel.args[..|sel.args| - 2] == cnt.args;
  }

  /**
   * Values are bound, never written into the query text: two predicates with
   * the same columns and operators give the same select and count text,
   * whatever their values, and whatever the limit and offset.
   */
  lemma ValuesNeverInText(columns: string, view: string, fs: seq<Cond>, gs: seq<Cond>, orderBy: string,
                          direction: Direction, limit1: int, offset1: int, limit2: int, offset2: int)
    requires |fs| == |gs|
    requires forall i :: 0 <= i < |fs| ==> fs[i].column == gs[i].column && fs[i].op == gs[i].op
    ensures SelectTokens(PagedSelect(columns, view, fs, orderBy, direction, limit1, offset1))
            == SelectTokens(PagedSelect(columns, view, gs, orderBy, direction, limit2, offset2))
    ensures CountTokens(FilteredCount(view, fs)) == CountTokens(FilteredCount(view, gs))
  {
    assert Numbered(fs, 1) == Numbered(gs, 1);
  }
}
