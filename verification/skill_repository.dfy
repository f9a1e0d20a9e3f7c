/** `SkillRepository`: the filtered listing and the lookup by id. The listing
    is modelled in the same two steps as the source: a query (clause lines and
    parameter bindings) is built from the filter, then evaluated over the table
    the way SQLite evaluates it, on the raw stored columns; matching rows are
    then decoded into skills. The table is a sequence of rows in scan order. */
module SkillRepository {
  import opened Wrappers
  import opened SqlValues
  import A = Attributes
  import BR = BaseRepository
  import opened Skills

  // ---------------------------------------------------------------- query

  /** One `AND` clause the listing may append to `WHERE 1=1`. */
  datatype Clause = NameLike | BaseAttributeEquals | SkillGroupLike | TrainedOnlyEquals | DescriptionLike

  /** The fixed order in which clauses are appended. */
  function Rank(c: Clause): nat {
    match c
    case NameLike => 0
    case BaseAttributeEquals => 1
    case SkillGroupLike => 2
    case TrainedOnlyEquals => 3
    case DescriptionLike => 4
  }

  function Placeholder(c: Clause): string {
    match c
    case NameLike => "@name"
    case BaseAttributeEquals => "@baseAttribute"
    case SkillGroupLike => "@skillGroup"
    case TrainedOnlyEquals => "@trainedOnly"
    case DescriptionLike => "@description"
  }

  /** The clause line without its placeholder. */
  function ClauseHead(c: Clause): string {
    match c
    case NameLike => "  AND Name LIKE "
    case BaseAttributeEquals => "  AND BaseAttribute = "
    case SkillGroupLike => "  AND SkillGroup LIKE "
    case TrainedOnlyEquals => "  AND TrainedOnly = "
    case DescriptionLike => "  AND Description LIKE "
  }

  function ClauseLine(c: Clause): string {
    ClauseHead(c) + Placeholder(c)
  }

  /** The lines of the statement before the optional clauses. */
  const SELECT_HEADER: seq<string> :=
    ["SELECT", "  Id,", "  Name,", "  BaseAttribute,", "  SkillGroup,", "  TrainedOnly,",
     "  Description", "FROM BASIC_SKILLS", "WHERE 1=1"]

  /** One `AddWithValue(name, value)`. */
  datatype Binding = Binding(name: string, value: DbValue)

  datatype Query = Query(clauses: seq<Clause>, bindings: seq<Binding>)

  /** The filter field behind `c` is non-null. */
  predicate Requested(f: Filter, c: Clause) {
    match c
    case NameLike => f.name.Some?
    case BaseAttributeEquals => f.baseAttribute.Some?
    case SkillGroupLike => f.skillGroup.Some?
    case TrainedOnlyEquals => f.trainedOnly.Some?
    case DescriptionLike => f.description.Some?
  }

  /** The value bound for a requested clause: text wrapped in `%`, the
      attribute as its number, the flag as 1 or 0. */
  function BoundValue(l: A.Layout, f: Filter, c: Clause): DbValue
    requires A.ValidLayout(l) && ValidFilter(l, f) && Requested(f, c)
  {
    match c
    case NameLike => Text(Wrapped(f.name.value))
    case BaseAttributeEquals => Integer(A.ToInt(l, f.baseAttribute.value))
    case SkillGroupLike => Text(Wrapped(f.skillGroup.value))
    case TrainedOnlyEquals => Integer(if f.trainedOnly.value then 1 else 0)
    case DescriptionLike => Text(Wrapped(f.description.value))
  }

  function When<T>(cond: bool, x: T): seq<T> {
    if cond then [x] else []
  }

  /** Clauses strictly increase in rank: each appears at most once, in the
      fixed order. */
  predicate InFixedOrder(cs: seq<Clause>) {
    forall i, j :: 0 <= i < j < |cs| ==> Rank(cs[i]) < Rank(cs[j])
  }

  /** The clause one filter field contributes: itself when the field is
      non-null, nothing otherwise. */
  function ClauseFor(f: Filter, c: Clause): (cs: seq<Clause>)
    ensures cs == When(Requested(f, c), c)
  {
    match c
    case NameLike => if f.name.Some? then [NameLike] else []
    case BaseAttributeEquals => if f.baseAttribute.Some? then [BaseAttributeEquals] else []
    case SkillGroupLike => if f.skillGroup.Some? then [SkillGroupLike] else []
    case TrainedOnlyEquals => if f.trainedOnly.Some? then [TrainedOnlyEquals] else []
    case DescriptionLike => if f.description.Some? then [DescriptionLike] else []
  }

  /** The first `if` chain: one clause per non-null filter field. */
  function Clauses(f: Filter): (cs: seq<Clause>)
    ensures forall c :: c in cs <==> Requested(f, c)
    ensures InFixedOrder(cs)
  {
    var c1 := ClauseFor(f, NameLike);
    var c2 := c1 + ClauseFor(f, BaseAttributeEquals);
    var c3 := c2 + ClauseFor(f, SkillGroupLike);
    var c4 := c3 + ClauseFor(f, TrainedOnlyEquals);
    var c5 := c4 + ClauseFor(f, DescriptionLike);
    AppendInOrder(c1, Requested(f, BaseAttributeEquals), BaseAttributeEquals);
    AppendInOrder(c2, Requested(f, SkillGroupLike), SkillGroupLike);
    AppendInOrder(c3, Requested(f, TrainedOnlyEquals), TrainedOnlyEquals);
    AppendInOrder(c4, Requested(f, DescriptionLike), DescriptionLike);
    assert forall c :: c in c5 <==> Requested(f, c) by {
      forall c ensures c in c5 <==> Requested(f, c) {
        InClauseChain(f, c);
      }
    }
    c5
  }

  /** A clause is in the chain exactly when its own field contributed it. */
  lemma InClauseChain(f: Filter, c: Clause)
    ensures c in ClauseFor(f, NameLike) + ClauseFor(f, BaseAttributeEquals) + ClauseFor(f, SkillGroupLike)
                 + ClauseFor(f, TrainedOnlyEquals) + ClauseFor(f, DescriptionLike)
            <==> Requested(f, c)
  {
    match c
    case NameLike =>
    case BaseAttributeEquals =>
    case SkillGroupLike =>
    case TrainedOnlyEquals =>
    case DescriptionLike =>
  }

  /** Appending a clause of higher rank than all present keeps the order. */
  lemma AppendInOrder(cs: seq<Clause>, cond: bool, c: Clause)
    requires InFixedOrder(cs)
    requires forall x :: x in cs ==> Rank(x) < Rank(c)
    ensures InFixedOrder(cs + When(cond, c))
    ensures forall x :: x in cs + When(cond, c) ==> Rank(x) <= Rank(c)
    ensures forall x :: x in cs + When(cond, c) <==> x in cs || (cond && x == c)
  {
    var r := cs + When(cond, c);
    forall i, j | 0 <= i < j < |r| ensures Rank(r[i]) < Rank(r[j]) {
      assert r[i] in cs;
      if j >= |cs| {
        assert r[j] == c;
      } else {
        assert r[j] == cs[j];
      }
    }
  }

  /** The binding one filter field contributes, under the name the source
      passes to `AddWithValue`. */
  function BindingFor(l: A.Layout, f: Filter, c: Clause): (bs: seq<Binding>)
    requires A.ValidLayout(l) && ValidFilter(l, f)
    ensures Aligned(l, f, ClauseFor(f, c), bs)
  {
    match c
    case NameLike =>
      if f.name.Some? then [Binding("@name", Text(Wrapped(f.name.value)))] else []
    case BaseAttributeEquals =>
      if f.baseAttribute.Some? then [Binding("@baseAttribute", Integer(A.ToInt(l, f.baseAttribute.value)))] else []
    case SkillGroupLike =>
      if f.skillGroup.Some? then [Binding("@skillGroup", Text(Wrapped(f.skillGroup.value)))] else []
    case TrainedOnlyEquals =>
      if f.trainedOnly.Some? then [Binding("@trainedOnly", Integer(if f.trainedOnly.value then 1 else 0))] else []
    case DescriptionLike =>
      if f.description.Some? then [Binding("@description", Text(Wrapped(f.description.value)))] else []
  }

  /** The second `if` chain: one binding per non-null filter field. */
  function Bindings(l: A.Layout, f: Filter): (bs: seq<Binding>)
    requires A.ValidLayout(l) && ValidFilter(l, f)
    ensures Aligned(l, f, Clauses(f), bs)
  {
    var b1, b2, b3 := BindingFor(l, f, NameLike), BindingFor(l, f, BaseAttributeEquals), BindingFor(l, f, SkillGroupLike);
    var b4, b5 := BindingFor(l, f, TrainedOnlyEquals), BindingFor(l, f, DescriptionLike);
    var c1, c2, c3 := ClauseFor(f, NameLike), ClauseFor(f, BaseAttributeEquals), ClauseFor(f, SkillGroupLike);
    var c4, c5 := ClauseFor(f, TrainedOnlyEquals), ClauseFor(f, DescriptionLike);
    AlignedConcat(l, f, c1, b1, c2, b2);
    AlignedConcat(l, f, c1 + c2, b1 + b2, c3, b3);
    AlignedConcat(l, f, c1 + c2 + c3, b1 + b2 + b3, c4, b4);
    AlignedConcat(l, f, c1 + c2 + c3 + c4, b1 + b2 + b3 + b4, c5, b5);
    b1 + b2 + b3 + b4 + b5
  }

  /** The i-th binding belongs to the i-th clause: it names that clause's
      placeholder and carries the value its field asks for. */
  predicate Aligned(l: A.Layout, f: Filter, cs: seq<Clause>, bs: seq<Binding>)
    requires A.ValidLayout(l) && ValidFilter(l, f)
  {
    && |cs| == |bs|
    && forall i :: 0 <= i < |cs| ==>
         Requested(f, cs[i]) && bs[i] == Binding(Placeholder(cs[i]), BoundValue(l, f, cs[i]))
  }

  lemma AlignedConcat(l: A.Layout, f: Filter, cs1: seq<Clause>, bs1: seq<Binding>, cs2: seq<Clause>, bs2: seq<Binding>)
    requires A.ValidLayout(l) && ValidFilter(l, f)
    requires Aligned(l, f, cs1, bs1) && Aligned(l, f, cs2, bs2)
    ensures Aligned(l, f, cs1 + cs2, bs1 + bs2)
  {
    var cs, bs := cs1 + cs2, bs1 + bs2;
    forall i | 0 <= i < |cs|
      ensures Requested(f, cs[i]) && bs[i] == Binding(Placeholder(cs[i]), BoundValue(l, f, cs[i]))
    {
      if i >= |cs1| {
        assert cs[i] == cs2[i - |cs1|] && bs[i] == bs2[i - |cs1|];
      }
    }
  }

  /** The statement text and its parameters for a filter: `WHERE 1=1`, one
      clause per non-null field in the order Name, BaseAttribute, SkillGroup,
      TrainedOnly, Description, and exactly one binding per clause. */
  function BuildQuery(l: A.Layout, f: Filter): (q: Query)
    requires A.ValidLayout(l) && ValidFilter(l, f)
    ensures forall c :: c in q.clauses <==> Requested(f, c)
    ensures InFixedOrder(q.clauses)
    ensures Aligned(l, f, q.clauses, q.bindings)
  {
    Query(Clauses(f), Bindings(l, f))
  }

  /** `header`, then `body`, then the single line `last`. */
  function Assemble(header: seq<string>, body: seq<string>, last: string): (lines: seq<string>)
    ensures |lines| == |header| + |body| + 1
    ensures lines[..|header|] == header && lines[|lines| - 1] == last
    ensures forall i :: 0 <= i < |body| ==> lines[|header| + i] == body[i]
  {
    header + body + [last]
  }

  function ClauseLines(cs: seq<Clause>): (lines: seq<string>)
    ensures |lines| == |cs|
    ensures forall i :: 0 <= i < |cs| ==> lines[i] == ClauseLine(cs[i])
  {
    seq(|cs|, i requires 0 <= i < |cs| => ClauseLine(cs[i]))
  }

  /** The statement's lines: the fixed header ending in `WHERE 1=1`, the clause
      lines, and the terminating `;`. */
  function CommandLines(q: Query): (lines: seq<string>)
    ensures |lines| == |SELECT_HEADER| + |q.clauses| + 1
    ensures lines[..|SELECT_HEADER|] == SELECT_HEADER && lines[|lines| - 1] == ";"
    ensures forall i :: 0 <= i < |q.clauses| ==> lines[|SELECT_HEADER| + i] == ClauseLine(q.clauses[i])
  {
    Assemble(SELECT_HEADER, ClauseLines(q.clauses), ";")
  }

  /** The placeholders in the text and the bound names correspond one to one:
      the i-th clause line of the statement ends with the i-th bound name. */
  lemma PlaceholdersMatchBindings(l: A.Layout, f: Filter, i: nat)
    requires A.ValidLayout(l) && ValidFilter(l, f)
    requires i < |BuildQuery(l, f).clauses|
    ensures i < |BuildQuery(l, f).bindings|
    ensures var q := BuildQuery(l, f);
            var line := CommandLines(q)[|SELECT_HEADER| + i];
            var name := q.bindings[i].name;
            |name| <= |line| && line[|line| - |name|..] == name
  {
    var q := BuildQuery(l, f);
    var line := CommandLines(q)[|SELECT_HEADER| + i];
    assert line == ClauseHead(q.clauses[i]) + Placeholder(q.clauses[i]);
    assert line[|line| - |Placeholder(q.clauses[i])|..] == Placeholder(q.clauses[i]);
  }

  /** Distinct clauses are written as distinct lines (their lengths differ). */
  lemma ClauseLineInjective(c: Clause, d: Clause)
    requires ClauseLine(c) == ClauseLine(d)
    ensures c == d
  {
    assert |ClauseLine(c)| == |ClauseLine(d)|;
  }

  lemma ClauseLineIsNotTerminator(c: Clause)
    ensures ClauseLine(c) != ";"
  {
    assert |ClauseLine(c)| > 1;
  }

  /** In lines assembled from any header, the clause lines and `;`, the line
      of `c` follows the header exactly when `c` is one of the clauses. */
  lemma ClauseLineAfterHeader(header: seq<string>, cs: seq<Clause>, c: Clause)
    ensures ClauseLine(c) in Assemble(header, ClauseLines(cs), ";")[|header|..] <==> c in cs
  {
    var lines := Assemble(header, ClauseLines(cs), ";");
    var rest := lines[|header|..];
    if c in cs {
      var i :| 0 <= i < |cs| && cs[i] == c;
      assert rest[i] == lines[|header| + i];
    }
    if ClauseLine(c) in rest {
      ClauseLineIsNotTerminator(c);
      var k :| 0 <= k < |rest| && rest[k] == ClauseLine(c);
      if k < |cs| {
        assert rest[k] == lines[|header| + k] == ClauseLine(cs[k]);
        ClauseLineInjective(cs[k], c);
      }
    }
  }

  /** Read off the statement text: after `WHERE 1=1` there is an `AND` line
      for a field exactly when that field of the filter is non-null. */
  lemma CommandTextListsRequestedClauses(l: A.Layout, f: Filter, c: Clause)
    requires A.ValidLayout(l) && ValidFilter(l, f)
    ensures ClauseLine(c) in CommandLines(BuildQuery(l, f))[|SELECT_HEADER|..] <==> Requested(f, c)
  {
    var q := BuildQuery(l, f);
    assert CommandLines(q) == Assemble(SELECT_HEADER, ClauseLines(q.clauses), ";");
    ClauseLineAfterHeader(SELECT_HEADER, q.clauses, c);
  }

  // ------------------------------------------------------------ evaluation

  /** The value bound to `name`, if any (the first binding wins). */
  function Lookup(bs: seq<Binding>, name: string): (v: Option<DbValue>)
    ensures v.None? <==> forall i :: 0 <= i < |bs| ==> bs[i].name != name
    ensures v.Some? ==> exists i :: 0 <= i < |bs| && bs[i] == Binding(name, v.value)
  {
    if |bs| == 0 then None
    else if bs[0].name == name then Some(bs[0].value)
    else
      var rest := Lookup(bs[1..], name);
      assert rest.Some? ==> exists i :: 0 <= i < |bs[1..]| && bs[1..][i] == Binding(name, rest.value);
      rest
  }

  /** How SQLite evaluates one clause on a stored row, given the bound value.
      A NULL column makes both `=` and `LIKE` not true. */
  predicate ClauseHolds(c: Clause, v: DbValue, row: Row) {
    match c
    case NameLike => row.name.Some? && v.Text? && Like(v.s, row.name.value)
    case BaseAttributeEquals => SqlEquals(row.baseAttribute, v)
    case SkillGroupLike => row.skillGroup.Some? && v.Text? && Like(v.s, row.skillGroup.value)
    case TrainedOnlyEquals => SqlEquals(row.trainedOnly, v)
    case DescriptionLike => row.description.Some? && v.Text? && Like(v.s, row.description.value)
  }

  /** The stored column a clause compares against. */
  function ColumnValue(c: Clause, row: Row): DbValue {
    match c
    case NameLike => if row.name.Some? then Text(row.name.value) else Null
    case BaseAttributeEquals => row.baseAttribute
    case SkillGroupLike => if row.skillGroup.Some? then Text(row.skillGroup.value) else Null
    case TrainedOnlyEquals => row.trainedOnly
    case DescriptionLike => if row.description.Some? then Text(row.description.value) else Null
  }

  /** No clause holds on a NULL column or with a NULL parameter, and a LIKE
      clause with a wildcard-free value holds exactly on the column texts
      equal to it up to ASCII case. */
  lemma ClauseNullSemantics(c: Clause, v: DbValue, row: Row)
    ensures ClauseHolds(c, v, row) ==> !ColumnValue(c, row).Null? && !v.Null?
    ensures (c == BaseAttributeEquals || c == TrainedOnlyEquals) ==>
              (ClauseHolds(c, v, row) <==> !v.Null? && ColumnValue(c, row) == v)
    ensures (c == NameLike || c == SkillGroupLike || c == DescriptionLike) && v.Text? && NoWildcards(v.s) ==>
              (ClauseHolds(c, v, row) <==> ColumnValue(c, row).Text? && |v.s| == |ColumnValue(c, row).s|
                                           && PrefixCI(v.s, ColumnValue(c, row).s))
  {
    if v.Text? && NoWildcards(v.s) && ColumnValue(c, row).Text? {
      LikeLiteral(v.s, ColumnValue(c, row).s);
    }
  }

  /** The row passes the `WHERE` of the statement: every clause holds. */
  predicate RowSatisfies(q: Query, row: Row) {
    forall c :: c in q.clauses ==>
      Lookup(q.bindings, Placeholder(c)).Some? && ClauseHolds(c, Lookup(q.bindings, Placeholder(c)).value, row)
  }

  /** The placeholders of the clauses that have no binding. */
  function Unbound(q: Query, cs: seq<Clause>): (names: seq<string>)
    ensures |names| == 0 <==> forall c :: c in cs ==> Lookup(q.bindings, Placeholder(c)).Some?
  {
    if |cs| == 0 then []
    else (if Lookup(q.bindings, Placeholder(cs[0])).None? then [Placeholder(cs[0])] else [])
         + Unbound(q, cs[1..])
  }

  /** The provider refuses to run a statement with an unbound placeholder. */
  datatype ExecError = MissingParameters(names: seq<string>)

  /** The rows of `rows` that pass the statement, in scan order. */
  function Select(q: Query, rows: seq<Row>): (out: seq<Row>)
    ensures |out| <= |rows|
    ensures forall r :: r in out <==> r in rows && RowSatisfies(q, r)
  {
    if |rows| == 0 then []
    else (if RowSatisfies(q, rows[0]) then [rows[0]] else []) + Select(q, rows[1..])
  }

  /** `ExecuteReaderAsync` and the read loop: either the provider refuses
      the statement for an unbound placeholder, or every passing row is read. */
  function Execute(q: Query, table: seq<Row>): (r: Result<seq<Row>, ExecError>)
    ensures r.Failure? <==> exists c :: c in q.clauses && Lookup(q.bindings, Placeholder(c)).None?
    ensures r.Success? ==> forall row :: row in r.value <==> row in table && RowSatisfies(q, row)
  {
    var missing := Unbound(q, q.clauses);
    if |missing| > 0 then Failure(MissingParameters(missing)) else Success(Select(q, table))
  }

  /** Distinct clauses use distinct placeholders. */
  lemma PlaceholderInjective(c: Clause, d: Clause)
    requires Placeholder(c) == Placeholder(d)
    ensures c == d
  {
    assert Placeholder(c)[1] == Placeholder(d)[1];
    if c.NameLike? || d.NameLike? {
      assert |Placeholder(c)| == |Placeholder(d)|;
    }
  }

  /** In an aligned query every clause finds its own bound value. */
  lemma LookupAligned(l: A.Layout, f: Filter, cs: seq<Clause>, bs: seq<Binding>, c: Clause)
    requires A.ValidLayout(l) && ValidFilter(l, f)
    requires Aligned(l, f, cs, bs) && c in cs
    ensures Requested(f, c)
    ensures Lookup(bs, Placeholder(c)) == Some(BoundValue(l, f, c))
  {
    var j :| 0 <= j < |cs| && cs[j] == c;
    assert bs[j].name == Placeholder(c);
    var v := Lookup(bs, Placeholder(c));
    var i :| 0 <= i < |bs| && bs[i] == Binding(Placeholder(c), v.value);
    PlaceholderInjective(cs[i], c);
  }

  /** Every clause of a built query finds its own bound value. */
  lemma LookupBuiltQuery(l: A.Layout, f: Filter, c: Clause)
    requires A.ValidLayout(l) && ValidFilter(l, f) && Requested(f, c)
    ensures Lookup(BuildQuery(l, f).bindings, Placeholder(c)) == Some(BoundValue(l, f, c))
  {
    var q := BuildQuery(l, f);
    LookupAligned(l, f, q.clauses, q.bindings, c);
  }

  /** A built query never leaves a placeholder unbound, so executing it never
      fails. */
  lemma BuiltQueryExecutes(l: A.Layout, f: Filter, table: seq<Row>)
    requires A.ValidLayout(l) && ValidFilter(l, f)
    ensures Execute(BuildQuery(l, f), table).Success?
  {
    forall c | c in BuildQuery(l, f).clauses
      ensures Lookup(BuildQuery(l, f).bindings, Placeholder(c)).Some?
    {
      LookupBuiltQuery(l, f, c);
    }
  }

  // ------------------------------------------------------------ the filter

  /** What one present filter field asks of a stored row: a text field must
      occur in its non-NULL column up to ASCII case, the attribute or the flag
      must equal the stored integer code. */
  predicate FieldCondition(l: A.Layout, f: Filter, c: Clause, row: Row)
    requires A.ValidLayout(l) && ValidFilter(l, f) && Requested(f, c)
  {
    match c
    case NameLike => row.name.Some? && ContainsCI(row.name.value, f.name.value)
    case BaseAttributeEquals => row.baseAttribute == Integer(A.ToInt(l, f.baseAttribute.value))
    case SkillGroupLike => row.skillGroup.Some? && ContainsCI(row.skillGroup.value, f.skillGroup.value)
    case TrainedOnlyEquals => row.trainedOnly == Integer(if f.trainedOnly.value then 1 else 0)
    case DescriptionLike => row.description.Some? && ContainsCI(row.description.value, f.description.value)
  }

  /** The filter is a conjunction: a row matches when every present field's
      condition holds; absent fields ask nothing. */
  predicate Matches(l: A.Layout, f: Filter, row: Row)
    requires A.ValidLayout(l) && ValidFilter(l, f)
  {
    forall c :: Requested(f, c) ==> FieldCondition(l, f, c, row)
  }

  /** `Matches` spelled out field by field. */
  lemma MatchesByField(l: A.Layout, f: Filter, row: Row)
    requires A.ValidLayout(l) && ValidFilter(l, f)
    ensures Matches(l, f, row) <==>
      && (f.name.Some? ==> FieldCondition(l, f, NameLike, row))
      && (f.baseAttribute.Some? ==> FieldCondition(l, f, BaseAttributeEquals, row))
      && (f.skillGroup.Some? ==> FieldCondition(l, f, SkillGroupLike, row))
      && (f.trainedOnly.Some? ==> FieldCondition(l, f, TrainedOnlyEquals, row))
      && (f.description.Some? ==> FieldCondition(l, f, DescriptionLike, row))
  {
    forall c | Requested(f, c) && !FieldCondition(l, f, c, row)
      ensures !(&& (f.name.Some? ==> FieldCondition(l, f, NameLike, row))
                && (f.baseAttribute.Some? ==> FieldCondition(l, f, BaseAttributeEquals, row))
                && (f.skillGroup.Some? ==> FieldCondition(l, f, SkillGroupLike, row))
                && (f.trainedOnly.Some? ==> FieldCondition(l, f, TrainedOnlyEquals, row))
                && (f.description.Some? ==> FieldCondition(l, f, DescriptionLike, row)))
    {
      match c
      case NameLike =>
      case BaseAttributeEquals =>
      case SkillGroupLike =>
      case TrainedOnlyEquals =>
      case DescriptionLike =>
    }
  }

  /** The rows of `rows` the filter asks for, in order. */
  function Where(l: A.Layout, f: Filter, rows: seq<Row>): (out: seq<Row>)
    requires A.ValidLayout(l) && ValidFilter(l, f)
    ensures |out| <= |rows|
    ensures forall r :: r in out <==> r in rows && Matches(l, f, r)
  {
    if |rows| == 0 then []
    else (if Matches(l, f, rows[0]) then [rows[0]] else []) + Where(l, f, rows[1..])
  }

  /** One clause of the built query holds exactly when its field's condition
      does. */
  lemma ClauseHoldsIffField(l: A.Layout, f: Filter, c: Clause, row: Row)
    requires A.ValidLayout(l) && ValidFilter(l, f) && TextIsLiteral(f) && Requested(f, c)
    ensures ClauseHolds(c, BoundValue(l, f, c), row) <==> FieldCondition(l, f, c, row)
  {
    match c
    case NameLike =>
      if row.name.Some? { LikeWrappedIsContains(f.name.value, row.name.value); }
    case SkillGroupLike =>
      if row.skillGroup.Some? { LikeWrappedIsContains(f.skillGroup.value, row.skillGroup.value); }
    case DescriptionLike =>
      if row.description.Some? { LikeWrappedIsContains(f.description.value, row.description.value); }
    case BaseAttributeEquals =>
    case TrainedOnlyEquals =>
  }

  /** Evaluating the built statement on a row is the filter's conjunction of
      field conditions, when no text field carries a wildcard. */
  lemma RowSatisfiesIffMatches(l: A.Layout, f: Filter, row: Row)
    requires A.ValidLayout(l) && ValidFilter(l, f) && TextIsLiteral(f)
    ensures RowSatisfies(BuildQuery(l, f), row) <==> Matches(l, f, row)
  {
    var q := BuildQuery(l, f);
    forall c
      ensures (c in q.clauses ==> Lookup(q.bindings, Placeholder(c)).Some?
                                  && ClauseHolds(c, Lookup(q.bindings, Placeholder(c)).value, row))
              <==> (Requested(f, c) ==> FieldCondition(l, f, c, row))
    {
      if Requested(f, c) {
        LookupBuiltQuery(l, f, c);
        ClauseHoldsIffField(l, f, c, row);
      }
    }
  }

  /** Selecting with the built statement keeps exactly the rows the filter asks
      for, in the same order. */
  lemma {:induction false} SelectIsWhere(l: A.Layout, f: Filter, rows: seq<Row>)
    requires A.ValidLayout(l) && ValidFilter(l, f) && TextIsLiteral(f)
    ensures Select(BuildQuery(l, f), rows) == Where(l, f, rows)
    decreases |rows|
  {
    if |rows| > 0 {
      RowSatisfiesIffMatches(l, f, rows[0]);
      SelectIsWhere(l, f, rows[1..]);
    }
  }

  // -------------------------------------------------------------- decoding

  /** The reader loop's body: NULL id gives 0, NULL name and description give
      "", NULL group stays null, NULL attribute gives None and NULL flag gives
      false; non-NULL attribute and flag go through the base decoders. */
  function DecodeRow(l: A.Layout, row: Row): (s: Skill)
    requires A.ValidLayout(l)
    ensures A.IsMember(l, s.baseAttribute)
    ensures s.id == (if row.id.Some? then row.id.value else 0)
    ensures s.name == (if row.name.Some? then row.name.value else "")
    ensures s.description == (if row.description.Some? then row.description.value else "")
    ensures s.skillGroup == row.skillGroup
    ensures row.baseAttribute.Null? ==> s.baseAttribute == A.None
    ensures row.trainedOnly.Null? ==> !s.trainedOnly
  {
    Skill(
      id := row.id.GetOr(0),
      name := row.name.GetOr(""),
      baseAttribute := if !row.baseAttribute.Null? then BR.IntToBaseAttribute(l, row.baseAttribute) else A.None,
      skillGroup := row.skillGroup,
      trainedOnly := if !row.trainedOnly.Null? then BR.IntToBool(row.trainedOnly) else false,
      description := row.description.GetOr(""))
  }

  /** The NULL branches the reader loop spells out agree with what the base
      decoders already do with a NULL value. */
  lemma NullBranchesAgreeWithDecoders(l: A.Layout, row: Row)
    requires A.ValidLayout(l)
    ensures DecodeRow(l, row).baseAttribute == BR.IntToBaseAttribute(l, row.baseAttribute)
    ensures DecodeRow(l, row).trainedOnly == BR.IntToBool(row.trainedOnly)
  {
  }

  /** How a skill is stored: attribute by its number, flag as 1 or 0. */
  function EncodeSkill(l: A.Layout, s: Skill): (row: Row)
    requires A.ValidLayout(l) && A.IsMember(l, s.baseAttribute)
    ensures !row.baseAttribute.Null? && !row.trainedOnly.Null?
  {
    Row(Some(s.id), Some(s.name), Integer(A.ToInt(l, s.baseAttribute)), s.skillGroup,
        Integer(if s.trainedOnly then 1 else 0), Some(s.description))
  }

  /** Decoding a stored skill gives it back unchanged. */
  lemma DecodeEncode(l: A.Layout, s: Skill)
    requires A.ValidLayout(l) && A.IsMember(l, s.baseAttribute)
    ensures DecodeRow(l, EncodeSkill(l, s)) == s
  {
    BR.IntToBaseAttributeRoundTrip(l, s.baseAttribute);
  }

  /** On a stored skill the filter's conditions read as conditions on the
      skill itself. */
  lemma MatchesStoredSkill(l: A.Layout, f: Filter, s: Skill)
    requires A.ValidLayout(l) && ValidFilter(l, f) && A.IsMember(l, s.baseAttribute)
    ensures Matches(l, f, EncodeSkill(l, s)) <==>
      && (f.name.Some? ==> ContainsCI(s.name, f.name.value))
      && (f.baseAttribute.Some? ==> s.baseAttribute == f.baseAttribute.value)
      && (f.skillGroup.Some? ==> s.skillGroup.Some? && ContainsCI(s.skillGroup.value, f.skillGroup.value))
      && (f.trainedOnly.Some? ==> s.trainedOnly == f.trainedOnly.value)
      && (f.description.Some? ==> ContainsCI(s.description, f.description.value))
  {
    MatchesByField(l, f, EncodeSkill(l, s));
    if f.baseAttribute.Some? && A.ToInt(l, s.baseAttribute) == A.ToInt(l, f.baseAttribute.value) {
      A.ToIntInjective(l, s.baseAttribute, f.baseAttribute.value);
    }
  }

  function DecodeAll(l: A.Layout, rows: seq<Row>): (skills: seq<Skill>)
    requires A.ValidLayout(l)
    ensures |skills| == |rows|
    ensures forall i :: 0 <= i < |rows| ==> skills[i] == DecodeRow(l, rows[i])
  {
    seq(|rows|, i requires 0 <= i < |rows| => DecodeRow(l, rows[i]))
  }

  /** Each skill decoded from a selection comes from a row of the table
      that passed the statement. */
  lemma DecodedFromSelected(l: A.Layout, q: Query, table: seq<Row>, rows: seq<Row>)
    requires A.ValidLayout(l)
    requires forall row :: row in rows <==> row in table && RowSatisfies(q, row)
    ensures forall s :: s in DecodeAll(l, rows) ==>
              exists row :: row in table && RowSatisfies(q, row) && s == DecodeRow(l, row)
  {
    forall s | s in DecodeAll(l, rows)
      ensures exists row :: row in table && RowSatisfies(q, row) && s == DecodeRow(l, row)
    {
      var k :| 0 <= k < |rows| && DecodeAll(l, rows)[k] == s;
      assert rows[k] in rows;
    }
  }

  // ------------------------------------------------------------ operations

  /** `GetAllBasicSkillsAsync`: build the statement, run it, decode every row
      read. When the text filters hold no wildcard the result is the decoding,
      in table order, of exactly the rows satisfying every present filter
      field. */
  function GetAllBasicSkills(l: A.Layout, table: seq<Row>, f: Filter): (skills: seq<Skill>)
    requires A.ValidLayout(l) && ValidFilter(l, f)
    ensures |skills| <= |table|
    ensures forall s :: s in skills ==> exists row :: row in table && RowSatisfies(BuildQuery(l, f), row) && s == DecodeRow(l, row)
    ensures skills == DecodeAll(l, Select(BuildQuery(l, f), table))
    ensures TextIsLiteral(f) ==> skills == DecodeAll(l, Where(l, f, table))
  {
    var q := BuildQuery(l, f);
    BuiltQueryExecutes(l, f, table);
    assert TextIsLiteral(f) ==> Select(q, table) == Where(l, f, table) by {
      if TextIsLiteral(f) {
        SelectIsWhere(l, f, table);
      }
    }
    match Execute(q, table)
    case Success(rows) =>
      DecodedFromSelected(l, q, table, rows);
      DecodeAll(l, rows)
    case Failure(_) => assert false; []
  }

  /** The row the statement `WHERE Id = @id` reads first, if any. */
  function FindById(rows: seq<Row>, id: int): (r: Option<nat>)
    ensures r.None? <==> forall i :: 0 <= i < |rows| ==> rows[i].id != Some(id)
    ensures r.Some? ==> r.value < |rows| && rows[r.value].id == Some(id)
    ensures r.Some? ==> forall i :: 0 <= i < r.value ==> rows[i].id != Some(id)
  {
    if |rows| == 0 then None
    else if rows[0].id == Some(id) then Some(0)
    else match FindById(rows[1..], id)
      case None => None
      case Some(k) =>
        assert forall i :: 1 <= i < k + 1 ==> rows[i] == rows[1..][i - 1];
        Some(k + 1)
  }

  /** `GetBasicSkillByIdAsync`: null when no row has the id, otherwise the
      first such row decoded the same way as in the listing. */
  function GetBasicSkillById(l: A.Layout, table: seq<Row>, id: int): (r: Option<Skill>)
    requires A.ValidLayout(l)
    ensures r.None? <==> forall i :: 0 <= i < |table| ==> table[i].id != Some(id)
    ensures r.Some? ==> r.value.id == id
    ensures r.Some? ==> exists i :: 0 <= i < |table| && table[i].id == Some(id) && r.value == DecodeRow(l, table[i])
  {
    match FindById(table, id)
    case None => None
    case Some(k) => Some(DecodeRow(l, table[k]))
  }

  // ------------------------------------------------------------ properties

  /** `WHERE 1=1` alone: a filter with every field null lists every row. */
  lemma {:induction false} EmptyFilterListsAll(l: A.Layout, table: seq<Row>)
    requires A.ValidLayout(l)
    ensures GetAllBasicSkills(l, table, EMPTY_FILTER) == DecodeAll(l, table)
  {
    assert Where(l, EMPTY_FILTER, table) == table by {
      WhereAllMatch(l, EMPTY_FILTER, table);
    }
  }

  lemma {:induction false} WhereAllMatch(l: A.Layout, f: Filter, rows: seq<Row>)
    requires A.ValidLayout(l) && ValidFilter(l, f)
    requires forall r :: r in rows ==> Matches(l, f, r)
    ensures Where(l, f, rows) == rows
    decreases |rows|
  {
    if |rows| > 0 {
      assert rows[0] in rows;
      assert forall r :: r in rows[1..] ==> r in rows;
      WhereAllMatch(l, f, rows[1..]);
      assert [rows[0]] + rows[1..] == rows;
    }
  }

  /** The record found by id is the one the unfiltered listing holds for the
      same row. */
  lemma ByIdIsListed(l: A.Layout, table: seq<Row>, id: int)
    requires A.ValidLayout(l)
    requires GetBasicSkillById(l, table, id).Some?
    ensures GetBasicSkillById(l, table, id).value in GetAllBasicSkills(l, table, EMPTY_FILTER)
  {
    EmptyFilterListsAll(l, table);
    var k := FindById(table, id).value;
    assert DecodeAll(l, table)[k] == DecodeRow(l, table[k]);
  }

  /** Filters test the stored columns, not the decoded skill: a row whose
      attribute is NULL decodes to None, yet a filter on None does not list
      it; likewise a NULL flag decodes to false but is not listed by a filter
      on false. */
  lemma NullColumnsEscapeFilters(l: A.Layout, row: Row)
    requires A.ValidLayout(l)
    requires row.baseAttribute.Null? && row.trainedOnly.Null?
    ensures DecodeRow(l, row).baseAttribute == A.None
    ensures GetAllBasicSkills(l, [row], EMPTY_FILTER.(baseAttribute := Some(A.None))) == []
    ensures !DecodeRow(l, row).trainedOnly
    ensures GetAllBasicSkills(l, [row], EMPTY_FILTER.(trainedOnly := Some(false))) == []
  {
    var f1 := EMPTY_FILTER.(baseAttribute := Some(A.None));
    var f2 := EMPTY_FILTER.(trainedOnly := Some(false));
    assert !Matches(l, f1, row) by {
      MatchesByField(l, f1, row);
    }
    assert !Matches(l, f2, row) by {
      MatchesByField(l, f2, row);
    }
    assert Where(l, f1, [row]) == [];
    assert Where(l, f2, [row]) == [];
  }

  /** The text filters are not escaped: a lone `%` lists every row whose name
      is not NULL, although no name contains the character `%`. */
  lemma PercentNameListsEveryNamedRow(l: A.Layout, row: Row)
    requires A.ValidLayout(l) && row.name.Some?
    ensures RowSatisfies(BuildQuery(l, EMPTY_FILTER.(name := Some("%"))), row)
  {
    var f := EMPTY_FILTER.(name := Some("%"));
    LikePercentMatchesAll(row.name.value);
    assert Wrapped("%") == "%%%";
    LikeExtraPercents(row.name.value);
    LookupBuiltQuery(l, f, NameLike);
  }

  lemma LikeExtraPercents(text: string)
    ensures Like("%%%", text)
  {
    LikePercentMatchesAll(text);
    assert "%%%"[1..] == "%%";
    assert "%%"[1..] == "%";
  }
}
