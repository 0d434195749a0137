/**
 * Read filtering. A select query carries a list of `where` conditions, each
 * an expression tree, and an options bag of which only
 * `skipAddTrashCondition` matters here. `beforeFind()` walks every
 * expression of the query and adds `field IS NULL` unless some identifier,
 * comparison or between expression already refers to the trash field or the
 * option is set; the `onlyTrashed` finder adds `field IS NOT NULL` and the
 * `withTrashed` finder sets the option.
 */
module QueryFilter {
  /** A column value; SQL NULL is `SqlNull`. */
  datatype SqlValue = SqlNull | SqlInt(i: int) | SqlStr(s: string)

  datatype CmpOp = Eq | NotEq | Lt | LtEq | Gt | GtEq

  datatype Conjunction = AndConj | OrConj

  /** The expression kinds a condition tree is built from. */
  datatype Expr =
    | Identifier(name: string)                          // a column reference
    | Comparison(field: string, op: CmpOp, value: SqlValue)
    | Between(field: string, low: int, high: int)
    | IsNull(operand: Expr)                             // postfix `IS NULL`
    | IsNotNull(operand: Expr)                          // postfix `IS NOT NULL`
    | Group(conj: Conjunction, parts: seq<Expr>)       // a nested condition list
    | Raw(sql: string)                                  // any other expression

  /** The parts of a select query that the behaviour reads or writes. */
  datatype Query = Query(conditions: seq<Expr>, skipAddTrashCondition: bool)

  // ---------------------------------------------------------------------
  // The traversal
  // ---------------------------------------------------------------------

  /** Every expression reachable from `e`, `e` itself first. */
  function Nodes(e: Expr): (ns: seq<Expr>)
    ensures |ns| > 0 && ns[0] == e
    decreases e, 1
  {
    match e
    case IsNull(o) => [e] + Nodes(o)
    case IsNotNull(o) => [e] + Nodes(o)
    case Group(_, ps) => [e] + NodesOfAll(ps)
    case _ => [e]
  }

  /** Every expression reachable from the list `es`. */
  function NodesOfAll(es: seq<Expr>): seq<Expr>
    decreases es, 0
  {
    if es == [] then [] else Nodes(es[0]) + NodesOfAll(es[1..])
  }

  /** Does a single expression refer to the field in the way the callback tests? */
  predicate Refers(e: Expr, field: string) {
    match e
    case Identifier(n) => n == field
    case Comparison(f, _, _) => f == field
    case Between(f, _, _) => f == field
    case _ => false
  }

  /**
   * The traversal callback folded over the visited expressions: the flag
   * starts true and is cleared by the first expression that refers to the
   * field, after which the callback returns at once.
   */
  function Visit(nodes: seq<Expr>, field: string, addCondition: bool): bool
  {
    if nodes == [] then addCondition
    else if !addCondition then Visit(nodes[1..], field, false)
    else if Refers(nodes[0], field) then Visit(nodes[1..], field, false)
    else Visit(nodes[1..], field, true)
  }

  /** Independent reference definition: some reachable expression refers to the field. */
  predicate Mentioned(conditions: seq<Expr>, field: string) {
    exists i :: 0 <= i < |NodesOfAll(conditions)| && Refers(NodesOfAll(conditions)[i], field)
  }

  /** The decision of `beforeFind()`: the flag left by the traversal. */
  function AddCondition(q: Query, field: string): bool {
    Visit(NodesOfAll(q.conditions), field, true)
  }

  /** `$query->andWhere($expr)`: one more condition, wrapped in its own AND group. */
  function AndWhere(q: Query, e: Expr): (r: Query)
    ensures r.conditions == q.conditions + [Group(AndConj, [e])]
    ensures r.skipAddTrashCondition == q.skipAddTrashCondition
  {
    q.(conditions := q.conditions + [Group(AndConj, [e])])
  }

  /** What `beforeFind()` does to the query, for the aliased trash field `field`. */
  function BeforeFind(q: Query, field: string): Query {
    if AddCondition(q, field) && !q.skipAddTrashCondition
    then AndWhere(q, IsNull(Identifier(field)))
    else q
  }

  /** The `onlyTrashed` finder. */
  function OnlyTrashed(q: Query, field: string): (r: Query)
    ensures Mentioned(r.conditions, field)
  {
    AndWhereMentions(q, IsNotNull(Identifier(field)), field);
    AndWhere(q, IsNotNull(Identifier(field)))
  }

  /** The `withTrashed` finder. */
  function WithTrashed(q: Query): (r: Query)
    ensures r.skipAddTrashCondition
    ensures r.conditions == q.conditions
  {
    q.(skipAddTrashCondition := true)
  }

  lemma {:induction false} NodesAppend(a: seq<Expr>, b: seq<Expr>)
    ensures NodesOfAll(a + b) == NodesOfAll(a) + NodesOfAll(b)
    decreases |a|
  {
    if a == [] {
      assert a + b == b;
    } else {
      assert (a + b)[1..] == a[1..] + b;
      NodesAppend(a[1..], b);
    }
  }

  /** A null test on the field, added with `andWhere()`, is a reference to the field. */
  lemma AndWhereMentions(q: Query, e: Expr, field: string)
    requires e == IsNull(Identifier(field)) || e == IsNotNull(Identifier(field))
    ensures Mentioned(AndWhere(q, e).conditions, field)
  {
    var g := Group(AndConj, [e]);
    NodesAppend(q.conditions, [g]);
    GroupedNullTestNodes(e, field);
    var n := NodesOfAll(AndWhere(q, e).conditions);
    assert n[|NodesOfAll(q.conditions)| + 2] == Identifier(field);
  }

  /** The expressions reachable from a null test on a field wrapped in an AND group. */
  lemma GroupedNullTestNodes(e: Expr, field: string)
    requires e == IsNull(Identifier(field)) || e == IsNotNull(Identifier(field))
    ensures NodesOfAll([Group(AndConj, [e])]) == [Group(AndConj, [e]), e, Identifier(field)]
  {
    var g := Group(AndConj, [e]);
    assert Nodes(e) == [e, Identifier(field)];
    assert [e][1..] == [] && [g][1..] == [];
    assert NodesOfAll([e]) == [e, Identifier(field)];
  }

  /** The callback's flag is cleared exactly when some visited expression refers to the field. */
  lemma {:induction false} VisitClearsIffReferred(nodes: seq<Expr>, field: string)
    ensures Visit(nodes, field, true) <==> forall i :: 0 <= i < |nodes| ==> !Refers(nodes[i], field)
    ensures !Visit(nodes, field, false)
    decreases |nodes|
  {
    if nodes != [] {
      VisitClearsIffReferred(nodes[1..], field);
      assert forall i :: 1 <= i < |nodes| ==> nodes[1..][i - 1] == nodes[i];
    }
  }

  /**
   * `beforeFind()` adds `field IS NULL` exactly when no reachable
   * identifier, comparison or between expression refers to the field and
   * `skipAddTrashCondition` is not set; otherwise the query is unchanged.
   */
  lemma BeforeFindAddsIffUnmentioned(q: Query, field: string)
    ensures !Mentioned(q.conditions, field) && !q.skipAddTrashCondition ==>
              BeforeFind(q, field) == AndWhere(q, IsNull(Identifier(field)))
    ensures Mentioned(q.conditions, field) || q.skipAddTrashCondition ==>
              BeforeFind(q, field) == q
  {
    VisitClearsIffReferred(NodesOfAll(q.conditions), field);
  }

  /** The condition `beforeFind()` adds mentions the field, so a second pass adds nothing. */
  lemma BeforeFindIdempotent(q: Query, field: string)
    ensures BeforeFind(BeforeFind(q, field), field) == BeforeFind(q, field)
  {
    BeforeFindAddsIffUnmentioned(q, field);
    var q' := BeforeFind(q, field);
    if q' != q {
      AndWhereMentions(q, IsNull(Identifier(field)), field);
      BeforeFindAddsIffUnmentioned(q', field);
    }
  }

  // ---------------------------------------------------------------------
  // What a query selects
  // ---------------------------------------------------------------------

  /** A row as the database returns it, keyed by aliased column name. */
  type Record = map<string, SqlValue>

  /** A column's value; an absent column reads as NULL. */
  function Column(r: Record, c: string): SqlValue {
    if c in r then r[c] else SqlNull
  }

  /** A comparison with SQL NULL is never satisfied; values of different kinds never compare. */
  predicate Compare(x: SqlValue, op: CmpOp, y: SqlValue) {
    match (x, y)
    case (SqlInt(a), SqlInt(b)) =>
      (match op
       case Eq => a == b case NotEq => a != b case Lt => a < b
       case LtEq => a <= b case Gt => a > b case GtEq => a >= b)
    case (SqlStr(a), SqlStr(b)) =>
      (match op
       case Eq => a == b case NotEq => a != b
       case _ => false)
    case _ => false
  }

  /**
   * Whether the row satisfies the expression. `raw` decides the expressions
   * the model keeps opaque; an empty OR group contributes no condition.
   */
  predicate Holds(e: Expr, r: Record, raw: string -> bool) {
    match e
    case Identifier(n) => Column(r, n) != SqlNull && Column(r, n) != SqlInt(0)
    case Comparison(f, op, v) => Compare(Column(r, f), op, v)
    case Between(f, lo, hi) => Column(r, f).SqlInt? && lo <= Column(r, f).i <= hi
    case IsNull(o) => o.Identifier? && Column(r, o.name) == SqlNull
    case IsNotNull(o) => !o.Identifier? || Column(r, o.name) != SqlNull
    case Group(AndConj, ps) => forall i :: 0 <= i < |ps| ==> Holds(ps[i], r, raw)
    case Group(OrConj, ps) => ps == [] || exists i :: 0 <= i < |ps| && Holds(ps[i], r, raw)
    case Raw(sql) => raw(sql)
  }

  /** The row satisfies every condition of the query. */
  predicate Matches(q: Query, r: Record, raw: string -> bool) {
    forall i :: 0 <= i < |q.conditions| ==> Holds(q.conditions[i], r, raw)
  }

  /** The rows a query returns, in table order. */
  function Select(rows: seq<Record>, q: Query, raw: string -> bool): (s: seq<Record>)
    ensures |s| <= |rows|
    ensures forall x :: x in s <==> x in rows && Matches(q, x, raw)
  {
    if rows == [] then []
    else if Matches(q, rows[0], raw) then [rows[0]] + Select(rows[1..], q, raw)
    else Select(rows[1..], q, raw)
  }

  /** The rows of `rows` satisfying the query's conditions and, on top, whose field is NULL or not. */
  function SelectByField(rows: seq<Record>, q: Query, raw: string -> bool, field: string, isNull: bool): seq<Record>
  {
    if rows == [] then []
    else if Matches(q, rows[0], raw) && (Column(rows[0], field) == SqlNull) == isNull
    then [rows[0]] + SelectByField(rows[1..], q, raw, field, isNull)
    else SelectByField(rows[1..], q, raw, field, isNull)
  }

  /** Adding one condition keeps exactly the rows that also satisfy it. */
  lemma {:induction false} AndWhereSelects(rows: seq<Record>, q: Query, raw: string -> bool, field: string, isNull: bool)
    ensures Select(rows, AndWhere(q, if isNull then IsNull(Identifier(field)) else IsNotNull(Identifier(field))), raw) ==
            SelectByField(rows, q, raw, field, isNull)
    decreases |rows|
  {
    if rows != [] {
      var e := if isNull then IsNull(Identifier(field)) else IsNotNull(Identifier(field));
      var q' := AndWhere(q, e);
      assert Holds(Group(AndConj, [e]), rows[0], raw) <==> (Column(rows[0], field) == SqlNull) == isNull by {
        assert [e][0] == e;
      }
      assert Matches(q', rows[0], raw) <==> Matches(q, rows[0], raw) && (Column(rows[0], field) == SqlNull) == isNull by {
        assert q'.conditions[|q.conditions|] == Group(AndConj, [e]);
        assert forall i :: 0 <= i < |q.conditions| ==> q'.conditions[i] == q.conditions[i];
      }
      AndWhereSelects(rows[1..], q, raw, field, isNull);
    }
  }

  /** The rows with a NULL field and those with a non-NULL field split the selection. */
  lemma {:induction false} SelectSplits(rows: seq<Record>, q: Query, raw: string -> bool, field: string)
    ensures |SelectByField(rows, q, raw, field, true)| + |SelectByField(rows, q, raw, field, false)| ==
            |Select(rows, q, raw)|
    decreases |rows|
  {
    if rows != [] {
      SelectSplits(rows[1..], q, raw, field);
    }
  }

  /**
   * The three find modes partition the rows a query matches: the default
   * find returns the active ones, `onlyTrashed` the trashed ones and
   * `withTrashed` all of them.
   */
  lemma FindModesPartition(rows: seq<Record>, q: Query, raw: string -> bool, field: string)
    requires !Mentioned(q.conditions, field) && !q.skipAddTrashCondition
    ensures Select(rows, BeforeFind(q, field), raw) == SelectByField(rows, q, raw, field, true)
    ensures Select(rows, BeforeFind(OnlyTrashed(q, field), field), raw) == SelectByField(rows, q, raw, field, false)
    ensures Select(rows, BeforeFind(WithTrashed(q), field), raw) == Select(rows, q, raw)
    ensures |Select(rows, BeforeFind(q, field), raw)| + |Select(rows, BeforeFind(OnlyTrashed(q, field), field), raw)| ==
            |Select(rows, BeforeFind(WithTrashed(q), field), raw)|
  {
    BeforeFindAddsIffUnmentioned(q, field);
    BeforeFindAddsIffUnmentioned(OnlyTrashed(q, field), field);
    BeforeFindAddsIffUnmentioned(WithTrashed(q), field);
    AndWhereSelects(rows, q, raw, field, true);
    AndWhereSelects(rows, q, raw, field, false);
    assert WithTrashed(q).(skipAddTrashCondition := false) == q;
    SameConditionsSelectSame(rows, WithTrashed(q), q, raw);
    SelectSplits(rows, q, raw, field);
  }

  /** The options bag plays no part in which rows match. */
  lemma {:induction false} SameConditionsSelectSame(rows: seq<Record>, q: Query, q': Query, raw: string -> bool)
    requires q.conditions == q'.conditions
    ensures Select(rows, q, raw) == Select(rows, q', raw)
    decreases |rows|
  {
    if rows != [] {
      SameConditionsSelectSame(rows[1..], q, q', raw);
    }
  }
}
