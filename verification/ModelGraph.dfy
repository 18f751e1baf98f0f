// Model metadata as the filter compiler sees it, and the joins a relation needs
// (tortoise/query_utils.py, `_get_joins_for_related_field`).
module ModelGraph {
  import opened Common
  import opened Lookups

  /** A pypika table: two tables are the same when both the name and the alias agree. */
  datatype Table = Table(name: string, alias: string) {
    /** The name under which the SQL text refers to the table. */
    function Ref(): string {
      if alias == "" then name else alias
    }
  }

  datatype Column = Column(table: Table, name: string)

  /** LEFT OUTER JOIN `table` ON `left` = `right`. */
  datatype Join = Join(table: Table, left: Column, right: Column)

  datatype Relation =
    | ManyToMany(related: string, through: string, backwardKey: string, forwardKey: string)
    | BackwardFK(related: string, toColumn: string, relationColumn: string)
    | ForwardFK(related: string, toColumn: string, fromColumn: string)

  datatype Operator = OpEq | OpNotEqual | OpIn | OpNotIn | OpIsNull | OpNotNull | OpGreater

  /** A filter argument: Python's `None`, a scalar, a list, or a model's primary key. */
  datatype Arg = Scalar(v: Value) | Many(vs: seq<Value>)

  /** An entry of `Model._meta.filters`. */
  datatype Param =
    | Own(column: string, op: Operator)
    | Through(table: string, backwardKey: string, column: string, op: Operator)

  datatype Model = Model(
    table: string,
    pk: string,
    relations: map<string, Relation>,
    filters: map<string, Param>,
    fkSource: map<string, string>)

  type Graph = map<string, Model>

  /** What `Tortoise.init` guarantees: relations lead to known models, a foreign key's source
      column has its own filters, and names are non-empty. */
  predicate ValidGraph(g: Graph) {
    forall m <- g ::
      && "" !in g[m].relations
      && (forall r <- g[m].relations :: g[m].relations[r].related in g)
      && (forall k <- g[m].fkSource :: g[m].fkSource[k] in g[m].filters)
  }

  function BaseTable(m: Model): Table {
    Table(m.table, "")
  }

  function Scalars(arg: Arg): seq<Value> {
    if arg.Many? then arg.vs else [arg.v]
  }

  function First(arg: Arg): Value {
    if arg.Scalar? then arg.v else if arg.vs == [] then Null else arg.vs[0]
  }

  function ApplyOp(op: Operator, arg: Arg): Lookup {
    match op
    case OpEq => Eq(First(arg))
    case OpNotEqual => NotEqual(First(arg))
    case OpIn => IsIn(Scalars(arg))
    case OpNotIn => NotIn(Scalars(arg))
    case OpIsNull => IsNull(Truthy(First(arg)))
    case OpNotNull => NotNull(Truthy(First(arg)))
    case OpGreater => Greater(First(arg))
  }

  function RelationJoins(g: Graph, table: Table, model: Model, rel: Relation, name: string): (joins: seq<Join>)
    requires rel.related in g
    ensures joins != []
  {
    var related := g[rel.related];
    match rel
    case ManyToMany(_, through, backwardKey, forwardKey) =>
      var t := Table(through, "");
      var r := BaseTable(related);
      [Join(t, Column(table, model.pk), Column(t, backwardKey)),
       Join(r, Column(t, forwardKey), Column(r, related.pk))]
    case BackwardFK(_, toColumn, relationColumn) =>
      var base := BaseTable(related);
      var r := if table == base then Table(base.name, table.Ref() + SEPARATOR + name) else base;
      [Join(r, Column(table, toColumn), Column(r, relationColumn))]
    case ForwardFK(_, toColumn, fromColumn) =>
      var r := Table(related.table, table.Ref() + SEPARATOR + name);
      [Join(r, Column(r, toColumn), Column(table, fromColumn))]
  }

  lemma Prefixed(a: string, x: string, y: string)
    ensures a + x == a + y <==> x == y
  {
    assert (a + x)[|a|..] == x && (a + y)[|a|..] == y;
  }

  /** Two forward relations of a model join tables under two references, neither of them the model's
      own; so does a backward relation onto the model's own table. */
  lemma JoinedTablesDiffer(g: Graph, table: Table, m: Model, r: Relation, name: string, q: Relation, other: string)
    requires r.related in g && q.related in g && name != other
    requires r.ForwardFK? || (r.BackwardFK? && table == BaseTable(g[r.related]))
    requires q.ForwardFK? || (q.BackwardFK? && table == BaseTable(g[q.related]))
    ensures var t, u := RelationJoins(g, table, m, r, name)[0].table, RelationJoins(g, table, m, q, other)[0].table;
            && t.name == g[r.related].table && u.name == g[q.related].table
            && t.Ref() != u.Ref() && t.Ref() != table.Ref() && u.Ref() != table.Ref()
  {
    Prefixed(table.Ref() + SEPARATOR, name, other);
  }
}
