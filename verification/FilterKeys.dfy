// What a filter key asks, operator by operator (tortoise/expressions.py, `_process_filter_kwarg` and
// `_get_actual_filter_params`; tortoise/filters.py): which rows the compiled query keeps, said of the
// row's column and the argument alone.
module FilterKeys {
  import opened Common
  import opened Kleene
  import opened Lookups
  import opened ModelGraph
  import opened Criteria
  import opened QTrees
  import opened QExpressions
  import opened RelationJoins

  // ---- Operators -------------------------------------------------------------------------------

  /** Comparing a column value with one argument: when it is true, and when it is unknown. */
  lemma ComparisonDecides(op: Operator, v: Value, x: Value)
    ensures var t := Holds(ApplyOp(op, Scalar(v)), x);
            && (op == OpEq ==> (t == True <==> x.Val? && x == v) && (t == Unknown <==> x.Null? || v.Null?))
            && (op == OpNotEqual ==> (t == True <==> x.Null? || (v.Val? && x != v)))
            && (op == OpNotEqual ==> (t == Unknown <==> x.Val? && v.Null?))
            && (op == OpGreater ==> (t == True <==> x.Val? && v.Val? && x.n > v.n))
            && (op == OpGreater ==> (t == Unknown <==> x.Null? || v.Null?))
  {}

  /** Asking for NULL or its opposite: the argument's truth decides which, and the answer is known. */
  lemma NullTestDecides(op: Operator, v: Value, x: Value)
    requires op == OpIsNull || op == OpNotNull
    ensures var t := Holds(ApplyOp(op, Scalar(v)), x);
            && t != Unknown
            && (op == OpIsNull && v.Val? && v.n != 0 ==> (t == True <==> x.Null?))
            && (op == OpIsNull && (v.Null? || v.n == 0) ==> (t == True <==> x.Val?))
            && (op == OpNotNull && v.Val? && v.n != 0 ==> (t == True <==> x.Val?))
            && (op == OpNotNull && (v.Null? || v.n == 0) ==> (t == True <==> x.Null?))
  {}

  /** Comparing a column value with a list. */
  lemma ListDecides(op: Operator, vs: seq<Value>, x: Value)
    ensures var t := Holds(ApplyOp(op, Many(vs)), x);
            && (op == OpIn ==> (t == True <==> x.Val? && x in vs))
            && (op == OpIn ==> (t == Unknown <==> vs != [] && (x.Null? || (x !in vs && Null in vs))))
            && (op == OpNotIn ==> (t == True <==> vs == [] || x.Null? || (x !in vs && Null !in vs)))
            && (op == OpNotIn ==> (t == Unknown <==> x.Val? && x !in vs && Null in vs))
  {
    InDecidesMembership(x, vs);
  }

  // ---- A key on the model's own column ---------------------------------------------------------

  /** A key that is stored on the model itself, in this column and with this operator. */
  predicate Plain(s: Scope, key: string, column: string, op: Operator)
    requires s.Valid()
  {
    && key !in s.Meta().fkSource && key !in s.context.customFilters
    && key in s.Meta().filters && s.Meta().filters[key] == Own(column, op)
  }

  /** The key has an `__isnull` filter beside it. */
  predicate HasIsNull(s: Scope, key: string)
    requires s.Valid()
  {
    key + "__isnull" in s.Meta().filters
  }

  /** The combined row that stands for a base row of a query without joins. */
  function Alone(s: Scope, row: Row): Env {
    map[s.table.Ref() := Some(row)]
  }

  /** The result rows of `filter(key=arg)` (or, negated, `filter(~Q(key=arg))`) for one base row. */
  function Returned(s: Scope, key: string, arg: Arg, negated: bool, db: Db, row: Row): Option<seq<Env>>
    requires s.Valid()
  {
    match Resolve(s, Node(AND, negated, [(key, arg)], []))
    case Err(_) => None
    case Ok(m) => if m.having == Empty then Some(ResultFor(db, s.table, row, NewJoins([], m.joins), m.where)) else None
  }

  function When(c: bool, env: Env): Option<seq<Env>> {
    Some(if c then [env] else [])
  }

  lemma OneTree(s: Scope, key: string, arg: Arg, negated: bool, c: Criterion)
    requires s.Valid() && c.Test? && ResolveFilter(s, key, arg) == Ok(QueryModifier(c, [], Empty))
    ensures Resolve(s, Node(AND, negated, [(key, arg)], []))
            == Ok(QueryModifier(if negated then Negation(c) else c, [], Empty))
  {
    var fs := [(key, arg)];
    assert fs[..0] == [] && fs[|fs| - 1] == (key, arg);
    assert ResolveFilters(s, AND, fs[..0]) == Ok(NoModifier);
    assert NoModifier.joins + [] == [];
    assert NoModifier.And(QueryModifier(c, [], Empty)) == QueryModifier(c, [], Empty);
  }

  /** A key on the model's own column decides by the lookup on that column. */
  lemma OneColumn(s: Scope, key: string, arg: Arg, negated: bool, db: Db, row: Row, column: string, lookup: Lookup)
    requires s.Valid()
    requires ResolveFilter(s, key, arg) == Ok(QueryModifier(Test(OnColumn(Column(s.table, column), lookup)), [], Empty))
    ensures Returned(s, key, arg, negated, db, row)
            == When(Holds(lookup, Field(row, column)) == (if negated then False else True), Alone(s, row))
  {
    var c, env := Test(OnColumn(Column(s.table, column), lookup)), Alone(s, row);
    var w := if negated then Negation(c) else c;
    OneTree(s, key, arg, negated, c);
    assert ResultFor(db, s.table, row, [], w) == Kept([env], w);
    assert [env][1..] == [];
    assert Kept([env], w) == KeptOne(env, w) + Kept([], w) == KeptOne(env, w);
    assert Cell(env, Column(s.table, column)) == Field(row, column);
    assert Eval(c, Reading(env)) == Just(Holds(lookup, Field(row, column)));
  }

  /** `filter(key=None)` where the key has an `__isnull` filter: the rows whose column is NULL, and
      `~Q(key=None)` those whose column is not. */
  lemma NoneAsksForNull(s: Scope, key: string, column: string, op: Operator, db: Db, row: Row)
    requires s.Valid() && Plain(s, key, column, op)
    requires HasIsNull(s, key) && s.Meta().filters[key + "__isnull"] == Own(column, OpIsNull)
    ensures Returned(s, key, Scalar(Null), false, db, row) == When(Field(row, column) == Null, Alone(s, row))
    ensures Returned(s, key, Scalar(Null), true, db, row) == When(Field(row, column) != Null, Alone(s, row))
  {
    NullTestDecides(OpIsNull, Val(1), Field(row, column));
    OneColumn(s, key, Scalar(Null), false, db, row, column, IsNull(true));
    OneColumn(s, key, Scalar(Null), true, db, row, column, IsNull(true));
  }

  /** One argument that is not taken for an `__isnull`, per operator and for the negated filter. */
  lemma ScalarAsks(s: Scope, key: string, v: Value, column: string, op: Operator, db: Db, row: Row)
    requires s.Valid() && Plain(s, key, column, op) && (v.Null? ==> !HasIsNull(s, key))
    ensures var kept, left := Returned(s, key, Scalar(v), false, db, row), Returned(s, key, Scalar(v), true, db, row);
            var x, env := Field(row, column), Alone(s, row);
            && (op == OpEq ==> kept == When(x.Val? && x == v, env))
            && (op == OpEq ==> left == When(x.Val? && v.Val? && x != v, env))
            && (op == OpNotEqual ==> kept == When(x.Null? || (v.Val? && x != v), env))
            && (op == OpNotEqual ==> left == When(x.Val? && x == v, env))
            && (op == OpGreater ==> kept == When(x.Val? && v.Val? && x.n > v.n, env))
            && (op == OpGreater ==> left == When(x.Val? && v.Val? && x.n <= v.n, env))
            && (op == OpIsNull ==> kept == When(x.Null? <==> v.Val? && v.n != 0, env))
            && (op == OpNotNull ==> kept == When(x.Val? <==> v.Val? && v.n != 0, env))
  {
    var lookup := ApplyOp(op, Scalar(v));
    OneColumn(s, key, Scalar(v), false, db, row, column, lookup);
    OneColumn(s, key, Scalar(v), true, db, row, column, lookup);
    ComparisonDecides(op, v, Field(row, column));
    if op == OpIsNull || op == OpNotNull {
      NullTestDecides(op, v, Field(row, column));
    }
  }

  /** A list, per operator and for the negated filter. */
  lemma ListAsks(s: Scope, key: string, vs: seq<Value>, column: string, op: Operator, db: Db, row: Row)
    requires s.Valid() && Plain(s, key, column, op)
    ensures var kept, left := Returned(s, key, Many(vs), false, db, row), Returned(s, key, Many(vs), true, db, row);
            var x, env := Field(row, column), Alone(s, row);
            && (op == OpIn ==> kept == When(x.Val? && x in vs, env))
            && (op == OpIn ==> left == When(vs == [] || (x.Val? && x !in vs && Null !in vs), env))
            && (op == OpNotIn ==> kept == When(vs == [] || x.Null? || (x !in vs && Null !in vs), env))
            && (op == OpNotIn ==> left == When(x.Val? && x in vs, env))
  {
    var lookup := ApplyOp(op, Many(vs));
    OneColumn(s, key, Many(vs), false, db, row, column, lookup);
    OneColumn(s, key, Many(vs), true, db, row, column, lookup);
    ListDecides(op, vs, Field(row, column));
  }

  /** A foreign key given as an object (its primary key) or a value asks the key column. */
  lemma ForeignKeyAsksItsColumn(s: Scope, key: string, arg: Arg)
    requires s.Valid() && key in s.Meta().fkSource && s.Meta().fkSource[key] !in s.Meta().fkSource
    ensures ResolveFilter(s, key, arg) == ResolveFilter(s, s.Meta().fkSource[key], arg)
    ensures ResolveFilter(s, key, arg).Ok?
  {}

  // ---- A key behind relations ------------------------------------------------------------------

  /** Where a key leads: the hops over relations, the model it arrives at, and the key there. */
  datatype End = End(hops: seq<Hop>, model: Model, key: string)

  function EndOf(g: Graph, custom: set<string>, name: string, key: string): Option<End>
    requires ValidGraph(g) && name in g
    decreases |key|
  {
    var m := g[name];
    if key in m.fkSource then
      if m.fkSource[key] in custom then None else Some(End([], m, m.fkSource[key]))
    else if key in custom then None
    else if key in m.filters then Some(End([], m, key))
    else
      var (relation, rest) := Partition(key);
      if relation !in m.relations then None
      else
        match EndOf(g, custom, m.relations[relation].related, rest)
        case None => None
        case Some(e) => Some(e.(hops := HopsOf(g, m, m.relations[relation]) + e.hops))
  }

  /** The key leads to a filter or to an annotation. */
  predicate Leads(g: Graph, custom: set<string>, name: string, key: string)
    requires ValidGraph(g) && name in g
    decreases |key|
  {
    var m := g[name];
    || key in m.fkSource || key in custom || key in m.filters
    || (Partition(key).0 in m.relations && Leads(g, custom, m.relations[Partition(key).0].related, Partition(key).1))
  }

  /** A key is refused exactly when it leads nowhere. */
  lemma {:induction false} RefusedIff(s: Scope, key: string, arg: Arg)
    requires s.Valid()
    ensures ResolveFilter(s, key, arg).Ok? <==> Leads(s.graph, s.context.customFilters.Keys, s.model, key)
    decreases |key|
  {
    var k := ActualKey(s.Meta(), key);
    if Allowed(s, key) && k !in s.context.customFilters && Nested(s, k) {
      RefusedIff(s.Follow(Partition(k).0), Partition(k).1, arg);
    }
  }

  predicate TakenForIsNull(e: End, arg: Arg) {
    arg == Scalar(Null) && e.key + "__isnull" in e.model.filters
  }

  /** The filter that the model at the end keeps under the key. */
  function AtEnd(e: End, arg: Arg): Option<Param> {
    var key := if TakenForIsNull(e, arg) then e.key + "__isnull" else e.key;
    if key in e.model.filters then Some(e.model.filters[key]) else None
  }

  /** The hops that a filter on a many-to-many relation itself adds: to the through table. */
  function LastHop(e: End, p: Param): seq<Hop> {
    match p
    case Own(_, _) => []
    case Through(table, backwardKey, _, _) => [Hop(table, e.model.pk, backwardKey)]
  }

  ghost predicate Arrives(e: Option<End>, path: Option<PathFilter>, arg: Arg) {
    && (path.Some? <==> e.Some?)
    && (e.Some? ==>
          && AtEnd(e.value, arg).Some?
          && var p := AtEnd(e.value, arg).value;
             path.value == PathFilter(e.value.hops + LastHop(e.value, p), p.column,
                                      ApplyOp(p.op, if TakenForIsNull(e.value, arg) then Scalar(Val(1)) else arg)))
  }

  lemma OneHopFurther(e: Option<End>, path: Option<PathFilter>, arg: Arg, hops: seq<Hop>)
    requires Arrives(e, path, arg)
    ensures Arrives(match e case None => None case Some(x) => Some(x.(hops := hops + x.hops)),
                    match path case None => None case Some(p) => Some(p.(hops := hops + p.hops)), arg)
  {
    if e.Some? {
      var last := LastHop(e.value, AtEnd(e.value, arg).value);
      assert hops + (e.value.hops + last) == (hops + e.value.hops) + last;
    }
  }

  lemma ArrivesAtOnce(s: Scope, k: string, arg: Arg)
    requires s.Valid() && k in s.Meta().filters
    ensures Arrives(Some(End([], s.Meta(), k)),
                    match ParamOf(s.Meta(), k, arg)
                    case (Own(column, op), a) => Some(PathFilter([], column, ApplyOp(op, a)))
                    case (Through(table, backwardKey, column, op), a) =>
                      Some(PathFilter([Hop(table, s.Meta().pk, backwardKey)], column, ApplyOp(op, a))), arg)
  {
    var e := End([], s.Meta(), k);
    assert AtEnd(e, arg).Some?;
    var last := LastHop(e, AtEnd(e, arg).value);
    assert e.hops + last == last;
  }

  /** A key arrives at its end by the hops of its relations, and asks there what the model at the end
      keeps under it. */
  lemma {:induction false} PathArrives(s: Scope, key: string, arg: Arg)
    requires s.Valid()
    ensures Arrives(EndOf(s.graph, s.context.customFilters.Keys, s.model, key), PathOf(s, key, arg), arg)
    decreases |key|
  {
    var m := s.Meta();
    var k := ActualKey(m, key);
    if Allowed(s, key) && k !in s.context.customFilters {
      if Nested(s, k) {
        var (name, rest) := Partition(k);
        PathArrives(s.Follow(name), rest, arg);
        OneHopFurther(EndOf(s.graph, s.context.customFilters.Keys, m.relations[name].related, rest),
                      PathOf(s.Follow(name), rest, arg), arg, HopsOf(s.graph, m, m.relations[name]));
      } else if k in m.filters {
        ArrivesAtOnce(s, k, arg);
      }
    }
  }

  /** At the end of a path `None` asks for NULL. */
  lemma EndAsksForNull(s: Scope, key: string, e: End, row: Row)
    requires s.Valid() && EndOf(s.graph, s.context.customFilters.Keys, s.model, key) == Some(e)
    requires TakenForIsNull(e, Scalar(Null)) && AtEnd(e, Scalar(Null)).value.op == OpIsNull
    ensures PathOf(s, key, Scalar(Null)).Some?
    ensures Satisfies(row, PathOf(s, key, Scalar(Null)).value)
            <==> Field(row, AtEnd(e, Scalar(Null)).value.column) == Null
  {
    PathArrives(s, key, Scalar(Null));
  }

  /** One argument at the end of a path, per operator. */
  lemma EndAsksScalar(s: Scope, key: string, v: Value, e: End, row: Row)
    requires s.Valid() && EndOf(s.graph, s.context.customFilters.Keys, s.model, key) == Some(e)
    requires !TakenForIsNull(e, Scalar(v))
    ensures PathOf(s, key, Scalar(v)).Some? && e.key in e.model.filters
    ensures var yes := Satisfies(row, PathOf(s, key, Scalar(v)).value);
            var x, op := Field(row, e.model.filters[e.key].column), e.model.filters[e.key].op;
            && (op == OpEq ==> (yes <==> x.Val? && x == v))
            && (op == OpNotEqual ==> (yes <==> x.Null? || (v.Val? && x != v)))
            && (op == OpGreater ==> (yes <==> x.Val? && v.Val? && x.n > v.n))
            && (op == OpIsNull ==> (yes <==> (x.Null? <==> v.Val? && v.n != 0)))
            && (op == OpNotNull ==> (yes <==> (x.Val? <==> v.Val? && v.n != 0)))
  {
    PathArrives(s, key, Scalar(v));
    var p := e.model.filters[e.key];
    ComparisonDecides(p.op, v, Field(row, p.column));
  }

  /** A list at the end of a path, per operator. */
  lemma EndAsksList(s: Scope, key: string, vs: seq<Value>, e: End, row: Row)
    requires s.Valid() && EndOf(s.graph, s.context.customFilters.Keys, s.model, key) == Some(e)
    ensures PathOf(s, key, Many(vs)).Some? && e.key in e.model.filters
    ensures var yes := Satisfies(row, PathOf(s, key, Many(vs)).value);
            var x, op := Field(row, e.model.filters[e.key].column), e.model.filters[e.key].op;
            && (op == OpIn ==> (yes <==> x.Val? && x in vs))
            && (op == OpNotIn ==> (yes <==> vs == [] || x.Null? || (x !in vs && Null !in vs)))
  {
    PathArrives(s, key, Many(vs));
    var p := e.model.filters[e.key];
    ListDecides(p.op, vs, Field(row, p.column));
  }

  // ---- Combining -------------------------------------------------------------------------------

  /** A row passes a condition that is true of it, and one that is absent. */
  predicate Passes(s: Scope, t: QTree, v: Assignment)
    requires s.Valid()
  {
    Denote(s, t, v) in {Nothing, Just(True)}
  }

  /** The condition is there and false: what its negation lets pass. */
  predicate Fails(s: Scope, t: QTree, v: Assignment)
    requires s.Valid()
  {
    Denote(s, t, v) == Just(False)
  }

  predicate Absent(s: Scope, t: QTree, v: Assignment)
    requires s.Valid()
  {
    Denote(s, t, v) == Nothing
  }

  /** `a & b` lets pass what both let pass, and fails what one of them fails. */
  lemma ConjunctionPasses(s: Scope, a: QTree, b: QTree, v: Assignment)
    requires s.Valid()
    ensures Passes(s, Conjunction(a, b), v) <==> Passes(s, a, v) && Passes(s, b, v)
    ensures Fails(s, Conjunction(a, b), v) <==> Fails(s, a, v) || Fails(s, b, v)
    ensures Absent(s, Conjunction(a, b), v) <==> Absent(s, a, v) && Absent(s, b, v)
  {
    ConnectivesMean(s, a, b, v);
  }

  /** `a | b` lets pass what one of them is true of; an absent side is not counted as true. */
  lemma DisjunctionPasses(s: Scope, a: QTree, b: QTree, v: Assignment)
    requires s.Valid()
    ensures Passes(s, Disjunction(a, b), v)
            <==> (Passes(s, a, v) && (!Absent(s, a, v) || Absent(s, b, v)))
                 || (Passes(s, b, v) && (!Absent(s, b, v) || Absent(s, a, v)))
    ensures Fails(s, Disjunction(a, b), v)
            <==> (Fails(s, a, v) && (Fails(s, b, v) || Absent(s, b, v)))
                 || (Fails(s, b, v) && Absent(s, a, v))
    ensures Absent(s, Disjunction(a, b), v) <==> Absent(s, a, v) && Absent(s, b, v)
  {
    ConnectivesMean(s, a, b, v);
  }

  /** A negated tree lets pass what the tree fails, and the other way round. */
  lemma NegationPasses(s: Scope, t: QTree, v: Assignment)
    requires s.Valid() && !Absent(s, t, v)
    ensures Passes(s, Flipped(t), v) <==> Fails(s, t, v)
    ensures Fails(s, Flipped(t), v) <==> Passes(s, t, v)
  {
    FlippedMeans(s, t, v);
  }
}
