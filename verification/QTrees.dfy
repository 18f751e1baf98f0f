// Q expressions as values: how a tree of filters compiles to a QueryModifier
// (tortoise/expressions.py, class Q), and what that compilation preserves.
module QTrees {
  import opened Common
  import opened Kleene
  import opened Lookups
  import opened ModelGraph
  import opened Criteria

  datatype CustomFilter = CustomFilter(field: string, op: Operator)

  /** `_annotations` (here: is the annotation an aggregate?) and `_custom_filters` of a Q node. */
  datatype Context = Context(annotations: map<string, bool>, customFilters: map<string, CustomFilter>) {
    predicate Valid() {
      forall k <- customFilters :: customFilters[k].field in annotations
    }
  }

  /** Where a filter is resolved: metadata, context, and the model with its SQL table. */
  datatype Scope = Scope(graph: Graph, context: Context, model: string, table: Table) {
    predicate Valid() {
      ValidGraph(graph) && context.Valid() && model in graph
    }

    function Meta(): Model
      requires Valid()
    {
      graph[model]
    }

    /** The scope at the far end of relation `name`. */
    function Follow(name: string): (s: Scope)
      requires Valid() && name in Meta().relations
      ensures s.Valid() && s.context == context
    {
      var js := JoinsOf(name);
      this.(model := Meta().relations[name].related, table := js[|js| - 1].table)
    }

    function JoinsOf(name: string): (js: seq<Join>)
      requires Valid() && name in Meta().relations
      ensures js != []
    {
      RelationJoins(graph, table, Meta(), Meta().relations[name], name)
    }
  }

  type Filter = (string, Arg)

  datatype QTree = Node(join: Connective, negated: bool, filters: seq<Filter>, children: seq<QTree>)

  // ---- Resolving one filter ------------------------------------------------------------------

  /** `_get_actual_filter_params` accepts the key. */
  predicate Allowed(s: Scope, key: string)
    requires s.Valid()
  {
    var m := s.Meta();
    || key in m.fkSource
    || (key in m.relations && m.relations[key].ManyToMany?)
    || Partition(key).0 in m.relations
    || key in s.context.customFilters
    || key in m.filters
  }

  function ActualKey(m: Model, key: string): string {
    if key in m.fkSource then m.fkSource[key] else key
  }

  /** The filter is resolved on the related model, by the part of its key after the relation. */
  predicate Nested(s: Scope, key: string)
    requires s.Valid()
  {
    key !in s.Meta().filters && Partition(key).0 in s.Meta().relations
  }

  function ResolveFilter(s: Scope, key: string, arg: Arg): Result<QueryModifier, string>
    requires s.Valid()
    decreases |key|
  {
    if !Allowed(s, key) then Err(key)
    else
      var k := ActualKey(s.Meta(), key);
      if k in s.context.customFilters then Ok(CustomModifier(s, k, arg))
      else if Nested(s, k) then
        var (name, rest) := Partition(k);
        match ResolveFilter(s.Follow(name), rest, arg)
        case Err(e) => Err(e)
        case Ok(inner) => Ok(QueryModifier(Empty, s.JoinsOf(name), Empty).And(NoModifier.And(inner)))
      else if k in s.Meta().filters then Ok(ColumnModifier(s, k, arg))
      else Err(k)
  }

  function CustomModifier(s: Scope, key: string, arg: Arg): QueryModifier
    requires s.Valid() && key in s.context.customFilters
  {
    var custom := s.context.customFilters[key];
    var aggregate := s.context.annotations[custom.field];
    var c := Test(OnAnnotation(custom.field, s.table, aggregate, ApplyOp(custom.op, arg)));
    if aggregate then QueryModifier(Empty, [], c) else QueryModifier(c, [], Empty)
  }

  /** A `None` argument is turned into the key's own `__isnull` filter where there is one. */
  function ParamOf(m: Model, key: string, arg: Arg): (Param, Arg)
    requires key in m.filters
  {
    var isnull := key + "__isnull";
    if arg == Scalar(Null) && isnull in m.filters then (m.filters[isnull], Scalar(Val(1)))
    else (m.filters[key], arg)
  }

  function ColumnModifier(s: Scope, key: string, arg: Arg): QueryModifier
    requires s.Valid() && key in s.Meta().filters
  {
    match ParamOf(s.Meta(), key, arg)
    case (Own(column, op), a) =>
      QueryModifier(Test(OnColumn(Column(s.table, column), ApplyOp(op, a))), [], Empty)
    case (Through(table, backwardKey, column, op), a) =>
      var t := Table(table, "");
      QueryModifier(Test(OnColumn(Column(t, column), ApplyOp(op, a))),
                    [Join(t, Column(s.table, s.Meta().pk), Column(t, backwardKey))], Empty)
  }

  // ---- Resolving a tree ----------------------------------------------------------------------

  function Finish(t: QTree, r: Result<QueryModifier, string>): Result<QueryModifier, string> {
    if r.Ok? && t.negated then Ok(r.value.Invert()) else r
  }

  function Step(c: Connective, acc: Result<QueryModifier, string>, next: Result<QueryModifier, string>):
    Result<QueryModifier, string>
  {
    if acc.Err? then acc else if next.Err? then next else Ok(acc.value.Join(c, next.value))
  }

  function Resolve(s: Scope, t: QTree): Result<QueryModifier, string>
    requires s.Valid()
    decreases t, 0
  {
    Finish(t, if t.filters != [] then ResolveFilters(s, t.join, t.filters)
              else ResolveChildren(s, t.join, t.children))
  }

  function ResolveFilters(s: Scope, c: Connective, fs: seq<Filter>): Result<QueryModifier, string>
    requires s.Valid()
  {
    if fs == [] then Ok(NoModifier)
    else
      var n := |fs| - 1;
      Step(c, ResolveFilters(s, c, fs[..n]), ResolveFilter(s, fs[n].0, fs[n].1))
  }

  function ResolveChildren(s: Scope, c: Connective, ts: seq<QTree>): Result<QueryModifier, string>
    requires s.Valid()
    decreases ts
  {
    if ts == [] then Ok(NoModifier)
    else
      var n := |ts| - 1;
      Step(c, ResolveChildren(s, c, ts[..n]), Resolve(s, ts[n]))
  }

  // ---- What a tree means, said without modifiers ---------------------------------------------

  /** A filter as written: the joins its relation path needs, and the one condition at its end. */
  datatype Leaf = Leaf(joins: seq<Join>, atom: Atom)

  function LeafOf(s: Scope, key: string, arg: Arg): Option<Leaf>
    requires s.Valid()
    decreases |key|
  {
    if !Allowed(s, key) then None
    else
      var k := ActualKey(s.Meta(), key);
      if k in s.context.customFilters then
        var custom := s.context.customFilters[k];
        Some(Leaf([], OnAnnotation(custom.field, s.table, s.context.annotations[custom.field],
                                   ApplyOp(custom.op, arg))))
      else if Nested(s, k) then
        var (name, rest) := Partition(k);
        match LeafOf(s.Follow(name), rest, arg)
        case None => None
        case Some(l) => Some(Leaf(s.JoinsOf(name) + l.joins, l.atom))
      else if k in s.Meta().filters then
        match ParamOf(s.Meta(), k, arg)
        case (Own(column, op), a) => Some(Leaf([], OnColumn(Column(s.table, column), ApplyOp(op, a))))
        case (Through(table, backwardKey, column, op), a) =>
          var t := Table(table, "");
          Some(Leaf([Join(t, Column(s.table, s.Meta().pk), Column(t, backwardKey))],
                    OnColumn(Column(t, column), ApplyOp(op, a))))
      else None
  }

  function LeafVerdict(s: Scope, f: Filter, v: Assignment): Verdict
    requires s.Valid()
  {
    match LeafOf(s, f.0, f.1)
    case None => Nothing
    case Some(l) => Just(v(l.atom))
  }

  /** The value of the tree itself: connectives over its leaves, empty parts neutral. */
  function Denote(s: Scope, t: QTree, v: Assignment): Verdict
    requires s.Valid()
    decreases t, 0
  {
    var d := if t.filters != [] then DenoteFilters(s, t.join, t.filters, v)
             else DenoteChildren(s, t.join, t.children, v);
    if t.negated then Complement(d) else d
  }

  function DenoteFilters(s: Scope, c: Connective, fs: seq<Filter>, v: Assignment): Verdict
    requires s.Valid()
  {
    if fs == [] then Nothing
    else
      var n := |fs| - 1;
      Combine(c, DenoteFilters(s, c, fs[..n], v), LeafVerdict(s, fs[n], v))
  }

  function DenoteChildren(s: Scope, c: Connective, ts: seq<QTree>, v: Assignment): Verdict
    requires s.Valid()
    decreases ts
  {
    if ts == [] then Nothing
    else
      var n := |ts| - 1;
      Combine(c, DenoteChildren(s, c, ts[..n], v), Denote(s, ts[n], v))
  }

  /** Some leaf that is compiled satisfies `p`. */
  predicate AnyLeaf(s: Scope, t: QTree, p: Option<Leaf> -> bool)
    requires s.Valid()
    decreases t
  {
    if t.filters != [] then exists f <- t.filters :: p(LeafOf(s, f.0, f.1))
    else exists c <- t.children :: AnyLeaf(s, c, p)
  }

  const IsUnresolved := (l: Option<Leaf>) => l.None?
  const IsAggregateLeaf := (l: Option<Leaf>) => l.Some? && l.value.atom.IsAggregate()
  const IsAnyLeaf := (l: Option<Leaf>) => true

  // ---- One filter ----------------------------------------------------------------------------

  function LeafModifier(l: Leaf): QueryModifier {
    if l.atom.IsAggregate() then QueryModifier(Empty, l.joins, Test(l.atom))
    else QueryModifier(Test(l.atom), l.joins, Empty)
  }

  /** However deep the relation path, a filter becomes one condition in the right clause, with
      the joins of its path in order; it fails exactly when the path leads nowhere. */
  lemma {:induction false} FilterIsLeaf(s: Scope, key: string, arg: Arg)
    requires s.Valid()
    ensures LeafOf(s, key, arg).None? <==> ResolveFilter(s, key, arg).Err?
    ensures forall l :: LeafOf(s, key, arg) == Some(l) ==> ResolveFilter(s, key, arg) == Ok(LeafModifier(l))
    decreases |key|
  {
    if Allowed(s, key) {
      var k := ActualKey(s.Meta(), key);
      if k !in s.context.customFilters && Nested(s, k) {
        var (name, rest) := Partition(k);
        FilterIsLeaf(s.Follow(name), rest, arg);
        if LeafOf(s.Follow(name), rest, arg).Some? {
          var l := LeafOf(s.Follow(name), rest, arg).value;
          assert [] + l.joins == l.joins;
        }
      }
    }
  }

  lemma LeafFacts(s: Scope, f: Filter, v: Assignment)
    requires s.Valid() && ResolveFilter(s, f.0, f.1).Ok?
    ensures ResolveFilter(s, f.0, f.1).value.Meaning(v) == LeafVerdict(s, f, v)
    ensures ResolveFilter(s, f.0, f.1).value.WellSplit()
    ensures ResolveFilter(s, f.0, f.1).value.having.Empty? <==> !IsAggregateLeaf(LeafOf(s, f.0, f.1))
  {
    FilterIsLeaf(s, f.0, f.1);
    var l := LeafOf(s, f.0, f.1).value;
    assert Eval(Test(l.atom), v) == Just(v(l.atom));
  }

  // ---- Meaning is preserved ------------------------------------------------------------------

  /** For every tree and every assignment of true/false/unknown to the conditions: WHERE and
      HAVING together decide exactly what the tree says. */
  lemma {:induction false} MeaningPreserved(s: Scope, t: QTree, v: Assignment)
    requires s.Valid() && Resolve(s, t).Ok?
    ensures Resolve(s, t).value.Meaning(v) == Denote(s, t, v)
    decreases t, 0
  {
    if t.filters != [] {
      FiltersMeaning(s, t.join, t.filters, v);
      var r := ResolveFilters(s, t.join, t.filters);
      InvertMeaning(r.value, v);
    } else {
      ChildrenMeaning(s, t.join, t.children, v);
      var r := ResolveChildren(s, t.join, t.children);
      InvertMeaning(r.value, v);
    }
  }

  lemma {:induction false} FiltersMeaning(s: Scope, c: Connective, fs: seq<Filter>, v: Assignment)
    requires s.Valid() && ResolveFilters(s, c, fs).Ok?
    ensures ResolveFilters(s, c, fs).value.Meaning(v) == DenoteFilters(s, c, fs, v)
  {
    if fs != [] {
      var n := |fs| - 1;
      FiltersMeaning(s, c, fs[..n], v);
      LeafFacts(s, fs[n], v);
      JoinMeaning(c, ResolveFilters(s, c, fs[..n]).value, ResolveFilter(s, fs[n].0, fs[n].1).value, v);
    }
  }

  lemma {:induction false} ChildrenMeaning(s: Scope, c: Connective, ts: seq<QTree>, v: Assignment)
    requires s.Valid() && ResolveChildren(s, c, ts).Ok?
    ensures ResolveChildren(s, c, ts).value.Meaning(v) == DenoteChildren(s, c, ts, v)
    decreases ts
  {
    if ts != [] {
      var n := |ts| - 1;
      ChildrenMeaning(s, c, ts[..n], v);
      MeaningPreserved(s, ts[n], v);
      JoinMeaning(c, ResolveChildren(s, c, ts[..n]).value, Resolve(s, ts[n]).value, v);
    }
  }

  // ---- The WHERE/HAVING split ----------------------------------------------------------------

  /** No aggregate condition ever reaches WHERE, nested relation filters included, and HAVING is
      used exactly when the tree has an aggregate leaf. */
  lemma {:induction false} AggregatesStayInHaving(s: Scope, t: QTree)
    requires s.Valid() && Resolve(s, t).Ok?
    ensures Resolve(s, t).value.WellSplit()
    ensures Resolve(s, t).value.having.Empty? <==> !AnyLeaf(s, t, IsAggregateLeaf)
    decreases t, 0
  {
    if t.filters != [] {
      FiltersSplit(s, t.join, t.filters);
      InvertSplit(ResolveFilters(s, t.join, t.filters).value);
    } else {
      ChildrenSplit(s, t.join, t.children);
      InvertSplit(ResolveChildren(s, t.join, t.children).value);
    }
  }

  lemma {:induction false} FiltersSplit(s: Scope, c: Connective, fs: seq<Filter>)
    requires s.Valid() && ResolveFilters(s, c, fs).Ok?
    ensures ResolveFilters(s, c, fs).value.WellSplit()
    ensures ResolveFilters(s, c, fs).value.having.Empty?
            <==> forall f <- fs :: !IsAggregateLeaf(LeafOf(s, f.0, f.1))
  {
    if fs != [] {
      var n := |fs| - 1;
      FiltersSplit(s, c, fs[..n]);
      LeafFacts(s, fs[n], _ => Unknown);
      JoinSplit(c, ResolveFilters(s, c, fs[..n]).value, ResolveFilter(s, fs[n].0, fs[n].1).value);
      assert forall f :: f in fs <==> f in fs[..n] || f == fs[n];
    }
  }

  lemma {:induction false} ChildrenSplit(s: Scope, c: Connective, ts: seq<QTree>)
    requires s.Valid() && ResolveChildren(s, c, ts).Ok?
    ensures ResolveChildren(s, c, ts).value.WellSplit()
    ensures ResolveChildren(s, c, ts).value.having.Empty?
            <==> forall t <- ts :: !AnyLeaf(s, t, IsAggregateLeaf)
    decreases ts
  {
    if ts != [] {
      var n := |ts| - 1;
      ChildrenSplit(s, c, ts[..n]);
      AggregatesStayInHaving(s, ts[n]);
      JoinSplit(c, ResolveChildren(s, c, ts[..n]).value, Resolve(s, ts[n]).value);
      assert forall t :: t in ts <==> t in ts[..n] || t == ts[n];
    }
  }

  // ---- When compilation fails ----------------------------------------------------------------

  /** Compilation raises exactly when some filter's key leads nowhere. */
  lemma {:induction false} FailsOnUnknownKey(s: Scope, t: QTree)
    requires s.Valid()
    ensures Resolve(s, t).Err? <==> AnyLeaf(s, t, IsUnresolved)
    decreases t, 0
  {
    if t.filters != [] {
      FiltersFail(s, t.join, t.filters);
    } else {
      ChildrenFail(s, t.join, t.children);
    }
  }

  lemma {:induction false} FiltersFail(s: Scope, c: Connective, fs: seq<Filter>)
    requires s.Valid()
    ensures ResolveFilters(s, c, fs).Err? <==> exists f <- fs :: IsUnresolved(LeafOf(s, f.0, f.1))
  {
    if fs != [] {
      var n := |fs| - 1;
      FiltersFail(s, c, fs[..n]);
      FilterIsLeaf(s, fs[n].0, fs[n].1);
      assert ResolveFilters(s, c, fs) == Step(c, ResolveFilters(s, c, fs[..n]), ResolveFilter(s, fs[n].0, fs[n].1));
      assert fs == fs[..n] + [fs[n]];
    }
  }

  lemma {:induction false} ChildrenFail(s: Scope, c: Connective, ts: seq<QTree>)
    requires s.Valid()
    ensures ResolveChildren(s, c, ts).Err? <==> exists t <- ts :: AnyLeaf(s, t, IsUnresolved)
    decreases ts
  {
    if ts != [] {
      var n := |ts| - 1;
      ChildrenFail(s, c, ts[..n]);
      FailsOnUnknownKey(s, ts[n]);
      assert forall t :: t in ts <==> t in ts[..n] || t == ts[n];
    }
  }

  // ---- Building trees ------------------------------------------------------------------------

  function Conjunction(a: QTree, b: QTree): QTree {
    Node(AND, false, [], [a, b])
  }

  function Disjunction(a: QTree, b: QTree): QTree {
    Node(OR, false, [], [a, b])
  }

  /** `negate()`: flips the flag. */
  function Flipped(t: QTree): QTree {
    t.(negated := !t.negated)
  }

  /** `~q`: a new node with the same contents and the flag set, whatever the flag was. */
  function Inverted(t: QTree): QTree {
    t.(negated := true)
  }

  lemma ConnectivesMean(s: Scope, a: QTree, b: QTree, v: Assignment)
    requires s.Valid()
    ensures Denote(s, Conjunction(a, b), v) == Combine(AND, Denote(s, a, v), Denote(s, b, v))
    ensures Denote(s, Disjunction(a, b), v) == Combine(OR, Denote(s, a, v), Denote(s, b, v))
  {
    PairMeans(s, AND, a, b, v);
    PairMeans(s, OR, a, b, v);
  }

  lemma PairMeans(s: Scope, c: Connective, a: QTree, b: QTree, v: Assignment)
    requires s.Valid()
    ensures DenoteChildren(s, c, [a, b], v) == Combine(c, Denote(s, a, v), Denote(s, b, v))
  {
    assert [a, b][..1] == [a] && [a][..0] == [];
    assert DenoteChildren(s, c, [a], v) == Combine(c, DenoteChildren(s, c, [], v), Denote(s, a, v));
  }

  lemma FlippedMeans(s: Scope, t: QTree, v: Assignment)
    requires s.Valid()
    ensures Denote(s, Flipped(t), v) == Complement(Denote(s, t, v))
    ensures Flipped(Flipped(t)) == t
  {}

  const AllTrue: Assignment := _ => True

  /** `~q` complements `q` under every assignment exactly when `q` is not negated already (or has
      no condition at all): inverting a negated Q does not undo the negation. */
  lemma InvertedComplements(s: Scope, t: QTree)
    requires s.Valid() && Resolve(s, t).Ok?
    ensures (forall v: Assignment :: Denote(s, Inverted(t), v) == Complement(Denote(s, t, v)))
            <==> !t.negated || !AnyLeaf(s, t, IsAnyLeaf)
  {
    FailsOnUnknownKey(s, t);
    if t.negated {
      if AnyLeaf(s, t, IsAnyLeaf) {
        Decided(s, t);
        assert Denote(s, Inverted(t), AllTrue) == Denote(s, t, AllTrue);
      } else {
        forall v: Assignment ensures Denote(s, t, v) == Nothing {
          LeafFreeIsNothing(s, t, v);
        }
      }
    }
  }

  /** A model with one column, and no relations. */
  const ONE_COLUMN := Model("event", "id", map[], map["id" := Own("id", OpEq)], map[])

  const PLAIN_SCOPE := Scope(map["Event" := ONE_COLUMN], Context(map[], map[]), "Event", Table("event", ""))

  /** `~~Q(id=1)` is `~Q(id=1)`, and not `Q(id=1)`. */
  lemma DoubleInversionStaysNegated(arg: Arg)
    ensures PLAIN_SCOPE.Valid()
    ensures var q := Node(AND, false, [("id", arg)], []);
            && Resolve(PLAIN_SCOPE, q).Ok?
            && Inverted(Inverted(q)) == Inverted(q)
            && Denote(PLAIN_SCOPE, q, AllTrue) == Just(True)
            && Denote(PLAIN_SCOPE, Inverted(Inverted(q)), AllTrue) == Just(False)
  {
    var fs := [("id", arg)];
    assert PLAIN_SCOPE.Meta() == ONE_COLUMN && |"id__isnull"| != |"id"|;
    assert LeafOf(PLAIN_SCOPE, "id", arg).Some?;
    FilterIsLeaf(PLAIN_SCOPE, "id", arg);
    assert fs[..0] == [] && ResolveFilters(PLAIN_SCOPE, AND, fs[..0]).Ok?;
    assert DenoteFilters(PLAIN_SCOPE, AND, fs, AllTrue) == Just(True);
  }

  /** A tree with leaves is true or false, never unknown, when every condition is true. */
  lemma {:induction false} Decided(s: Scope, t: QTree)
    requires s.Valid() && !AnyLeaf(s, t, IsUnresolved)
    ensures AnyLeaf(s, t, IsAnyLeaf) ==> Denote(s, t, AllTrue) in {Just(True), Just(False)}
    ensures !AnyLeaf(s, t, IsAnyLeaf) ==> Denote(s, t, AllTrue) == Nothing
    decreases t, 0
  {
    if t.filters != [] {
      assert t.filters[0] in t.filters && IsAnyLeaf(LeafOf(s, t.filters[0].0, t.filters[0].1));
      FiltersDecided(s, t.join, t.filters);
    } else {
      ChildrenDecided(s, t.join, t.children);
    }
  }

  lemma {:induction false} FiltersDecided(s: Scope, c: Connective, fs: seq<Filter>)
    requires s.Valid() && forall f <- fs :: LeafOf(s, f.0, f.1).Some?
    ensures fs != [] ==> DenoteFilters(s, c, fs, AllTrue) == Just(True)
  {
    if fs != [] {
      FiltersDecided(s, c, fs[..|fs| - 1]);
    }
  }

  lemma {:induction false} ChildrenDecided(s: Scope, c: Connective, ts: seq<QTree>)
    requires s.Valid() && forall t <- ts :: !AnyLeaf(s, t, IsUnresolved)
    ensures (exists t <- ts :: AnyLeaf(s, t, IsAnyLeaf)) ==>
              DenoteChildren(s, c, ts, AllTrue) in {Just(True), Just(False)}
    ensures (forall t <- ts :: !AnyLeaf(s, t, IsAnyLeaf)) ==> DenoteChildren(s, c, ts, AllTrue) == Nothing
    decreases ts
  {
    if ts != [] {
      var n := |ts| - 1;
      ChildrenDecided(s, c, ts[..n]);
      Decided(s, ts[n]);
      assert forall t :: t in ts <==> t in ts[..n] || t == ts[n];
    }
  }

  lemma {:induction false} LeafFreeIsNothing(s: Scope, t: QTree, v: Assignment)
    requires s.Valid()
    ensures !AnyLeaf(s, t, IsAnyLeaf) ==> Denote(s, t, v) == Nothing
    decreases t, 0
  {
    if t.filters != [] {
      assert t.filters[0] in t.filters && IsAnyLeaf(LeafOf(s, t.filters[0].0, t.filters[0].1));
    } else if !AnyLeaf(s, t, IsAnyLeaf) {
      LeafFreeChildren(s, t.join, t.children, v);
    }
  }

  lemma {:induction false} LeafFreeChildren(s: Scope, c: Connective, ts: seq<QTree>, v: Assignment)
    requires s.Valid() && forall t <- ts :: !AnyLeaf(s, t, IsAnyLeaf)
    ensures DenoteChildren(s, c, ts, v) == Nothing
    decreases ts
  {
    if ts != [] {
      LeafFreeChildren(s, c, ts[..|ts| - 1], v);
      LeafFreeIsNothing(s, ts[|ts| - 1], v);
    }
  }
}
