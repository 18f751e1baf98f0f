// The Q objects themselves: shared, partly mutable nodes (tortoise/expressions.py, class Q) and the
// queryset's use of them (tortoise/queryset.py, `resolve_filters`). Each method is proved against
// the value-level compilation of QTrees.
module QExpressions {
  import opened Common
  import opened Kleene
  import opened ModelGraph
  import opened Criteria
  import opened QTrees

  class Q {
    // `children`, `filters` and `join_type` are fixed by the constructor; the rest is mutable.
    const children: seq<Q>
    const filters: seq<Filter>
    const joinType: Connective
    var isNegated: bool
    var context: Context  // `_annotations` and `_custom_filters`
    ghost const depth: nat
    ghost const nodes: set<Q>  // this node and all nodes below it; subtrees may be shared

    ghost predicate Valid()
      decreases depth
    {
      && this in nodes
      && (forall n <- nodes :: n == this || n.depth < depth)
      && (forall c <- children :: c.depth < depth && c.nodes <= nodes && c.Valid())
    }

    /** The tree this node currently stands for; contexts are not part of it. */
    ghost function Tree(): QTree
      requires Valid()
      reads nodes`isNegated
      decreases depth, 0
    {
      Node(joinType, isNegated, filters, Trees(children))
    }

    ghost function Trees(cs: seq<Q>): (ts: seq<QTree>)
      requires forall c <- cs :: c.depth < depth && c.nodes <= nodes && c.Valid()
      reads nodes`isNegated
      ensures |ts| == |cs| && forall i :: 0 <= i < |cs| ==> ts[i] == cs[i].Tree()
      decreases depth, 0, |cs|
    {
      if cs == [] then [] else Trees(cs[..|cs| - 1]) + [cs[|cs| - 1].Tree()]
    }

    /** Q(*args, join_type=..., **kwargs): sub-queries and filters together become two levels. */
    constructor (args: seq<Q>, joinType: Connective, kwargs: seq<Filter>)
      requires forall a <- args :: a.Valid()
      ensures Valid() && this.joinType == joinType && !isNegated
      ensures context == Context(map[], map[])
      ensures args == [] || kwargs == [] ==> children == args && filters == kwargs
      ensures args != [] && kwargs != [] ==>
                && filters == [] && |children| == |args| + 1 && children[1..] == args
                && fresh(children[0])
                && children[0].Tree() == Node(joinType, false, kwargs, [])
      ensures fresh(nodes - (set a, n | a in args && n in a.nodes :: n))
    {
      var cs, fs := args, kwargs;
      if args != [] && kwargs != [] {
        var newarg := new Q.OfFilters(joinType, kwargs);
        cs, fs := [newarg] + args, [];
        assert forall c <- cs :: c == newarg || c in args;
      }
      this.children, this.filters, this.joinType := cs, fs, joinType;
      isNegated, context := false, Context(map[], map[]);
      depth := 1 + MaxDepth(cs);
      nodes := {this} + (set c, n | c in cs && n in c.nodes :: n);
    }

    constructor OfFilters(joinType: Connective, kwargs: seq<Filter>)
      ensures Valid() && !isNegated && nodes == {this}
      ensures Tree() == Node(joinType, false, kwargs, [])
    {
      children, filters, this.joinType := [], kwargs, joinType;
      isNegated, context := false, Context(map[], map[]);
      depth, nodes := 0, {this};
    }

    static ghost function MaxDepth(cs: seq<Q>): (m: nat)
      ensures forall c <- cs :: c.depth <= m
    {
      if cs == [] then 0
      else
        var m := MaxDepth(cs[1..]);
        assert forall c <- cs :: c == cs[0] || c in cs[1..];
        if cs[0].depth > m then cs[0].depth else m
    }

    method And(other: Q) returns (q: Q)
      requires Valid() && other.Valid()
      ensures q.Valid() && fresh(q) && q.Tree() == Conjunction(Tree(), other.Tree())
    {
      q := new Q([this, other], AND, []);
      assert q.Trees(q.children) == [Tree(), other.Tree()];
    }

    method Or(other: Q) returns (q: Q)
      requires Valid() && other.Valid()
      ensures q.Valid() && fresh(q) && q.Tree() == Disjunction(Tree(), other.Tree())
    {
      q := new Q([this, other], OR, []);
      assert q.Trees(q.children) == [Tree(), other.Tree()];
    }

    /** Nodes built by the constructor never hold sub-queries and filters at once. */
    method Invert() returns (q: Q)
      requires Valid() && (children == [] || filters == [])
      ensures q.Valid() && fresh(q) && q.Tree() == Inverted(Tree())
    {
      q := new Q(children, joinType, filters);
      assert q.Trees(q.children) == Trees(children);
      q.Negate();
    }

    method Negate()
      requires Valid()
      modifies this`isNegated
      ensures Tree() == Flipped(old(Tree()))
    {
      isNegated := !isNegated;
      assert forall i :: 0 <= i < |children| ==> children[i].Tree() == old(children[i].Tree());
      assert Trees(children) == old(Trees(children));
    }

    method ResolveKwargs(g: Graph, model: string, table: Table) returns (r: Result<QueryModifier, string>)
      requires Valid() && Scope(g, context, model, table).Valid()
      ensures r == Finish(Tree(), QTrees.ResolveFilters(Scope(g, context, model, table), joinType, filters))
    {
      var s := Scope(g, context, model, table);
      var modifier := NoModifier;
      for i := 0 to |filters|
        invariant Ok(modifier) == QTrees.ResolveFilters(s, joinType, filters[..i])
      {
        assert filters[..i + 1][..i] == filters[..i];
        var next := ResolveFilter(s, filters[i].0, filters[i].1);
        if next.Err? {
          ErrorStops(s, joinType, filters, i + 1);
          return Err(next.error);
        }
        if joinType == AND {
          modifier := modifier.And(next.value);
        } else {
          modifier := modifier.Or(next.value);
        }
      }
      assert filters[..|filters|] == filters;
      if isNegated {
        modifier := modifier.Invert();
      }
      return Ok(modifier);
    }

    /** Hands its own context down to every child before resolving it. */
    method ResolveChildNodes(g: Graph, model: string, table: Table) returns (r: Result<QueryModifier, string>)
      requires Valid() && Scope(g, context, model, table).Valid()
      modifies nodes`context
      ensures context == old(context)
      ensures var s := old(Scope(g, context, model, table));
              r == Finish(Tree(), QTrees.ResolveChildren(s, joinType, Tree().children))
      decreases depth, 1
    {
      ghost var ts := Trees(children);
      assert StandFor(children, ts, nodes - {this}) by {
        forall c <- children ensures c.nodes <= nodes - {this} {
          assert c.Valid() && this !in c.nodes;
        }
      }
      r := JoinNodes(g, model, table, joinType, children, context, ts, nodes - {this}, depth);
      assert ts == Tree().children;
      if r.Ok? && isNegated {
        r := Ok(r.value.Invert());
      }
    }

    /** Overwrites the node's context, then resolves it. */
    method ResolveIn(context: Context, g: Graph, model: string, table: Table)
      returns (r: Result<QueryModifier, string>)
      requires Valid() && Scope(g, context, model, table).Valid()
      modifies nodes`context
      ensures r == QTrees.Resolve(Scope(g, context, model, table), Tree())
      decreases depth, 3
    {
      this.context := context;
      r := Resolve(g, model, table);
    }

    /** The result depends on the tree and on this node's own context alone: contexts left in the
        nodes below by earlier uses never matter, and the trees do not change. */
    method Resolve(g: Graph, model: string, table: Table) returns (r: Result<QueryModifier, string>)
      requires Valid() && Scope(g, context, model, table).Valid()
      modifies nodes`context
      ensures context == old(context)
      ensures r == QTrees.Resolve(old(Scope(g, context, model, table)), Tree())
      decreases depth, 2
    {
      if filters != [] {
        r := ResolveKwargs(g, model, table);
      } else {
        r := ResolveChildNodes(g, model, table);
      }
    }
  }

  lemma {:induction false} ErrorStops(s: Scope, c: Connective, fs: seq<Filter>, i: nat)
    requires s.Valid() && i <= |fs| && QTrees.ResolveFilters(s, c, fs[..i]).Err?
    ensures QTrees.ResolveFilters(s, c, fs) == QTrees.ResolveFilters(s, c, fs[..i])
    decreases |fs|
  {
    if i == |fs| {
      assert fs[..i] == fs;
    } else {
      var rest := fs[..|fs| - 1];
      assert rest[..i] == fs[..i];
      ErrorStops(s, c, rest, i);
    }
  }

  lemma {:induction false} ErrorStopsChildren(s: Scope, c: Connective, ts: seq<QTree>, i: nat)
    requires s.Valid() && i <= |ts| && QTrees.ResolveChildren(s, c, ts[..i]).Err?
    ensures QTrees.ResolveChildren(s, c, ts) == QTrees.ResolveChildren(s, c, ts[..i])
    decreases |ts|
  {
    if i == |ts| {
      assert ts[..i] == ts;
    } else {
      var rest := ts[..|ts| - 1];
      assert rest[..i] == ts[..i];
      ErrorStopsChildren(s, c, rest, i);
    }
  }

  /** One turn of a loop over nodes: either the loop's result is known, or it is extended. */
  lemma ChildStep(s: Scope, c: Connective, ts: seq<QTree>, i: nat, acc: QueryModifier,
                  next: Result<QueryModifier, string>)
    requires s.Valid() && i < |ts| && QTrees.ResolveChildren(s, c, ts[..i]) == Ok(acc)
    requires next == QTrees.Resolve(s, ts[i])
    ensures next.Err? ==> QTrees.ResolveChildren(s, c, ts) == Err(next.error)
    ensures next.Ok? ==> QTrees.ResolveChildren(s, c, ts[..i + 1]) == Ok(acc.Join(c, next.value))
  {
    assert ts[..i + 1][..i] == ts[..i];
    if next.Err? {
      ErrorStopsChildren(s, c, ts, i + 1);
    }
  }

  // ---- The queryset ---------------------------------------------------------------------------

  /** `joins` in order, leaving out those whose table is joined already. */
  function NewJoins(joined: seq<Table>, joins: seq<Join>): seq<Join> {
    if joins == [] then []
    else
      var n := |joins| - 1;
      var before := NewJoins(joined, joins[..n]);
      if joins[n].table in joined + TablesOf(before) then before else before + [joins[n]]
  }

  function TablesOf(joins: seq<Join>): (ts: seq<Table>)
    ensures |ts| == |joins| && forall i :: 0 <= i < |joins| ==> ts[i] == joins[i].table
  {
    seq(|joins|, i requires 0 <= i < |joins| => joins[i].table)
  }

  /** No table is joined twice, and every table asked for is there. */
  lemma {:induction false} NewJoinsCover(joined: seq<Table>, joins: seq<Join>)
    ensures forall t :: t in joined + TablesOf(NewJoins(joined, joins)) <==> t in joined + TablesOf(joins)
    ensures Distinct(joined) ==> Distinct(joined + TablesOf(NewJoins(joined, joins)))
  {
    if joins == [] {
      assert joined + TablesOf([]) == joined;
    } else {
      var n := |joins| - 1;
      NewJoinsCover(joined, joins[..n]);
      var before := NewJoins(joined, joins[..n]);
      var have := joined + TablesOf(before);
      assert TablesOf(joins) == TablesOf(joins[..n]) + [joins[n].table];
      if joins[n].table !in have {
        assert joined + TablesOf(before + [joins[n]]) == have + [joins[n].table];
      }
    }
  }

  class QueryBuilder {
    var joins: seq<Join>          // LEFT OUTER JOINs of the query under construction, in order
    var joinedTables: seq<Table>
    var wheres: Criterion
    var havings: Criterion

    ghost predicate Valid()
      reads this
    {
      joinedTables == TablesOf(joins)
    }

    constructor ()
      ensures Valid() && joins == [] && joinedTables == []
    {
      joins, joinedTables, wheres, havings := [], [], Empty, Empty;
    }

    method AddJoins(js: seq<Join>)
      requires Valid()
      modifies this`joins, this`joinedTables
      ensures Valid()
      ensures joins == old(joins) + NewJoins(old(joinedTables), js)
    {
      ghost var before := joinedTables;
      for i := 0 to |js|
        invariant Valid() && before == old(joinedTables) == TablesOf(old(joins))
        invariant joins == old(joins) + NewJoins(before, js[..i])
        invariant joinedTables == before + TablesOf(NewJoins(before, js[..i]))
      {
        assert js[..i + 1][..i] == js[..i];
        if js[i].table !in joinedTables {
          ghost var sofar := NewJoins(before, js[..i]);
          assert TablesOf(sofar + [js[i]]) == TablesOf(sofar) + [js[i].table];
          joins := joins + [js[i]];
          joinedTables := joinedTables + [js[i].table];
        }
      }
      assert js[..|js|] == js;
    }

    /** The conditions of all Q objects, ANDed, with the joins they need; `ts` are their trees. */
    method ResolveFilters(g: Graph, model: string, table: Table, qs: seq<Q>, context: Context,
                          ghost ts: seq<QTree>, ghost nodes: set<Q>)
      returns (r: Result<QueryModifier, string>)
      requires Valid() && Scope(g, context, model, table).Valid()
      requires StandFor(qs, ts, nodes)
      modifies this, nodes`context
      ensures Valid() && StandFor(qs, ts, nodes)
      ensures r == QTrees.ResolveChildren(Scope(g, context, model, table), AND, ts)
      ensures r.Ok? ==> wheres == r.value.where && havings == r.value.having
                        && joins == old(joins) + NewJoins(old(joinedTables), r.value.joins)
      ensures r.Err? ==> unchanged(this)
    {
      r := JoinNodes(g, model, table, AND, qs, context, ts, nodes, Q.MaxDepth(qs) + 1);
      if r.Ok? {
        AddJoins(r.value.joins);
        wheres := r.value.where;
        havings := r.value.having;
      }
    }
  }

  ghost predicate StandFor(qs: seq<Q>, ts: seq<QTree>, nodes: set<Q>)
    reads nodes`isNegated
  {
    |ts| == |qs| && forall i :: 0 <= i < |qs| ==> qs[i].Valid() && qs[i].nodes <= nodes && qs[i].Tree() == ts[i]
  }

  /** The loops that join the results of several nodes, each given the context first. */
  method JoinNodes(g: Graph, model: string, table: Table, c: Connective, qs: seq<Q>, context: Context,
                   ghost ts: seq<QTree>, ghost nodes: set<Q>, ghost depth: nat)
    returns (r: Result<QueryModifier, string>)
    requires Scope(g, context, model, table).Valid()
    requires StandFor(qs, ts, nodes) && forall q <- qs :: q.depth < depth
    modifies nodes`context
    ensures r == QTrees.ResolveChildren(Scope(g, context, model, table), c, ts)
    decreases depth, 0
  {
    ghost var s := Scope(g, context, model, table);
    var modifier := NoModifier;
    for i := 0 to |qs|
      invariant Ok(modifier) == QTrees.ResolveChildren(s, c, ts[..i])
    {
      assert qs[i] in qs;
      var next := qs[i].ResolveIn(context, g, model, table);
      ChildStep(s, c, ts, i, modifier, next);
      if next.Err? {
        return Err(next.error);
      }
      modifier := if c == AND then modifier.And(next.value) else modifier.Or(next.value);
    }
    assert ts[..|ts|] == ts;
    return Ok(modifier);
  }
}
