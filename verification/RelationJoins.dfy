// What the compiled LEFT JOINs return: filtering along a relation path (tortoise/expressions.py,
// `_resolve_nested_filter`; tortoise/queryset.py, `resolve_filters`) against counting chains of
// related rows.
module RelationJoins {
  import opened Common
  import opened Kleene
  import opened Lookups
  import opened ModelGraph
  import opened Criteria
  import opened QTrees
  import opened QExpressions

  type Row = map<string, Value>
  type Db = map<string, seq<Row>>

  /** One combined row of a join: per table reference its row, or nothing where the outer join
      found none. */
  type Env = map<string, Option<Row>>

  function RowsOf(db: Db, table: string): seq<Row> {
    if table in db then db[table] else []
  }

  function Field(row: Row, column: string): Value {
    if column in row then row[column] else Null
  }

  function Cell(env: Env, c: Column): Value {
    if c.table.Ref() in env && env[c.table.Ref()].Some? then Field(env[c.table.Ref()].value, c.name) else Null
  }

  // ---- SQL: left outer joins and selection ----------------------------------------------------

  predicate JoinHolds(env: Env, j: Join) {
    SqlEq(Cell(env, j.left), Cell(env, j.right)) == True
  }

  function Matches(env: Env, j: Join, rows: seq<Row>): seq<Env> {
    if rows == [] then []
    else
      var e := env[j.table.Ref() := Some(rows[0])];
      (if JoinHolds(e, j) then [e] else []) + Matches(env, j, rows[1..])
  }

  function LeftJoinOne(db: Db, env: Env, j: Join): seq<Env> {
    var found := Matches(env, j, RowsOf(db, j.table.name));
    if found == [] then [env[j.table.Ref() := None]] else found
  }

  function LeftJoin(db: Db, envs: seq<Env>, j: Join): seq<Env> {
    if envs == [] then [] else LeftJoinOne(db, envs[0], j) + LeftJoin(db, envs[1..], j)
  }

  function LeftJoins(db: Db, envs: seq<Env>, js: seq<Join>): seq<Env>
    decreases |js|
  {
    if js == [] then envs else LeftJoins(db, LeftJoin(db, envs, js[0]), js[1..])
  }

  function Reading(env: Env): Assignment {
    (a: Atom) => match a
      case OnColumn(column, lookup) => Holds(lookup, Cell(env, column))
      case OnAnnotation(_, _, _, _) => Unknown
  }

  /** WHERE keeps a combined row when its condition is absent or true. */
  function Kept(envs: seq<Env>, where: Criterion): seq<Env> {
    if envs == [] then [] else KeptOne(envs[0], where) + Kept(envs[1..], where)
  }

  function KeptOne(env: Env, where: Criterion): seq<Env> {
    if Eval(where, Reading(env)) in {Nothing, Just(True)} then [env] else []
  }

  /** The result rows that the base row `row` contributes to a query with these joins and WHERE. */
  function ResultFor(db: Db, base: Table, row: Row, js: seq<Join>, where: Criterion): seq<Env> {
    Kept(LeftJoins(db, [map[base.Ref() := Some(row)]], js), where)
  }

  // ---- The relational reading: chains of related rows -----------------------------------------

  /** From a row to the rows of `table` whose column `to` equals the row's column `from`. */
  datatype Hop = Hop(table: string, from: string, to: string)

  function HopsOf(g: Graph, m: Model, rel: Relation): seq<Hop>
    requires rel.related in g
  {
    match rel
    case ManyToMany(related, through, backwardKey, forwardKey) =>
      [Hop(through, m.pk, backwardKey), Hop(g[related].table, forwardKey, g[related].pk)]
    case BackwardFK(related, toColumn, relationColumn) => [Hop(g[related].table, toColumn, relationColumn)]
    case ForwardFK(related, toColumn, fromColumn) => [Hop(g[related].table, fromColumn, toColumn)]
  }

  /** A filter on stored columns: the hops of its path and the test at the far end. */
  datatype PathFilter = PathFilter(hops: seq<Hop>, column: string, lookup: Lookup)

  function PathOf(s: Scope, key: string, arg: Arg): Option<PathFilter>
    requires s.Valid()
    decreases |key|
  {
    var m := s.Meta();
    if !Allowed(s, key) then None
    else
      var k := ActualKey(m, key);
      if k in s.context.customFilters then None
      else if Nested(s, k) then
        var (name, rest) := Partition(k);
        match PathOf(s.Follow(name), rest, arg)
        case None => None
        case Some(p) => Some(p.(hops := HopsOf(s.graph, m, m.relations[name]) + p.hops))
      else if k in m.filters then
        match ParamOf(m, k, arg)
        case (Own(column, op), a) => Some(PathFilter([], column, ApplyOp(op, a)))
        case (Through(table, backwardKey, column, op), a) =>
          Some(PathFilter([Hop(table, m.pk, backwardKey)], column, ApplyOp(op, a)))
      else None
  }

  predicate Linked(row: Row, h: Hop, next: Row) {
    SqlEq(Field(row, h.from), Field(next, h.to)) == True
  }

  /** NULL keys link nothing. */
  lemma LinkedIff(row: Row, h: Hop, next: Row)
    ensures Linked(row, h, next) <==> Field(row, h.from).Val? && Field(row, h.from) == Field(next, h.to)
    ensures h.from !in row || h.to !in next ==> !Linked(row, h, next)
  {}

  function LinkedRows(row: Row, h: Hop, rows: seq<Row>): seq<Row> {
    if rows == [] then [] else (if Linked(row, h, rows[0]) then [rows[0]] else []) + LinkedRows(row, h, rows[1..])
  }

  predicate Satisfies(row: Row, p: PathFilter) {
    Holds(p.lookup, Field(row, p.column)) == True
  }

  /** How many chains of related rows lead from `row` to a row that satisfies the test. */
  function Chains(db: Db, row: Row, p: PathFilter): nat
    decreases |p.hops|, 1, 0
  {
    if p.hops == [] then if Satisfies(row, p) then 1 else 0
    else ChainsFrom(db, LinkedRows(row, p.hops[0], RowsOf(db, p.hops[0].table)), p)
  }

  function ChainsFrom(db: Db, rows: seq<Row>, p: PathFilter): nat
    requires p.hops != []
    decreases |p.hops|, 0, |rows|
  {
    if rows == [] then 0
    else Chains(db, rows[0], p.(hops := p.hops[1..])) + ChainsFrom(db, rows[1..], p)
  }

  /** How many chains from `row` break off before the end of the path. */
  function DeadEnds(db: Db, row: Row, p: PathFilter): nat
    decreases |p.hops|, 1, 0
  {
    if p.hops == [] then 0
    else
      var next := LinkedRows(row, p.hops[0], RowsOf(db, p.hops[0].table));
      if next == [] then 1 else DeadEndsFrom(db, next, p)
  }

  function DeadEndsFrom(db: Db, rows: seq<Row>, p: PathFilter): nat
    requires p.hops != []
    decreases |p.hops|, 0, |rows|
  {
    if rows == [] then 0
    else DeadEnds(db, rows[0], p.(hops := p.hops[1..])) + DeadEndsFrom(db, rows[1..], p)
  }

  function Expected(db: Db, row: Row, p: PathFilter): nat {
    Chains(db, row, p) + if AcceptsNull(p.lookup) then DeadEnds(db, row, p) else 0
  }

  // ---- Joins realise hops ----------------------------------------------------------------------

  function LastTable(prev: Table, js: seq<Join>): Table {
    if js == [] then prev else js[|js| - 1].table
  }

  predicate Realises(prev: Table, js: seq<Join>, hops: seq<Hop>)
    decreases |js|
  {
    && |js| == |hops|
    && (js != [] ==>
          && js[0].table.name == hops[0].table
          && (var here, there := Column(prev, hops[0].from), Column(js[0].table, hops[0].to);
              (js[0].left, js[0].right) in {(here, there), (there, here)})
          && Realises(js[0].table, js[1..], hops[1..]))
  }

  ghost predicate FreshRefs(used: set<string>, js: seq<Join>)
    decreases |js|
  {
    js != [] ==> js[0].table.Ref() !in used && FreshRefs(used + {js[0].table.Ref()}, js[1..])
  }

  lemma {:induction false} RealisesAppend(prev: Table, js: seq<Join>, hs: seq<Hop>, ks: seq<Join>, gs: seq<Hop>)
    requires Realises(prev, js, hs) && Realises(LastTable(prev, js), ks, gs)
    ensures Realises(prev, js + ks, hs + gs)
    decreases |js|
  {
    if js == [] {
      assert js + ks == ks && hs + gs == gs;
    } else {
      assert (js + ks)[1..] == js[1..] + ks && (hs + gs)[1..] == hs[1..] + gs;
      RealisesAppend(js[0].table, js[1..], hs[1..], ks, gs);
    }
  }

  lemma RelationRealises(s: Scope, name: string)
    requires s.Valid() && name in s.Meta().relations
    ensures Realises(s.table, s.JoinsOf(name), HopsOf(s.graph, s.Meta(), s.Meta().relations[name]))
  {
    var js, hs := s.JoinsOf(name), HopsOf(s.graph, s.Meta(), s.Meta().relations[name]);
    if |js| == 2 {
      assert Realises(js[1].table, js[1..][1..], hs[1..][1..]);
      assert Realises(js[0].table, js[1..], hs[1..]);
    } else {
      assert Realises(js[0].table, js[1..], hs[1..]);
    }
  }

  /** The joins of a compiled filter follow its relation path, and its condition sits at the end. */
  lemma {:induction false} LeafFollowsPath(s: Scope, key: string, arg: Arg)
    requires s.Valid() && PathOf(s, key, arg).Some?
    ensures LeafOf(s, key, arg).Some?
    ensures var l, p := LeafOf(s, key, arg).value, PathOf(s, key, arg).value;
            && Realises(s.table, l.joins, p.hops)
            && l.atom == OnColumn(Column(LastTable(s.table, l.joins), p.column), p.lookup)
    decreases |key|
  {
    var k := ActualKey(s.Meta(), key);
    if Nested(s, k) {
      var (name, rest) := Partition(k);
      LeafFollowsPath(s.Follow(name), rest, arg);
      RelationRealises(s, name);
      var l, p := LeafOf(s.Follow(name), rest, arg).value, PathOf(s.Follow(name), rest, arg).value;
      var js := s.JoinsOf(name);
      RealisesAppend(s.table, js, HopsOf(s.graph, s.Meta(), s.Meta().relations[name]), l.joins, p.hops);
      assert LastTable(s.table, js + l.joins) == LastTable(s.Follow(name).table, l.joins);
    } else {
      var l := LeafOf(s, key, arg).value;
      if l.joins != [] {
        assert Realises(l.joins[0].table, l.joins[1..], []);
      }
    }
  }

  // ---- Counting --------------------------------------------------------------------------------

  lemma {:induction false} LeftJoinSplits(db: Db, a: seq<Env>, b: seq<Env>, j: Join)
    ensures LeftJoin(db, a + b, j) == LeftJoin(db, a, j) + LeftJoin(db, b, j)
  {
    if a == [] {
      assert a + b == b;
    } else {
      assert (a + b)[1..] == a[1..] + b;
      LeftJoinSplits(db, a[1..], b, j);
    }
  }

  lemma {:induction false} LeftJoinsSplit(db: Db, a: seq<Env>, b: seq<Env>, js: seq<Join>)
    ensures LeftJoins(db, a + b, js) == LeftJoins(db, a, js) + LeftJoins(db, b, js)
    decreases |js|
  {
    if js != [] {
      LeftJoinSplits(db, a, b, js[0]);
      LeftJoinsSplit(db, LeftJoin(db, a, js[0]), LeftJoin(db, b, js[0]), js[1..]);
    }
  }

  lemma {:induction false} LeftJoinsNone(db: Db, js: seq<Join>)
    ensures LeftJoins(db, [], js) == []
    decreases |js|
  {
    if js != [] {
      LeftJoinsNone(db, js[1..]);
    }
  }

  lemma {:induction false} KeptSplits(a: seq<Env>, b: seq<Env>, w: Criterion)
    ensures Kept(a + b, w) == Kept(a, w) + Kept(b, w)
  {
    if a == [] {
      assert a + b == b;
    } else {
      assert (a + b)[1..] == a[1..] + b;
      KeptSplits(a[1..], b, w);
      assert KeptOne(a[0], w) + (Kept(a[1..], w) + Kept(b, w)) == (KeptOne(a[0], w) + Kept(a[1..], w)) + Kept(b, w);
    }
  }

  /** Rows found by one join are the linked rows, in table order. */
  lemma {:induction false} MatchesAreLinked(env: Env, prev: Table, row: Row, j: Join, h: Hop, rows: seq<Row>)
    requires prev.Ref() in env && env[prev.Ref()] == Some(row) && j.table.Ref() != prev.Ref()
    requires (j.left, j.right) in {(Column(prev, h.from), Column(j.table, h.to)),
                                   (Column(j.table, h.to), Column(prev, h.from))}
    ensures |Matches(env, j, rows)| == |LinkedRows(row, h, rows)|
    ensures forall i :: 0 <= i < |Matches(env, j, rows)| ==>
              Matches(env, j, rows)[i] == env[j.table.Ref() := Some(LinkedRows(row, h, rows)[i])]
  {
    if rows != [] {
      MatchesAreLinked(env, prev, row, j, h, rows[1..]);
      var e := env[j.table.Ref() := Some(rows[0])];
      assert JoinHolds(e, j) <==> Linked(row, h, rows[0]);
    }
  }

  lemma {:induction false} NothingLinksToNull(env: Env, prev: Table, j: Join, h: Hop, rows: seq<Row>)
    requires prev.Ref() in env && env[prev.Ref()] == None && j.table.Ref() != prev.Ref()
    requires (j.left, j.right) in {(Column(prev, h.from), Column(j.table, h.to)),
                                   (Column(j.table, h.to), Column(prev, h.from))}
    ensures Matches(env, j, rows) == []
  {
    if rows != [] {
      NothingLinksToNull(env, prev, j, h, rows[1..]);
    }
  }

  /** The number of surviving combined rows from one start, by induction along the path. */
  lemma {:induction false} JoinCount(db: Db, env: Env, prev: Table, js: seq<Join>, p: PathFilter, w: Criterion)
    requires prev.Ref() in env && Realises(prev, js, p.hops) && FreshRefs(env.Keys, js)
    requires w == Test(OnColumn(Column(LastTable(prev, js), p.column), p.lookup))
    ensures |Kept(LeftJoins(db, [env], js), w)| ==
            match env[prev.Ref()]
            case Some(row) => Expected(db, row, p)
            case None => if AcceptsNull(p.lookup) then 1 else 0
    decreases |js|, 0, 0
  {
    if js == [] {
      assert [env][1..] == [];
      assert Kept([env], w) == KeptOne(env, w) + Kept([], w) == KeptOne(env, w);
      AcceptsNullIsExact(p.lookup);
    } else {
      var j, h, q := js[0], p.hops[0], p.(hops := p.hops[1..]);
      assert LeftJoin(db, [env], j) == LeftJoinOne(db, env, j) + LeftJoin(db, [], j) by {
        assert [env][1..] == [];
      }
      assert LeftJoin(db, [env], j) == LeftJoinOne(db, env, j);
      assert LastTable(prev, js) == LastTable(j.table, js[1..]);
      var none := env[j.table.Ref() := None];
      assert none.Keys == env.Keys + {j.table.Ref()};
      match env[prev.Ref()] {
        case None =>
          NothingLinksToNull(env, prev, j, h, RowsOf(db, j.table.name));
          JoinCount(db, none, j.table, js[1..], q, w);
        case Some(row) =>
          var rows := LinkedRows(row, h, RowsOf(db, h.table));
          MatchesAreLinked(env, prev, row, j, h, RowsOf(db, h.table));
          if rows == [] {
            assert Matches(env, j, RowsOf(db, h.table)) == [];
            assert Chains(db, row, p) == 0 && DeadEnds(db, row, p) == 1;
            JoinCount(db, none, j.table, js[1..], q, w);
          } else {
            JoinCountAll(db, env, Matches(env, j, RowsOf(db, h.table)), rows, js, p, w);
          }
      }
    }
  }

  lemma {:induction false} JoinCountAll(db: Db, env: Env, envs: seq<Env>, rows: seq<Row>, js: seq<Join>,
                                        p: PathFilter, w: Criterion)
    requires js != [] && p.hops != [] && Realises(js[0].table, js[1..], p.hops[1..])
    requires FreshRefs(env.Keys + {js[0].table.Ref()}, js[1..])
    requires w == Test(OnColumn(Column(LastTable(js[0].table, js[1..]), p.column), p.lookup))
    requires |envs| == |rows|
    requires forall i :: 0 <= i < |rows| ==> envs[i] == env[js[0].table.Ref() := Some(rows[i])]
    ensures |Kept(LeftJoins(db, envs, js[1..]), w)| ==
            ChainsFrom(db, rows, p) + if AcceptsNull(p.lookup) then DeadEndsFrom(db, rows, p) else 0
    decreases |js| - 1, 1, |rows|
  {
    var q := p.(hops := p.hops[1..]);
    if rows == [] {
      LeftJoinsNone(db, js[1..]);
    } else {
      assert envs == [envs[0]] + envs[1..];
      LeftJoinsSplit(db, [envs[0]], envs[1..], js[1..]);
      KeptSplits(LeftJoins(db, [envs[0]], js[1..]), LeftJoins(db, envs[1..], js[1..]), w);
      assert envs[0].Keys == env.Keys + {js[0].table.Ref()};
      JoinCount(db, envs[0], js[0].table, js[1..], q, w);
      JoinCountAll(db, env, envs[1..], rows[1..], js, p, w);
    }
  }

  // ---- Main results ----------------------------------------------------------------------------

  lemma {:induction false} FreshMeansAllNew(used: set<string>, js: seq<Join>)
    requires FreshRefs(used, js)
    ensures NewJoins([], js) == js
    ensures forall j <- js :: j.table.Ref() !in used
    decreases |js|
  {
    FreshRefsDistinct(used, js);
    AllNew(js);
  }

  lemma {:induction false} FreshRefsDistinct(used: set<string>, js: seq<Join>)
    requires FreshRefs(used, js)
    ensures forall i, k :: 0 <= i < k < |js| ==> js[i].table != js[k].table
    ensures forall j <- js :: j.table.Ref() !in used
    decreases |js|
  {
    if js != [] {
      FreshRefsDistinct(used + {js[0].table.Ref()}, js[1..]);
      assert forall i :: 0 < i < |js| ==> js[i] == js[1..][i - 1];
      assert forall i :: 0 < i < |js| ==> js[i] in js[1..];
    }
  }

  lemma {:induction false} AllNew(js: seq<Join>)
    requires forall i, k :: 0 <= i < k < |js| ==> js[i].table != js[k].table
    ensures NewJoins([], js) == js
    decreases |js|
  {
    if js != [] {
      var n := |js| - 1;
      AllNew(js[..n]);
      assert js == js[..n] + [js[n]];
      assert [] + TablesOf(js[..n]) == TablesOf(js[..n]);
    }
  }

  /** Filtering a query by one key of any depth: a base row comes back once for every chain of
      related rows that ends in a satisfying row, plus, for the lookups that accept NULL, once for
      every chain that breaks off. Table references on the path must be distinct. */
  lemma FilterCountsChains(s: Scope, key: string, arg: Arg, db: Db, row: Row)
    requires s.Valid() && PathOf(s, key, arg).Some?
    requires LeafOf(s, key, arg).Some? && FreshRefs({s.table.Ref()}, LeafOf(s, key, arg).value.joins)
    ensures ResolveFilter(s, key, arg).Ok?
    ensures var m := ResolveFilter(s, key, arg).value;
            && m.having == Empty
            && |ResultFor(db, s.table, row, NewJoins([], m.joins), m.where)| ==
               Expected(db, row, PathOf(s, key, arg).value)
  {
    FilterIsLeaf(s, key, arg);
    LeafFollowsPath(s, key, arg);
    var l, p := LeafOf(s, key, arg).value, PathOf(s, key, arg).value;
    FreshMeansAllNew({s.table.Ref()}, l.joins);
    var env: Env := map[s.table.Ref() := Some(row)];
    assert env.Keys == {s.table.Ref()};
    JoinCount(db, env, s.table, l.joins, p, Test(l.atom));
  }

  /** A lookup that is not true on NULL counts chains only, whatever the data; any other lookup
      also returns rows without a chain. */
  lemma CountsChainsOnly(p: PathFilter)
    requires p.hops != []
    ensures (forall db: Db, row: Row :: Expected(db, row, p) == Chains(db, row, p)) <==> !AcceptsNull(p.lookup)
  {
    if AcceptsNull(p.lookup) {
      var db: Db, row: Row := map[], map[];
      assert RowsOf(db, p.hops[0].table) == [];
      assert DeadEnds(db, row, p) == 1;
      assert Expected(db, row, p) != Chains(db, row, p);
    }
  }

  /** `relation__column__isnull=True` returns a base row that has no related row at all. */
  lemma MissingRowPassesIsNull(h: Hop, column: string, row: Row)
    ensures var p := PathFilter([h], column, IsNull(true));
            Chains(map[], row, p) == 0 && Expected(map[], row, p) == 1
  {
    assert LinkedRows(row, h, RowsOf(map[], h.table)) == [];
  }

  ghost predicate ToOne(db: Db, hops: seq<Hop>) {
    forall h <- hops, row: Row :: |LinkedRows(row, h, RowsOf(db, h.table))| <= 1
  }

  /** The row at the far end of a to-one path, if every row on the way is there. */
  function Reached(db: Db, row: Row, hops: seq<Hop>): Option<Row>
    decreases |hops|
  {
    if hops == [] then Some(row)
    else
      var next := LinkedRows(row, hops[0], RowsOf(db, hops[0].table));
      if next == [] then None else Reached(db, next[0], hops[1..])
  }

  /** Along a to-one path a base row is returned at most once, and exactly when the row it leads to
      satisfies the test (or is missing, for lookups that accept NULL). */
  lemma {:induction false} ToOneNeverDuplicates(db: Db, row: Row, p: PathFilter)
    requires ToOne(db, p.hops)
    ensures Expected(db, row, p) ==
            match Reached(db, row, p.hops)
            case Some(end) => if Satisfies(end, p) then 1 else 0
            case None => if AcceptsNull(p.lookup) then 1 else 0
    decreases |p.hops|
  {
    if p.hops != [] {
      var h, q := p.hops[0], p.(hops := p.hops[1..]);
      var next := LinkedRows(row, h, RowsOf(db, h.table));
      assert h in p.hops && |next| <= 1;
      assert forall k <- q.hops :: k in p.hops;
      if next != [] {
        assert next[1..] == [];
        ToOneNeverDuplicates(db, next[0], q);
        assert ChainsFrom(db, next, p) == Chains(db, next[0], q) + ChainsFrom(db, [], p);
        assert DeadEndsFrom(db, next, p) == DeadEnds(db, next[0], q) + DeadEndsFrom(db, [], p);
        assert Chains(db, row, p) == Chains(db, next[0], q) && DeadEnds(db, row, p) == DeadEnds(db, next[0], q);
      } else {
        assert Chains(db, row, p) == ChainsFrom(db, next, p) == 0 && DeadEnds(db, row, p) == 1;
      }
    }
  }

  /** A foreign key whose target column is unique is a to-one hop. */
  lemma {:induction false} UniqueTargetIsToOne(row: Row, h: Hop, rows: seq<Row>)
    requires forall i, j :: 0 <= i < j < |rows| ==> SqlEq(Field(rows[i], h.to), Field(rows[j], h.to)) != True
    ensures |LinkedRows(row, h, rows)| <= 1
    ensures LinkedRows(row, h, rows) == [] <==> forall r <- rows :: !Linked(row, h, r)
  {
    if rows != [] {
      UniqueTargetIsToOne(row, h, rows[1..]);
      assert forall r :: r in rows <==> r == rows[0] || r in rows[1..];
    }
  }

  /** No two rows share a value in the column that the hop arrives at. */
  ghost predicate UniqueTarget(db: Db, h: Hop) {
    var rows := RowsOf(db, h.table);
    forall i, j :: 0 <= i < j < |rows| ==> SqlEq(Field(rows[i], h.to), Field(rows[j], h.to)) != True
  }

  /** Filtering along a path whose every hop arrives at a unique column: the compiled query returns a
      base row at most once, and exactly when the row it reaches satisfies the lookup, or is missing and
      the lookup accepts NULL. */
  lemma ToOneFilterReturnsOnce(s: Scope, key: string, arg: Arg, db: Db, row: Row)
    requires s.Valid() && PathOf(s, key, arg).Some?
    requires LeafOf(s, key, arg).Some? && FreshRefs({s.table.Ref()}, LeafOf(s, key, arg).value.joins)
    requires forall h <- PathOf(s, key, arg).value.hops :: UniqueTarget(db, h)
    ensures ResolveFilter(s, key, arg).Ok?
    ensures var m, p := ResolveFilter(s, key, arg).value, PathOf(s, key, arg).value;
            |ResultFor(db, s.table, row, NewJoins([], m.joins), m.where)| ==
            match Reached(db, row, p.hops)
            case Some(end) => if Satisfies(end, p) then 1 else 0
            case None => if AcceptsNull(p.lookup) then 1 else 0
  {
    var p := PathOf(s, key, arg).value;
    FilterCountsChains(s, key, arg, db, row);
    forall h <- p.hops, r: Row ensures |LinkedRows(r, h, RowsOf(db, h.table))| <= 1 {
      UniqueTargetIsToOne(r, h, RowsOf(db, h.table));
    }
    ToOneNeverDuplicates(db, row, p);
  }

  /** For any Q tree without aggregates, WHERE keeps exactly the combined rows for which the tree
      itself is true (or has no condition). */
  lemma {:induction false} TreeSelects(s: Scope, t: QTree, envs: seq<Env>)
    requires s.Valid() && Resolve(s, t).Ok? && !AnyLeaf(s, t, IsAggregateLeaf)
    ensures Resolve(s, t).value.having == Empty
    ensures forall e <- envs ::
              e in Kept(envs, Resolve(s, t).value.where) <==> Denote(s, t, Reading(e)) in {Nothing, Just(True)}
  {
    AggregatesStayInHaving(s, t);
    var w := Resolve(s, t).value.where;
    if envs != [] {
      MeaningPreserved(s, t, Reading(envs[0]));
      TreeSelects(s, t, envs[1..]);
      forall e <- Kept(envs[1..], w) ensures e in envs[1..] { KeptInside(envs[1..], w, e); }
      assert forall e :: e in envs <==> e == envs[0] || e in envs[1..];
    }
  }

  lemma {:induction false} KeptInside(envs: seq<Env>, w: Criterion, e: Env)
    requires e in Kept(envs, w)
    ensures e in envs
  {
    if envs != [] && !(Eval(w, Reading(envs[0])) in {Nothing, Just(True)} && e == envs[0]) {
      KeptInside(envs[1..], w, e);
    }
  }
}
