// Several filters at once: the compiled joins of a whole Q tree, de-duplicated by table
// (tortoise/queryset.py, `resolve_filters`; tortoise/expressions.py, class Q), against a reading that
// knows neither the order of the joins nor how often a relation is named.
module JointChains {
  import opened Common
  import opened Kleene
  import opened Lookups
  import opened ModelGraph
  import opened Criteria
  import opened QTrees
  import opened QExpressions
  import opened RelationJoins

  // ---- Joint chains ----------------------------------------------------------------------------

  /** What stands for a joined table: a linked row, or nothing when no row is linked. */
  ghost predicate Fits(db: Db, e: Env, j: Join) {
    && j.table.Ref() in e
    && match e[j.table.Ref()]
       case Some(row) => row in RowsOf(db, j.table.name) && JoinHolds(e, j)
       case None => forall row <- RowsOf(db, j.table.name) :: !JoinHolds(Chosen(e, j, Some(row)), j)
  }

  function Chosen(e: Env, j: Join, choice: Option<Row>): Env {
    e[j.table.Ref() := choice]
  }

  function Refs(js: seq<Join>): set<string> {
    set j | j in js :: j.table.Ref()
  }

  /** A joint chain over `env`: one choice for every joined table, each fitting its relation. Nothing in
      it depends on the order of the joins, or on how often one is listed. */
  ghost predicate Joint(db: Db, env: Env, js: seq<Join>, e: Env) {
    && e.Keys == env.Keys + Refs(js)
    && (forall r <- env :: e[r] == env[r])
    && (forall j <- js :: Fits(db, e, j))
  }

  /** One end of the join is the joined table, the other a table that is there already. */
  predicate Anchored(used: set<string>, j: Join) {
    || (j.left.table == j.table && j.right.table.Ref() in used)
    || (j.right.table == j.table && j.left.table.Ref() in used)
  }

  ghost predicate WellJoined(used: set<string>, js: seq<Join>)
    decreases |js|
  {
    js != [] ==>
      && js[0].table.Ref() !in used && Anchored(used, js[0])
      && WellJoined(used + {js[0].table.Ref()}, js[1..])
  }

  /** Tables have no two equal rows, as tables with a primary key do not. */
  ghost predicate RowsDistinct(db: Db) {
    forall t <- db :: Distinct(db[t])
  }

  // ---- One join --------------------------------------------------------------------------------

  lemma {:induction false} MatchesAre(env: Env, j: Join, rows: seq<Row>)
    requires Distinct(rows)
    ensures Distinct(Matches(env, j, rows))
    ensures forall e :: e in Matches(env, j, rows) <==>
              exists row <- rows :: e == Chosen(env, j, Some(row)) && JoinHolds(e, j)
  {
    if rows != [] {
      DistinctTail(rows);
      MatchesAre(env, j, rows[1..]);
      var e := Chosen(env, j, Some(rows[0]));
      assert e[j.table.Ref()] == Some(rows[0]);
      forall f <- Matches(env, j, rows[1..]) ensures f != e {
        var row :| row in rows[1..] && f == Chosen(env, j, Some(row));
        assert f[j.table.Ref()] == Some(row);
      }
      assert forall row :: row in rows <==> row == rows[0] || row in rows[1..];
    }
  }

  /** `e` extends `env` by a choice for the table of `j`. */
  ghost predicate Extends(env: Env, j: Join, e: Env) {
    e.Keys == env.Keys + {j.table.Ref()} && forall r <- env :: e[r] == env[r]
  }

  lemma ExtendsIs(env: Env, j: Join, e: Env)
    requires j.table.Ref() !in env
    ensures Extends(env, j, e) <==> j.table.Ref() in e && e == Chosen(env, j, e[j.table.Ref()])
    ensures Extends(env, j, e) ==> forall row: Row :: Chosen(e, j, Some(row)) == Chosen(env, j, Some(row))
  {
    if Extends(env, j, e) {
      assert e == Chosen(env, j, e[j.table.Ref()]);
    }
  }

  /** No row matches exactly when every choice of one fails the join. */
  lemma NoMatches(env: Env, j: Join, rows: seq<Row>)
    requires Distinct(rows)
    ensures Matches(env, j, rows) == [] <==> forall row <- rows :: !JoinHolds(Chosen(env, j, Some(row)), j)
  {
    MatchesAre(env, j, rows);
    var found := Matches(env, j, rows);
    if found == [] {
      forall row <- rows ensures !JoinHolds(Chosen(env, j, Some(row)), j) {
        assert Chosen(env, j, Some(row)) !in found;
      }
    } else {
      assert found[0] in found;
    }
  }

  lemma OutcomeFits(db: Db, env: Env, j: Join, e: Env)
    requires Distinct(RowsOf(db, j.table.name)) && j.table.Ref() !in env
    ensures e in LeftJoinOne(db, env, j) <==> Extends(env, j, e) && Fits(db, e, j)
  {
    var ref, rows := j.table.Ref(), RowsOf(db, j.table.name);
    MatchesAre(env, j, rows);
    NoMatches(env, j, rows);
    ExtendsIs(env, j, e);
    if ref in e && e[ref].Some? && e == Chosen(env, j, e[ref]) {
      assert e in Matches(env, j, rows) <==> e[ref].value in rows && JoinHolds(e, j);
      assert e[ref].value in rows && JoinHolds(e, j) ==> Matches(env, j, rows) != [];
    }
  }

  /** The outcomes of one outer join are the fitting choices for its table, each once. */
  lemma OneJoinFits(db: Db, env: Env, j: Join)
    requires RowsDistinct(db) && j.table.Ref() !in env
    ensures Distinct(LeftJoinOne(db, env, j))
    ensures forall e :: e in LeftJoinOne(db, env, j) <==> Extends(env, j, e) && Fits(db, e, j)
  {
    MatchesAre(env, j, RowsOf(db, j.table.name));
    forall e ensures e in LeftJoinOne(db, env, j) <==> Extends(env, j, e) && Fits(db, e, j) {
      OutcomeFits(db, env, j, e);
    }
  }

  // ---- All joins -------------------------------------------------------------------------------

  /** Whether a choice fits depends on the two tables of the join alone. */
  lemma FitsEarlier(db: Db, e1: Env, e: Env, j: Join)
    requires Anchored(e1.Keys, j) && j.table.Ref() in e1 && e1.Keys <= e.Keys && forall r <- e1 :: e[r] == e1[r]
    ensures Fits(db, e, j) <==> Fits(db, e1, j)
  {
    assert JoinHolds(e, j) <==> JoinHolds(e1, j);
    forall row ensures JoinHolds(Chosen(e, j, Some(row)), j) <==> JoinHolds(Chosen(e1, j, Some(row)), j) {}
  }

  lemma {:induction false} JoinsAreJoint(db: Db, env: Env, js: seq<Join>)
    requires RowsDistinct(db) && WellJoined(env.Keys, js)
    ensures Distinct(LeftJoins(db, [env], js))
    ensures forall e :: e in LeftJoins(db, [env], js) <==> Joint(db, env, js, e)
    decreases |js|, 0
  {
    if js == [] {
      NoJoins(db, env);
    } else {
      FirstJoin(db, env, js[0]);
      EachJoinsJoint(db, env, LeftJoinOne(db, env, js[0]), js);
      forall e
        ensures Joint(db, env, js, e) <==> Continues(db, LeftJoinOne(db, env, js[0]), js[1..], e)
      {
        JointStep(db, env, js, e);
      }
    }
  }

  lemma NoJoins(db: Db, env: Env)
    ensures forall e :: e in [env] <==> Joint(db, env, [], e)
  {
    forall e ensures e in [env] <==> Joint(db, env, [], e) {
      if Joint(db, env, [], e) {
        assert e.Keys == env.Keys;
        assert e == env;
      }
    }
  }

  lemma FirstJoin(db: Db, env: Env, j: Join)
    requires RowsDistinct(db) && j.table.Ref() !in env
    ensures LeftJoin(db, [env], j) == LeftJoinOne(db, env, j) && Distinct(LeftJoinOne(db, env, j))
    ensures forall e1 <- LeftJoinOne(db, env, j) :: e1.Keys == env.Keys + {j.table.Ref()}
  {
    assert [env][1..] == [] && LeftJoinOne(db, env, j) + [] == LeftJoinOne(db, env, j);
    OneJoinFits(db, env, j);
  }

  lemma JointStep(db: Db, env: Env, js: seq<Join>, e: Env)
    requires RowsDistinct(db) && js != [] && WellJoined(env.Keys, js)
    ensures Joint(db, env, js, e) <==> Continues(db, LeftJoinOne(db, env, js[0]), js[1..], e)
  {
    OneJoinFits(db, env, js[0]);
    if Joint(db, env, js, e) {
      var e1 := JointFirst(db, env, js, e);
    }
    if e1 :| e1 in LeftJoinOne(db, env, js[0]) && Joint(db, e1, js[1..], e) {
      JointRest(db, env, js, e1, e);
    }
  }

  lemma RefsCons(js: seq<Join>)
    requires js != []
    ensures Refs(js) == {js[0].table.Ref()} + Refs(js[1..])
    ensures forall k :: k in js <==> k == js[0] || k in js[1..]
  {
    assert forall k :: k in js <==> k == js[0] || k in js[1..];
  }

  ghost predicate Continues(db: Db, envs: seq<Env>, js: seq<Join>, e: Env) {
    exists e1 <- envs :: Joint(db, e1, js, e)
  }

  lemma JointFirst(db: Db, env: Env, js: seq<Join>, e: Env) returns (e1: Env)
    requires js != [] && WellJoined(env.Keys, js) && Joint(db, env, js, e)
    ensures Extends(env, js[0], e1) && Fits(db, e1, js[0]) && Joint(db, e1, js[1..], e)
  {
    var ref := js[0].table.Ref();
    RefsCons(js);
    assert ref in e;
    e1 := env[ref := e[ref]];
    assert e1.Keys == env.Keys + {ref};
    FitsEarlier(db, e1, e, js[0]);
  }

  lemma JointRest(db: Db, env: Env, js: seq<Join>, e1: Env, e: Env)
    requires js != [] && WellJoined(env.Keys, js)
    requires Extends(env, js[0], e1) && Fits(db, e1, js[0]) && Joint(db, e1, js[1..], e)
    ensures Joint(db, env, js, e)
  {
    RefsCons(js);
    FitsEarlier(db, e1, e, js[0]);
    assert forall r <- env :: r in e1 && e[r] == e1[r];
  }

  /** The outcomes of the first join, each continued; no two of them lead to the same end. */
  lemma {:induction false} EachJoinsJoint(db: Db, env: Env, envs: seq<Env>, js: seq<Join>)
    requires RowsDistinct(db) && js != [] && WellJoined(env.Keys, js) && Distinct(envs)
    requires forall e1 <- envs :: e1.Keys == env.Keys + {js[0].table.Ref()}
    ensures Distinct(LeftJoins(db, envs, js[1..]))
    ensures forall e :: e in LeftJoins(db, envs, js[1..]) <==> Continues(db, envs, js[1..], e)
    decreases |js| - 1, 1, |envs|
  {
    var rest := js[1..];
    if envs == [] {
      LeftJoinsNone(db, rest);
    } else {
      assert envs == [envs[0]] + envs[1..] && envs[0] in envs;
      DistinctTail(envs);
      LeftJoinsSplit(db, [envs[0]], envs[1..], rest);
      JoinsAreJoint(db, envs[0], rest);
      EachJoinsJoint(db, env, envs[1..], js);
      var a, b := LeftJoins(db, [envs[0]], rest), LeftJoins(db, envs[1..], rest);
      forall e ensures !(e in a && e in b) {
        if e1 :| e1 in envs[1..] && Joint(db, e1, rest, e) && e in a {
          SameStart(db, envs[0], e1, rest, e);
        }
      }
      DistinctAppend(a, b);
      assert forall e1 :: e1 in envs <==> e1 == envs[0] || e1 in envs[1..];
    }
  }

  lemma DistinctTail<T>(s: seq<T>)
    requires s != [] && Distinct(s)
    ensures Distinct(s[1..]) && s[0] !in s[1..]
  {
    assert forall i :: 0 < i < |s| ==> s[i] == s[1..][i - 1] && s[i] != s[0];
  }

  lemma SameStart(db: Db, a: Env, b: Env, js: seq<Join>, e: Env)
    requires a.Keys == b.Keys && Joint(db, a, js, e) && Joint(db, b, js, e)
    ensures a == b
  {
    assert forall r <- a :: a[r] == e[r] == b[r];
  }

  lemma DistinctAppend<T>(a: seq<T>, b: seq<T>)
    requires Distinct(a) && Distinct(b) && forall x :: !(x in a && x in b)
    ensures Distinct(a + b)
  {
    var all := a + b;
    forall i, j | 0 <= i < j < |all| ensures all[i] != all[j] {
      if i < |a| <= j {
        assert all[i] in a && all[j] in b;
      }
    }
  }

  // ---- The joins of a tree ---------------------------------------------------------------------

  function LeafJoins(s: Scope, f: Filter): seq<Join>
    requires s.Valid()
  {
    if LeafOf(s, f.0, f.1).Some? then LeafOf(s, f.0, f.1).value.joins else []
  }

  /** The joins that the leaves of a tree need, leaf by leaf. */
  function TreeJoins(s: Scope, t: QTree): seq<Join>
    requires s.Valid()
    decreases t, 0
  {
    if t.filters != [] then FiltersJoins(s, t.filters) else ChildrenJoins(s, t.children)
  }

  function FiltersJoins(s: Scope, fs: seq<Filter>): seq<Join>
    requires s.Valid()
  {
    if fs == [] then [] else FiltersJoins(s, fs[..|fs| - 1]) + LeafJoins(s, fs[|fs| - 1])
  }

  function ChildrenJoins(s: Scope, ts: seq<QTree>): seq<Join>
    requires s.Valid()
    decreases ts
  {
    if ts == [] then [] else ChildrenJoins(s, ts[..|ts| - 1]) + TreeJoins(s, ts[|ts| - 1])
  }

  lemma {:induction false} ResolvedJoins(s: Scope, t: QTree)
    requires s.Valid() && Resolve(s, t).Ok?
    ensures Resolve(s, t).value.joins == TreeJoins(s, t)
    decreases t, 0
  {
    if t.filters != [] {
      FiltersResolved(s, t.join, t.filters);
    } else {
      ChildrenResolved(s, t.join, t.children);
    }
  }

  lemma {:induction false} FiltersResolved(s: Scope, c: Connective, fs: seq<Filter>)
    requires s.Valid() && QTrees.ResolveFilters(s, c, fs).Ok?
    ensures QTrees.ResolveFilters(s, c, fs).value.joins == FiltersJoins(s, fs)
  {
    if fs != [] {
      var n := |fs| - 1;
      FiltersResolved(s, c, fs[..n]);
      FilterIsLeaf(s, fs[n].0, fs[n].1);
    }
  }

  lemma {:induction false} ChildrenResolved(s: Scope, c: Connective, ts: seq<QTree>)
    requires s.Valid() && QTrees.ResolveChildren(s, c, ts).Ok?
    ensures QTrees.ResolveChildren(s, c, ts).value.joins == ChildrenJoins(s, ts)
    decreases ts
  {
    if ts != [] {
      ChildrenResolved(s, c, ts[..|ts| - 1]);
      ResolvedJoins(s, ts[|ts| - 1]);
    }
  }

  // ---- Every join hangs on an earlier table ----------------------------------------------------

  predicate Links(prev: Table, j: Join) {
    (j.left.table == prev && j.right.table == j.table) || (j.right.table == prev && j.left.table == j.table)
  }

  /** Every join links its table to the base table or to the table of an earlier join. */
  ghost predicate Rooted(base: Table, js: seq<Join>) {
    forall i :: 0 <= i < |js| ==> HangsOn(base, js[..i], js[i])
  }

  ghost predicate HangsOn(base: Table, before: seq<Join>, j: Join) {
    Links(base, j) || exists k <- before :: Links(k.table, j)
  }

  lemma RootedAppend(base: Table, a: seq<Join>, b: seq<Join>)
    requires Rooted(base, a) && Rooted(base, b)
    ensures Rooted(base, a + b)
  {
    forall i | 0 <= i < |a + b| ensures HangsOn(base, (a + b)[..i], (a + b)[i]) {
      if i < |a| {
        assert (a + b)[..i] == a[..i];
      } else {
        assert (a + b)[..i] == a + b[..i - |a|];
        assert HangsOn(base, b[..i - |a|], b[i - |a|]);
      }
    }
  }

  /** Joins rooted at the far end of a relation, behind the relation's own joins. */
  lemma RootedBehind(base: Table, a: seq<Join>, b: seq<Join>)
    requires Rooted(base, a) && a != [] && Rooted(a[|a| - 1].table, b)
    ensures Rooted(base, a + b)
  {
    forall i | 0 <= i < |a + b| ensures HangsOn(base, (a + b)[..i], (a + b)[i]) {
      if i < |a| {
        assert (a + b)[..i] == a[..i];
      } else {
        assert (a + b)[..i] == a + b[..i - |a|];
        assert HangsOn(a[|a| - 1].table, b[..i - |a|], b[i - |a|]);
        assert a[|a| - 1] in a;
      }
    }
  }

  lemma RelationRooted(s: Scope, name: string)
    requires s.Valid() && name in s.Meta().relations
    ensures Rooted(s.table, s.JoinsOf(name))
  {
    var js := s.JoinsOf(name);
    forall i | 0 <= i < |js| ensures HangsOn(s.table, js[..i], js[i]) {
      if i == 1 {
        assert js[0] in js[..1] && Links(js[0].table, js[1]);
      } else {
        assert Links(s.table, js[0]);
      }
    }
  }

  lemma {:induction false} LeafRooted(s: Scope, key: string, arg: Arg)
    requires s.Valid() && LeafOf(s, key, arg).Some?
    ensures Rooted(s.table, LeafOf(s, key, arg).value.joins)
    decreases |key|
  {
    var k := ActualKey(s.Meta(), key);
    if k !in s.context.customFilters && Nested(s, k) {
      var (name, rest) := Partition(k);
      LeafRooted(s.Follow(name), rest, arg);
      RelationRooted(s, name);
      RootedBehind(s.table, s.JoinsOf(name), LeafOf(s.Follow(name), rest, arg).value.joins);
    } else {
      var js := LeafOf(s, key, arg).value.joins;
      assert forall i :: 0 <= i < |js| ==> Links(s.table, js[i]);
    }
  }

  lemma {:induction false} TreeRooted(s: Scope, t: QTree)
    requires s.Valid()
    ensures Rooted(s.table, TreeJoins(s, t))
    decreases t, 0
  {
    if t.filters != [] {
      FiltersRooted(s, t.filters);
    } else {
      ChildrenRooted(s, t.children);
    }
  }

  lemma {:induction false} FiltersRooted(s: Scope, fs: seq<Filter>)
    requires s.Valid()
    ensures Rooted(s.table, FiltersJoins(s, fs))
  {
    if fs != [] {
      var n := |fs| - 1;
      FiltersRooted(s, fs[..n]);
      if LeafOf(s, fs[n].0, fs[n].1).Some? {
        LeafRooted(s, fs[n].0, fs[n].1);
      }
      RootedAppend(s.table, FiltersJoins(s, fs[..n]), LeafJoins(s, fs[n]));
    }
  }

  lemma {:induction false} ChildrenRooted(s: Scope, ts: seq<QTree>)
    requires s.Valid()
    ensures Rooted(s.table, ChildrenJoins(s, ts))
    decreases ts
  {
    if ts != [] {
      var n := |ts| - 1;
      ChildrenRooted(s, ts[..n]);
      TreeRooted(s, ts[n]);
      RootedAppend(s.table, ChildrenJoins(s, ts[..n]), TreeJoins(s, ts[n]));
    }
  }

  // ---- De-duplication --------------------------------------------------------------------------

  /** A table reference stands for one join: no two relations meet in the same unaliased table, and
      none leads back to the base table. */
  ghost predicate OneJoinPerTable(base: Table, js: seq<Join>) {
    && (forall j <- js :: j.table.Ref() != base.Ref())
    && (forall j <- js, k <- js :: j.table.Ref() == k.table.Ref() ==> j == k)
  }

  lemma NewJoinsStep(js: seq<Join>)
    requires js != []
    ensures var n := |js| - 1;
            var before := NewJoins([], js[..n]);
            NewJoins([], js) == if js[n].table in TablesOf(before) then before else before + [js[n]]
  {
    assert [] + TablesOf(NewJoins([], js[..|js| - 1])) == TablesOf(NewJoins([], js[..|js| - 1]));
  }

  lemma {:induction false} NewJoinsSame(base: Table, js: seq<Join>)
    requires OneJoinPerTable(base, js)
    ensures Same(NewJoins([], js), js)
  {
    if js != [] {
      var n := |js| - 1;
      assert forall j :: j in js <==> j in js[..n] || j == js[n];
      NewJoinsSame(base, js[..n]);
      NewJoinsStep(js);
      var before := NewJoins([], js[..n]);
      if js[n].table in TablesOf(before) {
        SameTable(base, js, before, js[n]);
      }
    }
  }

  ghost predicate Same(js: seq<Join>, ks: seq<Join>) {
    forall j :: j in js <==> j in ks
  }

  lemma SameTable(base: Table, js: seq<Join>, before: seq<Join>, j: Join)
    requires OneJoinPerTable(base, js) && j in js && (forall k <- before :: k in js) && j.table in TablesOf(before)
    ensures j in before
  {
    var i :| 0 <= i < |before| && TablesOf(before)[i] == j.table;
    assert before[i] in before;
  }

  lemma {:induction false} WellJoinedSnoc(used: set<string>, js: seq<Join>, j: Join)
    requires WellJoined(used, js) && j.table.Ref() !in used + Refs(js) && Anchored(used + Refs(js), j)
    ensures WellJoined(used, js + [j])
    decreases |js|
  {
    if js == [] {
      assert js + [j] == [j] && [j][1..] == [] && Refs(js) == {};
      assert used + {} == used;
    } else {
      assert (js + [j])[1..] == js[1..] + [j];
      assert used + Refs(js) == (used + {js[0].table.Ref()}) + Refs(js[1..]) by {
        assert forall k :: k in js <==> k == js[0] || k in js[1..];
      }
      WellJoinedSnoc(used + {js[0].table.Ref()}, js[1..], j);
    }
  }

  lemma NotYetThere(base: Table, js: seq<Join>, before: seq<Join>, j: Join)
    requires OneJoinPerTable(base, js) && j in js && (forall k <- before :: k in js)
    requires j.table !in TablesOf(before)
    ensures j.table.Ref() !in {base.Ref()} + Refs(before)
  {
    forall k <- before ensures k.table.Ref() != j.table.Ref() {
      var i :| 0 <= i < |before| && before[i] == k;
      assert TablesOf(before)[i] == k.table;
    }
  }

  lemma StillAnchored(base: Table, earlier: seq<Join>, before: seq<Join>, j: Join)
    requires HangsOn(base, earlier, j) && forall k <- earlier :: k in before
    ensures Anchored({base.Ref()} + Refs(before), j)
  {
    if !Links(base, j) {
      var k :| k in earlier && Links(k.table, j);
      assert k.table.Ref() in Refs(before);
    }
  }

  lemma RootedPrefix(base: Table, js: seq<Join>, n: nat)
    requires Rooted(base, js) && n <= |js|
    ensures Rooted(base, js[..n])
  {
    forall i | 0 <= i < n ensures HangsOn(base, js[..n][..i], js[..n][i]) {
      assert js[..n][..i] == js[..i];
    }
  }

  lemma {:induction false} NewJoinsWellJoined(base: Table, js: seq<Join>)
    requires OneJoinPerTable(base, js) && Rooted(base, js)
    ensures WellJoined({base.Ref()}, NewJoins([], js))
  {
    if js != [] {
      var n := |js| - 1;
      assert forall j :: j in js <==> j in js[..n] || j == js[n];
      RootedPrefix(base, js, n);
      NewJoinsWellJoined(base, js[..n]);
      NewJoinsSame(base, js[..n]);
      NewJoinsStep(js);
      var before := NewJoins([], js[..n]);
      if js[n].table !in TablesOf(before) {
        NotYetThere(base, js, before, js[n]);
        assert HangsOn(base, js[..n], js[n]);
        StillAnchored(base, js[..n], before, js[n]);
        WellJoinedSnoc({base.Ref()}, before, js[n]);
      }
    }
  }

  // ---- Main result -----------------------------------------------------------------------------

  lemma {:induction false} KeptDistinct(envs: seq<Env>, w: Criterion)
    requires Distinct(envs)
    ensures Distinct(Kept(envs, w))
    ensures forall e :: e in Kept(envs, w) <==> e in envs && Eval(w, Reading(e)) in {Nothing, Just(True)}
  {
    if envs != [] {
      DistinctTail(envs);
      KeptDistinct(envs[1..], w);
      assert forall e :: e in envs <==> e == envs[0] || e in envs[1..];
      DistinctAppend(KeptOne(envs[0], w), Kept(envs[1..], w));
    }
  }

  lemma SameJoins(db: Db, env: Env, js: seq<Join>, ks: seq<Join>, e: Env)
    requires Same(js, ks)
    ensures Joint(db, env, js, e) <==> Joint(db, env, ks, e)
  {
    assert Refs(js) == Refs(ks);
  }

  /** A query filtered by any Q tree without aggregates, however many of its filters share relations:
      the results for a base row are the joint chains of related rows for which the tree itself is true
      (or says nothing), each exactly once. */
  lemma TreeReturnsJointChains(s: Scope, t: QTree, db: Db, row: Row)
    requires s.Valid() && Resolve(s, t).Ok? && !AnyLeaf(s, t, IsAggregateLeaf)
    requires OneJoinPerTable(s.table, TreeJoins(s, t)) && RowsDistinct(db)
    ensures var m := Resolve(s, t).value;
            var start: Env := map[s.table.Ref() := Some(row)];
            var results := ResultFor(db, s.table, row, NewJoins([], m.joins), m.where);
            && m.having == Empty && Distinct(results)
            && forall e :: e in results <==>
                 Joint(db, start, TreeJoins(s, t), e) && Denote(s, t, Reading(e)) in {Nothing, Just(True)}
  {
    var m := Resolve(s, t).value;
    var start: Env := map[s.table.Ref() := Some(row)];
    ResolvedJoins(s, t);
    TreeRooted(s, t);
    NewJoinsWellJoined(s.table, m.joins);
    NewJoinsSame(s.table, m.joins);
    assert start.Keys == {s.table.Ref()};
    var js := NewJoins([], m.joins);
    JoinsAreJoint(db, start, js);
    KeptDistinct(LeftJoins(db, [start], js), m.where);
    AggregatesStayInHaving(s, t);
    forall e
      ensures Joint(db, start, js, e) <==> Joint(db, start, TreeJoins(s, t), e)
      ensures Eval(m.where, Reading(e)) == Denote(s, t, Reading(e))
    {
      SameJoins(db, start, js, m.joins, e);
      MeaningPreserved(s, t, Reading(e));
    }
  }
}
