// Ordering CREATE TABLE statements by their references (tortoise/backends/base/schema_generator.py,
// `get_create_schema_sql`).
module SchemaOrder {
  import opened Common

  /** What `_get_table_sql` returns for one model. */
  datatype TableDef = TableDef(name: string, references: set<string>, sql: string, m2m: seq<string>)

  function Names(ts: seq<TableDef>): set<string> {
    if ts == [] then {} else Names(ts[..|ts| - 1]) + {ts[|ts| - 1].name}
  }

  predicate Ready(t: TableDef, created: set<string>) {
    t.references <= created + {t.name}
  }

  /** The first table whose references exist. */
  function FirstReady(ts: seq<TableDef>, created: set<string>): (k: Option<nat>)
    ensures k.Some? ==> k.value < |ts| && Ready(ts[k.value], created)
                        && forall i :: 0 <= i < k.value ==> !Ready(ts[i], created)
    ensures k.None? ==> forall i :: 0 <= i < |ts| ==> !Ready(ts[i], created)
  {
    if ts == [] then None
    else
      var n := |ts| - 1;
      var k := FirstReady(ts[..n], created);
      assert forall i :: 0 <= i < n ==> ts[..n][i] == ts[i];
      if k.Some? then k else if Ready(ts[n], created) then Some(n) else None
  }

  function Without(ts: seq<TableDef>, k: nat): seq<TableDef>
    requires k < |ts|
  {
    ts[..k] + ts[k + 1..]
  }

  /** The order in which tables are emitted, from a point where `created` exist already. */
  function Order(rest: seq<TableDef>, created: set<string>, count: nat): Option<seq<TableDef>>
    decreases |rest|
  {
    if |created| == count then Some([])
    else match FirstReady(rest, created)
      case None => None
      case Some(k) =>
        match Order(Without(rest, k), created + {rest[k].name}, count)
        case None => None
        case Some(o) => Some([rest[k]] + o)
  }

  function Sqls(ts: seq<TableDef>): seq<string> {
    seq(|ts|, i requires 0 <= i < |ts| => ts[i].sql)
  }

  function M2ms(ts: seq<TableDef>): seq<string> {
    if ts == [] then [] else M2ms(ts[..|ts| - 1]) + ts[|ts| - 1].m2m
  }

  /** The statements in order, many-to-many tables last; an error stands for the
      ConfigurationError about cyclic references. */
  method CreateSchema(tables: seq<TableDef>) returns (r: Result<seq<string>, ()>)
    ensures Order(tables, {}, |tables|).None? ==> r.Err?
    ensures Order(tables, {}, |tables|).Some? ==>
              r == Ok(Sqls(Order(tables, {}, |tables|).value) + M2ms(Order(tables, {}, |tables|).value))
  {
    var tablesToCreate := tables;
    var created: set<string> := {};
    var ordered: seq<string>, m2m: seq<string> := [], [];
    ghost var result := Order(tables, {}, |tables|);
    ghost var emitted: seq<TableDef> := [];
    assert result.Some? ==> emitted + result.value == result.value;
    while |created| != |tables|
      invariant Continues(emitted, Order(tablesToCreate, created, |tables|), result)
      invariant ordered == Sqls(emitted) && m2m == M2ms(emitted)
      decreases |tablesToCreate|
    {
      var k := FirstReady(tablesToCreate, created);
      if k.None? {
        return Err(());
      }
      var t := tablesToCreate[k.value];
      Emits(emitted, t, Order(Without(tablesToCreate, k.value), created + {t.name}, |tables|), result);
      tablesToCreate := Without(tablesToCreate, k.value);
      created := created + {t.name};
      ordered := ordered + [t.sql];
      m2m := m2m + t.m2m;
      emitted := emitted + [t];
    }
    assert emitted + [] == emitted;
    return Ok(ordered + m2m);
  }

  /** The whole order is what has been emitted, followed by what is still to come. */
  ghost predicate Continues(emitted: seq<TableDef>, rest: Option<seq<TableDef>>, whole: Option<seq<TableDef>>) {
    if rest.None? then whole.None? else whole == Some(emitted + rest.value)
  }

  lemma Emits(emitted: seq<TableDef>, t: TableDef, rest: Option<seq<TableDef>>, whole: Option<seq<TableDef>>)
    requires Continues(emitted, if rest.None? then None else Some([t] + rest.value), whole)
    ensures Continues(emitted + [t], rest, whole)
    ensures Sqls(emitted + [t]) == Sqls(emitted) + [t.sql]
    ensures M2ms(emitted + [t]) == M2ms(emitted) + t.m2m
  {
    assert (emitted + [t])[..|emitted|] == emitted;
    assert rest.Some? ==> emitted + ([t] + rest.value) == emitted + [t] + rest.value;
  }

  lemma {:induction false} M2msAppend(a: seq<TableDef>, b: seq<TableDef>)
    ensures M2ms(a + b) == M2ms(a) + M2ms(b)
  {
    if b == [] {
      assert a + b == a;
    } else {
      assert (a + b)[..|a + b| - 1] == a + b[..|b| - 1];
      M2msAppend(a, b[..|b| - 1]);
    }
  }

  /** Each table contributes its statement at its place among the tables, and its many-to-many tables,
      one after the other, at the place behind those of the tables before it. */
  lemma StatementsOf(ts: seq<TableDef>, i: nat)
    requires i < |ts|
    ensures |Sqls(ts)| == |ts| && Sqls(ts)[i] == ts[i].sql
    ensures M2ms(ts) == M2ms(ts[..i]) + ts[i].m2m + M2ms(ts[i + 1..])
  {
    SplitAt(ts, i);
    M2msAppend(ts[..i] + [ts[i]], ts[i + 1..]);
    M2msAppend(ts[..i], [ts[i]]);
    assert [ts[i]][..0] == [] && [] + ts[i].m2m == ts[i].m2m;
  }

  // ---- What a good order is --------------------------------------------------------------------

  /** Every table comes after the tables it references, other than itself. */
  ghost predicate Sorted(ts: seq<TableDef>, created: set<string>) {
    forall i :: 0 <= i < |ts| ==> Ready(ts[i], created + Names(ts[..i]))
  }

  ghost predicate DistinctNames(ts: seq<TableDef>) {
    forall i, j :: 0 <= i < j < |ts| ==> ts[i].name != ts[j].name
  }

  lemma {:induction false} NamesAppend(a: seq<TableDef>, b: seq<TableDef>)
    ensures Names(a + b) == Names(a) + Names(b)
  {
    if b == [] {
      assert a + b == a;
    } else {
      assert (a + b)[..|a + b| - 1] == a + b[..|b| - 1];
      NamesAppend(a, b[..|b| - 1]);
    }
  }

  lemma NamesOfOne(t: TableDef)
    ensures Names([t]) == {t.name}
  {
    assert [t][..0] == [];
  }

  lemma {:induction false} NamesHas(ts: seq<TableDef>, i: nat)
    requires i < |ts|
    ensures ts[i].name in Names(ts)
  {
    if i < |ts| - 1 {
      NamesHas(ts[..|ts| - 1], i);
    }
  }

  lemma {:induction false} NameIsIn(ts: seq<TableDef>, name: string) returns (i: nat)
    requires name in Names(ts)
    ensures i < |ts| && ts[i].name == name
  {
    if ts[|ts| - 1].name == name {
      i := |ts| - 1;
    } else {
      i := NameIsIn(ts[..|ts| - 1], name);
    }
  }

  lemma DistinctLast(ts: seq<TableDef>)
    requires ts != []
    ensures DistinctNames(ts) <==> DistinctNames(ts[..|ts| - 1]) && ts[|ts| - 1].name !in Names(ts[..|ts| - 1])
  {
    var n := |ts| - 1;
    forall i | 0 <= i < n ensures ts[i].name in Names(ts[..n]) {
      NamesHas(ts[..n], i);
    }
    if ts[n].name in Names(ts[..n]) {
      var i := NameIsIn(ts[..n], ts[n].name);
      assert ts[i].name == ts[n].name;
    }
  }

  lemma {:induction false} NamesBound(ts: seq<TableDef>)
    ensures |Names(ts)| <= |ts|
    ensures |Names(ts)| == |ts| <==> DistinctNames(ts)
  {
    if ts != [] {
      NamesBound(ts[..|ts| - 1]);
      DistinctLast(ts);
    }
  }

  lemma RemovedOne(ts: seq<TableDef>, k: nat)
    requires k < |ts|
    ensures multiset(ts) == multiset(Without(ts, k)) + multiset{ts[k]}
    ensures Names(ts) == Names(Without(ts, k)) + {ts[k].name}
  {
    SplitAt(ts, k);
    Around(ts[..k], ts[k], ts[k + 1..]);
  }

  lemma SplitAt(ts: seq<TableDef>, k: nat)
    requires k < |ts|
    ensures ts == ts[..k] + [ts[k]] + ts[k + 1..]
  {}

  lemma Around(a: seq<TableDef>, t: TableDef, b: seq<TableDef>)
    ensures multiset(a + [t] + b) == multiset(a + b) + multiset{t}
    ensures Names(a + [t] + b) == Names(a + b) + {t.name}
  {
    NamesAppend(a + [t], b);
    NamesAppend(a, [t]);
    NamesAppend(a, b);
    NamesOfOne(t);
  }

  lemma NamesCons(t: TableDef, tail: seq<TableDef>, i: nat)
    requires i <= |tail|
    ensures ([t] + tail)[..i + 1] == [t] + tail[..i]
    ensures Names(([t] + tail)[..i + 1]) == {t.name} + Names(tail[..i])
  {
    NamesAppend([t], tail[..i]);
    NamesOfOne(t);
  }

  /** Sortedness, table by table. */
  lemma SortedCons(t: TableDef, tail: seq<TableDef>, created: set<string>)
    ensures Sorted([t] + tail, created) <==> Ready(t, created) && Sorted(tail, created + {t.name})
  {
    var o := [t] + tail;
    assert created + Names(o[..0]) == created;
    forall i | 0 <= i < |tail|
      ensures o[i + 1] == tail[i] && created + Names(o[..i + 1]) == created + {t.name} + Names(tail[..i])
    {
      NamesCons(t, tail, i);
    }
    assert Sorted(o, created) ==> Ready(o[0], created + Names(o[..0]));
    assert forall i :: 0 < i < |o| ==> o[i] == tail[i - 1] && Names(o[..i]) == Names(o[..(i - 1) + 1]);
    if Sorted(o, created) {
      forall i | 0 <= i < |tail| ensures Ready(tail[i], created + {t.name} + Names(tail[..i])) {
        assert Ready(o[i + 1], created + Names(o[..i + 1]));
      }
    }
  }

  // ---- Soundness -------------------------------------------------------------------------------

  /** What is emitted from some point on: a sorted arrangement of all tables that are left. */
  lemma {:induction false} OrderIsSound(rest: seq<TableDef>, created: set<string>, count: nat)
    requires Order(rest, created, count).Some? && |created| + |rest| <= count
    ensures multiset(Order(rest, created, count).value) == multiset(rest)
    ensures Sorted(Order(rest, created, count).value, created)
    ensures |created + Names(rest)| == |created| + |rest| == count
    decreases |rest|
  {
    if |created| == count {
      assert rest == [] && created + Names(rest) == created;
    } else {
      var k := FirstReady(rest, created).value;
      var t, left, now := rest[k], Without(rest, k), created + {rest[k].name};
      RemovedOne(rest, k);
      OrderIsSound(left, now, count);
      var tail := Order(left, now, count).value;
      var o := [t] + tail;
      assert multiset(o) == multiset{t} + multiset(tail);
      assert created + Names(rest) == now + Names(left);
      SortedCons(t, tail, created);
    }
  }

  /** Every table is emitted exactly once, after all tables it references other than itself; and
      this can only succeed when table names are distinct. */
  lemma EmitsSortedPermutation(ts: seq<TableDef>)
    requires Order(ts, {}, |ts|).Some?
    ensures multiset(Order(ts, {}, |ts|).value) == multiset(ts)
    ensures Sorted(Order(ts, {}, |ts|).value, {})
    ensures DistinctNames(ts)
  {
    OrderIsSound(ts, {}, |ts|);
    assert {} + Names(ts) == Names(ts);
    NamesBound(ts);
  }

  // ---- When it fails ---------------------------------------------------------------------------

  /** A reference to a table that is not among those to be created. */
  ghost predicate Dangling(ts: seq<TableDef>) {
    exists t <- ts :: !(t.references <= Names(ts))
  }

  /** `a` references `b`, another table. */
  ghost predicate Edge(a: TableDef, b: TableDef) {
    b.name in a.references && b.name != a.name
  }

  /** A closed chain of references through at least two tables. */
  ghost predicate Cycle(ts: seq<TableDef>, p: seq<TableDef>) {
    && |p| >= 2 && (forall t <- p :: t in ts)
    && (forall i :: 0 <= i < |p| - 1 ==> Edge(p[i], p[i + 1])) && Edge(p[|p| - 1], p[0])
  }

  /** In a sorted arrangement with distinct names, references lead strictly backwards. */
  lemma EdgesLeadBack(o: seq<TableDef>, i: nat, j: nat)
    requires Sorted(o, {}) && DistinctNames(o) && i < |o| && j < |o| && Edge(o[i], o[j])
    ensures j < i
  {
    assert Ready(o[i], {} + Names(o[..i]));
    var k := NameIsIn(o[..i], o[j].name);
    assert o[k].name == o[j].name;
  }

  function IndexIn(o: seq<TableDef>, t: TableDef): (i: nat)
    requires t in o
    ensures i < |o| && o[i] == t
  {
    if o[0] == t then 0 else 1 + IndexIn(o[1..], t)
  }

  lemma {:induction false} ChainLeadsBack(o: seq<TableDef>, p: seq<TableDef>, k: nat)
    requires Sorted(o, {}) && DistinctNames(o) && Cycle(o, p) && k < |p|
    ensures IndexIn(o, p[k]) + k <= IndexIn(o, p[0])
  {
    if k > 0 {
      ChainLeadsBack(o, p, k - 1);
      assert Edge(p[k - 1], p[k]);
      EdgesLeadBack(o, IndexIn(o, p[k - 1]), IndexIn(o, p[k]));
    }
  }

  lemma {:induction false} SameNames(a: seq<TableDef>, b: seq<TableDef>)
    requires forall t <- a :: t in b
    ensures Names(a) <= Names(b)
  {
    if a != [] {
      var t := a[|a| - 1];
      assert t in a && forall x <- a[..|a| - 1] :: x in a;
      SameNames(a[..|a| - 1], b);
      NamesHas(b, IndexIn(b, t));
    }
  }

  lemma SameElements(a: seq<TableDef>, b: seq<TableDef>)
    requires multiset(a) == multiset(b)
    ensures |a| == |b| && forall t :: t in a <==> t in b
  {
    assert |a| == |multiset(a)|;
    assert |b| == |multiset(b)|;
    assert forall t :: t in a <==> t in multiset(a);
    assert forall t :: t in b <==> t in multiset(b);
  }

  lemma DistinctPermutes(a: seq<TableDef>, b: seq<TableDef>)
    requires multiset(a) == multiset(b) && DistinctNames(a)
    ensures DistinctNames(b) && Names(a) == Names(b)
    ensures forall t :: t in a <==> t in b
  {
    SameElements(a, b);
    SameNames(a, b);
    SameNames(b, a);
    assert Names(a) == Names(b);
    NamesBound(a);
    NamesBound(b);
  }

  lemma SortedNeverDangles(o: seq<TableDef>)
    requires Sorted(o, {})
    ensures forall t <- o :: t.references <= Names(o)
  {
    forall t <- o ensures t.references <= Names(o) {
      var i := IndexIn(o, t);
      NamesOfPrefix(o, i);
      NamesHas(o, i);
      assert Ready(o[i], {} + Names(o[..i]));
    }
  }

  lemma NamesOfPrefix(o: seq<TableDef>, i: nat)
    requires i <= |o|
    ensures Names(o[..i]) <= Names(o)
  {
    assert o == o[..i] + o[i..];
    NamesAppend(o[..i], o[i..]);
  }

  lemma SortedHasNoCycle(o: seq<TableDef>, p: seq<TableDef>)
    requires Sorted(o, {}) && DistinctNames(o)
    ensures !Cycle(o, p)
  {
    if Cycle(o, p) {
      ChainLeadsBack(o, p, |p| - 1);
      EdgesLeadBack(o, IndexIn(o, p[|p| - 1]), IndexIn(o, p[0]));
      assert false;
    }
  }

  lemma SuccessMeansClean(ts: seq<TableDef>, p: seq<TableDef>)
    requires Order(ts, {}, |ts|).Some?
    ensures !Dangling(ts) && !Cycle(ts, p)
  {
    var o := Order(ts, {}, |ts|).value;
    EmitsSortedPermutation(ts);
    DistinctPermutes(ts, o);
    SortedNeverDangles(o);
    SortedHasNoCycle(o, p);
  }

  /** Follows references among tables none of which is ready. */
  lemma {:induction false} Walk(rest: seq<TableDef>, created: set<string>, start: TableDef, n: nat)
    returns (w: seq<TableDef>)
    requires start in rest && forall t <- rest :: !Ready(t, created) && t.references <= created + Names(rest)
    ensures |w| == n + 1 && w[0] == start && forall t <- w :: t in rest
    ensures forall i :: 0 <= i < n ==> Edge(w[i], w[i + 1])
    decreases n
  {
    if n == 0 {
      w := [start];
    } else {
      var r :| r in start.references && r !in created + {start.name};
      var i := NameIsIn(rest, r);
      var tail := Walk(rest, created, rest[i], n - 1);
      w := [start] + tail;
    }
  }

  lemma {:induction false} Pigeonhole(w: seq<TableDef>, holes: set<TableDef>) returns (i: nat, j: nat)
    requires |w| > |holes| && forall t <- w :: t in holes
    ensures i < j < |w| && w[i] == w[j]
  {
    var n := |w| - 1;
    if w[n] in w[..n] {
      i := IndexIn(w[..n], w[n]);
      j := n;
    } else {
      assert forall t <- w[..n] :: t in w && t != w[n];
      i, j := Pigeonhole(w[..n], holes - {w[n]});
    }
  }

  /** When no table is ready and nothing dangles, the references close a cycle. */
  lemma StuckMeansCycle(rest: seq<TableDef>, created: set<string>) returns (p: seq<TableDef>)
    requires rest != [] && forall t <- rest :: !Ready(t, created) && t.references <= created + Names(rest)
    ensures Cycle(rest, p)
  {
    var holes := set t | t in rest;
    var w := Walk(rest, created, rest[0], |holes|);
    var i, j := Pigeonhole(w, holes);
    p := w[i..j];
    assert Edge(w[i], w[i + 1]) && Edge(w[j - 1], w[j]);
    forall k | 0 <= k < |p| - 1 ensures Edge(p[k], p[k + 1]) {
      assert Edge(w[i + k], w[i + k + 1]);
    }
  }

  lemma {:induction false} FailureMeansFault(rest: seq<TableDef>, created: set<string>, count: nat)
    returns (p: seq<TableDef>)
    requires Order(rest, created, count).None? && |created| + |rest| == count == |created + Names(rest)|
    requires forall t <- rest :: t.references <= created + Names(rest)
    ensures Cycle(rest, p)
    decreases |rest|
  {
    match FirstReady(rest, created) {
      case None =>
        assert rest == [] ==> created + Names(rest) == created;
        p := StuckMeansCycle(rest, created);
      case Some(k) =>
        var left, now := Without(rest, k), created + {rest[k].name};
        RemovedOne(rest, k);
        assert created + Names(rest) == now + Names(left);
        assert |now + Names(left)| <= |now| + |Names(left)|;
        NamesBound(left);
        assert |now| == |created| + 1;
        assert forall t <- left :: t in rest;
        p := FailureMeansFault(left, now, count);
    }
  }

  /** Ordering succeeds exactly when table names are distinct, every reference leads to a table that
      is created, and no references close a cycle through two or more tables. */
  lemma SucceedsIffAcyclic(ts: seq<TableDef>)
    ensures Order(ts, {}, |ts|).Some? <==>
            DistinctNames(ts) && !Dangling(ts) && forall p: seq<TableDef> :: !Cycle(ts, p)
  {
    if Order(ts, {}, |ts|).Some? {
      EmitsSortedPermutation(ts);
      forall p: seq<TableDef> ensures !Dangling(ts) && !Cycle(ts, p) {
        SuccessMeansClean(ts, p);
      }
      SuccessMeansClean(ts, []);
    } else if DistinctNames(ts) && !Dangling(ts) {
      NamesBound(ts);
      assert {} + Names(ts) == Names(ts);
      var p := FailureMeansFault(ts, {}, |ts|);
    }
  }

  // ---- Stability -------------------------------------------------------------------------------

  /** A declaration order that already works is kept. */
  lemma {:induction false} KeepsValidOrder(rest: seq<TableDef>, created: set<string>, count: nat)
    requires Sorted(rest, created) && |created| + |rest| == count == |created + Names(rest)|
    ensures Order(rest, created, count) == Some(rest)
    decreases |rest|
  {
    if rest == [] {
      assert created + Names(rest) == created;
    } else {
      var left, now := Without(rest, 0), created + {rest[0].name};
      assert left == rest[1..] && [rest[0]] + left == rest;
      SortedCons(rest[0], left, created);
      var k := FirstReady(rest, created);
      assert k == Some(0);
      RemovedOne(rest, 0);
      assert created + Names(rest) == now + Names(left);
      NamesBound(left);
      assert |now + Names(left)| <= |now| + |Names(left)|;
      KeepsValidOrder(left, now, count);
    }
  }

  lemma KeepsDeclarationOrder(ts: seq<TableDef>)
    requires DistinctNames(ts) && Sorted(ts, {})
    ensures Order(ts, {}, |ts|) == Some(ts)
  {
    NamesBound(ts);
    assert {} + Names(ts) == Names(ts);
    KeepsValidOrder(ts, {}, |ts|);
  }
}
