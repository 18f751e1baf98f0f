// Batched prefetching: one query for all instances, whose rows are handed out by key
// (tortoise/backends/base/executor.py, `_prefetch_reverse_relation`, `_prefetch_m2m_relation` and
// `_prefetch_direct_relation`), against one query per object.
module Prefetch {
  import opened Common
  import opened Kleene
  import opened Lookups

  /** A related row. `key` is the column that ties it to the other side: its own foreign key for a
      backward relation, the referenced unique column for a forward one. The sequences of rows below are
      the related table as a query goes through it, in the query's order; where the joins of a custom
      filter multiply a row, it is there several times. */
  datatype Row = Row(pk: Value, key: Value, data: int)

  type Keep = Row -> bool

  /** The rows of a query; `keep` is the rest of the query's condition. */
  function Select(table: seq<Row>, keep: Keep, l: Lookup): seq<Row> {
    if table == [] then []
    else
      var n := |table| - 1;
      Select(table[..n], keep, l)
      + if keep(table[n]) && Holds(l, table[n].key) == True then [table[n]] else []
  }

  /** A lookup for equality that is given None asks for NULL instead. */
  function KeyLookup(v: Value): Lookup {
    if v.Null? then IsNull(true) else Eq(v)
  }

  class Instance {
    const pk: Value
    const toField: Value
    var foreignKey: Value
    var direct: Option<Row>
    var related: seq<Row>
    var fetched: bool

    constructor (pk: Value, toField: Value, foreignKey: Value)
      ensures this.pk == pk && this.toField == toField && this.foreignKey == foreignKey && !fetched
    {
      this.pk, this.toField, this.foreignKey := pk, toField, foreignKey;
      direct, related, fetched := None, [], false;
    }

    /** `_set_result_for_query`. */
    method SetResult(rows: seq<Row>)
      modifies this`related, this`fetched
      ensures fetched && related == rows
    {
      fetched, related := true, rows;
    }

    /** `_fk_setter`: the key column follows the object that is set. */
    method SetRelation(value: Option<Row>)
      modifies this`foreignKey, this`direct
      ensures direct == value && foreignKey == if value.Some? then value.value.key else Null
    {
      foreignKey := if value.Some? then value.value.key else Null;
      direct := value;
    }
  }

  // ---- Backward foreign keys -------------------------------------------------------------------

  /** The entries filed under one key, in result order. */
  function Filed(rows: seq<Row>, key: Value): seq<Row> {
    if rows == [] then []
    else
      var n := |rows| - 1;
      Filed(rows[..n], key) + if rows[n].key == key then [rows[n]] else []
  }

  function Get(m: map<Value, seq<Row>>, key: Value): seq<Row> {
    if key in m then m[key] else []
  }

  /** `related_object_map` of a backward relation. */
  method FileByKey(rows: seq<Row>) returns (byKey: map<Value, seq<Row>>)
    ensures forall k :: Get(byKey, k) == Filed(rows, k)
  {
    byKey := map[];
    for i := 0 to |rows|
      invariant forall k :: Get(byKey, k) == Filed(rows[..i], k)
    {
      assert rows[..i + 1][..i] == rows[..i];
      if rows[i].key in byKey {
        byKey := byKey[rows[i].key := byKey[rows[i].key] + [rows[i]]];
      } else {
        byKey := byKey[rows[i].key := [rows[i]]];
      }
    }
    assert rows[..|rows|] == rows;
  }

  method PrefetchReverse(instances: seq<Instance>, table: seq<Row>, keep: Keep)
    modifies (set o | o in instances)`related, (set o | o in instances)`fetched
    ensures forall o <- instances :: o.fetched && o.related == Select(table, keep, Eq(o.toField))
  {
    var wanted: seq<Value> := [];
    for i := 0 to |instances|
      invariant |wanted| == i && forall j :: 0 <= j < i ==> wanted[j] == instances[j].toField
    {
      wanted := wanted + [instances[i].toField];
    }
    var rows := Select(table, keep, IsIn(wanted));
    var byKey := FileByKey(rows);
    for i := 0 to |instances|
      invariant forall j :: 0 <= j < i ==>
        instances[j].fetched && instances[j].related == Select(table, keep, Eq(instances[j].toField))
    {
      assert wanted[i] in wanted;
      FiledIsOwn(table, keep, wanted, instances[i].toField);
      instances[i].SetResult(Get(byKey, instances[i].toField));
    }
  }

  lemma {:induction false} FiledAppend(a: seq<Row>, b: seq<Row>, key: Value)
    ensures Filed(a + b, key) == Filed(a, key) + Filed(b, key)
  {
    if b == [] {
      assert a + b == a;
    } else {
      assert (a + b)[..|a + b| - 1] == a + b[..|b| - 1];
      FiledAppend(a, b[..|b| - 1], key);
    }
  }

  lemma FiledSingle(row: Row, key: Value)
    ensures Filed([row], key) == if row.key == key then [row] else []
  {
    assert [row][..0] == [];
  }

  /** What one batched query files under a key is what a query for that key alone returns. */
  lemma {:induction false} FiledIsOwn(table: seq<Row>, keep: Keep, wanted: seq<Value>, key: Value)
    requires key in wanted
    ensures Filed(Select(table, keep, IsIn(wanted)), key) == Select(table, keep, Eq(key))
  {
    if table != [] {
      var n := |table| - 1;
      var row := table[n];
      FiledIsOwn(table[..n], keep, wanted, key);
      InDecidesMembership(row.key, wanted);
      var one := if keep(row) && Holds(IsIn(wanted), row.key) == True then [row] else [];
      FiledAppend(Select(table[..n], keep, IsIn(wanted)), one, key);
      FiledSingle(row, key);
    }
  }

  lemma {:induction false} SelectedRows(table: seq<Row>, keep: Keep, l: Lookup, row: Row)
    ensures row in Select(table, keep, l) <==> row in table && keep(row) && Holds(l, row.key) == True
  {
    if table != [] {
      SelectedRows(table[..|table| - 1], keep, l, row);
      assert table == table[..|table| - 1] + [table[|table| - 1]];
    }
  }

  /** The rows are those at the places `at` of the table, which go up. */
  ghost predicate TakenFrom(rows: seq<Row>, table: seq<Row>, at: seq<nat>) {
    && |at| == |rows|
    && (forall k :: 0 <= k < |at| ==> at[k] < |table| && rows[k] == table[at[k]])
    && (forall j, k :: 0 <= j < k < |at| ==> at[j] < at[k])
  }

  lemma TakenOneMore(rows: seq<Row>, table: seq<Row>, at: seq<nat>, row: Row)
    requires TakenFrom(rows, table, at)
    ensures TakenFrom(rows, table + [row], at)
    ensures TakenFrom(rows + [row], table + [row], at + [|table|])
  {}

  lemma SelectGrows(table: seq<Row>, keep: Keep, l: Lookup, row: Row)
    ensures Select(table + [row], keep, l)
            == Select(table, keep, l) + if keep(row) && Holds(l, row.key) == True then [row] else []
  {
    assert (table + [row])[..|table|] == table;
  }

  /** The query goes through the table once and takes each row that meets its condition once: the
      places it takes, in their order. */
  lemma {:induction false} SelectPositions(table: seq<Row>, keep: Keep, l: Lookup) returns (at: seq<nat>)
    ensures TakenFrom(Select(table, keep, l), table, at)
    ensures forall i :: 0 <= i < |table| ==> (i in at <==> keep(table[i]) && Holds(l, table[i].key) == True)
  {
    if table == [] {
      at := [];
    } else {
      var before, row := table[..|table| - 1], table[|table| - 1];
      assert table == before + [row];
      at := SelectPositions(before, keep, l);
      TakenOneMore(Select(before, keep, l), before, at, row);
      SelectGrows(before, keep, l, row);
      if keep(row) && Holds(l, row.key) == True {
        at := at + [|before|];
      }
    }
  }

  /** What an instance is given for its key: the kept rows that hold the key, each as often as the table
      has it, and in the order of the table. */
  lemma OwnKeyPositions(table: seq<Row>, keep: Keep, key: Value, row: Row) returns (at: seq<nat>)
    ensures TakenFrom(Select(table, keep, Eq(key)), table, at)
    ensures forall i :: 0 <= i < |table| ==> (i in at <==> keep(table[i]) && key.Val? && table[i].key == key)
    ensures multiset(Select(table, keep, Eq(key)))[row]
            == if keep(row) && key.Val? && row.key == key then multiset(table)[row] else 0
  {
    at := SelectPositions(table, keep, Eq(key));
    SelectCount(table, keep, Eq(key), row);
  }

  lemma {:induction false} SelectCount(table: seq<Row>, keep: Keep, l: Lookup, row: Row)
    ensures multiset(Select(table, keep, l))[row]
            == if keep(row) && Holds(l, row.key) == True then multiset(table)[row] else 0
  {
    if table != [] {
      var n := |table| - 1;
      SelectCount(table[..n], keep, l, row);
      assert table == table[..n] + [table[n]];
    }
  }

  lemma Empty(rows: seq<Row>)
    ensures rows == [] <==> forall row :: row !in rows
  {
    if rows != [] {
      assert rows[0] in rows;
    }
  }

  /** Prefetching and asking each object separately agree exactly unless the object's own key is
      NULL and there are orphans: then the separate query returns all of them. */
  lemma BatchedEqualsPerObject(table: seq<Row>, keep: Keep, key: Value)
    ensures Select(table, keep, Eq(key)) == Select(table, keep, KeyLookup(key))
            <==> key.Val? || forall row <- table :: keep(row) ==> row.key.Val?
  {
    if key.Null? {
      forall row ensures row !in Select(table, keep, Eq(key)) {
        SelectedRows(table, keep, Eq(key), row);
      }
      Empty(Select(table, keep, Eq(key)));
      forall row ensures row in Select(table, keep, IsNull(true)) <==> row in table && keep(row) && row.key.Null? {
        SelectedRows(table, keep, IsNull(true), row);
      }
      if Select(table, keep, IsNull(true)) != [] {
        assert Select(table, keep, IsNull(true))[0] in Select(table, keep, IsNull(true));
      }
    }
  }

  // ---- Many-to-many ----------------------------------------------------------------------------

  datatype Link = Link(backward: Value, forward: Value)

  /** A row of the batched query: the related row together with the owner's key. */
  datatype Fetched = Fetched(owner: Value, row: Row)

  predicate Matches(link: Link, owners: seq<Value>, row: Row) {
    Holds(IsIn(owners), link.backward) == True && SqlEq(link.forward, row.pk) == True
  }

  /** The links of one related row to the wanted owners. */
  function OwnersOf(through: seq<Link>, owners: seq<Value>, row: Row): seq<Fetched> {
    if through == [] then []
    else
      var n := |through| - 1;
      OwnersOf(through[..n], owners, row)
      + if Matches(through[n], owners, row) then [Fetched(through[n].backward, row)] else []
  }

  /** The related rows joined with the links of the wanted owners. */
  function Joined(table: seq<Row>, keep: Keep, through: seq<Link>, owners: seq<Value>): seq<Fetched> {
    if table == [] then []
    else
      var n := |table| - 1;
      Joined(table[..n], keep, through, owners)
      + if keep(table[n]) then OwnersOf(through, owners, table[n]) else []
  }

  /** The related rows of one owner, by a query for that owner alone. */
  function Own(table: seq<Row>, keep: Keep, through: seq<Link>, owner: Value): seq<Row> {
    RowsOf(Joined(table, keep, through, [owner]))
  }

  function RowsOf(fs: seq<Fetched>): seq<Row> {
    seq(|fs|, i requires 0 <= i < |fs| => fs[i].row)
  }

  function Owned(fs: seq<Fetched>, owner: Value): seq<Row> {
    if fs == [] then []
    else
      var n := |fs| - 1;
      Owned(fs[..n], owner) + if fs[n].owner == owner then [fs[n].row] else []
  }

  /** Primary keys are unique: equal keys mean the same row. */
  ghost predicate KeysUnique(table: seq<Row>) {
    forall a <- table, b <- table :: a.pk == b.pk ==> a == b
  }

  /** `related_object_map`: the fetched rows by primary key. */
  method RowsByPk(ghost table: seq<Row>, raw: seq<Fetched>) returns (byPk: map<Value, Row>)
    requires KeysUnique(table) && forall f <- raw :: f.row in table
    ensures forall f <- raw :: f.row.pk in byPk && byPk[f.row.pk] == f.row
  {
    byPk := map[];
    for i := 0 to |raw|
      invariant forall j :: 0 <= j < i ==> raw[j].row.pk in byPk
      invariant forall k <- byPk :: byPk[k] in table && byPk[k].pk == k
    {
      assert raw[i] in raw;
      byPk := byPk[raw[i].row.pk := raw[i].row];
    }
  }

  /** `relation_map`: each owner's rows, looked up again by their primary keys. */
  method FileByOwner(ghost table: seq<Row>, raw: seq<Fetched>) returns (byOwner: map<Value, seq<Row>>)
    requires KeysUnique(table) && forall f <- raw :: f.row in table
    ensures forall k :: Get(byOwner, k) == Owned(raw, k)
  {
    var byPk := RowsByPk(table, raw);
    byOwner := map[];
    for i := 0 to |raw|
      invariant forall k :: Get(byOwner, k) == Owned(raw[..i], k)
    {
      assert raw[..i + 1][..i] == raw[..i] && raw[i] in raw;
      var owner := raw[i].owner;
      if owner !in byOwner {
        byOwner := byOwner[owner := []];
      }
      byOwner := byOwner[owner := byOwner[owner] + [byPk[raw[i].row.pk]]];
    }
    assert raw[..|raw|] == raw;
  }

  method PrefetchManyToMany(instances: seq<Instance>, table: seq<Row>, keep: Keep, through: seq<Link>)
    requires KeysUnique(table)
    modifies (set o | o in instances)`related, (set o | o in instances)`fetched
    ensures forall o <- instances :: o.fetched && o.related == Own(table, keep, through, o.pk)
  {
    var owners: seq<Value> := [];
    for i := 0 to |instances|
      invariant forall j :: 0 <= j < i ==> instances[j].pk in owners
    {
      if instances[i].pk !in owners {
        owners := owners + [instances[i].pk];
      }
    }
    var raw := Joined(table, keep, through, owners);
    JoinedRows(table, keep, through, owners);
    var byOwner := FileByOwner(table, raw);
    for i := 0 to |instances|
      invariant forall j :: 0 <= j < i ==>
        instances[j].fetched && instances[j].related == Own(table, keep, through, instances[j].pk)
    {
      OwnedIsOwn(table, keep, through, owners, instances[i].pk);
      instances[i].SetResult(Get(byOwner, instances[i].pk));
    }
  }

  lemma {:induction false} OwnersRows(through: seq<Link>, owners: seq<Value>, row: Row)
    ensures forall f <- OwnersOf(through, owners, row) :: f.row == row
  {
    if through != [] {
      OwnersRows(through[..|through| - 1], owners, row);
    }
  }

  lemma {:induction false} JoinedRows(table: seq<Row>, keep: Keep, through: seq<Link>, owners: seq<Value>)
    ensures forall f <- Joined(table, keep, through, owners) :: f.row in table
  {
    if table != [] {
      var n := |table| - 1;
      JoinedRows(table[..n], keep, through, owners);
      OwnersRows(through, owners, table[n]);
    }
  }

  lemma {:induction false} OwnedAppend(a: seq<Fetched>, b: seq<Fetched>, owner: Value)
    ensures Owned(a + b, owner) == Owned(a, owner) + Owned(b, owner)
  {
    if b == [] {
      assert a + b == a;
    } else {
      assert (a + b)[..|a + b| - 1] == a + b[..|b| - 1];
      OwnedAppend(a, b[..|b| - 1], owner);
    }
  }

  lemma OwnedSingle(f: Fetched, owner: Value)
    ensures Owned([f], owner) == if f.owner == owner then [f.row] else []
  {
    assert [f][..0] == [];
  }

  lemma MatchesNarrowed(link: Link, owners: seq<Value>, row: Row, owner: Value)
    requires owner in owners
    ensures Matches(link, [owner], row) <==> Matches(link, owners, row) && link.backward == owner
  {
    InDecidesMembership(link.backward, owners);
    InDecidesMembership(link.backward, [owner]);
  }

  lemma {:induction false} OwnedOfRow(through: seq<Link>, owners: seq<Value>, row: Row, owner: Value)
    requires owner in owners
    ensures Owned(OwnersOf(through, owners, row), owner) == RowsOf(OwnersOf(through, [owner], row))
  {
    if through != [] {
      var n := |through| - 1;
      OwnedOfRow(through[..n], owners, row, owner);
      MatchesNarrowed(through[n], owners, row, owner);
      var one := if Matches(through[n], owners, row) then [Fetched(through[n].backward, row)] else [];
      OwnedAppend(OwnersOf(through[..n], owners, row), one, owner);
      OwnedSingle(Fetched(through[n].backward, row), owner);
      var before := OwnersOf(through[..n], [owner], row);
      assert RowsOf(before + [Fetched(through[n].backward, row)]) == RowsOf(before) + [row];
      assert before + [] == before;
    }
  }

  /** Each owner's share of the batched join is the join for that owner alone. */
  lemma {:induction false} OwnedIsOwn(table: seq<Row>, keep: Keep, through: seq<Link>, owners: seq<Value>, owner: Value)
    requires owner in owners
    ensures Owned(Joined(table, keep, through, owners), owner) == Own(table, keep, through, owner)
  {
    if table != [] {
      var n := |table| - 1;
      OwnedIsOwn(table[..n], keep, through, owners, owner);
      OwnedOfRow(through, owners, table[n], owner);
      var one := if keep(table[n]) then OwnersOf(through, owners, table[n]) else [];
      OwnedAppend(Joined(table[..n], keep, through, owners), one, owner);
    }
  }

  /** A row is among an owner's rows exactly when it is kept and linked to the owner. */
  lemma {:induction false} OwnRows(table: seq<Row>, keep: Keep, through: seq<Link>, owner: Value, row: Row)
    ensures row in Own(table, keep, through, owner) <==>
            row in table && keep(row) && owner.Val? && row.pk.Val? && Link(owner, row.pk) in through
  {
    if table != [] {
      var n := |table| - 1;
      OwnRows(table[..n], keep, through, owner, row);
      OwnersRows(through, [owner], table[n]);
      LinkedToOwner(through, owner, table[n]);
      var before := Joined(table[..n], keep, through, [owner]);
      var one := if keep(table[n]) then OwnersOf(through, [owner], table[n]) else [];
      assert Joined(table, keep, through, [owner]) == before + one;
      assert RowsOf(before + one) == RowsOf(before) + RowsOf(one);
      assert row in RowsOf(one) <==> one != [] && row == table[n] by {
        if one != [] {
          assert one[0] in one && RowsOf(one)[0] == table[n];
        }
      }
      assert table == table[..n] + [table[n]];
    }
  }

  lemma {:induction false} LinkedToOwner(through: seq<Link>, owner: Value, row: Row)
    ensures OwnersOf(through, [owner], row) != [] <==>
            owner.Val? && row.pk.Val? && Link(owner, row.pk) in through
  {
    if through != [] {
      var n := |through| - 1;
      LinkedToOwner(through[..n], owner, row);
      InDecidesMembership(through[n].backward, [owner]);
      assert through == through[..n] + [through[n]];
    }
  }

  /** A related row is joined once for every link to the owner. */
  lemma {:induction false} LinksToOwner(through: seq<Link>, owner: Value, row: Row)
    ensures |OwnersOf(through, [owner], row)|
            == if owner.Val? && row.pk.Val? then multiset(through)[Link(owner, row.pk)] else 0
  {
    if through != [] {
      var n := |through| - 1;
      LinksToOwner(through[..n], owner, row);
      InDecidesMembership(through[n].backward, [owner]);
      assert through == through[..n] + [through[n]];
    }
  }

  /** How often an owner is given a row that stands at one place of the table. */
  function Times(keep: Keep, through: seq<Link>, owner: Value, row: Row): nat {
    if keep(row) && owner.Val? && row.pk.Val? then multiset(through)[Link(owner, row.pk)] else 0
  }

  lemma OwnGrows(table: seq<Row>, keep: Keep, through: seq<Link>, owner: Value, row: Row)
    ensures Own(table + [row], keep, through, owner)
            == Own(table, keep, through, owner) + seq(Times(keep, through, owner, row), _ => row)
  {
    var one := if keep(row) then OwnersOf(through, [owner], row) else [];
    assert (table + [row])[..|table|] == table;
    OwnersRows(through, [owner], row);
    LinksToOwner(through, owner, row);
    assert forall i :: 0 <= i < |one| ==> one[i] in one;
    assert RowsOf(one) == seq(Times(keep, through, owner, row), _ => row);
    var before := Joined(table, keep, through, [owner]);
    assert RowsOf(before + one) == RowsOf(before) + RowsOf(one);
  }

  lemma {:induction false} CopiesCount<T>(n: nat, x: T, y: T)
    ensures multiset(seq(n, _ => x))[y] == if x == y then n else 0
  {
    if n > 0 {
      CopiesCount(n - 1, x, y);
      assert seq(n, _ => x) == seq(n - 1, _ => x) + [x];
    }
  }

  lemma OwnCountGrows(table: seq<Row>, keep: Keep, through: seq<Link>, owner: Value, one: Row, row: Row)
    ensures multiset(Own(table + [one], keep, through, owner))[row]
            == multiset(Own(table, keep, through, owner))[row]
               + if one == row then Times(keep, through, owner, row) else 0
  {
    OwnGrows(table, keep, through, owner, one);
    CopiesCount(Times(keep, through, owner, one), one, row);
  }

  lemma OneMoreTime(n: nat, t: nat)
    ensures (n + 1) * t == n * t + t
  {}

  lemma {:induction false} TimesCount(table: seq<Row>, keep: Keep, through: seq<Link>, owner: Value, row: Row)
    ensures multiset(Own(table, keep, through, owner))[row]
            == multiset(table)[row] * Times(keep, through, owner, row)
  {
    if table != [] {
      var before, last := table[..|table| - 1], table[|table| - 1];
      assert table == before + [last];
      TimesCount(before, keep, through, owner, row);
      OwnCountGrows(before, keep, through, owner, last, row);
      OneMoreRow(before, last, row, Times(keep, through, owner, row));
    }
  }

  lemma OneMoreRow(before: seq<Row>, last: Row, row: Row, t: nat)
    ensures multiset(before + [last])[row] * t == multiset(before)[row] * t + if last == row then t else 0
  {
    OneMoreTime(multiset(before)[row], t);
  }

  /** How often an owner is given a row: as often as the table has it, times the number of links between
      the two. */
  lemma OwnCount(table: seq<Row>, keep: Keep, through: seq<Link>, owner: Value, row: Row)
    ensures multiset(Own(table, keep, through, owner))[row]
            == if keep(row) && owner.Val? && row.pk.Val?
               then multiset(table)[row] * multiset(through)[Link(owner, row.pk)] else 0
  {
    TimesCount(table, keep, through, owner, row);
  }

  /** An owner's rows come in the order of the table, and each place of the table comes as often as there
      are links from it to the owner. */
  lemma {:induction false} OwnPositions(table: seq<Row>, keep: Keep, through: seq<Link>, owner: Value)
    returns (at: seq<nat>)
    ensures |at| == |Own(table, keep, through, owner)|
    ensures forall k :: 0 <= k < |at| ==> at[k] < |table| && Own(table, keep, through, owner)[k] == table[at[k]]
    ensures forall j, k :: 0 <= j < k < |at| ==> at[j] <= at[k]
    ensures forall i :: 0 <= i < |table| ==>
              multiset(at)[i] == (if keep(table[i]) && owner.Val? && table[i].pk.Val?
                                  then multiset(through)[Link(owner, table[i].pk)] else 0)
  {
    at := [];
    if table != [] {
      var n := |table| - 1;
      var before := OwnPositions(table[..n], keep, through, owner);
      var t := Times(keep, through, owner, table[n]);
      OwnGrows(table[..n], keep, through, owner, table[n]);
      assert table == table[..n] + [table[n]];
      at := before + seq(t, _ => n);
      forall i | 0 <= i < |table|
        ensures multiset(at)[i] == Times(keep, through, owner, table[i])
      {
        CopiesCount(t, n, i);
        assert multiset(at) == multiset(before) + multiset(seq(t, _ => n));
        assert i == n ==> n !in before;
      }
    }
  }

  // ---- Forward relations -----------------------------------------------------------------------

  /** The referenced column is unique: the source refuses a `to_field` that is not. */
  ghost predicate ReferencesUnique(table: seq<Row>) {
    forall a <- table, b <- table :: a.key.Val? && a.key == b.key ==> a == b
  }

  function First(rows: seq<Row>): Option<Row> {
    if rows == [] then None else Some(rows[0])
  }

  /** `_fk_getter` on an object that has not been prefetched. */
  function Referenced(table: seq<Row>, keep: Keep, key: Value): Option<Row> {
    if key.Null? then None else First(Select(table, keep, Eq(key)))
  }

  function KeyAfter(table: seq<Row>, keep: Keep, key: Value): Value {
    if Referenced(table, keep, key).Some? then key else Null
  }

  function GetRow(m: map<Value, Row>, key: Value): Option<Row> {
    if key in m then Some(m[key]) else None
  }

  twostate predicate Settled(o: Instance, table: seq<Row>, keep: Keep)
    reads o
  {
    && o.direct == Referenced(table, keep, old(o.foreignKey))
    && o.foreignKey == KeyAfter(table, keep, old(o.foreignKey))
  }

  /** `related_object_map` of a forward relation. */
  method LastByKey(rows: seq<Row>) returns (byKey: map<Value, Row>)
    ensures forall k :: GetRow(byKey, k) == Last(Filed(rows, k))
    ensures forall k <- byKey :: byKey[k].key == k
  {
    byKey := map[];
    for i := 0 to |rows|
      invariant forall k <- byKey :: byKey[k].key == k
      invariant forall k :: GetRow(byKey, k) == Last(Filed(rows[..i], k))
    {
      assert rows[..i + 1][..i] == rows[..i];
      byKey := byKey[rows[i].key := rows[i]];
    }
    assert rows[..|rows|] == rows;
  }

  /** The query for the wanted keys. */
  method Find(table: seq<Row>, keep: Keep, wanted: seq<Value>) returns (byKey: map<Value, Row>)
    requires ReferencesUnique(table) && wanted != []
    ensures forall k: Value :: (k.Val? ==> k in wanted) ==> GetRow(byKey, k) == Referenced(table, keep, k)
    ensures forall k <- byKey :: byKey[k].key == k
  {
    byKey := LastByKey(Wanted(table, keep, wanted));
    forall k: Value | k.Val? ==> k in wanted ensures GetRow(byKey, k) == Referenced(table, keep, k) {
      FoundIsReferenced(table, keep, wanted, k);
    }
  }

  /** The rows found are set on the instances. */
  method HandOut(instances: seq<Instance>, table: seq<Row>, keep: Keep, wanted: seq<Value>)
    requires ReferencesUnique(table) && wanted != []
    requires forall o <- instances :: o.foreignKey.Val? ==> o.foreignKey in wanted
    modifies (set o | o in instances)`foreignKey, (set o | o in instances)`direct
    ensures forall o <- instances :: Settled(o, table, keep)
  {
    var byKey := Find(table, keep, wanted);
    for i := 0 to |instances|
      invariant forall o <- instances :: o.foreignKey == old(o.foreignKey) || Settled(o, table, keep)
      invariant forall j :: 0 <= j < i ==> Settled(instances[j], table, keep)
    {
      var o := instances[i];
      o.SetRelation(GetRow(byKey, o.foreignKey));
    }
  }

  method PrefetchDirect(instances: seq<Instance>, table: seq<Row>, keep: Keep)
    requires ReferencesUnique(table)
    modifies (set o | o in instances)`foreignKey, (set o | o in instances)`direct
    ensures forall o <- instances :: Settled(o, table, keep)
  {
    var wanted: seq<Value> := [];
    for i := 0 to |instances|
      invariant forall v <- wanted :: v.Val?
      invariant forall o <- instances :: o.foreignKey == old(o.foreignKey)
      invariant forall j :: 0 <= j < i && instances[j].foreignKey.Val? ==> instances[j].foreignKey in wanted
      invariant forall j :: 0 <= j < i && instances[j].foreignKey.Null? ==> Settled(instances[j], table, keep)
    {
      var value := instances[i].foreignKey;
      if value.Val? {
        if value !in wanted {
          wanted := wanted + [value];
        }
      } else {
        instances[i].SetRelation(None);
      }
    }
    if wanted != [] {
      HandOut(instances, table, keep, wanted);
    }
  }

  function Last(rows: seq<Row>): Option<Row> {
    if rows == [] then None else Some(rows[|rows| - 1])
  }

  lemma NullFails(l: Lookup)
    requires l.Eq? || l.IsIn?
    ensures Holds(l, Null) != True
  {
    if l.IsIn? {
      InDecidesMembership(Null, l.vs);
    }
  }

  lemma {:induction false} FiledNull(table: seq<Row>, keep: Keep, l: Lookup)
    requires l.Eq? || l.IsIn?
    ensures Filed(Select(table, keep, l), Null) == []
  {
    if table != [] {
      var n := |table| - 1;
      FiledNull(table[..n], keep, l);
      NullFails(l);
      var one := if keep(table[n]) && Holds(l, table[n].key) == True then [table[n]] else [];
      FiledAppend(Select(table[..n], keep, l), one, Null);
      FiledSingle(table[n], Null);
    }
  }

  /** The rows that a key references are one and the same row, however often it comes up. */
  lemma OneReferenced(table: seq<Row>, keep: Keep, key: Value)
    requires ReferencesUnique(table)
    ensures First(Select(table, keep, Eq(key))) == Last(Select(table, keep, Eq(key)))
    ensures forall row <- Select(table, keep, Eq(key)) :: row.key == key && key.Val?
  {
    var rows := Select(table, keep, Eq(key));
    forall row <- rows ensures row in table && row.key == key && key.Val? {
      SelectedRows(table, keep, Eq(key), row);
    }
    if rows != [] {
      assert rows[0] in rows && rows[|rows| - 1] in rows;
    }
  }

  /** The referenced row is the kept row of the table that holds the key; a NULL key references none. */
  lemma ReferencedIff(table: seq<Row>, keep: Keep, key: Value, row: Row)
    requires ReferencesUnique(table)
    ensures Referenced(table, keep, key) == Some(row) <==> row in table && keep(row) && key.Val? && row.key == key
  {
    var rows := Select(table, keep, Eq(key));
    SelectedRows(table, keep, Eq(key), row);
    if rows != [] {
      SelectedRows(table, keep, Eq(key), rows[0]);
    }
  }

  /** With one wanted value the query asks for equality, with more for membership. */
  function Wanted(table: seq<Row>, keep: Keep, wanted: seq<Value>): seq<Row>
    requires wanted != []
  {
    if |wanted| == 1 then Select(table, keep, Eq(wanted[0])) else Select(table, keep, IsIn(wanted))
  }

  lemma FiledWanted(table: seq<Row>, keep: Keep, wanted: seq<Value>, key: Value)
    requires wanted != [] && key in wanted
    ensures Filed(Wanted(table, keep, wanted), key) == Select(table, keep, Eq(key))
  {
    if |wanted| == 1 {
      SameQuery(table, keep, key);
      assert wanted == [key];
    }
    FiledIsOwn(table, keep, wanted, key);
  }

  /** Either way the row filed under a wanted key is the one that key references. */
  lemma FoundIsReferenced(table: seq<Row>, keep: Keep, wanted: seq<Value>, key: Value)
    requires ReferencesUnique(table) && wanted != [] && (key.Val? ==> key in wanted)
    ensures Last(Filed(Wanted(table, keep, wanted), key)) == Referenced(table, keep, key)
  {
    if key.Null? {
      FiledNull(table, keep, if |wanted| == 1 then Eq(wanted[0]) else IsIn(wanted));
    } else {
      OneReferenced(table, keep, key);
      FiledWanted(table, keep, wanted, key);
    }
  }

  lemma {:induction false} SameQuery(table: seq<Row>, keep: Keep, key: Value)
    ensures Select(table, keep, Eq(key)) == Select(table, keep, IsIn([key]))
  {
    if table != [] {
      SameQuery(table[..|table| - 1], keep, key);
      InDecidesMembership(table[|table| - 1].key, [key]);
    }
  }

  /** Prefetching leaves the key column as it was exactly when it is NULL or the row it names comes
      back; when a custom queryset leaves that row out, the key is lost. */
  lemma KeyKeptIff(table: seq<Row>, keep: Keep, key: Value)
    requires ReferencesUnique(table)
    ensures KeyAfter(table, keep, key) == key <==> key.Null? || exists row <- table :: keep(row) && row.key == key
    ensures KeyAfter(table, keep, key) in {key, Null}
    ensures KeyAfter(table, keep, KeyAfter(table, keep, key)) == KeyAfter(table, keep, key)
  {
    OneReferenced(table, keep, key);
    forall row
      ensures row in Select(table, keep, Eq(key)) <==> row in table && keep(row) && SqlEq(row.key, key) == True
    {
      SelectedRows(table, keep, Eq(key), row);
    }
    if Select(table, keep, Eq(key)) != [] {
      assert Select(table, keep, Eq(key))[0] in Select(table, keep, Eq(key));
    }
  }

  /** A queryset that leaves out the referenced row makes the prefetch erase the key. */
  lemma FilteredReferenceLosesKey()
    ensures var table := [Row(Val(1), Val(1), 0)];
            ReferencesUnique(table) && KeyAfter(table, _ => false, Val(1)) == Null
  {
    KeyKeptIff([Row(Val(1), Val(1), 0)], _ => false, Val(1));
  }

  /** An object without a key gets nothing from the batch, but every orphan from its own query. */
  lemma OrphansDiffer()
    ensures var table := [Row(Val(1), Null, 0)];
            Select(table, _ => true, Eq(Null)) == [] && Select(table, _ => true, KeyLookup(Null)) == table
  {
    var table := [Row(Val(1), Null, 0)];
    assert table[..0] == [];
  }
}
