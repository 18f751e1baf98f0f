// Bulk updates: one CASE-WHEN query per batch (tortoise/queryset.py, `bulk_update` and
// BulkUpdateQuery; tortoise/utils.py, `batched` and `chunk`) against saving the objects one by one
// (tortoise/backends/base/executor.py, `execute_update`). Saving writes the column a field is stored
// in; the bulk query writes the column that bears the field's own name.
module BulkUpdate {
  import opened Common
  import UpdateSql

  type Pk = int
  type Meta = UpdateSql.Meta

  /** A row's columns other than the primary key's. */
  type Row = map<string, Value>
  type Table = map<Pk, Row>

  /** A model instance; one never given a primary key has none. */
  datatype Instance = Instance(pk: Option<Pk>, values: map<string, Value>)

  /** An instance with a primary key. */
  datatype Keyed = Keyed(pk: Pk, values: map<string, Value>) {
    /** `getattr`: an instance has every field of its model. */
    function Get(m: Meta, field: string): Value {
      if field == m.pk then Val(pk) else if field in values then values[field] else Null
    }
  }

  predicate AllKeyed(os: seq<Instance>) {
    forall i :: 0 <= i < |os| ==> os[i].pk.Some?
  }

  function WithKeys(os: seq<Instance>): seq<Keyed>
    requires AllKeyed(os)
  {
    seq(|os|, i requires 0 <= i < |os| => Keyed(os[i].pk.value, os[i].values))
  }

  /** `fields_db_projection`. */
  function ColumnOf(m: Meta, field: string): string {
    if field in m.columns then m.columns[field] else field
  }

  function KeyColumn(m: Meta): string {
    ColumnOf(m, m.pk)
  }

  predicate Known(m: Meta, fields: seq<string>) {
    forall f <- fields :: f in m.columns
  }

  predicate ColumnsExist(m: Meta, fields: seq<string>) {
    forall f <- fields :: f in m.columns.Values
  }

  /** The model's table: each row has the model's columns. */
  ghost predicate Shaped(m: Meta, t: Table) {
    forall pk <- t :: t[pk].Keys == m.columns.Values - {KeyColumn(m)}
  }

  // ---- Batches ---------------------------------------------------------------------------------

  function Flatten<T>(batches: seq<seq<T>>): seq<T> {
    if batches == [] then [] else Flatten(batches[..|batches| - 1]) + batches[|batches| - 1]
  }

  method Batched<T>(items: seq<T>, n: nat) returns (batches: seq<seq<T>>)
    requires n > 0
    ensures Flatten(batches) == items
    ensures forall i :: 0 <= i < |batches| ==> 0 < |batches[i]| <= n && (i < |batches| - 1 ==> |batches[i]| == n)
  {
    batches := [];
    var rest := items;
    while rest != []
      invariant Flatten(batches) + rest == items
      invariant forall i :: 0 <= i < |batches| ==> 0 < |batches[i]| <= n
      invariant forall i :: 0 <= i < |batches| && (i < |batches| - 1 || rest != []) ==> |batches[i]| == n
      decreases |rest|
    {
      var size := if n < |rest| then n else |rest|;
      var batch := rest[..size];
      assert (batches + [batch])[..|batches|] == batches;
      assert Flatten(batches) + rest == Flatten(batches) + batch + rest[size..];
      batches := batches + [batch];
      rest := rest[size..];
    }
  }

  /** Batches put together again: each batch as it is, at the place behind those before it. */
  lemma {:induction false} FlattenAround<T>(batches: seq<seq<T>>, i: nat)
    requires i < |batches|
    ensures Flatten(batches) == Flatten(batches[..i]) + batches[i] + Flatten(batches[i + 1..])
  {
    var n := |batches| - 1;
    if i == n {
      assert batches[i + 1..] == [];
    } else {
      FlattenAround(batches[..n], i);
      assert batches[..n][..i] == batches[..i] && batches[..n][i + 1..] == batches[i + 1..][..n - i - 1];
      assert batches[i + 1..][n - i - 1] == batches[n];
      assert Flatten(batches[i + 1..]) == Flatten(batches[i + 1..][..n - i - 1]) + batches[n];
      var before, rest := Flatten(batches[..i]), Flatten(batches[i + 1..][..n - i - 1]);
      assert before + batches[i] + rest + batches[n] == before + batches[i] + (rest + batches[n]);
    }
  }

  /** Without a batch size, everything is one batch (also when there is nothing). */
  method Chunk<T>(items: seq<T>, batchSize: Option<nat>) returns (batches: seq<seq<T>>)
    ensures Flatten(batches) == items
    ensures batchSize.None? || batchSize.value == 0 ==> batches == [items]
    ensures batchSize.Some? && batchSize.value > 0 ==>
              forall i :: 0 <= i < |batches| ==>
                0 < |batches[i]| <= batchSize.value && (i < |batches| - 1 ==> |batches[i]| == batchSize.value)
  {
    if batchSize.None? || batchSize.value == 0 {
      batches := [items];
      assert [items][..0] == [];
    } else {
      batches := Batched(items, batchSize.value);
    }
  }

  // ---- Queries ---------------------------------------------------------------------------------

  datatype Error = NoPrimaryKey | UnknownField | EmptyCase | NoSuchColumn | KeyOverwritten

  type Whens = seq<(Pk, Value)>

  /** UPDATE table SET name = CASE WHEN pk = .. THEN .. END, .. WHERE pk IN .. AND pk IN .. */
  datatype Query = Query(sets: seq<(string, Whens)>, wheres: seq<seq<Pk>>)

  /** CASE takes the first branch that applies, and is NULL when none does. */
  function CaseValue(whens: Whens, pk: Pk): Value {
    if whens == [] then Null else if whens[0].0 == pk then whens[0].1 else CaseValue(whens[1..], pk)
  }

  /** The assignments other than to the key column, in order. */
  function SetAll(m: Meta, row: Row, sets: seq<(string, Whens)>, pk: Pk): Row {
    if sets == [] then row
    else
      var n := |sets| - 1;
      var before := SetAll(m, row, sets[..n], pk);
      if sets[n].0 == KeyColumn(m) then before else before[sets[n].0 := CaseValue(sets[n].1, pk)]
  }

  predicate Selected(q: Query, pk: Pk) {
    forall w <- q.wheres :: pk in w
  }

  /** The query gives the row with this key another key. */
  predicate Rekeys(m: Meta, q: Query, pk: Pk) {
    exists s <- q.sets :: s.0 == KeyColumn(m) && CaseValue(s.1, pk) != Val(pk)
  }

  /** A CASE without branches cannot be written, and the columns must exist. */
  function Execute(m: Meta, q: Query, t: Table): Result<Table, Error> {
    if exists s <- q.sets :: s.1 == [] then Err(EmptyCase)
    else if exists s <- q.sets :: s.0 !in m.columns.Values then Err(NoSuchColumn)
    else if exists pk <- t :: Selected(q, pk) && Rekeys(m, q, pk) then Err(KeyOverwritten)
    else Ok(map pk | pk in t :: if Selected(q, pk) then SetAll(m, t[pk], q.sets, pk) else t[pk])
  }

  /** The queries one after the other, up to the first that fails. */
  function RunAll(m: Meta, qs: seq<Query>, t: Table): (Table, Option<Error>) {
    if qs == [] then (t, None)
    else
      var n := |qs| - 1;
      var before := RunAll(m, qs[..n], t);
      if before.1.Some? then before
      else match Execute(m, qs[n], before.0)
        case Ok(after) => (after, None)
        case Err(e) => (before.0, Some(e))
  }

  function WhensOf(m: Meta, batch: seq<Keyed>, field: string): Whens {
    seq(|batch|, i requires 0 <= i < |batch| => (batch[i].pk, batch[i].Get(m, field)))
  }

  function PksOf(batch: seq<Keyed>): seq<Pk> {
    seq(|batch|, i requires 0 <= i < |batch| => batch[i].pk)
  }

  function QueryOf(m: Meta, batch: seq<Keyed>, fields: seq<string>): Query {
    if fields == [] then Query([], [])
    else
      var n := |fields| - 1;
      var q := QueryOf(m, batch, fields[..n]);
      Query(q.sets + [(fields[n], WhensOf(m, batch, fields[n]))], q.wheres + [PksOf(batch)])
  }

  function QueriesOf(m: Meta, batches: seq<seq<Keyed>>, fields: seq<string>): seq<Query> {
    seq(|batches|, i requires 0 <= i < |batches| => QueryOf(m, batches[i], fields))
  }

  /** `_make_query`, for one batch. */
  method MakeQuery(m: Meta, batch: seq<Keyed>, fields: seq<string>) returns (query: Query)
    ensures query == QueryOf(m, batch, fields)
  {
    query := Query([], []);
    for i := 0 to |fields|
      invariant query == QueryOf(m, batch, fields[..i])
    {
      var whens: Whens := [];
      var pks: seq<Pk> := [];
      for j := 0 to |batch|
        invariant whens == WhensOf(m, batch, fields[i])[..j] && pks == PksOf(batch)[..j]
      {
        whens := whens + [(batch[j].pk, batch[j].Get(m, fields[i]))];
        pks := pks + [batch[j].pk];
      }
      assert fields[..i + 1][..i] == fields[..i] && fields[..i + 1][i] == fields[i];
      assert whens == WhensOf(m, batch, fields[i]) && pks == PksOf(batch);
      query := Query(query.sets + [(fields[i], whens)], query.wheres + [pks]);
    }
    assert fields[..|fields|] == fields;
  }

  // ---- One object at a time --------------------------------------------------------------------

  /** Each listed field goes into its column; the primary key is skipped. */
  function WithFields(m: Meta, row: Row, o: Keyed, fields: seq<string>): Row {
    if fields == [] then row
    else
      var n := |fields| - 1;
      var before := WithFields(m, row, o, fields[..n]);
      if fields[n] == m.pk then before else before[ColumnOf(m, fields[n]) := o.Get(m, fields[n])]
  }

  function Saved(m: Meta, t: Table, o: Keyed, fields: seq<string>): Table {
    if o.pk in t then t[o.pk := WithFields(m, t[o.pk], o, fields)] else t
  }

  function SavedAll(m: Meta, t: Table, os: seq<Keyed>, fields: seq<string>): Table {
    if os == [] then t
    else
      var n := |os| - 1;
      Saved(m, SavedAll(m, t, os[..n], fields), os[n], fields)
  }

  ghost predicate DistinctKeys(os: seq<Keyed>) {
    forall i, j :: 0 <= i < j < |os| ==> os[i].pk != os[j].pk
  }

  // ---- Which object decides --------------------------------------------------------------------

  /** The first object of a batch with this key: the CASE branch that applies. */
  function FirstOf(os: seq<Keyed>, pk: Pk): (r: Option<Keyed>)
    ensures r.Some? ==> r.value in os && r.value.pk == pk
    ensures r.None? <==> pk !in PksOf(os)
  {
    if os == [] then None
    else
      assert PksOf(os) == [os[0].pk] + PksOf(os[1..]);
      if os[0].pk == pk then Some(os[0]) else FirstOf(os[1..], pk)
  }

  /** The object saved last with this key. */
  function LastOf(os: seq<Keyed>, pk: Pk): (r: Option<Keyed>)
    ensures r.Some? ==> r.value in os && r.value.pk == pk
  {
    if os == [] then None
    else if os[|os| - 1].pk == pk then Some(os[|os| - 1])
    else LastOf(os[..|os| - 1], pk)
  }

  /** The object whose values a bulk update leaves in the row: the first one of the last batch that
      mentions the key. */
  function WinnerOf(batches: seq<seq<Keyed>>, pk: Pk): (r: Option<Keyed>)
    ensures r.Some? ==> (exists b <- batches :: r.value in b) && r.value.pk == pk
  {
    if batches == [] then None
    else
      var last := FirstOf(batches[|batches| - 1], pk);
      if last.Some? then last else WinnerOf(batches[..|batches| - 1], pk)
  }

  lemma {:induction false} FlattenHas<T>(batches: seq<seq<T>>, x: T)
    ensures x in Flatten(batches) <==> exists b <- batches :: x in b
  {
    if batches != [] {
      var n := |batches| - 1;
      FlattenHas(batches[..n], x);
      assert forall b :: b in batches <==> b in batches[..n] || b == batches[n];
    }
  }

  lemma WinnerAndLast(batches: seq<seq<Keyed>>, pk: Pk)
    ensures WinnerOf(batches, pk).Some? <==> LastOf(Flatten(batches), pk).Some?
    ensures WinnerOf(batches, pk).Some? ==> WinnerOf(batches, pk).value in Flatten(batches)
  {
    if WinnerOf(batches, pk).Some? {
      FlattenHas(batches, WinnerOf(batches, pk).value);
      LastExists(Flatten(batches), WinnerOf(batches, pk).value);
    }
    if LastOf(Flatten(batches), pk).Some? {
      var o := LastOf(Flatten(batches), pk).value;
      FlattenHas(batches, o);
      WinnerExists(batches, o);
    }
  }

  lemma {:induction false} LastExists(os: seq<Keyed>, o: Keyed)
    requires o in os
    ensures LastOf(os, o.pk).Some?
  {
    if os[|os| - 1].pk != o.pk {
      LastExists(os[..|os| - 1], o);
    }
  }

  lemma {:induction false} WinnerExists(batches: seq<seq<Keyed>>, o: Keyed)
    requires exists b <- batches :: o in b
    ensures WinnerOf(batches, o.pk).Some?
  {
    var last := batches[|batches| - 1];
    if o in last {
      var i :| 0 <= i < |last| && last[i] == o;
      assert PksOf(last)[i] == o.pk;
    } else {
      var b :| b in batches && o in b;
      assert b in batches[..|batches| - 1];
      WinnerExists(batches[..|batches| - 1], o);
    }
  }

  lemma KeyIsUnique(os: seq<Keyed>, a: Keyed, b: Keyed)
    requires DistinctKeys(os) && a in os && b in os && a.pk == b.pk
    ensures a == b
  {
    var i :| 0 <= i < |os| && os[i] == a;
    var j :| 0 <= j < |os| && os[j] == b;
  }

  // ---- What a bulk update does -----------------------------------------------------------------

  /** What the bulk query writes: each value under the field's own name. */
  function WithNames(m: Meta, row: Row, o: Keyed, fields: seq<string>): Row {
    if fields == [] then row
    else
      var n := |fields| - 1;
      var before := WithNames(m, row, o, fields[..n]);
      if fields[n] == KeyColumn(m) then before else before[fields[n] := o.Get(m, fields[n])]
  }

  function Outcome(m: Meta, row: Row, o: Option<Keyed>, fields: seq<string>): Row {
    if o.None? then row else WithNames(m, row, o.value, fields)
  }

  lemma {:induction false} CaseIsFirst(m: Meta, batch: seq<Keyed>, field: string, pk: Pk)
    requires FirstOf(batch, pk).Some?
    ensures CaseValue(WhensOf(m, batch, field), pk) == FirstOf(batch, pk).value.Get(m, field)
  {
    assert WhensOf(m, batch, field)[1..] == WhensOf(m, batch[1..], field);
    if batch[0].pk != pk {
      CaseIsFirst(m, batch[1..], field, pk);
    }
  }

  lemma {:induction false} QuerySets(m: Meta, batch: seq<Keyed>, fields: seq<string>, row: Row, pk: Pk)
    requires FirstOf(batch, pk).Some?
    ensures SetAll(m, row, QueryOf(m, batch, fields).sets, pk) == WithNames(m, row, FirstOf(batch, pk).value, fields)
  {
    if fields != [] {
      var n := |fields| - 1;
      QuerySets(m, batch, fields[..n], row, pk);
      CaseIsFirst(m, batch, fields[n], pk);
      var sets := QueryOf(m, batch, fields[..n]).sets;
      assert (sets + [(fields[n], WhensOf(m, batch, fields[n]))])[..|sets|] == sets;
    }
  }

  lemma {:induction false} QueryHas(m: Meta, batch: seq<Keyed>, fields: seq<string>, s: (string, Whens))
    ensures s in QueryOf(m, batch, fields).sets <==> s.0 in fields && s.1 == WhensOf(m, batch, s.0)
  {
    if fields != [] {
      var n := |fields| - 1;
      QueryHas(m, batch, fields[..n], s);
      assert fields == fields[..n] + [fields[n]];
    }
  }

  lemma {:induction false} QuerySelects(m: Meta, batch: seq<Keyed>, fields: seq<string>, pk: Pk)
    ensures Selected(QueryOf(m, batch, fields), pk) <==> fields == [] || pk in PksOf(batch)
  {
    if fields != [] {
      var n := |fields| - 1;
      QuerySelects(m, batch, fields[..n], pk);
      var q := QueryOf(m, batch, fields[..n]);
      assert forall w :: w in q.wheres + [PksOf(batch)] <==> w in q.wheres || w == PksOf(batch);
    }
  }

  /** A field named like the key column holds the key itself, in the object that decides. */
  predicate KeyKept(m: Meta, batch: seq<Keyed>, fields: seq<string>, pk: Pk) {
    KeyColumn(m) in fields && FirstOf(batch, pk).Some? ==>
      FirstOf(batch, pk).value.Get(m, KeyColumn(m)) == Val(pk)
  }

  lemma RekeysWhen(m: Meta, batch: seq<Keyed>, fields: seq<string>, pk: Pk)
    ensures Selected(QueryOf(m, batch, fields), pk) && Rekeys(m, QueryOf(m, batch, fields), pk)
            <==> !KeyKept(m, batch, fields, pk)
  {
    QuerySelects(m, batch, fields, pk);
    var key := (KeyColumn(m), WhensOf(m, batch, KeyColumn(m)));
    forall s: (string, Whens) ensures s in QueryOf(m, batch, fields).sets
      <==> s.0 in fields && s.1 == WhensOf(m, batch, s.0)
    {
      QueryHas(m, batch, fields, s);
    }
    if FirstOf(batch, pk).Some? {
      CaseIsFirst(m, batch, KeyColumn(m), pk);
      assert KeyColumn(m) in fields ==> key in QueryOf(m, batch, fields).sets;
    }
  }

  /** When one batch can be executed at all. */
  ghost predicate QueryRuns(m: Meta, batch: seq<Keyed>, fields: seq<string>, t: Table) {
    fields == [] || (batch != [] && ColumnsExist(m, fields)
                     && forall pk <- t :: KeyKept(m, batch, fields, pk))
  }

  lemma QueryRunsIff(m: Meta, batch: seq<Keyed>, fields: seq<string>, t: Table)
    ensures Execute(m, QueryOf(m, batch, fields), t).Ok? <==> QueryRuns(m, batch, fields, t)
    ensures batch == [] && fields != [] ==> Execute(m, QueryOf(m, batch, fields), t) == Err(EmptyCase)
    ensures batch != [] && !ColumnsExist(m, fields) ==>
              Execute(m, QueryOf(m, batch, fields), t) == Err(NoSuchColumn)
  {
    var q := QueryOf(m, batch, fields);
    forall s: (string, Whens) ensures s in q.sets <==> s.0 in fields && s.1 == WhensOf(m, batch, s.0) {
      QueryHas(m, batch, fields, s);
    }
    forall f <- fields ensures (f, WhensOf(m, batch, f)) in q.sets && (WhensOf(m, batch, f) == [] <==> batch == []) {
      QueryHas(m, batch, fields, (f, WhensOf(m, batch, f)));
    }
    forall pk ensures Selected(q, pk) && Rekeys(m, q, pk) <==> !KeyKept(m, batch, fields, pk) {
      RekeysWhen(m, batch, fields, pk);
    }
    assert fields != [] ==> fields[0] in fields;
  }

  /** One batch: each row mentioned takes the values of the first object with its key. */
  lemma BatchOutcome(m: Meta, batch: seq<Keyed>, fields: seq<string>, t: Table)
    requires QueryRuns(m, batch, fields, t)
    ensures Execute(m, QueryOf(m, batch, fields), t).Ok?
    ensures var after := Execute(m, QueryOf(m, batch, fields), t).value;
            && after.Keys == t.Keys
            && forall pk <- t :: after[pk] == Outcome(m, t[pk], FirstOf(batch, pk), fields)
  {
    QueryRunsIff(m, batch, fields, t);
    var after := Execute(m, QueryOf(m, batch, fields), t).value;
    forall pk <- t ensures after[pk] == Outcome(m, t[pk], FirstOf(batch, pk), fields) {
      QuerySelects(m, batch, fields, pk);
      if FirstOf(batch, pk).Some? {
        QuerySets(m, batch, fields, t[pk], pk);
      }
    }
  }

  lemma {:induction false} NameAfter(m: Meta, row: Row, o: Keyed, fields: seq<string>, c: string)
    ensures c in WithNames(m, row, o, fields) <==> c in row || (c in fields && c != KeyColumn(m))
    ensures c in WithNames(m, row, o, fields) ==>
              WithNames(m, row, o, fields)[c] == if c in fields && c != KeyColumn(m) then o.Get(m, c) else row[c]
  {
    if fields != [] {
      var n := |fields| - 1;
      assert fields == fields[..n] + [fields[n]];
      NameAfter(m, row, o, fields[..n], c);
    }
  }

  /** Writing the same list of fields twice leaves the second object's values. */
  lemma LastWriteStays(m: Meta, row: Row, a: Keyed, b: Keyed, fields: seq<string>)
    ensures WithNames(m, WithNames(m, row, a, fields), b, fields) == WithNames(m, row, b, fields)
  {
    forall c ensures c in WithNames(m, WithNames(m, row, a, fields), b, fields) <==> c in WithNames(m, row, b, fields)
    {
      NameAfter(m, row, a, fields, c);
      NameAfter(m, row, b, fields, c);
      NameAfter(m, WithNames(m, row, a, fields), b, fields, c);
    }
    forall c <- WithNames(m, row, b, fields)
      ensures WithNames(m, WithNames(m, row, a, fields), b, fields)[c] == WithNames(m, row, b, fields)[c]
    {
      NameAfter(m, row, a, fields, c);
      NameAfter(m, row, b, fields, c);
      NameAfter(m, WithNames(m, row, a, fields), b, fields, c);
    }
  }

  /** When every batch can be executed. */
  ghost predicate Runs(m: Meta, batches: seq<seq<Keyed>>, fields: seq<string>, t: Table) {
    forall i :: 0 <= i < |batches| ==> QueryRuns(m, batches[i], fields, t)
  }

  lemma QueriesStep(m: Meta, batches: seq<seq<Keyed>>, fields: seq<string>)
    requires batches != []
    ensures var qs, n := QueriesOf(m, batches, fields), |batches| - 1;
            |qs| == n + 1 && qs[..n] == QueriesOf(m, batches[..n], fields) && qs[n] == QueryOf(m, batches[n], fields)
  {
  }

  lemma RunAllStep(m: Meta, batches: seq<seq<Keyed>>, fields: seq<string>, t: Table)
    requires batches != []
    ensures var n := |batches| - 1;
            var before := RunAll(m, QueriesOf(m, batches[..n], fields), t);
            var after := RunAll(m, QueriesOf(m, batches, fields), t);
            if before.1.Some? then after == before
            else match Execute(m, QueryOf(m, batches[n], fields), before.0)
              case Ok(t') => after == (t', None)
              case Err(e) => after == (before.0, Some(e))
  {
    QueriesStep(m, batches, fields);
  }

  lemma RunsStep(m: Meta, batches: seq<seq<Keyed>>, fields: seq<string>, t: Table)
    requires batches != []
    ensures var n := |batches| - 1;
            Runs(m, batches, fields, t) <==> Runs(m, batches[..n], fields, t) && QueryRuns(m, batches[n], fields, t)
  {
    var n := |batches| - 1;
    if Runs(m, batches[..n], fields, t) {
      assert forall i :: 0 <= i < n ==> batches[..n][i] == batches[i];
    }
    if Runs(m, batches, fields, t) {
      assert forall i :: 0 <= i < n ==> batches[..n][i] == batches[i];
    }
  }

  /** The whole update runs exactly when each batch does, and never adds or drops a row. */
  lemma {:induction false} BulkRuns(m: Meta, batches: seq<seq<Keyed>>, fields: seq<string>, t: Table)
    ensures RunAll(m, QueriesOf(m, batches, fields), t).1.None? <==> Runs(m, batches, fields, t)
    ensures RunAll(m, QueriesOf(m, batches, fields), t).0.Keys == t.Keys
  {
    if batches != [] {
      var n := |batches| - 1;
      BulkRuns(m, batches[..n], fields, t);
      RunAllStep(m, batches, fields, t);
      RunsStep(m, batches, fields, t);
      var before := RunAll(m, QueriesOf(m, batches[..n], fields), t).0;
      QueryRunsIff(m, batches[n], fields, before);
      assert QueryRuns(m, batches[n], fields, t) <==> QueryRuns(m, batches[n], fields, before);
    }
  }

  /** Each row named takes the values of the object that decides. */
  lemma {:induction false} BulkOutcome(m: Meta, batches: seq<seq<Keyed>>, fields: seq<string>, t: Table, pk: Pk)
    requires Runs(m, batches, fields, t) && pk in t
    ensures pk in RunAll(m, QueriesOf(m, batches, fields), t).0
    ensures RunAll(m, QueriesOf(m, batches, fields), t).0[pk] == Outcome(m, t[pk], WinnerOf(batches, pk), fields)
  {
    BulkRuns(m, batches, fields, t);
    if batches != [] {
      var n := |batches| - 1;
      RunsStep(m, batches, fields, t);
      RunAllStep(m, batches, fields, t);
      BulkRuns(m, batches[..n], fields, t);
      BulkOutcome(m, batches[..n], fields, t, pk);
      var before := RunAll(m, QueriesOf(m, batches[..n], fields), t).0;
      assert QueryRuns(m, batches[n], fields, before);
      BatchOutcome(m, batches[n], fields, before);
      DecidesLast(m, batches, fields, t[pk], pk);
    }
  }

  lemma DecidesLast(m: Meta, batches: seq<seq<Keyed>>, fields: seq<string>, row: Row, pk: Pk)
    requires batches != []
    ensures var n := |batches| - 1;
            Outcome(m, Outcome(m, row, WinnerOf(batches[..n], pk), fields), FirstOf(batches[n], pk), fields)
            == Outcome(m, row, WinnerOf(batches, pk), fields)
  {
    var n := |batches| - 1;
    var w, last := WinnerOf(batches[..n], pk), FirstOf(batches[n], pk);
    if w.Some? && last.Some? {
      LastWriteStays(m, row, w.value, last.value, fields);
    }
  }

  // ---- What saving one by one does -------------------------------------------------------------

  /** The columns that saving writes, and those that the bulk query writes. */
  function Stored(m: Meta, fields: seq<string>): set<string> {
    set f | f in fields && f != m.pk :: ColumnOf(m, f)
  }

  function Named(m: Meta, fields: seq<string>): set<string> {
    set f | f in fields && f != KeyColumn(m)
  }

  lemma {:induction false} StoredAfter(m: Meta, row: Row, o: Keyed, fields: seq<string>, f: string)
    requires m.Valid() && Known(m, fields) && f in fields && f != m.pk
    ensures ColumnOf(m, f) in WithFields(m, row, o, fields)
    ensures WithFields(m, row, o, fields)[ColumnOf(m, f)] == o.Get(m, f)
  {
    var n := |fields| - 1;
    assert fields == fields[..n] + [fields[n]] && fields[n] in fields;
    assert forall g <- fields[..n] :: g in fields;
    if fields[n] != f {
      StoredAfter(m, row, o, fields[..n], f);
    }
  }

  lemma {:induction false} ElseKept(m: Meta, row: Row, o: Keyed, fields: seq<string>, c: string)
    requires c !in Stored(m, fields)
    ensures c in WithFields(m, row, o, fields) <==> c in row
    ensures c in row ==> WithFields(m, row, o, fields)[c] == row[c]
  {
    if fields != [] {
      var n := |fields| - 1;
      assert fields == fields[..n] + [fields[n]];
      ElseKept(m, row, o, fields[..n], c);
    }
  }

  lemma {:induction false} WriteTwice(m: Meta, row: Row, a: Keyed, b: Keyed, fields: seq<string>)
    requires m.Valid() && Known(m, fields)
    ensures WithFields(m, WithFields(m, row, a, fields), b, fields) == WithFields(m, row, b, fields)
  {
    var once := WithFields(m, row, a, fields);
    var twice, direct := WithFields(m, once, b, fields), WithFields(m, row, b, fields);
    forall c ensures (c in twice <==> c in direct) && (c in direct ==> twice[c] == direct[c]) {
      if c in Stored(m, fields) {
        var f :| f in fields && f != m.pk && ColumnOf(m, f) == c;
        StoredAfter(m, once, b, fields, f);
        StoredAfter(m, row, b, fields, f);
      } else {
        ElseKept(m, row, a, fields, c);
        ElseKept(m, once, b, fields, c);
        ElseKept(m, row, b, fields, c);
      }
    }
  }

  /** Each row named takes the listed fields of the object saved last. */
  lemma {:induction false} SavesOutcome(m: Meta, os: seq<Keyed>, fields: seq<string>, t: Table, pk: Pk)
    requires m.Valid() && Known(m, fields) && pk in t
    ensures SavedAll(m, t, os, fields).Keys == t.Keys
    ensures SavedAll(m, t, os, fields)[pk] ==
            if LastOf(os, pk).None? then t[pk] else WithFields(m, t[pk], LastOf(os, pk).value, fields)
  {
    if os != [] {
      var n := |os| - 1;
      SavesOutcome(m, os[..n], fields, t, pk);
      var l := LastOf(os[..n], pk);
      if os[n].pk == pk && l.Some? {
        WriteTwice(m, t[pk], l.value, os[n], fields);
      }
    }
  }

  lemma {:induction false} SavedKeys(m: Meta, os: seq<Keyed>, fields: seq<string>, t: Table)
    ensures SavedAll(m, t, os, fields).Keys == t.Keys
  {
    if os != [] {
      SavedKeys(m, os[..|os| - 1], fields, t);
    }
  }

  /** Of the objects with one key, the one saved last is in the row: each listed field's column holds what
      that object has in the field, and every other column what the table had. */
  lemma LastSavedIsStored(m: Meta, t: Table, objects: seq<Instance>, fields: seq<string>, i: nat, f: string, c: string)
    requires m.Valid() && Known(m, fields) && AllKeyed(objects) && i < |objects| && objects[i].pk.value in t
    requires forall j :: i < j < |objects| ==> objects[j].pk != objects[i].pk
    requires f in fields && f != m.pk
    requires forall g <- fields :: g != m.pk ==> m.columns[g] != c
    ensures SavedAll(m, t, WithKeys(objects), fields).Keys == t.Keys
    ensures var before, after := t[objects[i].pk.value], SavedAll(m, t, WithKeys(objects), fields)[objects[i].pk.value];
            && m.columns[f] in after
            && after[m.columns[f]] == (if f in objects[i].values then objects[i].values[f] else Null)
            && (c in after <==> c in before) && (c in before ==> after[c] == before[c])
  {
    var os := WithKeys(objects);
    LastIs(os, i);
    SavesOutcome(m, os, fields, t, os[i].pk);
    StoredAfter(m, t[os[i].pk], os[i], fields, f);
    ElseKept(m, t[os[i].pk], os[i], fields, c);
  }

  lemma {:induction false} LastIs(os: seq<Keyed>, i: nat)
    requires i < |os| && forall j :: i < j < |os| ==> os[j].pk != os[i].pk
    ensures LastOf(os, os[i].pk) == Some(os[i])
  {
    if i < |os| - 1 {
      LastIs(os[..|os| - 1], i);
    }
  }

  /** Rows that no object names stay as they are. */
  lemma {:induction false} UnnamedRowsStay(m: Meta, t: Table, objects: seq<Instance>, fields: seq<string>, pk: Pk)
    requires AllKeyed(objects) && pk in t && forall o <- objects :: o.pk != Some(pk)
    ensures pk in SavedAll(m, t, WithKeys(objects), fields)
    ensures SavedAll(m, t, WithKeys(objects), fields)[pk] == t[pk]
  {
    if objects != [] {
      var n := |objects| - 1;
      assert objects[n] in objects && (forall o <- objects[..n] :: o in objects);
      assert WithKeys(objects)[..n] == WithKeys(objects[..n]);
      UnnamedRowsStay(m, t, objects[..n], fields, pk);
    }
  }

  // ---- When the two agree ----------------------------------------------------------------------

  /** The listed names are, as columns, the columns of the listed fields. */
  predicate NamesFit(m: Meta, fields: seq<string>) {
    Named(m, fields) == Stored(m, fields)
  }

  /** What the deciding object of the bulk update holds under a column's name is what the object
      saved last holds in the field stored there. */
  ghost predicate ValuesFit(m: Meta, batches: seq<seq<Keyed>>, fields: seq<string>, pk: Pk) {
    WinnerAndLast(batches, pk);
    WinnerOf(batches, pk).Some? ==>
      forall f <- fields :: f != m.pk ==>
        WinnerOf(batches, pk).value.Get(m, ColumnOf(m, f)) == LastOf(Flatten(batches), pk).value.Get(m, f)
  }

  ghost predicate KeysKept(m: Meta, batches: seq<seq<Keyed>>, fields: seq<string>, pk: Pk) {
    forall i :: 0 <= i < |batches| ==> KeyKept(m, batches[i], fields, pk)
  }

  /** There is nothing to write; or every batch has an object, the names fit and the values fit. */
  ghost predicate Fits(m: Meta, batches: seq<seq<Keyed>>, fields: seq<string>) {
    || fields == [] || batches == []
    || ([] !in batches && NamesFit(m, fields)
        && forall pk: Pk :: KeysKept(m, batches, fields, pk) && ValuesFit(m, batches, fields, pk))
  }

  ghost predicate SameAsSaving(m: Meta, t: Table, batches: seq<seq<Keyed>>, fields: seq<string>) {
    RunAll(m, QueriesOf(m, batches, fields), t) == (SavedAll(m, t, Flatten(batches), fields), None)
  }

  lemma FittingNamesExist(m: Meta, fields: seq<string>)
    requires m.Valid() && Known(m, fields) && NamesFit(m, fields)
    ensures ColumnsExist(m, fields)
  {
    forall f <- fields ensures f in m.columns.Values {
      if f != KeyColumn(m) {
        assert f in Named(m, fields);
        var g :| g in fields && g != m.pk && ColumnOf(m, g) == f;
        assert g in m.columns;
      }
    }
  }

  /** Writing the names of one object is writing the fields of another. */
  lemma RowsFit(m: Meta, row: Row, w: Keyed, l: Keyed, fields: seq<string>)
    requires m.Valid() && Known(m, fields) && NamesFit(m, fields)
    requires forall f <- fields :: f != m.pk ==> w.Get(m, ColumnOf(m, f)) == l.Get(m, f)
    ensures WithNames(m, row, w, fields) == WithFields(m, row, l, fields)
  {
    var bulk, saved := WithNames(m, row, w, fields), WithFields(m, row, l, fields);
    forall c ensures (c in bulk <==> c in saved) && (c in bulk ==> bulk[c] == saved[c]) {
      NameAfter(m, row, w, fields, c);
      if c in Stored(m, fields) {
        var f :| f in fields && f != m.pk && ColumnOf(m, f) == c;
        assert c in Named(m, fields);
        StoredAfter(m, row, l, fields, f);
      } else {
        assert c !in Named(m, fields);
        ElseKept(m, row, l, fields, c);
      }
    }
  }

  lemma FitsRuns(m: Meta, batches: seq<seq<Keyed>>, fields: seq<string>, t: Table)
    requires m.Valid() && Known(m, fields) && Fits(m, batches, fields)
    ensures Runs(m, batches, fields, t)
  {
    if fields != [] && batches != [] {
      FittingNamesExist(m, fields);
      forall i | 0 <= i < |batches| ensures QueryRuns(m, batches[i], fields, t) {
        assert batches[i] in batches;
        forall pk <- t ensures KeyKept(m, batches[i], fields, pk) {
          assert KeysKept(m, batches, fields, pk);
        }
      }
    }
  }

  lemma FittingAgrees(m: Meta, batches: seq<seq<Keyed>>, fields: seq<string>, t: Table)
    requires m.Valid() && Known(m, fields) && Fits(m, batches, fields)
    ensures SameAsSaving(m, t, batches, fields)
  {
    var os := Flatten(batches);
    FitsRuns(m, batches, fields, t);
    BulkRuns(m, batches, fields, t);
    SavedKeys(m, os, fields, t);
    var bulk, saves := RunAll(m, QueriesOf(m, batches, fields), t).0, SavedAll(m, t, os, fields);
    forall pk <- t ensures bulk[pk] == saves[pk] {
      BulkOutcome(m, batches, fields, t, pk);
      SavesOutcome(m, os, fields, t, pk);
      WinnerAndLast(batches, pk);
      if WinnerOf(batches, pk).Some? && fields != [] {
        assert ValuesFit(m, batches, fields, pk);
        RowsFit(m, t[pk], WinnerOf(batches, pk).value, LastOf(os, pk).value, fields);
      }
    }
    assert bulk == saves;
  }

  /** A table of the model's with one row, the same value in every column. */
  function OneRow(m: Meta, pk: Pk, v: Value): Table {
    map[pk := map c | c in m.columns.Values - {KeyColumn(m)} :: v]
  }

  function Other(v: Value): Value {
    if v == Null then Val(0) else Null
  }

  lemma ErrorShows(m: Meta, batches: seq<seq<Keyed>>, fields: seq<string>, t: Table)
    requires !Runs(m, batches, fields, t)
    ensures !SameAsSaving(m, t, batches, fields)
  {
    BulkRuns(m, batches, fields, t);
  }

  /** Both update the row, but differently. */
  lemma RowShows(m: Meta, batches: seq<seq<Keyed>>, fields: seq<string>, t: Table, pk: Pk)
    requires m.Valid() && Known(m, fields) && pk in t && WinnerOf(batches, pk).Some?
    requires LastOf(Flatten(batches), pk).Some?
    requires WithNames(m, t[pk], WinnerOf(batches, pk).value, fields)
             != WithFields(m, t[pk], LastOf(Flatten(batches), pk).value, fields)
    ensures !SameAsSaving(m, t, batches, fields)
  {
    if Runs(m, batches, fields, t) {
      BulkOutcome(m, batches, fields, t, pk);
      SavesOutcome(m, Flatten(batches), fields, t, pk);
      SavedKeys(m, Flatten(batches), fields, t);
    } else {
      ErrorShows(m, batches, fields, t);
    }
  }

  /** A column that the bulk query writes and saving does not, and one the other way round. */
  lemma NamedShows(m: Meta, batches: seq<seq<Keyed>>, fields: seq<string>, pk: Pk, c: string) returns (t: Table)
    requires m.Valid() && Known(m, fields) && WinnerOf(batches, pk).Some?
    requires c in m.columns.Values && c in Named(m, fields) && c !in Stored(m, fields)
    ensures Shaped(m, t) && !SameAsSaving(m, t, batches, fields)
  {
    WinnerAndLast(batches, pk);
    var w, l := WinnerOf(batches, pk).value, LastOf(Flatten(batches), pk).value;
    t := OneRow(m, pk, Other(w.Get(m, c)));
    NameAfter(m, t[pk], w, fields, c);
    ElseKept(m, t[pk], l, fields, c);
    RowShows(m, batches, fields, t, pk);
  }

  lemma StoredShows(m: Meta, batches: seq<seq<Keyed>>, fields: seq<string>, pk: Pk, c: string) returns (t: Table)
    requires m.Valid() && Known(m, fields) && WinnerOf(batches, pk).Some?
    requires c in Stored(m, fields) && c !in Named(m, fields)
    ensures Shaped(m, t) && !SameAsSaving(m, t, batches, fields)
  {
    WinnerAndLast(batches, pk);
    var w, l := WinnerOf(batches, pk).value, LastOf(Flatten(batches), pk).value;
    var f :| f in fields && f != m.pk && ColumnOf(m, f) == c;
    t := OneRow(m, pk, Other(l.Get(m, f)));
    assert c in m.columns.Values && c != KeyColumn(m);
    NameAfter(m, t[pk], w, fields, c);
    StoredAfter(m, t[pk], l, fields, f);
    RowShows(m, batches, fields, t, pk);
  }

  /** Names that do not fit show on some table of the model. */
  lemma NamesShow(m: Meta, batches: seq<seq<Keyed>>, fields: seq<string>, pk: Pk) returns (t: Table)
    requires m.Valid() && Known(m, fields) && !NamesFit(m, fields) && WinnerOf(batches, pk).Some?
    requires ColumnsExist(m, fields)
    ensures Shaped(m, t) && !SameAsSaving(m, t, batches, fields)
  {
    if c :| c in Named(m, fields) && c !in Stored(m, fields) {
      t := NamedShows(m, batches, fields, pk, c);
    } else {
      var c :| c in Stored(m, fields) && c !in Named(m, fields);
      t := StoredShows(m, batches, fields, pk, c);
    }
  }

  lemma ValuesShow(m: Meta, batches: seq<seq<Keyed>>, fields: seq<string>, pk: Pk) returns (t: Table)
    requires m.Valid() && Known(m, fields) && NamesFit(m, fields)
    requires !KeysKept(m, batches, fields, pk) || !ValuesFit(m, batches, fields, pk)
    requires fields != []
    ensures Shaped(m, t) && !SameAsSaving(m, t, batches, fields)
  {
    t := OneRow(m, pk, Null);
    if !KeysKept(m, batches, fields, pk) {
      var i :| 0 <= i < |batches| && !KeyKept(m, batches[i], fields, pk);
      assert !QueryRuns(m, batches[i], fields, t);
      ErrorShows(m, batches, fields, t);
    } else {
      WinnerAndLast(batches, pk);
      var w, l := WinnerOf(batches, pk).value, LastOf(Flatten(batches), pk).value;
      var f :| f in fields && f != m.pk && w.Get(m, ColumnOf(m, f)) != l.Get(m, f);
      var c := ColumnOf(m, f);
      assert c in Stored(m, fields) && c in Named(m, fields);
      NameAfter(m, t[pk], w, fields, c);
      StoredAfter(m, t[pk], l, fields, f);
      assert c in m.columns.Values;
      RowShows(m, batches, fields, t, pk);
    }
  }

  // ---- Main results ----------------------------------------------------------------------------

  lemma MisfitShows(m: Meta, batches: seq<seq<Keyed>>, fields: seq<string>) returns (t: Table)
    requires m.Valid() && Known(m, fields) && !Fits(m, batches, fields)
    ensures Shaped(m, t) && !SameAsSaving(m, t, batches, fields)
  {
    t := map[];
    if [] in batches {
      var i :| 0 <= i < |batches| && batches[i] == [];
      assert !QueryRuns(m, batches[i], fields, t);
      ErrorShows(m, batches, fields, t);
    } else if !ColumnsExist(m, fields) {
      assert !QueryRuns(m, batches[0], fields, t);
      ErrorShows(m, batches, fields, t);
    } else if !NamesFit(m, fields) {
      assert batches[0] in batches;
      WinnerExists(batches, batches[0][0]);
      t := NamesShow(m, batches, fields, batches[0][0].pk);
    } else {
      var pk: Pk :| !(KeysKept(m, batches, fields, pk) && ValuesFit(m, batches, fields, pk));
      t := ValuesShow(m, batches, fields, pk);
    }
  }

  /** A bulk update does on every table of the model what saving one by one does, without an error,
      exactly when it fits. */
  lemma BulkEqualsSavesIff(m: Meta, batches: seq<seq<Keyed>>, fields: seq<string>)
    requires m.Valid() && Known(m, fields)
    ensures (forall t: Table :: Shaped(m, t) ==> SameAsSaving(m, t, batches, fields)) <==> Fits(m, batches, fields)
  {
    if Fits(m, batches, fields) {
      forall t: Table ensures SameAsSaving(m, t, batches, fields) {
        FittingAgrees(m, batches, fields, t);
      }
    } else {
      var t := MisfitShows(m, batches, fields);
    }
  }

  /** Every listed field is stored in the column of its own name. */
  predicate OwnNames(m: Meta, fields: seq<string>) {
    forall f <- fields :: ColumnOf(m, f) == f
  }

  ghost predicate WinnersAgree(m: Meta, batches: seq<seq<Keyed>>, fields: seq<string>, pk: Pk) {
    WinnerAndLast(batches, pk);
    WinnerOf(batches, pk).Some? ==>
      forall f <- fields :: WinnerOf(batches, pk).value.Get(m, f) == LastOf(Flatten(batches), pk).value.Get(m, f)
  }

  lemma OwnNamesFit(m: Meta, fields: seq<string>)
    requires m.Valid() && Known(m, fields) && OwnNames(m, fields)
    ensures NamesFit(m, fields)
    ensures KeyColumn(m) in fields ==> KeyColumn(m) == m.pk
  {
    assert forall f <- fields :: f == KeyColumn(m) <==> f == m.pk;
    assert forall f :: f in Named(m, fields) <==> f in Stored(m, fields);
  }

  /** Fields stored under their own names: the objects fit when, for each key, the first object of the
      last batch naming it agrees with the last object naming it. */
  lemma OwnNamesFitIff(m: Meta, batches: seq<seq<Keyed>>, fields: seq<string>)
    requires m.Valid() && Known(m, fields) && OwnNames(m, fields) && fields != [] && batches != [] && [] !in batches
    ensures Fits(m, batches, fields) <==> forall pk: Pk :: WinnersAgree(m, batches, fields, pk)
  {
    OwnNamesFit(m, fields);
    forall pk: Pk
      ensures KeysKept(m, batches, fields, pk)
      ensures ValuesFit(m, batches, fields, pk) <==> WinnersAgree(m, batches, fields, pk)
    {
      WinnerAndLast(batches, pk);
    }
  }

  /** For objects with pairwise distinct keys and fields stored under their own names, the batched
      update leaves the table exactly as saving the objects one by one, however they were cut. */
  lemma BulkEqualsSaves(m: Meta, t: Table, batches: seq<seq<Keyed>>, fields: seq<string>)
    requires m.Valid() && Known(m, fields) && OwnNames(m, fields)
    requires [] !in batches && DistinctKeys(Flatten(batches))
    ensures SameAsSaving(m, t, batches, fields)
  {
    if fields != [] && batches != [] {
      forall pk: Pk ensures WinnersAgree(m, batches, fields, pk) {
        WinnerAndLast(batches, pk);
        if WinnerOf(batches, pk).Some? {
          KeyIsUnique(Flatten(batches), WinnerOf(batches, pk).value, LastOf(Flatten(batches), pk).value);
        }
      }
      OwnNamesFitIff(m, batches, fields);
    }
    FittingAgrees(m, batches, fields, t);
  }

  /** A list of fields is safe, whatever the object and the table, exactly when every listed field is
      stored in the column of its own name. */
  lemma SafeFieldsIff(m: Meta, fields: seq<string>)
    requires m.Valid() && Known(m, fields)
    ensures (forall o: Keyed, t: Table :: Shaped(m, t) ==> SameAsSaving(m, t, [[o]], fields)) <==> OwnNames(m, fields)
  {
    if OwnNames(m, fields) {
      forall o: Keyed, t: Table ensures SameAsSaving(m, t, [[o]], fields) {
        OneObject(o);
        BulkEqualsSaves(m, t, [[o]], fields);
      }
    } else {
      var o := UnsafeObject(m, fields);
      var t := MisfitShows(m, [[o]], fields);
    }
  }

  lemma OneObject(o: Keyed)
    ensures Flatten([[o]]) == [o] && LastOf([o], o.pk) == Some(o) && FirstOf([o], o.pk) == Some(o)
    ensures WinnerOf([[o]], o.pk) == Some(o)
  {
    assert [[o]][..0] == [] && [] + [o] == [o];
  }

  /** A field stored elsewhere: some object's values tell the two columns apart. */
  lemma UnsafeObject(m: Meta, fields: seq<string>) returns (o: Keyed)
    requires m.Valid() && Known(m, fields) && !OwnNames(m, fields)
    ensures !Fits(m, [[o]], fields)
  {
    var f :| f in fields && ColumnOf(m, f) != f;
    o := Keyed(2, map[f := Val(1)]);
    if NamesFit(m, fields) {
      if f == m.pk {
        assert f in Named(m, fields);
        var g :| g in fields && g != m.pk && ColumnOf(m, g) == f;
        OneObject(o);
        assert !ValuesFit(m, [[o]], fields, 2);
      } else {
        OneObject(o);
        assert !ValuesFit(m, [[o]], fields, 2);
      }
    }
  }

  /** Rows without an object keep every column; the others keep every column that is not named. */
  lemma {:induction false} TouchesNothingElse(m: Meta, t: Table, batches: seq<seq<Keyed>>, fields: seq<string>,
                                              pk: Pk, c: string)
    requires pk in t && c in t[pk]
    requires c !in fields || forall o <- Flatten(batches) :: o.pk != pk
    ensures var after := RunAll(m, QueriesOf(m, batches, fields), t).0;
            after.Keys == t.Keys && c in after[pk] && after[pk][c] == t[pk][c]
  {
    BulkRuns(m, batches, fields, t);
    if batches != [] {
      var n := |batches| - 1;
      var before := RunAll(m, QueriesOf(m, batches[..n], fields), t).0;
      TouchesNothingElse(m, t, batches[..n], fields, pk, c);
      RunAllStep(m, batches, fields, t);
      QueryRunsIff(m, batches[n], fields, before);
      if QueryRuns(m, batches[n], fields, before) {
        BatchOutcome(m, batches[n], fields, before);
        var first := FirstOf(batches[n], pk);
        if first.Some? {
          assert first.value in Flatten(batches);
          NameAfter(m, before[pk], first.value, fields, c);
        }
      }
    }
  }

  // ---- Where it fails --------------------------------------------------------------------------

  lemma OneObjectOutcome(m: Meta, o: Keyed, fields: seq<string>, t: Table)
    requires o.pk in t
    ensures QueryRuns(m, [o], fields, t) ==>
              RunAll(m, QueriesOf(m, [[o]], fields), t) == (t[o.pk := WithNames(m, t[o.pk], o, fields)], None)
    ensures !ColumnsExist(m, fields) ==> RunAll(m, QueriesOf(m, [[o]], fields), t) == (t, Some(NoSuchColumn))
  {
    var batches := [[o]];
    assert batches[..0] == [];
    QueryRunsIff(m, [o], fields, t);
    RunAllStep(m, batches, fields, t);
    if QueryRuns(m, [o], fields, t) {
      OneObject(o);
      BatchOutcome(m, [o], fields, t);
      var after := Execute(m, QueryOf(m, [o], fields), t).value;
      forall pk <- t ensures after[pk] == t[o.pk := WithNames(m, t[o.pk], o, fields)][pk] {
        if pk != o.pk {
          assert PksOf([o]) == [o.pk] && FirstOf([o], pk).None?;
        }
      }
      assert after == t[o.pk := WithNames(m, t[o.pk], o, fields)];
    }
  }

  /** `chars` of the model SourceFields is stored in `some_chars_table`: there is no column `chars`. */
  const SOURCE_FIELDS := UpdateSql.Meta(["eyedee", "chars"],
    map["eyedee" := "sometable_id", "chars" := "some_chars_table"], "eyedee")

  lemma RenamedFieldFails(o: Keyed, t: Table)
    requires o.pk in t
    ensures SOURCE_FIELDS.Valid() && Known(SOURCE_FIELDS, ["chars"])
    ensures RunAll(SOURCE_FIELDS, QueriesOf(SOURCE_FIELDS, [[o]], ["chars"]), t) == (t, Some(NoSuchColumn))
  {
    assert "chars" in ["chars"] && "chars" !in SOURCE_FIELDS.columns.Values;
    OneObjectOutcome(SOURCE_FIELDS, o, ["chars"], t);
  }

  /** Two fields stored under each other's names: the update goes into the other field's column. */
  const CROSSED := UpdateSql.Meta(["id", "a", "b"], map["id" := "id", "a" := "b", "b" := "a"], "id")

  lemma CrossedColumns()
    ensures CROSSED.Valid() && KeyColumn(CROSSED) == "id" && ColumnsExist(CROSSED, ["a"])
  {
    assert CROSSED.columns["b"] == "a";
  }

  lemma CrossedFieldsOverwrite(o: Keyed, t: Table)
    requires o.pk in t
    ensures CROSSED.Valid() && Known(CROSSED, ["a"])
    ensures RunAll(CROSSED, QueriesOf(CROSSED, [[o]], ["a"]), t)
            == (t[o.pk := t[o.pk]["a" := o.Get(CROSSED, "a")]], None)
    ensures Saved(CROSSED, t, o, ["a"]) == t[o.pk := t[o.pk]["b" := o.Get(CROSSED, "a")]]
  {
    CrossedColumns();
    OneObjectOutcome(CROSSED, o, ["a"], t);
    var fields := ["a"];
    assert fields[..0] == [];
    assert WithNames(CROSSED, t[o.pk], o, fields) == t[o.pk]["a" := o.Get(CROSSED, "a")];
    assert WithFields(CROSSED, t[o.pk], o, fields) == t[o.pk]["b" := o.Get(CROSSED, "a")];
  }

  /** A key given twice in one batch: the bulk update keeps the first object's value, saving the last. */
  lemma RepeatedKeyDiffers(m: Meta, a: Keyed, b: Keyed, f: string)
    requires m.Valid() && f in m.columns && ColumnOf(m, f) == f
    requires a.pk == b.pk && a.Get(m, f) != b.Get(m, f)
    ensures !Fits(m, [[a, b]], [f])
  {
    var batches, fields := [[a, b]], [f];
    assert batches[..0] == [] && [] + [a, b] == [a, b] && f in fields;
    assert WinnerOf(batches, a.pk) == Some(a) && LastOf([a, b], a.pk) == Some(b);
    assert !WinnersAgree(m, batches, fields, a.pk);
    OwnNamesFitIff(m, batches, fields);
  }

  /** No objects: without a batch size one CASE without branches, with one no query at all. */
  lemma NothingToUpdate(m: Meta, fields: seq<string>, t: Table)
    ensures fields != [] ==> RunAll(m, QueriesOf(m, [[]], fields), t) == (t, Some(EmptyCase))
    ensures RunAll(m, QueriesOf(m, [], fields), t) == (t, None)
  {
    QueryRunsIff(m, [], fields, t);
    RunAllStep(m, [[]], fields, t);
    var none: seq<seq<Keyed>> := [[]];
    assert none[..0] == [];
  }

  // ---- Errors ----------------------------------------------------------------------------------

  lemma {:induction false} FirstErrorStays(m: Meta, qs: seq<Query>, i: nat, t: Table)
    requires i <= |qs| && RunAll(m, qs[..i], t).1.Some?
    ensures RunAll(m, qs, t) == RunAll(m, qs[..i], t)
  {
    if i == |qs| {
      assert qs[..i] == qs;
    } else {
      assert qs[..|qs| - 1][..i] == qs[..i];
      FirstErrorStays(m, qs[..|qs| - 1], i, t);
    }
  }

  /** With objects in every batch: a missing column stops the first query, and is the only reason for
      that error. */
  lemma {:induction false} MissingColumns(m: Meta, batches: seq<seq<Keyed>>, fields: seq<string>, t: Table)
    requires [] !in batches
    ensures batches != [] && !ColumnsExist(m, fields) ==>
              RunAll(m, QueriesOf(m, batches, fields), t) == (t, Some(NoSuchColumn))
    ensures batches == [] || ColumnsExist(m, fields) ==>
              RunAll(m, QueriesOf(m, batches, fields), t).1 in {None, Some(KeyOverwritten)}
  {
    if batches != [] {
      var n := |batches| - 1;
      assert batches[n] in batches && forall b <- batches[..n] :: b in batches;
      MissingColumns(m, batches[..n], fields, t);
      RunAllStep(m, batches, fields, t);
      QueryRunsIff(m, batches[n], fields, RunAll(m, QueriesOf(m, batches[..n], fields), t).0);
      if ColumnsExist(m, fields) {
        ExecuteErrors(m, batches[n], fields, RunAll(m, QueriesOf(m, batches[..n], fields), t).0);
      }
      if n == 0 {
        assert batches[..0] == [];
      }
    }
  }

  lemma ExecuteErrors(m: Meta, batch: seq<Keyed>, fields: seq<string>, t: Table)
    requires batch != [] && ColumnsExist(m, fields)
    ensures var r := Execute(m, QueryOf(m, batch, fields), t); r.Ok? || r == Err(KeyOverwritten)
  {
    forall s: (string, Whens) ensures s in QueryOf(m, batch, fields).sets ==> s.0 in fields && s.1 != [] {
      QueryHas(m, batch, fields, s);
    }
  }

  lemma ChunksOfNothing<T>(batches: seq<seq<T>>)
    requires [] !in batches
    ensures Flatten(batches) == [] <==> batches == []
  {
    if batches != [] {
      assert batches[|batches| - 1] in batches;
    }
  }

  /** How a bulk update of the given batches can end. */
  lemma BulkErrors(m: Meta, batches: seq<seq<Keyed>>, fields: seq<string>, t: Table)
    requires batches == [[]] || [] !in batches
    ensures var r := RunAll(m, QueriesOf(m, batches, fields), t);
            if Flatten(batches) == [] then
              r == (t, if fields != [] && batches != [] then Some(EmptyCase) else None)
            else if !ColumnsExist(m, fields) then r == (t, Some(NoSuchColumn))
            else r.1 in {None, Some(KeyOverwritten)}
  {
    if batches == [[]] {
      assert batches[..0] == [] && Flatten(batches) == [];
      NothingToUpdate(m, fields, t);
      if fields == [] {
        RunAllStep(m, batches, fields, t);
        BatchOutcome(m, [], fields, t);
        assert Execute(m, QueryOf(m, [], fields), t).value == t;
      }
    } else {
      ChunksOfNothing(batches);
      MissingColumns(m, batches, fields, t);
    }
  }

  // ---- The database ----------------------------------------------------------------------------

  class Database {
    var table: Table

    constructor (table: Table)
      ensures this.table == table
    {
      this.table := table;
    }

    /** UPDATE of the listed fields of one object, as `save(update_fields=..)` does it. */
    method Save(m: Meta, o: Keyed, fields: seq<string>)
      requires m.Valid() && Known(m, fields)
      modifies this
      ensures table == Saved(m, old(table), o, fields)
    {
      if o.pk in table {
        var row := table[o.pk];
        for i := 0 to |fields|
          invariant table == old(table) && row == WithFields(m, table[o.pk], o, fields[..i])
        {
          assert fields[..i + 1][..i] == fields[..i];
          if fields[i] != m.pk {
            row := row[m.columns[fields[i]] := o.Get(m, fields[i])];
          }
        }
        assert fields[..|fields|] == fields;
        table := table[o.pk := row];
      }
    }

    /** `_execute`: the queries one after the other; an error leaves what came before it. */
    method ExecuteQueries(m: Meta, queries: seq<Query>) returns (error: Option<Error>)
      modifies this
      ensures (table, error) == RunAll(m, queries, old(table))
    {
      for i := 0 to |queries|
        invariant (table, None) == RunAll(m, queries[..i], old(table))
      {
        assert queries[..i + 1][..i] == queries[..i];
        match Execute(m, queries[i], table) {
          case Ok(after) =>
            table := after;
          case Err(e) =>
            FirstErrorStays(m, queries, i + 1, old(table));
            return Some(e);
        }
      }
      assert queries[..|queries|] == queries;
      return None;
    }

    /** `bulk_update`: refused when an object has no primary key, or a listed field is unknown to the
        objects; otherwise the queries of its batches are executed. */
    method BulkUpdate(m: Meta, objects: seq<Instance>, fields: seq<string>, batchSize: Option<nat>)
      returns (error: Option<Error>, ghost batches: seq<seq<Keyed>>)
      requires m.Valid()
      modifies this
      ensures error !in {Some(NoPrimaryKey), Some(UnknownField)} ==>
                && AllKeyed(objects) && Flatten(batches) == WithKeys(objects)
                && (batchSize.None? || batchSize.value == 0 ==> batches == [WithKeys(objects)])
                && (table, error) == RunAll(m, QueriesOf(m, batches, fields), old(table))
      ensures error == Some(NoPrimaryKey) <==> !AllKeyed(objects)
      ensures error == Some(UnknownField) <==> AllKeyed(objects) && objects != [] && !Known(m, fields)
      ensures error in {Some(NoPrimaryKey), Some(UnknownField), Some(NoSuchColumn)} ==> table == old(table)
      ensures objects == [] && fields != [] ==>
                table == old(table)
                && error == if batchSize.None? || batchSize.value == 0 then Some(EmptyCase) else None
      ensures AllKeyed(objects) && objects != [] && Known(m, fields) && !ColumnsExist(m, fields) ==>
                error == Some(NoSuchColumn)
      ensures AllKeyed(objects) && objects != [] && Known(m, fields) && OwnNames(m, fields)
              && DistinctKeys(WithKeys(objects)) ==>
                error == None && table == SavedAll(m, old(table), WithKeys(objects), fields)
    {
      if !AllKeyed(objects) {
        return Some(NoPrimaryKey), [];
      }
      if objects != [] && !Known(m, fields) {
        return Some(UnknownField), [];
      }
      var keyed := WithKeys(objects);
      var chunks := Chunk(keyed, batchSize);
      batches := chunks;
      var queries: seq<Query> := [];
      for i := 0 to |chunks|
        invariant queries == QueriesOf(m, batches, fields)[..i] && table == old(table)
      {
        var q := MakeQuery(m, chunks[i], fields);
        queries := queries + [q];
      }
      assert queries == QueriesOf(m, batches, fields);
      error := ExecuteQueries(m, queries);
      assert batches == [[]] || [] !in batches;
      BulkErrors(m, batches, fields, old(table));
      if objects != [] && Known(m, fields) && OwnNames(m, fields) && DistinctKeys(keyed) {
        BulkEqualsSaves(m, old(table), batches, fields);
      }
    }
  }
}
