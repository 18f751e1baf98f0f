// UPDATE statements of single instances and their per-table cache
// (tortoise/backends/base/executor.py, `get_update_sql` and `execute_update`).
module UpdateSql {
  import opened Common

  /** `F("field") + n` and its resolved form, on a column. */
  datatype Arithmetic = Arithmetic(field: string, plus: int)

  /** What an instance holds in a field. */
  datatype Held = Plain(v: Value) | Computed(e: Arithmetic)

  datatype Instance = Instance(values: map<string, Held>) {
    function Get(field: string): Held {
      if field in values then values[field] else Plain(Null)
    }
  }

  /** SET column = parameter k, or SET column = other column + n. */
  datatype Assignment = ToParameter(column: string, k: nat) | ToColumn(column: string, source: string, plus: int)

  /** UPDATE table SET .. WHERE pk = parameter k. */
  datatype Sql = Sql(sets: seq<Assignment>, pkParameter: nat)

  datatype Meta = Meta(fields: seq<string>, columns: map<string, string>, pk: string) {
    /** Field names are identifiers; columns are distinct. */
    predicate Valid() {
      && pk in columns && (forall f <- fields :: f in columns)
      && (forall f <- columns :: f != "" && ',' !in f)
      && (forall f, g :: f in columns && g in columns && columns[f] == columns[g] ==> f == g)
    }

    /** The fields an update lists: all of them when none are named. */
    function Listed(updateFields: Option<seq<string>>): seq<string> {
      if updateFields.Some? && updateFields.value != [] then updateFields.value else fields
    }
  }

  // ---- An uncached build, as a value -----------------------------------------------------------

  /** The non-key fields in order, each with a parameter or an expression. */
  function Sets(m: Meta, fields: seq<string>, arithmetic: map<string, Arithmetic>): (seq<Assignment>, nat)
    requires m.Valid() && Resolvable(m, fields, arithmetic)
  {
    if fields == [] then ([], 0)
    else
      var n := |fields| - 1;
      var (sets, count) := Sets(m, fields[..n], arithmetic);
      var f := fields[n];
      if f == m.pk then (sets, count)
      else if f in arithmetic then
        (sets + [ToColumn(m.columns[f], m.columns[arithmetic[f].field], arithmetic[f].plus)], count)
      else (sets + [ToParameter(m.columns[f], count)], count + 1)
  }

  predicate Resolvable(m: Meta, fields: seq<string>, arithmetic: map<string, Arithmetic>) {
    && (forall i :: 0 <= i < |fields| ==> fields[i] in m.columns)
    && (forall f <- arithmetic :: arithmetic[f].field in m.columns)
  }

  function Build(m: Meta, fields: seq<string>, arithmetic: map<string, Arithmetic>): Sql
    requires m.Valid() && Resolvable(m, fields, arithmetic)
  {
    var (sets, count) := Sets(m, fields, arithmetic);
    Sql(sets, count)
  }

  /** The expressions among the listed non-key fields. */
  function ArithmeticOf(m: Meta, fields: seq<string>, i: Instance): map<string, Arithmetic> {
    map f | f in fields && f != m.pk && i.Get(f).Computed? :: i.Get(f).e
  }

  /** The bound values: plain non-key fields in order, then the primary key. */
  function Bound(m: Meta, fields: seq<string>, i: Instance): seq<Value> {
    if fields == [] then []
    else
      var n := |fields| - 1;
      var f := fields[n];
      Bound(m, fields[..n], i) + if f != m.pk && i.Get(f).Plain? then [i.Get(f).v] else []
  }

  function Key(updateFields: Option<seq<string>>): string {
    if updateFields.Some? && updateFields.value != [] then Joined(updateFields.value) else ""
  }

  /** `",".join(names)`. */
  function Joined(names: seq<string>): string
    requires names != []
  {
    if |names| == 1 then names[0] else names[0] + "," + Joined(names[1..])
  }

  // ---- Keys determine field lists --------------------------------------------------------------

  predicate Plainly(names: seq<string>) {
    forall n <- names :: n != "" && ',' !in n
  }

  function UpToComma(s: string): string {
    if s == "" || s[0] == ',' then "" else [s[0]] + UpToComma(s[1..])
  }

  lemma {:induction false} UpToCommaReads(name: string, rest: string)
    requires ',' !in name && (rest == "" || rest[0] == ',')
    ensures UpToComma(name + rest) == name
  {
    if name == "" {
      assert name + rest == rest;
    } else {
      assert (name + rest)[1..] == name[1..] + rest;
      UpToCommaReads(name[1..], rest);
    }
  }

  lemma FirstName(names: seq<string>)
    requires names != [] && Plainly(names)
    ensures UpToComma(Joined(names)) == names[0]
    ensures |names| == 1 ==> Joined(names) == names[0]
    ensures |names| > 1 ==> Joined(names)[|names[0]| + 1..] == Joined(names[1..]) && |Joined(names)| > |names[0]|
  {
    if |names| == 1 {
      assert names[0] + "" == names[0];
      UpToCommaReads(names[0], "");
    } else {
      var rest := "," + Joined(names[1..]);
      assert Joined(names) == names[0] + rest;
      UpToCommaReads(names[0], rest);
    }
  }

  /** Joining comma-free names with commas loses nothing. */
  lemma {:induction false} JoinedIsInjective(a: seq<string>, b: seq<string>)
    requires a != [] && b != [] && Plainly(a) && Plainly(b) && Joined(a) == Joined(b)
    ensures a == b
  {
    FirstName(a);
    FirstName(b);
    if |a| > 1 && |b| > 1 {
      assert (forall n <- a[1..] :: n in a) && forall n <- b[1..] :: n in b;
      JoinedIsInjective(a[1..], b[1..]);
      assert a == [a[0]] + a[1..] && b == [b[0]] + b[1..];
    }
  }

  lemma KeyDeterminesFields(m: Meta, a: Option<seq<string>>, b: Option<seq<string>>)
    requires m.Valid() && Resolvable(m, m.Listed(a), map[]) && Resolvable(m, m.Listed(b), map[]) && Key(a) == Key(b)
    ensures m.Listed(a) == m.Listed(b)
  {
    var namedA, namedB := a.Some? && a.value != [], b.Some? && b.value != [];
    if namedA { NamesArePlain(m, a.value); FirstName(a.value); }
    if namedB { NamesArePlain(m, b.value); FirstName(b.value); }
    if namedA && namedB {
      JoinedIsInjective(a.value, b.value);
    }
  }

  lemma NamesArePlain(m: Meta, names: seq<string>)
    requires m.Valid() && Resolvable(m, names, map[])
    ensures Plainly(names)
  {}

  // ---- The executor ----------------------------------------------------------------------------

  class Executor {
    const meta: Meta
    var updateCache: map<string, Sql>

    /** Every cached statement is the one an uncached build gives for the fields its key stands for. */
    ghost predicate Valid()
      reads this
    {
      && meta.Valid()
      && forall k <- updateCache :: exists u: Option<seq<string>> ::
           && Key(u) == k && Resolvable(meta, meta.Listed(u), map[])
           && updateCache[k] == Build(meta, meta.Listed(u), map[])
    }

    constructor (meta: Meta)
      requires meta.Valid()
      ensures Valid() && this.meta == meta && updateCache == map[]
    {
      this.meta := meta;
      updateCache := map[];
    }

    method GetUpdateSql(updateFields: Option<seq<string>>, arithmetic: map<string, Arithmetic>) returns (sql: Sql)
      requires Valid() && Resolvable(meta, meta.Listed(updateFields), arithmetic)
      modifies this`updateCache
      ensures Valid()
      ensures sql == Build(meta, meta.Listed(updateFields), arithmetic)
      ensures updateCache == if arithmetic == map[] then old(updateCache)[Key(updateFields) := sql]
                             else old(updateCache)
    {
      var key := Key(updateFields);
      if arithmetic == map[] && key in updateCache {
        ghost var u: Option<seq<string>> :| Key(u) == key && Resolvable(meta, meta.Listed(u), map[])
                                            && updateCache[key] == Build(meta, meta.Listed(u), map[]);
        KeyDeterminesFields(meta, u, updateFields);
        return updateCache[key];
      }
      var listed := meta.Listed(updateFields);
      var sets: seq<Assignment> := [];
      var count := 0;
      for i := 0 to |listed|
        invariant updateCache == old(updateCache)
        invariant (sets, count) == Sets(meta, listed[..i], arithmetic)
      {
        assert listed[..i + 1][..i] == listed[..i];
        var field := listed[i];
        var column := meta.columns[field];
        if field != meta.pk {
          if field !in arithmetic {
            sets := sets + [ToParameter(column, count)];
            count := count + 1;
          } else {
            sets := sets + [ToColumn(column, meta.columns[arithmetic[field].field], arithmetic[field].plus)];
          }
        }
      }
      assert listed[..|listed|] == listed;
      sql := Sql(sets, count);
      if arithmetic == map[] {
        updateCache := updateCache[key := sql];
      }
    }

    /** Sends one UPDATE; an unknown field raises before anything is sent or cached. */
    method ExecuteUpdate(instance: Instance, updateFields: Option<seq<string>>)
      returns (sent: Option<(Sql, seq<Value>)>)
      requires Valid()
      modifies this`updateCache
      ensures Valid()
      ensures sent == Uncached(meta, Call(instance, updateFields))
    {
      var listed := meta.Listed(updateFields);
      var arithmetic := ArithmeticOf(meta, listed, instance);
      if !Resolvable(meta, listed, arithmetic) || instance.Get(meta.pk).Computed? {
        return None;
      }
      var values: seq<Value> := [];
      for i := 0 to |listed|
        invariant values == Bound(meta, listed[..i], instance) && Valid()
      {
        assert listed[..i + 1][..i] == listed[..i];
        if listed[i] != meta.pk && instance.Get(listed[i]).Plain? {
          values := values + [instance.Get(listed[i]).v];
        }
      }
      assert listed[..|listed|] == listed;
      values := values + [instance.Get(meta.pk).v];
      var sql := GetUpdateSql(updateFields, arithmetic);
      return Some((sql, values));
    }

    /** A history of updates through one cache: what is sent each time is what a build without any
        cache would have sent. */
    method History(calls: seq<Call>) returns (sent: seq<Option<(Sql, seq<Value>)>>)
      requires Valid()
      modifies this`updateCache
      ensures Valid()
      ensures |sent| == |calls| && forall i :: 0 <= i < |calls| ==> sent[i] == Uncached(meta, calls[i])
    {
      sent := [];
      for i := 0 to |calls|
        invariant Valid() && |sent| == i && forall j :: 0 <= j < i ==> sent[j] == Uncached(meta, calls[j])
      {
        var s := ExecuteUpdate(calls[i].instance, calls[i].updateFields);
        sent := sent + [s];
      }
    }
  }

  datatype Call = Call(instance: Instance, updateFields: Option<seq<string>>)

  function Uncached(m: Meta, c: Call): Option<(Sql, seq<Value>)>
    requires m.Valid()
  {
    var listed := m.Listed(c.updateFields);
    var arithmetic := ArithmeticOf(m, listed, c.instance);
    if !Resolvable(m, listed, arithmetic) || c.instance.Get(m.pk).Computed? then None
    else Some((Build(m, listed, arithmetic), Bound(m, listed, c.instance) + [c.instance.Get(m.pk).v]))
  }

  // ---- What the statement does -----------------------------------------------------------------

  type Row = map<string, Value>

  function Cell(row: Row, column: string): Value {
    if column in row then row[column] else Null
  }

  function Plus(v: Value, n: int): Value {
    if v.Null? then Null else Val(v.n + n)
  }

  /** All right-hand sides are evaluated on the row as it was. */
  function Assign(sets: seq<Assignment>, bound: seq<Value>, before: Row): Row
    requires forall a <- sets :: a.ToParameter? ==> a.k < |bound|
  {
    if sets == [] then before
    else
      var n := |sets| - 1;
      assert sets[n] in sets;
      Assign(sets[..n], bound, before)[sets[n].column := RightHandSide(sets[n], bound, before)]
  }

  function RightHandSide(a: Assignment, bound: seq<Value>, before: Row): Value
    requires a.ToParameter? ==> a.k < |bound|
  {
    match a
    case ToParameter(_, k) => bound[k]
    case ToColumn(_, source, plus) => Plus(Cell(before, source), plus)
  }

  function Run(sql: Sql, bound: seq<Value>, pkColumn: string, rows: seq<Row>): seq<Row>
    requires sql.pkParameter < |bound| && forall a <- sql.sets :: a.ToParameter? ==> a.k < |bound|
  {
    seq(|rows|, i requires 0 <= i < |rows| =>
      if bound[sql.pkParameter] != Null && Cell(rows[i], pkColumn) == bound[sql.pkParameter]
      then Assign(sql.sets, bound, rows[i]) else rows[i])
  }

  /** The value a listed field should get. */
  function Wanted(m: Meta, held: Held, before: Row): Value
    requires m.Valid() && (held.Computed? ==> held.e.field in m.columns)
  {
    match held
    case Plain(v) => v
    case Computed(e) => Plus(Cell(before, m.columns[e.field]), e.plus)
  }

  /** The listed non-key fields that hold plain values, in order. */
  function PlainFields(m: Meta, fields: seq<string>, i: Instance): seq<string> {
    if fields == [] then []
    else
      var n := |fields| - 1;
      PlainFields(m, fields[..n], i) + if fields[n] != m.pk && i.Get(fields[n]).Plain? then [fields[n]] else []
  }

  /** The parameterised assignments of a statement, in order. */
  function Parameterised(sets: seq<Assignment>): seq<Assignment> {
    if sets == [] then []
    else
      var n := |sets| - 1;
      Parameterised(sets[..n]) + if sets[n].ToParameter? then [sets[n]] else []
  }

  ghost predicate Describes(m: Meta, arithmetic: map<string, Arithmetic>, fields: seq<string>, i: Instance) {
    forall f <- fields :: f != m.pk ==>
      (f in arithmetic <==> i.Get(f).Computed?) && (f in arithmetic ==> arithmetic[f] == i.Get(f).e)
  }

  /** Position by position: the k-th bound value, the k-th parameterised column and the k-th plain
      field belong together, and the last bound value is left for the primary-key test. */
  lemma {:induction false} BoundValuesAlign(m: Meta, fields: seq<string>, arithmetic: map<string, Arithmetic>,
                                            i: Instance)
    requires m.Valid() && Resolvable(m, fields, arithmetic) && Describes(m, arithmetic, fields, i)
    ensures var (sets, count) := Sets(m, fields, arithmetic);
            var plain := PlainFields(m, fields, i);
            && count == |Bound(m, fields, i)| == |Parameterised(sets)| == |plain|
            && (forall k :: 0 <= k < count ==> plain[k] in fields && plain[k] in m.columns && i.Get(plain[k]).Plain?)
            && (forall k :: 0 <= k < count ==> Bound(m, fields, i)[k] == i.Get(plain[k]).v)
            && (forall k :: 0 <= k < count ==> Parameterised(sets)[k] == ToParameter(m.columns[plain[k]], k))
            && (forall a <- sets :: a.ToParameter? ==> a.k < count)
  {
    if fields != [] {
      var n := |fields| - 1;
      var f := fields[n];
      assert fields == fields[..n] + [f];
      BoundValuesAlign(m, fields[..n], arithmetic, i);
      var (before, _) := Sets(m, fields[..n], arithmetic);
      var (sets, _) := Sets(m, fields, arithmetic);
      if f != m.pk {
        assert sets == before + [sets[|before|]] && sets[..|before|] == before;
        assert f in fields;
      }
    }
  }

  /** The listed fields exist, and so do those their expressions mention. */
  predicate Usable(m: Meta, fields: seq<string>, i: Instance) {
    forall f <- fields :: f in m.columns && (f != m.pk && i.Get(f).Computed? ==> i.Get(f).e.field in m.columns)
  }

  /** Every listed non-key field has what the instance holds. */
  ghost predicate FieldsSet(m: Meta, fields: seq<string>, i: Instance, before: Row, after: Row)
    requires m.Valid() && Usable(m, fields, i)
  {
    forall f <- fields :: f != m.pk ==>
      m.columns[f] in after && after[m.columns[f]] == Wanted(m, i.Get(f), before)
  }

  /** Every other column is as before. */
  ghost predicate OthersKept(m: Meta, fields: seq<string>, before: Row, after: Row) {
    forall c :: c !in Columns(m, fields) ==> (c in after <==> c in before) && (c in after ==> after[c] == before[c])
  }

  /** The columns of the listed non-key fields. */
  function Columns(m: Meta, fields: seq<string>): set<string> {
    set f | f in fields && f != m.pk && f in m.columns :: m.columns[f]
  }

  ghost predicate IsWritten(m: Meta, fields: seq<string>, i: Instance, before: Row, after: Row)
    requires m.Valid() && Usable(m, fields, i)
  {
    FieldsSet(m, fields, i, before, after) && OthersKept(m, fields, before, after)
  }

  lemma SetOneMore(m: Meta, fields: seq<string>, f: string, i: Instance, before: Row, row: Row)
    requires m.Valid() && Usable(m, fields + [f], i) && f != m.pk && f in fields + [f]
    requires Usable(m, fields, i) && FieldsSet(m, fields, i, before, row)
    ensures FieldsSet(m, fields + [f], i, before, row[m.columns[f] := Wanted(m, i.Get(f), before)])
  {
    var column, after := m.columns[f], row[m.columns[f] := Wanted(m, i.Get(f), before)];
    forall g <- fields + [f] | g != m.pk
      ensures m.columns[g] in after && after[m.columns[g]] == Wanted(m, i.Get(g), before)
    {
      if g != f {
        assert g in fields && m.columns[g] != column;
      }
    }
  }

  lemma KeptOneMore(m: Meta, fields: seq<string>, f: string, before: Row, row: Row, v: Value)
    requires OthersKept(m, fields, before, row) && f in m.columns && f != m.pk
    ensures OthersKept(m, fields + [f], before, row[m.columns[f] := v])
  {
    assert f in fields + [f] && forall g <- fields :: g in fields + [f];
    assert Columns(m, fields) + {m.columns[f]} <= Columns(m, fields + [f]);
  }

  /** The assignment that one more plain or computed field adds, and the value it writes. */
  lemma AddedAssignment(m: Meta, rest: seq<string>, f: string, arithmetic: map<string, Arithmetic>, i: Instance,
                        bound: seq<Value>, before: Row)
    returns (last: Assignment)
    requires m.Valid() && Resolvable(m, rest, arithmetic) && f in m.columns && f != m.pk
    requires Describes(m, arithmetic, rest + [f], i) && f in rest + [f] && Bound(m, rest + [f], i) <= bound
    ensures Resolvable(m, rest + [f], arithmetic)
    ensures Sets(m, rest + [f], arithmetic).0 == Sets(m, rest, arithmetic).0 + [last] && last.column == m.columns[f]
    ensures last.ToParameter? ==> last.k < |bound|
    ensures i.Get(f).Computed? ==> i.Get(f).e.field in m.columns
    ensures RightHandSide(last, bound, before) == Wanted(m, i.Get(f), before)
  {
    assert (rest + [f])[..|rest|] == rest;
    assert forall g <- rest :: g in rest + [f];
    BoundValuesAlign(m, rest, arithmetic, i);
    var (sets, count) := Sets(m, rest, arithmetic);
    last := Sets(m, rest + [f], arithmetic).0[|sets|];
  }

  lemma {:induction false} RowIsWritten(m: Meta, fields: seq<string>, arithmetic: map<string, Arithmetic>, i: Instance,
                                        bound: seq<Value>, before: Row)
    requires m.Valid() && Resolvable(m, fields, arithmetic) && Describes(m, arithmetic, fields, i)
    requires Bound(m, fields, i) <= bound
    requires forall a <- Sets(m, fields, arithmetic).0 :: a.ToParameter? ==> a.k < |bound|
    ensures Usable(m, fields, i)
    ensures IsWritten(m, fields, i, before, Assign(Sets(m, fields, arithmetic).0, bound, before))
  {
    UsableFields(m, fields, arithmetic, i);
    if fields != [] {
      var f, rest := fields[|fields| - 1], fields[..|fields| - 1];
      assert fields == rest + [f] && f in fields && forall g <- rest :: g in fields;
      if f == m.pk {
        RowIsWritten(m, rest, arithmetic, i, bound, before);
        KeyIsSkipped(m, rest, i, before, Assign(Sets(m, rest, arithmetic).0, bound, before));
      } else {
        var last := AddedAssignment(m, rest, f, arithmetic, i, bound, before);
        LastAssignment(Sets(m, rest, arithmetic).0, last, bound, before);
        RowIsWritten(m, rest, arithmetic, i, bound, before);
        var row := Assign(Sets(m, rest, arithmetic).0, bound, before);
        SetOneMore(m, rest, f, i, before, row);
        KeptOneMore(m, rest, f, before, row, Wanted(m, i.Get(f), before));
      }
    }
  }

  lemma UsableFields(m: Meta, fields: seq<string>, arithmetic: map<string, Arithmetic>, i: Instance)
    requires Resolvable(m, fields, arithmetic) && Describes(m, arithmetic, fields, i)
    ensures Usable(m, fields, i)
  {}

  lemma KeyIsSkipped(m: Meta, fields: seq<string>, i: Instance, before: Row, row: Row)
    requires m.Valid() && Usable(m, fields, i) && IsWritten(m, fields, i, before, row)
    ensures Usable(m, fields + [m.pk], i) && IsWritten(m, fields + [m.pk], i, before, row)
  {
    assert forall g :: g in fields + [m.pk] <==> g in fields || g == m.pk;
    assert Columns(m, fields + [m.pk]) == Columns(m, fields);
  }

  lemma LastAssignment(sets: seq<Assignment>, last: Assignment, bound: seq<Value>, before: Row)
    requires forall a <- sets + [last] :: a.ToParameter? ==> a.k < |bound|
    ensures last in sets + [last] && forall a <- sets :: a in sets + [last]
    ensures Assign(sets + [last], bound, before) ==
            Assign(sets, bound, before)[last.column := RightHandSide(last, bound, before)]
  {
    assert (sets + [last])[..|sets|] == sets;
  }

  lemma ArithmeticDescribes(m: Meta, fields: seq<string>, i: Instance)
    ensures Describes(m, ArithmeticOf(m, fields, i), fields, i)
  {}

  /** Executing what `execute_update` sends: the instance's own row gets every listed non-key field,
      plain or computed, and keeps its other columns; all other rows stay as they are. */
  lemma UpdateWritesInstance(m: Meta, c: Call, rows: seq<Row>, r: nat)
    requires m.Valid() && Uncached(m, c).Some? && r < |rows|
    ensures var (sql, bound) := Uncached(m, c).value;
            && sql.pkParameter == |bound| - 1 && (forall a <- sql.sets :: a.ToParameter? ==> a.k < |bound| - 1)
            && var after := Run(sql, bound, m.columns[m.pk], rows)[r];
               if c.instance.Get(m.pk).v == Null || Cell(rows[r], m.columns[m.pk]) != c.instance.Get(m.pk).v
               then after == rows[r]
               else Usable(m, m.Listed(c.updateFields), c.instance)
                    && IsWritten(m, m.Listed(c.updateFields), c.instance, rows[r], after)
  {
    var listed := m.Listed(c.updateFields);
    var arithmetic := ArithmeticOf(m, listed, c.instance);
    var (sql, bound) := Uncached(m, c).value;
    ArithmeticDescribes(m, listed, c.instance);
    BoundValuesAlign(m, listed, arithmetic, c.instance);
    RowIsWritten(m, listed, arithmetic, c.instance, bound, rows[r]);
  }

  /** What a field that is written ends up with: its plain value, or its expression's, evaluated on the row
      as it was. */
  ghost predicate Gets(m: Meta, i: Instance, f: string, before: Row, after: Row)
    requires f in m.columns
  {
    && m.columns[f] in after
    && (f !in i.values ==> after[m.columns[f]] == Null)
    && (f in i.values && i.values[f].Plain? ==> after[m.columns[f]] == i.values[f].v)
    && (f in i.values && i.values[f].Computed? && i.values[f].e.field in m.columns ==>
          var source := m.columns[i.values[f].e.field];
          after[m.columns[f]] == if source in before && before[source].Val?
                                 then Val(before[source].n + i.values[f].e.plus) else Null)
  }

  /** An update writes the fields it is given, or every field when it is given none, and no other column;
      the primary key is never written. */
  lemma WritesWhatIsNamed(m: Meta, i: Instance, u: Option<seq<string>>, rows: seq<Row>, r: nat, f: string)
    requires m.Valid() && Uncached(m, Call(i, u)).Some? && r < |rows| && f in m.columns && f != m.pk
    requires m.pk in i.values && i.values[m.pk].Plain? && i.values[m.pk].v.Val?
    requires m.columns[m.pk] in rows[r] && rows[r][m.columns[m.pk]] == i.values[m.pk].v
    ensures var (sql, bound) := Uncached(m, Call(i, u)).value;
            && sql.pkParameter < |bound| && (forall a <- sql.sets :: a.ToParameter? ==> a.k < |bound|)
            && var after := Run(sql, bound, m.columns[m.pk], rows)[r];
               && m.columns[m.pk] in after && after[m.columns[m.pk]] == i.values[m.pk].v
               && if f in (if u == None || u == Some([]) then m.fields else u.value)
                  then Gets(m, i, f, rows[r], after)
                  else (m.columns[f] in after <==> m.columns[f] in rows[r])
                       && (m.columns[f] in after ==> after[m.columns[f]] == rows[r][m.columns[f]])
  {
    UpdateWritesInstance(m, Call(i, u), rows, r);
    var listed := m.Listed(u);
    assert m.columns[m.pk] !in Columns(m, listed);
    assert f !in listed ==> m.columns[f] !in Columns(m, listed);
  }
}
