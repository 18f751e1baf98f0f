// A many-to-many relation as state: the through table and the containers that change it from either
// side (tortoise/fields/relational.py, ManyToManyRelation; tortoise/__init__.py, the mirrored field
// made by `_init_relations`).
module ManyToMany {
  import opened Common

  type Pk = int
  type Row = map<string, Pk>

  /** A many-to-many field: the through table's column for the owner and for the related object. */
  datatype Field = Field(through: string, backwardKey: string, forwardKey: string)

  /** `_init_relations`: the key naming the owner, unless the model names it itself. */
  function BackwardKey(given: string, table: string, forwardKey: string): string {
    if given != "" then given
    else if table + "_id" == forwardKey then table + "_rel_id"
    else table + "_id"
  }

  /** The field generated on the related model: same table, keys exchanged. */
  function Mirror(f: Field): Field {
    Field(f.through, f.forwardKey, f.backwardKey)
  }

  /** The generated name never collides with the other key, also when a model relates to itself: it is the
      table's `_id` unless that is taken. A name that the model gives is kept. */
  lemma GeneratedKeyIsDistinct(table: string, forwardKey: string, given: string)
    ensures BackwardKey("", table, forwardKey) != forwardKey
    ensures forwardKey != table + "_id" ==> BackwardKey("", table, forwardKey) == table + "_id"
    ensures given != "" ==> BackwardKey(given, table, forwardKey) == given
  {
    assert table + "_id" != table + "_rel_id" by {
      assert |table + "_id"| != |table + "_rel_id"|;
    }
  }

  datatype Instance = Instance(pk: Pk, saved: bool)

  datatype Error = NotSaved | NothingToRemove

  // ---- Reading the table -----------------------------------------------------------------------

  predicate WellFormed(rows: seq<Row>, f: Field) {
    && f.backwardKey != f.forwardKey
    && forall r <- rows :: r.Keys == {f.backwardKey, f.forwardKey}
  }

  predicate NoDuplicates(rows: seq<Row>) {
    forall i, j :: 0 <= i < j < |rows| ==> rows[i] != rows[j]
  }

  /** The relation, as pairs (owner, related) seen from the field's side. */
  function Pairs(rows: seq<Row>, f: Field): set<(Pk, Pk)>
    requires WellFormed(rows, f)
  {
    set r | r in rows :: (r[f.backwardKey], r[f.forwardKey])
  }

  function NewRow(f: Field, owner: Pk, related: Pk): Row {
    map[f.backwardKey := owner, f.forwardKey := related]
  }

  function Pks(instances: seq<Instance>): set<Pk> {
    set i | i in instances :: i.pk
  }

  predicate AllSaved(instances: seq<Instance>) {
    forall i <- instances :: i.saved
  }

  lemma MirrorReads(rows: seq<Row>, f: Field)
    requires WellFormed(rows, f)
    ensures WellFormed(rows, Mirror(f)) && Mirror(Mirror(f)) == f
    ensures Pairs(rows, Mirror(f)) == Converse(Pairs(rows, f))
  {
    forall a, b ensures (b, a) in Pairs(rows, Mirror(f)) <==> (a, b) in Pairs(rows, f) {
      if (a, b) in Pairs(rows, f) {
        var r :| r in rows && (r[f.backwardKey], r[f.forwardKey]) == (a, b);
        assert (r[Mirror(f).backwardKey], r[Mirror(f).forwardKey]) == (b, a);
      }
      if (b, a) in Pairs(rows, Mirror(f)) {
        var r :| r in rows && (r[f.forwardKey], r[f.backwardKey]) == (b, a);
        assert (r[f.backwardKey], r[f.forwardKey]) == (a, b);
      }
    }
  }

  /** A pair is in the relation when some row of the table names it: the owner in the column for owners, the
      related object in the other. */
  lemma PairsAreRows(rows: seq<Row>, f: Field, owner: Pk, related: Pk)
    requires WellFormed(rows, f)
    ensures (owner, related) in Pairs(rows, f)
            <==> exists r <- rows :: r[f.backwardKey] == owner && r[f.forwardKey] == related
  {
    if r :| r in rows && r[f.backwardKey] == owner && r[f.forwardKey] == related {
      assert (r[f.backwardKey], r[f.forwardKey]) in Pairs(rows, f);
    }
  }

  function Converse(rel: set<(Pk, Pk)>): set<(Pk, Pk)> {
    set p | p in rel :: (p.1, p.0)
  }

  lemma ConverseTwice(rel: set<(Pk, Pk)>)
    ensures Converse(Converse(rel)) == rel
  {
    forall p ensures p in Converse(Converse(rel)) <==> p in rel {
      if p in rel {
        assert (p.1, p.0) in Converse(rel);
      }
    }
  }

  lemma RowIsPair(rows: seq<Row>, f: Field, owner: Pk, related: Pk)
    requires WellFormed(rows, f)
    ensures NewRow(f, owner, related) in rows <==> (owner, related) in Pairs(rows, f)
  {
    var row := NewRow(f, owner, related);
    if row in rows {
      assert (row[f.backwardKey], row[f.forwardKey]) == (owner, related);
    }
    if (owner, related) in Pairs(rows, f) {
      var r :| r in rows && (r[f.backwardKey], r[f.forwardKey]) == (owner, related);
      assert r == row;
    }
  }

  // ---- The container ---------------------------------------------------------------------------

  class ThroughTable {
    var rows: seq<Row>

    constructor ()
      ensures rows == []
    {
      rows := [];
    }

    /** SELECT forward FROM through WHERE backward = owner AND forward IN pks. */
    method SelectForward(f: Field, owner: Pk, pks: seq<Pk>) returns (found: set<Pk>)
      requires WellFormed(rows, f)
      ensures found == set p | p in pks && (owner, p) in Pairs(rows, f)
    {
      found := {};
      for i := 0 to |rows|
        invariant found == set p | p in pks && (owner, p) in Pairs(rows[..i], f)
      {
        assert rows[..i + 1] == rows[..i] + [rows[i]];
        assert Pairs(rows[..i + 1], f) == Pairs(rows[..i], f) + {(rows[i][f.backwardKey], rows[i][f.forwardKey])} by {
          PairsAppend(rows[..i], rows[i], f);
        }
        if rows[i][f.backwardKey] == owner && rows[i][f.forwardKey] in pks {
          found := found + {rows[i][f.forwardKey]};
        }
      }
      assert rows[..|rows|] == rows;
    }

    /** `add`: pairs already there are left alone. */
    method Add(f: Field, owner: Instance, instances: seq<Instance>) returns (r: Result<(), Error>)
      requires WellFormed(rows, f) && NoDuplicates(rows)
      modifies this
      ensures WellFormed(rows, f) && NoDuplicates(rows) && old(rows) <= rows
      ensures r.Ok? <==> instances == [] || (owner.saved && AllSaved(instances))
      ensures r.Err? ==> rows == old(rows)
      ensures r.Ok? ==> Pairs(rows, f) == Pairs(old(rows), f) + set p | p in Pks(instances) :: (owner.pk, p)
    {
      if instances == [] {
        return Ok(());
      }
      if !owner.saved {
        return Err(NotSaved);
      }
      var pks: seq<Pk> := [];
      for i := 0 to |instances|
        invariant rows == old(rows) && AllSaved(instances[..i])
        invariant (set p | p in pks) == Pks(instances[..i])
      {
        assert instances[..i + 1] == instances[..i] + [instances[i]];
        PksAppend(instances[..i], instances[i]);
        if !instances[i].saved {
          return Err(NotSaved);
        }
        pks := pks + [instances[i].pk];
      }
      assert instances[..|instances|] == instances;
      var existing := SelectForward(f, owner.pk, pks);
      Insert(f, owner.pk, (set p | p in pks) - existing);
      return Ok(());
    }

    /** INSERT of one row per related key, in whatever order the set gives them. */
    method Insert(f: Field, owner: Pk, pks: set<Pk>)
      requires WellFormed(rows, f) && NoDuplicates(rows) && forall p <- pks :: (owner, p) !in Pairs(rows, f)
      modifies this
      ensures WellFormed(rows, f) && NoDuplicates(rows) && old(rows) <= rows
      ensures Pairs(rows, f) == Pairs(old(rows), f) + set p | p in pks :: (owner, p)
    {
      var left := pks;
      while left != {}
        invariant WellFormed(rows, f) && NoDuplicates(rows) && old(rows) <= rows && left <= pks
        invariant Pairs(rows, f) == Pairs(old(rows), f) + set p | p in pks - left :: (owner, p)
        decreases |left|
      {
        ghost var some := Member(left);
        var p :| p in left;
        RowIsPair(rows, f, owner, p);
        PairsAppend(rows, NewRow(f, owner, p), f);
        assert pks - (left - {p}) == (pks - left) + {p};
        left := left - {p};
        rows := rows + [NewRow(f, owner, p)];
      }
      assert pks - left == pks;
    }

    /** `_remove_or_clear`: DELETE of the owner's rows, all of them or those of the given objects. */
    method RemoveOrClear(f: Field, owner: Pk, instances: Option<seq<Instance>>)
      requires WellFormed(rows, f) && NoDuplicates(rows)
      modifies this
      ensures WellFormed(rows, f) && NoDuplicates(rows)
      ensures Pairs(rows, f) == set p | p in Pairs(old(rows), f)
                                        && !(p.0 == owner && (instances.None? || p.1 in Pks(instances.value)))
    {
      var kept: seq<Row> := [];
      for i := 0 to |rows|
        invariant rows == old(rows) && KeptFrom(f, owner, instances, rows[..i], kept)
      {
        assert rows[..i + 1] == rows[..i] + [rows[i]] && rows[i] !in rows[..i];
        KeptOneMore(f, owner, instances, rows[..i], kept, rows[i]);
        if !Deleted(owner, instances, rows[i][f.backwardKey], rows[i][f.forwardKey]) {
          kept := kept + [rows[i]];
        }
      }
      assert rows[..|rows|] == rows;
      rows := kept;
    }

    method Remove(f: Field, owner: Pk, instances: seq<Instance>) returns (r: Result<(), Error>)
      requires WellFormed(rows, f) && NoDuplicates(rows)
      modifies this
      ensures WellFormed(rows, f) && NoDuplicates(rows)
      ensures r.Ok? <==> instances != []
      ensures r.Err? ==> rows == old(rows)
      ensures r.Ok? ==> Pairs(rows, f) == set p | p in Pairs(old(rows), f) && !(p.0 == owner && p.1 in Pks(instances))
    {
      if instances == [] {
        return Err(NothingToRemove);
      }
      RemoveOrClear(f, owner, Some(instances));
      return Ok(());
    }

    /** Any one call on a container of either side. */
    method Execute(f: Field, op: Op) returns (r: Result<(), Error>)
      requires WellFormed(rows, f) && NoDuplicates(rows)
      modifies this
      ensures WellFormed(rows, f) && NoDuplicates(rows)
      ensures Pairs(rows, f) == Apply(Pairs(old(rows), f), op)
      ensures r.Err? <==> Fails(op)
    {
      var g := if op.mirrored then Mirror(f) else f;
      MirrorReads(rows, f);
      ghost var before := Pairs(rows, g);
      match op.kind {
        case Add => r := Add(g, op.owner, op.instances);
        case Remove => r := Remove(g, op.owner.pk, op.instances);
        case Clear =>
          RemoveOrClear(g, op.owner.pk, None);
          r := Ok(());
      }
      assert Pairs(rows, g) == ApplyHere(before, op);
      MirrorReads(rows, g);
      ConverseTwice(Pairs(old(rows), f));
    }

    /** A run of calls, in any order and from either side; failing calls are caught. */
    method Run(f: Field, ops: seq<Op>)
      requires WellFormed(rows, f) && NoDuplicates(rows)
      modifies this
      ensures WellFormed(rows, f) && NoDuplicates(rows)
      ensures Pairs(rows, f) == ApplyAll(Pairs(old(rows), f), ops)
    {
      for i := 0 to |ops|
        invariant WellFormed(rows, f) && NoDuplicates(rows)
        invariant Pairs(rows, f) == ApplyAll(Pairs(old(rows), f), ops[..i])
      {
        assert ops[..i + 1][..i] == ops[..i];
        var _ := Execute(f, ops[i]);
      }
      assert ops[..|ops|] == ops;
    }

    /** The related objects of one instance, as a container of its side returns them. */
    method Fetch(f: Field, owner: Pk) returns (related: seq<Pk>)
      requires WellFormed(rows, f) && NoDuplicates(rows)
      ensures forall p :: p in related <==> (owner, p) in Pairs(rows, f)
      ensures forall i, j :: 0 <= i < j < |related| ==> related[i] != related[j]
    {
      related := [];
      for i := 0 to |rows|
        invariant forall p :: p in related <==> (owner, p) in Pairs(rows[..i], f)
        invariant forall j, k :: 0 <= j < k < |related| ==> related[j] != related[k]
      {
        var row := rows[i];
        assert rows[..i + 1] == rows[..i] + [row];
        PairsAppend(rows[..i], row, f);
        if row[f.backwardKey] == owner {
          RowIsPair(rows[..i], f, owner, row[f.forwardKey]);
          assert row == NewRow(f, owner, row[f.forwardKey]) && row !in rows[..i];
          related := related + [row[f.forwardKey]];
        }
      }
      assert rows[..|rows|] == rows;
    }
  }

  /** The DELETE applies to this pair. */
  predicate Deleted(owner: Pk, instances: Option<seq<Instance>>, a: Pk, b: Pk) {
    a == owner && (instances.None? || b in Pks(instances.value))
  }

  ghost predicate KeptFrom(f: Field, owner: Pk, instances: Option<seq<Instance>>, rows: seq<Row>, kept: seq<Row>) {
    && WellFormed(rows, f) && WellFormed(kept, f) && NoDuplicates(kept) && (forall r <- kept :: r in rows)
    && Pairs(kept, f) == set p | p in Pairs(rows, f) && !Deleted(owner, instances, p.0, p.1)
  }

  lemma KeptOneMore(f: Field, owner: Pk, instances: Option<seq<Instance>>, rows: seq<Row>, kept: seq<Row>, row: Row)
    requires KeptFrom(f, owner, instances, rows, kept) && row.Keys == {f.backwardKey, f.forwardKey} && row !in rows
    ensures var gone := Deleted(owner, instances, row[f.backwardKey], row[f.forwardKey]);
            KeptFrom(f, owner, instances, rows + [row], if gone then kept else kept + [row])
  {
    PairsAppend(rows, row, f);
    PairsAppend(kept, row, f);
  }

  lemma PksAppend(instances: seq<Instance>, i: Instance)
    ensures Pks(instances + [i]) == Pks(instances) + {i.pk}
  {
    assert i in instances + [i];
    assert forall j <- instances :: j in instances + [i];
  }

  lemma PairsAppend(rows: seq<Row>, row: Row, f: Field)
    requires WellFormed(rows, f) && row.Keys == {f.backwardKey, f.forwardKey}
    ensures WellFormed(rows + [row], f)
    ensures Pairs(rows + [row], f) == Pairs(rows, f) + {(row[f.backwardKey], row[f.forwardKey])}
  {
    var all := rows + [row];
    assert forall r :: r in all <==> r in rows || r == row;
    assert row in all;
  }

  // ---- The plain set model ---------------------------------------------------------------------

  datatype Kind = Add | Remove | Clear

  /** `mirrored`: called on a container of the related model. */
  datatype Op = Op(mirrored: bool, kind: Kind, owner: Instance, instances: seq<Instance>)

  predicate Fails(op: Op) {
    match op.kind
    case Add => op.instances != [] && !(op.owner.saved && AllSaved(op.instances))
    case Remove => op.instances == []
    case Clear => false
  }

  /** The operation on a set of (owner, related) pairs, seen from the side it is called on. */
  function ApplyHere(rel: set<(Pk, Pk)>, op: Op): set<(Pk, Pk)> {
    if Fails(op) then rel
    else match op.kind
      case Add => rel + set p | p in Pks(op.instances) :: (op.owner.pk, p)
      case Remove => set p | p in rel && !(p.0 == op.owner.pk && p.1 in Pks(op.instances))
      case Clear => set p | p in rel && p.0 != op.owner.pk
  }

  function Apply(rel: set<(Pk, Pk)>, op: Op): set<(Pk, Pk)> {
    if op.mirrored then Converse(ApplyHere(Converse(rel), op)) else ApplyHere(rel, op)
  }

  function ApplyAll(rel: set<(Pk, Pk)>, ops: seq<Op>): set<(Pk, Pk)> {
    if ops == [] then rel else Apply(ApplyAll(rel, ops[..|ops| - 1]), ops[|ops| - 1])
  }

  function Related(rel: set<(Pk, Pk)>, a: Pk): set<Pk> {
    set p | p in rel && p.0 == a :: p.1
  }

  /** The owner's related objects after the call. */
  function Changed(related: set<Pk>, op: Op): set<Pk> {
    match op.kind
    case Add => related + Pks(op.instances)
    case Remove => related - Pks(op.instances)
    case Clear => {}
  }

  /** The relation as the side sees it on which the call is made, or as the other side sees it. */
  function Seen(rel: set<(Pk, Pk)>, mirrored: bool): set<(Pk, Pk)> {
    if mirrored then Converse(rel) else rel
  }

  /** What the call does to an object of the other side: it gains or loses the owner. */
  function ChangedBack(owners: set<Pk>, op: Op, b: Pk): set<Pk> {
    match op.kind
    case Add => if b in Pks(op.instances) then owners + {op.owner.pk} else owners
    case Remove => if b in Pks(op.instances) then owners - {op.owner.pk} else owners
    case Clear => owners - {op.owner.pk}
  }

  lemma InConverse(rel: set<(Pk, Pk)>, a: Pk, b: Pk)
    ensures (b, a) in Converse(rel) <==> (a, b) in rel
  {
    if (a, b) in rel {
      assert ((a, b).1, (a, b).0) in Converse(rel);
    }
  }

  lemma InRelated(rel: set<(Pk, Pk)>, a: Pk, b: Pk)
    ensures b in Related(rel, a) <==> (a, b) in rel
  {
    if b in Related(rel, a) {
      var p :| p in rel && p.0 == a && p.1 == b;
      assert p == (a, b);
    }
  }

  lemma ApplyIsSeen(rel: set<(Pk, Pk)>, op: Op, a: Pk, b: Pk)
    requires !Fails(op)
    ensures (a, b) in Seen(Apply(rel, op), op.mirrored) <==>
            match op.kind
            case Add => (a, b) in Seen(rel, op.mirrored) || (a == op.owner.pk && b in Pks(op.instances))
            case Remove => (a, b) in Seen(rel, op.mirrored) && !(a == op.owner.pk && b in Pks(op.instances))
            case Clear => (a, b) in Seen(rel, op.mirrored) && a != op.owner.pk
  {
    ConverseTwice(ApplyHere(Converse(rel), op));
  }

  /** The set model, said per instance and from both sides, wherever the call is made: it changes the
      related objects of its owner, by exactly those named, and of no other object of that side; on the
      other side exactly the objects named gain or lose the owner. */
  lemma SetModelIsPerOwner(rel: set<(Pk, Pk)>, op: Op, a: Pk)
    requires !Fails(op)
    ensures var here, here' := Seen(rel, op.mirrored), Seen(Apply(rel, op), op.mirrored);
            && Related(here', a) == (if a == op.owner.pk then Changed(Related(here, a), op) else Related(here, a))
            && Related(Converse(here'), a) == ChangedBack(Related(Converse(here), a), op, a)
  {
    var here, here' := Seen(rel, op.mirrored), Seen(Apply(rel, op), op.mirrored);
    forall b
      ensures b in Related(here', a) <==>
              b in (if a == op.owner.pk then Changed(Related(here, a), op) else Related(here, a))
    {
      ApplyIsSeen(rel, op, a, b);
      InRelated(here', a, b);
      InRelated(here, a, b);
    }
    forall b ensures b in Related(Converse(here'), a) <==> b in ChangedBack(Related(Converse(here), a), op, a) {
      ApplyIsSeen(rel, op, b, a);
      InRelated(Converse(here'), a, b);
      InRelated(Converse(here), a, b);
      InConverse(here', b, a);
      InConverse(here, b, a);
    }
  }

  /** The two fields of a relation always read converse relations from the table. */
  lemma SidesAgree(rows: seq<Row>, f: Field, a: Pk, b: Pk)
    requires WellFormed(rows, f)
    ensures WellFormed(rows, Mirror(f))
    ensures b in Related(Pairs(rows, f), a) <==> a in Related(Pairs(rows, Mirror(f)), b)
  {
    MirrorReads(rows, f);
    InRelated(Pairs(rows, f), a, b);
    InRelated(Pairs(rows, Mirror(f)), b, a);
    InConverse(Pairs(rows, f), a, b);
  }

  /** Each of the objects removes the owner, from its own side. */
  function Removals(owner: Instance, others: seq<Instance>): seq<Op> {
    seq(|others|, i requires 0 <= i < |others| => Op(true, Remove, others[i], [owner]))
  }

  lemma RemovalTakesOut(rel: set<(Pk, Pk)>, owner: Instance, other: Instance)
    ensures Apply(rel, Op(true, Remove, other, [owner])) == rel - {(owner.pk, other.pk)}
  {
    var op := Op(true, Remove, other, [owner]);
    assert Pks([owner]) == {owner.pk};
    forall a, b ensures (a, b) in Apply(rel, op) <==> (a, b) in rel && (a, b) != (owner.pk, other.pk) {
      ApplyIsSeen(rel, op, b, a);
      InConverse(rel, a, b);
      InConverse(Apply(rel, op), a, b);
    }
    assert forall p :: p in Apply(rel, op) <==> p in rel - {(owner.pk, other.pk)} by {
      forall p ensures p in Apply(rel, op) <==> p in rel - {(owner.pk, other.pk)} {
        assert p == (p.0, p.1);
      }
    }
  }

  lemma {:induction false} RemovalsTakeOut(rel: set<(Pk, Pk)>, owner: Instance, others: seq<Instance>)
    ensures ApplyAll(rel, Removals(owner, others)) == rel - set p | p in Pks(others) :: (owner.pk, p)
  {
    if others != [] {
      var n := |others| - 1;
      RemovalsTakeOut(rel, owner, others[..n]);
      assert Removals(owner, others)[..n] == Removals(owner, others[..n]);
      RemovalTakesOut(ApplyAll(rel, Removals(owner, others[..n])), owner, others[n]);
      PksAppend(others[..n], others[n]);
      assert others == others[..n] + [others[n]];
    } else {
      assert Pks(others) == {};
    }
  }

  /** What one side adds the other side can remove: when the owner had none of the objects, adding them
      and then having each of them remove the owner leaves nothing behind. */
  lemma RemoveUndoesAdd(rel: set<(Pk, Pk)>, owner: Instance, others: seq<Instance>)
    requires owner.saved && AllSaved(others) && forall p <- Pks(others) :: (owner.pk, p) !in rel
    ensures ApplyAll(Apply(rel, Op(false, Add, owner, others)), Removals(owner, others)) == rel
  {
    RemovalsTakeOut(Apply(rel, Op(false, Add, owner, others)), owner, others);
  }
}
