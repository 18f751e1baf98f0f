// `select_related` along relations of any kind: the query records how many columns belong to which
// related object, and the executor cuts each flat row up again (tortoise/queryset.py,
// `_make_query` and `_join_table_with_select_related`; tortoise/backends/base/executor.py,
// `execute_select`).
module SelectRelated {
  import opened Common

  type Model = string
  type Path = seq<string>

  datatype Schema = Schema(widths: map<Model, nat>, relations: map<Model, map<string, Model>>) {
    predicate Valid() {
      && relations.Keys == widths.Keys
      && forall m <- relations, f <- relations[m] :: relations[m][f] in widths
    }

    /** The model at the end of a path of relations. */
    function At(model: Model, path: Path): (r: Option<Model>)
      requires Valid()
      ensures r.Some? ==> r.value in widths
      decreases |path|
    {
      if model !in widths then None
      else if path == [] then Some(model)
      else if path[0] in relations[model] then At(relations[model][path[0]], path[1..])
      else None
    }
  }

  /** An entry of `_select_related_idx`: whose columns come next, and how many there are. */
  datatype Entry = Entry(path: Path, count: nat)

  /** A selected column: the table alias, which spells out the path, and the column's position. */
  datatype Name = Name(path: Path, column: nat)

  // ---- Building the query ----------------------------------------------------------------------

  class Query {
    var entries: seq<Entry>
    var selects: seq<Name>

    constructor (width: nat)
      ensures entries == [Entry([], width)] && selects == Block(Entry([], width))
    {
      entries, selects := [Entry([], width)], Block(Entry([], width));
    }

    /** `_join_table_with_select_related`: one relation, then what is forwarded behind it. */
    method Join(s: Schema, model: Model, forwarded: Path, path: Path) returns (ok: bool)
      requires s.Valid() && forwarded != []
      modifies this
      ensures ok <==> s.At(model, forwarded).Some?
      ensures ok ==> Grown(old(entries), entries, old(selects), selects, EntriesOf(s, model, forwarded, path))
      decreases |forwarded|
    {
      var field := forwarded[0];
      if model !in s.widths || field !in s.relations[model] {
        return false;
      }
      var related := s.relations[model][field];
      var item := Entry(path + [field], s.widths[related]);
      EntriesStep(s, model, forwarded, path, entries);
      if item !in entries {
        entries := entries + [item];
      }
      selects := selects + Block(item);
      if |forwarded| > 1 {
        ok := Join(s, related, forwarded[1..], path + [field]);
        ghost var rest := Blocks(EntriesOf(s, related, forwarded[1..], path + [field]));
        assert old(selects) + Block(item) + rest == old(selects) + (Block(item) + rest);
      } else {
        assert forwarded[1..] == [];
        assert old(selects) + Block(item) + [] == old(selects) + (Block(item) + []);
        ok := true;
      }
    }

    /** The `select_related` part of `_make_query`. */
    method AddAll(s: Schema, model: Model, paths: seq<Path>) returns (ok: bool)
      requires s.Valid()
      modifies this
      ensures ok <==> AllResolve(s, model, paths, |paths|)
      ensures ok ==> Grown(old(entries), entries, old(selects), selects, Requested(s, model, paths))
    {
      for i := 0 to |paths|
        invariant AllResolve(s, model, paths, i)
        invariant Grown(old(entries), entries, old(selects), selects, Requested(s, model, paths[..i]))
      {
        ghost var mid, midColumns := entries, selects;
        var joined := paths[i] != [];
        if joined {
          joined := Join(s, model, paths[i], []);
        }
        if !joined {
          assert !Resolves(s, model, paths[i]);
          return false;
        }
        RequestedStep(s, model, paths, i, old(entries), mid, entries, old(selects), midColumns, selects);
      }
      assert paths[..|paths|] == paths;
      return true;
    }
  }

  /** The entries are recorded unless they are already there; their columns are selected anyway. */
  predicate Grown(had: seq<Entry>, entries: seq<Entry>, columns: seq<Name>, selects: seq<Name>, more: seq<Entry>) {
    entries == AddNew(had, more) && selects == columns + Blocks(more)
  }

  predicate AllResolve(s: Schema, model: Model, paths: seq<Path>, n: nat)
    requires s.Valid() && n <= |paths|
  {
    forall k :: 0 <= k < n ==> Resolves(s, model, paths[k])
  }

  predicate Resolves(s: Schema, model: Model, path: Path)
    requires s.Valid()
  {
    path != [] && s.At(model, path).Some?
  }

  /** The entries of one path, outermost first. */
  function EntriesOf(s: Schema, model: Model, forwarded: Path, path: Path): seq<Entry>
    requires s.Valid()
    decreases |forwarded|
  {
    if forwarded == [] || model !in s.widths || forwarded[0] !in s.relations[model] then []
    else
      var related := s.relations[model][forwarded[0]];
      [Entry(path + [forwarded[0]], s.widths[related])]
      + EntriesOf(s, related, forwarded[1..], path + [forwarded[0]])
  }

  /** The entries of all paths, in the order in which their columns are selected; shared prefixes
      come up again for every path. */
  function Requested(s: Schema, model: Model, paths: seq<Path>): seq<Entry>
    requires s.Valid()
  {
    if paths == [] then []
    else
      var n := |paths| - 1;
      Requested(s, model, paths[..n]) + EntriesOf(s, model, paths[n], [])
  }

  function AddNew<T(==)>(have: seq<T>, items: seq<T>): seq<T> {
    if items == [] then have
    else
      var n := |items| - 1;
      var sofar := AddNew(have, items[..n]);
      if items[n] in sofar then sofar else sofar + [items[n]]
  }

  function Block(e: Entry): seq<Name> {
    seq(e.count, i requires 0 <= i => Name(e.path, i))
  }

  function Blocks(es: seq<Entry>): seq<Name> {
    if es == [] then [] else Blocks(es[..|es| - 1]) + Block(es[|es| - 1])
  }

  lemma {:induction false} AddNewAppend<T>(have: seq<T>, a: seq<T>, b: seq<T>)
    ensures AddNew(have, a + b) == AddNew(AddNew(have, a), b)
  {
    if b == [] {
      assert a + b == a;
    } else {
      assert (a + b)[..|a + b| - 1] == a + b[..|b| - 1];
      AddNewAppend(have, a, b[..|b| - 1]);
    }
  }

  lemma {:induction false} BlocksAppend(a: seq<Entry>, b: seq<Entry>)
    ensures Blocks(a + b) == Blocks(a) + Blocks(b)
  {
    if b == [] {
      assert a + b == a;
    } else {
      assert (a + b)[..|a + b| - 1] == a + b[..|b| - 1];
      BlocksAppend(a, b[..|b| - 1]);
      assert Blocks(a) + (Blocks(b[..|b| - 1]) + Block(b[|b| - 1])) == Blocks(a) + Blocks(b);
    }
  }

  lemma Single<T>(have: seq<T>, x: T)
    ensures AddNew(have, [x]) == if x in have then have else have + [x]
  {
    assert [x][..0] == [];
  }

  lemma SingleBlock(e: Entry)
    ensures Blocks([e]) == Block(e)
  {
    assert [e][..0] == [];
    assert [] + Block(e) == Block(e);
  }

  lemma EntriesStep(s: Schema, model: Model, forwarded: Path, path: Path, have: seq<Entry>)
    requires s.Valid() && forwarded != [] && model in s.widths && forwarded[0] in s.relations[model]
    ensures var related := s.relations[model][forwarded[0]];
            var item := Entry(path + [forwarded[0]], s.widths[related]);
            var rest := EntriesOf(s, related, forwarded[1..], path + [forwarded[0]]);
            && AddNew(have, EntriesOf(s, model, forwarded, path))
               == AddNew(if item in have then have else have + [item], rest)
            && Blocks(EntriesOf(s, model, forwarded, path)) == Block(item) + Blocks(rest)
  {
    var related := s.relations[model][forwarded[0]];
    var item := Entry(path + [forwarded[0]], s.widths[related]);
    var rest := EntriesOf(s, related, forwarded[1..], path + [forwarded[0]]);
    Single(have, item);
    SingleBlock(item);
    AddNewAppend(have, [item], rest);
    BlocksAppend([item], rest);
  }

  lemma RequestedStep(s: Schema, model: Model, paths: seq<Path>, i: nat, had: seq<Entry>, mid: seq<Entry>,
                      now: seq<Entry>, columns: seq<Name>, midColumns: seq<Name>, nowColumns: seq<Name>)
    requires s.Valid() && i < |paths|
    requires Grown(had, mid, columns, midColumns, Requested(s, model, paths[..i]))
    requires Grown(mid, now, midColumns, nowColumns, EntriesOf(s, model, paths[i], []))
    ensures Grown(had, now, columns, nowColumns, Requested(s, model, paths[..i + 1]))
  {
    var before, more := Requested(s, model, paths[..i]), EntriesOf(s, model, paths[i], []);
    assert paths[..i + 1][..i] == paths[..i];
    AddNewAppend(had, before, more);
    BlocksAppend(before, more);
    assert columns + Blocks(before) + Blocks(more) == columns + (Blocks(before) + Blocks(more));
  }

  // ---- The recorded entries tile the row -------------------------------------------------------

  lemma {:induction false} AddNewHas<T>(have: seq<T>, items: seq<T>)
    ensures forall x :: x in AddNew(have, items) <==> x in have || x in items
    ensures have <= AddNew(have, items)
    ensures Distinct(have) ==> Distinct(AddNew(have, items))
  {
    if items != [] {
      var n := |items| - 1;
      AddNewHas(have, items[..n]);
      assert items == items[..n] + [items[n]];
    }
  }

  /** Two entries for the same path record the same number of columns. */
  ghost predicate Consistent(es: seq<Entry>) {
    forall a <- es, b <- es :: a.path == b.path ==> a == b
  }

  lemma {:induction false} InBlocks(es: seq<Entry>, n: Name)
    ensures n in Blocks(es) <==> exists e <- es :: n.path == e.path && n.column < e.count
  {
    if es != [] {
      var k := |es| - 1;
      InBlocks(es[..k], n);
      assert es == es[..k] + [es[k]];
      InBlock(es[k], n);
    }
  }

  lemma InBlock(e: Entry, n: Name)
    ensures n in Block(e) <==> n.path == e.path && n.column < e.count
  {
    if n.path == e.path && n.column < e.count {
      assert Block(e)[n.column] == n;
    }
  }

  lemma {:induction false} AddNewNone<T>(have: seq<T>, items: seq<T>)
    requires forall x <- items :: x in have
    ensures AddNew(have, items) == have
  {
    if items != [] {
      assert items[|items| - 1] in items && forall x <- items[..|items| - 1] :: x in items;
      AddNewNone(have, items[..|items| - 1]);
    }
  }

  lemma {:induction false} AddNewAll<T>(have: seq<T>, items: seq<T>)
    requires Distinct(items) && forall x <- items :: x !in have
    ensures AddNew(have, items) == have + items
  {
    if items != [] {
      var n := |items| - 1;
      assert items[n] in items && forall x <- items[..n] :: x in items;
      AddNewAll(have, items[..n]);
      assert items[n] !in items[..n];
      assert have + items == have + items[..n] + [items[n]];
    }
  }

  /** The database returns each column name once, at its first place: what remains of the selected
      columns is, block by block, what the recorded entries count. */
  lemma {:induction false} EntriesTileRow(have: seq<Entry>, more: seq<Entry>)
    requires Consistent(have + more)
    ensures AddNew(Blocks(have), Blocks(more)) == Blocks(AddNew(have, more))
  {
    if more == [] {
    } else {
      var n := |more| - 1;
      var e, rest := more[n], more[..n];
      var now := AddNew(have, rest);
      assert forall x <- have + rest :: x in have + more;
      assert e in have + more;
      EntriesTileRow(have, rest);
      AddNewHas(have, rest);
      AddNewAppend(Blocks(have), Blocks(rest), Block(e));
      if e in now {
        forall x <- Block(e) ensures x in Blocks(now) {
          InBlock(e, x);
          InBlocks(now, x);
        }
        AddNewNone(Blocks(now), Block(e));
      } else {
        forall x <- Block(e) ensures x !in Blocks(now) {
          InBlock(e, x);
          InBlocks(now, x);
          assert forall y <- now :: y in have + more;
        }
        AddNewAll(Blocks(now), Block(e));
        BlocksAppend(now, [e]);
        SingleBlock(e);
      }
    }
  }

  /** Every entry of the list but the first has its parent's entry somewhere before it. */
  ghost predicate ParentsFirst(es: seq<Entry>) {
    forall i :: 0 < i < |es| ==> ParentBefore(es, i)
  }

  ghost predicate ParentBefore(es: seq<Entry>, i: nat)
    requires i < |es|
  {
    es[i].path != [] && exists j :: 0 <= j < i && es[j].path == Parent(es[i].path)
  }

  ghost predicate Occurs(es: seq<Entry>, path: Path) {
    exists e <- es :: e.path == path
  }

  function Parent(p: Path): Path {
    if p == [] then [] else p[..|p| - 1]
  }

  lemma ParentsFirstGrows(es: seq<Entry>, e: Entry)
    requires ParentsFirst(es) && e.path != [] && Occurs(es, Parent(e.path))
    ensures ParentsFirst(es + [e])
  {
    var now := es + [e];
    forall i | 0 < i < |now| ensures ParentBefore(now, i) {
      if i < |es| {
        assert ParentBefore(es, i);
        var j :| 0 <= j < i && es[j].path == Parent(es[i].path);
        assert now[j] == es[j];
      } else {
        var j :| 0 <= j < |es| && es[j].path == Parent(e.path);
        assert now[j] == es[j];
      }
    }
  }

  /** The entry that the path's prefix of length `n` stands for. */
  function EntryAt(s: Schema, model: Model, path: Path): Entry
    requires s.Valid() && s.At(model, path).Some?
  {
    Entry(path, s.widths[s.At(model, path).value])
  }

  lemma {:induction false} AtPrefix(s: Schema, model: Model, path: Path, field: string)
    requires s.Valid()
    ensures s.At(model, path + [field]) ==
            match s.At(model, path)
            case None => None
            case Some(m) => if field in s.relations[m] then Some(s.relations[m][field]) else None
    decreases |path|
  {
    if path == [] {
      assert ([field])[1..] == [] && [] + [field] == [field];
    } else {
      assert (path + [field])[1..] == path[1..] + [field];
      if model in s.widths && path[0] in s.relations[model] {
        AtPrefix(s, s.relations[model][path[0]], path[1..], field);
      }
    }
  }

  /** Adding the entries of one path behind a prefix that is already there: the list stays ordered
      and every entry's path determines its count. */
  lemma {:induction false} AddChain(s: Schema, base: Model, model: Model, forwarded: Path, path: Path, have: seq<Entry>)
    requires s.Valid() && s.At(base, path) == Some(model)
    requires ParentsFirst(have) && have != [] && Typed(s, base, have) && Occurs(have, path)
    ensures ParentsFirst(AddNew(have, EntriesOf(s, model, forwarded, path)))
    ensures Typed(s, base, EntriesOf(s, model, forwarded, path))
    decreases |forwarded|
  {
    if forwarded != [] && forwarded[0] in s.relations[model] {
      var related, next := s.relations[model][forwarded[0]], path + [forwarded[0]];
      var item := Entry(next, s.widths[related]);
      AtPrefix(s, base, path, forwarded[0]);
      EntriesStep(s, model, forwarded, path, have);
      var now := if item in have then have else have + [item];
      assert Occurs(now, next) by {
        assert item in now;
      }
      assert Parent(next) == path;
      if item !in have {
        ParentsFirstGrows(have, item);
      }
      AddChain(s, base, related, forwarded[1..], next, now);
    }
  }

  /** An entry's path determines its count. */
  ghost predicate Typed(s: Schema, model: Model, es: seq<Entry>)
    requires s.Valid()
  {
    forall e <- es :: s.At(model, e.path).Some? && e == EntryAt(s, model, e.path)
  }

  /** Each parent entry precedes its children. */
  lemma {:induction false} ParentsComeFirst(s: Schema, model: Model, paths: seq<Path>)
    requires s.Valid() && model in s.widths
    ensures ParentsFirst(AddNew([Entry([], s.widths[model])], Requested(s, model, paths)))
    ensures Typed(s, model, [Entry([], s.widths[model])] + Requested(s, model, paths))
  {
    if paths != [] {
      var n := |paths| - 1;
      ParentsComeFirst(s, model, paths[..n]);
      var base := Entry([], s.widths[model]);
      var before := Requested(s, model, paths[..n]);
      AddNewHas([base], before);
      AddNewAppend([base], before, EntriesOf(s, model, paths[n], []));
      assert Occurs(AddNew([base], before), []) by {
        assert base in AddNew([base], before);
      }
      AddChain(s, model, model, paths[n], [], AddNew([base], before));
    }
  }

  /** A path's entries stand for its non-empty prefixes, shortest first. */
  lemma {:induction false} EntriesArePrefixes(s: Schema, model: Model, forwarded: Path, path: Path)
    requires s.Valid() && s.At(model, forwarded).Some?
    ensures |EntriesOf(s, model, forwarded, path)| == |forwarded|
    ensures forall k :: 0 <= k < |forwarded| ==>
              EntriesOf(s, model, forwarded, path)[k].path == path + forwarded[..k + 1]
    decreases |forwarded|
  {
    if forwarded != [] {
      var related, rest := s.relations[model][forwarded[0]], forwarded[1..];
      EntriesArePrefixes(s, related, rest, path + [forwarded[0]]);
      forall k | 0 <= k < |forwarded|
        ensures EntriesOf(s, model, forwarded, path)[k].path == path + forwarded[..k + 1]
      {
        if k > 0 {
          assert path + [forwarded[0]] + rest[..k] == path + forwarded[..k + 1];
        } else {
          assert forwarded[..1] == [forwarded[0]];
        }
      }
    }
  }

  /** `path` is a non-empty prefix of a requested path. */
  ghost predicate Asked(paths: seq<Path>, path: Path) {
    path != [] && exists p <- paths :: path <= p
  }

  lemma OnePathAsked(s: Schema, model: Model, p: Path, path: Path)
    requires s.Valid() && Resolves(s, model, p)
    ensures Occurs(EntriesOf(s, model, p, []), path) <==> path != [] && path <= p
  {
    var es := EntriesOf(s, model, p, []);
    EntriesArePrefixes(s, model, p, []);
    forall k | 0 <= k < |p| ensures es[k].path == p[..k + 1] {
      assert [] + p[..k + 1] == p[..k + 1];
    }
    if path != [] && path <= p {
      assert es[|path| - 1] in es && es[|path| - 1].path == path;
    }
  }

  lemma OccursAppend(a: seq<Entry>, b: seq<Entry>, path: Path)
    ensures Occurs(a + b, path) <==> Occurs(a, path) || Occurs(b, path)
  {
    if e :| e in a && e.path == path {
      assert e in a + b;
    }
    if e :| e in b && e.path == path {
      assert e in a + b;
    }
  }

  lemma AskedAppend(paths: seq<Path>, p: Path, path: Path)
    ensures Asked(paths + [p], path) <==> Asked(paths, path) || (path != [] && path <= p)
  {
    var all := paths + [p];
    assert all[|paths|] == p && p in all;
    if path != [] && exists x <- paths :: path <= x {
      var x :| x in paths && path <= x;
      assert x in all;
    }
  }

  lemma {:induction false} RequestedCovers(s: Schema, model: Model, paths: seq<Path>, path: Path)
    requires s.Valid() && model in s.widths && AllResolve(s, model, paths, |paths|)
    ensures Occurs(Requested(s, model, paths), path) <==> Asked(paths, path)
  {
    if paths != [] {
      var n := |paths| - 1;
      assert AllResolve(s, model, paths[..n], n) && Resolves(s, model, paths[n]);
      RequestedCovers(s, model, paths[..n], path);
      OnePathAsked(s, model, paths[n], path);
      OccursAppend(Requested(s, model, paths[..n]), EntriesOf(s, model, paths[n], []), path);
      AskedAppend(paths[..n], paths[n], path);
      assert paths == paths[..n] + [paths[n]];
    }
  }

  /** The recorded entries are the model's own and those of every non-empty prefix of a requested path. */
  lemma EntriesCoverPaths(s: Schema, model: Model, paths: seq<Path>, path: Path)
    requires s.Valid() && model in s.widths && AllResolve(s, model, paths, |paths|)
    ensures Occurs(AddNew([Entry([], s.widths[model])], Requested(s, model, paths)), path)
            <==> path == [] || Asked(paths, path)
  {
    var base, more := Entry([], s.widths[model]), Requested(s, model, paths);
    RequestedCovers(s, model, paths, path);
    AddNewHas([base], more);
    OccursAppend([base], more, path);
    assert forall e :: e in AddNew([base], more) <==> e in [base] + more;
  }

  // ---- Cutting up a row ------------------------------------------------------------------------

  /** The data behind one combined row of the joins: per path, the columns of the row there, or nothing. */
  type World = map<Path, Option<seq<Value>>>

  /** The outer joins give the columns of a row that is there, and NULLs for one that is not. */
  function ValueOf(w: World, n: Name): Value {
    if n.path in w && w[n.path].Some? && n.column < |w[n.path].value| then w[n.path].value[n.column] else Null
  }

  function Values(w: World, names: seq<Name>): seq<Value> {
    seq(|names|, i requires 0 <= i < |names| => ValueOf(w, names[i]))
  }

  function Cells(w: World, e: Entry): seq<Value> {
    Values(w, Block(e))
  }

  /** The columns of a row keyed by name, each name at its first place. */
  function DictItems(names: seq<Name>): seq<Name> {
    AddNew([], names)
  }

  /** A row counts as present when one of its columns is truthy. */
  predicate Visible(w: World, e: Entry) {
    e.path == [] || exists v <- Cells(w, e) :: Truthy(v)
  }

  class Instance {
    const columns: seq<Value>
    var links: map<string, Instance?>

    constructor (columns: seq<Value>)
      ensures this.columns == columns && links == map[]
    {
      this.columns := columns;
      links := map[];
    }
  }

  ghost predicate PathsDistinct(es: seq<Entry>) {
    forall i, j :: 0 <= i < j < |es| ==> es[i].path != es[j].path
  }

  /** There is one instance per visible row, holding its columns. */
  ghost predicate OnePerRow(objects: map<Path, Instance>, w: World, es: seq<Entry>) {
    && (forall e <- es :: e.path in objects <==> Visible(w, e))
    && (forall e <- es :: e.path in objects ==> objects[e.path].columns == Cells(w, e))
    && (forall p <- objects :: Occurs(es, p))
  }

  ghost predicate Injective(objects: map<Path, Instance>) {
    forall p <- objects, q <- objects :: objects[p] == objects[q] ==> p == q
  }

  function Lookup(objects: map<Path, Instance>, p: Path): Instance? {
    if p in objects then objects[p] else null
  }

  type Links = map<Path, map<string, Instance?>>

  /** What each instance currently links to. */
  function LinksOf(objects: map<Path, Instance>): Links
    reads objects.Values
  {
    map p | p in objects :: objects[p].links
  }

  predicate Attached(objects: map<Path, Instance>, links: Links, p: Path) {
    p != [] && Parent(p) in links ==>
      p[|p| - 1] in links[Parent(p)] && links[Parent(p)][p[|p| - 1]] == Lookup(objects, p)
  }

  /** A parent's instance links to what was made for each child entry, and to nothing else. */
  ghost predicate Linked(objects: map<Path, Instance>, links: Links, es: seq<Entry>) {
    && links.Keys == objects.Keys
    && (forall e <- es :: Attached(objects, links, e.path))
    && (forall p <- links, f <- links[p] :: Occurs(es, p + [f]))
  }

  lemma BlocksSlice(es: seq<Entry>, i: nat)
    requires i < |es|
    ensures var from := |Blocks(es[..i])|;
            && |Blocks(es[..i + 1])| == from + es[i].count <= |Blocks(es)|
            && Blocks(es)[from..from + es[i].count] == Block(es[i])
  {
    assert es[..i + 1][..i] == es[..i];
    assert es == es[..i + 1] + es[i + 1..];
    BlocksAppend(es[..i + 1], es[i + 1..]);
  }

  ghost predicate NextEntry(es: seq<Entry>, e: Entry) {
    es != [] && es[0].path == [] && ParentsFirst(es) && e.path != [] && !Occurs(es, e.path)
  }

  lemma NoChildYet(es: seq<Entry>, e: Entry)
    requires NextEntry(es, e)
    ensures forall x <- es :: x.path != [] ==> Parent(x.path) != e.path
  {
    forall x <- es | x.path != [] ensures Parent(x.path) != e.path {
      var i :| 0 <= i < |es| && es[i] == x;
      assert i > 0 && ParentBefore(es, i);
    }
  }

  function WithChild(links: Links, p: Path, obj: Instance?): Links
    requires p != []
  {
    if Parent(p) in links then links[Parent(p) := links[Parent(p)][p[|p| - 1] := obj]] else links
  }

  function ObjectsNow(objects: map<Path, Instance>, p: Path, obj: Instance?): map<Path, Instance> {
    if obj == null then objects else objects[p := obj]
  }

  function LinksNow(links: Links, p: Path, obj: Instance?): Links
    requires p != []
  {
    if obj == null then WithChild(links, p, obj) else WithChild(links, p, obj)[p := map[]]
  }

  lemma StaysAttached(objects: map<Path, Instance>, links: Links, x: Path, p: Path, obj: Instance?)
    requires p != [] && x != p && (x != [] ==> Parent(x) != p) && p !in links
    requires Attached(objects, links, x)
    ensures Attached(ObjectsNow(objects, p, obj), LinksNow(links, p, obj), x)
  {
    assert x != [] ==> x == Parent(x) + [x[|x| - 1]];
    assert p == Parent(p) + [p[|p| - 1]];
  }

  lemma BecomesAttached(objects: map<Path, Instance>, links: Links, p: Path, obj: Instance?)
    requires p != [] && p !in objects
    ensures Attached(ObjectsNow(objects, p, obj), LinksNow(links, p, obj), p)
  {
    assert |Parent(p)| < |p|;
  }

  lemma NoStrayLink(links: Links, es: seq<Entry>, e: Entry, obj: Instance?, p: Path, f: string)
    requires e.path != [] && forall q <- links, g <- links[q] :: Occurs(es, q + [g])
    requires p in LinksNow(links, e.path, obj) && f in LinksNow(links, e.path, obj)[p]
    ensures Occurs(es + [e], p + [f])
  {
    if p in links && f in links[p] {
      assert Occurs(es, p + [f]);
    } else {
      assert e.path == p + [f];
      assert e in es + [e];
    }
  }

  lemma LinkedGrows(objects: map<Path, Instance>, links: Links, es: seq<Entry>, e: Entry, obj: Instance?)
    requires Linked(objects, links, es) && NextEntry(es, e) && e.path !in objects && e.path != []
    ensures Linked(ObjectsNow(objects, e.path, obj), LinksNow(links, e.path, obj), es + [e])
  {
    NoChildYet(es, e);
    forall x <- es + [e]
      ensures Attached(ObjectsNow(objects, e.path, obj), LinksNow(links, e.path, obj), x.path)
    {
      if x == e {
        BecomesAttached(objects, links, e.path, obj);
      } else {
        assert x in es;
        StaysAttached(objects, links, x.path, e.path, obj);
      }
    }
    forall p <- LinksNow(links, e.path, obj), f <- LinksNow(links, e.path, obj)[p]
      ensures Occurs(es + [e], p + [f])
    {
      NoStrayLink(links, es, e, obj, p, f);
    }
  }

  lemma OnePerRowGrows(objects: map<Path, Instance>, w: World, es: seq<Entry>, e: Entry, obj: Instance?)
    requires OnePerRow(objects, w, es) && !Occurs(es, e.path) && e.path != []
    requires obj != null <==> exists v <- Cells(w, e) :: Truthy(v)
    requires obj != null ==> obj.columns == Cells(w, e)
    ensures OnePerRow(ObjectsNow(objects, e.path, obj), w, es + [e])
    ensures e.path !in objects
  {
    var now := ObjectsNow(objects, e.path, obj);
    forall p <- now ensures Occurs(es + [e], p) {
      if p == e.path {
        assert e in es + [e];
      } else {
        assert Occurs(es, p);
      }
    }
  }

  ghost predicate Built(objects: map<Path, Instance>, links: Links, w: World, es: seq<Entry>) {
    OnePerRow(objects, w, es) && Injective(objects) && Linked(objects, links, es)
  }

  lemma BuiltGrows(objects: map<Path, Instance>, links: Links, w: World, es: seq<Entry>, e: Entry, obj: Instance?)
    requires Built(objects, links, w, es) && NextEntry(es, e) && obj !in objects.Values
    requires obj != null <==> exists v <- Cells(w, e) :: Truthy(v)
    requires obj != null ==> obj.columns == Cells(w, e)
    ensures e.path != []
    ensures Built(ObjectsNow(objects, e.path, obj), LinksNow(links, e.path, obj), w, es + [e])
    ensures e.path !in objects
  {
    NoChildYet(es, e);
    OnePerRowGrows(objects, w, es, e, obj);
    LinkedGrows(objects, links, es, e, obj);
  }

  lemma StartsBuilt(w: World, es: seq<Entry>, o: Instance)
    requires es != [] && es[0].path == [] && o.columns == Cells(w, es[0])
    ensures Built(map[[] := o], map[[] := map[]], w, es[..1])
  {
    assert es[..1] == [es[0]];
    assert es[0] in es[..1] && Occurs(es[..1], []);
  }

  lemma CutRow(w: World, es: seq<Entry>, i: nat)
    requires i < |es|
    ensures var from, row := |Blocks(es[..i])|, Values(w, Blocks(es));
            && |Blocks(es[..i + 1])| == from + es[i].count <= |row|
            && row[from..from + es[i].count] == Cells(w, es[i])
  {
    BlocksSlice(es, i);
    var from := |Blocks(es[..i])|;
    assert forall k :: 0 <= k < es[i].count ==> Blocks(es)[from..from + es[i].count][k] == Block(es[i])[k];
  }

  lemma NextInList(es: seq<Entry>, i: nat)
    requires 0 < i < |es| && es[0].path == [] && PathsDistinct(es) && ParentsFirst(es)
    ensures es[..i] + [es[i]] == es[..i + 1]
    ensures NextEntry(es[..i], es[i])
  {
    var upTo := es[..i];
    forall k | 0 < k < i ensures ParentBefore(upTo, k) {
      assert ParentBefore(es, k);
      var j :| 0 <= j < k && es[j].path == Parent(es[k].path);
      assert upTo[j] == es[j];
    }
  }

  /** One turn of the loop over the recorded entries: the instance, or None, is attached to its
      parent when the parent has one. */
  method Attach(objects: map<Path, Instance>, e: Entry, items: seq<Value>)
    returns (now: map<Path, Instance>, obj: Instance?)
    requires e.path != [] && e.path !in objects && Injective(objects)
    modifies objects.Values`links
    ensures obj != null <==> exists v <- items :: Truthy(v)
    ensures obj != null ==> fresh(obj) && obj.columns == items
    ensures now == ObjectsNow(objects, e.path, obj)
    ensures LinksOf(now) == LinksNow(old(LinksOf(objects)), e.path, obj)
  {
    obj := null;
    if exists v <- items :: Truthy(v) {
      obj := new Instance(items);
    }
    var parent, attr := e.path[..|e.path| - 1], e.path[|e.path| - 1];
    if parent in objects {
      objects[parent].links := objects[parent].links[attr := obj];
    }
    assert LinksOf(objects) == WithChild(old(LinksOf(objects)), e.path, obj);
    now := if obj != null then objects[e.path := obj] else objects;
  }

  method Turn(ghost w: World, ghost es: seq<Entry>, objects: map<Path, Instance>, e: Entry, items: seq<Value>)
    returns (now: map<Path, Instance>)
    requires Built(objects, LinksOf(objects), w, es) && NextEntry(es, e) && items == Cells(w, e)
    modifies objects.Values`links
    ensures Built(now, LinksOf(now), w, es + [e])
    ensures forall p <- objects :: p in now && now[p] == objects[p]
    ensures fresh(now.Values - objects.Values)
  {
    ghost var links := LinksOf(objects);
    var obj;
    now, obj := Attach(objects, e, items);
    BuiltGrows(objects, links, w, es, e, obj);
  }

  ghost predicate EntriesOk(es: seq<Entry>) {
    es != [] && es[0].path == [] && PathsDistinct(es) && ParentsFirst(es)
  }

  /** The first `i` entries are done. */
  ghost predicate BuiltUpTo(objects: map<Path, Instance>, links: Links, w: World, es: seq<Entry>, i: nat)
    requires i <= |es|
  {
    Built(objects, links, w, es[..i])
  }

  /** The columns of the first `i` entries. */
  ghost function Passed(es: seq<Entry>, i: nat): nat
    requires i <= |es|
  {
    |Blocks(es[..i])|
  }

  method TurnAt(ghost w: World, es: seq<Entry>, i: nat, objects: map<Path, Instance>, row: seq<Value>, current: nat)
    returns (now: map<Path, Instance>)
    requires EntriesOk(es) && 0 < i < |es| && row == Values(w, Blocks(es)) && current == Passed(es, i)
    requires BuiltUpTo(objects, LinksOf(objects), w, es, i)
    modifies objects.Values`links
    ensures BuiltUpTo(now, LinksOf(now), w, es, i + 1) && Passed(es, i + 1) == current + es[i].count
    ensures forall p <- objects :: p in now && now[p] == objects[p]
    ensures fresh(now.Values - objects.Values)
  {
    CutRow(w, es, i);
    NextInList(es, i);
    now := Turn(w, es[..i], objects, es[i], row[current..current + es[i].count]);
  }

  method BaseInstance(ghost w: World, es: seq<Entry>, row: seq<Value>)
    returns (instance: Instance, objects: map<Path, Instance>)
    requires EntriesOk(es) && row == Values(w, Blocks(es))
    ensures BuiltUpTo(objects, LinksOf(objects), w, es, 1) && Passed(es, 1) == es[0].count
    ensures objects == map[[] := instance] && fresh(instance)
  {
    CutRow(w, es, 0);
    assert Blocks(es[..0]) == [];
    instance := new Instance(row[..es[0].count]);
    objects := map[[] := instance];
    assert row[..es[0].count] == row[0..es[0].count];
    StartsBuilt(w, es, instance);
    assert LinksOf(objects) == map[[] := map[]];
  }

  lemma WholeList(objects: map<Path, Instance>, links: Links, w: World, es: seq<Entry>)
    requires BuiltUpTo(objects, links, w, es, |es|)
    ensures Built(objects, links, w, es)
  {
    assert es[..|es|] == es;
  }

  /** The loop of `execute_select` over the recorded entries. */
  method BuildInstance(ghost w: World, es: seq<Entry>, row: seq<Value>)
    returns (instance: Instance, objects: map<Path, Instance>)
    requires EntriesOk(es) && row == Values(w, Blocks(es))
    ensures Built(objects, LinksOf(objects), w, es) && [] in objects && objects[[]] == instance
    ensures fresh(objects.Values)
  {
    instance, objects := BaseInstance(w, es, row);
    var current := es[0].count;
    for i := 1 to |es|
      invariant current == Passed(es, i)
      invariant BuiltUpTo(objects, LinksOf(objects), w, es, i)
      invariant [] in objects && objects[[]] == instance && fresh(objects.Values)
    {
      objects := TurnAt(w, es, i, objects, row, current);
      current := current + es[i].count;
    }
    WholeList(objects, LinksOf(objects), w, es);
  }

  /** A query for related objects, and one combined row of its result: the instance with everything
      attached to it, or nothing when a requested path is not one of relations. */
  method Execute(s: Schema, model: Model, paths: seq<Path>, w: World)
    returns (instance: Instance?, es: seq<Entry>, objects: map<Path, Instance>)
    requires s.Valid() && model in s.widths
    ensures instance != null <==> AllResolve(s, model, paths, |paths|)
    ensures instance != null ==>
              && es == AddNew([Entry([], s.widths[model])], Requested(s, model, paths))
              && EntriesOk(es) && Typed(s, model, es)
              && Built(objects, LinksOf(objects), w, es) && [] in objects && objects[[]] == instance
  {
    var query := new Query(s.widths[model]);
    var ok := query.AddAll(s, model, paths);
    es := query.entries;
    if !ok {
      return null, es, map[];
    }
    TilesWholeRow(s, model, paths);
    instance, objects := BuildInstance(w, es, Values(w, DictItems(query.selects)));
  }

  lemma TypedConsistent(s: Schema, model: Model, es: seq<Entry>)
    requires s.Valid() && Typed(s, model, es)
    ensures Consistent(es)
    ensures Distinct(es) ==> PathsDistinct(es)
  {
    forall a <- es, b <- es | a.path == b.path ensures a == b {
      assert a == EntryAt(s, model, a.path) && b == EntryAt(s, model, b.path);
    }
    if Distinct(es) {
      forall i, j | 0 <= i < j < |es| ensures es[i].path != es[j].path {
        assert es[i] in es && es[j] in es;
      }
    }
  }

  lemma DictItemsOfBlocks(base: Entry, more: seq<Entry>)
    requires Consistent([base] + more)
    ensures DictItems(Block(base) + Blocks(more)) == Blocks(AddNew([base], more))
  {
    SingleBlock(base);
    EntriesTileRow([base], more);
    AddNewAppend([], Block(base), Blocks(more));
    AddNewAll([], Block(base));
  }

  /** Once duplicate names are gone, the selected columns are the blocks of the recorded entries. */
  lemma TilesWholeRow(s: Schema, model: Model, paths: seq<Path>)
    requires s.Valid() && model in s.widths
    ensures var base := Entry([], s.widths[model]);
            var es := AddNew([base], Requested(s, model, paths));
            && DictItems(Block(base) + Blocks(Requested(s, model, paths))) == Blocks(es)
            && EntriesOk(es) && Typed(s, model, es)
  {
    var base, more := Entry([], s.widths[model]), Requested(s, model, paths);
    var es := AddNew([base], more);
    ParentsComeFirst(s, model, paths);
    AddNewHas([base], more);
    assert Typed(s, model, es) by {
      assert forall e <- es :: e in [base] + more;
    }
    TypedConsistent(s, model, [base] + more);
    TypedConsistent(s, model, es);
    DictItemsOfBlocks(base, more);
  }

  // ---- What the caller finds behind the instance -----------------------------------------------

  /** Follows attributes from the row's instance. */
  function Follow(all: set<Instance>, root: Instance, p: Path): Instance?
    reads all
    decreases |p|
  {
    if p == [] then root
    else
      var parent := Follow(all, root, Parent(p));
      if parent == null || parent !in all || p[|p| - 1] !in parent.links then null
      else parent.links[p[|p| - 1]]
  }

  ghost predicate AllMade(objects: map<Path, Instance>, p: Path)
    decreases |p|
  {
    p in objects && (p != [] ==> AllMade(objects, Parent(p)))
  }

  lemma {:induction false} FollowFinds(objects: map<Path, Instance>, w: World, es: seq<Entry>, i: nat)
    requires Built(objects, LinksOf(objects), w, es) && EntriesOk(es) && [] in objects && i < |es|
    ensures Follow(objects.Values, objects[[]], es[i].path)
            == if AllMade(objects, es[i].path) then objects[es[i].path] else null
    decreases i
  {
    var p := es[i].path;
    if i > 0 {
      assert ParentBefore(es, i);
      var j :| 0 <= j < i && es[j].path == Parent(p);
      FollowFinds(objects, w, es, j);
      assert es[i] in es && Attached(objects, LinksOf(objects), p);
    }
  }

  /** What stands in a combined row: a row is there only if its parent is, with all its columns. */
  ghost predicate WorldOk(w: World, es: seq<Entry>) {
    && [] in w && w[[]].Some?
    && (forall e <- es :: e.path in w && (w[e.path].Some? ==> |w[e.path].value| == e.count))
    && (forall p <- w :: p != [] && w[p].Some? ==> Parent(p) in w && w[Parent(p)].Some?)
  }

  ghost predicate SomeTruthy(w: World, p: Path)
    requires p in w && w[p].Some?
  {
    p == [] || exists v <- w[p].value :: Truthy(v)
  }

  lemma CellsOfRow(w: World, e: Entry)
    requires e.path in w && (w[e.path].Some? ==> |w[e.path].value| == e.count)
    ensures w[e.path].Some? ==> Cells(w, e) == w[e.path].value
    ensures w[e.path].None? ==> forall v <- Cells(w, e) :: v == Null
  {
  }

  lemma MadeIsVisible(objects: map<Path, Instance>, w: World, es: seq<Entry>, e: Entry)
    requires OnePerRow(objects, w, es) && WorldOk(w, es) && e in es
    ensures e.path in objects <==> w[e.path].Some? && SomeTruthy(w, e.path)
    ensures e.path in objects ==> objects[e.path].columns == w[e.path].value
  {
    CellsOfRow(w, e);
  }

  /** The caller finds at an entry's path the row that is there, or None when there is none. */
  ghost predicate FindsRow(objects: map<Path, Instance>, w: World, e: Entry)
    requires [] in objects && e.path in w
    reads objects.Values
  {
    var found := Follow(objects.Values, objects[[]], e.path);
    if w[e.path].None? then found == null else found != null && found.columns == w[e.path].value
  }

  lemma {:induction false} VisibleIsMade(objects: map<Path, Instance>, w: World, es: seq<Entry>, i: nat)
    requires OnePerRow(objects, w, es) && EntriesOk(es) && WorldOk(w, es) && i < |es|
    requires w[es[i].path].Some? && forall e <- es :: w[e.path].Some? ==> SomeTruthy(w, e.path)
    ensures AllMade(objects, es[i].path)
    decreases i
  {
    assert es[i] in es;
    MadeIsVisible(objects, w, es, es[i]);
    if i > 0 {
      assert ParentBefore(es, i);
      var j :| 0 <= j < i && es[j].path == Parent(es[i].path);
      VisibleIsMade(objects, w, es, j);
    }
  }

  /** The rebuilt object tree is the original one, null branches included, exactly when every
      related row that is there has a truthy column. */
  lemma RebuildsExactlyTruthyRows(objects: map<Path, Instance>, w: World, es: seq<Entry>)
    requires Built(objects, LinksOf(objects), w, es) && EntriesOk(es) && [] in objects && WorldOk(w, es)
    ensures (forall e <- es :: FindsRow(objects, w, e))
            <==> (forall e <- es :: w[e.path].Some? ==> SomeTruthy(w, e.path))
  {
    if forall e <- es :: w[e.path].Some? ==> SomeTruthy(w, e.path) {
      forall e <- es ensures FindsRow(objects, w, e) {
        var i :| 0 <= i < |es| && es[i] == e;
        FollowFinds(objects, w, es, i);
        MadeIsVisible(objects, w, es, e);
        if w[e.path].Some? {
          VisibleIsMade(objects, w, es, i);
        }
      }
    }
    if forall e <- es :: FindsRow(objects, w, e) {
      forall e <- es | w[e.path].Some? ensures SomeTruthy(w, e.path) {
        assert FindsRow(objects, w, e);
        var i :| 0 <= i < |es| && es[i] == e;
        FollowFinds(objects, w, es, i);
        MadeIsVisible(objects, w, es, e);
      }
    }
  }

  /** A related row with key 0 and nothing else truthy comes back as None. */
  lemma FalsyRowIsLost(objects: map<Path, Instance>, w: World, es: seq<Entry>)
    requires es == [Entry([], 1), Entry(["parent"], 1)]
    requires w == map[[] := Some([Val(1)]), ["parent"] := Some([Val(0)])]
    requires Built(objects, LinksOf(objects), w, es) && EntriesOk(es) && [] in objects
    ensures w[["parent"]].Some? && Follow(objects.Values, objects[[]], ["parent"]) == null
  {
    FollowFinds(objects, w, es, 1);
    assert es[1] in es && !Visible(w, es[1]);
  }
}
