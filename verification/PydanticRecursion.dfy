// Schema generation over a model graph that may be cyclic: `pydantic_model_creator` descends into
// related models, guarded by `_pydantic_recursion_protector`
// (tortoise/contrib/pydantic/creator.py).
module PydanticRecursion {
  import opened Common

  type Model = string

  /** A relation field and the model it leads to. */
  datatype Field = Field(name: string, target: Model)

  /** An entry of `include` or `exclude`, split at its dots: a field, or something below it. */
  type Entry = seq<string>

  /** The `include` and `exclude` of one call. */
  datatype Filter = Filter(including: set<Entry>, excluding: set<Entry>)

  /** Per model: its relation fields, and the settings of its PydanticMeta. */
  datatype Graph = Graph(fields: map<Model, seq<Field>>, maxRecursion: map<Model, int>, allowCycles: map<Model, bool>,
                         filters: map<Model, Filter>)
  {
    ghost predicate Valid() {
      && maxRecursion.Keys == fields.Keys == allowCycles.Keys == filters.Keys
      && (forall m <- fields, f <- fields[m] :: f.target in fields)
      && (forall m <- fields :: NamesDistinct(fields[m]))
    }
  }

  ghost predicate NamesDistinct(fs: seq<Field>) {
    forall i, j :: 0 <= i < j < |fs| ==> fs[i].name != fs[j].name
  }

  /** A level of the stack: the model being generated, the field descended into, and the model's own
      `max_recursion`. */
  datatype Frame = Frame(cls: Model, field: string, maxRecursion: int)

  datatype Schema = Schema(cls: Model, properties: seq<Property>)
  datatype Property = Property(name: string, schema: Schema)

  // ---- The guard -------------------------------------------------------------------------------

  /** The first frame's own limit is never looked at. */
  predicate WithinLimits(stack: seq<Frame>) {
    forall i :: 1 <= i < |stack| ==> i < stack[i].maxRecursion
  }

  /** The model occurs above its direct parent. */
  predicate Repeats(cls: Model, stack: seq<Frame>) {
    exists i :: 0 <= i < |stack| - 1 && stack[i].cls == cls
  }

  predicate Admitted(cls: Model, stack: seq<Frame>, allowCycles: bool) {
    (allowCycles || !Repeats(cls, stack)) && WithinLimits(stack)
  }

  /** One more than any level at which a descent is still allowed. */
  ghost function Bound(limits: map<Model, int>): (b: int)
    ensures b >= 1 && forall m <- limits :: limits[m] <= b
    ensures b == 1 || exists m <- limits :: limits[m] == b
    decreases |limits|
  {
    if limits == map[] then 1
    else
      var m :| m in limits;
      assert |limits - {m}| < |limits| by {
        assert (limits - {m}).Keys == limits.Keys - {m};
        assert |limits.Keys - {m}| == |limits.Keys| - 1;
      }
      var b := Bound(limits - {m});
      assert forall k <- limits :: k == m || (k in limits - {m} && (limits - {m})[k] == limits[k]);
      if limits[m] > b then limits[m] else b
  }

  ghost predicate StackOk(g: Graph, stack: seq<Frame>) {
    && (forall f <- stack :: f.cls in g.maxRecursion && f.maxRecursion == g.maxRecursion[f.cls])
    && WithinLimits(stack)
  }

  lemma StackBounded(g: Graph, stack: seq<Frame>)
    requires StackOk(g, stack)
    ensures |stack| <= Bound(g.maxRecursion)
  {
    if |stack| >= 2 {
      assert stack[|stack| - 1] in stack;
    }
  }

  // ---- Which fields are taken ------------------------------------------------------------------

  /** The call's own entries and the defaults of the model. */
  function Here(g: Graph, cls: Model, sel: Filter): Filter {
    if cls !in g.filters then sel
    else
      var defaults := g.filters[cls];
      Filter(sel.including + defaults.including, sel.excluding + defaults.excluding)
  }

  predicate Keeps(here: Filter, name: string) {
    (here.including == {} || [name] in here.including) && [name] !in here.excluding
  }

  /** The entries that reach below a field, without its name. */
  function Below(entries: set<Entry>, name: string): set<Entry> {
    set e | e in entries && |e| >= 2 && e[0] == name :: e[1..]
  }

  function Sub(g: Graph, cls: Model, sel: Filter, name: string): Filter {
    Filter(Below(Here(g, cls, sel).including, name), Below(Here(g, cls, sel).excluding, name))
  }

  function Pushed(g: Graph, cls: Model, stack: seq<Frame>, f: Field): seq<Frame>
    requires cls in g.maxRecursion
  {
    stack + [Frame(cls, f.name, g.maxRecursion[cls])]
  }

  // ---- The schema that is generated ------------------------------------------------------------

  ghost function Create(g: Graph, cls: Model, stack: seq<Frame>, allowCycles: bool, sel: Filter): Schema
    requires g.Valid() && cls in g.fields && StackOk(g, stack)
    decreases Bound(g.maxRecursion) - |stack|, |g.fields[cls]| + 1
  {
    StackBounded(g, stack);
    Schema(cls, Properties(g, cls, stack, allowCycles, sel, |g.fields[cls]|))
  }

  /** The properties for the first `n` relation fields: the fields that are taken and whose models are
      admitted. */
  ghost function Properties(g: Graph, cls: Model, stack: seq<Frame>, allowCycles: bool, sel: Filter, n: nat):
    seq<Property>
    requires g.Valid() && cls in g.fields && StackOk(g, stack) && n <= |g.fields[cls]|
    decreases Bound(g.maxRecursion) - |stack|, n
  {
    if n == 0 then []
    else
      var f := g.fields[cls][n - 1];
      var now := Pushed(g, cls, stack, f);
      StackBounded(g, stack);
      Properties(g, cls, stack, allowCycles, sel, n - 1)
      + if Keeps(Here(g, cls, sel), f.name) && Admitted(f.target, now, allowCycles)
        then (StackBounded(g, now); [Property(f.name, Create(g, f.target, now, allowCycles, Sub(g, cls, sel, f.name)))])
        else []
  }

  method Protector(g: Graph, cls: Model, stack: seq<Frame>, allowCycles: bool, sel: Filter)
    returns (schema: Option<Schema>)
    requires g.Valid() && cls in g.fields && stack != []
    requires forall f <- stack :: f.cls in g.maxRecursion && f.maxRecursion == g.maxRecursion[f.cls]
    requires |stack| <= Bound(g.maxRecursion) + 1
    ensures schema == if Admitted(cls, stack, allowCycles) then Some(Create(g, cls, stack, allowCycles, sel)) else None
    decreases Bound(g.maxRecursion) + 1 - |stack|, 0
  {
    if !allowCycles && exists c <- stack[..|stack| - 1] :: c.cls == cls {
      assert Repeats(cls, stack);
      return None;
    }
    var level := 1;
    for i := 1 to |stack|
      invariant level == i && WithinLimits(stack[..i])
    {
      if level >= stack[i].maxRecursion {
        return None;
      }
      level := level + 1;
    }
    assert stack[..|stack|] == stack;
    StackBounded(g, stack);
    var created := CreateModel(g, cls, stack, Some(allowCycles), sel);
    return Some(created);
  }

  method CreateModel(g: Graph, cls: Model, stack: seq<Frame>, allowCycles: Option<bool>, sel: Filter)
    returns (schema: Schema)
    requires g.Valid() && cls in g.fields && StackOk(g, stack)
    ensures schema == Create(g, cls, stack, if allowCycles.Some? then allowCycles.value else g.allowCycles[cls], sel)
    decreases Bound(g.maxRecursion) - |stack|, 1
  {
    StackBounded(g, stack);
    var allow := if allowCycles.Some? then allowCycles.value else g.allowCycles[cls];
    var properties: seq<Property> := [];
    for i := 0 to |g.fields[cls]|
      invariant properties == Properties(g, cls, stack, allow, sel, i)
    {
      var f := g.fields[cls][i];
      if Keeps(Here(g, cls, sel), f.name) {
        var submodel := Protector(g, f.target, Pushed(g, cls, stack, f), allow, Sub(g, cls, sel, f.name));
        if submodel.Some? {
          properties := properties + [Property(f.name, submodel.value)];
        }
      }
    }
    return Schema(cls, properties);
  }

  // ---- Which chains of fields end up in the schema ---------------------------------------------

  /** Descending along the path leads to a schema of model `end`. */
  ghost predicate Nests(s: Schema, path: seq<string>, end: Model)
    decreases |path|
  {
    if path == [] then s.cls == end
    else exists p <- s.properties :: p.name == path[0] && Nests(p.schema, path[1..], end)
  }

  /** The path names relation fields that exist, one after the other. */
  predicate IsPath(g: Graph, cls: Model, path: seq<string>)
    decreases |path|
  {
    path == [] ||
    (cls in g.fields && exists f <- g.fields[cls] :: f.name == path[0] && IsPath(g, f.target, path[1..]))
  }

  function Step(g: Graph, cls: Model, name: string): (m: Model) {
    if cls in g.fields && exists f <- g.fields[cls] :: f.name == name
    then Find(g.fields[cls], name).target else cls
  }

  function Find(fs: seq<Field>, name: string): (f: Field)
    requires exists f <- fs :: f.name == name
    ensures f in fs && f.name == name
  {
    if fs[0].name == name then fs[0]
    else
      assert exists f <- fs[1..] :: f.name == name by {
        var f :| f in fs && f.name == name;
        assert f in fs[1..];
      }
      Find(fs[1..], name)
  }

  /** The models met along a path, the starting model first. */
  function Along(g: Graph, cls: Model, path: seq<string>): (ms: seq<Model>)
    ensures |ms| == |path| + 1 && ms[0] == cls
    decreases |path|
  {
    if path == [] then [cls] else [cls] + Along(g, Step(g, cls, path[0]), path[1..])
  }

  /** The closed form: every model strictly inside the chain has a limit above its depth, and without
      cycles no model comes back except directly behind itself. */
  ghost predicate LegalChain(g: Graph, ms: seq<Model>, allowCycles: bool) {
    && (forall i :: 1 <= i < |ms| - 1 ==> ms[i] in g.maxRecursion && i < g.maxRecursion[ms[i]])
    && (allowCycles || NoComeback(ms))
  }

  ghost predicate NoComeback(ms: seq<Model>) {
    forall i, k :: 0 <= i && i + 2 <= k < |ms| ==> ms[i] != ms[k]
  }

  function Classes(stack: seq<Frame>): seq<Model> {
    seq(|stack|, i requires 0 <= i < |stack| => stack[i].cls)
  }

  lemma FieldUnique(g: Graph, cls: Model, f: Field)
    requires g.Valid() && cls in g.fields && f in g.fields[cls]
    ensures Step(g, cls, f.name) == f.target
  {
    var found := Find(g.fields[cls], f.name);
    var i :| 0 <= i < |g.fields[cls]| && g.fields[cls][i] == found;
    var j :| 0 <= j < |g.fields[cls]| && g.fields[cls][j] == f;
    assert NamesDistinct(g.fields[cls]);
  }

  lemma {:induction false} InProperties(g: Graph, cls: Model, stack: seq<Frame>, allowCycles: bool, sel: Filter,
                                        n: nat, p: Property)
    requires g.Valid() && cls in g.fields && StackOk(g, stack) && n <= |g.fields[cls]|
    ensures p in Properties(g, cls, stack, allowCycles, sel, n) <==>
            exists j :: 0 <= j < n && IsProperty(g, cls, stack, allowCycles, sel, g.fields[cls][j], p)
  {
    if n > 0 {
      InProperties(g, cls, stack, allowCycles, sel, n - 1, p);
      var f := g.fields[cls][n - 1];
      assert IsProperty(g, cls, stack, allowCycles, sel, f, p) <==>
        p in Properties(g, cls, stack, allowCycles, sel, n)[|Properties(g, cls, stack, allowCycles, sel, n - 1)|..];
    }
  }

  /** A schema's properties are those of the relation fields that are taken and admitted, each once and in
      the order in which the model has them: `at` lists their places. */
  lemma {:induction false} PropertiesInOrder(g: Graph, cls: Model, stack: seq<Frame>, allowCycles: bool, sel: Filter,
                                             n: nat)
    returns (at: seq<nat>)
    requires g.Valid() && cls in g.fields && StackOk(g, stack) && n <= |g.fields[cls]|
    ensures var properties := Properties(g, cls, stack, allowCycles, sel, n);
            && |at| == |properties|
            && (forall k :: 0 <= k < |at| ==> at[k] < n && properties[k].name == g.fields[cls][at[k]].name)
    ensures forall j, k :: 0 <= j < k < |at| ==> at[j] < at[k]
    ensures forall i :: 0 <= i < n ==> (i in at <==> IsTaken(g, cls, stack, allowCycles, sel, g.fields[cls][i]))
  {
    at := [];
    if n > 0 {
      at := PropertiesInOrder(g, cls, stack, allowCycles, sel, n - 1);
      if IsTaken(g, cls, stack, allowCycles, sel, g.fields[cls][n - 1]) {
        at := at + [n - 1];
      }
    }
  }

  ghost predicate IsTaken(g: Graph, cls: Model, stack: seq<Frame>, allowCycles: bool, sel: Filter, f: Field)
    requires cls in g.maxRecursion
  {
    Keeps(Here(g, cls, sel), f.name) && Admitted(f.target, Pushed(g, cls, stack, f), allowCycles)
  }

  /** No schema has two properties of one name. */
  lemma PropertyNamesDistinct(g: Graph, cls: Model, stack: seq<Frame>, allowCycles: bool, sel: Filter)
    requires g.Valid() && cls in g.fields && StackOk(g, stack)
    ensures var properties := Create(g, cls, stack, allowCycles, sel).properties;
            forall j, k :: 0 <= j < k < |properties| ==> properties[j].name != properties[k].name
  {
    var at := PropertiesInOrder(g, cls, stack, allowCycles, sel, |g.fields[cls]|);
    assert NamesDistinct(g.fields[cls]);
  }

  ghost predicate IsProperty(g: Graph, cls: Model, stack: seq<Frame>, allowCycles: bool, sel: Filter, f: Field,
                             p: Property)
    requires g.Valid() && cls in g.fields && StackOk(g, stack) && f in g.fields[cls]
  {
    && p.name == f.name && Keeps(Here(g, cls, sel), f.name)
    && Admitted(f.target, Pushed(g, cls, stack, f), allowCycles)
    && p.schema == Create(g, f.target, Pushed(g, cls, stack, f), allowCycles, Sub(g, cls, sel, f.name))
  }

  /** One level: the path continues below the field it names, if that field is taken and its model
      admitted. */
  lemma PathStep(g: Graph, cls: Model, stack: seq<Frame>, allowCycles: bool, sel: Filter, path: seq<string>,
                 end: Model)
    requires g.Valid() && cls in g.fields && StackOk(g, stack) && path != []
    ensures Nests(Create(g, cls, stack, allowCycles, sel), path, end) <==>
            exists f <- g.fields[cls] :: LeadsOn(g, cls, stack, allowCycles, sel, path, end, f)
  {
    var n := |g.fields[cls]|;
    if f :| f in g.fields[cls] && LeadsOn(g, cls, stack, allowCycles, sel, path, end, f) {
      var j :| 0 <= j < n && g.fields[cls][j] == f;
      var below := Create(g, f.target, Pushed(g, cls, stack, f), allowCycles, Sub(g, cls, sel, f.name));
      assert IsProperty(g, cls, stack, allowCycles, sel, g.fields[cls][j], Property(f.name, below));
      InProperties(g, cls, stack, allowCycles, sel, n, Property(f.name, below));
      assert Property(f.name, below) in Create(g, cls, stack, allowCycles, sel).properties;
    }
    var properties := Create(g, cls, stack, allowCycles, sel).properties;
    if p :| p in properties && p.name == path[0] && Nests(p.schema, path[1..], end) {
      InProperties(g, cls, stack, allowCycles, sel, n, p);
      var j :| 0 <= j < n && IsProperty(g, cls, stack, allowCycles, sel, g.fields[cls][j], p);
      assert LeadsOn(g, cls, stack, allowCycles, sel, path, end, g.fields[cls][j]);
    }
  }

  ghost predicate LeadsOn(g: Graph, cls: Model, stack: seq<Frame>, allowCycles: bool, sel: Filter, path: seq<string>,
                          end: Model, f: Field)
    requires g.Valid() && cls in g.fields && StackOk(g, stack) && path != [] && f in g.fields[cls]
  {
    && f.name == path[0] && Keeps(Here(g, cls, sel), f.name)
    && Admitted(f.target, Pushed(g, cls, stack, f), allowCycles)
    && Nests(Create(g, f.target, Pushed(g, cls, stack, f), allowCycles, Sub(g, cls, sel, f.name)), path[1..], end)
  }

  // ---- Which paths are taken -------------------------------------------------------------------

  /** Every field of the path is taken at its own level. */
  predicate Taken(g: Graph, cls: Model, sel: Filter, path: seq<string>)
    decreases |path|
  {
    path == [] || (Keeps(Here(g, cls, sel), path[0])
                   && Taken(g, Step(g, cls, path[0]), Sub(g, cls, sel, path[0]), path[1..]))
  }

  /** The entry is in force at depth `k`: the call has it behind the names that lead there, or one of the
      models on the way has it behind the names that lead from it. */
  predicate InForce(calls: set<Entry>, defaults: seq<set<Entry>>, path: seq<string>, k: nat, e: Entry)
    requires k <= |path| && k < |defaults|
  {
    path[..k] + e in calls || exists j :: 0 <= j <= k && path[j..k] + e in defaults[j]
  }

  function Includes(g: Graph, ms: seq<Model>): seq<set<Entry>> {
    seq(|ms|, i requires 0 <= i < |ms| => if ms[i] in g.filters then g.filters[ms[i]].including else {})
  }

  function Excludes(g: Graph, ms: seq<Model>): seq<set<Entry>> {
    seq(|ms|, i requires 0 <= i < |ms| => if ms[i] in g.filters then g.filters[ms[i]].excluding else {})
  }

  /** The closed form: the field at depth `k` is excluded by no entry in force, and included by one if
      any include entry is in force there. */
  ghost predicate TakenAt(g: Graph, ms: seq<Model>, sel: Filter, path: seq<string>, k: nat)
    requires |ms| == |path| + 1 && k < |path|
  {
    && !InForce(sel.excluding, Excludes(g, ms), path, k, [path[k]])
    && (AnyInForce(sel.including, Includes(g, ms), path, k) ==>
          InForce(sel.including, Includes(g, ms), path, k, [path[k]]))
  }

  ghost predicate AnyInForce(calls: set<Entry>, defaults: seq<set<Entry>>, path: seq<string>, k: nat)
    requires k <= |path| && k < |defaults|
  {
    exists e: Entry :: e != [] && InForce(calls, defaults, path, k, e)
  }

  ghost predicate AllTaken(g: Graph, ms: seq<Model>, sel: Filter, path: seq<string>)
    requires |ms| == |path| + 1
  {
    forall k :: 0 <= k < |path| ==> TakenAt(g, ms, sel, path, k)
  }

  /** No entry is empty: splitting a string at its dots gives one part at least. */
  ghost predicate EntriesOk(g: Graph, sel: Filter) {
    && [] !in sel.including && [] !in sel.excluding
    && forall m <- g.filters :: [] !in g.filters[m].including && [] !in g.filters[m].excluding
  }

  /** What is in force one level down, from there. */
  lemma InForceBelow(calls: set<Entry>, defaults: seq<set<Entry>>, path: seq<string>, k: nat, e: Entry)
    requires 0 < k <= |path| && k < |defaults| && e != []
    ensures InForce(calls, defaults, path, k, e)
            <==> InForce(Below(calls + defaults[0], path[0]), defaults[1..], path[1..], k - 1, e)
  {
    var rest, below := path[1..], Below(calls + defaults[0], path[0]);
    assert path[..k] == [path[0]] + rest[..k - 1] && path[0..k] == path[..k];
    var whole := path[..k] + e;
    assert whole[1..] == rest[..k - 1] + e && |whole| >= 2 && whole[0] == path[0];
    assert rest[..k - 1] + e in below <==> whole in calls + defaults[0] by {
      if rest[..k - 1] + e in below {
        var x :| x in calls + defaults[0] && |x| >= 2 && x[0] == path[0] && x[1..] == rest[..k - 1] + e;
        assert x == [x[0]] + x[1..] == whole;
      }
    }
    forall j | 1 <= j <= k ensures path[j..k] == rest[j - 1..k - 1] && defaults[j] == defaults[1..][j - 1] {}
    if j :| 0 <= j <= k && path[j..k] + e in defaults[j] {
      if j > 0 {
        assert rest[j - 1..k - 1] + e in defaults[1..][j - 1];
      }
    }
    if j :| 0 <= j <= k - 1 && rest[j..k - 1] + e in defaults[1..][j] {
      assert path[j + 1..k] + e in defaults[j + 1];
    }
    if whole in defaults[0] {
      assert path[0..k] + e in defaults[0];
    }
  }

  lemma InForceHere(calls: set<Entry>, defaults: seq<set<Entry>>, path: seq<string>, e: Entry)
    requires |defaults| > 0
    ensures InForce(calls, defaults, path, 0, e) <==> e in calls + defaults[0]
  {
    assert path[..0] + e == e && path[0..0] + e == e;
  }

  lemma {:induction false} TakenEverywhere(g: Graph, cls: Model, sel: Filter, path: seq<string>)
    requires EntriesOk(g, sel)
    ensures Taken(g, cls, sel, path) <==> AllTaken(g, Along(g, cls, path), sel, path)
    decreases |path|
  {
    if path != [] {
      var sub := Sub(g, cls, sel, path[0]);
      assert [] !in sub.including && [] !in sub.excluding;
      TakenEverywhere(g, Step(g, cls, path[0]), sub, path[1..]);
      assert Along(g, cls, path)[1..] == Along(g, Step(g, cls, path[0]), path[1..]);
      TakenFirst(g, cls, sel, path);
      TakenRest(g, cls, sel, path);
    }
  }

  lemma TakenFirst(g: Graph, cls: Model, sel: Filter, path: seq<string>)
    requires EntriesOk(g, sel) && path != []
    ensures TakenAt(g, Along(g, cls, path), sel, path, 0) <==> Keeps(Here(g, cls, sel), path[0])
  {
    var ms := Along(g, cls, path);
    forall e ensures InForce(sel.including, Includes(g, ms), path, 0, e) <==> e in Here(g, cls, sel).including {
      InForceHere(sel.including, Includes(g, ms), path, e);
    }
    InForceHere(sel.excluding, Excludes(g, ms), path, [path[0]]);
    if Here(g, cls, sel).including != {} {
      var e :| e in Here(g, cls, sel).including;
      assert e != [];
    }
  }

  lemma TakenRest(g: Graph, cls: Model, sel: Filter, path: seq<string>)
    requires path != []
    ensures var ms, sub := Along(g, cls, path), Sub(g, cls, sel, path[0]);
            AllTaken(g, ms, sel, path) <==> TakenAt(g, ms, sel, path, 0) && AllTaken(g, ms[1..], sub, path[1..])
  {
    var ms, sub := Along(g, cls, path), Sub(g, cls, sel, path[0]);
    forall k | 0 < k < |path| ensures TakenAt(g, ms, sel, path, k) <==> TakenAt(g, ms[1..], sub, path[1..], k - 1) {
      TakenNext(g, cls, sel, path, k);
    }
    if AllTaken(g, ms, sel, path) {
      forall k | 0 <= k < |path[1..]| ensures TakenAt(g, ms[1..], sub, path[1..], k) {
        assert TakenAt(g, ms, sel, path, k + 1);
      }
    }
    if TakenAt(g, ms, sel, path, 0) && AllTaken(g, ms[1..], sub, path[1..]) {
      forall k | 0 <= k < |path| ensures TakenAt(g, ms, sel, path, k) {
        assert k > 0 ==> TakenAt(g, ms[1..], sub, path[1..], k - 1);
      }
    }
  }

  lemma AnyBelow(calls: set<Entry>, defaults: seq<set<Entry>>, path: seq<string>, k: nat)
    requires 0 < k <= |path| && k < |defaults|
    ensures AnyInForce(calls, defaults, path, k)
            <==> AnyInForce(Below(calls + defaults[0], path[0]), defaults[1..], path[1..], k - 1)
  {
    var below := Below(calls + defaults[0], path[0]);
    if AnyInForce(calls, defaults, path, k) {
      var e: Entry :| e != [] && InForce(calls, defaults, path, k, e);
      InForceBelow(calls, defaults, path, k, e);
    }
    if AnyInForce(below, defaults[1..], path[1..], k - 1) {
      var e: Entry :| e != [] && InForce(below, defaults[1..], path[1..], k - 1, e);
      InForceBelow(calls, defaults, path, k, e);
    }
  }

  lemma TakenNext(g: Graph, cls: Model, sel: Filter, path: seq<string>, k: nat)
    requires 0 < k < |path|
    ensures TakenAt(g, Along(g, cls, path), sel, path, k)
            <==> TakenAt(g, Along(g, cls, path)[1..], Sub(g, cls, sel, path[0]), path[1..], k - 1)
  {
    var ms := Along(g, cls, path);
    var inc, exc := Includes(g, ms), Excludes(g, ms);
    assert inc[1..] == Includes(g, ms[1..]) && exc[1..] == Excludes(g, ms[1..]) && path[1..][k - 1] == path[k];
    assert Here(g, cls, sel) == Filter(sel.including + inc[0], sel.excluding + exc[0]);
    AnyBelow(sel.including, inc, path, k);
    InForceBelow(sel.including, inc, path, k, [path[k]]);
    InForceBelow(sel.excluding, exc, path, k, [path[k]]);
  }

  /** The guard's test says whether a legal chain stays legal when it is extended by one model. */
  lemma AdmittedKeepsLegal(g: Graph, cls: Model, stack: seq<Frame>, allowCycles: bool, f: Field, ms: seq<Model>)
    requires g.Valid() && cls in g.fields && StackOk(g, stack) && f in g.fields[cls]
    requires allowCycles || NoComeback(Classes(stack) + [cls])
    requires ms != [] && ms[0] == f.target
    ensures Admitted(f.target, Pushed(g, cls, stack, f), allowCycles) ==>
              StackOk(g, Pushed(g, cls, stack, f))
              && (allowCycles || NoComeback(Classes(Pushed(g, cls, stack, f)) + [f.target]))
    ensures !Admitted(f.target, Pushed(g, cls, stack, f), allowCycles) ==>
              !LegalChain(g, Classes(stack) + [cls] + ms, allowCycles)
  {
    var now := Pushed(g, cls, stack, f);
    var n, full := |stack|, Classes(stack) + [cls] + ms;
    assert Classes(now) == Classes(stack) + [cls];
    assert forall i :: 0 <= i < n ==> now[i] == stack[i] && full[i] == stack[i].cls;
    assert full[n] == cls && full[n + 1] == f.target;
    if WithinLimits(now) {
      assert Repeats(f.target, now) ==> exists i :: 0 <= i < n && full[i] == full[n + 1];
    } else {
      var i :| 1 <= i < |now| && i >= now[i].maxRecursion;
      assert i == n;
    }
  }

  lemma AlongField(g: Graph, cls: Model, stack: seq<Frame>, f: Field, path: seq<string>)
    requires g.Valid() && cls in g.fields && f in g.fields[cls] && path != [] && f.name == path[0]
    ensures Classes(stack) + Along(g, cls, path) == Classes(stack) + [cls] + Along(g, f.target, path[1..])
    ensures Classes(stack) + [cls] == Classes(Pushed(g, cls, stack, f))
    ensures Along(g, cls, path)[|path|] == Along(g, f.target, path[1..])[|path| - 1]
    ensures IsPath(g, cls, path) <==> IsPath(g, f.target, path[1..])
  {
    FieldUnique(g, cls, f);
    forall e <- g.fields[cls] | e.name == path[0] ensures e.target == f.target {
      FieldUnique(g, cls, e);
    }
  }

  lemma {:induction false} PathsFromStack(g: Graph, cls: Model, stack: seq<Frame>, allowCycles: bool, sel: Filter,
                                          path: seq<string>, end: Model)
    requires g.Valid() && cls in g.fields && StackOk(g, stack)
    requires allowCycles || NoComeback(Classes(stack) + [cls])
    ensures Nests(Create(g, cls, stack, allowCycles, sel), path, end) <==>
            IsPath(g, cls, path) && end == Along(g, cls, path)[|path|] && Taken(g, cls, sel, path)
            && LegalChain(g, Classes(stack) + Along(g, cls, path), allowCycles)
    decreases |path|
  {
    if path == [] {
      assert forall i :: 1 <= i < |stack| ==> (Classes(stack) + [cls])[i] == stack[i].cls && stack[i] in stack;
    } else {
      PathStep(g, cls, stack, allowCycles, sel, path, end);
      forall f <- g.fields[cls] | f.name == path[0]
        ensures Nests(Create(g, cls, stack, allowCycles, sel), path, end) <==>
                IsPath(g, cls, path) && end == Along(g, cls, path)[|path|] && Taken(g, cls, sel, path)
                && LegalChain(g, Classes(stack) + Along(g, cls, path), allowCycles)
      {
        PathsBelow(g, cls, stack, allowCycles, sel, path, end, f);
      }
    }
  }

  lemma {:induction false} PathsBelow(g: Graph, cls: Model, stack: seq<Frame>, allowCycles: bool, sel: Filter,
                                      path: seq<string>, end: Model, f: Field)
    requires g.Valid() && cls in g.fields && StackOk(g, stack) && path != []
    requires f in g.fields[cls] && f.name == path[0]
    requires allowCycles || NoComeback(Classes(stack) + [cls])
    ensures Nests(Create(g, cls, stack, allowCycles, sel), path, end) <==>
            IsPath(g, cls, path) && end == Along(g, cls, path)[|path|] && Taken(g, cls, sel, path)
            && LegalChain(g, Classes(stack) + Along(g, cls, path), allowCycles)
    decreases |path|, 0
  {
    PathStep(g, cls, stack, allowCycles, sel, path, end);
    AlongField(g, cls, stack, f, path);
    OnlyField(g, cls, f);
    AdmittedKeepsLegal(g, cls, stack, allowCycles, f, Along(g, f.target, path[1..]));
    if Admitted(f.target, Pushed(g, cls, stack, f), allowCycles) {
      PathsFromStack(g, f.target, Pushed(g, cls, stack, f), allowCycles, Sub(g, cls, sel, f.name), path[1..], end);
    }
  }

  lemma OnlyField(g: Graph, cls: Model, f: Field)
    requires g.Valid() && cls in g.fields && f in g.fields[cls]
    ensures forall e <- g.fields[cls] :: e.name == f.name ==> e == f
  {
    forall e <- g.fields[cls] | e.name == f.name ensures e == f {
      var i :| 0 <= i < |g.fields[cls]| && g.fields[cls][i] == e;
      var j :| 0 <= j < |g.fields[cls]| && g.fields[cls][j] == f;
      assert NamesDistinct(g.fields[cls]);
    }
  }

  /** The generated schema nests exactly along the legal chains of relation fields, and each nested
      schema is that of the model the chain leads to. */
  lemma SchemaHasLegalChains(g: Graph, cls: Model, allowCycles: bool, sel: Filter, path: seq<string>, end: Model)
    requires g.Valid() && cls in g.fields && EntriesOk(g, sel)
    ensures Nests(Create(g, cls, [], allowCycles, sel), path, end) <==>
            IsPath(g, cls, path) && end == Along(g, cls, path)[|path|]
            && LegalChain(g, Along(g, cls, path), allowCycles) && AllTaken(g, Along(g, cls, path), sel, path)
  {
    assert Classes([]) + Along(g, cls, path) == Along(g, cls, path);
    PathsFromStack(g, cls, [], allowCycles, sel, path, end);
    TakenEverywhere(g, cls, sel, path);
  }

  /** The first level is there, whatever the limits say. */
  lemma FirstLevelIsThere(g: Graph, cls: Model, allowCycles: bool, sel: Filter, f: Field)
    requires g.Valid() && cls in g.fields && EntriesOk(g, sel) && f in g.fields[cls] && Keeps(Here(g, cls, sel), f.name)
    ensures Nests(Create(g, cls, [], allowCycles, sel), [f.name], f.target)
  {
    var path := [f.name];
    SchemaHasLegalChains(g, cls, allowCycles, sel, path, f.target);
    TakenEverywhere(g, cls, sel, path);
    assert path[1..] == [];
    AlongField(g, cls, [], f, path);
  }

  /** However cyclic the graph, nesting stops at the largest limit, but never before the first level. */
  lemma DepthIsBounded(g: Graph, cls: Model, allowCycles: bool, sel: Filter, path: seq<string>, end: Model)
    requires g.Valid() && cls in g.fields && EntriesOk(g, sel)
    requires Nests(Create(g, cls, [], allowCycles, sel), path, end)
    ensures |path| <= Bound(g.maxRecursion)
    ensures forall f <- g.fields[cls] :: Keeps(Here(g, cls, sel), f.name) ==>
              Nests(Create(g, cls, [], allowCycles, sel), [f.name], f.target)
  {
    SchemaHasLegalChains(g, cls, allowCycles, sel, path, end);
    if |path| >= 2 {
      var ms := Along(g, cls, path);
      assert |path| - 1 < g.maxRecursion[ms[|path| - 1]];
    }
    forall f <- g.fields[cls] | Keeps(Here(g, cls, sel), f.name)
      ensures Nests(Create(g, cls, [], allowCycles, sel), [f.name], f.target)
    {
      FirstLevelIsThere(g, cls, allowCycles, sel, f);
    }
  }

  /** Without cycles a model that comes up twice on a chain does so back to back. */
  lemma ReappearsOnlyBehindItself(g: Graph, cls: Model, sel: Filter, path: seq<string>, end: Model, i: nat, k: nat)
    requires g.Valid() && cls in g.fields && EntriesOk(g, sel) && Nests(Create(g, cls, [], false, sel), path, end)
    requires i < k <= |path| && Along(g, cls, path)[i] == Along(g, cls, path)[k]
    ensures k == i + 1
  {
    SchemaHasLegalChains(g, cls, false, sel, path, end);
  }
}
