// Prefetching along relation paths given as strings (tortoise/queryset.py, `prefetch_related`;
// tortoise/backends/base/executor.py, `_make_prefetch_queries`, `_execute_prefetch_queries`,
// `fetch_for_list`): split off the first segment, group the rest, and go on at the related model.
module PrefetchPaths {
  import opened Common

  type Model = string

  /** The relations of each model, with the models they lead to. */
  type Relations = map<Model, map<string, Model>>

  predicate ValidRelations(g: Relations) {
    forall m <- g :: "" !in g[m] && forall f <- g[m] :: g[m][f] in g
  }

  // ---- What the strings mean -------------------------------------------------------------------

  /** The segments of a path, as repeated partitioning finds them. */
  function Segments(path: string): (r: seq<string>)
    ensures r != []
    decreases |path|
  {
    var (first, rest) := Partition(path);
    if rest == "" then [first] else if path == "" then [""] else [first] + Segments(rest)
  }

  predicate Leads(g: Relations, model: Model, segments: seq<string>)
    decreases |segments|
  {
    segments == [] || (model in g && segments[0] in g[model] && Leads(g, g[model][segments[0]], segments[1..]))
  }

  /** `q` is a non-empty prefix of one of the requested paths. */
  ghost predicate Requested(paths: set<string>, q: seq<string>) {
    q != [] && exists p <- paths :: q <= Segments(p)
  }

  /** Names of relations: no double underscore inside, none at the end. */
  predicate GoodName(s: string) {
    s != "" && s[|s| - 1] != '_' && forall i :: 0 < i < |s| ==> !(s[i - 1] == '_' && s[i] == '_')
  }

  function Written(segments: seq<string>): string
    requires segments != []
  {
    if |segments| == 1 then segments[0] else segments[0] + SEPARATOR + Written(segments[1..])
  }

  /** Partitioning skips a character that does not start a separator. */
  lemma PartitionSkips(s: string)
    requires |s| >= 2 && !(s[0] == '_' && s[1] == '_')
    ensures Partition(s) == ([s[0]] + Partition(s[1..]).0, Partition(s[1..]).1)
  {
    assert s[..2][0] == s[0] && s[..2][1] == s[1];
  }

  lemma GoodTail(name: string)
    requires GoodName(name) && |name| > 1
    ensures GoodName(name[1..])
  {
    var tail := name[1..];
    forall i | 0 < i < |tail| ensures !(tail[i - 1] == '_' && tail[i] == '_') {
      assert tail[i] == name[i + 1] && tail[i - 1] == name[(i + 1) - 1];
    }
  }

  lemma PartitionStops(rest: string)
    ensures Partition(SEPARATOR + rest) == ("", rest)
  {
    var t := SEPARATOR + rest;
    assert t[..2] == SEPARATOR && t[2..] == rest;
  }

  lemma {:induction false} PartitionFindsName(name: string, rest: string)
    requires GoodName(name)
    ensures Partition(name + SEPARATOR + rest) == (name, rest)
    decreases |name|
  {
    var s := name + SEPARATOR + rest;
    PartitionSkips(s);
    if |name| == 1 {
      assert s[1..] == SEPARATOR + rest;
      PartitionStops(rest);
      assert [s[0]] + "" == name;
    } else {
      var tail := name[1..];
      GoodTail(name);
      PartitionFindsName(tail, rest);
      assert s[1..] == tail + SEPARATOR + rest;
      assert name == [name[0]] + tail;
    }
  }

  lemma {:induction false} PartitionKeepsName(name: string)
    requires GoodName(name)
    ensures Partition(name) == (name, "")
    decreases |name|
  {
    if |name| > 1 {
      var tail := name[1..];
      PartitionSkips(name);
      GoodTail(name);
      PartitionKeepsName(tail);
      assert name == [name[0]] + tail;
    }
  }

  /** For ordinary names, the segments of a written path are the names it was written from. */
  lemma {:induction false} SegmentsOfWritten(names: seq<string>)
    requires names != [] && forall n <- names :: GoodName(n)
    ensures Segments(Written(names)) == names
    ensures Written(names) != ""
  {
    assert names[0] in names;
    if |names| == 1 {
      PartitionKeepsName(names[0]);
    } else {
      assert forall n <- names[1..] :: n in names;
      SegmentsOfWritten(names[1..]);
      PartitionFindsName(names[0], Written(names[1..]));
      assert names == [names[0]] + names[1..];
    }
  }

  // ---- One level -------------------------------------------------------------------------------

  /** The paths that go on behind relation `f`. */
  function Forwarded(paths: set<string>, f: string): set<string> {
    set p | p in paths && Partition(p).0 == f && Partition(p).1 != "" :: Partition(p).1
  }

  function Firsts(paths: set<string>): set<string> {
    set p | p in paths :: Partition(p).0
  }

  function FirstLevel(paths: set<string>): map<string, set<string>> {
    map f | f in Firsts(paths) :: Forwarded(paths, f)
  }

  /** The map with one more path entered, as the loop does it. */
  function Entered(m: map<string, set<string>>, p: string): map<string, set<string>> {
    var (first, rest) := Partition(p);
    var m1 := if first in m then m else m[first := {}];
    if rest != "" then m1[first := m1[first] + {rest}] else m1
  }

  /** The map holds exactly what is forwarded behind each first name. */
  ghost predicate IsFirstLevel(m: map<string, set<string>>, paths: set<string>) {
    m.Keys == Firsts(paths) && forall f <- m :: m[f] == Forwarded(paths, f)
  }

  lemma OneMore(paths: set<string>, p: string, m: map<string, set<string>>)
    requires IsFirstLevel(m, paths)
    ensures IsFirstLevel(Entered(m, p), paths + {p})
  {
    FirstsOneMore(paths, p);
    var now := Entered(m, p);
    assert now.Keys == m.Keys + {Partition(p).0};
    forall f <- now ensures now[f] == Forwarded(paths + {p}, f) {
      ForwardedOneMore(paths, p, f);
      NothingForwarded(paths, f);
    }
  }

  lemma FirstsOneMore(paths: set<string>, p: string)
    ensures Firsts(paths + {p}) == Firsts(paths) + {Partition(p).0}
  {
    assert p in paths + {p};
    assert forall q <- paths :: q in paths + {p};
  }

  lemma NothingForwarded(paths: set<string>, f: string)
    ensures f !in Firsts(paths) ==> Forwarded(paths, f) == {}
  {}

  lemma ForwardedOneMore(paths: set<string>, p: string, f: string)
    ensures Forwarded(paths + {p}, f) ==
            Forwarded(paths, f) + if Partition(p).0 == f && Partition(p).1 != "" then {Partition(p).1} else {}
  {}

  /** `prefetch_related`: the relations named first, each with what is named behind it. */
  method PrefetchMap(g: Relations, model: Model, paths: set<string>)
    returns (r: Result<map<string, set<string>>, string>)
    requires model in g
    ensures r.Ok? <==> Firsts(paths) <= g[model].Keys
    ensures r.Ok? ==> r.value == FirstLevel(paths)
  {
    var m: map<string, set<string>> := map[];
    var left := paths;
    while left != {}
      invariant left <= paths && IsFirstLevel(m, paths - left)
      invariant Firsts(paths - left) <= g[model].Keys
      decreases |left|
    {
      var p :| p in left;
      var (first, rest) := Partition(p);
      OneMore(paths - left, p, m);
      assert paths - (left - {p}) == (paths - left) + {p};
      if first !in g[model] {
        assert first in Firsts(paths);
        return Err(first);
      }
      if first !in m {
        m := m[first := {}];
      }
      if rest != "" {
        m := m[first := m[first] + {rest}];
      }
      left := left - {p};
    }
    assert paths - left == paths;
    return Ok(m);
  }

  // ---- What is requested behind a relation -----------------------------------------------------

  function Under(f: string, log: seq<seq<string>>): seq<seq<string>> {
    seq(|log|, i requires 0 <= i < |log| => [f] + log[i])
  }

  ghost predicate Once(log: seq<seq<string>>) {
    forall i, j :: 0 <= i < j < |log| ==> log[i] != log[j]
  }

  lemma SegmentsOf(p: string)
    requires p != ""
    ensures Segments(p)[0] == Partition(p).0
    ensures Segments(p)[1..] == if Partition(p).1 == "" then [] else Segments(Partition(p).1)
  {}

  /** A path through relation `f` is requested when `f` is named first and the rest behind it. */
  lemma RequestedBehind(paths: set<string>, f: string, q: seq<string>)
    requires "" !in Firsts(paths)
    ensures Requested(paths, [f] + q) <==> f in Firsts(paths) && (q == [] || Requested(Forwarded(paths, f), q))
  {
    if Requested(paths, [f] + q) {
      RequestedGoesOn(paths, f, q);
    } else if f in Firsts(paths) && (q == [] || Requested(Forwarded(paths, f), q)) {
      BehindIsRequested(paths, f, q);
    }
  }

  lemma RequestedGoesOn(paths: set<string>, f: string, q: seq<string>)
    requires "" !in Firsts(paths) && Requested(paths, [f] + q)
    ensures f in Firsts(paths) && (q == [] || Requested(Forwarded(paths, f), q))
  {
    var whole := [f] + q;
    var p :| p in paths && whole <= Segments(p);
    assert Partition(p).0 in Firsts(paths);
    SegmentsOf(p);
    assert whole[0] == Segments(p)[0];
    if q != [] {
      assert q == whole[1..] && q <= Segments(p)[1..];
      assert Partition(p).1 in Forwarded(paths, f);
    }
  }

  lemma BehindIsRequested(paths: set<string>, f: string, q: seq<string>)
    requires "" !in Firsts(paths) && f in Firsts(paths) && (q == [] || Requested(Forwarded(paths, f), q))
    ensures Requested(paths, [f] + q)
  {
    if q == [] {
      var p :| p in paths && Partition(p).0 == f;
      SegmentsOf(p);
      assert [f] + q <= Segments(p);
    } else {
      var r :| r in Forwarded(paths, f) && q <= Segments(r);
      var p :| p in paths && Partition(p).0 == f && Partition(p).1 == r && r != "";
      SegmentsOf(p);
      assert Segments(p) == [f] + Segments(r);
      assert [f] + q <= Segments(p);
    }
  }

  // ---- Where there are objects -----------------------------------------------------------------

  /** The relation paths behind which there are objects; the empty path stands for the objects that
      the prefetch starts from. */
  type Objects = set<seq<string>>

  function Behind(objects: Objects, f: string): Objects {
    set q | q in objects && q != [] && q[0] == f :: q[1..]
  }

  lemma BehindHas(objects: Objects, f: string, q: seq<string>)
    ensures q in Behind(objects, f) <==> [f] + q in objects
  {
    assert ([f] + q)[1..] == q;
    if q in Behind(objects, f) {
      var p :| p in objects && p != [] && p[0] == f && p[1..] == q;
      assert p == [f] + q;
    }
  }

  /** There are objects all along the path, up to its last relation. */
  ghost predicate Reached(objects: Objects, q: seq<string>) {
    forall k :: 0 <= k < |q| ==> q[..k] in objects
  }

  lemma ReachedBehind(objects: Objects, f: string, q: seq<string>)
    ensures Reached(objects, [f] + q) <==> [] in objects && Reached(Behind(objects, f), q)
  {
    var whole := [f] + q;
    assert whole[..0] == [];
    forall k | 0 <= k < |q| ensures q[..k] in Behind(objects, f) <==> whole[..k + 1] in objects {
      BehindHas(objects, f, q[..k]);
      assert whole[..k + 1] == [f] + q[..k];
    }
    if [] in objects && Reached(Behind(objects, f), q) {
      forall k | 0 <= k < |whole| ensures whole[..k] in objects {
        if k > 0 {
          assert q[..k - 1] in Behind(objects, f);
        }
      }
    }
    if Reached(objects, whole) {
      forall k | 0 <= k < |q| ensures q[..k] in Behind(objects, f) {
        assert whole[..k + 1] in objects;
      }
    }
  }

  /** Every name that is looked at is a relation: the first one, and each later one behind which of
      whose predecessors there are objects. */
  ghost predicate Sound(g: Relations, model: Model, segments: seq<string>, objects: Objects) {
    forall k :: 0 <= k < |segments| ==> SoundAt(g, model, segments, objects, k)
  }

  ghost predicate SoundAt(g: Relations, model: Model, segments: seq<string>, objects: Objects, k: nat)
    requires k < |segments|
  {
    Reached(objects, segments[..k]) ==> Leads(g, model, segments[..k + 1])
  }

  ghost predicate AllSound(g: Relations, model: Model, paths: set<string>, objects: Objects) {
    forall p <- paths :: Sound(g, model, Segments(p), objects)
  }

  /** The path is requested, and there are objects to load it for. */
  ghost predicate Loaded(paths: set<string>, objects: Objects, q: seq<string>) {
    Requested(paths, q) && Reached(objects, q)
  }

  lemma SoundStep(g: Relations, model: Model, segments: seq<string>, objects: Objects)
    requires model in g && segments != [] && segments[0] in g[model]
    ensures Sound(g, model, segments, objects) <==>
            ([] in objects ==> Sound(g, g[model][segments[0]], segments[1..], Behind(objects, segments[0])))
  {
    var f, rest := segments[0], segments[1..];
    SoundAtFirst(g, model, segments, objects);
    if [] in objects {
      forall k | 0 <= k < |rest|
        ensures SoundAt(g, model, segments, objects, k + 1) <==> SoundAt(g, g[model][f], rest, Behind(objects, f), k)
      {
        SoundAtNext(g, model, segments, objects, k);
      }
      assert Sound(g, model, segments, objects) ==> forall k :: 0 <= k < |rest| ==>
        SoundAt(g, model, segments, objects, k + 1) && SoundAt(g, g[model][f], rest, Behind(objects, f), k);
      if Sound(g, g[model][f], rest, Behind(objects, f)) {
        forall k | 0 <= k < |segments| ensures SoundAt(g, model, segments, objects, k) {
          assert k > 0 ==> SoundAt(g, g[model][f], rest, Behind(objects, f), k - 1);
        }
      }
    } else {
      forall k | 0 <= k < |segments| ensures SoundAt(g, model, segments, objects, k) {
        assert k > 0 ==> segments[..k][..0] == [];
      }
    }
  }

  lemma SoundAtFirst(g: Relations, model: Model, segments: seq<string>, objects: Objects)
    requires model in g && segments != [] && segments[0] in g[model]
    ensures SoundAt(g, model, segments, objects, 0)
  {
    assert segments[..1][1..] == [];
  }

  lemma SoundAtNext(g: Relations, model: Model, segments: seq<string>, objects: Objects, k: nat)
    requires model in g && k + 1 < |segments| && segments[0] in g[model] && [] in objects
    ensures SoundAt(g, model, segments, objects, k + 1)
            <==> SoundAt(g, g[model][segments[0]], segments[1..], Behind(objects, segments[0]), k)
  {
    var f, rest := segments[0], segments[1..];
    assert segments[..k + 1] == [f] + rest[..k];
    ReachedBehind(objects, f, rest[..k]);
    assert segments[..k + 2][1..] == rest[..k + 1];
  }

  lemma UnknownFirst(g: Relations, model: Model, paths: set<string>, objects: Objects)
    requires model in g && !(Firsts(paths) <= g[model].Keys) && "" !in g[model]
    ensures !AllSound(g, model, paths, objects)
  {
    var f :| f in Firsts(paths) && f !in g[model];
    var p :| p in paths && Partition(p).0 == f;
    assert Segments(p)[0] == f || p == "";
    assert !SoundAt(g, model, Segments(p), objects, 0);
  }

  ghost predicate SoundBehindOne(g: Relations, fields: map<string, Model>, paths: set<string>, objects: Objects,
                                 f: string)
  {
    f in fields && AllSound(g, fields[f], Forwarded(paths, f), Behind(objects, f))
  }

  /** Everything requested behind the relations in `done` is sound. */
  ghost predicate DoneSound(g: Relations, fields: map<string, Model>, paths: set<string>, objects: Objects,
                            done: set<string>)
  {
    forall f <- done :: SoundBehindOne(g, fields, paths, objects, f)
  }

  lemma PathSound(g: Relations, model: Model, p: string, objects: Objects)
    requires model in g && p != "" && Partition(p).0 in g[model]
    ensures Sound(g, model, Segments(p), objects) <==>
            [] !in objects || Partition(p).1 == ""
            || Sound(g, g[model][Partition(p).0], Segments(Partition(p).1), Behind(objects, Partition(p).0))
  {
    SegmentsOf(p);
    SoundStep(g, model, Segments(p), objects);
  }

  /** One level down: what is sound here and what is sound behind each relation. */
  lemma SoundBehind(g: Relations, model: Model, paths: set<string>, objects: Objects)
    requires ValidRelations(g) && model in g && Firsts(paths) <= g[model].Keys
    ensures AllSound(g, model, paths, objects)
            <==> ([] in objects ==> DoneSound(g, g[model], paths, objects, Firsts(paths)))
  {
    forall p <- paths ensures p != "" && Partition(p).0 in Firsts(paths) {
      assert Partition(p).0 in Firsts(paths);
    }
    if AllSound(g, model, paths, objects) && [] in objects {
      forall f <- Firsts(paths), r <- Forwarded(paths, f)
        ensures Sound(g, g[model][f], Segments(r), Behind(objects, f))
      {
        var p :| p in paths && Partition(p).0 == f && Partition(p).1 == r && r != "";
        PathSound(g, model, p, objects);
      }
    }
    if [] in objects ==> DoneSound(g, g[model], paths, objects, Firsts(paths)) {
      forall p <- paths ensures Sound(g, model, Segments(p), objects) {
        PathSound(g, model, p, objects);
        if Partition(p).1 != "" {
          assert Partition(p).1 in Forwarded(paths, Partition(p).0);
          assert [] in objects ==> SoundBehindOne(g, g[model], paths, objects, Partition(p).0);
        }
      }
    }
  }

  // ---- All levels ------------------------------------------------------------------------------

  /** Each path is loaded after the one it goes on from. */
  ghost predicate ParentsFirst(log: seq<seq<string>>) {
    forall i :: 0 <= i < |log| && |log[i]| > 1 ==> ParentBefore(log, i)
  }

  ghost predicate ParentBefore(log: seq<seq<string>>, i: nat)
    requires i < |log| && log[i] != []
  {
    exists j :: 0 <= j < i && log[j] == log[i][..|log[i]| - 1]
  }

  lemma ParentsUnder(f: string, below: seq<seq<string>>)
    requires ParentsFirst(below) && [] !in below
    ensures ParentsFirst([[f]] + Under(f, below))
  {
    var log := [[f]] + Under(f, below);
    forall i | 0 < i < |log| ensures ParentBefore(log, i) {
      var b := below[i - 1];
      assert b in below && log[i] == [f] + b;
      if |b| == 1 {
        assert log[0] == log[i][..1];
      } else {
        assert ParentBefore(below, i - 1);
        var j :| 0 <= j < i - 1 && below[j] == b[..|b| - 1];
        assert log[j + 1] == [f] + below[j] == log[i][..|log[i]| - 1];
      }
    }
  }

  lemma ParentsAppend(a: seq<seq<string>>, b: seq<seq<string>>)
    requires ParentsFirst(a) && ParentsFirst(b)
    ensures ParentsFirst(a + b)
  {
    var log := a + b;
    forall i | 0 <= i < |log| && |log[i]| > 1 ensures ParentBefore(log, i) {
      if i < |a| {
        assert ParentBefore(a, i);
        var j :| 0 <= j < i && a[j] == a[i][..|a[i]| - 1];
        assert log[j] == log[i][..|log[i]| - 1];
      } else {
        assert ParentBefore(b, i - |a|);
        var j :| 0 <= j < i - |a| && b[j] == b[i - |a|][..|b[i - |a|]| - 1];
        assert log[|a| + j] == log[i][..|log[i]| - 1];
      }
    }
  }

  /** The log covers exactly what is loaded through the relations in `done`, each path once and behind the
      one it goes on from. */
  ghost predicate Covers(log: seq<seq<string>>, paths: set<string>, objects: Objects, done: set<string>) {
    Once(log) && ParentsFirst(log) && forall q :: q in log <==> q != [] && q[0] in done && Loaded(paths, objects, q)
  }

  /** The log has exactly the requested paths for which there are objects, each once and behind the one it
      goes on from. */
  ghost predicate LoadsExactly(log: seq<seq<string>>, paths: set<string>, objects: Objects) {
    Once(log) && ParentsFirst(log) && forall q :: q in log <==> Loaded(paths, objects, q)
  }

  lemma UnderFacts(f: string, below: seq<seq<string>>)
    requires Once(below)
    ensures Once(Under(f, below))
    ensures forall q :: q in Under(f, below) <==> q != [] && q[0] == f && q[1..] in below
  {
    var u := Under(f, below);
    forall i | 0 <= i < |u| ensures u[i][0] == f && u[i][1..] == below[i] {}
    forall q ensures q in u <==> q != [] && q[0] == f && q[1..] in below {
      if q != [] && q[0] == f && q[1..] in below {
        var i :| 0 <= i < |below| && below[i] == q[1..];
        assert q == [f] + q[1..] && u[i] == q;
      }
    }
  }

  lemma OnceAppend(a: seq<seq<string>>, b: seq<seq<string>>)
    requires Once(a) && Once(b) && forall x :: !(x in a && x in b)
    ensures Once(a + b)
  {
    var all := a + b;
    forall i, j | 0 <= i < j < |all| ensures all[i] != all[j] {
      if i < |a| <= j {
        assert all[i] in a && all[j] in b;
      }
    }
  }

  lemma LoadedBehind(paths: set<string>, objects: Objects, f: string, q: seq<string>)
    requires "" !in Firsts(paths) && f in Firsts(paths) && [] in objects
    ensures Loaded(paths, objects, [f] + q) <==> q == [] || Loaded(Forwarded(paths, f), Behind(objects, f), q)
  {
    RequestedBehind(paths, f, q);
    ReachedBehind(objects, f, q);
  }

  /** The log is that of one relation: all that is loaded through it, each path once and in order. */
  ghost predicate CoversOne(log: seq<seq<string>>, paths: set<string>, objects: Objects, f: string) {
    Once(log) && ParentsFirst(log) && forall q :: q in log <==> q != [] && q[0] == f && Loaded(paths, objects, q)
  }

  lemma OneRelationHas(paths: set<string>, objects: Objects, f: string, below: seq<seq<string>>, q: seq<string>)
    requires "" !in Firsts(paths) && f in Firsts(paths) && [] in objects
    requires LoadsExactly(below, Forwarded(paths, f), Behind(objects, f))
    ensures q in [[f]] + Under(f, below) <==> q != [] && q[0] == f && Loaded(paths, objects, q)
  {
    UnderFacts(f, below);
    if q != [] && q[0] == f {
      assert q == [f] + q[1..];
      LoadedBehind(paths, objects, f, q[1..]);
      assert q[1..] == [] <==> q == [f];
    }
  }

  lemma OneRelationLog(paths: set<string>, objects: Objects, f: string, below: seq<seq<string>>)
    requires "" !in Firsts(paths) && f in Firsts(paths) && [] in objects
    requires LoadsExactly(below, Forwarded(paths, f), Behind(objects, f))
    ensures CoversOne([[f]] + Under(f, below), paths, objects, f)
  {
    UnderFacts(f, below);
    assert [] !in below;
    assert [f] !in Under(f, below) by { assert [f][1..] == []; }
    OnceAppend([[f]], Under(f, below));
    ParentsUnder(f, below);
    forall q ensures q in [[f]] + Under(f, below) <==> q != [] && q[0] == f && Loaded(paths, objects, q) {
      OneRelationHas(paths, objects, f, below, q);
    }
  }

  lemma CoversMore(paths: set<string>, objects: Objects, f: string, added: seq<seq<string>>, log: seq<seq<string>>,
                   done: set<string>)
    requires CoversOne(added, paths, objects, f) && f !in done && Covers(log, paths, objects, done)
    ensures Covers(log + added, paths, objects, done + {f})
  {
    OnceAppend(log, added);
    ParentsAppend(log, added);
  }

  /** One relation and all that is loaded behind it join the log of a level. */
  lemma LevelLog(paths: set<string>, objects: Objects, f: string, below: seq<seq<string>>, log: seq<seq<string>>,
                 done: set<string>)
    requires "" !in Firsts(paths) && f in Firsts(paths) && f !in done && [] in objects
    requires LoadsExactly(below, Forwarded(paths, f), Behind(objects, f))
    requires Covers(log, paths, objects, done)
    ensures Covers(log + [[f]] + Under(f, below), paths, objects, done + {f})
  {
    OneRelationLog(paths, objects, f, below);
    CoversMore(paths, objects, f, [[f]] + Under(f, below), log, done);
    assert log + [[f]] + Under(f, below) == log + ([[f]] + Under(f, below));
  }

  lemma RequestedFirst(paths: set<string>, q: seq<string>)
    requires "" !in Firsts(paths) && Requested(paths, q)
    ensures q[0] in Firsts(paths)
  {
    var p :| p in paths && q <= Segments(p);
    assert Partition(p).0 in Firsts(paths);
    SegmentsOf(p);
    assert q[0] == Segments(p)[0];
  }

  lemma WholeLevel(log: seq<seq<string>>, paths: set<string>, objects: Objects)
    requires Covers(log, paths, objects, Firsts(paths)) && "" !in Firsts(paths)
    ensures LoadsExactly(log, paths, objects)
  {
    forall q | Requested(paths, q) ensures q[0] in Firsts(paths) {
      RequestedFirst(paths, q);
    }
  }

  lemma NothingLoaded(paths: set<string>, objects: Objects)
    requires [] !in objects
    ensures LoadsExactly([], paths, objects)
  {
    forall q | Requested(paths, q) ensures !Reached(objects, q) {
      assert q[..0] == [];
    }
  }

  ghost predicate Bounded(paths: set<string>, n: int) {
    forall p <- paths :: |p| <= n
  }

  lemma ShorterBehind(paths: set<string>, f: string, bound: nat)
    requires f in Firsts(paths) && f != "" && Bounded(paths, bound)
    ensures bound > 0 && Bounded(Forwarded(paths, f), bound - 1)
  {}

  ghost function Longest(paths: set<string>): (n: nat)
    ensures Bounded(paths, n)
  {
    if paths == {} then 0
    else
      var p :| p in paths;
      var n := Longest(paths - {p});
      if |p| > n then |p| else n
  }

  ghost predicate Progress(g: Relations, fields: map<string, Model>, paths: set<string>, objects: Objects,
                           log: seq<seq<string>>, done: set<string>)
  {
    Covers(log, paths, objects, done) && DoneSound(g, fields, paths, objects, done)
  }

  /** What is forwarded behind `f` names relations only. */
  ghost predicate NamesKnown(g: Relations, fields: map<string, Model>, paths: set<string>, f: string) {
    f in fields && fields[f] in g && Firsts(Forwarded(paths, f)) <= g[fields[f]].Keys
  }

  /** The prefetch maps of a level: the querysets of its relations, each with what is forwarded. */
  ghost predicate QueriesFor(g: Relations, fields: map<string, Model>, paths: set<string>,
                             queries: map<string, map<string, set<string>>>)
  {
    forall f <- queries :: NamesKnown(g, fields, paths, f) && queries[f] == FirstLevel(Forwarded(paths, f))
  }

  /** `_make_prefetch_queries`: all names forwarded to the next level are looked at before anything is
      loaded. */
  method MakeQueries(g: Relations, fields: map<string, Model>, ghost paths: set<string>, m: map<string, set<string>>)
    returns (r: Result<map<string, map<string, set<string>>>, string>)
    requires m == FirstLevel(paths) && forall f <- m :: f in fields && fields[f] in g
    ensures r.Ok? ==> r.value.Keys == Firsts(paths) && QueriesFor(g, fields, paths, r.value)
    ensures r.Err? ==> exists f <- Firsts(paths) :: !NamesKnown(g, fields, paths, f)
  {
    var queries: map<string, map<string, set<string>>> := map[];
    var left := m.Keys;
    while left != {}
      invariant left <= m.Keys && queries.Keys == m.Keys - left
      invariant QueriesFor(g, fields, paths, queries)
      decreases |left|
    {
      var f :| f in left;
      var query := PrefetchMap(g, fields[f], m[f]);
      if query.Err? {
        assert !NamesKnown(g, fields, paths, f);
        return Err(query.error);
      }
      queries := queries[f := query.value];
      left := left - {f};
    }
    return Ok(queries);
  }

  /** `_do_prefetch` for one relation: it is loaded, and then what is forwarded to its objects. */
  method LoadRelation(g: Relations, fields: map<string, Model>, ghost paths: set<string>, f: string,
                      query: map<string, set<string>>, objects: Objects, log: seq<seq<string>>,
                      ghost done: set<string>, ghost bound: nat)
    returns (r: Result<seq<seq<string>>, string>)
    requires ValidRelations(g) && "" !in Firsts(paths) && Bounded(paths, bound) && [] in objects
    requires f in Firsts(paths) && f !in done
    requires NamesKnown(g, fields, paths, f) && query == FirstLevel(Forwarded(paths, f))
    requires Progress(g, fields, paths, objects, log, done)
    ensures r.Err? ==> !SoundBehindOne(g, fields, paths, objects, f)
    ensures r.Ok? ==> Progress(g, fields, paths, objects, r.value, done + {f})
    decreases bound, 0
  {
    ShorterBehind(paths, f, bound);
    var below := ExecuteQueries(g, fields[f], Forwarded(paths, f), query, Behind(objects, f), bound - 1);
    if below.Err? {
      return Err(below.error);
    }
    LevelLog(paths, objects, f, below.value, log, done);
    return Ok(log + [[f]] + Under(f, below.value));
  }

  /** The relations of one level, in whatever order the map gives them. */
  method LoadRelations(g: Relations, fields: map<string, Model>, ghost paths: set<string>,
                       queries: map<string, map<string, set<string>>>, objects: Objects, ghost bound: nat)
    returns (r: Result<seq<seq<string>>, string>)
    requires ValidRelations(g) && "" !in Firsts(paths) && Bounded(paths, bound) && [] in objects
    requires queries.Keys == Firsts(paths) && QueriesFor(g, fields, paths, queries)
    ensures r.Err? ==> !DoneSound(g, fields, paths, objects, Firsts(paths))
    ensures r.Ok? ==> Progress(g, fields, paths, objects, r.value, Firsts(paths))
    decreases bound, 1
  {
    var log: seq<seq<string>> := [];
    var left := queries.Keys;
    while left != {}
      invariant left <= queries.Keys
      invariant Progress(g, fields, paths, objects, log, queries.Keys - left)
      decreases |left|
    {
      var f :| f in left;
      var more := LoadRelation(g, fields, paths, f, queries[f], objects, log, queries.Keys - left, bound);
      if more.Err? {
        return Err(more.error);
      }
      assert queries.Keys - (left - {f}) == (queries.Keys - left) + {f};
      log, left := more.value, left - {f};
    }
    assert queries.Keys - left == queries.Keys;
    return Ok(log);
  }

  lemma UnknownNext(g: Relations, fields: map<string, Model>, paths: set<string>, objects: Objects)
    requires ValidRelations(g) && (forall f <- Firsts(paths) :: f in fields && fields[f] in g)
    requires exists f <- Firsts(paths) :: !NamesKnown(g, fields, paths, f)
    ensures !DoneSound(g, fields, paths, objects, Firsts(paths))
  {
    var f :| f in Firsts(paths) && !NamesKnown(g, fields, paths, f);
    UnknownFirst(g, fields[f], Forwarded(paths, f), Behind(objects, f));
    assert !SoundBehindOne(g, fields, paths, objects, f);
  }

  /** `_execute_prefetch_queries`, for the objects of one level: nothing at all when there are none. The
      log names each relation path when it is loaded; `bound` limits the length of the paths. */
  method ExecuteQueries(g: Relations, model: Model, ghost paths: set<string>, m: map<string, set<string>>,
                        objects: Objects, ghost bound: nat)
    returns (r: Result<seq<seq<string>>, string>)
    requires ValidRelations(g) && model in g && Bounded(paths, bound)
    requires m == FirstLevel(paths) && Firsts(paths) <= g[model].Keys
    ensures r.Ok? <==> AllSound(g, model, paths, objects)
    ensures r.Ok? ==> LoadsExactly(r.value, paths, objects)
    decreases bound, 2
  {
    SoundBehind(g, model, paths, objects);
    if [] !in objects {
      NothingLoaded(paths, objects);
      return Ok([]);
    }
    var queries := MakeQueries(g, g[model], paths, m);
    if queries.Err? {
      UnknownNext(g, g[model], paths, objects);
      return Err(queries.error);
    }
    r := LoadRelations(g, g[model], paths, queries.value, objects, bound);
    if r.Ok? {
      WholeLevel(r.value, paths, objects);
    }
  }

  /** Prefetching any set of paths terminates. It loads exactly the non-empty prefixes of the paths up
      to which there are objects, each once and behind the one it goes on from, and raises exactly when
      a name that it looks at is not a relation: behind an empty level nothing is loaded and no name is
      looked at. */
  method Prefetch(g: Relations, model: Model, paths: set<string>, objects: Objects)
    returns (r: Result<seq<seq<string>>, string>)
    requires ValidRelations(g) && model in g
    ensures r.Ok? <==> AllSound(g, model, paths, objects)
    ensures r.Ok? ==> LoadsExactly(r.value, paths, objects)
  {
    var m := PrefetchMap(g, model, paths);
    if m.Err? {
      UnknownFirst(g, model, paths, objects);
      return Err(m.error);
    }
    r := ExecuteQueries(g, model, paths, m.value, objects, Longest(paths));
  }

  /** With objects at every level the names looked at are all names, and everything requested is
      loaded. */
  lemma EverywhereObjects(g: Relations, model: Model, paths: set<string>, objects: Objects)
    requires forall q :: Requested(paths, q) ==> Reached(objects, q)
    ensures AllSound(g, model, paths, objects) <==> forall p <- paths :: Leads(g, model, Segments(p))
    ensures forall q :: Loaded(paths, objects, q) <==> Requested(paths, q)
  {
    forall p <- paths
      ensures Sound(g, model, Segments(p), objects) <==> Leads(g, model, Segments(p))
    {
      var segments := Segments(p);
      var n := |segments| - 1;
      assert segments[..n + 1] == segments && Requested(paths, segments);
      ReachedPrefix(objects, segments, n);
      assert SoundAt(g, model, segments, objects, n) <==> Leads(g, model, segments);
      if Leads(g, model, segments) {
        forall k | 0 <= k < |segments| ensures SoundAt(g, model, segments, objects, k) {
          PrefixLeads(g, model, segments, k + 1);
        }
      }
    }
  }

  lemma ReachedPrefix(objects: Objects, q: seq<string>, n: nat)
    requires n <= |q| && Reached(objects, q)
    ensures Reached(objects, q[..n])
  {
    assert forall k :: 0 <= k < n ==> q[..n][..k] == q[..k];
  }

  lemma {:induction false} PrefixLeads(g: Relations, model: Model, segments: seq<string>, k: nat)
    requires k <= |segments| && Leads(g, model, segments)
    ensures Leads(g, model, segments[..k])
    decreases |segments|
  {
    if k > 0 {
      PrefixLeads(g, g[model][segments[0]], segments[1..], k - 1);
      assert segments[..k][1..] == segments[1..][..k - 1];
    }
  }

  /** A name that is not a relation goes unnoticed behind a relation without objects. */
  lemma EmptyLevelHides(g: Relations, model: Model, f: string, name: string)
    requires ValidRelations(g) && model in g && f in g[model] && GoodName(f) && GoodName(name)
    requires name !in g[g[model][f]]
    ensures var path := Written([f, name]);
            && AllSound(g, model, {path}, {})
            && !AllSound(g, model, {path}, {[]})
  {
    var path, segments := Written([f, name]), [f, name];
    SegmentsOfWritten(segments);
    assert segments[..1] == [f] && segments[..2] == segments && segments[..0] == [];
    SoundStep(g, model, segments, {});
    SoundStep(g, model, segments, {[]});
    var rest := segments[1..];
    assert rest == [name];
    assert !SoundAt(g, g[model][f], rest, Behind({[]}, f), 0);
  }
}
