// The alias-to-connection storage and its shadowing by transactions (tortoise/connection.py;
// tortoise/transactions.py, `in_transaction`; the set/reset pair of
// tortoise/backends/base/client.py, TransactionContext).
module Connections {
  import opened Common

  /** A client of its own, or a transaction wrapper; `id` tells objects apart. */
  datatype Conn = Client(id: nat) | Wrapper(id: nat)

  type Aliases = map<string, Conn>

  /** Code of one task. `Transaction(a, between, body)` calls `in_transaction(a)`, runs `between`,
      and then enters the context around `body`. */
  datatype Op =
    | Get(alias: string)
    | Discard(alias: string)
    | Raise
    | Transaction(alias: string, between: seq<Op>, body: seq<Op>)

  // ---- As values -------------------------------------------------------------------------------

  datatype State = State(conns: Aliases, next: nat)

  /** A lookup in the code, and the connection it was given. */
  datatype Seen = Seen(alias: string, conn: Conn)

  /** How code ends: the state, whether an exception left it, and what its lookups were given. */
  datatype Run = Run(state: State, raised: bool, seen: seq<Seen>) {
    /** This run, and then another. */
    function Then(next: Run): Run {
      next.(seen := seen + next.seen)
    }
  }

  function OfGet(config: set<string>, alias: string, s: State): Run {
    if alias in s.conns then Run(s, false, [])
    else if alias in config then Run(State(s.conns[alias := Client(s.next)], s.next + 1), false, [])
    else Run(s, true, [])
  }

  function OfLookup(config: set<string>, alias: string, s: State): Run {
    var g := OfGet(config, alias, s);
    if g.raised then g else g.(seen := [Seen(alias, g.state.conns[alias])])
  }

  /** `reset`: the bindings of before, and whatever else was bound meanwhile. */
  function Merge(before: Aliases, inner: Aliases): Aliases {
    (map a | a in inner && a !in before :: inner[a]) + before
  }

  function OfOps(config: set<string>, ops: seq<Op>, s: State): Run
    decreases ops
  {
    if ops == [] then Run(s, false, [])
    else
      var r := OfOp(config, ops[0], s);
      if r.raised then r else r.Then(OfOps(config, ops[1..], r.state))
  }

  function OfOp(config: set<string>, op: Op, s: State): Run
    decreases op
  {
    match op
    case Get(alias) => OfLookup(config, alias, s)
    case Discard(alias) => Run(s.(conns := s.conns - {alias}), false, [])
    case Raise => Run(s, true, [])
    case Transaction(alias, between, body) =>
      var g := OfGet(config, alias, s);
      if g.raised then g
      else
        var b := OfOps(config, between, g.state);
        if b.raised then b
        else if g.state.conns[alias].Wrapper? then b.Then(OfOps(config, body, b.state))
        else
          var r := OfOps(config, body, Entered(alias, b.state));
          b.Then(r.(state := r.state.(conns := Merge(b.state.conns, r.state.conns))))
  }

  /** The state just after entering a transaction: the alias is shadowed by a new wrapper. */
  function Entered(alias: string, s: State): State {
    State(s.conns[alias := Wrapper(s.next)], s.next + 1)
  }

  /** The copying loop of `reset`. */
  method CopyMissing(before: Aliases, inner: Aliases) returns (merged: Aliases)
    ensures merged == Merge(before, inner)
  {
    merged := before;
    var rest := inner.Keys;
    while rest != {}
      invariant rest <= inner.Keys && Copied(before, inner, rest, merged)
      decreases |rest|
    {
      ghost var some := Member(rest);
      var alias :| alias in rest;
      CopiedOneMore(before, inner, rest, merged, alias);
      if alias !in merged {
        merged := merged[alias := inner[alias]];
      }
      rest := rest - {alias};
    }
    AllCopied(before, inner, merged);
  }

  /** Everything of before is in `merged`, and what else there was inside except for `rest`. */
  ghost predicate Copied(before: Aliases, inner: Aliases, rest: set<string>, merged: Aliases) {
    && (forall a :: a in merged <==> a in before || (a in inner && a !in rest))
    && (forall a <- merged :: merged[a] == if a in before then before[a] else inner[a])
  }

  lemma CopiedOneMore(before: Aliases, inner: Aliases, rest: set<string>, merged: Aliases, alias: string)
    requires Copied(before, inner, rest, merged) && alias in rest && rest <= inner.Keys
    ensures Copied(before, inner, rest - {alias}, if alias in merged then merged else merged[alias := inner[alias]])
  {}

  lemma AllCopied(before: Aliases, inner: Aliases, merged: Aliases)
    requires Copied(before, inner, {}, merged)
    ensures merged == Merge(before, inner)
  {}

  // ---- The handler -----------------------------------------------------------------------------

  /** A storage dict; contexts hold references to such dicts. */
  class Storage {
    var conns: Aliases

    constructor (conns: Aliases)
      ensures this.conns == conns
    {
      this.conns := conns;
    }
  }

  class ConnectionHandler {
    var storage: Storage      // the value of the context variable
    const config: set<string>
    var next: nat             // the next object identity

    constructor (config: set<string>)
      ensures fresh(storage) && storage.conns == map[] && this.config == config && next == 0
    {
      storage := new Storage(map[]);
      this.config := config;
      next := 0;
    }

    ghost function Now(): State
      reads this, storage
    {
      State(storage.conns, next)
    }

    /** Finds the connection, creating it in the current dict when needed. */
    method GetConnection(alias: string) returns (conn: Option<Conn>)
      modifies this`next, storage
      ensures Run(Now(), conn.None?, []) == OfGet(config, alias, old(Now()))
      ensures conn.Some? ==> alias in storage.conns && conn.value == storage.conns[alias]
    {
      if alias in storage.conns {
        return Some(storage.conns[alias]);
      }
      if alias !in config {
        return None;
      }
      conn := Some(Client(next));
      storage.conns := storage.conns[alias := Client(next)];
      next := next + 1;
    }

    /** Installs a copy of the current dict with `alias` rebound; the token is the old dict. */
    method Set(alias: string, conn: Conn) returns (token: Storage)
      modifies this`storage
      ensures token == old(storage) && fresh(storage)
      ensures storage.conns == old(storage.conns)[alias := conn]
    {
      token := storage;
      storage := new Storage(storage.conns[alias := conn]);
    }

    method DiscardConnection(alias: string)
      modifies storage
      ensures storage.conns == old(storage.conns) - {alias}
    {
      storage.conns := storage.conns - {alias};
    }

    method Reset(token: Storage)
      requires token != storage
      modifies this`storage, token
      ensures storage == token && token.conns == Merge(old(token.conns), old(storage.conns))
    {
      var current := storage;
      storage := token;
      token.conns := CopyMissing(token.conns, current.conns);
    }

    /** Runs the code; when it is over, normally or by an exception, the same dict is current as
        before, with the contents that the value-level reading gives. */
    method RunOps(ops: seq<Op>) returns (raised: bool, seen: seq<Seen>)
      modifies this, storage
      ensures storage == old(storage)
      ensures Run(Now(), raised, seen) == OfOps(config, ops, old(Now()))
      decreases ops
    {
      raised, seen := false, [];
      if ops != [] {
        raised, seen := RunOp(ops[0]);
        if !raised {
          var more;
          raised, more := RunOps(ops[1..]);
          seen := seen + more;
        }
      }
    }

    method RunOp(op: Op) returns (raised: bool, seen: seq<Seen>)
      modifies this, storage
      ensures storage == old(storage)
      ensures Run(Now(), raised, seen) == OfOp(config, op, old(Now()))
      decreases op
    {
      raised, seen := false, [];
      match op
      case Get(alias) =>
        var conn := GetConnection(alias);
        if conn.None? {
          return true, [];
        }
        seen := [Seen(alias, conn.value)];
      case Discard(alias) =>
        DiscardConnection(alias);
      case Raise => raised := true;
      case Transaction(alias, between, body) =>
        var conn := GetConnection(alias);
        if conn.None? {
          return true, [];
        }
        raised, seen := RunOps(between);
        if raised {
          return;
        }
        var more;
        if conn.value.Wrapper? {
          raised, more := RunOps(body);
        } else {
          var w := Wrapper(next);
          next := next + 1;
          var token := Set(alias, w);
          raised, more := RunOps(body);
          Reset(token);
        }
        seen := seen + more;
    }
  }

  // ---- What shadowing guarantees ---------------------------------------------------------------

  /** Every bound object exists already. */
  ghost predicate Known(s: State) {
    forall a <- s.conns :: s.conns[a].id < s.next
  }

  /** In `t`, an alias is bound as in `s` or to an object that is new since `s`. */
  ghost predicate Descends(s: State, t: State) {
    && s.next <= t.next
    && forall a <- t.conns :: (a in s.conns && t.conns[a] == s.conns[a]) || s.next <= t.conns[a].id < t.next
  }

  lemma {:induction false} OpsDescend(config: set<string>, ops: seq<Op>, s: State)
    requires Known(s)
    ensures Known(OfOps(config, ops, s).state) && Descends(s, OfOps(config, ops, s).state)
    decreases ops, 0
  {
    if ops != [] {
      OpDescends(config, ops[0], s);
      var r := OfOp(config, ops[0], s);
      if !r.raised {
        OpsDescend(config, ops[1..], r.state);
      }
    }
  }

  lemma {:induction false} OpDescends(config: set<string>, op: Op, s: State)
    requires Known(s)
    ensures Known(OfOp(config, op, s).state) && Descends(s, OfOp(config, op, s).state)
    decreases op, 0
  {
    if op.Transaction? {
      var g := OfGet(config, op.alias, s);
      if !g.raised {
        OpsDescend(config, op.between, g.state);
        var b := OfOps(config, op.between, g.state);
        if !b.raised {
          OpsDescend(config, op.body, if g.state.conns[op.alias].Wrapper? then b.state else Entered(op.alias, b.state));
        }
      }
    }
  }

  /** A transaction that really opens one: it is entered in state `s`. */
  ghost predicate Opens(config: set<string>, op: Op, s0: State, s: State) {
    && op.Transaction?
    && !OfGet(config, op.alias, s0).raised
    && OfGet(config, op.alias, s0).state.conns[op.alias].Client?
    && !OfOps(config, op.between, OfGet(config, op.alias, s0).state).raised
    && OfOps(config, op.between, OfGet(config, op.alias, s0).state).state == s
  }

  /** Leaving a transaction block, normally or by an exception, restores every alias bound when it
      was entered and keeps exactly those further bindings that its body left. */
  lemma LeavingRestores(config: set<string>, op: Op, s0: State, s: State)
    requires Opens(config, op, s0, s)
    ensures var inner, after := OfOps(config, op.body, Entered(op.alias, s)).state, OfOp(config, op, s0).state;
            && (forall a <- s.conns :: a in after.conns && after.conns[a] == s.conns[a])
            && (forall a :: a !in s.conns ==> (a in after.conns <==> a in inner.conns))
            && (forall a <- after.conns :: a !in s.conns ==> after.conns[a] == inner.conns[a])
  {}

  /** The wrapper stays bound after its block exactly when its alias was discarded between
      `in_transaction()` and entering the block, and is still bound to it at the end of the body;
      and then under no other alias. */
  lemma WrapperLeftBehind(config: set<string>, op: Op, s0: State, s: State)
    requires Known(s0) && Opens(config, op, s0, s)
    ensures var inner, after := OfOps(config, op.body, Entered(op.alias, s)).state, OfOp(config, op, s0).state;
            var w := Wrapper(s.next);
            forall a :: (a in after.conns && after.conns[a] == w) <==>
                        (a == op.alias && op.alias !in s.conns && op.alias in inner.conns && inner.conns[op.alias] == w)
  {
    OpsDescend(config, op.between, OfGet(config, op.alias, s0).state);
    assert Known(s);
    OpsDescend(config, op.body, Entered(op.alias, s));
  }

  /** An alias discarded between `in_transaction()` and entering: the wrapper stays bound to it. */
  lemma DiscardLeavesWrapper(alias: string)
    ensures var op := Transaction(alias, [Discard(alias)], []);
            OfOp({alias}, op, State(map[], 0)).state.conns == map[alias := Wrapper(1)]
  {
    var op, bound, none := Transaction(alias, [Discard(alias)], []), State(map[alias := Client(0)], 1), State(map[], 1);
    assert OfGet({alias}, alias, State(map[], 0)) == Run(bound, false, []);
    assert OfOp({alias}, Discard(alias), bound) == Run(none, false, []) by {
      assert bound.conns - {alias} == map[];
    }
    assert OfOps({alias}, op.between, bound) == Run(none, false, []);
    assert OfOps({alias}, op.body, Entered(alias, none)) == Run(Entered(alias, none), false, []);
  }

  /** With `async with in_transaction()` in one piece, no alias stays bound to the wrapper. */
  lemma NoWrapperLeftBehind(config: set<string>, op: Op, s0: State)
    requires Known(s0) && op.Transaction? && op.between == []
    requires Opens(config, op, s0, OfGet(config, op.alias, s0).state)
    ensures var s := OfGet(config, op.alias, s0).state;
            forall a <- OfOp(config, op, s0).state.conns :: OfOp(config, op, s0).state.conns[a] != Wrapper(s.next)
  {
    WrapperLeftBehind(config, op, s0, OfGet(config, op.alias, s0).state);
  }

  ghost predicate InOnePiece(ops: seq<Op>)
    decreases ops
  {
    forall op <- ops :: op.Transaction? ==> op.between == [] && InOnePiece(op.body)
  }

  /** Over a whole run of nested transactions, each entered where it is made: a task that starts
      outside any transaction ends outside any transaction. */
  lemma {:induction false} RunsEndOutside(config: set<string>, ops: seq<Op>, s: State)
    requires Known(s) && InOnePiece(ops)
    ensures var t := OfOps(config, ops, s).state;
            forall a <- t.conns :: t.conns[a].Wrapper? ==> a in s.conns && t.conns[a] == s.conns[a]
    decreases ops, 0
  {
    if ops != [] {
      OpDescends(config, ops[0], s);
      OpEndsOutside(config, ops[0], s);
      var r := OfOp(config, ops[0], s);
      if !r.raised {
        assert forall op <- ops[1..] :: op in ops;
        RunsEndOutside(config, ops[1..], r.state);
      }
    }
  }

  lemma {:induction false} OpEndsOutside(config: set<string>, op: Op, s: State)
    requires Known(s) && (op.Transaction? ==> op.between == [] && InOnePiece(op.body))
    ensures var t := OfOp(config, op, s).state;
            forall a <- t.conns :: t.conns[a].Wrapper? ==> a in s.conns && t.conns[a] == s.conns[a]
    decreases op, 0
  {
    if op.Transaction? {
      var g := OfGet(config, op.alias, s);
      if !g.raised {
        if g.state.conns[op.alias].Wrapper? {
          RunsEndOutside(config, op.body, g.state);
        } else {
          RunsEndOutside(config, op.body, Entered(op.alias, g.state));
        }
      }
    }
  }

  /** Outside any transaction. */
  ghost predicate Outside(s: State) {
    forall a <- s.conns :: s.conns[a].Client?
  }

  /** Code that starts outside any transaction and enters each where it is made: whatever happens
      inside the blocks (discards, exceptions, further transactions), an alias bound at the start is
      bound to the same connection at the end, unless the code itself discards it outside the blocks. */
  lemma {:induction false} OutsideBindingsStay(config: set<string>, ops: seq<Op>, s: State, a: string)
    requires Known(s) && Outside(s) && InOnePiece(ops) && a in s.conns && Discard(a) !in ops
    ensures var t := OfOps(config, ops, s).state; Outside(t) && a in t.conns && t.conns[a] == s.conns[a]
    decreases |ops|
  {
    if ops != [] {
      assert ops[0] in ops;
      OpDescends(config, ops[0], s);
      OpEndsOutside(config, ops[0], s);
      OutsideBindingStays(config, ops[0], s, a);
      var r := OfOp(config, ops[0], s);
      if !r.raised {
        assert forall op <- ops[1..] :: op in ops;
        OutsideBindingsStay(config, ops[1..], r.state, a);
      }
    }
  }

  lemma OutsideBindingStays(config: set<string>, op: Op, s: State, a: string)
    requires Known(s) && Outside(s) && (op.Transaction? ==> op.between == []) && a in s.conns && op != Discard(a)
    ensures var t := OfOp(config, op, s).state; a in t.conns && t.conns[a] == s.conns[a]
  {
    if op.Transaction? && !OfGet(config, op.alias, s).raised {
      LeavingRestores(config, op, s, OfGet(config, op.alias, s).state);
    }
  }

  // ---- What code inside a block sees -----------------------------------------------------------

  /** The code nowhere discards the alias. */
  predicate Keeps(alias: string, ops: seq<Op>)
    decreases ops
  {
    forall op <- ops :: op != Discard(alias) && (op.Transaction? ==> Keeps(alias, op.between) && Keeps(alias, op.body))
  }

  /** The code nowhere opens a transaction on the alias. */
  predicate Leaves(alias: string, ops: seq<Op>)
    decreases ops
  {
    forall op <- ops :: op.Transaction? ==> op.alias != alias && Leaves(alias, op.between) && Leaves(alias, op.body)
  }

  /** Every lookup of the alias was given this connection. */
  predicate AllSee(seen: seq<Seen>, alias: string, conn: Conn) {
    forall x <- seen :: x.alias == alias ==> x.conn == conn
  }

  /** The alias is bound to `conn` at the end, and was wherever the run looked it up. */
  predicate Steady(r: Run, alias: string, conn: Conn) {
    alias in r.state.conns && r.state.conns[alias] == conn && AllSee(r.seen, alias, conn)
  }

  /** An alias bound to a wrapper, or one that no transaction is opened on, keeps its connection as long
      as nothing discards it: each lookup is given that same connection, however deep inside. */
  lemma {:induction false} SteadyOps(config: set<string>, ops: seq<Op>, s: State, alias: string)
    requires alias in s.conns && Keeps(alias, ops) && (s.conns[alias].Wrapper? || Leaves(alias, ops))
    ensures Steady(OfOps(config, ops, s), alias, s.conns[alias])
    decreases ops, 0
  {
    if ops != [] {
      assert ops[0] in ops;
      SteadyOp(config, ops[0], s, alias);
      var r := OfOp(config, ops[0], s);
      if !r.raised {
        assert forall op <- ops[1..] :: op in ops;
        SteadyOps(config, ops[1..], r.state, alias);
      }
    }
  }

  lemma {:induction false} SteadyOp(config: set<string>, op: Op, s: State, alias: string)
    requires alias in s.conns && op != Discard(alias)
    requires op.Transaction? ==> Keeps(alias, op.between) && Keeps(alias, op.body)
    requires s.conns[alias].Wrapper? ||
             (op.Transaction? ==> op.alias != alias && Leaves(alias, op.between) && Leaves(alias, op.body))
    ensures Steady(OfOp(config, op, s), alias, s.conns[alias])
    decreases op, 0
  {
    if op.Transaction? {
      var g := OfGet(config, op.alias, s);
      if !g.raised {
        SteadyOps(config, op.between, g.state, alias);
        var b := OfOps(config, op.between, g.state);
        if !b.raised {
          var at := if g.state.conns[op.alias].Wrapper? then b.state else Entered(op.alias, b.state);
          SteadyOps(config, op.body, at, alias);
        }
      }
    }
  }

  /** One piece of code after another: the second runs where the first ended, unless that raised. */
  lemma {:induction false} OneAfterAnother(config: set<string>, a: seq<Op>, b: seq<Op>, s: State)
    ensures var r := OfOps(config, a, s);
            OfOps(config, a + b, s) == if r.raised then r else r.Then(OfOps(config, b, r.state))
    decreases |a|
  {
    if a == [] {
      assert a + b == b;
      var r := OfOps(config, b, s);
      assert [] + r.seen == r.seen;
    } else {
      assert (a + b)[0] == a[0] && (a + b)[1..] == a[1..] + b;
      var r := OfOp(config, a[0], s);
      if !r.raised {
        OneAfterAnother(config, a[1..], b, r.state);
        var x := OfOps(config, a[1..], r.state);
        if !x.raised {
          var y := OfOps(config, b, x.state);
          assert (r.seen + x.seen) + y.seen == r.seen + (x.seen + y.seen);
        }
      }
    }
  }

  /** Inside a block that opens a transaction, as far as its code does not discard the alias, each lookup
      of it is given the wrapper made on entering, which no alias was bound to before. */
  lemma InsideSeesWrapper(config: set<string>, op: Op, s0: State, s: State, first: seq<Op>, rest: seq<Op>)
    requires Known(s0) && Opens(config, op, s0, s) && op.body == first + rest && Keeps(op.alias, first)
    ensures forall a <- s.conns :: s.conns[a] != Wrapper(s.next)
    ensures var before, inside := OfOps(config, op.between, OfGet(config, op.alias, s0).state).seen,
                                  OfOps(config, first, Entered(op.alias, s)).seen;
            && before + inside <= OfOp(config, op, s0).seen
            && AllSee(inside, op.alias, Wrapper(s.next))
  {
    OpsDescend(config, op.between, OfGet(config, op.alias, s0).state);
    OneAfterAnother(config, first, rest, Entered(op.alias, s));
    SteadyOps(config, first, Entered(op.alias, s), op.alias);
    var b, r := OfOps(config, op.between, OfGet(config, op.alias, s0).state),
                OfOps(config, first, Entered(op.alias, s));
    assert OfOp(config, op, s0).seen == b.seen + OfOps(config, op.body, Entered(op.alias, s)).seen;
    assert r.seen <= OfOps(config, op.body, Entered(op.alias, s)).seen;
  }

  /** Another alias that was bound on entering is given inside what it was given outside, as far as the
      code neither discards it nor opens a transaction on it. */
  lemma InsideSeesOthers(config: set<string>, op: Op, s0: State, s: State, first: seq<Op>, a: string)
    requires Opens(config, op, s0, s) && first <= op.body
    requires a != op.alias && a in s.conns && Keeps(a, first) && (s.conns[a].Wrapper? || Leaves(a, first))
    ensures AllSee(OfOps(config, first, Entered(op.alias, s)).seen, a, s.conns[a])
    ensures OfOps(config, [Get(a)], s).seen == [Seen(a, s.conns[a])]
  {
    SteadyOps(config, first, Entered(op.alias, s), a);
  }

  /** `in_transaction` on an alias bound to a wrapper makes no further wrapper: it only runs the code. */
  lemma InnerTransactionRunsItsCode(config: set<string>, alias: string, between: seq<Op>, body: seq<Op>, s: State)
    requires alias in s.conns && s.conns[alias].Wrapper?
    ensures OfOp(config, Transaction(alias, between, body), s) == OfOps(config, between + body, s)
  {
    OneAfterAnother(config, between, body, s);
  }

  /** A lookup gives a connection exactly for aliases that are bound or configured: the one bound, else a
      new client, which is then bound; the next lookup gives the same. */
  lemma LookupTwice(config: set<string>, alias: string, s: State)
    requires Known(s)
    ensures var r := OfOps(config, [Get(alias), Get(alias)], s);
            && (r.raised <==> alias !in s.conns && alias !in config)
            && (r.raised ==> r.state == s && r.seen == [])
            && (!r.raised ==> |r.seen| == 2 && r.seen[0] == r.seen[1] && r.seen[0].alias == alias)
            && (alias in s.conns ==> r.state == s && r.seen[0].conn == s.conns[alias])
            && (!r.raised && alias !in s.conns ==>
                  && r.seen[0].conn.Client? && (forall a <- s.conns :: s.conns[a] != r.seen[0].conn)
                  && r.state.conns == s.conns[alias := r.seen[0].conn])
  {
    var r := OfLookup(config, alias, s);
    assert [Get(alias), Get(alias)][1..] == [Get(alias)] && [Get(alias)][1..] == [];
    if !r.raised {
      assert OfOps(config, [Get(alias)], r.state) == OfLookup(config, alias, r.state).Then(Run(r.state, false, []));
    }
  }

  // ---- Exceptions ------------------------------------------------------------------------------

  /** A block raises exactly when its body does: it swallows no exception and adds none. */
  lemma BlockRaisesAsItsBody(config: set<string>, op: Op, s0: State, s: State)
    requires Opens(config, op, s0, s)
    ensures OfOp(config, op, s0).raised <==> OfOps(config, op.body, Entered(op.alias, s)).raised
  {}

  /** Nothing in the code raises, and all its aliases are configured. */
  predicate Harmless(config: set<string>, ops: seq<Op>)
    decreases ops
  {
    forall op <- ops ::
      && !op.Raise?
      && ((op.Get? || op.Transaction?) ==> op.alias in config)
      && (op.Transaction? ==> Harmless(config, op.between) && Harmless(config, op.body))
  }

  /** Code ends at its first `Raise`, whatever stands behind it, and harmless code does not raise. */
  lemma {:induction false} RaisesAtTheFirst(config: set<string>, first: seq<Op>, rest: seq<Op>, s: State)
    requires Harmless(config, first)
    ensures !OfOps(config, first, s).raised
    ensures OfOps(config, first + [Raise] + rest, s) == OfOps(config, first, s).(raised := true)
  {
    HarmlessOps(config, first, s);
    OneAfterAnother(config, first, [Raise] + rest, s);
    assert first + [Raise] + rest == first + ([Raise] + rest);
    var r := OfOps(config, first, s);
    assert OfOps(config, [Raise] + rest, r.state) == Run(r.state, true, []);
    assert r.seen + [] == r.seen;
  }

  lemma {:induction false} HarmlessOps(config: set<string>, ops: seq<Op>, s: State)
    requires Harmless(config, ops)
    ensures !OfOps(config, ops, s).raised
    decreases ops, 0
  {
    if ops != [] {
      assert ops[0] in ops;
      HarmlessOp(config, ops[0], s);
      assert forall op <- ops[1..] :: op in ops;
      HarmlessOps(config, ops[1..], OfOp(config, ops[0], s).state);
    }
  }

  lemma {:induction false} HarmlessOp(config: set<string>, op: Op, s: State)
    requires !op.Raise? && ((op.Get? || op.Transaction?) ==> op.alias in config)
    requires op.Transaction? ==> Harmless(config, op.between) && Harmless(config, op.body)
    ensures !OfOp(config, op, s).raised
    decreases op, 0
  {
    if op.Transaction? {
      var g := OfGet(config, op.alias, s);
      HarmlessOps(config, op.between, g.state);
      var b := OfOps(config, op.between, g.state);
      HarmlessOps(config, op.body, if g.state.conns[op.alias].Wrapper? then b.state else Entered(op.alias, b.state));
    }
  }
}
