// One task inside `async with in_transaction()`: the outer context, contexts nested in it, explicit
// commits and rollbacks, and exceptions (tortoise/backends/base/client.py, TransactionContext and
// its variants; tortoise/backends/sqlite/client.py, TransactionWrapper).
module TransactionContexts {
  import opened Common
  import opened RawStore

  /** How code ends. `Stuck` stands for waiting on a lock the waiting task itself holds. */
  datatype Outcome = Normal | ManagementError | OtherError | Stuck

  /** What the body of a block may do. `Try` catches every exception. */
  datatype Action =
    | Execute(stmt: Stmt)
    | Commit
    | Rollback
    | Raise(management: bool)
    | Try(body: seq<Action>)
    | Nested(body: seq<Action>)

  // ---- What a body does, as a value ------------------------------------------------------------

  /** Events sent, the finalised flag afterwards, the outcome, and how deep nested contexts went. */
  datatype Effect = Effect(events: seq<Event>, finalized: bool, outcome: Outcome, depth: nat)

  /** `held`: the wrapper's own lock is taken, by an enclosing nested pooled context. */
  function OfBody(pooled: bool, held: bool, body: seq<Action>, finalized: bool): Effect
    decreases body
  {
    if body == [] then Effect([], finalized, Normal, 0)
    else
      var n := |body| - 1;
      var r := OfBody(pooled, held, body[..n], finalized);
      if r.outcome != Normal then r
      else
        var a := OfAction(pooled, held, body[n], r.finalized);
        Effect(r.events + a.events, a.finalized, a.outcome, Max(r.depth, a.depth))
  }

  function OfAction(pooled: bool, held: bool, action: Action, finalized: bool): Effect
    decreases action
  {
    match action
    case Execute(s) => Effect([Exec(s)], finalized, Normal, 0)
    case Commit => OfEnd(true, finalized)
    case Rollback => OfEnd(false, finalized)
    case Raise(management) => Effect([], finalized, if management then ManagementError else OtherError, 0)
    case Try(body) =>
      var r := OfBody(pooled, held, body, finalized);
      r.(outcome := if r.outcome == Stuck then Stuck else Normal)
    case Nested(body) =>
      if pooled && held then Effect([], finalized, Stuck, 1)
      else
        var r := OfBody(pooled, true, body, finalized);
        if !r.finalized && r.outcome == OtherError
        then Effect(r.events + [Finish(false)], true, OtherError, r.depth + 1)
        else r.(depth := r.depth + 1)
  }

  function OfEnd(commit: bool, finalized: bool): Effect {
    if finalized then Effect([], true, ManagementError, 0) else Effect([Finish(commit)], true, Normal, 0)
  }

  function Max(a: nat, b: nat): nat {
    if a < b then b else a
  }

  /** What the outer context sends when its body is over. */
  function AtExit(finalized: bool, outcome: Outcome): seq<Event> {
    if finalized then []
    else match outcome
      case Normal => [Finish(true)]
      case OtherError => [Finish(false)]
      case ManagementError => []
      case Stuck => []
  }

  /** Everything sent between BEGIN and the end of the outer block. */
  function OfBlock(pooled: bool, body: seq<Action>): seq<Event> {
    var r := OfBody(pooled, false, body, false);
    r.events + AtExit(r.finalized, r.outcome)
  }

  // ---- The objects -----------------------------------------------------------------------------

  class RawConnection {
    var state: Raw

    constructor (db: Db)
      ensures state == Closed(db)
    {
      state := Closed(db);
    }

    method Send(e: Event)
      modifies this
      ensures state == Sent(old(state), [e])
    {
      assert [e][..0] == [];
      state := match e case Exec(s) => state.Exec(s) case Finish(c) => state.Finish(c);
    }
  }

  class TransactionWrapper {
    const connection: RawConnection
    const pooled: bool
    var finalized: bool
    var trxlock: bool       // the lock taken by nested pooled contexts
    ghost var log: seq<Event>

    constructor (connection: RawConnection, pooled: bool)
      ensures this.connection == connection && this.pooled == pooled
      ensures !finalized && !trxlock && log == []
    {
      this.connection, this.pooled := connection, pooled;
      finalized, trxlock, log := false, false, [];
    }

    /** The wrapper and the connection look as they do after effect `e`. */
    ghost predicate Shows(e: Effect, outcome: Outcome, log0: seq<Event>, raw0: Raw)
      reads this`log, this`finalized, connection
    {
      && outcome == e.outcome && finalized == e.finalized
      && log == log0 + e.events && connection.state == Sent(raw0, e.events)
    }

    /** SQLite commits what an earlier user of its one connection may have left open, then begins. A
        pool hands out connections that are in no transaction, and the pooled backends just begin. */
    method Start() returns (ok: bool)
      requires pooled ==> connection.state.Closed?
      modifies connection
      ensures ok
      ensures var db := old(connection.state).Finish(true).db; connection.state == Open(db, db)
    {
      if !pooled {
        connection.state := connection.state.Finish(true);
      }
      var begun := connection.state.Begin();
      ok := begun.Some?;
      if ok {
        connection.state := begun.value;
      }
    }

    method Execute(s: Stmt)
      modifies this`log, connection
      ensures log == old(log) + [Exec(s)] && connection.state == Sent(old(connection.state), [Exec(s)])
    {
      connection.Send(Exec(s));
      log := log + [Exec(s)];
    }

    method End(commit: bool) returns (outcome: Outcome)
      modifies this`log, this`finalized, connection
      ensures finalized
      ensures if old(finalized) then
                outcome == ManagementError && log == old(log) && connection.state == old(connection.state)
              else
                outcome == Normal && log == old(log) + [Finish(commit)]
                && connection.state == Sent(old(connection.state), [Finish(commit)])
    {
      if finalized {
        return ManagementError;
      }
      connection.Send(Finish(commit));
      finalized := true;
      log := log + [Finish(commit)];
      return Normal;
    }

    /** NestedTransactionContext and NestedTransactionPooledContext, around `body`. */
    method RunNested(body: seq<Action>) returns (outcome: Outcome)
      modifies this`log, this`finalized, this`trxlock, connection
      ensures var e := OfAction(pooled, old(trxlock), Nested(body), old(finalized));
              Shows(e, outcome, old(log), old(connection.state))
      ensures outcome != Stuck ==> trxlock == old(trxlock)
      decreases body, 1
    {
      if pooled {
        if trxlock {
          return Stuck;
        }
        trxlock := true;
      }
      ghost var raw := connection.state;
      ghost var r := OfBody(pooled, true, body, finalized);
      OwnLockOnlyWhenPooled(trxlock, body, finalized);
      outcome := RunBody(body);
      if outcome == Stuck {
        return;
      }
      if pooled {
        trxlock := false;
      }
      if !finalized && outcome == OtherError {
        SentAppends(raw, r.events, [Finish(false)]);
        var _ := End(false);
        assert log == old(log) + (r.events + [Finish(false)]);
      }
    }

    method RunAction(action: Action) returns (outcome: Outcome)
      modifies this`log, this`finalized, this`trxlock, connection
      ensures Shows(OfAction(pooled, old(trxlock), action, old(finalized)), outcome, old(log), old(connection.state))
      ensures outcome != Stuck ==> trxlock == old(trxlock)
      decreases action, 2
    {
      match action
      case Execute(s) => Execute(s); outcome := Normal;
      case Commit => outcome := End(true);
      case Rollback => outcome := End(false);
      case Raise(management) => outcome := if management then ManagementError else OtherError;
      case Try(body) =>
        outcome := RunBody(body);
        if outcome != Stuck {
          outcome := Normal;
        }
      case Nested(body) => outcome := RunNested(body);
    }

    method RunBody(body: seq<Action>) returns (outcome: Outcome)
      modifies this`log, this`finalized, this`trxlock, connection
      ensures Shows(OfBody(pooled, old(trxlock), body, old(finalized)), outcome, old(log), old(connection.state))
      ensures outcome != Stuck ==> trxlock == old(trxlock)
      decreases body, 0
    {
      outcome := Normal;
      if body != [] {
        var n := |body| - 1;
        ghost var e := OfBody(pooled, trxlock, body[..n], finalized);
        outcome := RunBody(body[..n]);
        if outcome == Normal {
          ghost var a := OfAction(pooled, trxlock, body[n], finalized);
          SentAppends(old(connection.state), e.events, a.events);
          outcome := RunAction(body[n]);
          assert log == old(log) + (e.events + a.events);
        }
      }
    }

    /** `async with in_transaction():` around `body`. */
    method RunBlock(body: seq<Action>) returns (outcome: Outcome)
      requires !finalized && !trxlock && log == [] && (pooled ==> connection.state.Closed?)
      modifies this, connection
      ensures outcome == OfBody(pooled, false, body, false).outcome
      ensures log == OfBlock(pooled, body)
      ensures var db := old(connection.state).Finish(true).db;
              connection.state == Sent(Open(db, db), OfBlock(pooled, body))
    {
      var ok := Start();
      ghost var raw := connection.state;
      ghost var r := OfBody(pooled, false, body, false);
      outcome := RunBody(body);
      SentAppends(raw, r.events, AtExit(r.finalized, outcome));
      Leave(outcome);
    }

    /** `__aexit__` of the outer context; a body that is stuck never gets there. */
    method Leave(outcome: Outcome)
      modifies this`log, this`finalized, connection
      ensures log == old(log) + AtExit(old(finalized), outcome)
      ensures connection.state == Sent(old(connection.state), AtExit(old(finalized), outcome))
    {
      if !finalized && outcome != Stuck {
        if outcome == Normal {
          var _ := End(true);
        } else if outcome != ManagementError {
          var _ := End(false);
        }
      }
    }
  }

  /** Without pooling the wrapper's lock plays no part. */
  lemma {:induction false} OwnLockOnlyWhenPooled(held: bool, body: seq<Action>, finalized: bool)
    ensures OfBody(false, held, body, finalized) == OfBody(false, true, body, finalized)
    decreases body, 0
  {
    if body != [] {
      var n := |body| - 1;
      OwnLockOnlyWhenPooled(held, body[..n], finalized);
      OwnLockInAction(held, body[n], OfBody(false, held, body[..n], finalized).finalized);
    }
  }

  lemma {:induction false} OwnLockInAction(held: bool, action: Action, finalized: bool)
    ensures OfAction(false, held, action, finalized) == OfAction(false, true, action, finalized)
    decreases action, 0
  {
    if action.Try? {
      OwnLockOnlyWhenPooled(held, action.body, finalized);
    }
  }

  // ---- Finalised at most once ------------------------------------------------------------------

  function Ends(log: seq<Event>): nat {
    if log == [] then 0 else Ends(log[..|log| - 1]) + if log[|log| - 1].Finish? then 1 else 0
  }

  lemma {:induction false} EndsAppends(a: seq<Event>, b: seq<Event>)
    ensures Ends(a + b) == Ends(a) + Ends(b)
  {
    if b == [] {
      assert a + b == a;
    } else {
      assert (a + b)[..|a + b| - 1] == a + b[..|b| - 1];
      EndsAppends(a, b[..|b| - 1]);
    }
  }

  /** The finalised flag counts the ends: each body turns it on with at most one end, and a
      transaction already finalised is never ended again. */
  lemma {:induction false} BodyEnds(pooled: bool, held: bool, body: seq<Action>, finalized: bool)
    ensures var r := OfBody(pooled, held, body, finalized);
            (finalized ==> r.finalized) && Ends(r.events) == if r.finalized && !finalized then 1 else 0
    decreases body, 0
  {
    if body != [] {
      var n := |body| - 1;
      BodyEnds(pooled, held, body[..n], finalized);
      var r := OfBody(pooled, held, body[..n], finalized);
      if r.outcome == Normal {
        ActionEnds(pooled, held, body[n], r.finalized);
        EndsAppends(r.events, OfAction(pooled, held, body[n], r.finalized).events);
      }
    }
  }

  lemma {:induction false} ActionEnds(pooled: bool, held: bool, action: Action, finalized: bool)
    ensures var r := OfAction(pooled, held, action, finalized);
            (finalized ==> r.finalized) && Ends(r.events) == if r.finalized && !finalized then 1 else 0
    decreases action, 0
  {
    SingleEnds();
    match action
    case Try(body) => BodyEnds(pooled, held, body, finalized);
    case Nested(body) =>
      if !(pooled && held) {
        BodyEnds(pooled, true, body, finalized);
        EndsAppends(OfBody(pooled, true, body, finalized).events, [Finish(false)]);
      }
    case _ =>
  }

  lemma SingleEnds()
    ensures Ends([Finish(true)]) == 1 && Ends([Finish(false)]) == 1
    ensures forall s: Stmt :: Ends([Exec(s)]) == 0
  {
    forall e: Event ensures Ends([e]) == if e.Finish? then 1 else 0 {
      assert [e][..0] == [];
    }
  }

  /** The body ended by TransactionManagementError with the transaction unfinalised. */
  predicate Leaks(pooled: bool, body: seq<Action>) {
    var r := OfBody(pooled, false, body, false);
    !r.finalized && r.outcome == ManagementError
  }

  /** However contexts nest and exceptions fly, the transaction is finalised at most once; it is
      left unfinalised exactly when TransactionManagementError leaves an unfinalised block, or when
      the body never ends. */
  lemma FinalisedOnce(pooled: bool, body: seq<Action>)
    ensures Ends(OfBlock(pooled, body)) <= 1
    ensures Ends(OfBlock(pooled, body)) == 1 <==>
            !Leaks(pooled, body)
            && (OfBody(pooled, false, body, false).outcome == Stuck ==> OfBody(pooled, false, body, false).finalized)
  {
    var r := OfBody(pooled, false, body, false);
    BodyEnds(pooled, false, body, false);
    EndsAppends(r.events, AtExit(r.finalized, r.outcome));
    SingleEnds();
  }

  lemma {:induction false} EndsMeansFinished(log: seq<Event>)
    ensures Ends(log) > 0 <==> Finished(log)
  {
    if log != [] {
      EndsMeansFinished(log[..|log| - 1]);
      FinishedGrows(log[..|log| - 1], log[|log| - 1]);
      assert log == log[..|log| - 1] + [log[|log| - 1]];
    }
  }

  // ---- All or nothing --------------------------------------------------------------------------

  /** What is in the database when a block is over. The statements before the end of the
      transaction survive together, exactly when that end is a commit; statements sent through the
      wrapper after it are committed one by one. */
  lemma AllOrNothing(pooled: bool, body: seq<Action>, db: Db, i: nat)
    requires i < |OfBlock(pooled, body)| && OfBlock(pooled, body)[i].Finish?
    ensures var log := OfBlock(pooled, body);
            && (forall j :: 0 <= j < |log| && log[j].Finish? ==> j == i)
            && Sent(Open(db, db), log) ==
               Closed(ExecAll(if log[i].commit then ExecAll(db, log[..i]) else db, log[i + 1..]))
  {
    var log := OfBlock(pooled, body);
    FinalisedOnce(pooled, body);
    OnlyOneEnd(log, i);
    assert !Finished(log[..i]);
    FirstFinishUnique(log, i);
    SentIsAtomic(db, log);
  }

  lemma OnlyOneEnd(log: seq<Event>, i: nat)
    requires i < |log| && log[i].Finish? && Ends(log) <= 1
    ensures forall j :: 0 <= j < |log| && log[j].Finish? ==> j == i
  {
    assert log == log[..i] + [log[i]] + log[i + 1..];
    EndsAppends(log[..i] + [log[i]], log[i + 1..]);
    EndsAppends(log[..i], [log[i]]);
    SingleEnds();
    EndsMeansFinished(log[..i]);
    EndsMeansFinished(log[i + 1..]);
    assert forall j :: 0 <= j < i ==> log[..i][j] == log[j];
    assert forall j :: i < j < |log| ==> log[j] == log[i + 1..][j - i - 1];
  }

  /** A leaked transaction changes nothing by itself, and stays open. */
  lemma LeakStaysOpen(pooled: bool, body: seq<Action>, db: Db)
    requires Leaks(pooled, body)
    ensures Sent(Open(db, db), OfBlock(pooled, body)) == Open(db, ExecAll(db, OfBlock(pooled, body)))
  {
    FinalisedOnce(pooled, body);
    EndsMeansFinished(OfBlock(pooled, body));
    SentIsAtomic(db, OfBlock(pooled, body));
  }

  /** A body that executes a statement and raises TransactionManagementError leaks. */
  lemma RaisingLeaks(pooled: bool, f: Stmt, db: Db)
    ensures Leaks(pooled, [Execute(f), Raise(true)])
    ensures Sent(Open(db, db), OfBlock(pooled, [Execute(f), Raise(true)])) == Open(db, f(db))
  {
    OfTwo(pooled, f);
    LeakStaysOpen(pooled, [Execute(f), Raise(true)], db);
    assert [Exec(f)][..0] == [];
  }

  lemma OfTwo(pooled: bool, f: Stmt)
    ensures OfBody(pooled, false, [Execute(f), Raise(true)], false) == Effect([Exec(f)], false, ManagementError, 0)
    ensures OfBlock(pooled, [Execute(f), Raise(true)]) == [Exec(f)]
  {
    var one, two := [Execute(f)], [Execute(f), Raise(true)];
    assert one[..0] == [] && two[..1] == one;
    assert [] + [Exec(f)] == [Exec(f)] && [Exec(f)] + [] == [Exec(f)];
    assert OfBody(pooled, false, one, false) == Effect([Exec(f)], false, Normal, 0);
  }

  // ---- Nested contexts never commit ------------------------------------------------------------

  ghost predicate SaysCommit(body: seq<Action>)
    decreases body
  {
    exists a <- body :: ActionSaysCommit(a)
  }

  ghost predicate ActionSaysCommit(a: Action)
    decreases a
  {
    match a
    case Commit => true
    case Try(body) => SaysCommit(body)
    case Nested(body) => SaysCommit(body)
    case _ => false
  }

  /** Without an explicit commit in it, a body commits nothing, however many nested contexts it
      enters and leaves. */
  lemma {:induction false} NestedNeverCommits(pooled: bool, held: bool, body: seq<Action>, finalized: bool)
    requires !SaysCommit(body)
    ensures Event.Finish(true) !in OfBody(pooled, held, body, finalized).events
    decreases body, 0
  {
    if body != [] {
      var n := |body| - 1;
      assert forall a <- body[..n] :: a in body;
      NestedNeverCommits(pooled, held, body[..n], finalized);
      var r := OfBody(pooled, held, body[..n], finalized);
      assert body[n] in body && !ActionSaysCommit(body[n]);
      match body[n]
      case Try(inner) => NestedNeverCommits(pooled, held, inner, r.finalized);
      case Nested(inner) =>
        if !(pooled && held) {
          NestedNeverCommits(pooled, true, inner, r.finalized);
        }
      case _ =>
    }
  }

  // ---- Nesting and the pooled lock -------------------------------------------------------------

  /** On the pooled backends a nested context takes a lock that is not re-entrant: the body waits for
      itself exactly when it enters a nested context inside a nested one; otherwise it does the same
      as without pooling. */
  lemma {:induction false} PooledNestingGetsStuck(held: bool, body: seq<Action>, finalized: bool)
    ensures var plain, pooled := OfBody(false, false, body, finalized), OfBody(true, held, body, finalized);
            && plain.outcome != Stuck
            && (pooled.outcome == Stuck <==> plain.depth >= if held then 1 else 2)
            && (pooled.outcome != Stuck ==> pooled == plain)
    decreases body, 0
  {
    if body != [] {
      var n := |body| - 1;
      PooledNestingGetsStuck(held, body[..n], finalized);
      ActionGetsStuck(held, body[n], OfBody(false, false, body[..n], finalized).finalized);
    }
  }

  lemma {:induction false} ActionGetsStuck(held: bool, action: Action, finalized: bool)
    ensures var plain, pooled := OfAction(false, false, action, finalized), OfAction(true, held, action, finalized);
            && plain.outcome != Stuck
            && (pooled.outcome == Stuck <==> plain.depth >= if held then 1 else 2)
            && (pooled.outcome != Stuck ==> pooled == plain)
    decreases action, 0
  {
    match action
    case Try(body) => PooledNestingGetsStuck(held, body, finalized);
    case Nested(body) =>
      OwnLockOnlyWhenPooled(false, body, finalized);
      PooledNestingGetsStuck(true, body, finalized);
    case _ =>
  }

  /** Three contexts inside one another: on SQLite a commit, on a pooled backend a standstill. */
  lemma ThirdLevelGetsStuck()
    ensures var body := [Nested([Nested([])])];
            && OfBody(false, false, body, false).outcome == Normal
            && OfBody(true, false, body, false).outcome == Stuck
            && OfBlock(false, body) == [Finish(true)] && OfBlock(true, body) == []
  {
    var body, inner := [Nested([Nested([])])], [Nested([])];
    assert body[..0] == [] && inner[..0] == [];
    assert OfBody(false, true, inner, false) == Effect([], false, Normal, 1);
    assert OfBody(true, true, inner, false).outcome == Stuck;
  }
}
